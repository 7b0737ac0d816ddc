/** Escaping a search text for SQL LIKE, and what the escaped pattern matches. */
module LikeEscape {
  import opened Wrappers

  const ESCAPE: char := '\\'
  const MANY: char := '%'
  const ONE: char := '_'

  /** `value.replace(/c/g, by)`. */
  function ReplaceAll(s: string, c: char, text: string): string {
    if s == "" then "" else (if s[0] == c then text else [s[0]]) + ReplaceAll(s[1..], c, text)
  }

  /** The three replacements, backslash first. */
  function EscapeLikeMetacharacters(value: string): string {
    ReplaceAll(ReplaceAll(ReplaceAll(value, ESCAPE, [ESCAPE, ESCAPE]), MANY, [ESCAPE, MANY]), ONE, [ESCAPE, ONE])
  }

  predicate IsMeta(c: char) {
    c == ESCAPE || c == MANY || c == ONE
  }

  /** Each metacharacter prefixed once, in one pass. */
  function EscapeInOnePass(value: string): string {
    if value == "" then ""
    else (if IsMeta(value[0]) then [ESCAPE, value[0]] else [value[0]]) + EscapeInOnePass(value[1..])
  }

  lemma {:induction false} ReplaceInParts(a: string, b: string, c: char, text: string)
    ensures ReplaceAll(a + b, c, text) == ReplaceAll(a, c, text) + ReplaceAll(b, c, text)
  {
    if a == "" {
      assert a + b == b;
    } else {
      assert (a + b)[1..] == a[1..] + b;
      ReplaceInParts(a[1..], b, c, text);
    }
  }

  lemma {:induction false} ReplaceInShort(x: char, y: char, c: char, text: string)
    ensures ReplaceAll([x], c, text) == if x == c then text else [x]
    ensures ReplaceAll([x, y], c, text) == (if x == c then text else [x]) + (if y == c then text else [y])
  {
    assert [x][1..] == "" && [x, y][1..] == [y] && [y][1..] == "";
  }

  /** One character through the three replacements. */
  lemma {:induction false} EscapeOne(c: char)
    ensures EscapeLikeMetacharacters([c]) == if IsMeta(c) then [ESCAPE, c] else [c]
  {
    ReplaceInShort(c, c, ESCAPE, [ESCAPE, ESCAPE]);
    ReplaceInShort(c, c, MANY, [ESCAPE, MANY]);
    ReplaceInShort(ESCAPE, ESCAPE, MANY, [ESCAPE, MANY]);
    ReplaceInShort(c, c, ONE, [ESCAPE, ONE]);
    ReplaceInShort(ESCAPE, ESCAPE, ONE, [ESCAPE, ONE]);
    ReplaceInShort(ESCAPE, MANY, ONE, [ESCAPE, ONE]);
  }

  /** The replacements in this order never touch a backslash they put in themselves. */
  lemma {:induction false} ThreeReplacementsAreOnePass(value: string)
    ensures EscapeLikeMetacharacters(value) == EscapeInOnePass(value)
  {
    if value != "" {
      var head, tail := [value[0]], value[1..];
      assert value == head + tail;
      ReplaceInParts(head, tail, ESCAPE, [ESCAPE, ESCAPE]);
      var head1, tail1 := ReplaceAll(head, ESCAPE, [ESCAPE, ESCAPE]), ReplaceAll(tail, ESCAPE, [ESCAPE, ESCAPE]);
      ReplaceInParts(head1, tail1, MANY, [ESCAPE, MANY]);
      ReplaceInParts(ReplaceAll(head1, MANY, [ESCAPE, MANY]), ReplaceAll(tail1, MANY, [ESCAPE, MANY]), ONE, [ESCAPE, ONE]);
      EscapeOne(value[0]);
      ThreeReplacementsAreOnePass(tail);
    }
  }

  // ---- LIKE with an escape character (section 8.5 of ISO/IEC 9075-2) ----------------------

  datatype Token = AnyRun | AnyOne | Literal(c: char)

  /** An escape must be followed by a metacharacter, which then stands for itself. */
  function ParsePattern(p: string): Result<seq<Token>, string> {
    if p == "" then Ok([])
    else if p[0] == ESCAPE then
      if |p| > 1 && IsMeta(p[1]) then Prepend(Literal(p[1]), ParsePattern(p[2..])) else Err("invalid escape sequence")
    else Prepend(if p[0] == MANY then AnyRun else if p[0] == ONE then AnyOne else Literal(p[0]), ParsePattern(p[1..]))
  }

  function Prepend(t: Token, rest: Result<seq<Token>, string>): Result<seq<Token>, string> {
    if rest.Ok? then Ok([t] + rest.value) else rest
  }

  predicate Matches(s: string, tokens: seq<Token>)
    decreases |tokens|
  {
    if tokens == [] then s == ""
    else match tokens[0]
      case AnyRun => exists k :: 0 <= k <= |s| && Matches(s[k..], tokens[1..])
      case AnyOne => s != "" && Matches(s[1..], tokens[1..])
      case Literal(c) => s != "" && s[0] == c && Matches(s[1..], tokens[1..])
  }

  predicate Like(s: string, p: string) {
    ParsePattern(p).Ok? && Matches(s, ParsePattern(p).value)
  }

  function Literals(v: string): seq<Token> {
    if v == "" then [] else [Literal(v[0])] + Literals(v[1..])
  }

  /** The pattern the query sends for a search text. */
  function ContainsPattern(v: string): string {
    [MANY] + EscapeLikeMetacharacters(v) + [MANY]
  }

  lemma {:induction false} PercentParses(rest: string)
    ensures ParsePattern([MANY] + rest) == Prepend(AnyRun, ParsePattern(rest))
  {
    assert ([MANY] + rest)[1..] == rest;
  }

  lemma {:induction false} EscapedTextParses(v: string)
    ensures ParsePattern(EscapeInOnePass(v) + [MANY]) == Ok(Literals(v) + [AnyRun])
  {
    var p := EscapeInOnePass(v) + [MANY];
    if v == "" {
      assert p == [MANY] + "";
      PercentParses("");
      assert [AnyRun] + [] == Literals(v) + [AnyRun];
    } else {
      EscapedTextParses(v[1..]);
      var rest := EscapeInOnePass(v[1..]) + [MANY];
      if IsMeta(v[0]) {
        assert p == [ESCAPE, v[0]] + rest && p[2..] == rest;
      } else {
        assert p == [v[0]] + rest && p[1..] == rest;
      }
      assert Literals(v) + [AnyRun] == [Literal(v[0])] + (Literals(v[1..]) + [AnyRun]);
    }
  }

  lemma {:induction false} LastRunMatchesAll(s: string)
    ensures Matches(s, [AnyRun])
  {
    assert s[|s|..] == "" && [AnyRun][1..] == [];
    assert Matches(s[|s|..], [AnyRun][1..]);
  }

  lemma {:induction false} LiteralsMatchPrefix(s: string, v: string)
    ensures Matches(s, Literals(v) + [AnyRun]) <==> v <= s
  {
    var tokens := Literals(v) + [AnyRun];
    if v == "" {
      assert tokens == [AnyRun];
      LastRunMatchesAll(s);
    } else {
      assert tokens[1..] == Literals(v[1..]) + [AnyRun];
      if s != "" {
        LiteralsMatchPrefix(s[1..], v[1..]);
        assert v == [v[0]] + v[1..] && s == [s[0]] + s[1..];
        assert v <= s <==> v[0] == s[0] && v[1..] <= s[1..];
      }
    }
  }

  predicate IsSubstring(v: string, s: string) {
    exists k :: 0 <= k <= |s| && v <= s[k..]
  }

  /** For every text and every search text: the escaped pattern matches exactly the texts that contain it. */
  lemma {:induction false} EscapedPatternMeansContains(v: string, s: string)
    ensures Like(s, ContainsPattern(v)) <==> IsSubstring(v, s)
  {
    ThreeReplacementsAreOnePass(v);
    EscapedTextParses(v);
    var p, rest := ContainsPattern(v), EscapeInOnePass(v) + [MANY];
    assert p == [MANY] + rest && p[1..] == rest;
    var tokens := Literals(v) + [AnyRun];
    var all := [AnyRun] + tokens;
    assert ParsePattern(p) == Ok(all) && all[1..] == tokens;
    forall k | 0 <= k <= |s| ensures Matches(s[k..], tokens) <==> v <= s[k..] {
      LiteralsMatchPrefix(s[k..], v);
    }
  }

  /** Unescaped, a percent sign as the search text matches every text, containing it or not. */
  lemma {:induction false} UnescapedPercentMatchesEverything(s: string)
    ensures Like(s, [MANY] + "%" + [MANY])
  {
    var p := [MANY] + "%" + [MANY];
    assert p == [MANY] + ([MANY] + ([MANY] + ""));
    PercentParses("");
    PercentParses([MANY] + "");
    PercentParses([MANY] + ([MANY] + ""));
    var all := [AnyRun, AnyRun, AnyRun];
    assert all == [AnyRun] + ([AnyRun] + ([AnyRun] + []));
    assert ParsePattern(p) == Ok(all);
    LastRunMatchesAll(s);
    assert s[0..] == s && all[1..][1..] == [AnyRun];
    assert Matches(s[0..], all[1..][1..]);
    assert Matches(s, all[1..]);
    assert Matches(s[0..], all[1..]);
  }
}
