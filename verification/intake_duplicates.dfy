/** Which records look like the same trader: the match relation, its strength, and the in-file index. */
module IntakeDuplicates {
  import opened Wrappers
  import opened Sequences

  datatype Attribute = Phone | Email | TraderName | Gps

  /** What a caller compares: the raw fields of one candidate. */
  datatype Candidate = Candidate(
    phone: Option<string>,
    country: string,
    email: Option<string>,
    traderName: string,
    latitude: Option<real>,
    longitude: Option<real>)

  /** The normalizers, and the order on keys that breaks ties (`localeCompare`). */
  datatype Rules = Rules(
    phoneOf: (Option<string>, string) -> Option<string>,
    emailOf: Option<string> -> Option<string>,
    nameOf: string -> string,
    before: (string, string) -> bool)

  /** A record under its key, compared fields normalized; a candidate of a file has no trader id yet. */
  datatype Row = Row(
    key: string,
    traderId: string,
    traderName: string,
    phone: Option<string>,
    email: Option<string>,
    name: string,
    latitude: Option<real>,
    longitude: Option<real>)

  datatype Match = Match(key: string, traderId: string, traderName: string, matchedOn: seq<Attribute>)

  datatype Partition = Partition(strong: seq<Match>, weak: seq<Match>)

  const BOX_DEGREES: real := 0.01

  const MAX_WEAK_CANDIDATES: nat := 5

  const MAX_CANDIDATES_PER_REGISTRATION: nat := 5

  function Normalize(rules: Rules, key: string, c: Candidate): Row {
    Row(key, "", c.traderName, rules.phoneOf(c.phone, c.country), rules.emailOf(c.email), rules.nameOf(c.traderName),
        c.latitude, c.longitude)
  }

  function Distance(a: real, b: real): real {
    if a < b then b - a else a - b
  }

  predicate IsWithinBoundingBox(a: Row, b: Row) {
    && a.latitude.Some? && a.longitude.Some? && b.latitude.Some? && b.longitude.Some?
    && Distance(a.latitude.value, b.latitude.value) <= BOX_DEGREES
    && Distance(a.longitude.value, b.longitude.value) <= BOX_DEGREES
  }

  /** A present, non-empty value on both sides, and the same. */
  predicate SameValue(a: Option<string>, b: Option<string>) {
    a.Some? && a.value != "" && a == b
  }

  predicate SameName(a: Row, b: Row) {
    a.name != "" && a.name == b.name
  }

  function When(holds: bool, attribute: Attribute): seq<Attribute> {
    if holds then [attribute] else []
  }

  /** The four comparisons, always in the order phone, email, name, position. */
  function ComputeMatchedOn(a: Row, b: Row): seq<Attribute> {
    When(SameValue(a.phone, b.phone), Phone) + When(SameValue(a.email, b.email), Email)
    + When(SameName(a, b), TraderName) + When(IsWithinBoundingBox(a, b), Gps)
  }

  lemma {:induction false} MatchedOnMeaning(a: Row, b: Row)
    ensures var r := ComputeMatchedOn(a, b);
            && (Phone in r <==> SameValue(a.phone, b.phone)) && (Email in r <==> SameValue(a.email, b.email))
            && (TraderName in r <==> SameName(a, b)) && (Gps in r <==> IsWithinBoundingBox(a, b))
    ensures NoRepeat(ComputeMatchedOn(a, b))
    ensures ComputeMatchedOn(a, b) == [] <==> !SharesContact(a, b) && !SameName(a, b) && !IsWithinBoundingBox(a, b)
  {
    MarksMeaning(SameValue(a.phone, b.phone), SameValue(a.email, b.email), SameName(a, b), IsWithinBoundingBox(a, b));
  }

  /** The same over the raw candidate: each normalizer on its own fields, the box a hundredth of a degree each way. */
  lemma {:induction false} MatchedExactlyWhen(rules: Rules, key: string, c: Candidate, r: Row)
    ensures var m := ComputeMatchedOn(Normalize(rules, key, c), r);
            && (Phone in m <==> r.phone.Some? && r.phone.value != "" && rules.phoneOf(c.phone, c.country) == r.phone)
            && (Email in m <==> r.email.Some? && r.email.value != "" && rules.emailOf(c.email) == r.email)
            && (TraderName in m <==> r.name != "" && rules.nameOf(c.traderName) == r.name)
            && (Gps in m <==>
                  && c.latitude.Some? && c.longitude.Some? && r.latitude.Some? && r.longitude.Some?
                  && -0.01 <= c.latitude.value - r.latitude.value <= 0.01
                  && -0.01 <= c.longitude.value - r.longitude.value <= 0.01)
            && |m| == (if Phone in m then 1 else 0) + (if Email in m then 1 else 0)
                      + (if TraderName in m then 1 else 0) + (if Gps in m then 1 else 0)
  {
    MatchedOnMeaning(Normalize(rules, key, c), r);
  }

  lemma {:induction false} PairMeaning(p: bool, x: Attribute, q: bool, y: Attribute)
    requires x != y
    ensures var r := When(p, x) + When(q, y);
            && (forall z :: z in r <==> (p && z == x) || (q && z == y)) && NoRepeat(r)
            && (r == [] <==> !p && !q)
  {
    if p && q {
      assert When(p, x) + When(q, y) == [x, y];
    }
  }

  lemma {:induction false} JoinNoRepeat(s: seq<Attribute>, t: seq<Attribute>)
    requires NoRepeat(s) && NoRepeat(t) && forall x | x in s :: x !in t
    ensures NoRepeat(s + t)
  {
    forall i, j | 0 <= i < j < |s + t| ensures (s + t)[i] != (s + t)[j] {
      if i < |s| <= j {
        assert s[i] in s && t[j - |s|] in t;
      }
    }
  }

  lemma {:induction false} MarksMeaning(phone: bool, email: bool, name: bool, gps: bool)
    ensures var r := When(phone, Phone) + When(email, Email) + When(name, TraderName) + When(gps, Gps);
            && (Phone in r <==> phone) && (Email in r <==> email) && (TraderName in r <==> name) && (Gps in r <==> gps)
            && NoRepeat(r) && (r == [] <==> !phone && !email && !name && !gps)
  {
    var contact, rest := When(phone, Phone) + When(email, Email), When(name, TraderName) + When(gps, Gps);
    PairMeaning(phone, Phone, email, Email);
    PairMeaning(name, TraderName, gps, Gps);
    JoinNoRepeat(contact, rest);
    assert contact + When(name, TraderName) + When(gps, Gps) == contact + rest;
  }

  predicate SharesContact(a: Row, b: Row) {
    SameValue(a.phone, b.phone) || SameValue(a.email, b.email)
  }

  lemma {:induction false} MatchingIsSymmetric(a: Row, b: Row)
    ensures ComputeMatchedOn(a, b) == ComputeMatchedOn(b, a)
  {
    assert SameValue(a.phone, b.phone) == SameValue(b.phone, a.phone);
  }

  predicate IsStrong(m: Match) {
    Phone in m.matchedOn || Email in m.matchedOn
  }

  predicate IsWeak(m: Match) {
    !IsStrong(m)
  }

  /** More attributes first, then the key. */
  function Stronger(before: (string, string) -> bool): (Match, Match) -> bool {
    (a: Match, b: Match) =>
      |a.matchedOn| > |b.matchedOn| || (|a.matchedOn| == |b.matchedOn| && before(a.key, b.key))
  }

  ghost predicate TotalOrder(before: (string, string) -> bool) {
    && (forall x, y :: before(x, y) ==> !before(y, x))
    && (forall x, y :: x != y ==> before(x, y) || before(y, x))
    && (forall x, y, z :: before(x, y) && before(y, z) ==> before(x, z))
  }

  /** The one partition rule: sort, then the strong ones uncapped and the first few of the rest. */
  function PartitionByStrength(all: seq<Match>, before: (string, string) -> bool): Partition {
    var sorted := SortBy(all, Stronger(before));
    Partition(Filter(sorted, IsStrong), Take(Filter(sorted, IsWeak), MAX_WEAK_CANDIDATES))
  }

  predicate DistinctKeys(all: seq<Match>) {
    forall i, j :: 0 <= i < j < |all| ==> all[i].key != all[j].key
  }

  lemma {:induction false} StrengthIsLinear(all: seq<Match>, before: (string, string) -> bool)
    requires TotalOrder(before) && DistinctKeys(all)
    ensures Linear(Stronger(before), Elements(all)) && NoRepeat(all)
  {
  }

  /**
   * What a partition holds: every strong match and nothing else, strongest first; and of the weak
   * ones, strongest first, all of them when they fit and otherwise five that no dropped one precedes.
   */
  lemma {:induction false} PartitionMeaning(all: seq<Match>, before: (string, string) -> bool)
    requires TotalOrder(before) && DistinctKeys(all)
    ensures var p, less := PartitionByStrength(all, before), Stronger(before);
            && (forall m :: m in p.strong <==> m in all && IsStrong(m))
            && (forall m :: m in p.weak ==> m in all && IsWeak(m))
            && Ordered(p.strong, less) && Ordered(p.weak, less) && |p.weak| <= MAX_WEAK_CANDIDATES
            && (forall m | m in all && IsWeak(m) && m !in p.weak ::
                 |p.weak| == MAX_WEAK_CANDIDATES && forall w | w in p.weak :: less(w, m))
  {
    var less := Stronger(before);
    StrengthIsLinear(all, before);
    SortIsOrdered(all, less);
    SortHasSameElements(all, less);
    var sorted := SortBy(all, less);
    FilterKeepsOrder(sorted, IsStrong, less);
    FilterKeepsOrder(sorted, IsWeak, less);
    var weak := Filter(sorted, IsWeak);
    forall m | m in all && IsWeak(m) && m !in Take(weak, MAX_WEAK_CANDIDATES)
      ensures |weak| > MAX_WEAK_CANDIDATES
      ensures forall w | w in Take(weak, MAX_WEAK_CANDIDATES) :: less(w, m)
    {
      assert m in weak;
      var k :| 0 <= k < |weak| && weak[k] == m;
    }
  }

  /** The order of a list of matches: more attributes first, equally many by key. */
  predicate Ranked(list: seq<Match>, before: (string, string) -> bool) {
    forall i, j :: 0 <= i < j < |list| ==>
                     && |list[i].matchedOn| >= |list[j].matchedOn|
                     && (|list[i].matchedOn| == |list[j].matchedOn| ==> before(list[i].key, list[j].key))
  }

  /** Every match of the list goes before this one. */
  predicate AllAhead(list: seq<Match>, m: Match, before: (string, string) -> bool) {
    forall i :: 0 <= i < |list| ==>
                  && |list[i].matchedOn| >= |m.matchedOn|
                  && (|list[i].matchedOn| == |m.matchedOn| ==> before(list[i].key, m.key))
  }

  /** The partition's lists by number of attributes and key; a weak match is dropped only behind five others. */
  lemma {:induction false} PartitionIsRanked(all: seq<Match>, before: (string, string) -> bool)
    requires TotalOrder(before) && DistinctKeys(all)
    ensures var p := PartitionByStrength(all, before);
            && Ranked(p.strong, before) && Ranked(p.weak, before)
            && (forall m :: m in p.strong <==> m in all && (Phone in m.matchedOn || Email in m.matchedOn))
            && (forall m :: m in p.weak ==> m in all && Phone !in m.matchedOn && Email !in m.matchedOn)
            && forall m | m in all && m !in p.strong && m !in p.weak :: |p.weak| == 5 && AllAhead(p.weak, m, before)
  {
    PartitionMeaning(all, before);
    var p, less := PartitionByStrength(all, before), Stronger(before);
    OrderedIsRanked(p.strong, before);
    OrderedIsRanked(p.weak, before);
    forall m | m in all && m !in p.strong && m !in p.weak ensures |p.weak| == 5 && AllAhead(p.weak, m, before) {
      forall i | 0 <= i < |p.weak| ensures less(p.weak[i], m) {
        assert p.weak[i] in p.weak;
      }
    }
  }

  lemma {:induction false} OrderedIsRanked(list: seq<Match>, before: (string, string) -> bool)
    requires Ordered(list, Stronger(before))
    ensures Ranked(list, before)
  {
    forall i, j | 0 <= i < j < |list|
      ensures |list[i].matchedOn| >= |list[j].matchedOn|
      ensures |list[i].matchedOn| == |list[j].matchedOn| ==> before(list[i].key, list[j].key)
    {
      assert Stronger(before)(list[i], list[j]);
    }
  }

  /** The partition is a function of which matches there are, not of the order they were found in. */
  lemma {:induction false} PartitionIgnoresArrival(a: seq<Match>, b: seq<Match>, before: (string, string) -> bool)
    requires TotalOrder(before) && DistinctKeys(a) && DistinctKeys(b)
    requires forall m :: m in a <==> m in b
    ensures PartitionByStrength(a, before) == PartitionByStrength(b, before)
  {
    StrengthIsLinear(a, before);
    StrengthIsLinear(b, before);
    assert Elements(a) == Elements(b);
    ArrivalOrderDoesNotMatter(a, b, Stronger(before));
  }

  // ---- the linear scan --------------------------------------------------------------

  function MatchOf(q: Row, row: Row): Match {
    Match(row.key, row.traderId, row.traderName, ComputeMatchedOn(q, row))
  }

  function Comparison(q: Row): Row -> Option<Match> {
    (row: Row) => if ComputeMatchedOn(q, row) != [] then Some(MatchOf(q, row)) else None
  }

  function Scan(q: Row, rows: seq<Row>): seq<Match> {
    Collect(rows, Comparison(q))
  }

  lemma {:induction false} ScanFinds(q: Row, rows: seq<Row>, m: Match)
    ensures m in Scan(q, rows) <==> m.matchedOn != [] && exists r :: r in rows && m == MatchOf(q, r)
  {
    var f := Comparison(q);
    CollectFinds(rows, f, m);
    if m.matchedOn != [] {
      if r :| r in rows && m == MatchOf(q, r) {
        var i :| 0 <= i < |rows| && rows[i] == r;
        assert f(rows[i]) == Some(m);
      }
    }
  }

  predicate DistinctRows(rows: seq<Row>) {
    forall i, j :: 0 <= i < j < |rows| ==> rows[i].key != rows[j].key
  }

  lemma {:induction false} ScanHasDistinctKeys(q: Row, rows: seq<Row>)
    requires DistinctRows(rows)
    ensures DistinctKeys(Scan(q, rows))
  {
    if rows != [] {
      var n, f := |rows| - 1, Comparison(q);
      ScanHasDistinctKeys(q, rows[..n]);
      var earlier := Collect(rows[..n], f);
      forall i | 0 <= i < |earlier| ensures earlier[i].key != rows[n].key {
        CollectFinds(rows[..n], f, earlier[i]);
        var j :| 0 <= j < n && f(rows[..n][j]) == Some(earlier[i]);
      }
    }
  }

  function Classify(rules: Rules, c: Candidate, rows: seq<Row>): Partition {
    PartitionByStrength(Scan(Normalize(rules, "", c), rows), rules.before)
  }

  /** One candidate against a loaded snapshot of the actors. */
  method ClassifyAgainstSnapshot(rules: Rules, c: Candidate, snapshot: seq<Row>) returns (r: Partition)
    ensures r == Classify(rules, c, snapshot)
  {
    var q := Normalize(rules, "", c);
    var all: seq<Match> := [];
    for i := 0 to |snapshot|
      invariant all == Scan(q, snapshot[..i])
    {
      assert snapshot[..i + 1][..i] == snapshot[..i];
      var matchedOn := ComputeMatchedOn(q, snapshot[i]);
      if |matchedOn| > 0 {
        all := all + [Match(snapshot[i].key, snapshot[i].traderId, snapshot[i].traderName, matchedOn)];
      }
    }
    assert snapshot[..|snapshot|] == snapshot;
    r := PartitionByStrength(all, rules.before);
  }

  /** A strong match is exactly a record sharing a non-empty phone or email. */
  lemma {:induction false} StrongMeansSharedContact(rules: Rules, c: Candidate, rows: seq<Row>)
    requires TotalOrder(rules.before) && DistinctRows(rows)
    ensures forall m :: m in Classify(rules, c, rows).strong <==>
                          exists r :: r in rows && m == MatchOf(Normalize(rules, "", c), r)
                                      && SharesContact(Normalize(rules, "", c), r)
  {
    var q := Normalize(rules, "", c);
    ScanHasDistinctKeys(q, rows);
    PartitionMeaning(Scan(q, rows), rules.before);
    forall m
      ensures m in Classify(rules, c, rows).strong <==> exists r :: r in rows && m == MatchOf(q, r) && SharesContact(q, r)
    {
      ScanFinds(q, rows, m);
      if r :| r in rows && m == MatchOf(q, r) {
        StrongWhenShared(q, r);
      }
    }
  }

  lemma {:induction false} StrongWhenShared(q: Row, r: Row)
    ensures IsStrong(MatchOf(q, r)) <==> SharesContact(q, r)
    ensures SharesContact(q, r) ==> ComputeMatchedOn(q, r) != []
  {
    MatchedOnMeaning(q, r);
  }

  // ---- the candidates of one registration ---------------------------------------------------

  /** The registration's own published actor; an empty id names none. */
  predicate IsPublished(key: string, published: Option<string>) {
    published.Some? && published.value != "" && key == published.value
  }

  /** The actors a registration may still be shown: neither dismissed nor its own published actor. */
  function Shown(rows: seq<Row>, dismissed: set<string>, published: Option<string>): (r: seq<Row>)
    ensures forall x :: x in r <==> x in rows && x.key !in dismissed && !IsPublished(x.key, published)
  {
    if rows == [] then []
    else
      var n := |rows| - 1;
      assert rows == rows[..n] + [rows[n]];
      var earlier := Shown(rows[..n], dismissed, published);
      if rows[n].key in dismissed || IsPublished(rows[n].key, published) then earlier else earlier + [rows[n]]
  }

  /** A dismissed actor, and the registration's own, is never among the candidates shown. */
  lemma {:induction false} DismissedIsNeverShown(q: Row, actors: seq<Row>, dismissed: set<string>,
                                                 published: Option<string>, before: (string, string) -> bool, m: Match)
    requires m in Take(SortBy(Scan(q, Shown(actors, dismissed, published)), Stronger(before)),
                       MAX_CANDIDATES_PER_REGISTRATION)
    ensures m.key !in dismissed && !IsPublished(m.key, published)
  {
    var shown := Shown(actors, dismissed, published);
    SortHasSameElements(Scan(q, shown), Stronger(before));
    ScanFinds(q, shown, m);
  }

  predicate MayBeShown(a: Row, dismissed: set<string>, published: Option<string>) {
    a.key !in dismissed && (published.None? || published.value == "" || a.key != published.value)
  }

  lemma {:induction false} ScanIsMatches(q: Row, rows: seq<Row>, m: Match)
    ensures m in Scan(q, rows) <==> exists a :: a in rows && IsMatch(q, a, m)
  {
    ScanFinds(q, rows, m);
    if a :| a in rows && IsMatch(q, a, m) {
      assert m == MatchOf(q, a);
    }
    if m in Scan(q, rows) {
      var a :| a in rows && m == MatchOf(q, a);
      assert IsMatch(q, a, m);
    }
  }

  /** The first five of a list in order: none left out goes before one that is kept. */
  lemma {:induction false} FirstFive(all: seq<Match>, before: (string, string) -> bool)
    requires TotalOrder(before) && DistinctKeys(all)
    ensures var r := Take(SortBy(all, Stronger(before)), 5);
            && |r| <= 5 && Ranked(r, before) && (forall m | m in r :: m in all)
            && forall m | m in all && m !in r :: |r| == 5 && AllAhead(r, m, before)
  {
    var less := Stronger(before);
    StrengthIsLinear(all, before);
    SortIsOrdered(all, less);
    SortHasSameElements(all, less);
    var sorted := SortBy(all, less);
    OrderedIsRanked(Take(sorted, 5), before);
    forall m | m in all && m !in Take(sorted, 5) ensures |sorted| > 5 && AllAhead(Take(sorted, 5), m, before) {
      assert m in sorted;
      var k :| 0 <= k < |sorted| && sorted[k] == m;
      forall i | 0 <= i < 5 ensures less(sorted[i], m) {
      }
    }
  }

  /**
   * What a registration is shown: matches of actors neither dismissed nor its own, by number of
   * attributes and key, and all of them unless five go before the ones left out.
   */
  lemma {:induction false} ShownExactlyWhen(q: Row, actors: seq<Row>, dismissed: set<string>, published: Option<string>,
                                            before: (string, string) -> bool, m: Match)
    requires TotalOrder(before) && DistinctRows(actors)
    ensures var r := Take(SortBy(Scan(q, Shown(actors, dismissed, published)), Stronger(before)),
                          MAX_CANDIDATES_PER_REGISTRATION);
            && |r| <= 5 && Ranked(r, before)
            && (m in r ==> IsShown(q, actors, dismissed, published, m))
            && (m !in r && IsShown(q, actors, dismissed, published, m) ==> |r| == 5 && AllAhead(r, m, before))
  {
    var shown := Shown(actors, dismissed, published);
    ShownIsDistinct(actors, dismissed, published);
    ScanHasDistinctKeys(q, shown);
    FirstFive(Scan(q, shown), before);
    ScanIsMatches(q, shown, m);
  }

  ghost predicate IsShown(q: Row, actors: seq<Row>, dismissed: set<string>, published: Option<string>, m: Match) {
    exists a :: a in actors && MayBeShown(a, dismissed, published) && IsMatch(q, a, m)
  }

  /** This is how the record appears as a match of the candidate. */
  predicate IsMatch(q: Row, a: Row, m: Match) {
    && m.key == a.key && m.traderId == a.traderId && m.traderName == a.traderName
    && m.matchedOn == ComputeMatchedOn(q, a) && m.matchedOn != []
  }

  lemma {:induction false} ShownIsDistinct(rows: seq<Row>, dismissed: set<string>, published: Option<string>)
    requires DistinctRows(rows)
    ensures DistinctRows(Shown(rows, dismissed, published))
  {
    if rows != [] {
      var n := |rows| - 1;
      ShownIsDistinct(rows[..n], dismissed, published);
      var earlier := Shown(rows[..n], dismissed, published);
      forall i | 0 <= i < |earlier| ensures earlier[i].key != rows[n].key {
        assert earlier[i] in earlier && earlier[i] in rows[..n];
      }
    }
  }

  lemma {:induction false} OneMoreActor(q: Row, actors: seq<Row>, dismissed: set<string>, published: Option<string>, i: nat)
    requires i < |actors|
    ensures var m := MatchOf(q, actors[i]);
            var earlier := Scan(q, Shown(actors[..i], dismissed, published));
            Scan(q, Shown(actors[..i + 1], dismissed, published))
            == if actors[i].key in dismissed || IsPublished(actors[i].key, published) || m.matchedOn == [] then earlier
               else earlier + [m]
  {
    var earlier := Shown(actors[..i], dismissed, published);
    assert actors[..i + 1][..i] == actors[..i];
    assert (earlier + [actors[i]])[..|earlier|] == earlier;
  }

  method MatchOne(rules: Rules, c: Candidate, dismissed: set<string>, published: Option<string>, actors: seq<Row>)
    returns (r: seq<Match>)
    ensures r == Take(SortBy(Scan(Normalize(rules, "", c), Shown(actors, dismissed, published)),
                             Stronger(rules.before)),
                      MAX_CANDIDATES_PER_REGISTRATION)
  {
    var q := Normalize(rules, "", c);
    var candidates: seq<Match> := [];
    for i := 0 to |actors|
      invariant candidates == Scan(q, Shown(actors[..i], dismissed, published))
    {
      OneMoreActor(q, actors, dismissed, published, i);
      if actors[i].key in dismissed {
        continue;
      }
      if published.Some? && published.value != "" && actors[i].key == published.value {
        continue;
      }
      var m := MatchOf(q, actors[i]);
      if |m.matchedOn| > 0 {
        candidates := candidates + [m];
      }
    }
    assert actors[..|actors|] == actors;
    r := Take(SortBy(candidates, Stronger(rules.before)), MAX_CANDIDATES_PER_REGISTRATION);
  }

  // ---- the in-file index --------------------------------------------------------------

  /** `Map.set`: an existing key keeps its place. */
  function Put(rows: seq<Row>, row: Row): seq<Row> {
    if rows == [] then [row]
    else if rows[0].key == row.key then [row] + rows[1..]
    else [rows[0]] + Put(rows[1..], row)
  }

  /** The records after a run of `add`s: one a key, first-come order, latest content. */
  function LatestRows(rules: Rules, added: seq<(string, Candidate)>): seq<Row> {
    if added == [] then []
    else
      var n := |added| - 1;
      Put(LatestRows(rules, added[..n]), Normalize(rules, added[n].0, added[n].1))
  }

  lemma {:induction false} PutContents(rows: seq<Row>, row: Row, x: Row)
    requires DistinctRows(rows)
    ensures x in Put(rows, row) <==> x == row || (x in rows && x.key != row.key)
  {
    if rows != [] {
      assert rows == [rows[0]] + rows[1..];
      if rows[0].key == row.key {
        assert forall i | 0 <= i < |rows[1..]| :: rows[1..][i].key != row.key;
      } else {
        PutContents(rows[1..], row, x);
      }
    }
  }

  lemma {:induction false} PutKeepsDistinct(rows: seq<Row>, row: Row)
    requires DistinctRows(rows)
    ensures DistinctRows(Put(rows, row))
  {
    if rows != [] && rows[0].key != row.key {
      PutKeepsDistinct(rows[1..], row);
      var rest := Put(rows[1..], row);
      forall i | 0 <= i < |rest| ensures rest[i].key != rows[0].key {
        assert rest[i] in rest;
        PutContents(rows[1..], row, rest[i]);
      }
    }
  }

  lemma {:induction false} LatestAreDistinct(rules: Rules, added: seq<(string, Candidate)>)
    ensures DistinctRows(LatestRows(rules, added))
  {
    if added != [] {
      var n := |added| - 1;
      LatestAreDistinct(rules, added[..n]);
      PutKeepsDistinct(LatestRows(rules, added[..n]), Normalize(rules, added[n].0, added[n].1));
    }
  }

  /** Re-adding a key replaces its record; a record under another key stays. */
  lemma {:induction false} LatestAfter(rules: Rules, added: seq<(string, Candidate)>, key: string, c: Candidate, r: Row)
    ensures r in LatestRows(rules, added + [(key, c)])
            <==> r == Normalize(rules, key, c) || (r in LatestRows(rules, added) && r.key != key)
  {
    var all := added + [(key, c)];
    assert all[..|all| - 1] == added;
    LatestAreDistinct(rules, added);
    PutContents(LatestRows(rules, added), Normalize(rules, key, c), r);
  }

  /** A record stays until its key is added again. */
  lemma {:induction false} StaysLatest(rules: Rules, added: seq<(string, Candidate)>, more: seq<(string, Candidate)>, r: Row)
    requires r in LatestRows(rules, added)
    requires forall n :: 0 <= n < |more| ==> more[n].0 != r.key
    ensures r in LatestRows(rules, added + more)
  {
    if more == [] {
      assert added + more == added;
    } else {
      var n := |more| - 1;
      StaysLatest(rules, added, more[..n], r);
      assert added + more == added + more[..n] + [(more[n].0, more[n].1)];
      LatestAfter(rules, added + more[..n], more[n].0, more[n].1, r);
    }
  }

  /** A current record was added. */
  lemma {:induction false} LatestWasAdded(rules: Rules, added: seq<(string, Candidate)>, r: Row) returns (n: nat)
    requires r in LatestRows(rules, added)
    ensures n < |added| && r == Normalize(rules, added[n].0, added[n].1)
  {
    n := |added| - 1;
    assert added == added[..n] + [(added[n].0, added[n].1)];
    LatestAfter(rules, added[..n], added[n].0, added[n].1, r);
    if r != Normalize(rules, added[n].0, added[n].1) {
      n := LatestWasAdded(rules, added[..n], r);
    }
  }

  ghost predicate Holds(entries: map<string, Row>, rows: seq<Row>) {
    && (forall k | k in entries :: entries[k].key == k && entries[k] in rows)
    && (forall r | r in rows :: r.key in entries && entries[r.key] == r)
  }

  predicate NotBlank(value: Option<string>) {
    value.Some? && value.value != ""
  }

  function Bucket(buckets: map<string, set<string>>, value: Option<string>): set<string> {
    if NotBlank(value) && value.value in buckets then buckets[value.value] else {}
  }

  function AddToBucket(buckets: map<string, set<string>>, value: Option<string>, key: string)
    : (r: map<string, set<string>>)
    ensures NotBlank(value) ==> key in Bucket(r, value)
    ensures forall v :: Bucket(buckets, v) <= Bucket(r, v)
  {
    if !NotBlank(value) then buckets
    else if value.value in buckets then buckets[value.value := buckets[value.value] + {key}]
    else buckets[value.value := {key}]
  }

  function NameValue(name: string): Option<string> {
    if name == "" then None else Some(name)
  }

  /** Every record with a value in this field is in that value's bucket. */
  ghost predicate Covers(buckets: map<string, set<string>>, entries: map<string, Row>, field: Row -> Option<string>) {
    forall k | k in entries :: NotBlank(field(entries[k])) ==> k in Bucket(buckets, field(entries[k]))
  }

  function PhoneField(): Row -> Option<string> {
    (r: Row) => r.phone
  }

  function EmailField(): Row -> Option<string> {
    (r: Row) => r.email
  }

  function NameField(): Row -> Option<string> {
    (r: Row) => NameValue(r.name)
  }

  lemma {:induction false} AddKeepsCover(buckets: map<string, set<string>>, entries: map<string, Row>, row: Row,
                                         field: Row -> Option<string>)
    requires Covers(buckets, entries, field)
    ensures Covers(AddToBucket(buckets, field(row), row.key), entries[row.key := row], field)
  {
    var after := AddToBucket(buckets, field(row), row.key);
    forall k | k in entries ensures Bucket(buckets, field(entries[k])) <= Bucket(after, field(entries[k])) {
    }
  }

  lemma {:induction false} PutKeepsHolds(entries: map<string, Row>, rows: seq<Row>, row: Row)
    requires DistinctRows(rows) && Holds(entries, rows)
    ensures Holds(entries[row.key := row], Put(rows, row))
  {
    forall x ensures x in Put(rows, row) <==> x == row || (x in rows && x.key != row.key) {
      PutContents(rows, row, x);
    }
  }

  ghost predicate Indexes(byPhone: map<string, set<string>>, byEmail: map<string, set<string>>,
                          byTraderName: map<string, set<string>>, entries: map<string, Row>, rows: seq<Row>)
  {
    && Holds(entries, rows)
    && Covers(byPhone, entries, PhoneField())
    && Covers(byEmail, entries, EmailField())
    && Covers(byTraderName, entries, NameField())
  }

  lemma {:induction false} AddKeepsIndexes(byPhone: map<string, set<string>>, byEmail: map<string, set<string>>,
                                           byTraderName: map<string, set<string>>, entries: map<string, Row>,
                                           rows: seq<Row>, row: Row)
    requires DistinctRows(rows) && Indexes(byPhone, byEmail, byTraderName, entries, rows)
    ensures Indexes(AddToBucket(byPhone, row.phone, row.key), AddToBucket(byEmail, row.email, row.key),
                    AddToBucket(byTraderName, NameValue(row.name), row.key), entries[row.key := row], Put(rows, row))
  {
    AddKeepsCover(byPhone, entries, row, PhoneField());
    AddKeepsCover(byEmail, entries, row, EmailField());
    AddKeepsCover(byTraderName, entries, row, NameField());
    PutKeepsHolds(entries, rows, row);
  }

  class IntakeDuplicateIndex {
    const rules: Rules
    var byPhone: map<string, set<string>>
    var byEmail: map<string, set<string>>
    var byTraderName: map<string, set<string>>
    var entries: map<string, Row>
    ghost var added: seq<(string, Candidate)>
    ghost var latest: seq<Row>

    /** Every current record is in its buckets; a bucket may hold keys whose record has since changed. */
    ghost predicate Valid()
      reads this
    {
      && latest == LatestRows(rules, added)
      && Indexes(byPhone, byEmail, byTraderName, entries, latest)
    }

    constructor (rules: Rules)
      ensures Valid() && added == [] && this.rules == rules
    {
      this.rules := rules;
      byPhone, byEmail, byTraderName, entries, added, latest := map[], map[], map[], map[], [], [];
    }

    method Add(key: string, input: Candidate)
      requires Valid()
      modifies this
      ensures Valid() && added == old(added) + [(key, input)]
    {
      var row := Normalize(rules, key, input);
      LatestAreDistinct(rules, added);
      AddKeepsIndexes(byPhone, byEmail, byTraderName, entries, latest, row);
      entries := entries[key := row];
      byPhone := AddToBucket(byPhone, row.phone, key);
      byEmail := AddToBucket(byEmail, row.email, key);
      byTraderName := AddToBucket(byTraderName, NameValue(row.name), key);
      added := added + [(key, input)];
      latest := Put(latest, row);
      assert added[..|added| - 1] == old(added);
    }

    /** The keys worth comparing: three buckets, and a scan for position. */
    method CandidateKeys(q: Row) returns (keys: set<string>)
      requires Valid()
      ensures forall k | k in entries :: ComputeMatchedOn(q, entries[k]) != [] ==> k in keys
    {
      keys := Bucket(byPhone, q.phone) + Bucket(byEmail, q.email) + Bucket(byTraderName, NameValue(q.name));
      var pending := entries.Keys;
      while pending != {}
        invariant pending <= entries.Keys
        invariant Bucket(byPhone, q.phone) + Bucket(byEmail, q.email) + Bucket(byTraderName, NameValue(q.name)) <= keys
        invariant forall k | k in entries && k !in pending :: IsWithinBoundingBox(q, entries[k]) ==> k in keys
        decreases |pending|
      {
        var key :| key in pending;
        pending := pending - {key};
        if IsWithinBoundingBox(q, entries[key]) {
          keys := keys + {key};
        }
      }
      forall k | k in entries && ComputeMatchedOn(q, entries[k]) != [] ensures k in keys {
        MatchedOnMeaning(q, entries[k]);
        assert SameName(q, entries[k]) ==> k in Bucket(byTraderName, NameField()(entries[k]));
        assert SameValue(q.phone, entries[k].phone) ==> k in Bucket(byPhone, PhoneField()(entries[k]));
        assert SameValue(q.email, entries[k].email) ==> k in Bucket(byEmail, EmailField()(entries[k]));
      }
    }

    /** The records under these keys that do match; a key without a record is passed over. */
    method Compare(q: Row, keys: set<string>) returns (all: seq<Match>)
      requires forall k | k in entries :: entries[k].key == k
      ensures DistinctKeys(all)
      ensures forall m | m in all :: m.key in entries && m == MatchOf(q, entries[m.key]) && m.matchedOn != []
      ensures forall k | k in keys && k in entries :: ComputeMatchedOn(q, entries[k]) != [] ==>
                                                        MatchOf(q, entries[k]) in all
    {
      all := [];
      var pending := keys;
      while pending != {}
        invariant pending <= keys
        invariant DistinctKeys(all)
        invariant forall m | m in all ::
                    m.key in entries && m.key !in pending && m == MatchOf(q, entries[m.key]) && m.matchedOn != []
        invariant forall k | k in keys && k !in pending && k in entries ::
                    ComputeMatchedOn(q, entries[k]) != [] ==> MatchOf(q, entries[k]) in all
        decreases |pending|
      {
        var key :| key in pending;
        if key in entries {
          var matchedOn := ComputeMatchedOn(q, entries[key]);
          if |matchedOn| > 0 {
            assert forall i | 0 <= i < |all| :: all[i] in all;
            all := all + [Match(key, entries[key].traderId, entries[key].traderName, matchedOn)];
          }
        }
        pending := pending - {key};
      }
    }

    /**
     * The bucketed lookup gives what a linear scan of the latest records gives, in the same order,
     * stale bucket entries and the order of iteration notwithstanding.
     */
    method MatchInput(input: Candidate) returns (r: Partition)
      requires Valid() && TotalOrder(rules.before)
      ensures r == Classify(rules, input, LatestRows(rules, added))
    {
      var q := Normalize(rules, "", input);
      var keys := CandidateKeys(q);
      var all := Compare(q, keys);
      r := PartitionByStrength(all, rules.before);
      ghost var rows := latest;
      LatestAreDistinct(rules, added);
      ScanHasDistinctKeys(q, rows);
      forall m ensures m in all <==> m in Scan(q, rows) {
        SameFinds(q, rows, entries, all, m);
      }
      PartitionIgnoresArrival(all, Scan(q, rows), rules.before);
    }
  }

  lemma {:induction false} SameFinds(q: Row, rows: seq<Row>, entries: map<string, Row>, all: seq<Match>, m: Match)
    requires Holds(entries, rows)
    requires forall h | h in all :: h.key in entries && h == MatchOf(q, entries[h.key]) && h.matchedOn != []
    requires forall k | k in entries :: ComputeMatchedOn(q, entries[k]) != [] ==> MatchOf(q, entries[k]) in all
    ensures m in all <==> m in Scan(q, rows)
  {
    ScanFinds(q, rows, m);
  }
}
