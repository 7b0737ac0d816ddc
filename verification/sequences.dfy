/** Stable sorting by a comparison, when its result depends on the elements alone, and filtering. */
module Sequences {
  import opened Wrappers

  function Insert<T>(x: T, s: seq<T>, less: (T, T) -> bool): seq<T> {
    if s == [] then [x]
    else if less(x, s[0]) then [x] + s
    else [s[0]] + Insert(x, s[1..], less)
  }

  /** Elements that compare equal keep their order. */
  function SortBy<T>(s: seq<T>, less: (T, T) -> bool): seq<T> {
    if s == [] then [] else Insert(s[|s| - 1], SortBy(s[..|s| - 1], less), less)
  }

  predicate Ordered<T>(s: seq<T>, less: (T, T) -> bool) {
    forall i, j :: 0 <= i < j < |s| ==> less(s[i], s[j])
  }

  predicate NoRepeat<T(==)>(s: seq<T>) {
    forall i, j :: 0 <= i < j < |s| ==> s[i] != s[j]
  }

  /** A strict total order on the elements of `dom`. */
  ghost predicate Linear<T(!new)>(less: (T, T) -> bool, dom: set<T>) {
    && (forall x, y | x in dom && y in dom :: less(x, y) ==> !less(y, x))
    && (forall x, y | x in dom && y in dom && x != y :: less(x, y) || less(y, x))
    && (forall x, y, z | x in dom && y in dom && z in dom :: less(x, y) && less(y, z) ==> less(x, z))
  }

  ghost function Elements<T>(s: seq<T>): set<T> {
    set x | x in s
  }

  lemma {:induction false} InsertKeepsElements<T>(x: T, s: seq<T>, less: (T, T) -> bool)
    ensures multiset(Insert(x, s, less)) == multiset(s) + multiset{x}
  {
    if s != [] && !less(x, s[0]) {
      InsertKeepsElements(x, s[1..], less);
      assert s == [s[0]] + s[1..];
    }
  }

  lemma {:induction false} SortKeepsElements<T>(s: seq<T>, less: (T, T) -> bool)
    ensures multiset(SortBy(s, less)) == multiset(s)
  {
    if s != [] {
      var n := |s| - 1;
      SortKeepsElements(s[..n], less);
      InsertKeepsElements(s[n], SortBy(s[..n], less), less);
      assert s == s[..n] + [s[n]];
    }
  }

  lemma {:induction false} SortHasSameElements<T>(s: seq<T>, less: (T, T) -> bool)
    ensures |SortBy(s, less)| == |s|
    ensures forall x :: x in SortBy(s, less) <==> x in s
  {
    SortKeepsElements(s, less);
    assert |multiset(SortBy(s, less))| == |SortBy(s, less)| && |multiset(s)| == |s|;
    forall x ensures x in SortBy(s, less) <==> x in s {
      assert x in multiset(SortBy(s, less)) <==> x in multiset(s);
    }
  }

  lemma {:induction false} InsertKeepsOrder<T(!new)>(x: T, s: seq<T>, less: (T, T) -> bool, dom: set<T>)
    requires Linear(less, dom) && Elements(s) <= dom && x in dom && x !in s
    requires Ordered(s, less)
    ensures Ordered(Insert(x, s, less), less)
  {
    if s != [] {
      assert s[0] in Elements(s);
      if less(x, s[0]) {
        forall j | 0 <= j < |s| ensures less(x, s[j]) {
          assert s[j] in Elements(s);
        }
      } else {
        assert less(s[0], x);
        assert Elements(s[1..]) <= Elements(s);
        InsertKeepsOrder(x, s[1..], less, dom);
        var tail := Insert(x, s[1..], less);
        InsertKeepsElements(x, s[1..], less);
        forall j | 0 <= j < |tail| ensures less(s[0], tail[j]) {
          assert tail[j] in multiset(tail);
          if tail[j] != x {
            assert tail[j] in s[1..];
          }
        }
      }
    }
  }

  lemma {:induction false} SortIsOrdered<T(!new)>(s: seq<T>, less: (T, T) -> bool)
    requires Linear(less, Elements(s)) && NoRepeat(s)
    ensures Ordered(SortBy(s, less), less)
  {
    if s != [] {
      var n := |s| - 1;
      var shorter := s[..n];
      assert Elements(shorter) <= Elements(s);
      SortIsOrdered(shorter, less);
      SortHasSameElements(shorter, less);
      InsertKeepsOrder(s[n], SortBy(shorter, less), less, Elements(s));
    }
  }

  /** The elements fix an ordered sequence. */
  lemma {:induction false} OrderedIsUnique<T(!new)>(a: seq<T>, b: seq<T>, less: (T, T) -> bool, dom: set<T>)
    requires Linear(less, dom) && Elements(a) <= dom && Elements(b) <= dom
    requires Ordered(a, less) && Ordered(b, less) && Elements(a) == Elements(b)
    ensures a == b
  {
    assert b != [] ==> b[0] in Elements(b);
    if a == [] {
      assert b == [];
    } else {
      assert a[0] in Elements(a);
      var j :| 0 <= j < |b| && b[j] == a[0];
      var i :| 0 <= i < |a| && a[i] == b[0];
      assert a[0] == b[0];
      TailElements(a, less, dom);
      TailElements(b, less, dom);
      OrderedIsUnique(a[1..], b[1..], less, dom);
      assert a == [a[0]] + a[1..] && b == [b[0]] + b[1..];
    }
  }

  lemma {:induction false} TailElements<T(!new)>(s: seq<T>, less: (T, T) -> bool, dom: set<T>)
    requires s != [] && Linear(less, dom) && Elements(s) <= dom && Ordered(s, less)
    ensures Elements(s[1..]) == Elements(s) - {s[0]}
  {
    assert s[0] in Elements(s);
    assert s == [s[0]] + s[1..];
    assert s[0] !in s[1..];
  }

  /** Whatever order the same elements arrive in, they sort to one sequence. */
  lemma {:induction false} ArrivalOrderDoesNotMatter<T(!new)>(a: seq<T>, b: seq<T>, less: (T, T) -> bool)
    requires NoRepeat(a) && NoRepeat(b) && Elements(a) == Elements(b)
    requires Linear(less, Elements(a))
    ensures SortBy(a, less) == SortBy(b, less)
  {
    SortIsOrdered(a, less);
    SortIsOrdered(b, less);
    SortHasSameElements(a, less);
    SortHasSameElements(b, less);
    OrderedIsUnique(SortBy(a, less), SortBy(b, less), less, Elements(a));
  }

  // ---- sorting by rank ------------------------------------------------------------

  function ByRank<T>(rank: T -> nat): (T, T) -> bool {
    (a: T, b: T) => rank(a) < rank(b)
  }

  /** Sorting by rank puts first an element of least rank, and of those the one that came first. */
  lemma {:induction false} LeastComesFirst<T>(s: seq<T>, rank: T -> nat) returns (k: nat)
    requires s != []
    ensures k < |s| && SortBy(s, ByRank(rank)) != [] && SortBy(s, ByRank(rank))[0] == s[k]
    ensures forall j | 0 <= j < |s| :: rank(s[k]) <= rank(s[j])
    ensures forall j | 0 <= j < k :: rank(s[k]) < rank(s[j])
  {
    var n := |s| - 1;
    if n == 0 {
      k := 0;
    } else {
      k := LeastComesFirst(s[..n], rank);
      if rank(s[n]) < rank(s[k]) {
        k := n;
      }
    }
  }

  // ---- filtering ------------------------------------------------------------------

  function Filter<T(!new)>(s: seq<T>, keep: T -> bool): (r: seq<T>)
    ensures forall x :: x in r <==> x in s && keep(x)
  {
    if s == [] then []
    else
      var rest := Filter(s[..|s| - 1], keep);
      assert s == s[..|s| - 1] + [s[|s| - 1]];
      if keep(s[|s| - 1]) then rest + [s[|s| - 1]] else rest
  }

  lemma {:induction false} FilterKeepsOrder<T(!new)>(s: seq<T>, keep: T -> bool, less: (T, T) -> bool)
    requires Ordered(s, less)
    ensures Ordered(Filter(s, keep), less)
  {
    if s != [] {
      var n := |s| - 1;
      FilterKeepsOrder(s[..n], keep, less);
      var rest := Filter(s[..n], keep);
      forall i | 0 <= i < |rest| ensures less(rest[i], s[n]) {
        assert rest[i] in s[..n];
      }
    }
  }

  /** The values `f` has on these elements, those without one left out. */
  function Collect<A, B>(s: seq<A>, f: A -> Option<B>): seq<B> {
    if s == [] then []
    else
      var earlier := Collect(s[..|s| - 1], f);
      var last := f(s[|s| - 1]);
      if last.Some? then earlier + [last.value] else earlier
  }

  lemma {:induction false} CollectFinds<A, B>(s: seq<A>, f: A -> Option<B>, y: B)
    ensures y in Collect(s, f) <==> exists i :: 0 <= i < |s| && f(s[i]) == Some(y)
  {
    if s != [] {
      var n := |s| - 1;
      CollectFinds(s[..n], f, y);
      if i :| 0 <= i < |s| && f(s[i]) == Some(y) {
        assert i < n ==> s[..n][i] == s[i];
      }
    }
  }

  /** Replacing the first element that is still the old one. */
  lemma {:induction false} OneMore<T>(done: seq<T>, was: seq<T>, i: nat, x: T)
    requires |done| == i < |was|
    ensures (done + was[i..])[i := x] == (done + [x]) + was[i + 1..]
  {
    assert was[i..] == [was[i]] + was[i + 1..];
  }

  function Take<T>(s: seq<T>, n: nat): seq<T> {
    if |s| <= n then s else s[..n]
  }
}
