/** Trader ids and registration references: one counter a year, and texts that name one allocation each. */
module Identifiers {
  import opened Wrappers
  import opened Decimals

  const SEQUENCE_DIGITS: nat := 4

  function BuildId(prefix: string, year: nat, seqNo: nat): string {
    prefix + ToText(year) + "-" + PadStart(ToText(seqNo), SEQUENCE_DIGITS)
  }

  function BuildTraderId(year: nat, seqNo: nat): string {
    BuildId("TM-", year, seqNo)
  }

  function BuildRegistrationReference(year: nat, seqNo: nat): string {
    BuildId("REG-", year, seqNo)
  }

  /** The first hyphen of `digits-rest` ends the digits. */
  lemma {:induction false} SplitAtHyphen(a: string, b: string, c: string, d: string)
    requires AllDigits(a) && AllDigits(b)
    requires a + "-" + c == b + "-" + d
    ensures a == b && c == d
  {
    var left, right := a + "-" + c, b + "-" + d;
    assert left[|a|] == '-' && right[|b|] == '-';
    assert |a| == |b|;
    assert left[..|a|] == a && right[..|b|] == b;
    assert left[|a| + 1..] == c && right[|b| + 1..] == d;
  }

  /** A year and a number give one text, and no other pair gives the same, past four digits included. */
  lemma {:induction false} IdsAreInjective(prefix: string, year: nat, seqNo: nat, year': nat, seqNo': nat)
    ensures BuildId(prefix, year, seqNo) == BuildId(prefix, year', seqNo') <==> year == year' && seqNo == seqNo'
  {
    if BuildId(prefix, year, seqNo) == BuildId(prefix, year', seqNo') {
      var tail := PadStart(ToText(seqNo), SEQUENCE_DIGITS);
      var tail' := PadStart(ToText(seqNo'), SEQUENCE_DIGITS);
      assert BuildId(prefix, year, seqNo)[|prefix|..] == ToText(year) + "-" + tail;
      assert BuildId(prefix, year', seqNo')[|prefix|..] == ToText(year') + "-" + tail';
      SplitAtHyphen(ToText(year), ToText(year'), tail, tail');
      TextIsInjective(year, year');
      PaddedTextIsInjective(seqNo, seqNo', SEQUENCE_DIGITS);
    }
  }

  /** A self-registered actor's id, derived from its reference; an error for any other text. */
  function DeriveTraderIdFromReference(reference: string): Result<string, string> {
    if "REG-" <= reference then Ok("SR-" + reference[|"REG-"|..])
    else Err("Cannot derive traderId: reference \"" + reference + "\" does not start with \"REG-\"")
  }

  lemma {:induction false} DerivedIdsAreInjective(a: string, b: string)
    requires DeriveTraderIdFromReference(a).Ok? && DeriveTraderIdFromReference(b).Ok?
    requires DeriveTraderIdFromReference(a) == DeriveTraderIdFromReference(b)
    ensures a == b
  {
    var x := DeriveTraderIdFromReference(a).value;
    var y := DeriveTraderIdFromReference(b).value;
    assert x[3..] == a[4..] && y[3..] == b[4..];
    assert a == "REG-" + a[4..] && b == "REG-" + b[4..];
  }

  /** A derived id is the reference's own year and number under another prefix, and never a team-managed id. */
  lemma {:induction false} DerivedIdsAreApart(year: nat, seqNo: nat, year': nat, seqNo': nat)
    ensures DeriveTraderIdFromReference(BuildRegistrationReference(year, seqNo)) == Ok(BuildId("SR-", year, seqNo))
    ensures BuildId("SR-", year, seqNo) != BuildTraderId(year', seqNo')
  {
    var reference := BuildRegistrationReference(year, seqNo);
    var tail := ToText(year) + "-" + PadStart(ToText(seqNo), SEQUENCE_DIGITS);
    assert reference == "REG-" + tail && reference[4..] == tail;
    assert BuildId("SR-", year, seqNo) == "SR-" + tail;
    assert BuildId("SR-", year, seqNo)[0] == 'S' && BuildTraderId(year', seqNo')[0] == 'T';
  }

  /** How the two ids spell year and number: in decimal, the number in four digits at least, zeros only to fill. */
  lemma {:induction false} IdSpells(year: nat, seqNo: nat) returns (tail: string)
    ensures BuildTraderId(year, seqNo) == "TM-" + ToText(year) + "-" + tail
    ensures BuildRegistrationReference(year, seqNo) == "REG-" + ToText(year) + "-" + tail
    ensures AllDigits(tail) && ToNumber(tail) == seqNo && |tail| >= 4
    ensures |tail| > 4 ==> tail[0] != '0'
    ensures ToNumber(ToText(year)) == year && (year > 0 ==> ToText(year)[0] != '0')
  {
    tail := PadStart(ToText(seqNo), SEQUENCE_DIGITS);
    PaddingKeepsNumber(seqNo, SEQUENCE_DIGITS);
    NumberOfText(year);
    NoLeadingZero(seqNo);
    NoLeadingZero(year);
  }

  // ---- the counter ----------------------------------------------------------------

  /** One call: `count` numbers of this year. */
  datatype Allocation = Allocation(year: nat, count: nat)

  function Counter(counters: map<nat, nat>, year: nat): nat {
    if year in counters then counters[year] else 0
  }

  function AfterAllocations(calls: seq<Allocation>): map<nat, nat> {
    if calls == [] then map[]
    else
      var earlier := AfterAllocations(calls[..|calls| - 1]);
      var last := calls[|calls| - 1];
      earlier[last.year := Counter(earlier, last.year) + last.count]
  }

  /** The numbers a call receives, first and last. */
  function FirstOf(calls: seq<Allocation>, k: nat): nat
    requires k < |calls|
  {
    Counter(AfterAllocations(calls[..k]), calls[k].year) + 1
  }

  function LastOf(calls: seq<Allocation>, k: nat): nat
    requires k < |calls|
  {
    Counter(AfterAllocations(calls[..k]), calls[k].year) + calls[k].count
  }

  predicate Receives(calls: seq<Allocation>, k: nat, seqNo: nat)
    requires k < |calls|
  {
    FirstOf(calls, k) <= seqNo <= LastOf(calls, k)
  }

  lemma {:induction false} CounterNeverFalls(calls: seq<Allocation>, k: nat, year: nat)
    requires k <= |calls|
    ensures Counter(AfterAllocations(calls[..k]), year) <= Counter(AfterAllocations(calls), year)
    decreases |calls| - k
  {
    if k == |calls| {
      assert calls[..k] == calls;
    } else {
      CounterNeverFalls(calls, k + 1, year);
      assert calls[..k + 1][..k] == calls[..k];
    }
  }

  /** Two calls for the same year never receive a common number. */
  lemma {:induction false} RangesAreDisjoint(calls: seq<Allocation>, j: nat, k: nat, seqNo: nat)
    requires j < k < |calls| && calls[j].year == calls[k].year
    requires Receives(calls, j, seqNo)
    ensures !Receives(calls, k, seqNo)
    ensures LastOf(calls, j) < FirstOf(calls, k)
  {
    assert calls[..k][..j + 1] == calls[..j + 1];
    assert calls[..j + 1][..j] == calls[..j];
    CounterNeverFalls(calls[..k], j + 1, calls[j].year);
  }

  /** Every number up to a year's counter was received by some call, so the ranges leave no hole of their own. */
  lemma {:induction false} RangesCoverCounter(calls: seq<Allocation>, year: nat, seqNo: nat)
    ensures 1 <= seqNo <= Counter(AfterAllocations(calls), year)
            <==> exists k :: 0 <= k < |calls| && calls[k].year == year && Receives(calls, k, seqNo)
  {
    if calls != [] {
      var n := |calls| - 1;
      var shorter := calls[..n];
      RangesCoverCounter(shorter, year, seqNo);
      if 1 <= seqNo <= Counter(AfterAllocations(shorter), year) {
        var k :| 0 <= k < n && shorter[k].year == year && Receives(shorter, k, seqNo);
        assert shorter[..k] == calls[..k];
        assert Receives(calls, k, seqNo);
      } else if 1 <= seqNo <= Counter(AfterAllocations(calls), year) {
        assert Receives(calls, n, seqNo);
      }
      if k :| 0 <= k < |calls| && calls[k].year == year && Receives(calls, k, seqNo) {
        if k < n {
          assert shorter[..k] == calls[..k];
          assert Receives(shorter, k, seqNo);
        }
      }
    }
  }

  /** The sequence table, and the two allocators over it. */
  class SequenceTable {
    var counters: map<nat, nat>
    ghost var calls: seq<Allocation>

    ghost predicate Valid()
      reads this
    {
      counters == AfterAllocations(calls)
    }

    constructor ()
      ensures Valid() && calls == []
    {
      counters, calls := map[], [];
    }

    /** Insert-or-add in one statement, and the value this statement produced. */
    method Bump(year: nat, count: nat) returns (value: nat)
      requires Valid()
      modifies this
      ensures Valid() && calls == old(calls) + [Allocation(year, count)]
      ensures value == LastOf(calls, |old(calls)|)
    {
      if year in counters {
        counters := counters[year := counters[year] + count];
      } else {
        counters := counters[year := count];
      }
      value := counters[year];
      calls := calls + [Allocation(year, count)];
      assert calls[..|calls| - 1] == old(calls);
    }

    /** The range this call received, oldest first, as ids. */
    method AllocateTraderIds(year: nat, count: nat) returns (ids: seq<string>)
      requires Valid()
      modifies this
      ensures Valid() && calls == old(calls) + [Allocation(year, count)]
      ensures |ids| == count
      ensures forall i :: 0 <= i < count ==> ids[i] == BuildTraderId(year, FirstOf(calls, |old(calls)|) + i)
    {
      var value := Bump(year, count);
      ids := [];
      var seqNo := value - count + 1;
      while seqNo <= value
        invariant value - count + 1 <= seqNo <= value + 1
        invariant |ids| == seqNo - (value - count + 1)
        invariant forall i :: 0 <= i < |ids| ==> ids[i] == BuildTraderId(year, value - count + 1 + i)
      {
        ids := ids + [BuildTraderId(year, seqNo)];
        seqNo := seqNo + 1;
      }
    }

    method AllocateRegistrationReference(year: nat) returns (reference: string)
      requires Valid()
      modifies this
      ensures Valid() && calls == old(calls) + [Allocation(year, 1)]
      ensures reference == BuildRegistrationReference(year, FirstOf(calls, |old(calls)|))
    {
      var value := Bump(year, 1);
      reference := BuildRegistrationReference(year, value);
    }
  }

  /** Over any run of allocations, no two ids handed out are the same text. */
  lemma {:induction false} NoIdIsIssuedTwice(prefix: string, calls: seq<Allocation>, j: nat, m: nat, k: nat, n: nat)
    requires j < |calls| && k < |calls| && Receives(calls, j, m) && Receives(calls, k, n)
    requires BuildId(prefix, calls[j].year, m) == BuildId(prefix, calls[k].year, n)
    ensures j == k && m == n
  {
    IdsAreInjective(prefix, calls[j].year, m, calls[k].year, n);
    if j < k {
      RangesAreDisjoint(calls, j, k, m);
    } else if k < j {
      RangesAreDisjoint(calls, k, j, n);
    }
  }
}
