/** Duplicate classification and the consent gate of a bulk import. */
module ImportClassification {
  import opened Wrappers
  import opened ConsentTypes
  import opened ConsentPolicy
  import opened Decimals
  import opened Sequences
  import opened IntakeDuplicates
  import opened ImportRows

  /** The rows named here confirm the candidates named here; a later entry for a row replaces an earlier one. */
  datatype Confirmation = Confirmation(row: nat, candidates: seq<string>)

  const MAX_WIRE_DUPLICATE_CANDIDATES: nat := 50

  function RowKey(n: nat): string {
    "row:" + ToText(n)
  }

  function ActorKey(id: string): string {
    "actor:" + id
  }

  lemma {:induction false} KeysAreDistinct(m: nat, n: nat, id: string, id': string)
    ensures RowKey(m) == RowKey(n) ==> m == n
    ensures ActorKey(id) == ActorKey(id') ==> id == id'
    ensures ActorKey(id) != RowKey(m)
  {
    assert RowKey(m)[4..] == ToText(m) && RowKey(n)[4..] == ToText(n);
    assert ActorKey(id)[6..] == id && ActorKey(id')[6..] == id';
    assert ActorKey(id)[0] == 'a' && RowKey(m)[0] == 'r';
    if RowKey(m) == RowKey(n) {
      TextIsInjective(m, n);
    }
  }

  function Confirmed(confirmations: seq<Confirmation>, n: nat): set<string> {
    if confirmations == [] then {}
    else
      var last := confirmations[|confirmations| - 1];
      if last.row == n then set k | k in last.candidates else Confirmed(confirmations[..|confirmations| - 1], n)
  }

  /** A row's confirmation is its last entry, and no other. */
  lemma {:induction false} ConfirmedExactlyWhen(confirmations: seq<Confirmation>, n: nat, key: string)
    ensures key in Confirmed(confirmations, n)
            <==> exists e :: IsLastFor(confirmations, n, e) && key in confirmations[e].candidates
  {
    if confirmations != [] {
      var m := |confirmations| - 1;
      if confirmations[m].row == n {
        assert IsLastFor(confirmations, n, m);
      } else {
        ConfirmedExactlyWhen(confirmations[..m], n, key);
        if e :| IsLastFor(confirmations[..m], n, e) && key in confirmations[..m][e].candidates {
          assert IsLastFor(confirmations, n, e);
        }
        if e :| IsLastFor(confirmations, n, e) && key in confirmations[e].candidates {
          assert IsLastFor(confirmations[..m], n, e);
        }
      }
    }
  }

  predicate IsLastFor(confirmations: seq<Confirmation>, n: nat, e: int) {
    && 0 <= e < |confirmations| && confirmations[e].row == n
    && forall f :: e < f < |confirmations| ==> confirmations[f].row != n
  }

  predicate IsValid(row: WorkRow) {
    row.state == CandidateRow && row.create.Some?
  }

  function Indexed(row: WorkRow): seq<(string, Candidate)> {
    if IsValid(row) then [(RowKey(row.rowNumber), row.create.value.input)] else []
  }

  /** What the in-file index has been given when row `i` is matched: every earlier row that passed validation. */
  function Earlier(rows: seq<WorkRow>, i: nat): seq<(string, Candidate)>
    requires i <= |rows|
  {
    if i == 0 then [] else Earlier(rows, i - 1) + Indexed(rows[i - 1])
  }

  /** `Number(key.slice(4))`; every key of the in-file index is a row key. */
  function RowOf(key: string): nat {
    if |key| >= 4 && AllDigits(key[4..]) then ToNumber(key[4..]) else 0
  }

  lemma {:induction false} RowOfKey(n: nat)
    ensures RowOf(RowKey(n)) == n
  {
    assert RowKey(n)[4..] == ToText(n);
    NumberOfText(n);
  }

  function ActorCandidates(matches: seq<Match>): seq<DuplicateCandidate> {
    seq(|matches|, i requires 0 <= i < |matches| =>
      ActorCandidate(matches[i].key, matches[i].traderId, matches[i].traderName, matches[i].matchedOn))
  }

  function RowCandidates(matches: seq<Match>): seq<DuplicateCandidate> {
    seq(|matches|, i requires 0 <= i < |matches| =>
      RowCandidate(RowOf(matches[i].key), matches[i].traderName, matches[i].matchedOn))
  }

  function StrongKeys(actors: seq<Match>, inFile: seq<Match>): seq<string> {
    seq(|actors|, i requires 0 <= i < |actors| => ActorKey(actors[i].key))
    + seq(|inFile|, i requires 0 <= i < |inFile| => inFile[i].key)
  }

  predicate AllConfirmed(keys: seq<string>, confirmed: set<string>) {
    forall i :: 0 <= i < |keys| ==> keys[i] in confirmed
  }

  function ActorMatches(rules: Rules, snapshot: seq<Row>, c: Candidate): Partition {
    Classify(rules, c, snapshot)
  }

  function FileMatches(rules: Rules, added: seq<(string, Candidate)>, c: Candidate): Partition {
    Classify(rules, c, LatestRows(rules, added))
  }

  /** A valid row with its matches recorded, and held unless every strong one is confirmed. */
  function WithMatches(row: WorkRow, actors: Partition, inFile: Partition, confirmed: set<string>): WorkRow {
    var strong := ActorCandidates(actors.strong) + RowCandidates(inFile.strong);
    var weak := ActorCandidates(actors.weak) + RowCandidates(inFile.weak);
    row.(duplicateCandidates := if strong == [] then row.duplicateCandidates
                                else Take(strong, MAX_WIRE_DUPLICATE_CANDIDATES),
         duplicateCandidatesTotal := if strong == [] then row.duplicateCandidatesTotal else |strong|,
         duplicateWarnings := if weak == [] then row.duplicateWarnings else weak,
         state := if AllConfirmed(StrongKeys(actors.strong, inFile.strong), confirmed) then row.state
                  else PossibleDuplicate)
  }

  /** The candidate at this place: the actors' matches first, then the file's, each under its own id. */
  ghost predicate IsCandidateAt(d: DuplicateCandidate, actors: seq<Match>, inFile: seq<Match>, k: nat) {
    if k < |actors| then
      d == ActorCandidate(actors[k].key, actors[k].traderId, actors[k].traderName, actors[k].matchedOn)
    else
      && k - |actors| < |inFile| && d.RowCandidate?
      && var m := inFile[k - |actors|];
         && d.traderName == m.traderName && d.matchedOn == m.matchedOn
         && forall n: nat :: m.key == RowKey(n) ==> d.row == n
  }

  /**
   * What is recorded on a matched row: its strong matches, the first fifty with the number of all of
   * them, its weak ones as warnings, each list only if there is any; and the row is held exactly if
   * some strong match is not confirmed.
   */
  lemma {:induction false} MatchesAreRecorded(row: WorkRow, actors: Partition, inFile: Partition, confirmed: set<string>)
    ensures var r, total := WithMatches(row, actors, inFile, confirmed), |actors.strong| + |inFile.strong|;
            && r == row.(duplicateCandidates := r.duplicateCandidates, state := r.state,
                         duplicateCandidatesTotal := r.duplicateCandidatesTotal, duplicateWarnings := r.duplicateWarnings)
            && (if total == 0 then r.duplicateCandidates == row.duplicateCandidates
                                   && r.duplicateCandidatesTotal == row.duplicateCandidatesTotal
                else
                  && r.duplicateCandidatesTotal == total
                  && |r.duplicateCandidates| == (if total < 50 then total else 50)
                  && forall k: nat | k < |r.duplicateCandidates| ::
                       IsCandidateAt(r.duplicateCandidates[k], actors.strong, inFile.strong, k))
            && (if |actors.weak| + |inFile.weak| == 0 then r.duplicateWarnings == row.duplicateWarnings
                else
                  && |r.duplicateWarnings| == |actors.weak| + |inFile.weak|
                  && forall k: nat | k < |r.duplicateWarnings| ::
                       IsCandidateAt(r.duplicateWarnings[k], actors.weak, inFile.weak, k))
            && r.state == if (exists m | m in actors.strong :: ActorKey(m.key) !in confirmed)
                             || (exists m | m in inFile.strong :: m.key !in confirmed)
                          then PossibleDuplicate else row.state
  {
    CandidatesInOrder(actors.strong, inFile.strong);
    CandidatesInOrder(actors.weak, inFile.weak);
    AllConfirmedSplits(actors.strong, inFile.strong, confirmed);
  }

  lemma {:induction false} CandidatesInOrder(actors: seq<Match>, inFile: seq<Match>)
    ensures var all := ActorCandidates(actors) + RowCandidates(inFile);
            && |all| == |actors| + |inFile|
            && forall k: nat | k < |all| :: IsCandidateAt(all[k], actors, inFile, k)
  {
    var all := ActorCandidates(actors) + RowCandidates(inFile);
    forall k: nat | k < |all| ensures IsCandidateAt(all[k], actors, inFile, k) {
      if k >= |actors| {
        forall n: nat | inFile[k - |actors|].key == RowKey(n) ensures all[k].row == n {
          RowOfKey(n);
        }
      }
    }
  }

  function Decide(rules: Rules, snapshot: seq<Row>, confirmed: set<string>, added: seq<(string, Candidate)>, row: WorkRow)
    : WorkRow
    requires IsValid(row)
  {
    var c := row.create.value.input;
    WithMatches(row, ActorMatches(rules, snapshot, c), FileMatches(rules, added, c), confirmed)
  }

  function ClassifiedRow(rules: Rules, snapshot: seq<Row>, confirmations: seq<Confirmation>, rows: seq<WorkRow>, i: nat)
    : WorkRow
    requires i < |rows|
  {
    if !IsValid(rows[i]) then rows[i]
    else Decide(rules, snapshot, Confirmed(confirmations, rows[i].rowNumber), Earlier(rows, i), rows[i])
  }

  function Lookup(confirmedByRow: map<nat, set<string>>, n: nat): set<string> {
    if n in confirmedByRow then confirmedByRow[n] else {}
  }

  method CollectConfirmations(confirmations: seq<Confirmation>) returns (confirmedByRow: map<nat, set<string>>)
    ensures forall n :: Lookup(confirmedByRow, n) == Confirmed(confirmations, n)
  {
    confirmedByRow := map[];
    for i := 0 to |confirmations|
      invariant forall n :: Lookup(confirmedByRow, n) == Confirmed(confirmations[..i], n)
    {
      assert confirmations[..i + 1][..i] == confirmations[..i];
      var entry := confirmations[i];
      confirmedByRow := confirmedByRow[entry.row := set k | k in entry.candidates];
    }
    assert confirmations[..|confirmations|] == confirmations;
  }

  /** Record a valid row's matches, and hold it if one of its strong keys is unconfirmed. */
  method RecordMatches(rows: array<WorkRow>, i: nat, actors: Partition, inFile: Partition, confirmed: set<string>)
    requires i < rows.Length && rows[i].state == CandidateRow
    modifies rows
    ensures rows[..] == old(rows[..])[i := WithMatches(old(rows[i]), actors, inFile, confirmed)]
  {
    var strongCandidates := ActorCandidates(actors.strong) + RowCandidates(inFile.strong);
    var weakCandidates := ActorCandidates(actors.weak) + RowCandidates(inFile.weak);
    var strongKeys := StrongKeys(actors.strong, inFile.strong);
    if |strongCandidates| > 0 {
      rows[i] := rows[i].(duplicateCandidates := Take(strongCandidates, MAX_WIRE_DUPLICATE_CANDIDATES),
                          duplicateCandidatesTotal := |strongCandidates|);
    }
    if |weakCandidates| > 0 {
      rows[i] := rows[i].(duplicateWarnings := weakCandidates);
    }
    if |strongKeys| > 0 && !AllConfirmed(strongKeys, confirmed) {
      rows[i] := rows[i].(state := PossibleDuplicate);
    }
  }

  /** One row: if valid, match it against the actors and the earlier rows, decide, then let it join the index. */
  method ClassifyRow(rows: array<WorkRow>, i: nat, index: IntakeDuplicateIndex, snapshot: seq<Row>, confirmed: set<string>)
    requires i < rows.Length && index.Valid() && TotalOrder(index.rules.before)
    modifies rows, index
    ensures index.Valid()
    ensures index.added == old(index.added) + Indexed(old(rows[i]))
    ensures rows[..] == if !IsValid(old(rows[i])) then old(rows[..])
                        else old(rows[..])[i := Decide(index.rules, snapshot, confirmed, old(index.added), old(rows[i]))]
  {
    if !IsValid(rows[i]) {
      return;
    }
    var number, input := rows[i].rowNumber, rows[i].create.value.input;
    var dbResult := ClassifyAgainstSnapshot(index.rules, input, snapshot);
    var inFileResult := index.MatchInput(input);
    RecordMatches(rows, i, dbResult, inFileResult, confirmed);
    index.Add(RowKey(number), input);
  }

  /** All the decisions so far, in row order. */
  function ClassifiedRows(rules: Rules, snapshot: seq<Row>, confirmations: seq<Confirmation>, rows: seq<WorkRow>, i: nat)
    : (r: seq<WorkRow>)
    requires i <= |rows|
    ensures |r| == i
  {
    if i == 0 then []
    else ClassifiedRows(rules, snapshot, confirmations, rows, i - 1)
         + [ClassifiedRow(rules, snapshot, confirmations, rows, i - 1)]
  }

  lemma {:induction false} ClassifiedRowsAt(rules: Rules, snapshot: seq<Row>, confirmations: seq<Confirmation>,
                                            rows: seq<WorkRow>, i: nat, j: nat)
    requires j < i <= |rows|
    ensures ClassifiedRows(rules, snapshot, confirmations, rows, i)[j]
            == ClassifiedRow(rules, snapshot, confirmations, rows, j)
  {
    if j < i - 1 {
      ClassifiedRowsAt(rules, snapshot, confirmations, rows, i - 1, j);
    }
  }

  /** The row loop: rows that failed validation take no part, every other one is classified and indexed in order. */
  method ClassifyDuplicates(rows: array<WorkRow>, rules: Rules, snapshot: seq<Row>, confirmations: seq<Confirmation>)
    requires TotalOrder(rules.before)
    modifies rows
    ensures rows[..] == ClassifiedRows(rules, snapshot, confirmations, old(rows[..]), rows.Length)
  {
    var confirmedByRow := CollectConfirmations(confirmations);
    var index := new IntakeDuplicateIndex(rules);
    ghost var was := rows[..];
    for i := 0 to rows.Length
      invariant fresh(index) && index.Valid() && index.rules == rules && index.added == Earlier(was, i)
      invariant rows[..] == ClassifiedRows(rules, snapshot, confirmations, was, i) + was[i..]
    {
      ClassifyNext(rows, i, index, snapshot, Lookup(confirmedByRow, rows[i].rowNumber), confirmations, was);
    }
  }

  /** One turn of the row loop. */
  method ClassifyNext(rows: array<WorkRow>, i: nat, index: IntakeDuplicateIndex, snapshot: seq<Row>,
                      confirmed: set<string>, ghost confirmations: seq<Confirmation>, ghost was: seq<WorkRow>)
    requires i < rows.Length == |was| && index.Valid() && TotalOrder(index.rules.before)
    requires index.added == Earlier(was, i) && confirmed == Confirmed(confirmations, rows[i].rowNumber)
    requires rows[..] == ClassifiedRows(index.rules, snapshot, confirmations, was, i) + was[i..]
    modifies rows, index
    ensures index.Valid() && index.added == Earlier(was, i + 1)
    ensures rows[..] == ClassifiedRows(index.rules, snapshot, confirmations, was, i + 1) + was[i + 1..]
  {
    ghost var here := rows[..];
    assert rows[i] == here[i] == was[i];
    ClassifyRow(rows, i, index, snapshot, confirmed);
    OneMoreClassified(index.rules, snapshot, confirmations, was, i, here, rows[..]);
  }

  lemma {:induction false} OneMoreClassified(rules: Rules, snapshot: seq<Row>, confirmations: seq<Confirmation>,
                                             was: seq<WorkRow>, i: nat, here: seq<WorkRow>, after: seq<WorkRow>)
    requires i < |was|
    requires here == ClassifiedRows(rules, snapshot, confirmations, was, i) + was[i..]
    requires after == if !IsValid(was[i]) then here
                      else here[i := Decide(rules, snapshot, Confirmed(confirmations, was[i].rowNumber),
                                            Earlier(was, i), was[i])]
    ensures after == ClassifiedRows(rules, snapshot, confirmations, was, i + 1) + was[i + 1..]
  {
    var decided := ClassifiedRow(rules, snapshot, confirmations, was, i);
    assert here[i] == was[i];
    assert after == here[i := decided];
    OneMore(ClassifiedRows(rules, snapshot, confirmations, was, i), was, i, decided);
  }

  // ---- the decision, stated without the index -------------------------------------------

  function AsRow(rules: Rules, row: WorkRow): Row
    requires IsValid(row)
  {
    Normalize(rules, RowKey(row.rowNumber), row.create.value.input)
  }

  lemma {:induction false} LaterRowHasOtherKey(rows: seq<WorkRow>, j: nat, k: nat)
    requires j < k < |rows| && RowNumbersIncrease(rows)
    ensures RowKey(rows[k].rowNumber) != RowKey(rows[j].rowNumber)
  {
    KeysAreDistinct(rows[j].rowNumber, rows[k].rowNumber, "", "");
  }

  /** What joined the index after a row did has other keys. */
  lemma {:induction false} JoinedLater(rows: seq<WorkRow>, j: nat, i: nat) returns (more: seq<(string, Candidate)>)
    requires j < i <= |rows| && RowNumbersIncrease(rows)
    ensures Earlier(rows, i) == Earlier(rows, j + 1) + more
    ensures forall n :: 0 <= n < |more| ==> more[n].0 != RowKey(rows[j].rowNumber)
  {
    more := [];
    for k := j + 1 to i
      invariant Earlier(rows, k) == Earlier(rows, j + 1) + more
      invariant forall n :: 0 <= n < |more| ==> more[n].0 != RowKey(rows[j].rowNumber)
    {
      LaterRowHasOtherKey(rows, j, k);
      more := more + Indexed(rows[k]);
    }
  }

  /** The index's records are exactly the earlier valid rows. */
  lemma {:induction false} EarlierRowIsLatest(rules: Rules, rows: seq<WorkRow>, i: nat, j: nat)
    requires j < i <= |rows| && RowNumbersIncrease(rows) && IsValid(rows[j])
    ensures AsRow(rules, rows[j]) in LatestRows(rules, Earlier(rows, i))
  {
    var key, c := RowKey(rows[j].rowNumber), rows[j].create.value.input;
    LatestAfter(rules, Earlier(rows, j), key, c, AsRow(rules, rows[j]));
    var more := JoinedLater(rows, j, i);
    StaysLatest(rules, Earlier(rows, j + 1), more, AsRow(rules, rows[j]));
  }

  /** What is in the index came from an earlier valid row. */
  lemma {:induction false} JoinedEarlier(rows: seq<WorkRow>, i: nat, n: nat) returns (j: nat)
    requires i <= |rows| && n < |Earlier(rows, i)|
    ensures j < i && IsValid(rows[j])
    ensures Earlier(rows, i)[n] == (RowKey(rows[j].rowNumber), rows[j].create.value.input)
  {
    if n < |Earlier(rows, i - 1)| {
      j := JoinedEarlier(rows, i - 1, n);
    } else {
      j := i - 1;
    }
  }

  lemma {:induction false} LatestIsEarlierRow(rules: Rules, rows: seq<WorkRow>, i: nat, r: Row) returns (j: nat)
    requires i <= |rows| && r in LatestRows(rules, Earlier(rows, i))
    ensures j < i && IsValid(rows[j]) && r == AsRow(rules, rows[j])
  {
    var n := LatestWasAdded(rules, Earlier(rows, i), r);
    j := JoinedEarlier(rows, i, n);
  }

  /** A match found in the file is an earlier row, under that row's key. */
  lemma {:induction false} FileMatchIsEarlierRow(rules: Rules, rows: seq<WorkRow>, i: nat, c: Candidate, m: Match)
    returns (j: nat)
    requires TotalOrder(rules.before) && i <= |rows| && m in FileMatches(rules, Earlier(rows, i), c).strong
    ensures j < i && IsValid(rows[j]) && m.key == RowKey(rows[j].rowNumber)
  {
    var latest := LatestRows(rules, Earlier(rows, i));
    LatestAreDistinct(rules, Earlier(rows, i));
    StrongMeansSharedContact(rules, c, latest);
    var r :| r in latest && m == MatchOf(Normalize(rules, "", c), r);
    j := LatestIsEarlierRow(rules, rows, i, r);
  }

  /** What a decision changes: at most the state, to held, and what is recorded about duplicates. */
  lemma {:induction false} DecisionKeepsRow(row: WorkRow, actors: Partition, inFile: Partition, confirmed: set<string>)
    ensures var r := WithMatches(row, actors, inFile, confirmed);
            && (r.state == row.state || r.state == PossibleDuplicate)
            && r.rowNumber == row.rowNumber && r.create == row.create && r.errors == row.errors
            && r.actorId == row.actorId && r.traderId == row.traderId
  {
  }

  /** The row candidates recorded for a row are matches found in the file. */
  lemma {:induction false} RecordedRowCandidate(row: WorkRow, actors: Partition, inFile: Partition, confirmed: set<string>,
                                                d: DuplicateCandidate)
    returns (m: Match)
    requires d in WithMatches(row, actors, inFile, confirmed).duplicateCandidates && d.RowCandidate?
    requires row.duplicateCandidates == []
    ensures m in inFile.strong && d.row == RowOf(m.key)
  {
    var a, b := ActorCandidates(actors.strong), RowCandidates(inFile.strong);
    assert d in a + b;
    var k :| 0 <= k < |a + b| && (a + b)[k] == d;
    m := inFile.strong[k - |a|];
  }

  ghost predicate UnconfirmedActor(rules: Rules, snapshot: seq<Row>, c: Candidate, confirmed: set<string>) {
    exists a :: a in snapshot && SharesContact(Normalize(rules, "", c), a) && ActorKey(a.key) !in confirmed
  }

  ghost predicate UnconfirmedEarlierRow(rules: Rules, rows: seq<WorkRow>, i: nat, confirmed: set<string>)
    requires i < |rows| && IsValid(rows[i])
  {
    exists j :: 0 <= j < i && IsValid(rows[j])
                && SharesContact(Normalize(rules, "", rows[i].create.value.input), AsRow(rules, rows[j]))
                && RowKey(rows[j].rowNumber) !in confirmed
  }

  lemma {:induction false} ActorKeysConfirmed(rules: Rules, snapshot: seq<Row>, c: Candidate, confirmed: set<string>)
    requires TotalOrder(rules.before) && DistinctRows(snapshot)
    ensures (forall m | m in Classify(rules, c, snapshot).strong :: ActorKey(m.key) in confirmed)
            <==> !UnconfirmedActor(rules, snapshot, c, confirmed)
  {
    StrongMeansSharedContact(rules, c, snapshot);
    var q, strong := Normalize(rules, "", c), Classify(rules, c, snapshot).strong;
    if a :| a in snapshot && SharesContact(q, a) && ActorKey(a.key) !in confirmed {
      assert MatchOf(q, a) in strong;
    }
  }

  lemma {:induction false} RowKeysConfirmed(rules: Rules, rows: seq<WorkRow>, i: nat, confirmed: set<string>)
    requires TotalOrder(rules.before) && RowNumbersIncrease(rows) && i < |rows| && IsValid(rows[i])
    ensures (forall m | m in FileMatches(rules, Earlier(rows, i), rows[i].create.value.input).strong :: m.key in confirmed)
            <==> !UnconfirmedEarlierRow(rules, rows, i, confirmed)
  {
    var c := rows[i].create.value.input;
    var q, latest := Normalize(rules, "", c), LatestRows(rules, Earlier(rows, i));
    LatestAreDistinct(rules, Earlier(rows, i));
    StrongMeansSharedContact(rules, c, latest);
    var strong := FileMatches(rules, Earlier(rows, i), rows[i].create.value.input).strong;
    forall m | m in strong && m.key !in confirmed ensures UnconfirmedEarlierRow(rules, rows, i, confirmed) {
      var r :| r in latest && m == MatchOf(q, r) && SharesContact(q, r);
      var j := LatestIsEarlierRow(rules, rows, i, r);
    }
    if j :| 0 <= j < i && IsValid(rows[j]) && SharesContact(q, AsRow(rules, rows[j]))
            && RowKey(rows[j].rowNumber) !in confirmed
    {
      var r := AsRow(rules, rows[j]);
      EarlierRowIsLatest(rules, rows, i, j);
      assert MatchOf(q, r) in strong;
    }
  }

  lemma {:induction false} AllConfirmedSplits(actors: seq<Match>, inFile: seq<Match>, confirmed: set<string>)
    ensures AllConfirmed(StrongKeys(actors, inFile), confirmed)
            <==> && (forall m | m in actors :: ActorKey(m.key) in confirmed)
                 && (forall m | m in inFile :: m.key in confirmed)
  {
    var keys := StrongKeys(actors, inFile);
    if AllConfirmed(keys, confirmed) {
      forall m | m in actors ensures ActorKey(m.key) in confirmed {
        var i :| 0 <= i < |actors| && actors[i] == m;
        assert keys[i] == ActorKey(m.key);
      }
      forall m | m in inFile ensures m.key in confirmed {
        var i :| 0 <= i < |inFile| && inFile[i] == m;
        assert keys[|actors| + i] == m.key;
      }
    }
  }

  /**
   * The classification is the quadratic rule: a valid row is held exactly when some existing actor,
   * or some earlier valid row (held ones included), shares its phone or email and its own
   * confirmation does not name it. The wire cap plays no part.
   */
  lemma {:induction false} HeldExactlyWhen(rules: Rules, snapshot: seq<Row>, confirmations: seq<Confirmation>,
                                           rows: seq<WorkRow>, i: nat)
    requires TotalOrder(rules.before) && DistinctRows(snapshot) && RowNumbersIncrease(rows)
    requires i < |rows| && IsValid(rows[i])
    ensures var confirmed := Confirmed(confirmations, rows[i].rowNumber);
            ClassifiedRow(rules, snapshot, confirmations, rows, i).state == PossibleDuplicate
            <==> || UnconfirmedActor(rules, snapshot, rows[i].create.value.input, confirmed)
                 || UnconfirmedEarlierRow(rules, rows, i, confirmed)
  {
    var confirmed := Confirmed(confirmations, rows[i].rowNumber);
    var c := rows[i].create.value.input;
    ActorKeysConfirmed(rules, snapshot, c, confirmed);
    RowKeysConfirmed(rules, rows, i, confirmed);
    AllConfirmedSplits(ActorMatches(rules, snapshot, c).strong, FileMatches(rules, Earlier(rows, i), c).strong, confirmed);
  }

  /** A row that shares contact data with an earlier valid row, and goes on, named that row in its confirmation. */
  lemma {:induction false} SharedContactWasConfirmed(rules: Rules, snapshot: seq<Row>, confirmations: seq<Confirmation>,
                                  rows: seq<WorkRow>, i: nat, j: nat)
    requires TotalOrder(rules.before) && DistinctRows(snapshot) && RowNumbersIncrease(rows)
    requires i < j < |rows| && IsValid(rows[i]) && IsValid(rows[j])
    requires SharesContact(AsRow(rules, rows[j]), AsRow(rules, rows[i]))
    requires ClassifiedRow(rules, snapshot, confirmations, rows, j).state == CandidateRow
    ensures RowKey(rows[i].rowNumber) in Confirmed(confirmations, rows[j].rowNumber)
  {
    HeldExactlyWhen(rules, snapshot, confirmations, rows, j);
  }

  // ---- the wire cap ----------------------------------------------------------------------

  lemma {:induction false} FewElements(s: seq<string>)
    ensures |set k | k in s| <= |s|
  {
    if s != [] {
      var n := |s| - 1;
      FewElements(s[..n]);
      assert s == s[..n] + [s[n]];
      assert (set k | k in s) == (set k | k in s[..n]) + {s[n]};
    }
  }

  lemma {:induction false} ManyElements(s: seq<string>)
    requires NoRepeat(s)
    ensures |set k | k in s| == |s|
  {
    if s != [] {
      var n := |s| - 1;
      ManyElements(s[..n]);
      assert s == s[..n] + [s[n]];
      assert (set k | k in s) == (set k | k in s[..n]) + {s[n]};
      assert s[n] !in s[..n];
    }
  }

  lemma {:induction false} StrongKeysDiffer(rules: Rules, c: Candidate, rows: seq<Row>)
    requires TotalOrder(rules.before) && DistinctRows(rows)
    ensures DistinctKeys(Classify(rules, c, rows).strong)
  {
    var q := Normalize(rules, "", c);
    var all := Scan(q, rows);
    ScanHasDistinctKeys(q, rows);
    PartitionMeaning(all, rules.before);
    var strong := Classify(rules, c, rows).strong;
    forall i, j | 0 <= i < j < |strong| ensures strong[i].key != strong[j].key {
      assert strong[i] in all && strong[j] in all;
      assert Stronger(rules.before)(strong[i], strong[j]);
    }
  }

  lemma {:induction false} ConfirmedIsBounded(confirmations: seq<Confirmation>, n: nat, bound: nat)
    requires forall e | e in confirmations :: |e.candidates| <= bound
    ensures |Confirmed(confirmations, n)| <= bound
  {
    if confirmations != [] {
      var last := confirmations[|confirmations| - 1];
      if last.row == n {
        FewElements(last.candidates);
      } else {
        ConfirmedIsBounded(confirmations[..|confirmations| - 1], n, bound);
      }
    }
  }

  lemma {:induction false} StrongKeysNoRepeat(actors: seq<Match>, inFile: seq<Match>)
    requires DistinctKeys(actors) && DistinctKeys(inFile)
    requires forall m | m in inFile :: m.key != "" && m.key[0] == 'r'
    ensures NoRepeat(StrongKeys(actors, inFile))
  {
    var keys := StrongKeys(actors, inFile);
    forall x, y | 0 <= x < y < |keys| ensures keys[x] != keys[y] {
      if y < |actors| {
        KeysAreDistinct(0, 0, actors[x].key, actors[y].key);
      } else if x < |actors| {
        assert keys[x][0] == 'a';
        assert inFile[y - |actors|] in inFile;
      }
    }
  }

  /** Every key a row must confirm is different from the others. */
  lemma {:induction false} KeysToConfirmDiffer(rules: Rules, snapshot: seq<Row>, rows: seq<WorkRow>, i: nat, c: Candidate)
    requires TotalOrder(rules.before) && DistinctRows(snapshot) && i < |rows|
    ensures NoRepeat(StrongKeys(ActorMatches(rules, snapshot, c).strong, FileMatches(rules, Earlier(rows, i), c).strong))
  {
    StrongKeysDiffer(rules, c, snapshot);
    LatestAreDistinct(rules, Earlier(rows, i));
    StrongKeysDiffer(rules, c, LatestRows(rules, Earlier(rows, i)));
    var inFile := FileMatches(rules, Earlier(rows, i), c).strong;
    forall m | m in inFile ensures m.key != "" && m.key[0] == 'r' {
      var j := FileMatchIsEarlierRow(rules, rows, i, c, m);
    }
    StrongKeysNoRepeat(ActorMatches(rules, snapshot, c).strong, inFile);
  }

  /** A row with more strong matches than one confirmation may name can never be confirmed, so it stays held. */
  lemma {:induction false} RowAboveTheCapIsHeld(rules: Rules, snapshot: seq<Row>, confirmations: seq<Confirmation>,
                                                rows: seq<WorkRow>, i: nat)
    requires TotalOrder(rules.before) && DistinctRows(snapshot) && RowNumbersIncrease(rows)
    requires i < |rows| && IsValid(rows[i])
    requires forall e | e in confirmations :: |e.candidates| <= MAX_WIRE_DUPLICATE_CANDIDATES
    requires ClassifiedRow(rules, snapshot, confirmations, rows, i).duplicateCandidatesTotal > MAX_WIRE_DUPLICATE_CANDIDATES
    requires rows[i].duplicateCandidatesTotal == 0
    ensures ClassifiedRow(rules, snapshot, confirmations, rows, i).state == PossibleDuplicate
  {
    var c := rows[i].create.value.input;
    var confirmed := Confirmed(confirmations, rows[i].rowNumber);
    var keys := StrongKeys(ActorMatches(rules, snapshot, c).strong, FileMatches(rules, Earlier(rows, i), c).strong);
    KeysToConfirmDiffer(rules, snapshot, rows, i, c);
    ManyElements(keys);
    ConfirmedIsBounded(confirmations, rows[i].rowNumber, MAX_WIRE_DUPLICATE_CANDIDATES);
    if AllConfirmed(keys, confirmed) {
      assert (set k | k in keys) <= confirmed;
      SubsetIsSmaller((set k | k in keys), confirmed);
    }
  }

  lemma {:induction false} SubsetIsSmaller(a: set<string>, b: set<string>)
    requires a <= b
    ensures |a| <= |b|
    decreases a
  {
    if a != {} {
      var x :| x in a;
      SubsetIsSmaller(a - {x}, b - {x});
    }
  }

  // ---- the consent gate --------------------------------------------------------------------

  function AsPayload(c: Create): Payload {
    Payload(Absent, Given(c.consentStatus), Given(c.consentMethod),
            if c.consentObtainedAt.Some? then Given(c.consentObtainedAt) else Absent,
            if c.consentReference.Some? then Given(c.consentReference) else Absent, false)
  }

  function ProvenanceErrors(c: Create): seq<string> {
    (if c.consentMethod == NOT_RECORDED then ["consentMethod"] else [])
    + (if c.consentObtainedAt.None? then ["consentObtainedAt"] else [])
  }

  function GatedRow(row: WorkRow, commit: bool, acknowledged: Option<bool>): WorkRow {
    if (row.state != CandidateRow && row.state != PossibleDuplicate) || row.create.None? then row
    else
      var c := row.create.value;
      if !IsConsentProvenanceSatisfied(None, AsPayload(c)) then
        row.(state := Failed, create := None, errors := row.errors + ProvenanceErrors(c))
      else if c.consentStatus != GRANTED then row
      else if !commit then row.(warnings := row.warnings + [AcknowledgementWillBeRequired])
      else if row.state == PossibleDuplicate || acknowledged == Some(true) then row
      else row.(state := Failed, create := None, errors := row.errors + ["consentStatus"])
  }

  /** The provenance half: a failing row is failed on the spot, one error per missing field. */
  method PassesProvenanceGate(rows: array<WorkRow>, i: nat) returns (ok: bool)
    requires i < rows.Length && rows[i].create.Some?
    modifies rows
    ensures ok <==> IsConsentProvenanceSatisfied(None, AsPayload(old(rows[i]).create.value))
    ensures rows[..] == if ok then old(rows[..])
                        else old(rows[..])[i := old(rows[i]).(state := Failed, create := None,
                                           errors := old(rows[i]).errors + ProvenanceErrors(old(rows[i]).create.value))]
  {
    var c := rows[i].create.value;
    ok := IsConsentProvenanceSatisfied(None, AsPayload(c));
    if !ok {
      rows[i] := rows[i].(state := Failed, create := None, errors := rows[i].errors + ProvenanceErrors(c));
    }
  }

  method ApplyConsentGateToRow(rows: array<WorkRow>, i: nat, commit: bool, acknowledged: Option<bool>)
    requires i < rows.Length
    modifies rows
    ensures rows[..] == old(rows[..])[i := GatedRow(old(rows[i]), commit, acknowledged)]
  {
    var held := rows[i].state == PossibleDuplicate;
    if (rows[i].state != CandidateRow && !held) || rows[i].create.None? {
      return;
    }
    var passed := PassesProvenanceGate(rows, i);
    if !passed || rows[i].create.value.consentStatus != GRANTED {
      return;
    }
    if held {
      if !commit {
        rows[i] := rows[i].(warnings := rows[i].warnings + [AcknowledgementWillBeRequired]);
      }
      return;
    }
    if commit && acknowledged != Some(true) {
      rows[i] := rows[i].(state := Failed, create := None, errors := rows[i].errors + ["consentStatus"]);
    } else if !commit {
      rows[i] := rows[i].(warnings := rows[i].warnings + [AcknowledgementWillBeRequired]);
    }
  }

  method ApplyConsentGate(rows: array<WorkRow>, commit: bool, acknowledged: Option<bool>)
    modifies rows
    ensures forall i | 0 <= i < rows.Length :: rows[i] == GatedRow(old(rows[i]), commit, acknowledged)
  {
    for i := 0 to rows.Length
      invariant forall j | 0 <= j < i :: rows[j] == GatedRow(old(rows[j]), commit, acknowledged)
      invariant forall j | i <= j < rows.Length :: rows[j] == old(rows[j])
    {
      var here := rows[..];
      ApplyConsentGateToRow(rows, i, commit, acknowledged);
      assert forall j | 0 <= j < rows.Length && j != i :: rows[j] == here[j];
    }
  }

  predicate WouldBeEvidenced(c: Create) {
    c.consentStatus == GRANTED ==> c.consentMethod != NOT_RECORDED && c.consentObtainedAt.Some?
  }

  /**
   * What the gate lets through and what it says when it does not: no row goes on to create an
   * actor that is GRANTED without evidence or, on commit, without the acknowledgement; and every
   * row it fails carries an error.
   */
  lemma {:induction false} GateMeaning(row: WorkRow, commit: bool, acknowledged: Option<bool>)
    requires row.create.Some? && (row.state == CandidateRow || row.state == PossibleDuplicate)
    ensures var r, c := GatedRow(row, commit, acknowledged), row.create.value;
            && (r.state == Failed <==>
                || !WouldBeEvidenced(c)
                || (c.consentStatus == GRANTED && row.state == CandidateRow && commit && acknowledged != Some(true)))
            && (r.state != Failed ==> r == row.(warnings := r.warnings))
            && (r.state == Failed ==> r.create.None? && row.errors < r.errors)
  {
    var c := row.create.value;
    ProvenanceMeansPostWriteEvidence(Blank, AsPayload(c));
    assert IsConsentProvenanceSatisfied(None, AsPayload(c)) <==> WouldBeEvidenced(c);
  }

  /**
   * What the gate says: the missing evidence by field, the missing acknowledgement, and on preview
   * what a commit will need.
   */
  lemma {:induction false} GateSays(row: WorkRow, commit: bool, acknowledged: Option<bool>)
    requires row.create.Some? && (row.state == CandidateRow || row.state == PossibleDuplicate)
    ensures var r, c := GatedRow(row, commit, acknowledged), row.create.value;
            if r.state != Failed then
              r == row.(warnings := row.warnings
                                    + if c.consentStatus == GRANTED && !commit then [AcknowledgementWillBeRequired] else [])
            else
              r == row.(state := Failed, create := None,
                        errors := row.errors
                                  + if c.consentMethod != NOT_RECORDED && c.consentObtainedAt.Some? then ["consentStatus"]
                                    else if c.consentMethod != NOT_RECORDED then ["consentObtainedAt"]
                                    else if c.consentObtainedAt.Some? then ["consentMethod"]
                                    else ["consentMethod", "consentObtainedAt"])
  {
    GateMeaning(row, commit, acknowledged);
    ProvenanceMeansPostWriteEvidence(Blank, AsPayload(row.create.value));
  }

  /** A row the gate has nothing to decide about passes it untouched. */
  lemma {:induction false} GateLeavesOthers(row: WorkRow, commit: bool, acknowledged: Option<bool>)
    requires row.create.None? || row.state == Failed || row.state == Created
    ensures GatedRow(row, commit, acknowledged) == row
  {
  }
}
