/** One import from validated rows to report, and what holds of every row it creates, holds back or fails. */
module ImportRun {
  import opened Wrappers
  import opened ConsentTypes
  import opened IntakeDuplicates
  import opened ImportRows
  import opened ImportClassification
  import opened ImportCommit
  import opened ImportReport

  /** What one import is given. */
  datatype Request = Request(
    commit: bool,
    confirmations: seq<Confirmation>,
    acknowledged: Option<bool>,
    rules: Rules,
    snapshot: seq<Row>)

  /** Confirmations count on commit only. */
  function Counted(req: Request): seq<Confirmation> {
    if req.commit then req.confirmations else []
  }

  function AfterGate(req: Request, was: seq<WorkRow>, i: nat): WorkRow
    requires i < |was|
  {
    GatedRow(ClassifiedRow(req.rules, req.snapshot, Counted(req), was, i), req.commit, req.acknowledged)
  }

  /** The rows as the gate leaves them: what a commit starts from. */
  function AfterGates(req: Request, was: seq<WorkRow>): seq<WorkRow> {
    seq(|was|, i requires 0 <= i < |was| => AfterGate(req, was, i))
  }

  /** A preview holds what a commit would hold unconfirmed, and asks for no acknowledgement. */
  lemma {:induction false} PreviewIgnoresAnswers(req: Request, other: Request, was: seq<WorkRow>, i: nat)
    requires !req.commit && i < |was|
    requires other == req.(confirmations := other.confirmations, acknowledged := other.acknowledged)
    ensures AfterGate(req, was, i) == AfterGate(other, was, i)
  {
  }

  ghost predicate WellPosed(req: Request, was: seq<WorkRow>) {
    TotalOrder(req.rules.before) && DistinctRows(req.snapshot) && AllValidated(was)
  }

  /** How an import may leave one row: as the gate left it, or on commit ended. */
  ghost predicate SettlesAs(req: Request, was: seq<WorkRow>, i: nat, row: WorkRow)
    requires i < |was|
  {
    if req.commit then EndsAs(AfterGate(req, was, i), row) else row == AfterGate(req, was, i)
  }

  /** How an import leaves its rows. */
  ghost predicate Settles(req: Request, was: seq<WorkRow>, rows: seq<WorkRow>) {
    && |rows| == |was|
    && forall i | 0 <= i < |was| :: SettlesAs(req, was, i, rows[i])
  }

  /** Row candidates name earlier rows of the same file. */
  lemma {:induction false} CandidatesPointBack(req: Request, was: seq<WorkRow>, i: nat, d: DuplicateCandidate)
    requires WellPosed(req, was) && i < |was|
    requires d in ClassifiedRow(req.rules, req.snapshot, Counted(req), was, i).duplicateCandidates && d.RowCandidate?
    ensures d.row < was[i].rowNumber
  {
    assert Validated(was[i]);
    var c := was[i].create.value.input;
    var actors, inFile := ActorMatches(req.rules, req.snapshot, c), FileMatches(req.rules, Earlier(was, i), c);
    var m := RecordedRowCandidate(was[i], actors, inFile, Confirmed(Counted(req), was[i].rowNumber), d);
    var j := FileMatchIsEarlierRow(req.rules, was, i, c, m);
    RowOfKey(was[j].rowNumber);
  }

  lemma {:induction false} ClassificationKeepsRow(req: Request, was: seq<WorkRow>, i: nat)
    requires i < |was| && Validated(was[i])
    ensures var r := ClassifiedRow(req.rules, req.snapshot, Counted(req), was, i);
            && (r.state == was[i].state || (r.state == PossibleDuplicate && IsValid(was[i])))
            && r.rowNumber == was[i].rowNumber && r.create == was[i].create && r.errors == was[i].errors
            && r.actorId.None? && r.traderId.None?
  {
    if IsValid(was[i]) {
      var c := was[i].create.value.input;
      DecisionKeepsRow(was[i], ActorMatches(req.rules, req.snapshot, c),
                       FileMatches(req.rules, Earlier(was, i), c), Confirmed(Counted(req), was[i].rowNumber));
    }
  }

  /** A row that survives both gates is ready to be created, and none is created yet. */
  lemma {:induction false} SurvivorsAreReady(req: Request, was: seq<WorkRow>, i: nat)
    requires WellPosed(req, was) && i < |was|
    ensures AfterGate(req, was, i).rowNumber == was[i].rowNumber
    ensures AfterGate(req, was, i).state != Created
    ensures AfterGate(req, was, i).state == CandidateRow ==> Ready(AfterGate(req, was, i))
  {
    ClassificationKeepsRow(req, was, i);
    var row := ClassifiedRow(req.rules, req.snapshot, Counted(req), was, i);
    forall d | d in row.duplicateCandidates && d.RowCandidate? ensures d.row < was[i].rowNumber {
      CandidatesPointBack(req, was, i, d);
    }
  }

  /**
   * Classify, gate, commit, report. A commit gives every surviving candidate the fate of its chunk
   * and logs exactly the created rows; a preview writes nothing and takes no number.
   */
  method Run(req: Request, rows: array<WorkRow>, db: ImportDatabase, env: Environment) returns (report: Report)
    requires WellPosed(req, rows[..]) && db.sequences.Valid()
    modifies rows, db, db.sequences
    ensures db.sequences.Valid()
    ensures Settles(req, old(rows[..]), rows[..])
    ensures Reports(report, req.commit, rows[..])
    ensures report.rows == Results(req.commit, rows[..])
    ensures report.toCreate + report.possibleDuplicate + report.failed == rows.Length
    ensures Sum(report.failureBreakdown) == report.failed + report.possibleDuplicate
    ensures !req.commit ==> db.trail == old(db.trail) && db.sequences.calls == old(db.sequences.calls)
    ensures req.commit ==> IdsAreNew(rows[..], db.sequences.calls, |old(db.sequences.calls)|)
    ensures req.commit ==>
              var picks := Candidates(AfterGates(req, old(rows[..])));
              && ChunkFates(env, rows[..], picks, |picks|, db.sequences.calls, |old(db.sequences.calls)|)
              && db.trail == old(db.trail) + TrailOf(rows[..], picks, CreatedMap(rows[..], picks))
  {
    ghost var was := rows[..];
    ClassifyDuplicates(rows, req.rules, req.snapshot, if req.commit then req.confirmations else []);
    ghost var classified := rows[..];
    ApplyConsentGate(rows, req.commit, req.acknowledged);
    ghost var gated := rows[..];
    forall i | 0 <= i < |was| ensures gated[i] == AfterGate(req, was, i) {
      ClassifiedRowsAt(req.rules, req.snapshot, Counted(req), was, |was|, i);
      assert gated[i] == GatedRow(classified[i], req.commit, req.acknowledged);
    }
    forall i | 0 <= i < |was|
      ensures gated[i].rowNumber == was[i].rowNumber && gated[i].state != Created
      ensures gated[i].state == CandidateRow ==> Ready(gated[i])
    {
      SurvivorsAreReady(req, was, i);
    }
    assert gated == AfterGates(req, was);
    if req.commit {
      db.Commit(rows, env);
    }
    report := BuildReport(req.commit, rows[..]);
  }

  // ---- what holds of every row at the end -------------------------------------------------

  /** Only a row that was a candidate past the gate can end created. */
  lemma {:induction false} CreatedPassedGate(classified: WorkRow, commit: bool, acknowledged: Option<bool>, row: WorkRow)
    requires var gated := GatedRow(classified, commit, acknowledged); if commit then EndsAs(gated, row) else row == gated
    requires row.state == Created && classified.state != Created
    ensures commit && classified.state == CandidateRow && classified.create.Some?
    ensures GatedRow(classified, commit, acknowledged).state == CandidateRow && row.create == classified.create
  {
  }

  lemma {:induction false} CreatedCameThrough(req: Request, was: seq<WorkRow>, i: nat, row: WorkRow)
    requires i < |was| && Validated(was[i]) && SettlesAs(req, was, i, row) && row.state == Created
    ensures req.commit && IsValid(was[i])
    ensures ClassifiedRow(req.rules, req.snapshot, req.confirmations, was, i).state == CandidateRow
    ensures AfterGate(req, was, i).state == CandidateRow
    ensures row.create == was[i].create
  {
    ClassificationKeepsRow(req, was, i);
    CreatedPassedGate(ClassifiedRow(req.rules, req.snapshot, Counted(req), was, i), req.commit, req.acknowledged, row);
  }

  /**
   * No two rows of a file are created with a common phone or email unless the later one's own
   * confirmation names the earlier one.
   */
  lemma {:induction false} CreatedDuplicatesWereConfirmed(req: Request, was: seq<WorkRow>, i: nat, j: nat,
                                                          early: WorkRow, late: WorkRow)
    requires i < j < |was| && WellPosed(req, was)
    requires SettlesAs(req, was, i, early) && early.state == Created
    requires SettlesAs(req, was, j, late) && late.state == Created
    ensures IsValid(was[i]) && IsValid(was[j])
    ensures SharesContact(AsRow(req.rules, was[j]), AsRow(req.rules, was[i])) ==>
              RowKey(was[i].rowNumber) in Confirmed(req.confirmations, was[j].rowNumber)
  {
    CreatedCameThrough(req, was, i, early);
    CreatedCameThrough(req, was, j, late);
    HeldExactlyWhen(req.rules, req.snapshot, req.confirmations, was, j);
  }

  /** No row is created sharing a phone or email with an existing actor unless its confirmation names that actor. */
  lemma {:induction false} CreatedActorMatchesWereConfirmed(req: Request, was: seq<WorkRow>, i: nat, row: WorkRow, a: Row)
    requires i < |was| && WellPosed(req, was)
    requires SettlesAs(req, was, i, row) && row.state == Created
    requires a in req.snapshot
    ensures IsValid(was[i])
    ensures SharesContact(AsRow(req.rules, was[i]), a) ==>
              ActorKey(a.key) in Confirmed(req.confirmations, was[i].rowNumber)
  {
    CreatedCameThrough(req, was, i, row);
    HeldExactlyWhen(req.rules, req.snapshot, req.confirmations, was, i);
  }

  /** No import creates a GRANTED actor without method and date, or without the acknowledgement. */
  lemma {:induction false} CreatedGrantsAreEvidenced(req: Request, was: seq<WorkRow>, i: nat, row: WorkRow)
    requires i < |was| && Validated(was[i]) && SettlesAs(req, was, i, row) && row.state == Created
    ensures row.create.Some?
    ensures var c := row.create.value;
            WouldBeEvidenced(c) && (c.consentStatus == GRANTED ==> req.acknowledged == Some(true))
  {
    CreatedCameThrough(req, was, i, row);
    GateMeaning(ClassifiedRow(req.rules, req.snapshot, req.confirmations, was, i), true, req.acknowledged);
  }

  /** Every failed row says why, no row is left a candidate by a commit, and only created rows carry an identity. */
  lemma {:induction false} EveryRowIsAccounted(req: Request, was: seq<WorkRow>, i: nat, row: WorkRow)
    requires i < |was| && Validated(was[i]) && SettlesAs(req, was, i, row)
    ensures row.state == Failed ==> row.errors != []
    ensures req.commit ==> row.state != CandidateRow
    ensures row.actorId.Some? <==> row.state == Created
    ensures row.traderId.Some? <==> row.state == Created
  {
    ClassificationKeepsRow(req, was, i);
    var before := ClassifiedRow(req.rules, req.snapshot, Counted(req), was, i);
    if before.state != Failed {
      GateMeaning(before, req.commit, req.acknowledged);
    }
  }
}
