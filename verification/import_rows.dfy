/** The working rows of one bulk import, threaded through its phases and updated in place. */
module ImportRows {
  import opened Wrappers
  import opened ConsentTypes
  import opened IntakeDuplicates

  datatype RowState = CandidateRow | PossibleDuplicate | Failed | Created

  /** What a valid row would create: its comparison fields and its consent columns. */
  datatype Create = Create(
    input: Candidate,
    consentStatus: ConsentStatus,
    consentMethod: ConsentMethod,
    consentObtainedAt: Option<DateText>,
    consentReference: Option<Reference>)

  datatype DuplicateCandidate =
    | ActorCandidate(actorId: string, traderId: string, traderName: string, matchedOn: seq<Attribute>)
    | RowCandidate(row: nat, traderName: string, matchedOn: seq<Attribute>)

  datatype Warning = AcknowledgementWillBeRequired | OtherWarning

  /** An error is named by its field. */
  datatype WorkRow = WorkRow(
    rowNumber: nat,
    traderId: Option<string>,
    errors: seq<string>,
    warnings: seq<Warning>,
    state: RowState,
    create: Option<Create>,
    actorId: Option<string>,
    duplicateCandidates: seq<DuplicateCandidate>,
    duplicateCandidatesTotal: nat,
    duplicateWarnings: seq<DuplicateCandidate>)

  /** A row as validation leaves it. */
  predicate Validated(row: WorkRow) {
    && row.state == (if row.errors == [] then CandidateRow else Failed)
    && (row.create.Some? <==> row.state == CandidateRow)
    && row.traderId.None? && row.actorId.None?
    && row.duplicateCandidates == [] && row.duplicateWarnings == []
  }

  predicate RowNumbersIncrease(rows: seq<WorkRow>) {
    forall i, j :: 0 <= i < j < |rows| ==> rows[i].rowNumber < rows[j].rowNumber
  }

  predicate AllValidated(rows: seq<WorkRow>) {
    && RowNumbersIncrease(rows)
    && forall i :: 0 <= i < |rows| ==> Validated(rows[i])
  }
}
