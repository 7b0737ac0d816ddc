/**
 * The consent protocol as a transition system. Every `$transaction` and every single
 * `updateMany` is one step; a dispatcher's claim, re-check, mail and result write are
 * four steps that interleave with everything else.
 */
module ConsentProtocol {
  import opened Wrappers
  import opened ConsentTypes
  import opened ConsentPolicy
  import opened ConsentRequests
  import opened BulkConsent

  datatype Outcome = Delivered | Undelivered(reason: FailureReason) | Lost

  /** Where a claimant stands between two of its database steps. */
  datatype Phase =
    | Claimed
    | Cleared
    | Ineligible
    | MailAccepted
    | MailRejected(reason: FailureReason)
    | Ended(outcome: Outcome)

  /** One successful claim of one row; its position in the log is the claimant's identity. */
  datatype Claim = Claim(row: nat, token: nat, claimedAt: int, attempt: nat, mailed: bool, phase: Phase)

  /** One call of the mail service. */
  datatype Mail = Mail(claim: nat, row: nat, recipient: string, token: nat)

  datatype AuditEntry =
    | ActorSnapshot(actorId: ActorId, actor: Actor)
    | ActorDeleted(actorId: ActorId, actor: Actor)
    | ActorDiff(actorId: ActorId, diff: ConsentDiff)
    | RequestedEntry(request: nat, actorId: ActorId, actingSub: string, recipientEmail: string)
    | RespondedEntry(request: nat, actorId: ActorId, diff: ConsentDiff)

  datatype State = State(
    actors: map<ActorId, Actor>,
    requests: seq<Request>,
    audit: seq<AuditEntry>,
    now: int,
    claims: seq<Claim>,
    mailbox: seq<Mail>)

  datatype Step =
    | Tick(elapsed: nat)
    | Create(id: ActorId, payload: Payload)
    | Update(id: ActorId, payload: Payload)
    | SetConsent(ids: seq<ActorId>, batch: Batch)
    | Remove(ids: seq<ActorId>)
    | Enqueue(ids: seq<ActorId>, scope: Scope, batchId: nat, actingSub: string)
    | ClaimRow(row: nat, token: nat)
    | Recheck(claim: nat)
    | HandOver(claim: nat, failure: Option<FailureReason>)
    | Conclude(claim: nat)
    | SweepStale
    | RetryFailed(onlyBatch: Option<nat>)
    | Respond(token: nat, accept: bool, identified: bool)

  // ---- actor writes -----------------------------------------------------------

  /** `findMany({ id: { in: ids } })`: the existing ones, once each. */
  function Found(ids: seq<ActorId>, actors: map<ActorId, Actor>): (r: seq<ActorId>)
    ensures forall id :: id in r <==> id in ids && id in actors
    ensures Distinct(r)
  {
    if ids == [] then []
    else
      var earlier := Found(ids[..|ids| - 1], actors);
      var last := ids[|ids| - 1];
      assert forall id :: id in ids <==> id in ids[..|ids| - 1] || id == last;
      if last in actors && last !in earlier then earlier + [last] else earlier
  }

  function ToSet(ids: seq<ActorId>): set<ActorId> {
    set id | id in ids
  }

  function CreateActor(s: State, id: ActorId, p: Payload): State {
    if id in s.actors || p.consentMethod == Given(EMAIL_LINK) || NewActor(p).Err? then s
    else
      var actor := NewActor(p).value;
      s.(actors := s.actors[id := actor], audit := s.audit + [ActorSnapshot(id, actor)])
  }

  /** The update transaction: write, log the diff if there is one, supersede on a status or email change. */
  function UpdateOne(s: State, id: ActorId, p: Payload): State {
    if id !in s.actors || UpdateActor(s.actors[id], p).Err? then s
    else
      var before := s.actors[id];
      var after := UpdateActor(before, p).value;
      var diff := BuildDiff(before, after);
      s.(actors := s.actors[id := after],
         audit := if diff == NoChange then s.audit else s.audit + [ActorDiff(id, diff)],
         requests := if before.consentStatus != after.consentStatus || before.email != after.email
                     then Supersede(s.requests, {id}, s.now) else s.requests)
  }

  function BulkEntries(actors: map<ActorId, Actor>, found: seq<ActorId>, b: Batch): seq<AuditEntry>
    requires forall id :: id in found ==> id in actors
  {
    if found == [] then []
    else
      var id := found[|found| - 1];
      var earlier := BulkEntries(actors, found[..|found| - 1], b);
      var diff := BulkDiff(actors[id], b);
      if diff == NoChange then earlier else earlier + [ActorDiff(id, diff)]
  }

  function BulkSetConsent(s: State, ids: seq<ActorId>, b: Batch): State {
    if !WellFormedBatch(b) || BatchGate(b).Some? then s
    else
      var found := Found(ids, s.actors);
      s.(actors := BulkActors(s.actors, found, b),
         audit := s.audit + BulkEntries(s.actors, found, b),
         requests := Supersede(s.requests, ToSet(found), s.now))
  }

  function DeleteEntries(actors: map<ActorId, Actor>, found: seq<ActorId>): seq<AuditEntry>
    requires forall id :: id in found ==> id in actors
  {
    seq(|found|, i requires 0 <= i < |found| => ActorDeleted(found[i], actors[found[i]]))
  }

  /** `remove` of one id and `bulkDelete` of several: log, supersede, then delete. */
  function RemoveActors(s: State, ids: seq<ActorId>): State {
    var found := Found(ids, s.actors);
    s.(actors := s.actors - ToSet(found),
       audit := s.audit + DeleteEntries(s.actors, found),
       requests := Supersede(s.requests, ToSet(found), s.now))
  }

  // ---- requests ----------------------------------------------------------------

  function NewRequest(id: ActorId, actor: Actor, batchId: nat, actingSub: string, now: int): Request
    requires actor.email.Some?
  {
    Request(id, batchId, actor.email.value, actingSub, QUEUED, now, None, None, None, 0, None, None, None, None)
  }

  function OutcomeOf(s: State, id: ActorId, scope: Scope): Eligibility
    requires id in s.actors
  {
    EvaluateConsentEligibility(s.actors[id], RowsOf(s.requests, id), scope, s.now)
  }

  predicate IsEligible(s: State, id: ActorId, scope: Scope) {
    id in s.actors && OutcomeOf(s, id, scope) == Eligible
  }

  function EligibleOf(s: State, found: seq<ActorId>, scope: Scope): (r: seq<ActorId>)
    ensures forall id :: id in r <==> id in found && IsEligible(s, id, scope)
    ensures Distinct(found) ==> Distinct(r)
  {
    if found == [] then []
    else
      var earlier := EligibleOf(s, found[..|found| - 1], scope);
      var last := found[|found| - 1];
      assert forall id :: id in found <==> id in found[..|found| - 1] || id == last;
      if IsEligible(s, last, scope) then earlier + [last] else earlier
  }

  /** A single-scope request names exactly one id. */
  predicate ScopeMatchesTarget(ids: seq<ActorId>, scope: Scope) {
    scope == Single ==> |ids| == 1
  }

  /** The table with the pending rows a single-scope request resends put out of the way. */
  function KeptRequests(s: State, eligible: seq<ActorId>, scope: Scope): seq<Request> {
    if scope == Single then Supersede(s.requests, ToSet(eligible), s.now) else s.requests
  }

  function CreatedRequests(s: State, eligible: seq<ActorId>, batchId: nat, actingSub: string): seq<Request>
    requires forall id :: id in eligible ==> id in s.actors && HasEmail(s.actors[id])
  {
    seq(|eligible|, i requires 0 <= i < |eligible| && eligible[i] in s.actors && HasEmail(s.actors[eligible[i]]) =>
      NewRequest(eligible[i], s.actors[eligible[i]], batchId, actingSub, s.now))
  }

  function EnqueueRequests(s: State, ids: seq<ActorId>, scope: Scope, batchId: nat, actingSub: string): State {
    if !ScopeMatchesTarget(ids, scope) then s
    else
      var eligible := EligibleOf(s, Found(ids, s.actors), scope);
      s.(requests := KeptRequests(s, eligible, scope) + CreatedRequests(s, eligible, batchId, actingSub))
  }

  /** Enqueue row by row: an old row is kept or superseded, a new one asks an eligible actor. */
  lemma {:induction false} EnqueueOnRow(s: State, ids: seq<ActorId>, scope: Scope, batchId: nat, actingSub: string, row: nat)
    requires row < |EnqueueRequests(s, ids, scope, batchId, actingSub).requests|
    ensures |s.requests| <= |EnqueueRequests(s, ids, scope, batchId, actingSub).requests|
    ensures row < |s.requests| ==>
              var eligible := ToSet(EligibleOf(s, Found(ids, s.actors), scope));
              var r' := EnqueueRequests(s, ids, scope, batchId, actingSub).requests[row];
              r' == s.requests[row] || r' == SupersedeRow(s.requests[row], eligible, s.now)
    ensures row >= |s.requests| ==>
              exists id :: id in s.actors && HasEmail(s.actors[id])
                && EnqueueRequests(s, ids, scope, batchId, actingSub).requests[row]
                   == NewRequest(id, s.actors[id], batchId, actingSub, s.now)
  {
    if ScopeMatchesTarget(ids, scope) {
      var eligible := EligibleOf(s, Found(ids, s.actors), scope);
      var kept := KeptRequests(s, eligible, scope);
      var created := CreatedRequests(s, eligible, batchId, actingSub);
      assert (kept + created)[row] == if row < |kept| then kept[row] else created[row - |kept|];
      if row >= |kept| {
        assert eligible[row - |kept|] in eligible;
      }
    }
  }

  // ---- a dispatcher's four steps --------------------------------------------------

  predicate FreshToken(s: State, token: nat) {
    forall c :: 0 <= c < |s.claims| ==> s.claims[c].token != token
  }

  /** Compare-and-set out of QUEUED; the token hash is stored in the same write. */
  function ClaimOne(s: State, row: nat, token: nat): State {
    if row >= |s.requests| || s.requests[row].status != QUEUED || !FreshToken(s, token) then s
    else
      var r := s.requests[row];
      s.(requests := s.requests[row := r.(status := SENDING, claimedAt := Some(s.now),
                                          attempts := r.attempts + 1, tokenHash := Some(HashOf(token)))],
         claims := s.claims + [Claim(row, token, s.now, r.attempts + 1, false, Claimed)])
  }

  predicate InPhase(s: State, c: nat) {
    c < |s.claims| && s.claims[c].row < |s.requests|
  }

  function WithPhase(s: State, c: nat, phase: Phase): State
    requires c < |s.claims|
  {
    s.(claims := s.claims[c := s.claims[c].(phase := phase)])
  }

  /** The actor can have moved since enqueue: read it again before anything is sent. */
  function RecheckClaim(s: State, c: nat): State {
    if !InPhase(s, c) || s.claims[c].phase != Claimed then s
    else
      var r := s.requests[s.claims[c].row];
      var stillEligible := r.actorId in s.actors
                           && s.actors[r.actorId].consentStatus != GRANTED
                           && s.actors[r.actorId].email == Some(r.recipientEmail);
      WithPhase(s, c, if stillEligible then Cleared else Ineligible)
  }

  /** The mail service is called once; its answer decides which result is written. */
  function HandOverMail(s: State, c: nat, failure: Option<FailureReason>): State {
    if !InPhase(s, c) || s.claims[c].phase != Cleared then s
    else
      var claim := s.claims[c];
      var answer := if failure.None? then MailAccepted else MailRejected(failure.value);
      s.(mailbox := s.mailbox + [Mail(c, claim.row, s.requests[claim.row].recipientEmail, claim.token)],
         claims := s.claims[c := claim.(mailed := true, phase := answer)])
  }

  function RequestedAudit(row: nat, r: Request): AuditEntry {
    RequestedEntry(row, r.actorId, r.requestedBySub, r.recipientEmail)
  }

  /** The claimant's last write: a compare-and-set from SENDING, whichever of the three results it carries. */
  function ConcludeClaim(s: State, c: nat): State {
    if !InPhase(s, c) then s
    else
      var row := s.claims[c].row;
      var r := s.requests[row];
      match s.claims[c].phase
      case Ineligible =>
        if r.status != SENDING then WithPhase(s, c, Ended(Lost))
        else WithPhase(s.(requests := s.requests[row := r.(status := SUPERSEDED, supersededAt := Some(s.now))]),
                       c, Ended(Lost))
      case MailRejected(reason) =>
        if r.status != SENDING then WithPhase(s, c, Ended(Lost))
        else WithPhase(s.(requests := s.requests[row := r.(status := FAILED, failureReason := Some(reason))]),
                       c, Ended(Undelivered(reason)))
      case MailAccepted =>
        if r.status != SENDING then WithPhase(s, c, Ended(Lost))
        else WithPhase(s.(requests := s.requests[row := r.(status := SENT, sentAt := Some(s.now),
                                                           expiresAt := Some(s.now + CONSENT_LINK_VALIDITY_MS))],
                          audit := s.audit + [RequestedAudit(row, r)]),
                       c, Ended(Delivered))
      case _ => s
  }

  // ---- the actor's answer ----------------------------------------------------------

  function FindByToken(rows: seq<Request>, hash: TokenHash): (r: Option<nat>)
    ensures r.Some? ==> r.value < |rows| && rows[r.value].tokenHash == Some(hash)
    ensures r.None? ==> forall i :: 0 <= i < |rows| ==> rows[i].tokenHash != Some(hash)
  {
    if rows == [] then None
    else
      var earlier := FindByToken(rows[..|rows| - 1], hash);
      if earlier.Some? then earlier
      else if rows[|rows| - 1].tokenHash == Some(hash) then Some(|rows| - 1) else None
  }

  /** The one row an answer with this token may be written to; `None` is the uniform miss. */
  function Answerable(s: State, token: nat, accept: bool, identified: bool): Option<nat> {
    var row := FindByToken(s.requests, HashOf(token));
    if accept && !identified then None
    else if row.None? then None
    else
      var r := s.requests[row.value];
      if r.actorId in s.actors && r.status == SENT && r.expiresAt.Some? && r.expiresAt.value > s.now then row
      else None
  }

  function AnsweredActor(before: Actor, row: nat, accept: bool, now: int): Actor {
    Actor(before.email, if accept then GRANTED else DENIED, EMAIL_LINK, Some(now), Some(RequestId(row)))
  }

  function RespondOnce(s: State, token: nat, accept: bool, identified: bool): State {
    var found := Answerable(s, token, accept, identified);
    if found.None? then s
    else
      var row := found.value;
      var r := s.requests[row];
      var before := s.actors[r.actorId];
      var after := AnsweredActor(before, row, accept, s.now);
      s.(requests := s.requests[row := r.(status := if accept then ACCEPTED else DECLINED,
                                          respondedAt := Some(s.now))],
         actors := s.actors[r.actorId := after],
         audit := s.audit + [RespondedEntry(row, r.actorId, BuildDiff(before, after))])
  }

  // ---- runs ------------------------------------------------------------------------

  function Apply(s: State, step: Step): State {
    match step
    case Tick(elapsed) => s.(now := s.now + elapsed)
    case Create(id, p) => CreateActor(s, id, p)
    case Update(id, p) => UpdateOne(s, id, p)
    case SetConsent(ids, b) => BulkSetConsent(s, ids, b)
    case Remove(ids) => RemoveActors(s, ids)
    case Enqueue(ids, scope, batchId, actingSub) => EnqueueRequests(s, ids, scope, batchId, actingSub)
    case ClaimRow(row, token) => ClaimOne(s, row, token)
    case Recheck(c) => RecheckClaim(s, c)
    case HandOver(c, failure) => HandOverMail(s, c, failure)
    case Conclude(c) => ConcludeClaim(s, c)
    case SweepStale => s.(requests := Sweep(s.requests, s.now))
    case RetryFailed(onlyBatch) => s.(requests := Retry(s.requests, onlyBatch))
    case Respond(token, accept, identified) => RespondOnce(s, token, accept, identified)
  }

  function Run(s: State, steps: seq<Step>): State {
    if steps == [] then s else Apply(Run(s, steps[..|steps| - 1]), steps[|steps| - 1])
  }

  /** The day the feature ships: no request yet, no link evidence, any legacy actor rows. */
  ghost predicate Initial(s: State) {
    && s.requests == [] && s.audit == [] && s.claims == [] && s.mailbox == []
    && forall id :: id in s.actors ==> s.actors[id].consentMethod != EMAIL_LINK
  }

  ghost predicate Reachable(s: State) {
    exists start, steps :: Initial(start) && s == Run(start, steps)
  }
}
