/**
 * What each step does to the stored rows, column by column, and when it does nothing: stated over
 * the tables before and after the step, not over the functions a step is built from.
 */
module ConsentEffects {
  import opened Wrappers
  import opened ConsentTypes
  import opened ConsentPolicy
  import opened ConsentRequests
  import opened BulkConsent
  import opened ConsentProtocol
  import opened ConsentHistory
  import opened ConsentDispatch

  // ---- who may be asked ----------------------------------------------------------------

  ghost predicate HasPending(s: State, id: ActorId) {
    exists i :: 0 <= i < |s.requests| && s.requests[i].actorId == id && IsPending(s.requests[i], s.now)
  }

  ghost predicate LastDeclined(s: State, id: ActorId) {
    exists i :: IsNewestOf(s.requests, id, i) && s.requests[i].status == DECLINED
  }

  predicate HasAddress(a: Actor) {
    a.email.Some? && |a.email.value| > 0
  }

  /** A single request goes to any ungranted actor with an address; a bulk one also skips the pending and the decliners. */
  ghost predicate MayBeAsked(s: State, id: ActorId, scope: Scope) {
    && id in s.actors && HasAddress(s.actors[id]) && s.actors[id].consentStatus != GRANTED
    && (scope == Bulk ==> !HasPending(s, id) && !LastDeclined(s, id))
  }

  lemma {:induction false} LatestDeclinedMeaning(s: State, id: ActorId)
    ensures var latest := LatestRequest(RowsOf(s.requests, id));
            latest.Some? && latest.value.status == DECLINED <==> LastDeclined(s, id)
  {
    if LatestRequest(RowsOf(s.requests, id)).None? {
      NoRows(s.requests, id);
    } else {
      var i := LatestIsNewest(s.requests, id);
      if j :| IsNewestOf(s.requests, id, j) && s.requests[j].status == DECLINED {
        NewestIsUnique(s.requests, id, i, j);
      }
    }
  }

  /** Each of the five outcomes, over the table's own rows. */
  ghost predicate OutcomeIsRight(s: State, id: ActorId, scope: Scope)
    requires id in s.actors
  {
    var outcome, ungranted := OutcomeOf(s, id, scope), s.actors[id].consentStatus != GRANTED;
    && (outcome == NoEmail <==> !HasAddress(s.actors[id]))
    && (outcome == Granted <==> HasAddress(s.actors[id]) && !ungranted)
    && (outcome == PendingRequest <==> HasAddress(s.actors[id]) && ungranted && scope == Bulk && HasPending(s, id))
    && (outcome == Declined <==> && HasAddress(s.actors[id]) && ungranted
                                 && scope == Bulk && !HasPending(s, id) && LastDeclined(s, id))
    && (outcome == Eligible <==> MayBeAsked(s, id, scope))
  }

  lemma {:induction false} OutcomeExactlyWhen(s: State, id: ActorId, scope: Scope)
    requires id in s.actors
    ensures OutcomeIsRight(s, id, scope)
  {
    RowsOfAnyPending(s.requests, id, s.now);
    LatestDeclinedMeaning(s, id);
  }

  // ---- enqueue -------------------------------------------------------------------------

  /** A step leaves everything but the requests. */
  predicate RequestsOnly(s: State, s': State) {
    s' == s.(requests := s'.requests)
  }

  /** The row a step writes for an actor it asks. */
  function Asking(s: State, id: ActorId, batchId: nat, actingSub: string): Request
    requires id in s.actors && HasAddress(s.actors[id])
  {
    Request(id, batchId, s.actors[id].email.value, actingSub, QUEUED, s.now,
            None, None, None, 0, None, None, None, None)
  }

  /** Every new row asks a target that may be asked, no two the same, and every such target is asked. */
  ghost predicate AsksExactly(s: State, s': State, ids: seq<ActorId>, scope: Scope, batchId: nat, actingSub: string) {
    && |s.requests| <= |s'.requests|
    && (forall i :: |s.requests| <= i < |s'.requests| ==>
          var id := s'.requests[i].actorId;
          id in ids && MayBeAsked(s, id, scope) && s'.requests[i] == Asking(s, id, batchId, actingSub))
    && (forall i, j :: |s.requests| <= i < j < |s'.requests| ==> s'.requests[i].actorId != s'.requests[j].actorId)
    && (forall id :: id in ids && MayBeAsked(s, id, scope) ==> IsAskedFrom(s', |s.requests|, id))
  }

  ghost predicate IsAskedFrom(s: State, from: nat, id: ActorId) {
    exists i :: from <= i < |s.requests| && s.requests[i].actorId == id
  }

  /** A bulk enqueue leaves the old rows; a single one withdraws the pending rows of the actor it asks. */
  ghost predicate KeepsOldRows(s: State, s': State, ids: seq<ActorId>, scope: Scope) {
    && |s.requests| <= |s'.requests|
    && forall i :: 0 <= i < |s.requests| ==>
         var r := s.requests[i];
         s'.requests[i] == if scope == Single && r.actorId in ids && MayBeAsked(s, r.actorId, scope)
                              && IsPending(r, s.now)
                           then r.(status := SUPERSEDED, supersededAt := Some(s.now)) else r
  }

  lemma {:induction false} EnqueueWrites(s: State, ids: seq<ActorId>, scope: Scope, batchId: nat, actingSub: string)
    ensures var s' := Apply(s, Enqueue(ids, scope, batchId, actingSub));
            if scope == Single && |ids| != 1 then s' == s
            else
              && RequestsOnly(s, s') && AsksExactly(s, s', ids, scope, batchId, actingSub)
              && KeepsOldRows(s, s', ids, scope)
  {
    if !(scope == Single && |ids| != 1) {
      var found := Found(ids, s.actors);
      var eligible := EligibleOf(s, found, scope);
      forall id ensures id in eligible <==> id in ids && MayBeAsked(s, id, scope) {
        if id in s.actors {
          OutcomeExactlyWhen(s, id, scope);
        }
      }
      NewRowsAsk(s, ids, eligible, scope, batchId, actingSub);
      OldRowsStay(s, ids, eligible, scope, batchId, actingSub);
    }
  }

  lemma {:induction false} NewRowsAsk(s: State, ids: seq<ActorId>, eligible: seq<ActorId>, scope: Scope, batchId: nat,
                                      actingSub: string)
    requires Distinct(eligible) && forall id :: id in eligible ==> id in s.actors && HasEmail(s.actors[id])
    requires forall id :: id in eligible <==> id in ids && MayBeAsked(s, id, scope)
    ensures AsksExactly(s, s.(requests := KeptRequests(s, eligible, scope)
                                          + CreatedRequests(s, eligible, batchId, actingSub)),
                        ids, scope, batchId, actingSub)
  {
    var n, created := |s.requests|, CreatedRequests(s, eligible, batchId, actingSub);
    var rows := KeptRequests(s, eligible, scope) + created;
    forall i | n <= i < |rows|
      ensures rows[i].actorId == eligible[i - n] && eligible[i - n] in eligible
      ensures rows[i] == Asking(s, eligible[i - n], batchId, actingSub)
    {
      assert rows[i] == created[i - n];
      assert eligible[i - n] in eligible;
    }
    forall id | id in ids && MayBeAsked(s, id, scope) ensures IsAskedFrom(s.(requests := rows), n, id) {
      var k :| 0 <= k < |eligible| && eligible[k] == id;
      assert rows[n + k].actorId == id;
    }
  }

  lemma {:induction false} OldRowsStay(s: State, ids: seq<ActorId>, eligible: seq<ActorId>, scope: Scope, batchId: nat,
                                       actingSub: string)
    requires forall id :: id in eligible ==> id in s.actors && HasEmail(s.actors[id])
    requires forall id :: id in eligible <==> id in ids && MayBeAsked(s, id, scope)
    ensures KeepsOldRows(s, s.(requests := KeptRequests(s, eligible, scope)
                                           + CreatedRequests(s, eligible, batchId, actingSub)), ids, scope)
  {
  }

  /** No bulk enqueue, whatever its targets, writes a row for an actor whose latest request was declined. */
  lemma {:induction false} BulkNeverAsksDecliner(s: State, ids: seq<ActorId>, batchId: nat, actingSub: string,
                                                 id: ActorId)
    requires LastDeclined(s, id)
    ensures var rows := Apply(s, Enqueue(ids, Bulk, batchId, actingSub)).requests;
            |s.requests| <= |rows| && forall i :: |s.requests| <= i < |rows| ==> rows[i].actorId != id
  {
    EnqueueWrites(s, ids, Bulk, batchId, actingSub);
  }

  // ---- the actor's answer --------------------------------------------------------------

  /**
   * An answer that is taken moves its request and its actor, and nothing else: both answers record
   * the link, the instant and the request as evidence, only the status differs. Any other changes
   * nothing.
   */
  lemma {:induction false} AnswerWrites(s: State, token: nat, accept: bool, identified: bool)
    ensures var s', found := Apply(s, Respond(token, accept, identified)), Answerable(s, token, accept, identified);
            if found.None? then s' == s
            else
              var row := found.value;
              && row < |s.requests| && s.requests[row].actorId in s.actors
              && (var id := s.requests[row].actorId;
                  && s'.actors.Keys == s.actors.Keys
                  && (forall other :: other in s.actors && other != id ==> s'.actors[other] == s.actors[other])
                  && s'.actors[id].email == s.actors[id].email
                  && s'.actors[id].consentStatus == (if accept then GRANTED else DENIED)
                  && s'.actors[id].consentMethod == EMAIL_LINK
                  && s'.actors[id].consentObtainedAt == Some(s.now)
                  && s'.actors[id].consentReference == Some(RequestId(row)))
              && s'.requests == s.requests[row := s.requests[row].(status := if accept then ACCEPTED else DECLINED,
                                                                   respondedAt := Some(s.now))]
              && (exists diff :: s'.audit == s.audit + [RespondedEntry(row, s.requests[row].actorId, diff)])
              && s'.now == s.now && s'.claims == s.claims && s'.mailbox == s.mailbox
  {
  }

  // ---- admin writes --------------------------------------------------------------------

  /** The pending rows of these actors are withdrawn, every other row stays. */
  ghost predicate Withdraws(s: State, s': State, ids: set<ActorId>) {
    && |s'.requests| == |s.requests|
    && forall i :: 0 <= i < |s.requests| ==>
         s'.requests[i] == if s.requests[i].actorId in ids && IsPending(s.requests[i], s.now)
                           then s.requests[i].(status := SUPERSEDED, supersededAt := Some(s.now)) else s.requests[i]
  }

  /** A step leaves the dispatchers' log, the mailbox and the clock. */
  predicate NotDispatch(s: State, s': State) {
    s'.now == s.now && s'.claims == s.claims && s'.mailbox == s.mailbox
  }

  lemma {:induction false} SupersedeWithdraws(s: State, s': State, ids: set<ActorId>)
    requires s'.requests == Supersede(s.requests, ids, s.now)
    ensures Withdraws(s, s', ids)
  {
  }

  lemma {:induction false} UpdateWrites(s: State, id: ActorId, p: Payload)
    ensures var s' := Apply(s, Update(id, p));
            if id !in s.actors || UpdateActor(s.actors[id], p).Err? then s' == s
            else
              var before, after := s.actors[id], UpdateActor(s.actors[id], p).value;
              && s'.actors == s.actors[id := after] && NotDispatch(s, s')
              && s'.audit == (if before == after then s.audit else s.audit + [ActorDiff(id, BuildDiff(before, after))])
              && Withdraws(s, s', if before.consentStatus != after.consentStatus || before.email != after.email
                                  then {id} else {})
  {
  }

  lemma {:induction false} CreateWrites(s: State, id: ActorId, p: Payload)
    ensures var s' := Apply(s, Create(id, p));
            if id in s.actors || p.consentMethod == Given(EMAIL_LINK) || NewActor(p).Err? then s' == s
            else
              && s'.actors == s.actors[id := NewActor(p).value] && NotDispatch(s, s') && s'.requests == s.requests
              && s'.audit == s.audit + [ActorSnapshot(id, NewActor(p).value)]
  {
  }

  lemma {:induction false} SetConsentWrites(s: State, ids: seq<ActorId>, b: Batch)
    ensures var s' := Apply(s, SetConsent(ids, b));
            if b.consentMethod == Some(EMAIL_LINK) || BatchGate(b).Some? then s' == s
            else
              && s'.actors.Keys == s.actors.Keys && NotDispatch(s, s')
              && (forall id :: id in s.actors ==>
                    s'.actors[id] == if id in ids then BulkRow(s.actors[id], b) else s.actors[id])
              && Withdraws(s, s', set id | id in ids && id in s.actors)
  {
    assert ToSet(Found(ids, s.actors)) == set id | id in ids && id in s.actors;
  }

  /** One entry for every row whose diff says something, and no other. */
  lemma {:induction false} BatchLogs(actors: map<ActorId, Actor>, found: seq<ActorId>, b: Batch, e: AuditEntry)
    requires forall id :: id in found ==> id in actors
    ensures e in BulkEntries(actors, found, b)
            <==> exists id :: id in found && BulkDiff(actors[id], b) != NoChange
                              && e == ActorDiff(id, BulkDiff(actors[id], b))
    ensures |BulkEntries(actors, found, b)| <= |found|
  {
    if found != [] {
      var n := |found| - 1;
      BatchLogs(actors, found[..n], b, e);
      assert found == found[..n] + [found[n]];
    }
  }

  /** The entries of a delete are the deleted actors, each as it last was. */
  lemma {:induction false} DeleteLogs(actors: map<ActorId, Actor>, ids: seq<ActorId>, e: AuditEntry)
    ensures e in DeleteEntries(actors, Found(ids, actors))
            <==> e.ActorDeleted? && e.actorId in ids && e.actorId in actors && e.actor == actors[e.actorId]
  {
    var found := Found(ids, actors);
    var entries := DeleteEntries(actors, found);
    if e.ActorDeleted? && e.actorId in found && e.actor == actors[e.actorId] {
      var k :| 0 <= k < |found| && found[k] == e.actorId;
      assert entries[k] == e;
    }
  }

  /** Deleting logs each deleted actor as it last was. */
  lemma {:induction false} RemoveWrites(s: State, ids: seq<ActorId>)
    ensures var s' := Apply(s, Remove(ids));
            && s'.actors.Keys == (set id | id in s.actors && id !in ids) && NotDispatch(s, s')
            && s.audit <= s'.audit
            && (forall e :: e in s'.audit[|s.audit|..] <==>
                  e.ActorDeleted? && e.actorId in ids && e.actorId in s.actors && e.actor == s.actors[e.actorId])
            && (forall id :: id in s'.actors ==> s'.actors[id] == s.actors[id])
            && Withdraws(s, s', set id | id in ids && id in s.actors)
  {
    var found := Found(ids, s.actors);
    assert ToSet(found) == set id | id in ids && id in s.actors;
    forall e ensures e in DeleteEntries(s.actors, found) <==>
                       e.ActorDeleted? && e.actorId in ids && e.actorId in s.actors && e.actor == s.actors[e.actorId]
    {
      DeleteLogs(s.actors, ids, e);
    }
  }

  /**
   * Nobody becomes GRANTED unacknowledged: a step that leaves an actor GRANTED who was not before is
   * an acknowledged admin write about that actor, or the accepted, identified answer to a request of
   * its own.
   */
  lemma {:induction false} GrantIsAcknowledged(s: State, step: Step, id: ActorId)
    requires id in Apply(s, step).actors && Apply(s, step).actors[id].consentStatus == GRANTED
    requires id in s.actors ==> s.actors[id].consentStatus != GRANTED
    ensures match step
            case Create(other, p) => other == id && id !in s.actors && p.acknowledged
            case Update(other, p) => other == id && id in s.actors && p.acknowledged
            case SetConsent(ids, b) => id in ids && b.unlock && b.acknowledged
            case Respond(token, accept, identified) =>
              var row := Answerable(s, token, accept, identified);
              accept && identified && row.Some? && s.requests[row.value].actorId == id
            case _ => false
  {
    match step
    case Create(other, p) =>
      CreateWrites(s, other, p);
    case Update(other, p) =>
      UpdateWrites(s, other, p);
      if other in s.actors && UpdateActor(s.actors[other], p).Ok? {
        UpdateWritesColumns(s.actors[other], p);
        UpdateAcceptedExactlyWhen(s.actors[other], p);
      }
    case SetConsent(ids, b) =>
      SetConsentWrites(s, ids, b);
      if BatchGate(b).None? && id in s.actors {
        BatchWritesColumns(s.actors[id], b);
        BatchPassesExactlyWhen(b);
      }
    case Respond(token, accept, identified) => AnswerWrites(s, token, accept, identified);
    case _ =>
  }

  // ---- a dispatcher's steps -------------------------------------------------------------

  /** A step moves this one claim to this phase, and nothing else. */
  predicate OnlyPhase(s: State, s': State, c: nat, phase: Phase) {
    c < |s.claims| && s' == s.(claims := s.claims[c := s.claims[c].(phase := phase)])
  }

  lemma {:induction false} ClaimWrites(s: State, row: nat, token: nat)
    ensures var s' := Apply(s, ClaimRow(row, token));
            if row >= |s.requests| || s.requests[row].status != QUEUED || exists c :: c in s.claims && c.token == token
            then s' == s
            else
              var r := s.requests[row];
              s' == s.(requests := s.requests[row := r.(status := SENDING, claimedAt := Some(s.now),
                                                        attempts := r.attempts + 1, tokenHash := Some(HashOf(token)))],
                       claims := s.claims + [Claim(row, token, s.now, r.attempts + 1, false, Claimed)])
  {
    if exists c :: c in s.claims && c.token == token {
      assert !FreshToken(s, token);
    }
  }

  /** The row's actor is there, not GRANTED, and at the address the request was made for. */
  predicate StillAskable(s: State, row: nat) {
    && row < |s.requests| && s.requests[row].actorId in s.actors
    && s.actors[s.requests[row].actorId].consentStatus != GRANTED
    && s.actors[s.requests[row].actorId].email == Some(s.requests[row].recipientEmail)
  }

  lemma {:induction false} RecheckWrites(s: State, c: nat)
    ensures var s' := Apply(s, Recheck(c));
            if c >= |s.claims| || s.claims[c].row >= |s.requests| || s.claims[c].phase != Claimed then s' == s
            else OnlyPhase(s, s', c, if StillAskable(s, s.claims[c].row) then Cleared else Ineligible)
  {
  }

  lemma {:induction false} HandOverWrites(s: State, c: nat, failure: Option<FailureReason>)
    ensures var s' := Apply(s, HandOver(c, failure));
            if c >= |s.claims| || s.claims[c].row >= |s.requests| || s.claims[c].phase != Cleared then s' == s
            else
              var claim := s.claims[c];
              && s'.mailbox == s.mailbox + [Mail(c, claim.row, s.requests[claim.row].recipientEmail, claim.token)]
              && s'.claims == s.claims[c := claim.(mailed := true, phase := if failure.None? then MailAccepted
                                                                            else MailRejected(failure.value))]
              && s'.requests == s.requests && s'.actors == s.actors && s'.audit == s.audit && s'.now == s.now
  {
  }

  /** The row a claimant's last write leaves, when it finds the row still SENDING. */
  function Concluded(r: Request, phase: Phase, now: int): Request {
    match phase
    case Ineligible => r.(status := SUPERSEDED, supersededAt := Some(now))
    case MailRejected(reason) => r.(status := FAILED, failureReason := Some(reason))
    case MailAccepted => r.(status := SENT, sentAt := Some(now), expiresAt := Some(now + 30 * 24 * 60 * 60 * 1000))
    case _ => r
  }

  /** How such a claim ends: delivered or undelivered only if its own write was made. */
  function EndOfPhase(phase: Phase, found: bool): Outcome {
    match phase
    case MailRejected(reason) => if found then Undelivered(reason) else Lost
    case MailAccepted => if found then Delivered else Lost
    case _ => Lost
  }

  lemma {:induction false} ConcludeWrites(s: State, c: nat)
    ensures var s' := Apply(s, Conclude(c));
            if c >= |s.claims| || s.claims[c].row >= |s.requests|
               || s.claims[c].phase in {Claimed, Cleared} || s.claims[c].phase.Ended?
            then s' == s
            else
              var claim := s.claims[c];
              var r := s.requests[claim.row];
              var found := r.status == SENDING;
              && s'.claims == s.claims[c := claim.(phase := Ended(EndOfPhase(claim.phase, found)))]
              && s'.requests == (if found then s.requests[claim.row := Concluded(r, claim.phase, s.now)] else s.requests)
              && s'.audit == (if found && claim.phase == MailAccepted
                              then s.audit + [RequestedEntry(claim.row, r.actorId, r.requestedBySub, r.recipientEmail)]
                              else s.audit)
              && s'.actors == s.actors && s'.now == s.now && s'.mailbox == s.mailbox
  {
  }

  /** A claim older than two minutes fails as stale; no other row moves. */
  lemma {:induction false} SweepWrites(s: State)
    ensures var s' := Apply(s, SweepStale);
            && RequestsOnly(s, s') && |s'.requests| == |s.requests|
            && forall i :: 0 <= i < |s.requests| ==>
                 var r := s.requests[i];
                 s'.requests[i] == if r.status == SENDING && r.claimedAt.Some? && r.claimedAt.value + 120000 < s.now
                                   then r.(status := FAILED, failureReason := Some(StaleClaim)) else r
  {
  }

  /** A failed row of the batch is queued again without its token; no other row moves. */
  lemma {:induction false} RetryWrites(s: State, onlyBatch: Option<nat>)
    ensures var s' := Apply(s, RetryFailed(onlyBatch));
            && RequestsOnly(s, s') && |s'.requests| == |s.requests|
            && forall i :: 0 <= i < |s.requests| ==>
                 var r := s.requests[i];
                 s'.requests[i] == if r.status == FAILED && (onlyBatch.None? || onlyBatch.value == r.batchId)
                                   then r.(status := QUEUED, tokenHash := None) else r
  {
  }

  // ---- nothing is mailed unchecked --------------------------------------------------------

  lemma {:induction false} ConcludeMakesNoCleared(s: State, d: nat, c: nat)
    requires c < |s.claims| && s.claims[c].phase != Cleared
    ensures |ConcludeClaim(s, d).claims| == |s.claims| && ConcludeClaim(s, d).claims[c].phase != Cleared
  {
  }

  /** Only its own re-check clears a claim, and it finds the actor still askable. */
  lemma {:induction false} OnlyRecheckClears(s: State, step: Step, c: nat)
    requires c < |Apply(s, step).claims| && Apply(s, step).claims[c].phase == Cleared
    ensures c < |s.claims|
    ensures s.claims[c].phase != Cleared ==>
              step == Recheck(c) && s.claims[c].phase == Claimed && StillAskable(s, s.claims[c].row)
  {
    StepAddsClaim(s, step);
    match step
    case Conclude(d) =>
      if c < |s.claims| && s.claims[c].phase != Cleared {
        ConcludeMakesNoCleared(s, d, c);
      }
    case Recheck(d) => RecheckWrites(s, d);
    case Create(id, p) => CreateWrites(s, id, p);
    case Update(id, p) => UpdateWrites(s, id, p);
    case SetConsent(ids, b) => SetConsentWrites(s, ids, b);
    case _ =>
  }

  /** At this point of the run the claim on this row was re-checked, and its actor found askable at this address. */
  ghost predicate RecheckedAt(start: State, steps: seq<Step>, k: nat, c: nat, row: nat, address: string) {
    && k < |steps| && steps[k] == Recheck(c)
    && var s := Run(start, steps[..k]);
       && c < |s.claims| && s.claims[c].row == row && s.claims[c].phase == Claimed
       && StillAskable(s, row) && s.requests[row].recipientEmail == address
  }

  lemma {:induction false} RecheckedEarlier(start: State, steps: seq<Step>, k: nat, c: nat, row: nat, address: string)
    requires steps != [] && RecheckedAt(start, steps[..|steps| - 1], k, c, row, address)
    ensures RecheckedAt(start, steps, k, c, row, address)
  {
    assert steps[..|steps| - 1][..k] == steps[..k];
  }

  lemma {:induction false} ClearedWasRechecked(start: State, steps: seq<Step>, c: nat) returns (k: nat)
    requires Initial(start) && c < |Run(start, steps).claims| && Run(start, steps).claims[c].phase == Cleared
    ensures var s := Run(start, steps);
            && s.claims[c].row < |s.requests|
            && RecheckedAt(start, steps, k, c, s.claims[c].row, s.requests[s.claims[c].row].recipientEmail)
  {
    var n := |steps| - 1;
    var s := Run(start, steps[..n]);
    OnlyRecheckClears(s, steps[n], c);
    StepOnClaim(s, steps[n], c);
    if s.claims[c].phase == Cleared {
      k := ClearedWasRechecked(start, steps[..n], c);
      RecheckedEarlier(start, steps, k, c, s.claims[c].row, s.requests[s.claims[c].row].recipientEmail);
    } else {
      k := n;
    }
    StepKeepsFinalRow(s, steps[n], s.claims[c].row);
  }

  /**
   * In every run, every message was preceded by a re-check of its own claim, taken in a state in
   * which the row's actor was there, not GRANTED, and at exactly the address the message went to.
   */
  lemma {:induction false} MailWasRechecked(start: State, steps: seq<Step>, i: nat) returns (k: nat)
    requires Initial(start) && i < |Run(start, steps).mailbox|
    ensures var mail := Run(start, steps).mailbox[i];
            RecheckedAt(start, steps, k, mail.claim, mail.row, mail.recipient)
  {
    var n := |steps| - 1;
    var s := Run(start, steps[..n]);
    StepOnMailbox(s, steps[n]);
    if i < |s.mailbox| {
      k := MailWasRechecked(start, steps[..n], i);
    } else {
      k := ClearedWasRechecked(start, steps[..n], steps[n].claim);
    }
    var mail := Run(start, steps).mailbox[i];
    RecheckedEarlier(start, steps, k, mail.claim, mail.row, mail.recipient);
  }
}
