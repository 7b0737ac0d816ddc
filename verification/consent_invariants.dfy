/** What every step of the consent protocol keeps, in every interleaving. */
module ConsentInvariants {
  import opened Wrappers
  import opened ConsentTypes
  import opened ConsentPolicy
  import opened ConsentRequests
  import opened BulkConsent
  import opened ConsentProtocol

  // ---- the invariant ------------------------------------------------------------

  ghost predicate OnePendingPerActor(rows: seq<Request>, now: int) {
    forall i, j :: 0 <= i < j < |rows| && IsPending(rows[i], now) && IsPending(rows[j], now) ==>
                     rows[i].actorId != rows[j].actorId
  }

  /** A pending request asks an existing, ungranted actor at the address the actor has now. */
  predicate AsksCurrentActor(r: Request, actors: map<ActorId, Actor>) {
    && r.actorId in actors
    && actors[r.actorId].consentStatus != GRANTED
    && actors[r.actorId].email == Some(r.recipientEmail)
    && r.recipientEmail != ""
  }

  ghost predicate PendingAsksCurrentActor(rows: seq<Request>, actors: map<ActorId, Actor>, now: int) {
    forall i :: 0 <= i < |rows| && IsPending(rows[i], now) ==> AsksCurrentActor(rows[i], actors)
  }

  /** The evidence behind a link grant: an accepted request of that same actor, answered at that instant. */
  predicate LinkEvidence(id: ActorId, a: Actor, rows: seq<Request>) {
    HoldsLinkGrant(a) ==>
      && a.consentReference.Some? && a.consentReference.value.RequestId?
      && a.consentReference.value.index < |rows|
      && var r := rows[a.consentReference.value.index];
         r.status == ACCEPTED && r.actorId == id && r.respondedAt.Some? && a.consentObtainedAt == r.respondedAt
  }

  ghost predicate AllLinkEvidence(actors: map<ActorId, Actor>, rows: seq<Request>) {
    forall id :: id in actors ==> LinkEvidence(id, actors[id], rows)
  }

  /** Which dates a row carries in which status. */
  predicate WellDated(r: Request) {
    && (r.status in {QUEUED, SENDING, FAILED} ==> r.sentAt.None?)
    && (r.status in {SENT, ACCEPTED, DECLINED} ==> r.sentAt.Some?)
    && (r.sentAt.Some? ==> r.expiresAt == Some(r.sentAt.value + CONSENT_LINK_VALIDITY_MS))
    && (r.respondedAt.Some? <==> r.status in {ACCEPTED, DECLINED})
    && (r.status == SENDING ==> r.claimedAt.Some? && r.tokenHash.Some?)
  }

  ghost predicate AllWellDated(rows: seq<Request>) {
    forall i :: 0 <= i < |rows| ==> WellDated(rows[i])
  }

  ghost predicate Inv(s: State) {
    && OnePendingPerActor(s.requests, s.now)
    && PendingAsksCurrentActor(s.requests, s.actors, s.now)
    && AllLinkEvidence(s.actors, s.requests)
    && AllWellDated(s.requests)
  }

  // ---- two shapes of step -----------------------------------------------------------

  /** How a write to the request table may move one row when it moves no actor. */
  predicate RowMayBecome(r: Request, r': Request, now: int, now': int) {
    && r'.actorId == r.actorId && r'.recipientEmail == r.recipientEmail
    && (IsPending(r', now') ==> IsPending(r, now))
    && (r.status == ACCEPTED ==> r' == r)
    && (WellDated(r) ==> WellDated(r'))
  }

  lemma {:induction false} RequestWritesKeepInv(s: State, s': State)
    requires Inv(s)
    requires s'.actors == s.actors && |s'.requests| == |s.requests|
    requires forall i :: 0 <= i < |s.requests| ==> RowMayBecome(s.requests[i], s'.requests[i], s.now, s'.now)
    ensures Inv(s')
  {
    forall i, j | 0 <= i < j < |s'.requests| && IsPending(s'.requests[i], s'.now) && IsPending(s'.requests[j], s'.now)
      ensures s'.requests[i].actorId != s'.requests[j].actorId
    {
      assert IsPending(s.requests[i], s.now) && IsPending(s.requests[j], s.now);
    }
    forall id | id in s'.actors
      ensures LinkEvidence(id, s'.actors[id], s'.requests)
    {
      assert LinkEvidence(id, s.actors[id], s.requests);
    }
  }

  /** A write to the actors in `ids` that supersedes their pending requests in the same transaction. */
  lemma {:induction false} SupersedingWritesKeepInv(s: State, s': State, ids: set<ActorId>)
    requires Inv(s)
    requires s'.now == s.now && s'.requests == Supersede(s.requests, ids, s.now)
    requires forall id :: id !in ids ==> (id in s'.actors <==> id in s.actors)
    requires forall id :: id in s.actors && id !in ids ==> s'.actors[id] == s.actors[id]
    requires forall id :: id in s'.actors && id in ids ==> LinkEvidence(id, s'.actors[id], s.requests)
    ensures Inv(s')
  {
    forall i | 0 <= i < |s.requests|
      ensures RowMayBecome(s.requests[i], s'.requests[i], s.now, s.now)
      ensures IsPending(s'.requests[i], s.now) ==> s.requests[i].actorId !in ids
    {
      SupersededSetIsPendingSet(s.requests[i], ids, s.now);
    }
    forall i, j | 0 <= i < j < |s'.requests| && IsPending(s'.requests[i], s'.now) && IsPending(s'.requests[j], s'.now)
      ensures s'.requests[i].actorId != s'.requests[j].actorId
    {
      assert IsPending(s.requests[i], s.now) && IsPending(s.requests[j], s.now);
    }
    forall i | 0 <= i < |s'.requests| && IsPending(s'.requests[i], s'.now)
      ensures AsksCurrentActor(s'.requests[i], s'.actors)
    {
      assert AsksCurrentActor(s.requests[i], s.actors);
    }
    forall id | id in s'.actors
      ensures LinkEvidence(id, s'.actors[id], s'.requests)
    {
      assert id !in ids ==> LinkEvidence(id, s.actors[id], s.requests);
    }
  }

  // ---- the steps, one by one ------------------------------------------------------------

  lemma {:induction false} CreateKeepsInv(s: State, id: ActorId, p: Payload)
    requires Inv(s)
    ensures Inv(CreateActor(s, id, p))
  {
    var s' := CreateActor(s, id, p);
    if s' != s {
      forall other | other in s'.actors
        ensures LinkEvidence(other, s'.actors[other], s'.requests)
      {
        assert other != id ==> LinkEvidence(other, s.actors[other], s.requests);
      }
      forall i | 0 <= i < |s.requests| && IsPending(s.requests[i], s.now)
        ensures AsksCurrentActor(s.requests[i], s'.actors)
      {
        assert AsksCurrentActor(s.requests[i], s.actors);
      }
    }
  }

  lemma {:induction false} UpdateKeepsInv(s: State, id: ActorId, p: Payload)
    requires Inv(s)
    ensures Inv(UpdateOne(s, id, p))
  {
    var s' := UpdateOne(s, id, p);
    if id in s.actors && UpdateActor(s.actors[id], p).Ok? {
      var before := s.actors[id];
      var after := UpdateActor(before, p).value;
      UpdateNeverAssertsLink(before, p);
      assert LinkEvidence(id, before, s.requests);
      assert LinkEvidence(id, after, s.requests);
      if before.consentStatus != after.consentStatus || before.email != after.email {
        SupersedingWritesKeepInv(s, s', {id});
      } else {
        forall i | 0 <= i < |s.requests| && IsPending(s.requests[i], s.now)
          ensures AsksCurrentActor(s.requests[i], s'.actors)
        {
          assert AsksCurrentActor(s.requests[i], s.actors);
        }
        forall other | other in s'.actors
          ensures LinkEvidence(other, s'.actors[other], s'.requests)
        {
          assert other != id ==> LinkEvidence(other, s.actors[other], s.requests);
        }
      }
    }
  }

  lemma {:induction false} SetConsentKeepsInv(s: State, ids: seq<ActorId>, b: Batch)
    requires Inv(s)
    ensures Inv(BulkSetConsent(s, ids, b))
  {
    if WellFormedBatch(b) && BatchGate(b).None? {
      var found := Found(ids, s.actors);
      var s' := BulkSetConsent(s, ids, b);
      forall id | id in s'.actors && id in ToSet(found)
        ensures LinkEvidence(id, s'.actors[id], s.requests)
      {
        assert LinkEvidence(id, s.actors[id], s.requests);
        if b.unlock {
          UnlockLeavesEvidence(s.actors[id], b);
        }
      }
      SupersedingWritesKeepInv(s, s', ToSet(found));
    }
  }

  lemma {:induction false} RemoveKeepsInv(s: State, ids: seq<ActorId>)
    requires Inv(s)
    ensures Inv(RemoveActors(s, ids))
  {
    SupersedingWritesKeepInv(s, RemoveActors(s, ids), ToSet(Found(ids, s.actors)));
  }

  /** Bulk enqueue skips an actor with a pending request; single enqueue supersedes it first. */
  lemma {:induction false} EnqueueKeepsInv(s: State, ids: seq<ActorId>, scope: Scope, batchId: nat, actingSub: string)
    requires Inv(s)
    ensures Inv(EnqueueRequests(s, ids, scope, batchId, actingSub))
  {
    if ScopeMatchesTarget(ids, scope) {
      var eligible := EligibleOf(s, Found(ids, s.actors), scope);
      var kept := s.(requests := KeptRequests(s, eligible, scope));
      KeptRequestsKeepInv(s, eligible, scope);
      AppendedRequestsKeepInv(kept, eligible, CreatedRequests(s, eligible, batchId, actingSub));
    }
  }

  lemma {:induction false} KeptRequestsKeepInv(s: State, eligible: seq<ActorId>, scope: Scope)
    requires Inv(s)
    requires forall id :: id in eligible ==> IsEligible(s, id, scope)
    ensures var kept := KeptRequests(s, eligible, scope);
            && Inv(s.(requests := kept))
            && forall i :: 0 <= i < |kept| && IsPending(kept[i], s.now) ==> kept[i].actorId !in eligible
  {
    var kept := KeptRequests(s, eligible, scope);
    if scope == Single {
      SupersedingWritesKeepInv(s, s.(requests := kept), ToSet(eligible));
    }
    forall i | 0 <= i < |kept| && IsPending(kept[i], s.now)
      ensures kept[i].actorId !in eligible
    {
      if kept[i].actorId in eligible {
        NoPendingLeftFor(s, scope, eligible, i);
      }
    }
  }

  lemma {:induction false} NoPendingLeftFor(s: State, scope: Scope, eligible: seq<ActorId>, i: nat)
    requires i < |s.requests|
    requires forall id :: id in eligible ==> IsEligible(s, id, scope)
    requires s.requests[i].actorId in eligible
    ensures scope == Bulk ==> !IsPending(s.requests[i], s.now)
    ensures scope == Single ==> !IsPending(Supersede(s.requests, ToSet(eligible), s.now)[i], s.now)
  {
    var id := s.requests[i].actorId;
    RowsOfAnyPending(s.requests, id, s.now);
    SupersededSetIsPendingSet(s.requests[i], ToSet(eligible), s.now);
  }

  lemma {:induction false} AppendedRequestsKeepInv(s: State, eligible: seq<ActorId>, created: seq<Request>)
    requires Inv(s)
    requires Distinct(eligible) && |created| == |eligible|
    requires forall i :: 0 <= i < |s.requests| && IsPending(s.requests[i], s.now) ==>
                           s.requests[i].actorId !in eligible
    requires forall k :: 0 <= k < |eligible| ==>
                           && created[k].actorId == eligible[k]
                           && AsksCurrentActor(created[k], s.actors) && WellDated(created[k])
    ensures Inv(s.(requests := s.requests + created))
  {
    var rows := s.requests + created;
    var n := |s.requests|;
    forall i, j | 0 <= i < j < |rows| && IsPending(rows[i], s.now) && IsPending(rows[j], s.now)
      ensures rows[i].actorId != rows[j].actorId
    {
      if j >= n {
        assert rows[j].actorId == eligible[j - n] && eligible[j - n] in eligible;
        if i >= n {
          assert rows[i].actorId == eligible[i - n];
        }
      }
    }
    forall id | id in s.actors
      ensures LinkEvidence(id, s.actors[id], rows)
    {
      assert LinkEvidence(id, s.actors[id], s.requests);
    }
  }

  /** An answer keeps the invariant because the row it answers was the actor's one pending row. */
  lemma {:induction false} RespondKeepsInv(s: State, token: nat, accept: bool, identified: bool)
    requires Inv(s)
    ensures Inv(RespondOnce(s, token, accept, identified))
  {
    var s' := RespondOnce(s, token, accept, identified);
    var found := Answerable(s, token, accept, identified);
    if found.Some? {
      var row := found.value;
      var id := s.requests[row].actorId;
      forall i | 0 <= i < |s.requests| && IsPending(s'.requests[i], s.now)
        ensures i != row && s.requests[i].actorId != id && AsksCurrentActor(s'.requests[i], s'.actors)
      {
        assert IsPending(s.requests[i], s.now) && IsPending(s.requests[row], s.now);
        assert i < row ==> s.requests[i].actorId != s.requests[row].actorId;
        assert row < i ==> s.requests[row].actorId != s.requests[i].actorId;
        assert AsksCurrentActor(s.requests[i], s.actors);
      }
      forall other | other in s'.actors
        ensures LinkEvidence(other, s'.actors[other], s'.requests)
      {
        assert other != id ==> LinkEvidence(other, s.actors[other], s.requests);
      }
    }
  }

  /**
   * Only an accepted answer creates a link grant: a step that leaves an actor with one it did not
   * have took the answer to that actor's own request, and recorded that request and the instant.
   */
  lemma {:induction false} LinkGrantComesFromAnswer(s: State, step: Step, id: ActorId)
    requires id in Apply(s, step).actors && HoldsLinkGrant(Apply(s, step).actors[id])
    requires !(id in s.actors && HoldsLinkGrant(s.actors[id]))
    ensures step.Respond? && step.accept
    ensures var row := Answerable(s, step.token, step.accept, step.identified);
            && row.Some? && s.requests[row.value].actorId == id
            && Apply(s, step).requests[row.value].status == ACCEPTED
            && Apply(s, step).actors[id].consentReference == Some(RequestId(row.value))
            && Apply(s, step).actors[id].consentObtainedAt == Some(s.now)
  {
    match step
    case Update(other, p) =>
      if other in s.actors && UpdateActor(s.actors[other], p).Ok? {
        UpdateNeverAssertsLink(s.actors[other], p);
      }
    case SetConsent(ids, b) =>
      if WellFormedBatch(b) && BatchGate(b).None? && id in s.actors && b.unlock {
        UnlockLeavesEvidence(s.actors[id], b);
      }
    case _ =>
  }

  lemma {:induction false} ClaimKeepsInv(s: State, row: nat, token: nat)
    requires Inv(s)
    ensures Inv(ClaimOne(s, row, token))
  {
    RequestWritesKeepInv(s, ClaimOne(s, row, token));
  }

  lemma {:induction false} ConcludeKeepsInv(s: State, c: nat)
    requires Inv(s)
    ensures Inv(ConcludeClaim(s, c))
  {
    RequestWritesKeepInv(s, ConcludeClaim(s, c));
  }

  lemma {:induction false} SweepKeepsInv(s: State)
    requires Inv(s)
    ensures Inv(Apply(s, SweepStale))
  {
    RequestWritesKeepInv(s, Apply(s, SweepStale));
  }

  lemma {:induction false} RetryKeepsInv(s: State, onlyBatch: Option<nat>)
    requires Inv(s)
    ensures Inv(Apply(s, RetryFailed(onlyBatch)))
  {
    RequestWritesKeepInv(s, Apply(s, RetryFailed(onlyBatch)));
  }

  lemma {:induction false} TickKeepsInv(s: State, elapsed: nat)
    requires Inv(s)
    ensures Inv(Apply(s, Tick(elapsed)))
  {
    RequestWritesKeepInv(s, Apply(s, Tick(elapsed)));
  }

  /** Every step of every participant keeps the invariant. */
  lemma {:induction false} StepKeepsInv(s: State, step: Step)
    requires Inv(s)
    ensures Inv(Apply(s, step))
  {
    match step
    case Tick(elapsed) => TickKeepsInv(s, elapsed);
    case Create(id, p) => CreateKeepsInv(s, id, p);
    case Update(id, p) => UpdateKeepsInv(s, id, p);
    case SetConsent(ids, b) => SetConsentKeepsInv(s, ids, b);
    case Remove(ids) => RemoveKeepsInv(s, ids);
    case Enqueue(ids, scope, batchId, actingSub) => EnqueueKeepsInv(s, ids, scope, batchId, actingSub);
    case ClaimRow(row, token) => ClaimKeepsInv(s, row, token);
    case Recheck(c) =>
    case HandOver(c, failure) =>
    case Conclude(c) => ConcludeKeepsInv(s, c);
    case SweepStale => SweepKeepsInv(s);
    case RetryFailed(onlyBatch) => RetryKeepsInv(s, onlyBatch);
    case Respond(token, accept, identified) => RespondKeepsInv(s, token, accept, identified);
  }

  lemma {:induction false} RunKeepsInv(s: State, steps: seq<Step>)
    requires Inv(s)
    ensures Inv(Run(s, steps))
  {
    if steps != [] {
      RunKeepsInv(s, steps[..|steps| - 1]);
      StepKeepsInv(Run(s, steps[..|steps| - 1]), steps[|steps| - 1]);
    }
  }

  lemma {:induction false} ReachableInv(s: State)
    requires Reachable(s)
    ensures Inv(s)
  {
    var start, steps :| Initial(start) && s == Run(start, steps);
    RunKeepsInv(start, steps);
  }

  // ---- the main results -------------------------------------------------------------

  /** In every reachable state each actor has at most one pending request. */
  lemma {:induction false} AtMostOnePendingRequest(s: State, i: nat, j: nat)
    requires Reachable(s)
    requires i < |s.requests| && j < |s.requests|
    requires IsPending(s.requests[i], s.now) && IsPending(s.requests[j], s.now)
    requires s.requests[i].actorId == s.requests[j].actorId
    ensures i == j
  {
    ReachableInv(s);
  }

  /** A granted or deleted actor has no pending request, and a pending request holds the actor's current address. */
  lemma {:induction false} GrantedActorHasNoPendingRequest(s: State, i: nat)
    requires Reachable(s) && i < |s.requests| && IsPending(s.requests[i], s.now)
    ensures AsksCurrentActor(s.requests[i], s.actors)
  {
    ReachableInv(s);
  }

  /** Every link grant names an accepted request of that actor, answered at the recorded date. */
  lemma {:induction false} LinkGrantIsBackedByAcceptedRequest(s: State, id: ActorId)
    requires Reachable(s) && id in s.actors && HoldsLinkGrant(s.actors[id])
    ensures exists i: nat ::
              && i < |s.requests|
              && s.actors[id].consentReference == Some(RequestId(i))
              && s.requests[i].status == ACCEPTED
              && s.requests[i].actorId == id
              && s.requests[i].respondedAt.Some?
              && s.actors[id].consentObtainedAt == s.requests[i].respondedAt
  {
    ReachableInv(s);
    assert LinkEvidence(id, s.actors[id], s.requests);
    var i := s.actors[id].consentReference.value.index;
    assert s.actors[id].consentReference == Some(RequestId(i));
  }

  /**
   * An answer is taken exactly when its token names a row that is SENT and less than
   * thirty days old (and an acceptance is identified); it then never finds the actor granted.
   */
  lemma {:induction false} AnswerIsTakenExactlyWhen(s: State, token: nat, accept: bool, identified: bool)
    requires Reachable(s)
    ensures var row := FindByToken(s.requests, HashOf(token));
            Answerable(s, token, accept, identified).Some?
            <==> && (accept ==> identified)
                 && row.Some?
                 && s.requests[row.value].status == SENT
                 && s.requests[row.value].sentAt.Some?
                 && s.now < s.requests[row.value].sentAt.value + CONSENT_LINK_VALIDITY_MS
    ensures var row := Answerable(s, token, accept, identified);
            row.Some? ==>
              && s.requests[row.value].actorId in s.actors
              && s.actors[s.requests[row.value].actorId].consentStatus != GRANTED
  {
    ReachableInv(s);
    var row := FindByToken(s.requests, HashOf(token));
    if row.Some? {
      assert WellDated(s.requests[row.value]);
      if IsPending(s.requests[row.value], s.now) {
        assert AsksCurrentActor(s.requests[row.value], s.actors);
      }
    }
  }

  // ---- the evidence ratchet -----------------------------------------------------------

  function UnevidencedActors(s: State): set<ActorId> {
    set id | id in s.actors && Unevidenced(s.actors[id])
  }

  /** No step makes an actor GRANTED without a recorded method and date. */
  lemma {:induction false} StepAddsNoUnevidenced(s: State, step: Step)
    requires Inv(s)
    ensures UnevidencedActors(Apply(s, step)) <= UnevidencedActors(s)
  {
    var s' := Apply(s, step);
    forall id | id in UnevidencedActors(s')
      ensures id in UnevidencedActors(s)
    {
      match step
      case Update(other, p) =>
        if id == other && UpdateActor(s.actors[id], p).Ok? {
          UpdateKeepsEvidence(s.actors[id], p);
        }
      case SetConsent(ids, b) =>
        assert LinkEvidence(id, s.actors[id], s.requests);
        if b.unlock && WellFormedBatch(b) && BatchGate(b).None? {
          UnlockLeavesEvidence(s.actors[id], b);
        }
      case Enqueue(_, _, _, _) => assert s'.actors == s.actors;
      case _ =>
    }
  }

  /** Over any run, the unevidenced actors are among the legacy ones the run began with. */
  lemma {:induction false} EvidenceRatchet(start: State, steps: seq<Step>)
    requires Initial(start)
    ensures UnevidencedActors(Run(start, steps)) <= UnevidencedActors(start)
  {
    if steps != [] {
      var shorter := steps[..|steps| - 1];
      EvidenceRatchet(start, shorter);
      RunKeepsInv(start, shorter);
      StepAddsNoUnevidenced(Run(start, shorter), steps[|steps| - 1]);
    }
  }

  /** In a reachable state an unlock leaves every found row granted and evidenced, link grants included. */
  lemma {:induction false} UnlockInProtocol(s: State, ids: seq<ActorId>, b: Batch, id: ActorId)
    requires Reachable(s)
    requires WellFormedBatch(b) && b.unlock && BatchGate(b).None?
    requires id in ids && id in s.actors
    ensures var s' := Apply(s, SetConsent(ids, b));
            && id in s'.actors
            && s'.actors[id].consentStatus == GRANTED && Evidenced(s'.actors[id])
            && (HoldsLinkGrant(s.actors[id]) ==> s'.actors[id] == s.actors[id])
  {
    ReachableInv(s);
    assert LinkEvidence(id, s.actors[id], s.requests);
    UnlockLeavesEvidence(s.actors[id], b);
    assert id in Found(ids, s.actors);
  }
}
