/** What holds of a whole run: rows that are final stay final, and the audit trail tells the run exactly. */
module ConsentHistory {
  import opened ConsentTypes
  import opened ConsentPolicy
  import opened ConsentRequests
  import opened BulkConsent
  import opened ConsentProtocol
  import opened ConsentInvariants

  // ---- final rows ------------------------------------------------------------------

  /** What no step ever changes in a row: whom it asks, where, for whom, and since when. */
  predicate SameRequest(r: Request, r': Request) {
    && r'.actorId == r.actorId && r'.recipientEmail == r.recipientEmail && r'.batchId == r.batchId
    && r'.requestedBySub == r.requestedBySub && r'.createdAt == r.createdAt
  }

  predicate KeepsFinalRow(s: State, s': State, i: nat)
    requires i < |s.requests|
  {
    && i < |s'.requests| && SameRequest(s.requests[i], s'.requests[i])
    && (IsFinal(s.requests[i], s.now) ==> s'.requests[i] == s.requests[i] && IsFinal(s.requests[i], s'.now))
  }

  lemma {:induction false} ConcludeKeepsFinalRow(s: State, c: nat, i: nat)
    requires i < |s.requests|
    ensures KeepsFinalRow(s, ConcludeClaim(s, c), i)
  {
  }

  lemma {:induction false} RespondKeepsFinalRow(s: State, token: nat, accept: bool, identified: bool, i: nat)
    requires i < |s.requests|
    ensures KeepsFinalRow(s, RespondOnce(s, token, accept, identified), i)
  {
  }

  lemma {:induction false} ActorStepKeepsFinalRow(s: State, step: Step, i: nat)
    requires i < |s.requests| && (step.Create? || step.Update? || step.SetConsent? || step.Remove?)
    ensures KeepsFinalRow(s, Apply(s, step), i)
  {
  }

  lemma {:induction false} EnqueueKeepsFinalRow(s: State, ids: seq<ActorId>, scope: Scope, batchId: nat,
                                                actingSub: string, i: nat)
    requires i < |s.requests|
    ensures KeepsFinalRow(s, EnqueueRequests(s, ids, scope, batchId, actingSub), i)
  {
    EnqueueOnRow(s, ids, scope, batchId, actingSub, i);
  }

  lemma {:induction false} ClaimantKeepsFinalRow(s: State, step: Step, i: nat)
    requires i < |s.requests| && (step.ClaimRow? || step.Recheck? || step.HandOver?)
    ensures KeepsFinalRow(s, Apply(s, step), i)
  {
  }

  lemma {:induction false} StepKeepsFinalRow(s: State, step: Step, i: nat)
    requires i < |s.requests|
    ensures KeepsFinalRow(s, Apply(s, step), i)
  {
    match step
    case Enqueue(ids, scope, batchId, actingSub) => EnqueueKeepsFinalRow(s, ids, scope, batchId, actingSub, i);
    case Conclude(c) => ConcludeKeepsFinalRow(s, c, i);
    case Respond(token, accept, identified) => RespondKeepsFinalRow(s, token, accept, identified, i);
    case Create(_, _) => ActorStepKeepsFinalRow(s, step, i);
    case Update(_, _) => ActorStepKeepsFinalRow(s, step, i);
    case SetConsent(_, _) => ActorStepKeepsFinalRow(s, step, i);
    case Remove(_) => ActorStepKeepsFinalRow(s, step, i);
    case ClaimRow(_, _) => ClaimantKeepsFinalRow(s, step, i);
    case Recheck(_) => ClaimantKeepsFinalRow(s, step, i);
    case HandOver(_, _) => ClaimantKeepsFinalRow(s, step, i);
    case Tick(_) =>
    case SweepStale =>
    case RetryFailed(_) =>
  }

  /** Answered, superseded and expired rows never change again, whatever anybody does. */
  lemma {:induction false} FinalRowNeverChanges(s: State, steps: seq<Step>, i: nat)
    requires i < |s.requests|
    ensures i < |Run(s, steps).requests| && SameRequest(s.requests[i], Run(s, steps).requests[i])
    ensures IsFinal(s.requests[i], s.now) ==>
              Run(s, steps).requests[i] == s.requests[i] && IsFinal(s.requests[i], Run(s, steps).now)
  {
    if steps != [] {
      var shorter := steps[..|steps| - 1];
      FinalRowNeverChanges(s, shorter, i);
      StepKeepsFinalRow(Run(s, shorter), steps[|steps| - 1], i);
    }
  }

  // ---- audit counts ----------------------------------------------------------------

  predicate IsRequested(e: AuditEntry, row: nat) {
    e.RequestedEntry? && e.request == row
  }

  predicate IsResponded(e: AuditEntry, row: nat) {
    e.RespondedEntry? && e.request == row
  }

  function CountRequested(trail: seq<AuditEntry>, row: nat): nat {
    if trail == [] then 0
    else CountRequested(trail[..|trail| - 1], row) + if IsRequested(trail[|trail| - 1], row) then 1 else 0
  }

  function CountResponded(trail: seq<AuditEntry>, row: nat): nat {
    if trail == [] then 0
    else CountResponded(trail[..|trail| - 1], row) + if IsResponded(trail[|trail| - 1], row) then 1 else 0
  }

  /** Appending entries about actors only leaves both counts alone. */
  lemma {:induction false} ActorEntriesDoNotCount(trail: seq<AuditEntry>, more: seq<AuditEntry>, row: nat)
    requires forall k :: 0 <= k < |more| ==> !IsRequested(more[k], row) && !IsResponded(more[k], row)
    ensures CountRequested(trail + more, row) == CountRequested(trail, row)
    ensures CountResponded(trail + more, row) == CountResponded(trail, row)
  {
    if more == [] {
      assert trail + more == trail;
    } else {
      var n := |more| - 1;
      ActorEntriesDoNotCount(trail, more[..n], row);
      assert (trail + more)[..|trail + more| - 1] == trail + more[..n];
    }
  }

  lemma {:induction false} OneMoreEntry(trail: seq<AuditEntry>, e: AuditEntry, row: nat)
    ensures CountRequested(trail + [e], row) == CountRequested(trail, row) + if IsRequested(e, row) then 1 else 0
    ensures CountResponded(trail + [e], row) == CountResponded(trail, row) + if IsResponded(e, row) then 1 else 0
  {
    assert (trail + [e])[..|trail|] == trail;
  }

  lemma {:induction false} BulkEntriesAreActorDiffs(actors: map<ActorId, Actor>, found: seq<ActorId>, b: Batch)
    requires forall id :: id in found ==> id in actors
    ensures forall k :: 0 <= k < |BulkEntries(actors, found, b)| ==> BulkEntries(actors, found, b)[k].ActorDiff?
  {
    if found != [] {
      BulkEntriesAreActorDiffs(actors, found[..|found| - 1], b);
    }
  }

  /** One CONSENT_REQUESTED entry per row that was sent, one CONSENT_RESPONDED per row that was answered. */
  predicate CountsMatch(s: State, row: nat) {
    && CountRequested(s.audit, row) == (if row < |s.requests| && s.requests[row].sentAt.Some? then 1 else 0)
    && CountResponded(s.audit, row)
       == (if row < |s.requests| && s.requests[row].status in {ACCEPTED, DECLINED} then 1 else 0)
  }

  /** This row is neither sent nor answered; if it is new, it is queued. */
  predicate QuietOnRow(s: State, s': State, row: nat) {
    && |s.requests| <= |s'.requests|
    && (row < |s.requests| ==>
          && (s'.requests[row].sentAt.Some? <==> s.requests[row].sentAt.Some?)
          && (s'.requests[row].status in {ACCEPTED, DECLINED} <==> s.requests[row].status in {ACCEPTED, DECLINED}))
    && (|s.requests| <= row < |s'.requests| ==>
          s'.requests[row].sentAt.None? && s'.requests[row].status == QUEUED)
  }

  /** A step that writes only about actors in the trail, and answers or sends no request. */
  lemma {:induction false} QuietStepKeepsCounts(s: State, s': State, more: seq<AuditEntry>, row: nat)
    requires CountsMatch(s, row)
    requires s'.audit == s.audit + more
    requires forall k :: 0 <= k < |more| ==> !more[k].RequestedEntry? && !more[k].RespondedEntry?
    requires QuietOnRow(s, s', row)
    ensures CountsMatch(s', row)
  {
    ActorEntriesDoNotCount(s.audit, more, row);
  }

  lemma {:induction false} CreateKeepsCounts(s: State, id: ActorId, p: Payload, row: nat)
    requires CountsMatch(s, row)
    ensures CountsMatch(CreateActor(s, id, p), row)
  {
    if CreateActor(s, id, p) != s {
      QuietStepKeepsCounts(s, CreateActor(s, id, p), [ActorSnapshot(id, NewActor(p).value)], row);
    }
  }

  lemma {:induction false} UpdateKeepsCounts(s: State, id: ActorId, p: Payload, row: nat)
    requires CountsMatch(s, row)
    ensures CountsMatch(UpdateOne(s, id, p), row)
  {
    if id in s.actors && UpdateActor(s.actors[id], p).Ok? {
      var diff := BuildDiff(s.actors[id], UpdateActor(s.actors[id], p).value);
      var more := if diff == NoChange then [] else [ActorDiff(id, diff)];
      assert s.audit + [] == s.audit;
      QuietStepKeepsCounts(s, UpdateOne(s, id, p), more, row);
    }
  }

  lemma {:induction false} BulkStepKeepsCounts(s: State, ids: seq<ActorId>, b: Batch, row: nat)
    requires CountsMatch(s, row)
    ensures CountsMatch(BulkSetConsent(s, ids, b), row)
  {
    if WellFormedBatch(b) && BatchGate(b).None? {
      var found := Found(ids, s.actors);
      BulkEntriesAreActorDiffs(s.actors, found, b);
      QuietStepKeepsCounts(s, BulkSetConsent(s, ids, b), BulkEntries(s.actors, found, b), row);
    }
  }

  lemma {:induction false} ConcludeKeepsCounts(s: State, c: nat, row: nat)
    requires Inv(s) && CountsMatch(s, row)
    ensures CountsMatch(ConcludeClaim(s, c), row)
  {
    if InPhase(s, c) {
      var r := s.requests[s.claims[c].row];
      assert WellDated(r);
      OneMoreEntry(s.audit, RequestedAudit(s.claims[c].row, r), row);
    }
  }

  lemma {:induction false} RespondKeepsCounts(s: State, token: nat, accept: bool, identified: bool, row: nat)
    requires CountsMatch(s, row)
    ensures CountsMatch(RespondOnce(s, token, accept, identified), row)
  {
    var s' := RespondOnce(s, token, accept, identified);
    if Answerable(s, token, accept, identified).Some? {
      OneMoreEntry(s.audit, s'.audit[|s.audit|], row);
    }
  }

  lemma {:induction false} EnqueueKeepsCounts(s: State, ids: seq<ActorId>, scope: Scope, batchId: nat,
                                              actingSub: string, row: nat)
    requires CountsMatch(s, row)
    ensures CountsMatch(EnqueueRequests(s, ids, scope, batchId, actingSub), row)
  {
    EnqueueIsQuiet(s, ids, scope, batchId, actingSub, row);
    assert s.audit == s.audit + [];
    QuietStepKeepsCounts(s, EnqueueRequests(s, ids, scope, batchId, actingSub), [], row);
  }

  lemma {:induction false} EnqueueIsQuiet(s: State, ids: seq<ActorId>, scope: Scope, batchId: nat,
                                          actingSub: string, row: nat)
    ensures QuietOnRow(s, EnqueueRequests(s, ids, scope, batchId, actingSub), row)
  {
    if row < |EnqueueRequests(s, ids, scope, batchId, actingSub).requests| {
      EnqueueOnRow(s, ids, scope, batchId, actingSub, row);
    }
  }

  lemma {:induction false} StepKeepsCounts(s: State, step: Step, row: nat)
    requires Inv(s) && CountsMatch(s, row)
    ensures CountsMatch(Apply(s, step), row)
  {
    match step
    case Create(id, p) => CreateKeepsCounts(s, id, p, row);
    case Update(id, p) => UpdateKeepsCounts(s, id, p, row);
    case SetConsent(ids, b) => BulkStepKeepsCounts(s, ids, b, row);
    case Remove(ids) => RemoveKeepsCounts(s, ids, row);
    case Enqueue(ids, scope, batchId, actingSub) => EnqueueKeepsCounts(s, ids, scope, batchId, actingSub, row);
    case Conclude(c) => ConcludeKeepsCounts(s, c, row);
    case Respond(token, accept, identified) => RespondKeepsCounts(s, token, accept, identified, row);
    case ClaimRow(_, _) => ClaimantKeepsCounts(s, step, row);
    case Recheck(_) => ClaimantKeepsCounts(s, step, row);
    case HandOver(_, _) => ClaimantKeepsCounts(s, step, row);
    case Tick(_) =>
    case SweepStale =>
    case RetryFailed(_) =>
  }

  lemma {:induction false} RemoveKeepsCounts(s: State, ids: seq<ActorId>, row: nat)
    requires CountsMatch(s, row)
    ensures CountsMatch(RemoveActors(s, ids), row)
  {
    QuietStepKeepsCounts(s, RemoveActors(s, ids), DeleteEntries(s.actors, Found(ids, s.actors)), row);
  }

  lemma {:induction false} ClaimantKeepsCounts(s: State, step: Step, row: nat)
    requires CountsMatch(s, row) && (step.ClaimRow? || step.Recheck? || step.HandOver?)
    ensures CountsMatch(Apply(s, step), row)
  {
  }

  lemma {:induction false} RunKeepsCounts(start: State, steps: seq<Step>, row: nat)
    requires Initial(start)
    ensures Inv(Run(start, steps)) && CountsMatch(Run(start, steps), row)
  {
    RunKeepsInv(start, steps);
    if steps != [] {
      var shorter := steps[..|steps| - 1];
      RunKeepsCounts(start, shorter, row);
      StepKeepsCounts(Run(start, shorter), steps[|steps| - 1], row);
    }
  }

  ghost predicate EverSent(start: State, steps: seq<Step>, row: nat) {
    exists k :: 0 <= k <= |steps| && SentAfter(start, steps, row, k)
  }

  predicate SentAfter(start: State, steps: seq<Step>, row: nat, k: int)
    requires 0 <= k <= |steps|
  {
    var s := Run(start, steps[..k]);
    row < |s.requests| && s.requests[row].status == SENT
  }

  lemma {:induction false} StepKeepsSentAt(s: State, step: Step, row: nat)
    requires Inv(s) && row < |Apply(s, step).requests|
    ensures KeepsSentAt(s, Apply(s, step), row)
  {
    match step
    case Enqueue(ids, scope, batchId, actingSub) => EnqueueOnRow(s, ids, scope, batchId, actingSub, row);
    case Conclude(c) => ConcludeKeepsSentAt(s, c, row);
    case Respond(token, accept, identified) => RespondKeepsSentAt(s, token, accept, identified, row);
    case _ =>
  }

  /** A sent date stays, and a new one comes with SENT. */
  predicate KeepsSentAt(s: State, s': State, row: nat)
    requires row < |s'.requests|
  {
    && (row < |s.requests| && s.requests[row].sentAt.Some? ==> s'.requests[row].sentAt.Some?)
    && (s'.requests[row].sentAt.Some? && !(row < |s.requests| && s.requests[row].sentAt.Some?) ==>
          s'.requests[row].status == SENT)
  }

  lemma {:induction false} ConcludeKeepsSentAt(s: State, c: nat, row: nat)
    requires row < |ConcludeClaim(s, c).requests|
    ensures KeepsSentAt(s, ConcludeClaim(s, c), row)
  {
  }

  lemma {:induction false} RespondKeepsSentAt(s: State, token: nat, accept: bool, identified: bool, row: nat)
    requires row < |RespondOnce(s, token, accept, identified).requests|
    ensures KeepsSentAt(s, RespondOnce(s, token, accept, identified), row)
  {
  }

  lemma {:induction false} EverSentOneStepOn(start: State, steps: seq<Step>, row: nat)
    requires steps != []
    ensures EverSent(start, steps, row)
            <==> EverSent(start, steps[..|steps| - 1], row) || SentAfter(start, steps, row, |steps|)
  {
    var n := |steps| - 1;
    if EverSent(start, steps[..n], row) {
      var k :| 0 <= k <= n && SentAfter(start, steps[..n], row, k);
      assert steps[..n][..k] == steps[..k];
      assert SentAfter(start, steps, row, k);
    }
    if EverSent(start, steps, row) {
      var k :| 0 <= k <= |steps| && SentAfter(start, steps, row, k);
      if k <= n {
        assert steps[..n][..k] == steps[..k];
        assert SentAfter(start, steps[..n], row, k);
      }
    }
  }

  lemma {:induction false} SentAtMeansEverSent(start: State, steps: seq<Step>, row: nat)
    requires Initial(start)
    ensures EverSent(start, steps, row)
            <==> row < |Run(start, steps).requests| && Run(start, steps).requests[row].sentAt.Some?
  {
    var s' := Run(start, steps);
    RunKeepsInv(start, steps);
    assert steps[..|steps|] == steps;
    assert row < |s'.requests| ==> WellDated(s'.requests[row]);
    if steps != [] {
      var s := Run(start, steps[..|steps| - 1]);
      RunKeepsInv(start, steps[..|steps| - 1]);
      SentAtMeansEverSent(start, steps[..|steps| - 1], row);
      EverSentOneStepOn(start, steps, row);
      if row < |s.requests| {
        StepKeepsFinalRow(s, steps[|steps| - 1], row);
      }
      if row < |s'.requests| {
        StepKeepsSentAt(s, steps[|steps| - 1], row);
      }
    }
  }

  /**
   * The trail of any run holds exactly one CONSENT_REQUESTED entry for a row that was ever
   * SENT and exactly one CONSENT_RESPONDED entry for a row that is answered, and none otherwise.
   */
  lemma {:induction false} AuditEntriesPerRow(start: State, steps: seq<Step>, row: nat)
    requires Initial(start)
    ensures var s := Run(start, steps);
            && CountRequested(s.audit, row) == (if EverSent(start, steps, row) then 1 else 0)
            && CountResponded(s.audit, row)
               == (if row < |s.requests| && s.requests[row].status in {ACCEPTED, DECLINED} then 1 else 0)
  {
    RunKeepsCounts(start, steps, row);
    SentAtMeansEverSent(start, steps, row);
  }

  // ---- replaying the trail ------------------------------------------------------------

  /** One audit entry carried out on the registry as an auditor knows it so far. */
  function ReplayEntry(actors: map<ActorId, Actor>, e: AuditEntry): map<ActorId, Actor> {
    match e
    case ActorSnapshot(id, actor) => actors[id := actor]
    case ActorDeleted(id, _) => actors - {id}
    case ActorDiff(id, diff) => if id in actors then actors[id := ApplyDiff(actors[id], diff)] else actors
    case RespondedEntry(_, id, diff) => if id in actors then actors[id := ApplyDiff(actors[id], diff)] else actors
    case RequestedEntry(_, _, _, _) => actors
  }

  function ReplayTrail(actors: map<ActorId, Actor>, trail: seq<AuditEntry>): map<ActorId, Actor> {
    if trail == [] then actors else ReplayEntry(ReplayTrail(actors, trail[..|trail| - 1]), trail[|trail| - 1])
  }

  lemma {:induction false} ReplayInTwoParts(actors: map<ActorId, Actor>, trail: seq<AuditEntry>, more: seq<AuditEntry>)
    ensures ReplayTrail(actors, trail + more) == ReplayTrail(ReplayTrail(actors, trail), more)
  {
    if more == [] {
      assert trail + more == trail;
    } else {
      var n := |more| - 1;
      ReplayInTwoParts(actors, trail, more[..n]);
      assert (trail + more)[..|trail + more| - 1] == trail + more[..n];
    }
  }

  lemma {:induction false} ReplayBulk(actors: map<ActorId, Actor>, found: seq<ActorId>, b: Batch)
    requires forall id :: id in found ==> id in actors
    requires Distinct(found)
    ensures ReplayTrail(actors, BulkEntries(actors, found, b)) == BulkActors(actors, found, b)
  {
    if found != [] {
      var n := |found| - 1;
      var id := found[n];
      var earlier := BulkEntries(actors, found[..n], b);
      ReplayBulk(actors, found[..n], b);
      BulkDiffReplays(actors[id], b);
      assert forall x :: x in found <==> x in found[..n] || x == id;
      assert id !in found[..n];
      if BulkDiff(actors[id], b) != NoChange {
        ReplayInTwoParts(actors, earlier, [ActorDiff(id, BulkDiff(actors[id], b))]);
        assert [ActorDiff(id, BulkDiff(actors[id], b))][..0] == [];
      }
      assert BulkActors(actors, found, b) == BulkActors(actors, found[..n], b)[id := BulkRow(actors[id], b)];
    }
  }

  lemma {:induction false} ReplayDeletes(actors: map<ActorId, Actor>, known: map<ActorId, Actor>, found: seq<ActorId>)
    requires forall id :: id in found ==> id in known
    ensures ReplayTrail(actors, DeleteEntries(known, found)) == actors - ToSet(found)
  {
    if found != [] {
      var n := |found| - 1;
      ReplayDeletes(actors, known, found[..n]);
      assert DeleteEntries(known, found)[..n] == DeleteEntries(known, found[..n]);
      assert ToSet(found) == ToSet(found[..n]) + {found[n]};
    }
  }

  lemma {:induction false} ReplayOne(actors: map<ActorId, Actor>, e: AuditEntry)
    ensures ReplayTrail(actors, [e]) == ReplayEntry(actors, e)
  {
    assert [e][..0] == [];
  }

  /** The entries one step appends say exactly what it did to the actor table. */
  lemma {:induction false} StepIsReplayed(s: State, step: Step)
    ensures Replayed(s, Apply(s, step))
  {
    match step
    case Create(id, p) => CreateIsReplayed(s, id, p);
    case Update(id, p) => UpdateIsReplayed(s, id, p);
    case SetConsent(ids, b) => BulkIsReplayed(s, ids, b);
    case Remove(ids) =>
      var found := Found(ids, s.actors);
      ReplayDeletes(s.actors, s.actors, found);
      OneStepReplayed(s, RemoveActors(s, ids), DeleteEntries(s.actors, found));
    case Conclude(c) => ConcludeIsReplayed(s, c);
    case Respond(token, accept, identified) => RespondIsReplayed(s, token, accept, identified);
    case _ => OneStepReplayed(s, Apply(s, step), []);
  }

  /** The trail only grows, and what it gained replays the change of the actor table. */
  ghost predicate Replayed(s: State, s': State) {
    && s.audit <= s'.audit
    && ReplayTrail(s.actors, s'.audit[|s.audit|..]) == s'.actors
  }

  lemma {:induction false} OneStepReplayed(s: State, s': State, more: seq<AuditEntry>)
    requires s'.audit == s.audit + more && ReplayTrail(s.actors, more) == s'.actors
    ensures Replayed(s, s')
  {
    assert s'.audit[|s.audit|..] == more;
  }

  lemma {:induction false} CreateIsReplayed(s: State, id: ActorId, p: Payload)
    ensures Replayed(s, CreateActor(s, id, p))
  {
    var s' := CreateActor(s, id, p);
    if s' != s {
      var entry := ActorSnapshot(id, s'.actors[id]);
      ReplayOne(s.actors, entry);
      OneStepReplayed(s, s', [entry]);
    } else {
      OneStepReplayed(s, s', []);
    }
  }

  lemma {:induction false} UpdateIsReplayed(s: State, id: ActorId, p: Payload)
    ensures Replayed(s, UpdateOne(s, id, p))
  {
    var s' := UpdateOne(s, id, p);
    if id in s.actors && UpdateActor(s.actors[id], p).Ok? {
      DiffReplays(s.actors[id], UpdateActor(s.actors[id], p).value);
      if s'.audit != s.audit {
        var entry := s'.audit[|s.audit|];
        ReplayOne(s.actors, entry);
        OneStepReplayed(s, s', [entry]);
      } else {
        OneStepReplayed(s, s', []);
      }
    } else {
      OneStepReplayed(s, s', []);
    }
  }

  lemma {:induction false} BulkIsReplayed(s: State, ids: seq<ActorId>, b: Batch)
    ensures Replayed(s, BulkSetConsent(s, ids, b))
  {
    if WellFormedBatch(b) && BatchGate(b).None? {
      var found := Found(ids, s.actors);
      ReplayBulk(s.actors, found, b);
      OneStepReplayed(s, BulkSetConsent(s, ids, b), BulkEntries(s.actors, found, b));
    } else {
      OneStepReplayed(s, s, []);
    }
  }

  lemma {:induction false} ConcludeIsReplayed(s: State, c: nat)
    ensures Replayed(s, ConcludeClaim(s, c))
  {
    var s' := ConcludeClaim(s, c);
    if s'.audit != s.audit {
      var entry := RequestedAudit(s.claims[c].row, s.requests[s.claims[c].row]);
      ReplayOne(s.actors, entry);
      OneStepReplayed(s, s', [entry]);
    } else {
      OneStepReplayed(s, s', []);
    }
  }

  lemma {:induction false} RespondIsReplayed(s: State, token: nat, accept: bool, identified: bool)
    ensures Replayed(s, RespondOnce(s, token, accept, identified))
  {
    var s' := RespondOnce(s, token, accept, identified);
    var found := Answerable(s, token, accept, identified);
    if found.Some? {
      var row := found.value;
      var before := s.actors[s.requests[row].actorId];
      var after := AnsweredActor(before, row, accept, s.now);
      DiffReplays(before, after);
      var entry := RespondedEntry(row, s.requests[row].actorId, BuildDiff(before, after));
      ReplayOne(s.actors, entry);
      OneStepReplayed(s, s', [entry]);
    } else {
      OneStepReplayed(s, s', []);
    }
  }

  /** In any run, replaying the whole audit trail on the initial registry gives the registry as it is. */
  lemma {:induction false} TrailRebuildsRegistry(start: State, steps: seq<Step>)
    requires start.audit == []
    ensures ReplayTrail(start.actors, Run(start, steps).audit) == Run(start, steps).actors
  {
    if steps != [] {
      var shorter := steps[..|steps| - 1];
      var s := Run(start, shorter);
      var s' := Run(start, steps);
      TrailRebuildsRegistry(start, shorter);
      StepIsReplayed(s, steps[|steps| - 1]);
      ReplayInTwoParts(start.actors, s.audit, s'.audit[|s.audit|..]);
      assert s.audit + s'.audit[|s.audit|..] == s'.audit;
    }
  }
}
