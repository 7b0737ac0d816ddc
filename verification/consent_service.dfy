/**
 * The services as they run: guarded in-place updates and loops over one database, each proved
 * against the transition functions of the protocol. A dispatcher shares the database with
 * other participants, whose steps run between any two of its own.
 */
module ConsentService {
  import opened Wrappers
  import opened ConsentTypes
  import opened ConsentPolicy
  import opened ConsentRequests
  import opened BulkConsent
  import opened ConsentProtocol
  import opened ConsentHistory
  import opened ConsentDispatch
  import opened ConsentEffects

  datatype SkipCounts = SkipCounts(noEmail: nat, granted: nat, pendingRequest: nat, declined: nat)

  const EmptySkipCounts := SkipCounts(0, 0, 0, 0)

  function CountSkip(skipped: SkipCounts, outcome: Eligibility): SkipCounts
    requires outcome != Eligible
  {
    match outcome
    case NoEmail => skipped.(noEmail := skipped.noEmail + 1)
    case Granted => skipped.(granted := skipped.granted + 1)
    case PendingRequest => skipped.(pendingRequest := skipped.pendingRequest + 1)
    case Declined => skipped.(declined := skipped.declined + 1)
  }

  /** How many of these actors have this outcome. */
  function CountOutcome(s: State, found: seq<ActorId>, scope: Scope, outcome: Eligibility): nat
    requires forall id :: id in found ==> id in s.actors
  {
    if found == [] then 0
    else
      CountOutcome(s, found[..|found| - 1], scope, outcome)
      + if OutcomeOf(s, found[|found| - 1], scope) == outcome then 1 else 0
  }

  function CountsOf(s: State, found: seq<ActorId>, scope: Scope): SkipCounts
    requires forall id :: id in found ==> id in s.actors
  {
    SkipCounts(CountOutcome(s, found, scope, NoEmail), CountOutcome(s, found, scope, Granted),
               CountOutcome(s, found, scope, PendingRequest), CountOutcome(s, found, scope, Declined))
  }

  /** No actor is lost between the two lists: every target is queued or counted under one reason. */
  lemma {:induction false} EveryTargetCounted(s: State, found: seq<ActorId>, scope: Scope)
    requires forall id :: id in found ==> id in s.actors
    ensures var c := CountsOf(s, found, scope);
            |EligibleOf(s, found, scope)| + c.noEmail + c.granted + c.pendingRequest + c.declined == |found|
  {
    if found != [] {
      EveryTargetCounted(s, found[..|found| - 1], scope);
    }
  }

  ghost function Having(s: State, found: seq<ActorId>, scope: Scope, outcome: Eligibility): set<ActorId>
    requires forall id :: id in found ==> id in s.actors
  {
    set id | id in found && OutcomeOf(s, id, scope) == outcome
  }

  lemma {:induction false} OneMoreHaving(s: State, found: seq<ActorId>, id: ActorId, scope: Scope, outcome: Eligibility)
    requires id in s.actors && id !in found && forall x :: x in found ==> x in s.actors
    ensures id !in Having(s, found, scope, outcome)
    ensures Having(s, found + [id], scope, outcome)
            == Having(s, found, scope, outcome) + if OutcomeOf(s, id, scope) == outcome then {id} else {}
  {
  }

  lemma {:induction false} OneMoreCounted(s: State, found: seq<ActorId>, id: ActorId, scope: Scope, outcome: Eligibility)
    requires id in s.actors && forall x :: x in found ==> x in s.actors
    ensures CountOutcome(s, found + [id], scope, outcome)
            == CountOutcome(s, found, scope, outcome) + if OutcomeOf(s, id, scope) == outcome then 1 else 0
  {
    assert (found + [id])[..|found|] == found;
  }

  lemma {:induction false} CountIsSize(s: State, found: seq<ActorId>, scope: Scope, outcome: Eligibility)
    requires Distinct(found) && forall id :: id in found ==> id in s.actors
    ensures CountOutcome(s, found, scope, outcome) == |Having(s, found, scope, outcome)|
  {
    if found != [] {
      var earlier, id := found[..|found| - 1], found[|found| - 1];
      assert found == earlier + [id];
      CountIsSize(s, earlier, scope, outcome);
      OneMoreHaving(s, earlier, id, scope, outcome);
      OneMoreCounted(s, earlier, id, scope, outcome);
    }
  }

  /** Each skip count is the number of targets skipped for that reason, read off the tables. */
  lemma {:induction false} SkipsAreCounted(s: State, found: seq<ActorId>, scope: Scope)
    requires Distinct(found) && forall id :: id in found ==> id in s.actors
    ensures var c := CountsOf(s, found, scope);
            && c.noEmail == |set id | id in found && !HasAddress(s.actors[id])|
            && c.granted == |set id | id in found && HasAddress(s.actors[id]) && s.actors[id].consentStatus == GRANTED|
            && c.pendingRequest == |set id | id in found && HasAddress(s.actors[id])
                                             && s.actors[id].consentStatus != GRANTED
                                             && scope == Bulk && HasPending(s, id)|
            && c.declined == |set id | id in found && HasAddress(s.actors[id]) && s.actors[id].consentStatus != GRANTED
                                       && scope == Bulk && !HasPending(s, id) && LastDeclined(s, id)|
  {
    forall id | id in found ensures OutcomeIsRight(s, id, scope) {
      OutcomeExactlyWhen(s, id, scope);
    }
    CountIsSize(s, found, scope, NoEmail);
    assert Having(s, found, scope, NoEmail) == set id | id in found && !HasAddress(s.actors[id]);
    CountIsSize(s, found, scope, Granted);
    assert Having(s, found, scope, Granted)
        == set id | id in found && HasAddress(s.actors[id]) && s.actors[id].consentStatus == GRANTED;
    CountIsSize(s, found, scope, PendingRequest);
    assert Having(s, found, scope, PendingRequest)
        == set id | id in found && HasAddress(s.actors[id]) && s.actors[id].consentStatus != GRANTED
                    && scope == Bulk && HasPending(s, id);
    CountIsSize(s, found, scope, Declined);
    assert Having(s, found, scope, Declined)
        == set id | id in found && HasAddress(s.actors[id]) && s.actors[id].consentStatus != GRANTED
                    && scope == Bulk && !HasPending(s, id) && LastDeclined(s, id);
  }

  datatype UpdateRefusal = NotFound | Refused(error: WriteError)

  datatype EnqueueError = ScopeNeedsOneId

  datatype EnqueueResult = EnqueueResult(queued: nat, skipped: SkipCounts)

  predicate InBatch(r: Request, batch: Option<nat>) {
    batch.Some? ==> r.batchId == batch.value
  }

  /** `findFirst` over the queued rows of a batch, oldest first. */
  function NextQueued(rows: seq<Request>, batch: Option<nat>): (next: Option<nat>)
    ensures next.Some? ==>
              && next.value < |rows| && rows[next.value].status == QUEUED && InBatch(rows[next.value], batch)
              && forall i :: 0 <= i < |rows| && rows[i].status == QUEUED && InBatch(rows[i], batch) ==>
                               rows[next.value].createdAt <= rows[i].createdAt
    ensures next.None? ==> forall i :: 0 <= i < |rows| ==> !(rows[i].status == QUEUED && InBatch(rows[i], batch))
  {
    if rows == [] then None
    else
      var n := |rows| - 1;
      var earlier := NextQueued(rows[..n], batch);
      if rows[n].status != QUEUED || !InBatch(rows[n], batch) then earlier
      else if earlier.Some? && rows[earlier.value].createdAt <= rows[n].createdAt then earlier
      else Some(n)
  }

  function CountQueued(rows: seq<Request>, batch: Option<nat>): nat {
    if rows == [] then 0
    else
      CountQueued(rows[..|rows| - 1], batch)
      + if rows[|rows| - 1].status == QUEUED && InBatch(rows[|rows| - 1], batch) then 1 else 0
  }

  /** The places before `n` of the queued rows of a batch. */
  ghost function Waiting(rows: seq<Request>, batch: Option<nat>, n: nat): set<int>
    requires n <= |rows|
  {
    set i | 0 <= i < n && rows[i].status == QUEUED && (batch.None? || rows[i].batchId == batch.value)
  }

  lemma {:induction false} OneMoreWaiting(rows: seq<Request>, batch: Option<nat>, n: nat)
    requires n < |rows|
    ensures Waiting(rows, batch, n + 1)
            == Waiting(rows, batch, n) + if rows[n].status == QUEUED && InBatch(rows[n], batch) then {n} else {}
    ensures n !in Waiting(rows, batch, n)
  {
  }

  /** What is left is the number of queued rows of the batch. */
  lemma {:induction false} QueuedIsSize(rows: seq<Request>, batch: Option<nat>, n: nat)
    requires n <= |rows|
    ensures CountQueued(rows[..n], batch) == |Waiting(rows, batch, n)|
  {
    if n > 0 {
      QueuedIsSize(rows, batch, n - 1);
      OneMoreWaiting(rows, batch, n - 1);
      assert rows[..n][..n - 1] == rows[..n - 1];
    }
  }

  /** The places before `n` of the rows a retry moves. */
  ghost function Moved(rows: seq<Request>, batch: Option<nat>, n: nat): set<int>
    requires n <= |rows|
  {
    set i | 0 <= i < n && RetryMoves(rows[i], batch)
  }

  lemma {:induction false} OneMoreMoved(rows: seq<Request>, batch: Option<nat>, n: nat)
    requires n < |rows|
    ensures Moved(rows, batch, n + 1) == Moved(rows, batch, n) + if RetryMoves(rows[n], batch) then {n} else {}
    ensures n !in Moved(rows, batch, n)
  {
  }

  lemma {:induction false} RetryMeaning(rows: seq<Request>, batch: Option<nat>)
    ensures var after := Retry(rows, batch);
            && (forall i :: 0 <= i < |rows| && after[i] != rows[i] ==>
                  && rows[i].status == FAILED && InBatch(rows[i], batch)
                  && after[i] == rows[i].(status := QUEUED, tokenHash := None))
            && (forall i :: 0 <= i < |rows| && after[i].status == FAILED ==> !InBatch(after[i], batch))
            && (set i | 0 <= i < |rows| && after[i] != rows[i]) == Moved(rows, batch, |rows|)
  {
    var after := Retry(rows, batch);
    forall i | 0 <= i < |rows| ensures after[i] != rows[i] <==> RetryMoves(rows[i], batch) {
      assert after[i] == RetryRow(rows[i], batch);
    }
  }

  /** What the other participants do in each gap of one turn of the dispatch loop, and what the mail service answers. */
  datatype Turn = Turn(
    beforeFind: seq<Step>,
    beforeClaim: seq<Step>,
    beforeRecheck: seq<Step>,
    beforeMail: seq<Step>,
    beforeResult: seq<Step>,
    mailFailure: Option<FailureReason>)

  datatype ClaimOutcome = OutcomeSent | OutcomeFailed(reason: FailureReason) | OutcomeSuperseded | ClaimedByOther

  datatype Failure = Failure(actorId: ActorId, reason: FailureReason)

  datatype DispatchResult = DispatchResult(sent: nat, failed: nat, remaining: nat, failures: seq<Failure>)

  /** A step that another participant can take: it does not speak for one of this dispatcher's claims. */
  predicate Foreign(step: Step, mine: set<nat>) {
    (step.Recheck? || step.HandOver? || step.Conclude?) ==> step.claim !in mine
  }

  function OnlyForeign(steps: seq<Step>, mine: set<nat>): (r: seq<Step>)
    ensures forall k :: 0 <= k < |r| ==> Foreign(r[k], mine)
  {
    if steps == [] then []
    else
      var earlier := OnlyForeign(steps[..|steps| - 1], mine);
      if Foreign(steps[|steps| - 1], mine) then earlier + [steps[|steps| - 1]] else earlier
  }

  /** Nothing others may do is left out: all steps but those of the call's own claims, in their order. */
  lemma {:induction false} OthersDoAnything(steps: seq<Step>, mine: set<nat>)
    requires forall k | 0 <= k < |steps| :: (steps[k].Recheck? || steps[k].HandOver? || steps[k].Conclude?) ==>
                                              steps[k].claim !in mine
    ensures OnlyForeign(steps, mine) == steps
  {
    if steps != [] {
      var n := |steps| - 1;
      OthersDoAnything(steps[..n], mine);
      assert steps == steps[..n] + [steps[n]];
    }
  }

  lemma {:induction false} RunInTwoParts(s: State, steps: seq<Step>, more: seq<Step>)
    ensures Run(s, steps + more) == Run(Run(s, steps), more)
  {
    if more == [] {
      assert steps + more == steps;
    } else {
      var n := |more| - 1;
      RunInTwoParts(s, steps, more[..n]);
      assert (steps + more)[..|steps + more| - 1] == steps + more[..n];
    }
  }

  lemma {:induction false} OneStepRun(s: State, steps: seq<Step>, step: Step)
    ensures Run(s, steps + [step]) == Apply(Run(s, steps), step)
  {
    assert (steps + [step])[..|steps|] == steps;
  }

  /** Other participants never touch a claim of this dispatcher, and never undo one that has ended. */
  lemma {:induction false} ForeignRunKeepsClaim(s: State, steps: seq<Step>, mine: set<nat>, c: nat)
    requires c < |s.claims|
    requires c in mine || s.claims[c].phase.Ended?
    requires forall k :: 0 <= k < |steps| ==> Foreign(steps[k], mine)
    ensures c < |Run(s, steps).claims| && Run(s, steps).claims[c] == s.claims[c]
  {
    if steps != [] {
      var n := |steps| - 1;
      ForeignRunKeepsClaim(s, steps[..n], mine, c);
      var mid := Run(s, steps[..n]);
      StepOnClaim(mid, steps[n], c);
      if !mid.claims[c].phase.Ended? {
        ForeignStepKeepsClaim(mid, steps[n], c);
      }
    }
  }

  lemma {:induction false} ForeignStepKeepsClaim(s: State, step: Step, c: nat)
    requires c < |s.claims|
    requires (step.Recheck? || step.HandOver? || step.Conclude?) ==> step.claim != c
    ensures c < |Apply(s, step).claims| && Apply(s, step).claims[c] == s.claims[c]
  {
  }

  lemma {:induction false} RunKeepsEndedClaim(s: State, steps: seq<Step>, c: nat)
    requires c < |s.claims| && s.claims[c].phase.Ended?
    ensures c < |Run(s, steps).claims| && Run(s, steps).claims[c] == s.claims[c]
  {
    if steps != [] {
      RunKeepsEndedClaim(s, steps[..|steps| - 1], c);
      StepOnClaim(Run(s, steps[..|steps| - 1]), steps[|steps| - 1], c);
    }
  }

  lemma {:induction false} RunNeverShrinks(s: State, steps: seq<Step>)
    ensures |s.claims| <= |Run(s, steps).claims| && |s.requests| <= |Run(s, steps).requests|
  {
    if steps != [] {
      var mid := Run(s, steps[..|steps| - 1]);
      RunNeverShrinks(s, steps[..|steps| - 1]);
      StepAddsClaim(mid, steps[|steps| - 1]);
      StepKeepsTable(mid, steps[|steps| - 1]);
    }
  }

  /** These claims were made after the first `base` ones, are listed once each, and have ended. */
  ghost predicate Made(list: seq<nat>, base: nat, claims: seq<Claim>) {
    && (forall k :: 0 <= k < |list| ==> base <= list[k] < |claims| && claims[list[k]].phase.Ended?)
    && (forall j, k :: 0 <= j < k < |list| ==> list[j] < list[k])
  }

  /** This reported failure is how its claim ended, and names the actor of the row the claim was on. */
  ghost predicate FailureTells(failure: Failure, claim: Claim, rows: seq<Request>) {
    && claim.phase == Ended(Undelivered(failure.reason))
    && claim.row < |rows| && failure.actorId == rows[claim.row].actorId
  }

  /** What a dispatch call reports is told by the claims it made: `delivered` ended SENT, `undelivered` FAILED. */
  ghost predicate Tally(sent: nat, failures: seq<Failure>, delivered: seq<nat>, undelivered: seq<nat>, base: nat,
                        claims: seq<Claim>, rows: seq<Request>)
  {
    && sent == |delivered| && |failures| == |undelivered|
    && Made(delivered, base, claims) && Made(undelivered, base, claims)
    && (forall k :: 0 <= k < |delivered| ==> claims[delivered[k]].phase == Ended(Delivered))
    && (forall k :: 0 <= k < |undelivered| ==> FailureTells(failures[k], claims[undelivered[k]], rows))
  }

  lemma {:induction false} EndedListIsKept(s: State, steps: seq<Step>, list: seq<nat>, base: nat)
    requires Made(list, base, s.claims)
    ensures Made(list, base, Run(s, steps).claims)
    ensures forall k :: 0 <= k < |list| ==> Run(s, steps).claims[list[k]] == s.claims[list[k]]
  {
    forall k | 0 <= k < |list|
      ensures list[k] < |Run(s, steps).claims| && Run(s, steps).claims[list[k]] == s.claims[list[k]]
    {
      RunKeepsEndedClaim(s, steps, list[k]);
    }
  }

  /** Nothing anybody does later takes back what a call has counted. */
  lemma {:induction false} TallyIsKept(s: State, steps: seq<Step>, sent: nat, failures: seq<Failure>,
                                       delivered: seq<nat>, undelivered: seq<nat>, base: nat)
    requires Tally(sent, failures, delivered, undelivered, base, s.claims, s.requests)
    ensures Tally(sent, failures, delivered, undelivered, base, Run(s, steps).claims, Run(s, steps).requests)
  {
    EndedListIsKept(s, steps, delivered, base);
    EndedListIsKept(s, steps, undelivered, base);
    var s' := Run(s, steps);
    forall k | 0 <= k < |undelivered| ensures FailureTells(failures[k], s'.claims[undelivered[k]], s'.requests) {
      assert FailureTells(failures[k], s.claims[undelivered[k]], s.requests);
      FinalRowNeverChanges(s, steps, s.claims[undelivered[k]].row);
    }
  }

  function EndOf(outcome: ClaimOutcome): Outcome {
    match outcome
    case OutcomeSent => Delivered
    case OutcomeFailed(reason) => Undelivered(reason)
    case _ => Lost
  }

  /** A call that claimed, up to its re-check. */
  function CheckedTrace(row: nat, token: nat, c: nat, turn: Turn): seq<Step> {
    [ClaimRow(row, token)] + OnlyForeign(turn.beforeRecheck, {c}) + [Recheck(c)]
  }

  /** The re-check of a call that claims in this state finds its actor still eligible. */
  ghost predicate PassesRecheck(s: State, row: nat, token: nat, c: nat, turn: Turn) {
    var checked := Run(s, CheckedTrace(row, token, c, turn));
    c < |checked.claims| && checked.claims[c].phase == Cleared
  }

  /**
   * The steps of one call that claimed: its own claim, re-check, hand-over (of a cleared claim
   * only) and result write, once each and in this order, and what others did in the gaps.
   */
  function CallTrace(row: nat, token: nat, c: nat, turn: Turn, cleared: bool): seq<Step> {
    var checked := CheckedTrace(row, token, c, turn);
    var mailed := if cleared then checked + OnlyForeign(turn.beforeMail, {c}) + [HandOver(c, turn.mailFailure)]
                  else checked;
    mailed + OnlyForeign(turn.beforeResult, {c}) + [Conclude(c)]
  }

  /** One turn that found a row: the row, how it went, and the claim it made with its token and re-check, if it did. */
  datatype Part = Part(row: nat, outcome: ClaimOutcome, claim: nat, token: nat, cleared: bool)

  /** The steps of one turn: what others did around the find, then the call's own claim. */
  function PartTrace(turn: Turn, part: Part): seq<Step> {
    OnlyForeign(turn.beforeFind, {}) + OnlyForeign(turn.beforeClaim, {})
    + if part.outcome == ClaimedByOther then [] else CallTrace(part.row, part.token, part.claim, turn, part.cleared)
  }

  function PartsTrace(turns: seq<Turn>, parts: seq<Part>): seq<Step>
    requires |parts| <= |turns|
  {
    if parts == [] then []
    else
      var n := |parts| - 1;
      PartsTrace(turns, parts[..n]) + PartTrace(turns[n], parts[n])
  }

  /** All turns of a loop, the last find of one that stopped early included. */
  function LoopTrace(turns: seq<Turn>, parts: seq<Part>): seq<Step>
    requires |parts| <= |turns|
  {
    PartsTrace(turns, parts) + if |parts| < |turns| then OnlyForeign(turns[|parts|].beforeFind, {}) else []
  }

  /**
   * A turn that began in this state: the row is the one its find picked, the claim is the next one
   * unless the row had left QUEUED by then, it is mailed only if the re-check passes, and its end is the outcome.
   */
  ghost predicate TurnRan(s: State, turn: Turn, part: Part, batch: Option<nat>) {
    var found := Run(s, OnlyForeign(turn.beforeFind, {}));
    var here := Run(found, OnlyForeign(turn.beforeClaim, {}));
    var after := Run(s, PartTrace(turn, part));
    && NextQueued(found.requests, batch) == Some(part.row) && part.row < |here.requests|
    && (part.outcome == ClaimedByOther <==> here.requests[part.row].status != QUEUED)
    && (part.outcome != ClaimedByOther ==>
          && part.claim == |here.claims| < |after.claims|
          && FreshToken(here, part.token)
          && (part.cleared <==> PassesRecheck(here, part.row, part.token, part.claim, turn))
          && after.claims[part.claim].row == part.row && after.claims[part.claim].phase == Ended(EndOf(part.outcome)))
  }

  ghost predicate TurnsRan(s: State, turns: seq<Turn>, parts: seq<Part>, batch: Option<nat>)
    requires |parts| <= |turns|
  {
    parts == [] ||
    var n := |parts| - 1;
    && TurnsRan(s, turns, parts[..n], batch)
    && TurnRan(Run(s, PartsTrace(turns, parts[..n])), turns[n], parts[n], batch)
  }

  function DeliveredIn(part: Part): seq<nat> {
    if part.outcome == OutcomeSent then [part.claim] else []
  }

  function UndeliveredIn(part: Part): seq<nat> {
    if part.outcome.OutcomeFailed? then [part.claim] else []
  }

  /** The claims these turns carried to SENT. */
  function DeliveredBy(parts: seq<Part>): seq<nat> {
    if parts == [] then []
    else
      var n := |parts| - 1;
      DeliveredBy(parts[..n]) + DeliveredIn(parts[n])
  }

  /** The claims these turns carried to FAILED. */
  function UndeliveredBy(parts: seq<Part>): seq<nat> {
    if parts == [] then []
    else
      var n := |parts| - 1;
      UndeliveredBy(parts[..n]) + UndeliveredIn(parts[n])
  }

  /** The loop so far: these turns, run from its first state. */
  ghost predicate Sending(start: State, turns: seq<Turn>, parts: seq<Part>, batch: Option<nat>, now: State)
    requires |parts| <= |turns|
  {
    now == Run(start, PartsTrace(turns, parts)) && TurnsRan(start, turns, parts, batch)
  }

  lemma {:induction false} SendingGoesOn(start: State, turns: seq<Turn>, parts: seq<Part>, part: Part,
                                         batch: Option<nat>, now: State)
    requires |parts| < |turns| && Sending(start, turns, parts, batch, now)
    requires TurnRan(now, turns[|parts|], part, batch)
    ensures Sending(start, turns, parts + [part], batch, Run(now, PartTrace(turns[|parts|], part)))
  {
    RunInTwoParts(start, PartsTrace(turns, parts), PartTrace(turns[|parts|], part));
    OneMorePart(turns, parts, part);
    OneMoreTurnRan(start, turns, parts, part, batch);
  }

  lemma {:induction false} SendingStops(start: State, turns: seq<Turn>, parts: seq<Part>, batch: Option<nat>, now: State)
    requires |parts| < |turns| && Sending(start, turns, parts, batch, now)
    ensures Run(now, OnlyForeign(turns[|parts|].beforeFind, {})) == Run(start, LoopTrace(turns, parts))
  {
    RunInTwoParts(start, PartsTrace(turns, parts), OnlyForeign(turns[|parts|].beforeFind, {}));
  }

  lemma {:induction false} SendingIsDone(start: State, turns: seq<Turn>, parts: seq<Part>, batch: Option<nat>, now: State)
    requires |parts| == |turns| && Sending(start, turns, parts, batch, now)
    ensures now == Run(start, LoopTrace(turns, parts))
  {
    assert LoopTrace(turns, parts) == PartsTrace(turns, parts);
  }

  lemma {:induction false} OneMorePart(turns: seq<Turn>, parts: seq<Part>, part: Part)
    requires |parts| < |turns|
    ensures PartsTrace(turns, parts + [part]) == PartsTrace(turns, parts) + PartTrace(turns[|parts|], part)
  {
    assert (parts + [part])[..|parts|] == parts;
  }

  lemma {:induction false} OneMoreTurnRan(s: State, turns: seq<Turn>, parts: seq<Part>, part: Part, batch: Option<nat>)
    requires |parts| < |turns| && TurnsRan(s, turns, parts, batch)
    requires TurnRan(Run(s, PartsTrace(turns, parts)), turns[|parts|], part, batch)
    ensures TurnsRan(s, turns, parts + [part], batch)
  {
    assert (parts + [part])[..|parts|] == parts;
  }

  lemma {:induction false} OneMoreEnded(parts: seq<Part>, part: Part)
    ensures DeliveredBy(parts + [part]) == DeliveredBy(parts) + DeliveredIn(part)
    ensures UndeliveredBy(parts + [part]) == UndeliveredBy(parts) + UndeliveredIn(part)
  {
    assert (parts + [part])[..|parts|] == parts;
  }

  class ConsentDatabase {
    var actors: map<ActorId, Actor>
    var requests: seq<Request>
    var audit: seq<AuditEntry>
    var now: int
    var claims: seq<Claim>
    var mailbox: seq<Mail>

    function View(): State
      reads this
    {
      State(actors, requests, audit, now, claims, mailbox)
    }

    method Become(s: State)
      modifies this
      ensures View() == s
    {
      actors, requests, audit, now, claims, mailbox := s.actors, s.requests, s.audit, s.now, s.claims, s.mailbox;
    }

    // ---- enqueue ----------------------------------------------------------------

    /** The requests of these actors, grouped by actor in table order. */
    method GroupByActor(found: seq<ActorId>) returns (byActor: map<ActorId, seq<Request>>)
      ensures forall id :: id in found ==> Listed(byActor, id) == RowsOf(requests, id)
    {
      byActor := map[];
      for i := 0 to |requests|
        invariant forall id :: id in found ==> Listed(byActor, id) == RowsOf(requests[..i], id)
      {
        var r := requests[i];
        assert requests[..i + 1][..i] == requests[..i];
        if r.actorId in found {
          byActor := byActor[r.actorId := Listed(byActor, r.actorId) + [r]];
        }
      }
      assert requests[..|requests|] == requests;
    }

    static function Listed(byActor: map<ActorId, seq<Request>>, id: ActorId): seq<Request> {
      if id in byActor then byActor[id] else []
    }

    /** Load the actors' requests once, then sort the actors into eligible and skipped. */
    method PartitionEligibility(found: seq<ActorId>, scope: Scope)
      returns (eligible: seq<ActorId>, skipped: SkipCounts)
      requires forall id :: id in found ==> id in actors
      ensures eligible == EligibleOf(View(), found, scope)
      ensures skipped == CountsOf(View(), found, scope)
      ensures |eligible| + skipped.noEmail + skipped.granted + skipped.pendingRequest + skipped.declined == |found|
    {
      var requestsByActor := GroupByActor(found);
      eligible, skipped := [], EmptySkipCounts;
      for i := 0 to |found|
        invariant eligible == EligibleOf(View(), found[..i], scope)
        invariant skipped == CountsOf(View(), found[..i], scope)
      {
        var id := found[i];
        assert found[..i + 1][..i] == found[..i];
        var outcome := EvaluateConsentEligibility(actors[id], Listed(requestsByActor, id), scope, now);
        if outcome == Eligible {
          eligible := eligible + [id];
        } else {
          skipped := CountSkip(skipped, outcome);
        }
      }
      assert found[..|found|] == found;
      EveryTargetCounted(View(), found, scope);
    }

    /** One transaction: decide eligibility, supersede what a single resend replaces, create the rows. */
    method Enqueue(ids: seq<ActorId>, scope: Scope, batchId: nat, actingSub: string)
      returns (r: Result<EnqueueResult, EnqueueError>)
      modifies this
      ensures View() == Apply(old(View()), ConsentProtocol.Enqueue(ids, scope, batchId, actingSub))
      ensures r.Err? <==> !ScopeMatchesTarget(ids, scope)
      ensures r.Ok? ==> |requests| == |old(requests)| + r.value.queued
                        && r.value.skipped == CountsOf(old(View()), Found(ids, old(actors)), scope)
    {
      if scope == Single && |ids| != 1 {
        return Err(ScopeNeedsOneId);
      }
      var found := Found(ids, actors);
      var eligible, skipped := PartitionEligibility(found, scope);
      if eligible == [] {
        assert requests + [] == requests;
        assert Supersede(requests, ToSet(eligible), now) == requests;
        return Ok(EnqueueResult(0, skipped));
      }
      var created := CreatedRequests(View(), eligible, batchId, actingSub);
      if scope == Single {
        SupersedePendingFor(eligible);
      }
      requests := requests + created;
      return Ok(EnqueueResult(|eligible|, skipped));
    }

    /** One guarded update: of these actors' rows, the pending ones; every other row stays as it is. */
    method SupersedePendingFor(ids: seq<ActorId>)
      modifies this`requests
      ensures |requests| == |old(requests)|
      ensures forall i :: 0 <= i < |requests| ==>
                requests[i] == if old(requests)[i].actorId in ids && IsPending(old(requests)[i], now)
                               then old(requests)[i].(status := SUPERSEDED, supersededAt := Some(now))
                               else old(requests)[i]
      ensures requests == Supersede(old(requests), ToSet(ids), now)
    {
      if |ids| == 0 {
        assert Supersede(requests, ToSet(ids), now) == requests;
        return;
      }
      ghost var was := requests;
      for i := 0 to |requests|
        invariant |requests| == |was|
        invariant forall j :: 0 <= j < |was| ==>
                    requests[j] == if j < i then SupersedeRow(was[j], ToSet(ids), now) else was[j]
      {
        var r := requests[i];
        var live := r.status in {QUEUED, SENDING, FAILED}
                    || (r.status == SENT && r.expiresAt.Some? && r.expiresAt.value > now);
        if r.actorId in ids && live {
          requests := requests[i := r.(status := SUPERSEDED, supersededAt := Some(now))];
        }
      }
    }

    // ---- sweep and retry ---------------------------------------------------------

    /** Claims older than two minutes fail as stale; every other row stays as it is. */
    method SweepStaleClaims()
      modifies this`requests
      ensures |requests| == |old(requests)|
      ensures forall i :: 0 <= i < |requests| && requests[i] != old(requests)[i] ==>
                && old(requests)[i].status == SENDING && old(requests)[i].claimedAt.Some?
                && now - old(requests)[i].claimedAt.value > STALE_CLAIM_THRESHOLD_MS
                && requests[i] == old(requests)[i].(status := FAILED, failureReason := Some(StaleClaim))
      ensures forall i :: 0 <= i < |requests| && requests[i].status == SENDING && requests[i].claimedAt.Some? ==>
                now - requests[i].claimedAt.value <= STALE_CLAIM_THRESHOLD_MS
      ensures View() == Apply(old(View()), SweepStale)
    {
      var staleBefore := now - STALE_CLAIM_THRESHOLD_MS;
      ghost var was := requests;
      for i := 0 to |requests|
        invariant |requests| == |was|
        invariant forall j :: 0 <= j < |was| ==> requests[j] == if j < i then SweepRow(was[j], now) else was[j]
      {
        var r := requests[i];
        if r.status == SENDING && r.claimedAt.Some? && r.claimedAt.value < staleBefore {
          requests := requests[i := r.(status := FAILED, failureReason := Some(StaleClaim))];
        }
      }
    }

    /** The failed rows of the batch go back to QUEUED without their token, and the answer counts exactly those. */
    method RetryAll(batch: Option<nat>) returns (queued: nat)
      modifies this`requests
      ensures |requests| == |old(requests)|
      ensures forall i :: 0 <= i < |requests| && requests[i] != old(requests)[i] ==>
                && old(requests)[i].status == FAILED && InBatch(old(requests)[i], batch)
                && requests[i] == old(requests)[i].(status := QUEUED, tokenHash := None)
      ensures forall i :: 0 <= i < |requests| && requests[i].status == FAILED ==> !InBatch(requests[i], batch)
      ensures queued == |set i | 0 <= i < |requests| && requests[i] != old(requests)[i]|
      ensures View() == Apply(old(View()), RetryFailed(batch))
    {
      RetryMeaning(requests, batch);
      queued := MoveFailed(batch);
    }

    method MoveFailed(batch: Option<nat>) returns (queued: nat)
      modifies this`requests
      ensures requests == Retry(old(requests), batch)
      ensures queued == |Moved(old(requests), batch, |requests|)|
    {
      ghost var was := requests;
      ghost var moved: set<int> := {};
      queued := 0;
      for i := 0 to |requests|
        invariant |requests| == |was|
        invariant forall j :: 0 <= j < |was| ==> requests[j] == if j < i then RetryRow(was[j], batch) else was[j]
        invariant moved == Moved(was, batch, i) && queued == |moved|
      {
        OneMoreMoved(was, batch, i);
        var r := requests[i];
        if r.status == FAILED && (batch.Some? ==> r.batchId == batch.value) {
          requests := requests[i := r.(status := QUEUED, tokenHash := None)];
          queued := queued + 1;
          moved := moved + {i};
        }
      }
    }

    // ---- dispatch ------------------------------------------------------------------

    /** Let other participants run; a step that speaks for one of `mine` is not theirs and is not taken. */
    method Interfere(steps: seq<Step>, mine: set<nat>)
      modifies this
      ensures View() == Run(old(View()), OnlyForeign(steps, mine))
    {
      for i := 0 to |steps|
        invariant View() == Run(old(View()), OnlyForeign(steps[..i], mine))
      {
        assert steps[..i + 1][..i] == steps[..i];
        if Foreign(steps[i], mine) {
          OneStepRun(old(View()), OnlyForeign(steps[..i], mine), steps[i]);
          Become(Apply(View(), steps[i]));
        }
      }
      assert steps[..|steps|] == steps;
    }

    /** A token the generator has not produced before. */
    method GenerateToken() returns (token: nat)
      ensures FreshToken(View(), token)
    {
      token := 0;
      for i := 0 to |claims|
        invariant forall c :: 0 <= c < i ==> claims[c].token < token
      {
        if claims[i].token >= token {
          token := claims[i].token + 1;
        }
      }
    }

    /**
     * Claim one row, re-check, mail, write the result. Others act between any two of its
     * statements; its own are those of `CallTrace`, so it claims at most once and carries the
     * claim to the end it reports.
     */
    method ClaimAndSendOne(row: nat, turn: Turn)
      returns (outcome: ClaimOutcome, ghost trace: seq<Step>, ghost token: nat, ghost cleared: bool)
      requires row < |requests|
      modifies this
      ensures View() == Run(old(View()), trace)
      ensures outcome == ClaimedByOther <==> old(requests)[row].status != QUEUED
      ensures outcome == ClaimedByOther ==> trace == []
      ensures outcome != ClaimedByOther ==>
                && trace == CallTrace(row, token, |old(claims)|, turn, cleared)
                && |old(claims)| < |claims| && claims[|old(claims)|].row == row
                && claims[|old(claims)|].phase == Ended(EndOf(outcome))
      ensures outcome != ClaimedByOther ==> FreshToken(old(View()), token)
      ensures outcome != ClaimedByOther ==> (cleared <==> PassesRecheck(old(View()), row, token, |old(claims)|, turn))
      ensures outcome.OutcomeFailed? ==> turn.mailFailure == Some(outcome.reason)
      ensures outcome == OutcomeSent ==> cleared && turn.mailFailure.None?
    {
      ghost var start := View();
      var c := |claims|;
      var minted := GenerateToken();
      token, cleared, trace := minted, false, [];
      var claimed := ClaimQueued(row, minted);
      if !claimed {
        return ClaimedByOther, [], token, cleared;
      }
      OneStepRun(start, [], ClaimRow(row, minted));
      trace := Gap(start, [] + [ClaimRow(row, minted)], turn.beforeRecheck, c);
      OneStepRun(start, trace, Recheck(c));
      var stillEligible := RecheckActor(c);
      trace, cleared := trace + [Recheck(c)], stillEligible;
      assert trace == CheckedTrace(row, minted, c, turn);
      if !stillEligible {
        trace := Gap(start, trace, turn.beforeResult, c);
        OneStepRun(start, trace, Conclude(c));
        WriteSuperseded(c);
        trace := trace + [Conclude(c)];
        return OutcomeSuperseded, trace, token, cleared;
      }
      trace := Gap(start, trace, turn.beforeMail, c);
      outcome, trace := SendCleared(start, trace, c, turn);
    }

    /** The mail call, its catch branch, and the result write of either. */
    method SendCleared(ghost start: State, ghost before: seq<Step>, c: nat, turn: Turn)
      returns (outcome: ClaimOutcome, ghost trace: seq<Step>)
      requires View() == Run(start, before)
      requires InPhase(View(), c) && claims[c].phase == Cleared
      modifies this
      ensures View() == Run(start, trace)
      ensures trace == before + [HandOver(c, turn.mailFailure)] + OnlyForeign(turn.beforeResult, {c}) + [Conclude(c)]
      ensures c < |claims| && claims[c].row == old(claims)[c].row
      ensures outcome != ClaimedByOther && claims[c].phase == Ended(EndOf(outcome))
      ensures outcome.OutcomeFailed? ==> turn.mailFailure == Some(outcome.reason)
      ensures outcome == OutcomeSent ==> turn.mailFailure.None?
    {
      OneStepRun(start, before, HandOver(c, turn.mailFailure));
      SendConsentRequest(c, turn.mailFailure);
      trace := Gap(start, before + [HandOver(c, turn.mailFailure)], turn.beforeResult, c);
      OneStepRun(start, trace, Conclude(c));
      trace := trace + [Conclude(c)];
      if turn.mailFailure.Some? {
        var updated := WriteFailed(c, turn.mailFailure.value);
        outcome := if updated then OutcomeFailed(turn.mailFailure.value) else OutcomeSuperseded;
      } else {
        var updated := WriteSent(c);
        outcome := if updated then OutcomeSent else OutcomeSuperseded;
      }
    }

    // The five statements of a claimant: each guarded as the statement is, each one protocol step.

    /** Compare-and-set out of QUEUED; the token's hash is stored in the same write. */
    method ClaimQueued(row: nat, token: nat) returns (claimed: bool)
      requires row < |requests| && FreshToken(View(), token)
      modifies this`requests, this`claims
      ensures View() == Apply(old(View()), ClaimRow(row, token))
      ensures claimed <==> old(requests)[row].status == QUEUED
      ensures !claimed ==> View() == old(View())
      ensures |requests| == |old(requests)|
      ensures claimed ==> |claims| == |old(claims)| + 1 && claims[|old(claims)|].row == row
                          && claims[|old(claims)|].phase == Claimed
    {
      var r := requests[row];
      if r.status != QUEUED {
        return false;
      }
      var attempt := r.attempts + 1;
      requests := requests[row := r.(status := SENDING, claimedAt := Some(now), attempts := attempt,
                                     tokenHash := Some(HashOf(token)))];
      claims := claims + [Claim(row, token, now, attempt, false, Claimed)];
      return true;
    }

    /** Read the actor again: still there, not granted meanwhile, and at the address the request was made for. */
    method RecheckActor(c: nat) returns (stillEligible: bool)
      requires InPhase(View(), c) && claims[c].phase == Claimed
      modifies this`claims
      ensures View() == Apply(old(View()), Recheck(c))
      ensures InPhase(View(), c) && claims[c].row == old(claims)[c].row
      ensures claims[c].phase == if stillEligible then Cleared else Ineligible
    {
      var r := requests[claims[c].row];
      stillEligible := false;
      if r.actorId in actors {
        var actor := actors[r.actorId];
        stillEligible := actor.consentStatus != GRANTED && actor.email == Some(r.recipientEmail);
      }
      claims := claims[c := claims[c].(phase := if stillEligible then Cleared else Ineligible)];
    }

    /** One call of the mail service. */
    method SendConsentRequest(c: nat, failure: Option<FailureReason>)
      requires InPhase(View(), c) && claims[c].phase == Cleared
      modifies this`claims, this`mailbox
      ensures View() == Apply(old(View()), HandOver(c, failure))
      ensures InPhase(View(), c) && claims[c].row == old(claims)[c].row
      ensures claims[c].phase == if failure.None? then MailAccepted else MailRejected(failure.value)
    {
      var claim := claims[c];
      mailbox := mailbox + [Mail(c, claim.row, requests[claim.row].recipientEmail, claim.token)];
      claims := claims[c := claim.(mailed := true,
                                   phase := if failure.None? then MailAccepted else MailRejected(failure.value))];
    }

    /** The claim ends; where its guarded write hit nothing, it was lost. */
    method End(c: nat, updated: bool, outcome: Outcome)
      requires c < |claims|
      modifies this`claims
      ensures claims == old(claims)[c := old(claims)[c].(phase := Ended(if updated then outcome else Lost))]
    {
      claims := claims[c := claims[c].(phase := Ended(if updated then outcome else Lost))];
    }

    method WriteSuperseded(c: nat)
      requires InPhase(View(), c) && claims[c].phase == Ineligible
      modifies this`requests, this`claims
      ensures View() == Apply(old(View()), Conclude(c))
      ensures c < |claims| && claims[c].row == old(claims)[c].row && claims[c].phase == Ended(Lost)
    {
      var row := claims[c].row;
      var r := requests[row];
      if r.status == SENDING {
        requests := requests[row := r.(status := SUPERSEDED, supersededAt := Some(now))];
      }
      End(c, false, Lost);
    }

    method WriteFailed(c: nat, reason: FailureReason) returns (updated: bool)
      requires InPhase(View(), c) && claims[c].phase == MailRejected(reason)
      modifies this`requests, this`claims
      ensures View() == Apply(old(View()), Conclude(c))
      ensures updated <==> old(requests)[old(claims)[c].row].status == SENDING
      ensures c < |claims| && claims[c].row == old(claims)[c].row
      ensures claims[c].phase == Ended(if updated then Undelivered(reason) else Lost)
    {
      var row := claims[c].row;
      var r := requests[row];
      updated := r.status == SENDING;
      if updated {
        requests := requests[row := r.(status := FAILED, failureReason := Some(reason))];
      }
      End(c, updated, Undelivered(reason));
    }

    /** SENT and its audit entry are one transaction: both or neither. */
    method WriteSent(c: nat) returns (updated: bool)
      requires InPhase(View(), c) && claims[c].phase == MailAccepted
      modifies this`requests, this`claims, this`audit
      ensures View() == Apply(old(View()), Conclude(c))
      ensures updated <==> old(requests)[old(claims)[c].row].status == SENDING
      ensures c < |claims| && claims[c].row == old(claims)[c].row
      ensures claims[c].phase == Ended(if updated then Delivered else Lost)
    {
      var row := claims[c].row;
      var r := requests[row];
      updated := r.status == SENDING;
      if updated {
        var expiresAt := now + CONSENT_LINK_VALIDITY_MS;
        requests := requests[row := r.(status := SENT, sentAt := Some(now), expiresAt := Some(expiresAt))];
        audit := audit + [RequestedEntry(row, r.actorId, r.requestedBySub, r.recipientEmail)];
      }
      End(c, updated, Delivered);
    }

    /** A gap between two steps of a claimant: others run, the claim stays as it is. */
    method Gap(ghost start: State, ghost before: seq<Step>, steps: seq<Step>, c: nat) returns (ghost trace: seq<Step>)
      requires View() == Run(start, before)
      requires c < |claims| && claims[c].row < |requests|
      modifies this
      ensures View() == Run(start, trace) && trace == before + OnlyForeign(steps, {c})
      ensures c < |claims| && claims[c] == old(claims[c])
      ensures |old(claims)| <= |claims| && |old(requests)| <= |requests|
    {
      ghost var foreign := OnlyForeign(steps, {c});
      ForeignRunKeepsClaim(View(), foreign, {c}, c);
      RunNeverShrinks(View(), foreign);
      RunInTwoParts(start, before, foreign);
      Interfere(steps, {c});
      trace := before + foreign;
    }

    /** One turn of the loop: find the oldest queued row, then claim and send it. `None` when nothing is queued. */
    method OneTurn(turn: Turn, batch: Option<nat>)
      returns (outcome: Option<ClaimOutcome>, row: nat, ghost part: Part, ghost taken: seq<Step>)
      modifies this
      ensures View() == Run(old(View()), taken)
      ensures outcome.None? ==> NextQueued(requests, batch).None? && taken == OnlyForeign(turn.beforeFind, {})
      ensures outcome.Some? ==>
                && row < |requests| && part.row == row && part.outcome == outcome.value
                && taken == PartTrace(turn, part) && TurnRan(old(View()), turn, part, batch)
      ensures outcome.Some? && outcome.value != ClaimedByOther ==>
                && |old(claims)| <= part.claim < |claims| && claims[part.claim].row == row
                && claims[part.claim].phase == Ended(EndOf(outcome.value))
    {
      ghost var here, others := View(), OnlyForeign(turn.beforeClaim, {});
      taken := OnlyForeign(turn.beforeFind, {});
      Interfere(turn.beforeFind, {});
      var next := NextQueued(requests, batch);
      row, part, outcome := 0, Part(0, ClaimedByOther, 0, 0, false), None;
      if next.Some? {
        row := next.value;
        RunInTwoParts(here, taken, others);
        RunNeverShrinks(View(), others);
        Interfere(turn.beforeClaim, {});
        taken := taken + others;
        RunNeverShrinks(here, taken);
        ghost var c := |claims|;
        var result;
        ghost var sending, token, cleared;
        result, sending, token, cleared := ClaimAndSendOne(row, turn);
        RunInTwoParts(here, taken, sending);
        RunNeverShrinks(Run(here, taken), sending);
        taken := taken + sending;
        outcome, part := Some(result), Part(row, result, c, token, cleared);
      }
    }

    /**
     * The time-boxed loop. `turns` holds one turn for every time the clock still reads less than
     * the budget, so the loop ends when it is used up or a find sees nothing queued. Whatever
     * others do meanwhile, the call is this run of the protocol: its sweep, then for each of
     * `parts` one turn that claims what its find picked, then the last look of a loop that stopped
     * early. The result counts exactly the claims of its turns that ended SENT and FAILED; others
     * may queue more before the rest is counted.
     */
    method Dispatch(turns: seq<Turn>, beforeCount: seq<Step>, batch: Option<nat>)
      returns (r: DispatchResult, ghost trace: seq<Step>, ghost parts: seq<Part>)
      modifies this
      ensures View() == Run(old(View()), trace) && |parts| <= |turns|
      ensures trace == [SweepStale] + LoopTrace(turns, parts) + OnlyForeign(beforeCount, {})
      ensures TurnsRan(Apply(old(View()), SweepStale), turns, parts, batch)
      ensures |parts| < |turns| ==>
                NextQueued(Run(old(View()), [SweepStale] + LoopTrace(turns, parts)).requests, batch).None?
      ensures r.remaining == CountQueued(requests, batch)
      ensures r.failed == |r.failures|
      ensures Tally(r.sent, r.failures, DeliveredBy(parts), UndeliveredBy(parts), |old(claims)|, claims, requests)
    {
      ghost var start := View();
      SweepStaleClaims();
      OneStepRun(start, [], SweepStale);
      assert [] + [SweepStale] == [SweepStale];
      var sent, failures;
      ghost var others := OnlyForeign(beforeCount, {});
      sent, failures, parts := SendQueued(turns, batch);
      RunInTwoParts(start, [SweepStale], LoopTrace(turns, parts));
      trace := [SweepStale] + LoopTrace(turns, parts);
      TallyIsKept(View(), others, sent, failures, DeliveredBy(parts), UndeliveredBy(parts), |start.claims|);
      RunInTwoParts(start, trace, others);
      Interfere(beforeCount, {});
      trace := trace + others;
      r := DispatchResult(sent, |failures|, CountQueued(requests, batch), failures);
    }

    method SendQueued(turns: seq<Turn>, batch: Option<nat>)
      returns (sent: nat, failures: seq<Failure>, ghost parts: seq<Part>)
      modifies this
      ensures |parts| <= |turns| && View() == Run(old(View()), LoopTrace(turns, parts))
      ensures TurnsRan(old(View()), turns, parts, batch)
      ensures |parts| < |turns| ==> NextQueued(requests, batch).None?
      ensures Tally(sent, failures, DeliveredBy(parts), UndeliveredBy(parts), |old(claims)|, claims, requests)
    {
      ghost var start := View();
      sent, failures, parts := 0, [], [];
      var i := 0;
      while i < |turns|
        invariant |parts| == i <= |turns| && |start.claims| <= |claims|
        invariant Sending(start, turns, parts, batch, View())
        invariant Tally(sent, failures, DeliveredBy(parts), UndeliveredBy(parts), |start.claims|, claims, requests)
      {
        var ended;
        ended, sent, failures, parts := NextTurn(start, turns, i, batch, sent, failures, parts);
        if ended {
          return;
        }
        i := i + 1;
      }
      SendingIsDone(start, turns, parts, batch, View());
    }

    /** One turn, as the next of the loop. */
    method NextTurn(ghost start: State, turns: seq<Turn>, i: nat, batch: Option<nat>, sent: nat, failures: seq<Failure>,
                    ghost parts: seq<Part>)
      returns (ended: bool, sent': nat, failures': seq<Failure>, ghost parts': seq<Part>)
      requires |parts| == i < |turns| && |start.claims| <= |claims|
      requires Sending(start, turns, parts, batch, View())
      requires Tally(sent, failures, DeliveredBy(parts), UndeliveredBy(parts), |start.claims|, claims, requests)
      modifies this
      ensures |start.claims| <= |claims|
      ensures ended ==> parts' == parts && NextQueued(requests, batch).None?
                        && TurnsRan(start, turns, parts, batch) && View() == Run(start, LoopTrace(turns, parts))
      ensures !ended ==> |parts'| == i + 1 && Sending(start, turns, parts', batch, View())
      ensures Tally(sent', failures', DeliveredBy(parts'), UndeliveredBy(parts'), |start.claims|, claims, requests)
    {
      ghost var here := View();
      ghost var part, taken;
      ended, sent', failures', part, taken := TakeTurn(turns[i], batch, sent, failures, parts, |start.claims|);
      parts' := if ended then parts else parts + [part];
      if ended {
        SendingStops(start, turns, parts, batch, here);
      } else {
        SendingGoesOn(start, turns, parts, part, batch, here);
      }
    }

    /** One turn, its outcome counted. */
    method TakeTurn(turn: Turn, batch: Option<nat>, sent: nat, failures: seq<Failure>, ghost parts: seq<Part>,
                    ghost base: nat)
      returns (ended: bool, sent': nat, failures': seq<Failure>, ghost part: Part, ghost taken: seq<Step>)
      requires base <= |claims|
      requires Tally(sent, failures, DeliveredBy(parts), UndeliveredBy(parts), base, claims, requests)
      modifies this
      ensures base <= |claims| && View() == Run(old(View()), taken)
      ensures ended ==> NextQueued(requests, batch).None? && taken == OnlyForeign(turn.beforeFind, {})
      ensures !ended ==> taken == PartTrace(turn, part) && TurnRan(old(View()), turn, part, batch)
      ensures var counted := if ended then parts else parts + [part];
              Tally(sent', failures', DeliveredBy(counted), UndeliveredBy(counted), base, claims, requests)
    {
      ghost var here := View();
      var outcome, row;
      outcome, row, part, taken := OneTurn(turn, batch);
      TallyIsKept(here, taken, sent, failures, DeliveredBy(parts), UndeliveredBy(parts), base);
      RunNeverShrinks(here, taken);
      ended, sent', failures' := outcome.None?, sent, failures;
      if outcome.Some? {
        sent', failures' := Count(outcome.value, row, sent, failures, part, |here.claims|,
                                  DeliveredBy(parts), UndeliveredBy(parts), base);
        OneMoreEnded(parts, part);
      }
    }

    /** One more outcome counted; a lost race counts as neither. */
    method Count(outcome: ClaimOutcome, row: nat, sent: nat, failures: seq<Failure>, ghost part: Part, ghost newer: nat,
                 ghost delivered: seq<nat>, ghost undelivered: seq<nat>, ghost base: nat)
      returns (sent': nat, failures': seq<Failure>)
      requires row < |requests| && base <= newer && part.outcome == outcome
      requires Tally(sent, failures, delivered, undelivered, base, claims, requests)
      requires forall k :: 0 <= k < |delivered| ==> delivered[k] < newer
      requires forall k :: 0 <= k < |undelivered| ==> undelivered[k] < newer
      requires outcome != ClaimedByOther ==>
                 && newer <= part.claim < |claims| && claims[part.claim].row == row
                 && claims[part.claim].phase == Ended(EndOf(outcome))
      ensures Tally(sent', failures', delivered + DeliveredIn(part), undelivered + UndeliveredIn(part),
                    base, claims, requests)
    {
      sent', failures' := sent, failures;
      match outcome
      case OutcomeSent =>
        sent' := sent + 1;
      case OutcomeFailed(reason) =>
        failures' := failures + [Failure(requests[row].actorId, reason)];
        assert FailureTells(failures'[|failures|], claims[part.claim], requests);
      case _ =>
    }

    // ---- the actor's answer -----------------------------------------------------------

    /** One transaction: lock the actor, compare-and-set the request, write the actor, log it. */
    method Respond(token: nat, accept: bool, identified: bool) returns (taken: bool)
      modifies this
      ensures View() == Apply(old(View()), ConsentProtocol.Respond(token, accept, identified))
      ensures taken <==> Answerable(old(View()), token, accept, identified).Some?
    {
      if accept && !identified {
        return false;
      }
      var located := FindByToken(requests, HashOf(token));
      if located.None? {
        return false;
      }
      var row := located.value;
      var actorId := requests[row].actorId;
      if actorId !in actors {
        return false;
      }
      var before := actors[actorId];
      var expiresAt := requests[row].expiresAt;
      if requests[row].status != SENT || expiresAt.None? || expiresAt.value <= now {
        return false;
      }
      requests := requests[row := requests[row].(status := if accept then ACCEPTED else DECLINED,
                                                 respondedAt := Some(now))];
      var after := Actor(before.email, if accept then GRANTED else DENIED, EMAIL_LINK, Some(now), Some(RequestId(row)));
      actors := actors[actorId := after];
      audit := audit + [RespondedEntry(row, actorId, BuildDiff(before, after))];
      return true;
    }

    // ---- admin writes -------------------------------------------------------------------

    /** Update one actor: write, log the diff if there is one, supersede on a status or email change. */
    method UpdateRecord(id: ActorId, p: Payload) returns (r: Result<Actor, UpdateRefusal>)
      modifies this
      ensures View() == Apply(old(View()), Update(id, p))
      ensures r.Ok? <==> id in old(actors) && UpdateActor(old(actors)[id], p).Ok?
      ensures r.Ok? ==> id in actors && r.value == actors[id]
      ensures r.Err? ==> r.error == if id !in old(actors) then NotFound else Refused(UpdateActor(old(actors)[id], p).error)
    {
      if id !in actors {
        return Err(NotFound);
      }
      var before := actors[id];
      var written := UpdateActor(before, p);
      if written.Err? {
        return Err(Refused(written.error));
      }
      var after := written.value;
      actors := actors[id := after];
      var diff := BuildDiff(before, after);
      if diff != NoChange {
        audit := audit + [ActorDiff(id, diff)];
      }
      if before.consentStatus != after.consentStatus || before.email != after.email {
        SupersedePendingFor([id]);
        assert ToSet([id]) == {id};
      }
      return Ok(after);
    }

    /** The entries of `logBulkConsent`, rows whose diff is empty left out. */
    method LogBulkConsent(found: seq<ActorId>, b: Batch)
      requires forall id :: id in found ==> id in actors
      modifies this`audit
      ensures audit == old(audit) + BulkEntries(actors, found, b)
    {
      var entries: seq<AuditEntry> := [];
      for i := 0 to |found|
        invariant entries == BulkEntries(actors, found[..i], b)
      {
        assert found[..i + 1][..i] == found[..i];
        var diff := BulkDiff(actors[found[i]], b);
        if diff != NoChange {
          entries := entries + [ActorDiff(found[i], diff)];
        }
      }
      assert found[..|found|] == found;
      audit := audit + entries;
    }

    /** Bulk set-consent: gate, log, grouped writes, supersession. */
    method BulkSetConsent(ids: seq<ActorId>, b: Batch) returns (r: Result<BulkResult, WriteError>)
      requires WellFormedBatch(b)
      modifies this
      ensures View() == Apply(old(View()), SetConsent(ids, b))
      ensures r == if BatchGate(b).Some? then Err(BatchGate(b).value)
                   else var found := Found(ids, old(actors));
                        Ok(BulkResult(|found|, if b.unlock then Preserved(old(actors), found, b) else 0))
    {
      var refusal := BatchGate(b);
      if refusal.Some? {
        return Err(refusal.value);
      }
      var found := Found(ids, actors);
      LogBulkConsent(found, b);
      var table := new ActorTable(actors);
      var result := table.BulkWrite(found, b);
      actors := table.rows;
      SupersedePendingFor(found);
      return Ok(result);
    }

    /** `remove` and `bulkDelete`: log, supersede, delete. */
    method RemoveAll(ids: seq<ActorId>) returns (applied: nat)
      modifies this
      ensures View() == Apply(old(View()), Remove(ids))
      ensures applied == |Found(ids, old(actors))|
      ensures forall id :: id in ids ==> id !in actors
    {
      var found := Found(ids, actors);
      audit := audit + DeleteEntries(actors, found);
      SupersedePendingFor(found);
      actors := actors - ToSet(found);
      return |found|;
    }
  }
}
