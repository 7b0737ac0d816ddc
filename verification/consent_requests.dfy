/** The consent-request table: its rows, which rows are pending, and who may be asked. */
module ConsentRequests {
  import opened Wrappers
  import opened ConsentTypes

  datatype RequestStatus = QUEUED | SENDING | SENT | FAILED | ACCEPTED | DECLINED | SUPERSEDED

  datatype FailureReason = TransportRejected | Timeout | StaleClaim

  /** SHA-256 of a link token, as an injective function of the token. */
  datatype TokenHash = HashOf(token: nat)

  datatype Request = Request(
    actorId: ActorId,
    batchId: nat,
    recipientEmail: string,
    requestedBySub: string,
    status: RequestStatus,
    createdAt: int,
    claimedAt: Option<int>,
    sentAt: Option<int>,
    expiresAt: Option<int>,
    attempts: nat,
    tokenHash: Option<TokenHash>,
    failureReason: Option<FailureReason>,
    respondedAt: Option<int>,
    supersededAt: Option<int>)

  const STALE_CLAIM_THRESHOLD_MS := 2 * 60 * 1000
  const CONSENT_LINK_VALIDITY_MS := 30 * 24 * 60 * 60 * 1000

  predicate IsPending(r: Request, now: int) {
    if r.status == QUEUED || r.status == SENDING || r.status == FAILED then true
    else if r.status == SENT then r.expiresAt.Some? && r.expiresAt.value > now
    else false
  }

  /** Answered, withdrawn, or sent and past its validity: nothing is left to happen to the row. */
  predicate IsFinal(r: Request, now: int) {
    || r.status == ACCEPTED || r.status == DECLINED || r.status == SUPERSEDED
    || (r.status == SENT && r.expiresAt.Some? && r.expiresAt.value <= now)
  }

  /** Queued, being sent, failed, or sent and still valid; and every row of known dates is that or final. */
  lemma {:induction false} PendingExactlyWhen(r: Request, now: int)
    ensures IsPending(r, now) <==> || r.status in {QUEUED, SENDING, FAILED}
                                   || (r.status == SENT && r.expiresAt.Some? && now < r.expiresAt.value)
    ensures IsPending(r, now) ==> !IsFinal(r, now)
    ensures IsFinal(r, now) <==> !IsPending(r, now) && !(r.status == SENT && r.expiresAt.None?)
  {
  }

  // ---- eligibility ----------------------------------------------------------

  datatype Scope = Single | Bulk

  datatype Eligibility = Eligible | NoEmail | Granted | PendingRequest | Declined

  /** The first of the most recently created requests. */
  function LatestRequest(requests: seq<Request>): Option<Request> {
    if requests == [] then None
    else
      var earlier := LatestRequest(requests[..|requests| - 1]);
      var last := requests[|requests| - 1];
      if earlier.Some? && last.createdAt <= earlier.value.createdAt then earlier else Some(last)
  }

  ghost predicate IsFirstMaximum(requests: seq<Request>, k: int) {
    && 0 <= k < |requests|
    && (forall j :: 0 <= j < k ==> requests[j].createdAt < requests[k].createdAt)
    && (forall j :: k <= j < |requests| ==> requests[j].createdAt <= requests[k].createdAt)
  }

  lemma {:induction false} LatestIsFirstMaximum(requests: seq<Request>)
    ensures LatestRequest(requests).None? <==> requests == []
    ensures requests != [] ==>
              exists k :: IsFirstMaximum(requests, k) && LatestRequest(requests) == Some(requests[k])
  {
    if requests != [] {
      var shorter := requests[..|requests| - 1];
      var n := |requests| - 1;
      LatestIsFirstMaximum(shorter);
      if shorter == [] || LatestRequest(shorter).value.createdAt < requests[n].createdAt {
        assert IsFirstMaximum(requests, n);
      } else {
        var k :| IsFirstMaximum(shorter, k) && LatestRequest(shorter) == Some(shorter[k]);
        assert IsFirstMaximum(requests, k);
      }
    }
  }

  /** The loop of `latestRequest`: the first row wins a tie because only a later date replaces it. */
  method FindLatestRequest(requests: seq<Request>) returns (latest: Option<Request>)
    ensures latest == LatestRequest(requests)
    ensures latest.None? <==> requests == []
    ensures latest.Some? ==> exists k :: IsFirstMaximum(requests, k) && latest == Some(requests[k])
  {
    latest := None;
    for i := 0 to |requests|
      invariant latest == LatestRequest(requests[..i])
      invariant latest.None? ==> i == 0
    {
      assert requests[..i + 1][..i] == requests[..i];
      if latest.None? || requests[i].createdAt > latest.value.createdAt {
        latest := Some(requests[i]);
      }
    }
    assert requests[..|requests|] == requests;
    LatestIsFirstMaximum(requests);
  }

  predicate AnyPending(requests: seq<Request>, now: int) {
    exists i :: 0 <= i < |requests| && IsPending(requests[i], now)
  }

  function EvaluateConsentEligibility(actor: Actor, requests: seq<Request>, scope: Scope, now: int): Eligibility {
    if !HasEmail(actor) then NoEmail
    else if actor.consentStatus == GRANTED then Granted
    else if scope == Bulk && AnyPending(requests, now) then PendingRequest
    else if scope == Bulk && LatestRequest(requests).Some? && LatestRequest(requests).value.status == DECLINED then
      Declined
    else Eligible
  }

  function RowsOf(rows: seq<Request>, id: ActorId): seq<Request> {
    if rows == [] then []
    else
      var earlier := RowsOf(rows[..|rows| - 1], id);
      var last := rows[|rows| - 1];
      if last.actorId == id then earlier + [last] else earlier
  }

  /** The first, in table order, of an actor's most recently created rows. */
  predicate IsNewestOf(rows: seq<Request>, id: ActorId, i: int) {
    && 0 <= i < |rows| && rows[i].actorId == id
    && (forall j :: 0 <= j < |rows| && rows[j].actorId == id ==> rows[j].createdAt <= rows[i].createdAt)
    && (forall j :: 0 <= j < i && rows[j].actorId == id ==> rows[j].createdAt < rows[i].createdAt)
  }

  lemma {:induction false} NewestIsUnique(rows: seq<Request>, id: ActorId, i: int, j: int)
    requires IsNewestOf(rows, id, i) && IsNewestOf(rows, id, j)
    ensures i == j
  {
  }

  lemma {:induction false} LatestStep(rows: seq<Request>, id: ActorId)
    requires rows != []
    ensures var last, earlier := rows[|rows| - 1], LatestRequest(RowsOf(rows[..|rows| - 1], id));
            LatestRequest(RowsOf(rows, id))
            == if last.actorId != id || (earlier.Some? && last.createdAt <= earlier.value.createdAt) then earlier
               else Some(last)
  {
    var earlier, last := RowsOf(rows[..|rows| - 1], id), rows[|rows| - 1];
    assert (earlier + [last])[..|earlier|] == earlier;
  }

  lemma {:induction false} NewestStays(rows: seq<Request>, id: ActorId, i: int)
    requires rows != [] && IsNewestOf(rows[..|rows| - 1], id, i)
    requires rows[|rows| - 1].actorId != id || rows[|rows| - 1].createdAt <= rows[i].createdAt
    ensures IsNewestOf(rows, id, i)
  {
    forall j | 0 <= j < |rows| && rows[j].actorId == id ensures rows[j].createdAt <= rows[i].createdAt {
      assert j < |rows| - 1 ==> rows[..|rows| - 1][j] == rows[j];
    }
    forall j | 0 <= j < i && rows[j].actorId == id ensures rows[j].createdAt < rows[i].createdAt {
      assert rows[..|rows| - 1][j] == rows[j];
    }
  }

  lemma {:induction false} LastIsNewest(rows: seq<Request>, id: ActorId, i: int)
    requires rows != [] && IsNewestOf(rows[..|rows| - 1], id, i)
    requires rows[|rows| - 1].actorId == id && rows[|rows| - 1].createdAt > rows[i].createdAt
    ensures IsNewestOf(rows, id, |rows| - 1)
  {
    forall j | 0 <= j < |rows| - 1 && rows[j].actorId == id ensures rows[j].createdAt < rows[|rows| - 1].createdAt {
      assert rows[..|rows| - 1][j] == rows[j];
    }
  }

  /** The latest of an actor's own rows is its newest row in the table. */
  lemma {:induction false} LatestIsNewest(rows: seq<Request>, id: ActorId) returns (i: nat)
    requires LatestRequest(RowsOf(rows, id)).Some?
    ensures IsNewestOf(rows, id, i) && LatestRequest(RowsOf(rows, id)) == Some(rows[i])
  {
    var n := |rows| - 1;
    LatestStep(rows, id);
    if LatestRequest(RowsOf(rows[..n], id)).None? {
      OnlyIsNewest(rows, id);
      i := n;
    } else {
      i := LatestIsNewest(rows[..n], id);
      if rows[n].actorId == id && rows[n].createdAt > rows[i].createdAt {
        LastIsNewest(rows, id, i);
        i := n;
      } else {
        NewestStays(rows, id, i);
      }
    }
  }

  lemma {:induction false} OnlyIsNewest(rows: seq<Request>, id: ActorId)
    requires rows != [] && rows[|rows| - 1].actorId == id && RowsOf(rows[..|rows| - 1], id) == []
    ensures IsNewestOf(rows, id, |rows| - 1)
  {
    NoRows(rows[..|rows| - 1], id);
    forall j | 0 <= j < |rows| - 1 ensures rows[j].actorId != id {
      assert rows[..|rows| - 1][j] == rows[j];
    }
  }

  lemma {:induction false} NoRows(rows: seq<Request>, id: ActorId)
    requires RowsOf(rows, id) == []
    ensures forall i :: 0 <= i < |rows| ==> rows[i].actorId != id
  {
    if rows != [] {
      NoRows(rows[..|rows| - 1], id);
    }
  }

  lemma {:induction false} RowsOfAnyPending(rows: seq<Request>, id: ActorId, now: int)
    ensures AnyPending(RowsOf(rows, id), now)
            <==> exists i :: 0 <= i < |rows| && rows[i].actorId == id && IsPending(rows[i], now)
  {
    if rows != [] {
      var n := |rows| - 1;
      var shorter := rows[..n];
      var earlier := RowsOf(shorter, id);
      RowsOfAnyPending(shorter, id, now);
      assert rows == shorter + [rows[n]];
      if rows[n].actorId == id {
        var all := RowsOf(rows, id);
        assert all == earlier + [rows[n]];
        if IsPending(rows[n], now) {
          assert IsPending(all[|earlier|], now);
        }
        if AnyPending(earlier, now) {
          var i :| 0 <= i < |earlier| && IsPending(earlier[i], now);
          assert IsPending(all[i], now);
        }
      }
    }
  }

  // ---- writes over the whole table -------------------------------------------

  /** `supersedePendingFor`: the pending rows of these actors become SUPERSEDED. */
  function SupersedeRow(r: Request, ids: set<ActorId>, now: int): Request {
    if r.actorId in ids
       && (r.status in {QUEUED, SENDING, FAILED}
           || (r.status == SENT && r.expiresAt.Some? && r.expiresAt.value > now))
    then r.(status := SUPERSEDED, supersededAt := Some(now))
    else r
  }

  function Supersede(rows: seq<Request>, ids: set<ActorId>, now: int): seq<Request> {
    seq(|rows|, i requires 0 <= i < |rows| => SupersedeRow(rows[i], ids, now))
  }

  /** The set supersession writes is the set eligibility calls pending, and it leaves none of it behind. */
  lemma {:induction false} SupersededSetIsPendingSet(r: Request, ids: set<ActorId>, now: int)
    ensures SupersedeRow(r, ids, now) != r <==> r.actorId in ids && IsPending(r, now)
    ensures r.actorId in ids ==> !IsPending(SupersedeRow(r, ids, now), now)
    ensures IsFinal(r, now) ==> SupersedeRow(r, ids, now) == r
  {
  }

  function SweepRow(r: Request, now: int): Request {
    if r.status == SENDING && r.claimedAt.Some? && r.claimedAt.value < now - STALE_CLAIM_THRESHOLD_MS
    then r.(status := FAILED, failureReason := Some(StaleClaim))
    else r
  }

  function Sweep(rows: seq<Request>, now: int): seq<Request> {
    seq(|rows|, i requires 0 <= i < |rows| => SweepRow(rows[i], now))
  }

  predicate RetryMoves(r: Request, batchId: Option<nat>) {
    r.status == FAILED && (batchId.Some? ==> r.batchId == batchId.value)
  }

  function RetryRow(r: Request, batchId: Option<nat>): Request {
    if RetryMoves(r, batchId) then r.(status := QUEUED, tokenHash := None) else r
  }

  function Retry(rows: seq<Request>, batchId: Option<nat>): seq<Request> {
    seq(|rows|, i requires 0 <= i < |rows| => RetryRow(rows[i], batchId))
  }
}
