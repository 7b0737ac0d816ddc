/** Dispatch accounting: how often a row is mailed, and which token a sent row holds. */
module ConsentDispatch {
  import opened Wrappers
  import opened ConsentTypes
  import opened ConsentRequests
  import opened ConsentProtocol
  import opened ConsentInvariants
  import opened ConsentHistory

  // ---- counting claims and mails ------------------------------------------------------

  function ClaimsOf(claims: seq<Claim>, row: nat): nat {
    if claims == [] then 0
    else ClaimsOf(claims[..|claims| - 1], row) + if claims[|claims| - 1].row == row then 1 else 0
  }

  function MailedClaimsOf(claims: seq<Claim>, row: nat): nat {
    if claims == [] then 0
    else
      var last := claims[|claims| - 1];
      MailedClaimsOf(claims[..|claims| - 1], row) + if last.row == row && last.mailed then 1 else 0
  }

  function MailsOf(mailbox: seq<Mail>, row: nat): nat {
    if mailbox == [] then 0
    else MailsOf(mailbox[..|mailbox| - 1], row) + if mailbox[|mailbox| - 1].row == row then 1 else 0
  }

  lemma {:induction false} MailedAtMostClaimed(claims: seq<Claim>, row: nat)
    ensures MailedClaimsOf(claims, row) <= ClaimsOf(claims, row)
  {
    if claims != [] {
      MailedAtMostClaimed(claims[..|claims| - 1], row);
    }
  }

  /** Moving one claim to another phase moves the counts by that claim alone. */
  lemma {:induction false} OneClaimMoved(claims: seq<Claim>, c: nat, moved: Claim, row: nat)
    requires c < |claims| && moved.row == claims[c].row
    requires claims[c].mailed ==> moved.mailed
    ensures ClaimsOf(claims[c := moved], row) == ClaimsOf(claims, row)
    ensures MailedClaimsOf(claims[c := moved], row)
            == MailedClaimsOf(claims, row) + if moved.row == row && moved.mailed && !claims[c].mailed then 1 else 0
  {
    var n := |claims| - 1;
    if c == n {
      assert claims[c := moved][..n] == claims[..n];
    } else {
      OneClaimMoved(claims[..n], c, moved, row);
      assert claims[c := moved][..n] == claims[..n][c := moved];
    }
  }

  lemma {:induction false} OneMoreClaim(claims: seq<Claim>, claim: Claim, row: nat)
    ensures ClaimsOf(claims + [claim], row) == ClaimsOf(claims, row) + if claim.row == row then 1 else 0
    ensures MailedClaimsOf(claims + [claim], row)
            == MailedClaimsOf(claims, row) + if claim.row == row && claim.mailed then 1 else 0
  {
    assert (claims + [claim])[..|claims|] == claims;
  }

  lemma {:induction false} OneMoreMail(mailbox: seq<Mail>, mail: Mail, row: nat)
    ensures MailsOf(mailbox + [mail], row) == MailsOf(mailbox, row) + if mail.row == row then 1 else 0
  {
    assert (mailbox + [mail])[..|mailbox|] == mailbox;
  }

  function AttemptsOf(s: State, row: nat): nat {
    if row < |s.requests| then s.requests[row].attempts else 0
  }

  predicate Accounted(s: State, row: nat) {
    && ClaimsOf(s.claims, row) == AttemptsOf(s, row)
    && MailedClaimsOf(s.claims, row) == MailsOf(s.mailbox, row)
  }

  /** Where a claim's mail has gone out is known from its phase. */
  predicate PhaseTellsMailed(c: Claim) {
    && (c.phase in {Claimed, Cleared, Ineligible} ==> !c.mailed)
    && (c.phase == MailAccepted || c.phase.MailRejected? || c.phase == Ended(Delivered) ==> c.mailed)
  }

  ghost predicate ClaimsWellFormed(s: State) {
    forall c :: 0 <= c < |s.claims| ==> s.claims[c].row < |s.requests| && PhaseTellsMailed(s.claims[c])
  }

  // ---- what one step does to one claim, one row, the mailbox ---------------------------

  /** A claim keeps who it is; it never unsends its mail and never leaves its end. */
  predicate SameClaim(c: Claim, c': Claim) {
    && c'.row == c.row && c'.token == c.token && c'.attempt == c.attempt && c'.claimedAt == c.claimedAt
    && (c.mailed ==> c'.mailed)
    && (c.phase.Ended? ==> c' == c)
    && (PhaseTellsMailed(c) ==> PhaseTellsMailed(c'))
  }

  lemma {:induction false} ConcludeOnClaim(s: State, d: nat, c: nat)
    requires c < |s.claims|
    ensures |ConcludeClaim(s, d).claims| == |s.claims| && SameClaim(s.claims[c], ConcludeClaim(s, d).claims[c])
  {
  }

  lemma {:induction false} StepOnClaim(s: State, step: Step, c: nat)
    requires c < |s.claims|
    ensures c < |Apply(s, step).claims|
    ensures SameClaim(s.claims[c], Apply(s, step).claims[c])
  {
    match step
    case Conclude(d) => ConcludeOnClaim(s, d, c);
    case Create(id, p) =>
      assert CreateActor(s, id, p).claims == s.claims;
    case Update(id, p) =>
      assert UpdateOne(s, id, p).claims == s.claims;
    case SetConsent(ids, b) =>
      assert BulkSetConsent(s, ids, b).claims == s.claims;
    case _ =>
  }

  lemma {:induction false} StepKeepsTable(s: State, step: Step)
    ensures |s.requests| <= |Apply(s, step).requests|
  {
  }

  /** A new claim is the one a successful compare-and-set out of QUEUED logs. */
  lemma {:induction false} StepAddsClaim(s: State, step: Step)
    ensures var s' := Apply(s, step);
            || |s'.claims| == |s.claims|
            || (step.ClaimRow? && step.row < |s.requests| && s.requests[step.row].status == QUEUED
                && s' == ClaimOne(s, step.row, step.token)
                && s'.claims == s.claims + [Claim(step.row, step.token, s.now, s.requests[step.row].attempts + 1,
                                                  false, Claimed)])
  {
  }

  /** A step that claims nothing leaves a row's attempts and claim time, and its hash unless it clears it. */
  predicate NoClaim(r: Request, r': Request) {
    && r'.attempts == r.attempts && r'.claimedAt == r.claimedAt
    && (r'.tokenHash == r.tokenHash || r'.tokenHash.None?)
  }

  lemma {:induction false} StepOnRow(s: State, step: Step, row: nat)
    requires row < |Apply(s, step).requests|
    ensures row < |s.requests| && !step.ClaimRow? ==> NoClaim(s.requests[row], Apply(s, step).requests[row])
    ensures row >= |s.requests| ==> JustQueued(Apply(s, step).requests[row])
  {
    match step
    case Enqueue(ids, scope, batchId, actingSub) => EnqueueOnRow(s, ids, scope, batchId, actingSub, row);
    case Conclude(c) => ConcludeOnRow(s, c, row);
    case Respond(token, accept, identified) => RespondOnRow(s, token, accept, identified, row);
    case _ =>
  }

  predicate JustQueued(r: Request) {
    r.status == QUEUED && r.attempts == 0 && r.tokenHash.None? && r.sentAt.None?
  }

  lemma {:induction false} ConcludeOnRow(s: State, c: nat, row: nat)
    requires row < |ConcludeClaim(s, c).requests|
    ensures row < |s.requests| && NoClaim(s.requests[row], ConcludeClaim(s, c).requests[row])
  {
  }

  lemma {:induction false} RespondOnRow(s: State, token: nat, accept: bool, identified: bool, row: nat)
    requires row < |RespondOnce(s, token, accept, identified).requests|
    ensures row < |s.requests| && NoClaim(s.requests[row], RespondOnce(s, token, accept, identified).requests[row])
  {
  }

  /** Mail leaves only in the hand-over of a cleared claim, one message to the row's recipient. */
  lemma {:induction false} StepOnMailbox(s: State, step: Step)
    ensures var s' := Apply(s, step);
            || s'.mailbox == s.mailbox
            || (step.HandOver? && InPhase(s, step.claim) && s.claims[step.claim].phase == Cleared
                && s'.claims[step.claim].mailed
                && s'.mailbox == s.mailbox + [Mail(step.claim, s.claims[step.claim].row,
                                                   s.requests[s.claims[step.claim].row].recipientEmail,
                                                   s.claims[step.claim].token)])
  {
  }

  /** A step moves at most one claim, and marks it mailed only when it hands its mail over. */
  lemma {:induction false} StepMovesOneClaim(s: State, step: Step)
    requires !step.ClaimRow?
    ensures var s' := Apply(s, step);
            || s'.claims == s.claims
            || ((step.Recheck? || step.HandOver? || step.Conclude?) && InPhase(s, step.claim)
                && s'.claims == s.claims[step.claim := s'.claims[step.claim]]
                && (s'.claims[step.claim].mailed <==> s.claims[step.claim].mailed || step.HandOver?)
                && (step.HandOver? ==> |s'.mailbox| == |s.mailbox| + 1))
  {
  }

  lemma {:induction false} StepKeepsWellFormedClaims(s: State, step: Step)
    requires ClaimsWellFormed(s)
    ensures ClaimsWellFormed(Apply(s, step))
  {
    var s' := Apply(s, step);
    StepAddsClaim(s, step);
    StepKeepsTable(s, step);
    forall c | 0 <= c < |s'.claims|
      ensures s'.claims[c].row < |s'.requests| && PhaseTellsMailed(s'.claims[c])
    {
      if c < |s.claims| {
        StepOnClaim(s, step, c);
      }
    }
  }

  lemma {:induction false} AttemptsMoveOnlyByClaims(s: State, step: Step, row: nat)
    ensures !step.ClaimRow? ==> AttemptsOf(Apply(s, step), row) == AttemptsOf(s, row)
  {
    if row < |Apply(s, step).requests| {
      StepOnRow(s, step, row);
    }
  }

  lemma {:induction false} ClaimKeepsAccounted(s: State, claimed: nat, token: nat, row: nat)
    requires Accounted(s, row)
    ensures Accounted(ClaimOne(s, claimed, token), row)
  {
    var s' := ClaimOne(s, claimed, token);
    if s' != s {
      OneMoreClaim(s.claims, s'.claims[|s.claims|], row);
    }
  }

  lemma {:induction false} StepKeepsAccounted(s: State, step: Step, row: nat)
    requires ClaimsWellFormed(s) && Accounted(s, row)
    ensures Accounted(Apply(s, step), row)
  {
    var s' := Apply(s, step);
    StepOnMailbox(s, step);
    if step.ClaimRow? {
      ClaimKeepsAccounted(s, step.row, step.token, row);
    } else {
      AttemptsMoveOnlyByClaims(s, step, row);
      StepMovesOneClaim(s, step);
      if s'.claims != s.claims {
        StepOnClaim(s, step, step.claim);
        OneClaimMoved(s.claims, step.claim, s'.claims[step.claim], row);
      }
      if s'.mailbox != s.mailbox {
        assert PhaseTellsMailed(s.claims[step.claim]);
        OneMoreMail(s.mailbox, s'.mailbox[|s.mailbox|], row);
      }
    }
  }

  /** How many retries in the run moved this row back to QUEUED. */
  function RetriesOf(start: State, steps: seq<Step>, row: nat): nat {
    if steps == [] then 0
    else
      var s := Run(start, steps[..|steps| - 1]);
      var last := steps[|steps| - 1];
      RetriesOf(start, steps[..|steps| - 1], row)
      + if last.RetryFailed? && row < |s.requests| && RetryMoves(s.requests[row], last.onlyBatch) then 1 else 0
  }

  /** Claims made, plus one while the row is waiting to be claimed. */
  function ClaimCredit(s: State, row: nat): nat {
    AttemptsOf(s, row) + if row < |s.requests| ==> s.requests[row].status == QUEUED then 1 else 0
  }

  lemma {:induction false} StepSpendsCredit(s: State, step: Step, row: nat)
    ensures ClaimCredit(Apply(s, step), row)
            <= ClaimCredit(s, row)
               + if step.RetryFailed? && row < |s.requests| && RetryMoves(s.requests[row], step.onlyBatch) then 1 else 0
  {
    AttemptsMoveOnlyByClaims(s, step, row);
    if step.Enqueue? && row < |Apply(s, step).requests| {
      EnqueueOnRow(s, step.ids, step.scope, step.batchId, step.actingSub, row);
    }
  }

  lemma {:induction false} RunIsAccounted(start: State, steps: seq<Step>, row: nat)
    requires Initial(start)
    ensures ClaimsWellFormed(Run(start, steps)) && Accounted(Run(start, steps), row)
    ensures ClaimCredit(Run(start, steps), row) <= 1 + RetriesOf(start, steps, row)
  {
    if steps != [] {
      var shorter := steps[..|steps| - 1];
      var s := Run(start, shorter);
      RunIsAccounted(start, shorter, row);
      StepKeepsWellFormedClaims(s, steps[|steps| - 1]);
      StepKeepsAccounted(s, steps[|steps| - 1], row);
      StepSpendsCredit(s, steps[|steps| - 1], row);
    }
  }

  /** With any number of dispatchers: mails handed over <= attempts = claims <= 1 + retries of that row. */
  lemma {:induction false} DispatchAccounting(start: State, steps: seq<Step>, row: nat)
    requires Initial(start) && row < |Run(start, steps).requests|
    ensures var s := Run(start, steps);
            MailsOf(s.mailbox, row) <= ClaimsOf(s.claims, row) == s.requests[row].attempts
            <= 1 + RetriesOf(start, steps, row)
  {
    RunIsAccounted(start, steps, row);
    MailedAtMostClaimed(Run(start, steps).claims, row);
  }

  // ---- tokens -----------------------------------------------------------------------

  /** The claim whose token hash the row stores: the row's latest one. */
  predicate MintedFor(s: State, c: nat, row: nat) {
    && c < |s.claims| && row < |s.requests|
    && s.claims[c].row == row
    && s.claims[c].attempt == s.requests[row].attempts
    && s.requests[row].tokenHash == Some(HashOf(s.claims[c].token))
    && s.requests[row].claimedAt == Some(s.claims[c].claimedAt)
  }

  ghost predicate TokensWellFormed(s: State) {
    ClaimsWellFormed(s) && ClaimsOrdered(s) && HashesMinted(s)
  }

  /** Tokens are minted once each, and a row's claims count its attempts upwards. */
  ghost predicate ClaimsOrdered(s: State)
    requires ClaimsWellFormed(s)
  {
    && (forall c, d :: 0 <= c < d < |s.claims| ==> s.claims[c].token != s.claims[d].token)
    && (forall c, d :: 0 <= c < d < |s.claims| && s.claims[c].row == s.claims[d].row ==>
                         s.claims[c].attempt < s.claims[d].attempt)
    && (forall c :: 0 <= c < |s.claims| ==> s.claims[c].attempt <= s.requests[s.claims[c].row].attempts)
  }

  ghost predicate HashesMinted(s: State) {
    forall row :: 0 <= row < |s.requests| && s.requests[row].tokenHash.Some? ==> exists c: nat :: MintedFor(s, c, row)
  }

  /** A step that mints nothing keeps every hash that remains the hash of the row's latest claim. */
  lemma {:induction false} QuietStepKeepsTokens(s: State, s': State)
    requires TokensWellFormed(s) && ClaimsWellFormed(s')
    requires |s'.claims| == |s.claims| && |s.requests| <= |s'.requests|
    requires forall c :: 0 <= c < |s.claims| ==> SameClaim(s.claims[c], s'.claims[c])
    requires forall i :: 0 <= i < |s.requests| ==> NoClaim(s.requests[i], s'.requests[i])
    requires forall i :: |s.requests| <= i < |s'.requests| ==> s'.requests[i].tokenHash.None?
    ensures TokensWellFormed(s')
  {
    forall row | 0 <= row < |s'.requests| && s'.requests[row].tokenHash.Some?
      ensures exists c: nat :: MintedFor(s', c, row)
    {
      var c: nat :| MintedFor(s, c, row);
      assert MintedFor(s', c, row);
    }
  }

  lemma {:induction false} ClaimKeepsTokens(s: State, row: nat, token: nat)
    requires TokensWellFormed(s)
    ensures TokensWellFormed(ClaimOne(s, row, token))
  {
    StepKeepsWellFormedClaims(s, ClaimRow(row, token));
    ClaimKeepsOrder(s, row, token);
    ClaimKeepsHashes(s, row, token);
  }

  lemma {:induction false} ClaimKeepsOrder(s: State, row: nat, token: nat)
    requires ClaimsWellFormed(s) && ClaimsOrdered(s) && ClaimsWellFormed(ClaimOne(s, row, token))
    ensures ClaimsOrdered(ClaimOne(s, row, token))
  {
  }

  lemma {:induction false} ClaimKeepsHashes(s: State, row: nat, token: nat)
    requires HashesMinted(s)
    ensures HashesMinted(ClaimOne(s, row, token))
  {
    var s' := ClaimOne(s, row, token);
    if s' != s {
      forall other | 0 <= other < |s'.requests| && s'.requests[other].tokenHash.Some?
        ensures exists c: nat :: MintedFor(s', c, other)
      {
        if other == row {
          assert MintedFor(s', |s.claims|, other);
        } else {
          var c: nat :| MintedFor(s, c, other);
          assert MintedFor(s', c, other);
        }
      }
    }
  }

  lemma {:induction false} StepKeepsTokens(s: State, step: Step)
    requires TokensWellFormed(s)
    ensures TokensWellFormed(Apply(s, step))
  {
    var s' := Apply(s, step);
    StepKeepsWellFormedClaims(s, step);
    if step.ClaimRow? {
      ClaimKeepsTokens(s, step.row, step.token);
    } else {
      StepAddsClaim(s, step);
      StepKeepsTable(s, step);
      forall c | 0 <= c < |s.claims|
        ensures SameClaim(s.claims[c], s'.claims[c])
      {
        StepOnClaim(s, step, c);
      }
      forall i | 0 <= i < |s'.requests|
        ensures i < |s.requests| ==> NoClaim(s.requests[i], s'.requests[i])
        ensures i >= |s.requests| ==> s'.requests[i].tokenHash.None?
      {
        StepOnRow(s, step, i);
      }
      QuietStepKeepsTokens(s, s');
    }
  }

  lemma {:induction false} RunKeepsTokens(start: State, steps: seq<Step>)
    requires Initial(start)
    ensures TokensWellFormed(Run(start, steps))
  {
    if steps != [] {
      RunKeepsTokens(start, steps[..|steps| - 1]);
      StepKeepsTokens(Run(start, steps[..|steps| - 1]), steps[|steps| - 1]);
    }
  }

  /** A token names at most one row, so looking up an answer by its hash is unambiguous. */
  lemma {:induction false} TokenNamesOneRow(s: State, i: nat, j: nat)
    requires Reachable(s)
    requires i < |s.requests| && j < |s.requests|
    requires s.requests[i].tokenHash.Some? && s.requests[i].tokenHash == s.requests[j].tokenHash
    ensures i == j
  {
    var start, steps :| Initial(start) && s == Run(start, steps);
    RunKeepsTokens(start, steps);
    var c: nat :| MintedFor(s, c, i);
    var d: nat :| MintedFor(s, d, j);
  }

  /**
   * When a claimant writes SENT, the row's hash is the hash of the token it mailed exactly
   * when nobody has claimed the row since: its attempt number is still the row's.
   */
  lemma {:induction false} SentHashMatchesExactlyWhenLatest(s: State, c: nat)
    requires Reachable(s)
    requires InPhase(s, c) && s.claims[c].phase == MailAccepted
    requires s.requests[s.claims[c].row].status == SENDING
    ensures var row := s.claims[c].row;
            var s' := ConcludeClaim(s, c);
            && s'.requests[row].status == SENT
            && (s'.requests[row].tokenHash == Some(HashOf(s.claims[c].token))
                <==> s.requests[row].attempts == s.claims[c].attempt)
  {
    var start, steps :| Initial(start) && s == Run(start, steps);
    RunKeepsTokens(start, steps);
    RunKeepsInv(start, steps);
    var row := s.claims[c].row;
    assert WellDated(s.requests[row]);
    var d: nat :| MintedFor(s, d, row);
    assert s.claims[c].attempt < s.claims[d].attempt || s.claims[d].attempt < s.claims[c].attempt || c == d;
  }

  // ---- runs in which no claimant outlives the threshold --------------------------------

  /** A claimant's last write comes within the two minutes after which its claim may be swept. */
  predicate Timely(s: State, step: Step) {
    step.Conclude? && step.claim < |s.claims| ==> s.now <= s.claims[step.claim].claimedAt + STALE_CLAIM_THRESHOLD_MS
  }

  ghost predicate TimelyRun(start: State, steps: seq<Step>) {
    forall k :: 0 <= k < |steps| ==> Timely(Run(start, steps[..k]), steps[k])
  }

  predicate StillOwns(s: State, c: nat)
    requires c < |s.claims| && s.claims[c].row < |s.requests|
  {
    var r := s.requests[s.claims[c].row];
    || r.status == SUPERSEDED
    || (r.status == SENDING
        && r.tokenHash == Some(HashOf(s.claims[c].token)) && r.claimedAt == Some(s.claims[c].claimedAt))
  }

  /** While its two minutes last, an unfinished claimant owns the SENDING row unless it was superseded. */
  ghost predicate LiveClaimsOwn(s: State)
    requires ClaimsWellFormed(s)
  {
    forall c | 0 <= c < |s.claims| && !s.claims[c].phase.Ended?
               && s.now <= s.claims[c].claimedAt + STALE_CLAIM_THRESHOLD_MS
      :: StillOwns(s, c)
  }

  /** The claim that wrote SENT handed over the very token the row's hash is of. */
  predicate SentBy(s: State, c: nat, row: nat) {
    && c < |s.claims| && row < |s.requests|
    && s.claims[c].row == row && s.claims[c].phase == Ended(Delivered)
    && s.requests[row].tokenHash == Some(HashOf(s.claims[c].token))
  }

  ghost predicate SentRowsHoldMailedToken(s: State) {
    forall row :: 0 <= row < |s.requests| && s.requests[row].sentAt.Some? ==> exists c: nat :: SentBy(s, c, row)
  }

  ghost predicate MailedClaimsInMailbox(s: State)
    requires ClaimsWellFormed(s)
  {
    forall c :: 0 <= c < |s.claims| && s.claims[c].mailed ==>
      Mail(c, s.claims[c].row, s.requests[s.claims[c].row].recipientEmail, s.claims[c].token) in s.mailbox
  }

  ghost predicate TimelyInv(s: State) {
    && Inv(s) && TokensWellFormed(s)
    && LiveClaimsOwn(s) && SentRowsHoldMailedToken(s) && MailedClaimsInMailbox(s)
  }

  /** A SENDING row whose claim has not outlived the threshold keeps its claim unless it is superseded. */
  lemma {:induction false} SendingRowSurvives(s: State, step: Step, row: nat, claimedAt: int)
    requires row < |s.requests| && s.requests[row].status == SENDING
    requires s.requests[row].claimedAt == Some(claimedAt)
    requires Apply(s, step).now <= claimedAt + STALE_CLAIM_THRESHOLD_MS
    requires step.Conclude? && InPhase(s, step.claim) && s.claims[step.claim].row == row ==>
               s.claims[step.claim].phase.Ended?
    ensures row < |Apply(s, step).requests|
    ensures var r' := Apply(s, step).requests[row];
            || r'.status == SUPERSEDED
            || (r'.status == SENDING
                && r'.tokenHash == s.requests[row].tokenHash && r'.claimedAt == Some(claimedAt))
  {
    match step
    case Enqueue(ids, scope, batchId, actingSub) => EnqueueOnRow(s, ids, scope, batchId, actingSub, row);
    case _ =>
  }

  lemma {:induction false} LiveClaimSurvives(s: State, step: Step, c: nat)
    requires TokensWellFormed(s) && LiveClaimsOwn(s) && Timely(s, step)
    requires c < |s.claims| && !s.claims[c].phase.Ended? && StillOwns(s, c)
    requires step != Conclude(c)
    requires Apply(s, step).now <= s.claims[c].claimedAt + STALE_CLAIM_THRESHOLD_MS
    ensures s.claims[c].row < |Apply(s, step).requests|
    ensures var r' := Apply(s, step).requests[s.claims[c].row];
            || r'.status == SUPERSEDED
            || (r'.status == SENDING
                && r'.tokenHash == Some(HashOf(s.claims[c].token)) && r'.claimedAt == Some(s.claims[c].claimedAt))
  {
    var row := s.claims[c].row;
    if s.requests[row].status == SUPERSEDED {
      StepKeepsFinalRow(s, step, row);
    } else {
      if step.Conclude? && step.claim != c && InPhase(s, step.claim)
         && s.claims[step.claim].row == row && !s.claims[step.claim].phase.Ended? {
        assert false;  // its claimant is within its time as well, so both tokens would be the row's
      }
      SendingRowSurvives(s, step, row, s.claims[c].claimedAt);
    }
  }

  lemma {:induction false} StepKeepsLiveClaims(s: State, step: Step)
    requires TokensWellFormed(s) && LiveClaimsOwn(s) && Timely(s, step)
    requires ClaimsWellFormed(Apply(s, step))
    ensures LiveClaimsOwn(Apply(s, step))
  {
    var s' := Apply(s, step);
    StepAddsClaim(s, step);
    forall c | 0 <= c < |s'.claims| && !s'.claims[c].phase.Ended?
               && s'.now <= s'.claims[c].claimedAt + STALE_CLAIM_THRESHOLD_MS
      ensures StillOwns(s', c)
    {
      if c < |s.claims| {
        StepOnClaim(s, step, c);
        assert s.now <= s'.now;
        assert StillOwns(s, c);
        if step != Conclude(c) {
          LiveClaimSurvives(s, step, c);
        } else {
          ConcludeKeepsEarlyClaim(s, c);
        }
      }
    }
  }

  lemma {:induction false} ConcludeKeepsEarlyClaim(s: State, c: nat)
    requires c < |s.claims| && !ConcludeClaim(s, c).claims[c].phase.Ended?
    ensures ConcludeClaim(s, c) == s
  {
  }

  lemma {:induction false} SentRowKeepsHash(s: State, step: Step, row: nat)
    requires row < |s.requests| && s.requests[row].sentAt.Some? && WellDated(s.requests[row])
    ensures row < |Apply(s, step).requests| && Apply(s, step).requests[row].tokenHash == s.requests[row].tokenHash
  {
    match step
    case Enqueue(ids, scope, batchId, actingSub) => EnqueueOnRow(s, ids, scope, batchId, actingSub, row);
    case _ =>
  }

  /** SENT is written only by a claimant whose mail was accepted, over a SENDING row. */
  lemma {:induction false} SentOnlyByConclude(s: State, step: Step, row: nat)
    requires row < |Apply(s, step).requests| && Apply(s, step).requests[row].sentAt.Some?
    requires row < |s.requests| ==> s.requests[row].sentAt.None?
    ensures step.Conclude? && InPhase(s, step.claim) && s.claims[step.claim].row == row
    ensures s.claims[step.claim].phase == MailAccepted && s.requests[row].status == SENDING
    ensures Apply(s, step).claims[step.claim].phase == Ended(Delivered)
    ensures Apply(s, step).requests[row].tokenHash == s.requests[row].tokenHash
  {
    if row >= |s.requests| {
      StepOnRow(s, step, row);
    }
    match step
    case _ =>
  }

  lemma {:induction false} StepKeepsSentTokens(s: State, step: Step)
    requires AllWellDated(s.requests) && TokensWellFormed(s) && LiveClaimsOwn(s) && SentRowsHoldMailedToken(s)
    requires Timely(s, step)
    ensures SentRowsHoldMailedToken(Apply(s, step))
  {
    var s' := Apply(s, step);
    forall row | 0 <= row < |s'.requests| && s'.requests[row].sentAt.Some?
      ensures exists c: nat :: SentBy(s', c, row)
    {
      if row < |s.requests| && s.requests[row].sentAt.Some? {
        var c: nat :| SentBy(s, c, row);
        SentRowKeepsHash(s, step, row);
        StepOnClaim(s, step, c);
        assert SentBy(s', c, row);
      } else {
        SentOnlyByConclude(s, step, row);
        StepOnClaim(s, step, step.claim);
        assert StillOwns(s, step.claim);
        assert SentBy(s', step.claim, row);
      }
    }
  }

  lemma {:induction false} StepKeepsMailbox(s: State, step: Step)
    requires ClaimsWellFormed(s) && MailedClaimsInMailbox(s) && ClaimsWellFormed(Apply(s, step))
    ensures MailedClaimsInMailbox(Apply(s, step))
  {
    var s' := Apply(s, step);
    StepAddsClaim(s, step);
    StepOnMailbox(s, step);
    if !step.ClaimRow? {
      StepMovesOneClaim(s, step);
    }
    forall c | 0 <= c < |s'.claims| && s'.claims[c].mailed
      ensures Mail(c, s'.claims[c].row, s'.requests[s'.claims[c].row].recipientEmail, s'.claims[c].token) in s'.mailbox
    {
      StepOnClaim(s, step, c);
      var row := s.claims[c].row;
      StepKeepsFinalRow(s, step, row);
      var mail := Mail(c, row, s.requests[row].recipientEmail, s.claims[c].token);
      if s.claims[c].mailed {
        assert mail in s.mailbox;
      } else {
        assert s'.mailbox[|s.mailbox|] == mail;
      }
    }
  }

  lemma {:induction false} TimelyRunKeepsInv(start: State, steps: seq<Step>)
    requires Initial(start) && TimelyRun(start, steps)
    ensures TimelyInv(Run(start, steps))
  {
    if steps != [] {
      var n := |steps| - 1;
      var s := Run(start, steps[..n]);
      forall k | 0 <= k < n
        ensures Timely(Run(start, steps[..n][..k]), steps[..n][k])
      {
        assert steps[..n][..k] == steps[..k];
      }
      TimelyRunKeepsInv(start, steps[..n]);
      assert Timely(s, steps[n]);
      StepKeepsInv(s, steps[n]);
      StepKeepsTokens(s, steps[n]);
      StepKeepsLiveClaims(s, steps[n]);
      StepKeepsSentTokens(s, steps[n]);
      StepKeepsMailbox(s, steps[n]);
    }
  }

  /** If no claimant acts past its two minutes, every SENT row stores the hash of a token that was mailed to its recipient. */
  lemma {:induction false} TimelySentRowHoldsMailedToken(start: State, steps: seq<Step>, row: nat)
    requires Initial(start) && TimelyRun(start, steps)
    requires row < |Run(start, steps).requests| && Run(start, steps).requests[row].status == SENT
    ensures var s := Run(start, steps);
            exists c: nat :: SentBy(s, c, row)
                             && Mail(c, row, s.requests[row].recipientEmail, s.claims[c].token) in s.mailbox
  {
    TimelyRunKeepsInv(start, steps);
    SentTokenWasMailed(Run(start, steps), row);
  }

  lemma {:induction false} SentTokenWasMailed(s: State, row: nat)
    requires TimelyInv(s) && row < |s.requests| && s.requests[row].status == SENT
    ensures exists c: nat :: SentBy(s, c, row)
                             && Mail(c, row, s.requests[row].recipientEmail, s.claims[c].token) in s.mailbox
  {
    assert WellDated(s.requests[row]);
    var c: nat :| SentBy(s, c, row);
    assert PhaseTellsMailed(s.claims[c]);
  }

  // ---- a claim that failed its re-check ---------------------------------------------------

  ghost predicate RowIsFinal(s: State, c: nat) {
    InPhase(s, c) && IsFinal(s.requests[s.claims[c].row], s.now)
  }

  ghost predicate IneligibleRowsAreFinal(s: State) {
    forall c :: 0 <= c < |s.claims| && s.claims[c].phase == Ineligible ==> RowIsFinal(s, c)
  }

  lemma {:induction false} ConcludeMakesNoIneligible(s: State, d: nat, c: nat)
    requires c < |s.claims| && s.claims[c].phase != Ineligible
    ensures |ConcludeClaim(s, d).claims| == |s.claims| && ConcludeClaim(s, d).claims[c].phase != Ineligible
  {
  }

  /** Only the re-check of its own actor makes a claim ineligible. */
  lemma {:induction false} BecomesIneligible(s: State, step: Step, c: nat)
    requires c < |Apply(s, step).claims| && Apply(s, step).claims[c].phase == Ineligible
    ensures c < |s.claims| && (s.claims[c].phase == Ineligible || step == Recheck(c))
  {
    StepAddsClaim(s, step);
    match step
    case Conclude(d) =>
      if c < |s.claims| && s.claims[c].phase != Ineligible {
        ConcludeMakesNoIneligible(s, d, c);
      }
    case Create(id, p) =>
      assert CreateActor(s, id, p).claims == s.claims;
    case Update(id, p) =>
      assert UpdateOne(s, id, p).claims == s.claims;
    case SetConsent(ids, b) =>
      assert BulkSetConsent(s, ids, b).claims == s.claims;
    case _ =>
  }

  /** A pending row passes the re-check, so a row that fails it has been withdrawn, answered or has expired. */
  lemma {:induction false} RecheckFailsOnFinalRow(s: State, c: nat)
    requires Inv(s) && InPhase(s, c) && s.claims[c].phase == Claimed
    ensures RecheckClaim(s, c).claims[c].phase == Ineligible ==> RowIsFinal(RecheckClaim(s, c), c)
  {
    var r := s.requests[s.claims[c].row];
    assert WellDated(r);
    if IsPending(r, s.now) {
      assert AsksCurrentActor(r, s.actors);
    }
  }

  lemma {:induction false} StepKeepsIneligibleFinal(s: State, step: Step)
    requires Inv(s) && IneligibleRowsAreFinal(s)
    ensures IneligibleRowsAreFinal(Apply(s, step))
  {
    var s' := Apply(s, step);
    forall c | 0 <= c < |s'.claims| && s'.claims[c].phase == Ineligible ensures RowIsFinal(s', c) {
      BecomesIneligible(s, step, c);
      if s.claims[c].phase == Ineligible {
        assert RowIsFinal(s, c);
        StepOnClaim(s, step, c);
        StepKeepsFinalRow(s, step, s.claims[c].row);
      } else {
        RecheckFailsOnFinalRow(s, c);
      }
    }
  }

  /**
   * In every run, late claimants included, the row of a claim that failed its re-check is final
   * already: the guarded write to SUPERSEDED that follows changes no row.
   */
  lemma {:induction false} IneligibleClaimWritesNothing(start: State, steps: seq<Step>, c: nat)
    requires Initial(start) && c < |Run(start, steps).claims| && Run(start, steps).claims[c].phase == Ineligible
    ensures RowIsFinal(Run(start, steps), c)
    ensures Apply(Run(start, steps), Conclude(c)).requests == Run(start, steps).requests
  {
    RunKeepsIneligibleFinal(start, steps);
    assert RowIsFinal(Run(start, steps), c);
  }

  lemma {:induction false} RunKeepsIneligibleFinal(start: State, steps: seq<Step>)
    requires Initial(start)
    ensures IneligibleRowsAreFinal(Run(start, steps))
  {
    if steps != [] {
      var n := |steps| - 1;
      RunKeepsIneligibleFinal(start, steps[..n]);
      RunKeepsInv(start, steps[..n]);
      StepKeepsIneligibleFinal(Run(start, steps[..n]), steps[n]);
    }
  }

  // ---- the run the assumption rules out --------------------------------------------------

  /** One ungranted actor, and no request yet. */
  const Stage0 := State(map["a" := Actor(Some("a@b"), UNKNOWN, NOT_RECORDED, None, None)], [], [], 0, [], [])

  /** Its one request in a given status, as the stages of the run leave it. */
  function Row(status: RequestStatus, now: int, attempts: nat, token: Option<nat>): Request {
    Request("a", 0, "a@b", "admin", status, 0, if attempts == 0 then None else Some(now), None, None, attempts,
            if token.Some? then Some(HashOf(token.value)) else None, None, None, None)
  }

  const LATE := STALE_CLAIM_THRESHOLD_MS + 1
  const Stage1 := Stage0.(requests := [Row(QUEUED, 0, 0, None)])
  const Stage2 := Stage1.(requests := [Row(SENDING, 0, 1, Some(1))], claims := [Claim(0, 1, 0, 1, false, Claimed)])
  const Stage3 := Stage2.(claims := [Claim(0, 1, 0, 1, false, Cleared)])
  const Stage4 := Stage3.(claims := [Claim(0, 1, 0, 1, true, MailAccepted)], mailbox := [Mail(0, 0, "a@b", 1)])
  const Stage5 := Stage4.(now := LATE)
  const Stage6 := Stage5.(requests := [Row(FAILED, 0, 1, Some(1)).(failureReason := Some(StaleClaim))])
  const Stage7 := Stage6.(requests := [Row(QUEUED, 0, 1, None).(failureReason := Some(StaleClaim))])
  const Stage8 := Stage7.(
    requests := [Row(SENDING, LATE, 2, Some(2)).(failureReason := Some(StaleClaim))],
    claims := Stage7.claims + [Claim(0, 2, LATE, 2, false, Claimed)])

  /** In a state without requests, an enqueue for one eligible actor writes its request. */
  lemma {:induction false} EnqueueOne(s: State, id: ActorId, batchId: nat, actingSub: string)
    requires s.requests == [] && id in s.actors && HasEmail(s.actors[id])
    requires Found([id], s.actors) == [id] && EligibleOf(s, [id], Bulk) == [id]
    ensures EnqueueRequests(s, [id], Bulk, batchId, actingSub)
            == s.(requests := [NewRequest(id, s.actors[id], batchId, actingSub, s.now)])
  {
    var created := CreatedRequests(s, [id], batchId, actingSub);
    assert created == [NewRequest(id, s.actors[id], batchId, actingSub, s.now)];
    assert KeptRequests(s, [id], Bulk) == [];
  }

  lemma {:induction false} StageTargets(id: ActorId)
    requires id == "a"
    ensures Found([id], Stage0.actors) == [id] && EligibleOf(Stage0, [id], Bulk) == [id]
  {
    assert [id][..0] == [];
    assert Found([], Stage0.actors) == [];
    assert IsEligible(Stage0, id, Bulk);
  }

  lemma {:induction false} StageEnqueued(s: State, id: ActorId, actingSub: string)
    requires s == Stage0 && id == "a" && actingSub == "admin"
    ensures Apply(s, Enqueue([id], Bulk, 0, actingSub)) == Stage1
  {
    StageTargets(id);
    EnqueueOne(s, id, 0, actingSub);
  }

  lemma {:induction false} StageMailed()
    ensures Apply(Stage1, ClaimRow(0, 1)) == Stage2
    ensures Apply(Stage2, Recheck(0)) == Stage3
    ensures Apply(Stage3, HandOver(0, None)) == Stage4
  {
  }

  lemma {:induction false} StageReclaimed()
    ensures Apply(Stage4, Tick(LATE)) == Stage5
    ensures Apply(Stage5, SweepStale) == Stage6
    ensures Apply(Stage6, RetryFailed(None)) == Stage7
    ensures Apply(Stage7, ClaimRow(0, 2)) == Stage8
  {
  }

  /** The first claimant is slow: swept, retried and re-claimed before it writes its result. */
  const LateClaimant: seq<Step> := [
    Enqueue(["a"], Bulk, 0, "admin"), ClaimRow(0, 1), Recheck(0), HandOver(0, None),
    Tick(LATE), SweepStale, RetryFailed(None), ClaimRow(0, 2), Conclude(0)]

  lemma {:induction false} RunThrough(stages: seq<State>, steps: seq<Step>)
    requires |stages| == |steps| + 1
    requires forall k :: 0 <= k < |steps| ==> Apply(stages[k], steps[k]) == stages[k + 1]
    ensures Run(stages[0], steps) == stages[|steps|]
  {
    if steps != [] {
      RunThrough(stages[..|steps|], steps[..|steps| - 1]);
    }
  }

  lemma {:induction false} LateClaimantReachesStage8()
    ensures Run(Stage0, LateClaimant[..8]) == Stage8
  {
    StageEnqueued(Stage0, "a", "admin");
    StageMailed();
    StageReclaimed();
    RunThrough([Stage0, Stage1, Stage2, Stage3, Stage4, Stage5, Stage6, Stage7, Stage8], LateClaimant[..8]);
  }

  /** Without the assumption a row can be SENT under a token nobody was ever mailed. */
  lemma {:induction false} LateClaimantLeavesUnmailedToken()
    ensures Initial(Stage0)
    ensures var s := Run(Stage0, LateClaimant);
            && |s.requests| == 1 && s.requests[0].status == SENT
            && s.requests[0].tokenHash == Some(HashOf(2))
            && s.mailbox == [Mail(0, 0, "a@b", 1)]
  {
    LateClaimantReachesStage8();
  }

  // ---- one answer per token -------------------------------------------------------------

  /** How many answers with this token were taken in the run. */
  function AnswersTaken(start: State, steps: seq<Step>, token: nat): nat {
    if steps == [] then 0
    else
      var s := Run(start, steps[..|steps| - 1]);
      var last := steps[|steps| - 1];
      AnswersTaken(start, steps[..|steps| - 1], token)
      + if last.Respond? && last.token == token && Answerable(s, token, last.accept, last.identified).Some?
        then 1 else 0
  }

  predicate AnsweredUnder(s: State, token: nat, row: nat) {
    && row < |s.requests| && s.requests[row].tokenHash == Some(HashOf(token))
    && s.requests[row].status in {ACCEPTED, DECLINED}
  }

  /** However many people hold the link and however their answers interleave, at most one is taken. */
  lemma {:induction false} AtMostOneAnswerPerToken(start: State, steps: seq<Step>, token: nat)
    requires Initial(start)
    ensures AnswersTaken(start, steps, token) <= 1
    ensures AnswersTaken(start, steps, token) == 1 ==> exists row :: AnsweredUnder(Run(start, steps), token, row)
  {
    if steps != [] {
      var n := |steps| - 1;
      var s := Run(start, steps[..n]);
      var s' := Run(start, steps);
      AtMostOneAnswerPerToken(start, steps[..n], token);
      if AnswersTaken(start, steps[..n], token) == 1 {
        var row :| AnsweredUnder(s, token, row);
        StepKeepsFinalRow(s, steps[n], row);
        assert AnsweredUnder(s', token, row);
        var found := FindByToken(s.requests, HashOf(token));
        TokenNamesOneRow(s, row, found.value);
      } else if AnswersTaken(start, steps, token) == 1 {
        var row := Answerable(s, token, steps[n].accept, steps[n].identified).value;
        assert AnsweredUnder(s', token, row);
      }
    }
  }
}
