/** Email verification codes: the send budget, the guess budget, and single use. */
module Otp {
  import opened Wrappers

  const OTP_LIFETIME_MS: nat := 15 * 60 * 1000
  const OTP_MAX_ATTEMPTS: nat := 5
  const OTP_MAX_SENDS_PER_HOUR: nat := 3
  const OTP_SEND_WINDOW_MS: nat := 60 * 60 * 1000

  /** The keyed digest of a code; different codes have different digests. */
  datatype CodeHash = HashOf(code: string)

  datatype CodeRow = CodeRow(email: string, codeHash: CodeHash, expiresAt: int, attempts: nat, consumedAt: Option<int>)

  /** The two tables and the clock; a code is known by its row's index, an email is already normalized. */
  datatype State = State(rows: seq<CodeRow>, sends: map<(string, int), nat>, now: int)

  const Empty: State := State([], map[], 0)

  datatype Step =
    | Tick(ms: nat)
    | Issue(email: string, code: string, stored: bool)   // `stored` is false when the insert of the code fails
    | Verify(email: string, code: string)
    | Consume(id: nat)

  /** The fixed bucket of an instant: floor to a whole window. */
  function SendBudgetWindowStart(now: int): int {
    now / OTP_SEND_WINDOW_MS * OTP_SEND_WINDOW_MS
  }

  function SendsIn(s: State, email: string, window: int): nat {
    if (email, window) in s.sends then s.sends[(email, window)] else 0
  }

  /** This call's own position in its bucket. */
  function NewSends(s: State, email: string): nat {
    SendsIn(s, email, SendBudgetWindowStart(s.now)) + 1
  }

  predicate Accepted(s: State, email: string) {
    NewSends(s, email) <= OTP_MAX_SENDS_PER_HOUR
  }

  function NewCode(s: State, email: string, code: string): CodeRow {
    CodeRow(email, HashOf(code), s.now + OTP_LIFETIME_MS, 0, None)
  }

  /** Increment first, whatever the answer; then store a code only within the cap. */
  function OnIssue(s: State, email: string, code: string, stored: bool): State {
    var counted := s.(sends := s.sends[(email, SendBudgetWindowStart(s.now)) := NewSends(s, email)]);
    if Accepted(s, email) && stored then counted.(rows := s.rows + [NewCode(s, email, code)]) else counted
  }

  predicate Live(row: CodeRow, email: string, now: int) {
    row.email == email && row.consumedAt.None? && row.expiresAt > now
  }

  predicate MatchesCode(row: CodeRow, email: string, code: string, now: int) {
    Live(row, email, now) && row.attempts < OTP_MAX_ATTEMPTS && row.codeHash == HashOf(code)
  }

  /** The first live row under the cap with this code. */
  function FindMatch(rows: seq<CodeRow>, email: string, code: string, now: int): (r: Option<nat>)
    ensures r.Some? ==> r.value < |rows| && MatchesCode(rows[r.value], email, code, now)
                        && forall i | 0 <= i < r.value :: !MatchesCode(rows[i], email, code, now)
    ensures r.None? ==> forall i | 0 <= i < |rows| :: !MatchesCode(rows[i], email, code, now)
  {
    if rows == [] then None
    else
      var n := |rows| - 1;
      var earlier := FindMatch(rows[..n], email, code, now);
      if earlier.Some? then earlier else if MatchesCode(rows[n], email, code, now) then Some(n) else None
  }

  function Charged(row: CodeRow, email: string, now: int): CodeRow {
    if Live(row, email, now) then row.(attempts := row.attempts + 1) else row
  }

  /** A miss charges every live row of the email, those already at the cap included. */
  function Charge(rows: seq<CodeRow>, email: string, now: int): (r: seq<CodeRow>)
    ensures |r| == |rows| && forall i | 0 <= i < |rows| :: r[i] == Charged(rows[i], email, now)
  {
    seq(|rows|, i requires 0 <= i < |rows| => Charged(rows[i], email, now))
  }

  function OnVerify(s: State, email: string, code: string): State {
    if FindMatch(s.rows, email, code, s.now).Some? then s else s.(rows := Charge(s.rows, email, s.now))
  }

  predicate Consumable(s: State, id: nat) {
    id < |s.rows| && s.rows[id].consumedAt.None?
  }

  function OnConsume(s: State, id: nat): State {
    if Consumable(s, id) then s.(rows := s.rows[id := s.rows[id].(consumedAt := Some(s.now))]) else s
  }

  function Apply(s: State, step: Step): State {
    match step
    case Tick(ms) => s.(now := s.now + ms)
    case Issue(email, code, stored) => OnIssue(s, email, code, stored)
    case Verify(email, code) => OnVerify(s, email, code)
    case Consume(id) => OnConsume(s, id)
  }

  function Run(s: State, steps: seq<Step>): State {
    if steps == [] then s else Apply(Run(s, steps[..|steps| - 1]), steps[|steps| - 1])
  }

  // ---- what the steps do, over the stored rows -----------------------------------------------

  /** A row a guess may hit: this email's and code's, unconsumed, unexpired, fewer than five attempts. */
  predicate IsHit(row: CodeRow, email: string, code: string, now: int) {
    && row.email == email && row.codeHash.code == code
    && row.consumedAt.None? && now < row.expiresAt && row.attempts < 5
  }

  /** A guess matches the first row it hits and changes nothing; if it hits none, every live row of the email pays. */
  lemma {:induction false} GuessExactly(s: State, email: string, code: string)
    ensures var found := FindMatch(s.rows, email, code, s.now);
            && (found.Some? <==> exists i :: 0 <= i < |s.rows| && IsHit(s.rows[i], email, code, s.now))
            && (found.Some? ==> found.value < |s.rows| && IsHit(s.rows[found.value], email, code, s.now)
                                && forall i :: 0 <= i < found.value ==> !IsHit(s.rows[i], email, code, s.now))
            && (found.Some? ==> Apply(s, Verify(email, code)) == s)
            && (found.None? ==>
                  var s' := Apply(s, Verify(email, code));
                  && s' == s.(rows := s'.rows) && |s'.rows| == |s.rows|
                  && forall i :: 0 <= i < |s.rows| ==>
                       var row := s.rows[i];
                       s'.rows[i] == if row.email == email && row.consumedAt.None? && s.now < row.expiresAt
                                     then row.(attempts := row.attempts + 1) else row)
  {
    forall i | 0 <= i < |s.rows|
      ensures MatchesCode(s.rows[i], email, code, s.now) <==> IsHit(s.rows[i], email, code, s.now)
    {
    }
    var found := FindMatch(s.rows, email, code, s.now);
    if found.Some? {
      assert IsHit(s.rows[found.value], email, code, s.now);
    }
  }

  /**
   * A send counts in the bucket of its instant; if it is one of the first three and is stored, its
   * code is good for a quarter of an hour.
   */
  lemma {:induction false} IssueExactly(s: State, email: string, code: string, stored: bool)
    ensures var s', key := Apply(s, Issue(email, code, stored)), (email, SendBudgetWindowStart(s.now));
            var before := if key in s.sends then s.sends[key] else 0;
            && s'.now == s.now && s'.sends == s.sends[key := before + 1]
            && s'.rows == (if before < 3 && stored then s.rows + [CodeRow(email, HashOf(code), s.now + 900000, 0, None)]
                           else s.rows)
  {
  }

  /** The bucket of an instant is the whole hour it lies in. */
  lemma {:induction false} WindowHoldsInstant(now: int)
    ensures SendBudgetWindowStart(now) <= now < SendBudgetWindowStart(now) + 3600000
    ensures SendBudgetWindowStart(now) % 3600000 == 0
  {
  }

  /** Consuming marks an unconsumed row with the instant, once. */
  lemma {:induction false} ConsumeExactly(s: State, id: nat)
    ensures Apply(s, Consume(id))
            == if id < |s.rows| && s.rows[id].consumedAt.None?
               then s.(rows := s.rows[id := s.rows[id].(consumedAt := Some(s.now))]) else s
  {
  }

  // ---- codes never change but by a guess or their own consumption ------------------------

  /** What a step may do to an existing row: charge it while live, or consume it. */
  lemma {:induction false} StepOnCode(s: State, step: Step, id: nat)
    requires id < |s.rows|
    ensures |s.rows| <= |Apply(s, step).rows|
    ensures var before, after := s.rows[id], Apply(s, step).rows[id];
            && after.email == before.email && after.codeHash == before.codeHash && after.expiresAt == before.expiresAt
            && before.attempts <= after.attempts <= before.attempts + 1
            && (before.consumedAt.Some? ==> after == before)
            && (!step.Verify? ==> after.attempts == before.attempts)
            && (step.Issue? || step.Tick? ==> after == before)
    ensures Apply(s, step).now >= s.now
  {
  }

  predicate Dead(row: CodeRow, now: int) {
    row.attempts >= OTP_MAX_ATTEMPTS || row.consumedAt.Some? || row.expiresAt <= now
  }

  /** A code at the cap, consumed or expired stays so through every run, and no guess matches it again. */
  lemma {:induction false} DeadCodesStayDead(s: State, steps: seq<Step>, id: nat, email: string, code: string)
    requires id < |s.rows| && Dead(s.rows[id], s.now)
    ensures var after := Run(s, steps);
            id < |after.rows| && Dead(after.rows[id], after.now)
            && FindMatch(after.rows, email, code, after.now) != Some(id)
  {
    if steps != [] {
      var before := Run(s, steps[..|steps| - 1]);
      DeadCodesStayDead(s, steps[..|steps| - 1], id, email, code);
      StepOnCode(before, steps[|steps| - 1], id);
    }
  }

  /** Issuing a code leaves every other code as it was. */
  lemma {:induction false} IssueLeavesSiblings(s: State, email: string, code: string, stored: bool)
    ensures s.rows <= OnIssue(s, email, code, stored).rows
    ensures |OnIssue(s, email, code, stored).rows| <= |s.rows| + 1
  {
  }

  function ConsumedTimes(s: State, steps: seq<Step>, id: nat): nat {
    if steps == [] then 0
    else
      var shorter, last := steps[..|steps| - 1], steps[|steps| - 1];
      ConsumedTimes(s, shorter, id) + if last == Consume(id) && Consumable(Run(s, shorter), id) then 1 else 0
  }

  /** Consumption succeeds at most once a code, and exactly when the row says so. */
  lemma {:induction false} ConsumedAtMostOnce(steps: seq<Step>, id: nat)
    ensures ConsumedTimes(Empty, steps, id) <= 1
    ensures ConsumedTimes(Empty, steps, id) == 1
            <==> id < |Run(Empty, steps).rows| && Run(Empty, steps).rows[id].consumedAt.Some?
  {
    if steps != [] {
      var shorter, last := steps[..|steps| - 1], steps[|steps| - 1];
      ConsumedAtMostOnce(shorter, id);
      var s := Run(Empty, shorter);
      if id < |s.rows| {
        StepOnCode(s, last, id);
      }
    }
  }

  // ---- the guess budget ---------------------------------------------------------------------

  predicate Guessable(row: CodeRow, email: string, now: int) {
    Live(row, email, now) && row.attempts < OTP_MAX_ATTEMPTS
  }

  predicate SomeGuessable(rows: seq<CodeRow>, email: string, now: int) {
    exists i :: 0 <= i < |rows| && Guessable(rows[i], email, now)
  }

  /** A wrong guess made while some code of the email could still be guessed. */
  predicate IsCountedGuess(s: State, step: Step, email: string) {
    && step.Verify? && step.email == email
    && SomeGuessable(s.rows, email, s.now)
    && FindMatch(s.rows, email, step.code, s.now).None?
  }

  function WrongGuesses(s: State, steps: seq<Step>, email: string): nat {
    if steps == [] then 0
    else
      var shorter, last := steps[..|steps| - 1], steps[|steps| - 1];
      WrongGuesses(s, shorter, email) + if IsCountedGuess(Run(s, shorter), last, email) then 1 else 0
  }

  function CodesOf(rows: seq<CodeRow>, email: string): nat {
    if rows == [] then 0 else CodesOf(rows[..|rows| - 1], email) + if rows[|rows| - 1].email == email then 1 else 0
  }

  function Spent(row: CodeRow, email: string): nat {
    if row.email != email then 0 else if row.attempts < OTP_MAX_ATTEMPTS then row.attempts else OTP_MAX_ATTEMPTS
  }

  /** The attempts spent on an email's codes, each code's counted up to the cap. */
  function SpentOn(rows: seq<CodeRow>, email: string): nat {
    if rows == [] then 0 else SpentOn(rows[..|rows| - 1], email) + Spent(rows[|rows| - 1], email)
  }

  lemma {:induction false} SpentIsBounded(rows: seq<CodeRow>, email: string)
    ensures SpentOn(rows, email) <= OTP_MAX_ATTEMPTS * CodesOf(rows, email)
  {
    if rows != [] {
      SpentIsBounded(rows[..|rows| - 1], email);
    }
  }

  /** Rows that only gain attempts spend no less; one guessable row that gains one spends more. */
  lemma {:induction false} SpendingGrows(before: seq<CodeRow>, after: seq<CodeRow>, email: string)
    requires |before| <= |after|
    requires forall i | 0 <= i < |before| :: after[i].email == before[i].email && before[i].attempts <= after[i].attempts
    ensures SpentOn(before, email) <= SpentOn(after, email)
    ensures (exists i :: 0 <= i < |before| && before[i].email == email && before[i].attempts < OTP_MAX_ATTEMPTS
                         && before[i].attempts < after[i].attempts)
            ==> SpentOn(before, email) < SpentOn(after, email)
  {
    if |before| < |after| {
      SpendingGrows(before, after[..|after| - 1], email);
    } else if before != [] {
      SpendingGrows(before[..|before| - 1], after[..|after| - 1], email);
    }
  }

  lemma {:induction false} CountedGuessSpends(s: State, step: Step, email: string)
    requires IsCountedGuess(s, step, email)
    ensures SpentOn(s.rows, email) < SpentOn(Apply(s, step).rows, email)
  {
    var after := Charge(s.rows, email, s.now);
    var i :| 0 <= i < |s.rows| && Guessable(s.rows[i], email, s.now);
    assert after[i] == Charged(s.rows[i], email, s.now);
    SpendingGrows(s.rows, after, email);
  }

  lemma {:induction false} StepSpendsNoLess(s: State, step: Step, email: string)
    ensures SpentOn(s.rows, email) <= SpentOn(Apply(s, step).rows, email)
  {
    var after := Apply(s, step).rows;
    assert |s.rows| <= |after|;
    forall i | 0 <= i < |s.rows|
      ensures after[i].email == s.rows[i].email && s.rows[i].attempts <= after[i].attempts
    {
      StepOnCode(s, step, i);
    }
    SpendingGrows(s.rows, after, email);
  }

  lemma {:induction false} GuessesArePaidFor(steps: seq<Step>, email: string)
    ensures WrongGuesses(Empty, steps, email) <= SpentOn(Run(Empty, steps).rows, email)
  {
    if steps != [] {
      var shorter, last := steps[..|steps| - 1], steps[|steps| - 1];
      GuessesArePaidFor(shorter, email);
      StepSpendsNoLess(Run(Empty, shorter), last, email);
      if IsCountedGuess(Run(Empty, shorter), last, email) {
        CountedGuessSpends(Run(Empty, shorter), last, email);
      }
    }
  }

  /** Over every run: wrong guesses at an email, while anything could be guessed, number at most five a code. */
  lemma {:induction false} GuessBudget(steps: seq<Step>, email: string)
    ensures WrongGuesses(Empty, steps, email) <= 5 * CodesOf(Run(Empty, steps).rows, email)
  {
    GuessesArePaidFor(steps, email);
    SpentIsBounded(Run(Empty, steps).rows, email);
  }

  // ---- the send budget ------------------------------------------------------------------------

  predicate IsSend(s: State, step: Step, email: string, window: int) {
    step.Issue? && step.email == email && SendBudgetWindowStart(s.now) == window
  }

  /** Calls for this email in this bucket, and how many of them were accepted. */
  function SendCalls(steps: seq<Step>, email: string, window: int): nat {
    if steps == [] then 0
    else
      var shorter, last := steps[..|steps| - 1], steps[|steps| - 1];
      SendCalls(shorter, email, window) + if IsSend(Run(Empty, shorter), last, email, window) then 1 else 0
  }

  function AcceptedSends(steps: seq<Step>, email: string, window: int): nat {
    if steps == [] then 0
    else
      var shorter, last := steps[..|steps| - 1], steps[|steps| - 1];
      var s := Run(Empty, shorter);
      AcceptedSends(shorter, email, window) + if IsSend(s, last, email, window) && Accepted(s, email) then 1 else 0
  }

  lemma {:induction false} BucketCountsCalls(steps: seq<Step>, email: string, window: int)
    ensures SendsIn(Run(Empty, steps), email, window) == SendCalls(steps, email, window)
  {
    if steps != [] {
      BucketCountsCalls(steps[..|steps| - 1], email, window);
    }
  }

  /** Of the calls in a bucket, in any order and number, exactly the first three are accepted. */
  lemma {:induction false} ExactlyThreeAreAccepted(steps: seq<Step>, email: string, window: int)
    ensures AcceptedSends(steps, email, window)
            == if SendCalls(steps, email, window) < 3 then SendCalls(steps, email, window) else 3
  {
    if steps != [] {
      var shorter := steps[..|steps| - 1];
      ExactlyThreeAreAccepted(shorter, email, window);
      BucketCountsCalls(shorter, email, window);
    }
  }

  /** Accepted sends whose instant lies in a closed span. */
  function AcceptedBetween(steps: seq<Step>, email: string, from: int, to: int): nat {
    if steps == [] then 0
    else
      var shorter, last := steps[..|steps| - 1], steps[|steps| - 1];
      var s := Run(Empty, shorter);
      AcceptedBetween(shorter, email, from, to)
      + if last.Issue? && last.email == email && from <= s.now <= to && Accepted(s, email) then 1 else 0
  }

  /** A span no longer than a window meets its own start's bucket and the next one only. */
  lemma {:induction false} SpanMeetsTwoBuckets(from: int, to: int, t: int)
    requires from <= t <= to <= from + OTP_SEND_WINDOW_MS
    ensures SendBudgetWindowStart(t) == SendBudgetWindowStart(from)
            || SendBudgetWindowStart(t) == SendBudgetWindowStart(from) + OTP_SEND_WINDOW_MS
  {
    var k, m := from / OTP_SEND_WINDOW_MS, t / OTP_SEND_WINDOW_MS;
    assert k <= m <= k + 1;
  }

  lemma {:induction false} SpanWithinBuckets(steps: seq<Step>, email: string, from: int, to: int)
    requires to <= from + OTP_SEND_WINDOW_MS
    ensures var w := SendBudgetWindowStart(from);
            AcceptedBetween(steps, email, from, to)
            <= AcceptedSends(steps, email, w) + AcceptedSends(steps, email, w + OTP_SEND_WINDOW_MS)
  {
    if steps != [] {
      var shorter := steps[..|steps| - 1];
      SpanWithinBuckets(shorter, email, from, to);
      var now := Run(Empty, shorter).now;
      if from <= now <= to {
        SpanMeetsTwoBuckets(from, to, now);
      }
    }
  }

  /** In every run, any sixty minutes see at most six accepted sends to one email. */
  lemma {:induction false} AtMostSixInAnyHour(steps: seq<Step>, email: string, from: int, to: int)
    requires to <= from + OTP_SEND_WINDOW_MS
    ensures AcceptedBetween(steps, email, from, to) <= 6
  {
    var w := SendBudgetWindowStart(from);
    SpanWithinBuckets(steps, email, from, to);
    ExactlyThreeAreAccepted(steps, email, w);
    ExactlyThreeAreAccepted(steps, email, w + OTP_SEND_WINDOW_MS);
  }

  // ---- the service ------------------------------------------------------------------------------

  datatype VerificationResult = Matched(id: nat) | Rejected

  datatype IssuedCode = IssuedCode(code: string, expiresAt: int)

  class EmailVerificationService {
    var rows: seq<CodeRow>
    var sends: map<(string, int), nat>
    var now: int

    ghost function View(): State
      reads this
    {
      State(rows, sends, now)
    }

    constructor ()
      ensures View() == Empty
    {
      rows, sends, now := [], map[], 0;
    }

    method IssueCode(email: string, code: string, stored: bool) returns (r: Result<IssuedCode, string>)
      modifies this
      ensures View() == OnIssue(old(View()), email, code, stored)
      ensures r.Ok? <==> old(Accepted(View(), email)) && stored
      ensures r.Ok? ==> r.value == IssuedCode(code, now + OTP_LIFETIME_MS)
    {
      var key := (email, SendBudgetWindowStart(now));
      var newSends := if key in sends then sends[key] + 1 else 1;
      sends := sends[key := newSends];
      if newSends > OTP_MAX_SENDS_PER_HOUR {
        return Err("OTP send limit exceeded for this email address in the current window.");
      }
      if !stored {
        return Err("the code could not be stored");
      }
      var expiresAt := now + OTP_LIFETIME_MS;
      rows := rows + [CodeRow(email, HashOf(code), expiresAt, 0, None)];
      return Ok(IssuedCode(code, expiresAt));
    }

    method VerifyCode(email: string, code: string) returns (r: VerificationResult)
      modifies this
      ensures View() == OnVerify(old(View()), email, code)
      ensures r == match FindMatch(old(rows), email, code, now) case Some(id) => Matched(id) case None => Rejected
    {
      var submittedHash := HashOf(code);
      var live: seq<nat> := [];
      for i := 0 to |rows|
        invariant forall k | 0 <= k < |live| :: live[k] < i && Live(rows[live[k]], email, now)
        invariant forall j, k | 0 <= j < k < |live| :: live[j] < live[k]
        invariant forall j | 0 <= j < i && Live(rows[j], email, now) :: j in live
      {
        if rows[i].email == email && rows[i].consumedAt.None? && rows[i].expiresAt > now {
          live := live + [i];
        }
      }
      for k := 0 to |live|
        invariant forall j | 0 <= j < k :: !MatchesCode(rows[live[j]], email, code, now)
      {
        var row := rows[live[k]];
        if row.attempts < OTP_MAX_ATTEMPTS && row.codeHash == submittedHash {
          forall j | 0 <= j < live[k] ensures !MatchesCode(rows[j], email, code, now) {
            if Live(rows[j], email, now) {
              var m :| 0 <= m < |live| && live[m] == j;
            }
          }
          return Matched(live[k]);
        }
      }
      forall j | 0 <= j < |rows| ensures !MatchesCode(rows[j], email, code, now) {
        if Live(rows[j], email, now) {
          var m :| 0 <= m < |live| && live[m] == j;
        }
      }
      ChargeLive(email, live);
      return Rejected;
    }

    /** One statement over the ids read before: each gains an attempt. */
    method ChargeLive(email: string, live: seq<nat>)
      requires forall k | 0 <= k < |live| :: live[k] < |rows| && Live(rows[live[k]], email, now)
      requires forall j, k | 0 <= j < k < |live| :: live[j] < live[k]
      requires forall j | 0 <= j < |rows| && Live(rows[j], email, now) :: j in live
      modifies this`rows
      ensures rows == Charge(old(rows), email, now)
    {
      ghost var was := rows;
      for k := 0 to |live|
        invariant |rows| == |was|
        invariant forall j | 0 <= j < |was| :: rows[j] == if j in live[..k] then Charged(was[j], email, now) else was[j]
      {
        assert live[k] !in live[..k];
        assert live[..k + 1] == live[..k] + [live[k]];
        rows := rows[live[k] := rows[live[k]].(attempts := rows[live[k]].attempts + 1)];
      }
      assert live[..|live|] == live;
    }

    method ConsumeCode(id: nat) returns (consumed: bool)
      modifies this
      ensures View() == OnConsume(old(View()), id)
      ensures consumed <==> old(Consumable(View(), id))
    {
      if id < |rows| && rows[id].consumedAt.None? {
        rows := rows[id := rows[id].(consumedAt := Some(now))];
        return true;
      }
      return false;
    }
  }
}
