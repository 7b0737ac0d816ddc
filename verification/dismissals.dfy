/** Dismissing a duplicate candidate: a compare-and-set append, retried, under any interleaving of calls. */
module Dismissals {
  import opened Wrappers

  const MAX_DISMISS_DUPLICATE_ATTEMPTS: nat := 3

  datatype Entry = Entry(actorId: string, dismissedBy: string, dismissedAt: int)

  /** The column: SQL null until the first dismissal, a list from then on. */
  type Column = Option<seq<Entry>>

  datatype Outcome = Succeeded | NotFound | Conflict

  datatype Phase =
    | Writing(seen: Column)   // has read the row, its conditional write is next
    | Rereading               // lost a write, will read again
    | Done(outcome: Outcome)

  /**
   * One call; `begun` counts the successful dismissals when it began, `readAt` those when it last
   * read or, for a conflict, when it gave up.
   */
  datatype Call = Call(actorId: string, dismissedBy: string, attempt: nat, phase: Phase, begun: nat, readAt: nat)

  datatype Success = Success(call: nat, entry: Entry)

  /** One registration (`present` unless the id is unknown), the calls on it, and the writes that succeeded, in order. */
  datatype State = State(present: bool, column: Column, calls: seq<Call>, log: seq<Success>)

  datatype Step =
    | Begin(actorId: string, dismissedBy: string, candidateExists: bool)
    | Write(call: nat, at: int)
    | Reread(call: nat)

  function Existing(column: Column): seq<Entry> {
    if column.Some? then column.value else []
  }

  function BeginCall(s: State, actorId: string, dismissedBy: string, candidateExists: bool): State {
    var phase := if s.present && candidateExists then Writing(s.column) else Done(NotFound);
    s.(calls := s.calls + [Call(actorId, dismissedBy, 1, phase, |s.log|, |s.log|)])
  }

  function EntryOf(call: Call, at: int): Entry {
    Entry(call.actorId, call.dismissedBy, at)
  }

  /** Append if the column still holds what was read; on a miss read again, or give up after the last attempt. */
  function WriteCall(s: State, c: nat, at: int): State
    requires c < |s.calls| && s.calls[c].phase.Writing?
  {
    var call := s.calls[c];
    if s.present && s.column == call.phase.seen then
      s.(column := Some(Existing(call.phase.seen) + [EntryOf(call, at)]),
         calls := s.calls[c := call.(phase := Done(Succeeded))],
         log := s.log + [Success(c, EntryOf(call, at))])
    else if call.attempt < MAX_DISMISS_DUPLICATE_ATTEMPTS then
      s.(calls := s.calls[c := call.(phase := Rereading, attempt := call.attempt + 1)])
    else s.(calls := s.calls[c := call.(phase := Done(Conflict), readAt := |s.log|)])
  }

  function RereadCall(s: State, c: nat): State
    requires c < |s.calls|
  {
    var phase := if s.present then Writing(s.column) else Done(NotFound);
    s.(calls := s.calls[c := s.calls[c].(phase := phase, readAt := |s.log|)])
  }

  predicate Enabled(s: State, step: Step) {
    match step
    case Write(c, _) => c < |s.calls| && s.calls[c].phase.Writing?
    case Reread(c) => c < |s.calls| && s.calls[c].phase == Rereading
    case _ => true
  }

  function Apply(s: State, step: Step): State {
    if !Enabled(s, step) then s
    else match step
      case Begin(actorId, dismissedBy, candidateExists) => BeginCall(s, actorId, dismissedBy, candidateExists)
      case Write(c, at) => WriteCall(s, c, at)
      case Reread(c) => RereadCall(s, c)
  }

  function Run(s: State, steps: seq<Step>): State {
    if steps == [] then s else Apply(Run(s, steps[..|steps| - 1]), steps[|steps| - 1])
  }

  function Start(present: bool, column: Column): State {
    State(present, column, [], [])
  }

  function Entries(log: seq<Success>): seq<Entry> {
    seq(|log|, i requires 0 <= i < |log| => log[i].entry)
  }

  /** What the column holds after these successes. */
  function After(initial: Column, log: seq<Success>): Column {
    if log == [] then initial else Some(Existing(initial) + Entries(log))
  }

  /** How many of these successes are this call's. */
  function WrittenBy(log: seq<Success>, c: nat): nat {
    if log == [] then 0
    else WrittenBy(log[..|log| - 1], c) + if log[|log| - 1].call == c then 1 else 0
  }

  /**
   * A call has seen the column as it was after `readAt` successes, every attempt it lost cost it a
   * success of someone else, and only its first read can miss the registration.
   */
  ghost predicate CallInv(initial: Column, s: State, call: Call) {
    && 1 <= call.attempt <= MAX_DISMISS_DUPLICATE_ATTEMPTS
    && call.begun <= call.readAt <= |s.log|
    && (call.phase.Writing? ==>
          s.present && call.phase.seen == After(initial, s.log[..call.readAt])
          && call.begun + call.attempt - 1 <= call.readAt)
    && (call.phase.Rereading? ==> s.present && call.begun + call.attempt - 1 <= |s.log|)
    && (call.phase == Done(Conflict) ==> call.begun + MAX_DISMISS_DUPLICATE_ATTEMPTS <= call.readAt)
    && (call.phase == Done(NotFound) ==> call.attempt == 1)
  }

  ghost predicate Inv(initial: Column, s: State) {
    && s.column == After(initial, s.log)
    && (forall c | 0 <= c < |s.calls| :: CallInv(initial, s, s.calls[c]))
    && (forall c | 0 <= c < |s.calls| :: WrittenBy(s.log, c) == if s.calls[c].phase == Done(Succeeded) then 1 else 0)
    && (forall i | 0 <= i < |s.log| :: s.log[i].call < |s.calls| && IsFrom(s.calls[s.log[i].call], s.log[i].entry))
  }

  predicate SameCaller(a: Call, b: Call) {
    a.actorId == b.actorId && a.dismissedBy == b.dismissedBy
  }

  predicate IsFrom(call: Call, entry: Entry) {
    entry.actorId == call.actorId && entry.dismissedBy == call.dismissedBy
  }

  lemma {:induction false} OneMoreSuccess(initial: Column, log: seq<Success>, x: Success)
    ensures After(initial, log + [x]) == Some(Existing(After(initial, log)) + [x.entry])
    ensures forall c :: WrittenBy(log + [x], c) == WrittenBy(log, c) + if x.call == c then 1 else 0
  {
    assert (log + [x])[..|log|] == log;
    assert Entries(log + [x]) == Entries(log) + [x.entry];
    var before := Existing(initial);
    if log == [] {
      assert before + Entries(log + [x]) == before + [x.entry];
    } else {
      assert before + Entries(log + [x]) == (before + Entries(log)) + [x.entry];
    }
  }

  lemma {:induction false} NobodyWroteYet(log: seq<Success>, c: nat)
    requires forall i | 0 <= i < |log| :: log[i].call < c
    ensures WrittenBy(log, c) == 0
  {
    if log != [] {
      NobodyWroteYet(log[..|log| - 1], c);
    }
  }

  /** A longer log keeps what a call knows. */
  lemma {:induction false} LogGrowthKeepsCall(initial: Column, s: State, after: State, call: Call)
    requires CallInv(initial, s, call) && s.log <= after.log && after.present == s.present
    ensures CallInv(initial, after, call)
  {
    assert after.log[..call.readAt] == s.log[..call.readAt];
  }

  lemma {:induction false} BeginKeepsInv(initial: Column, s: State, actorId: string, dismissedBy: string, exists_: bool)
    requires Inv(initial, s)
    ensures Inv(initial, BeginCall(s, actorId, dismissedBy, exists_))
  {
    var after := BeginCall(s, actorId, dismissedBy, exists_);
    assert s.log[..|s.log|] == s.log;
    NobodyWroteYet(s.log, |s.calls|);
    forall c | 0 <= c < |after.calls| ensures CallInv(initial, after, after.calls[c]) {
      if c < |s.calls| {
        LogGrowthKeepsCall(initial, s, after, s.calls[c]);
      }
    }
  }

  lemma {:induction false} WonWriteKeepsCalls(initial: Column, s: State, c: nat, at: int)
    requires Inv(initial, s) && c < |s.calls| && s.calls[c].phase.Writing?
    requires s.present && s.column == s.calls[c].phase.seen
    ensures var after := WriteCall(s, c, at);
            forall d | 0 <= d < |after.calls| :: CallInv(initial, after, after.calls[d])
  {
    var after := WriteCall(s, c, at);
    forall d | 0 <= d < |after.calls| ensures CallInv(initial, after, after.calls[d]) {
      LogGrowthKeepsCall(initial, s, after, s.calls[d]);
    }
  }

  lemma {:induction false} WonWriteKeepsInv(initial: Column, s: State, c: nat, at: int)
    requires Inv(initial, s) && c < |s.calls| && s.calls[c].phase.Writing?
    requires s.present && s.column == s.calls[c].phase.seen
    ensures Inv(initial, WriteCall(s, c, at))
  {
    OneMoreSuccess(initial, s.log, Success(c, EntryOf(s.calls[c], at)));
    WonWriteKeepsCalls(initial, s, c, at);
  }

  /** A lost write means the log has moved past what the call had read, or the row is gone. */
  lemma {:induction false} LostWriteKeepsInv(initial: Column, s: State, c: nat, at: int)
    requires Inv(initial, s) && c < |s.calls| && s.calls[c].phase.Writing?
    requires !(s.present && s.column == s.calls[c].phase.seen)
    ensures Inv(initial, WriteCall(s, c, at))
  {
    var after, call := WriteCall(s, c, at), s.calls[c];
    assert CallInv(initial, s, call);
    assert s.log[..|s.log|] == s.log;
    assert call.readAt < |s.log|;
    forall d | 0 <= d < |after.calls| ensures CallInv(initial, after, after.calls[d]) {
      assert CallInv(initial, s, s.calls[d]);
    }
  }

  lemma {:induction false} RereadKeepsInv(initial: Column, s: State, c: nat)
    requires Inv(initial, s) && c < |s.calls| && s.calls[c].phase == Rereading
    ensures Inv(initial, RereadCall(s, c))
  {
    var after := RereadCall(s, c);
    assert s.log[..|s.log|] == s.log;
    forall d | 0 <= d < |after.calls| ensures CallInv(initial, after, after.calls[d]) {
      assert CallInv(initial, s, s.calls[d]);
    }
  }

  lemma {:induction false} RunKeepsInv(present: bool, initial: Column, steps: seq<Step>)
    ensures Inv(initial, Run(Start(present, initial), steps))
  {
    if steps != [] {
      var s, step := Run(Start(present, initial), steps[..|steps| - 1]), steps[|steps| - 1];
      RunKeepsInv(present, initial, steps[..|steps| - 1]);
      if Enabled(s, step) {
        match step
        case Begin(actorId, dismissedBy, candidateExists) =>
          BeginKeepsInv(initial, s, actorId, dismissedBy, candidateExists);
        case Write(c, at) =>
          if s.present && s.column == s.calls[c].phase.seen {
            WonWriteKeepsInv(initial, s, c, at);
          } else {
            LostWriteKeepsInv(initial, s, c, at);
          }
        case Reread(c) => RereadKeepsInv(initial, s, c);
      }
    }
  }

  /** In every interleaving the list is the initial one followed by one entry for each success, in write order. */
  lemma {:induction false} NoDismissalIsLost(present: bool, initial: Column, steps: seq<Step>, c: nat)
    requires c < |Run(Start(present, initial), steps).calls|
    ensures var s := Run(Start(present, initial), steps);
            && Existing(s.column) == Existing(initial) + Entries(s.log)
            && WrittenBy(s.log, c) == (if s.calls[c].phase == Done(Succeeded) then 1 else 0)
            && forall i | 0 <= i < |s.log| && s.log[i].call == c :: IsFrom(s.calls[c], s.log[i].entry)
  {
    RunKeepsInv(present, initial, steps);
    var s := Run(Start(present, initial), steps);
    if s.log == [] {
      assert Entries(s.log) == [];
    }
  }

  /**
   * A call that ends in the conflict left no entry, and at least three dismissals, all of other
   * calls, succeeded between its first read and its giving up.
   */
  lemma {:induction false} ConflictMeansThreeOthers(present: bool, initial: Column, steps: seq<Step>, c: nat)
    requires c < |Run(Start(present, initial), steps).calls|
    requires Run(Start(present, initial), steps).calls[c].phase == Done(Conflict)
    ensures var s := Run(Start(present, initial), steps);
            && WrittenBy(s.log, c) == 0
            && s.calls[c].begun + 3 <= s.calls[c].readAt <= |s.log|
            && forall i | s.calls[c].begun <= i < s.calls[c].readAt :: s.log[i].call != c
  {
    RunKeepsInv(present, initial, steps);
    var s := Run(Start(present, initial), steps);
    assert CallInv(initial, s, s.calls[c]);
    forall i | 0 <= i < |s.log| ensures s.log[i].call != c {
      SuccessIsCounted(s.log, i);
    }
  }

  lemma {:induction false} SuccessIsCounted(log: seq<Success>, i: nat)
    requires i < |log|
    ensures WrittenBy(log, log[i].call) > 0
  {
    if i < |log| - 1 {
      SuccessIsCounted(log[..|log| - 1], i);
    }
  }

  /** Only a step of its own moves a call. */
  predicate Foreign(step: Step, c: nat) {
    && (step.Write? ==> step.call != c)
    && (step.Reread? ==> step.call != c)
  }

  lemma {:induction false} ForeignRunKeepsCall(s: State, steps: seq<Step>, c: nat)
    requires c < |s.calls| && forall i | 0 <= i < |steps| :: Foreign(steps[i], c)
    ensures c < |Run(s, steps).calls| && Run(s, steps).calls[c] == s.calls[c]
  {
    if steps != [] {
      ForeignRunKeepsCall(s, steps[..|steps| - 1], c);
    }
  }

  lemma {:induction false} RunInParts(s: State, a: seq<Step>, b: seq<Step>)
    ensures Run(s, a + b) == Run(Run(s, a), b)
  {
    if b == [] {
      assert a + b == a;
    } else {
      RunInParts(s, a, b[..|b| - 1]);
      assert (a + b)[..|a + b| - 1] == a + b[..|b| - 1];
    }
  }

  /** The steps of others that happen in one gap; a step speaking for this call is not one. */
  function Others(steps: seq<Step>, c: nat): (r: seq<Step>)
    ensures forall i | 0 <= i < |r| :: Foreign(r[i], c)
  {
    if steps == [] then []
    else
      var n := |steps| - 1;
      if Foreign(steps[n], c) then Others(steps[..n], c) + [steps[n]] else Others(steps[..n], c)
  }

  /** Nothing others may do is left out. */
  lemma {:induction false} OthersDoAnything(steps: seq<Step>, c: nat)
    requires forall i | 0 <= i < |steps| :: (steps[i].Write? || steps[i].Reread?) ==> steps[i].call != c
    ensures Others(steps, c) == steps
  {
    if steps != [] {
      var n := |steps| - 1;
      OthersDoAnything(steps[..n], c);
      assert steps == steps[..n] + [steps[n]];
    }
  }

  /** How many conditional writes of this call the steps hold. */
  function WritesOf(steps: seq<Step>, c: nat): nat {
    if steps == [] then 0
    else
      var last := steps[|steps| - 1];
      WritesOf(steps[..|steps| - 1], c) + if last.Write? && last.call == c then 1 else 0
  }

  lemma {:induction false} WritesInParts(a: seq<Step>, b: seq<Step>, c: nat)
    ensures WritesOf(a + b, c) == WritesOf(a, c) + WritesOf(b, c)
  {
    if b == [] {
      assert a + b == a;
    } else {
      WritesInParts(a, b[..|b| - 1], c);
      assert (a + b)[..|a + b| - 1] == a + b[..|b| - 1];
    }
  }

  lemma {:induction false} OthersDoNotWrite(steps: seq<Step>, c: nat)
    requires forall i | 0 <= i < |steps| :: steps[i].Write? ==> steps[i].call != c
    ensures WritesOf(steps, c) == 0
  {
    if steps != [] {
      OthersDoNotWrite(steps[..|steps| - 1], c);
    }
  }

  /** What others do before each write and each re-read of one call, and the clock at each write. */
  datatype Gap = Gap(beforeWrite: seq<Step>, beforeReread: seq<Step>, clock: int)

  function WriteTrace(gap: Gap, c: nat): seq<Step> {
    Others(gap.beforeWrite, c) + [Write(c, gap.clock)]
  }

  function RereadTrace(gap: Gap, c: nat): seq<Step> {
    Others(gap.beforeReread, c) + [Reread(c)]
  }

  /** The first `n` attempts, each lost and followed by its re-read. */
  function LostTrace(gaps: seq<Gap>, c: nat, n: nat): seq<Step>
    requires n <= |gaps|
  {
    if n == 0 then [] else LostTrace(gaps, c, n - 1) + WriteTrace(gaps[n - 1], c) + RereadTrace(gaps[n - 1], c)
  }

  /** After its first read a call has made this many writes: the last one ended it, the others were lost. */
  function AttemptsTrace(gaps: seq<Gap>, c: nat, writes: nat): seq<Step>
    requires writes <= |gaps|
  {
    if writes == 0 then [] else LostTrace(gaps, c, writes - 1) + WriteTrace(gaps[writes - 1], c)
  }

  lemma {:induction false} OneWriteAnAttempt(gap: Gap, c: nat)
    ensures WritesOf(WriteTrace(gap, c), c) == 1 && WritesOf(RereadTrace(gap, c), c) == 0
  {
    OthersDoNotWrite(Others(gap.beforeWrite, c), c);
    WritesInParts(Others(gap.beforeWrite, c), [Write(c, gap.clock)], c);
    OthersDoNotWrite(RereadTrace(gap, c), c);
  }

  lemma {:induction false} LostAttemptWrites(before: seq<Step>, gap: Gap, c: nat)
    ensures WritesOf(before + WriteTrace(gap, c) + RereadTrace(gap, c), c) == WritesOf(before, c) + 1
  {
    OneWriteAnAttempt(gap, c);
    WritesInParts(before, WriteTrace(gap, c), c);
    WritesInParts(before + WriteTrace(gap, c), RereadTrace(gap, c), c);
  }

  /** A whole call: its first read, then its attempts. */
  ghost predicate CallRan(begin: Step, gaps: seq<Gap>, c: nat, writes: nat, trace: seq<Step>) {
    writes <= |gaps| && trace == [begin] + AttemptsTrace(gaps, c, writes) && WritesOf(trace, c) == writes
  }

  /** A call about to make this attempt: its first read, and the lost attempts before. */
  ghost predicate Trying(begin: Step, gaps: seq<Gap>, c: nat, attempt: nat, trace: seq<Step>) {
    && 1 <= attempt <= |gaps| + 1
    && trace == [begin] + LostTrace(gaps, c, attempt - 1) && WritesOf(trace, c) == attempt - 1
  }

  /** After these steps the call has a write before it: it has neither won nor given up. */
  ghost predicate AboutToWrite(s: State, steps: seq<Step>, c: nat) {
    c < |Run(s, steps).calls| && Run(s, steps).calls[c].phase.Writing?
  }

  lemma {:induction false} TryingBegins(begin: Step, gaps: seq<Gap>, c: nat)
    requires begin.Begin?
    ensures Trying(begin, gaps, c, 1, [begin]) && CallRan(begin, gaps, c, 0, [begin])
  {
    OthersDoNotWrite([begin], c);
  }

  lemma {:induction false} TryingGoesOn(begin: Step, gaps: seq<Gap>, c: nat, attempt: nat, trace: seq<Step>,
                                        taken: seq<Step>)
    requires 1 <= attempt <= |gaps| && Trying(begin, gaps, c, attempt, trace)
    requires taken == WriteTrace(gaps[attempt - 1], c) + RereadTrace(gaps[attempt - 1], c)
    ensures Trying(begin, gaps, c, attempt + 1, trace + taken)
  {
    var lost, gap := LostTrace(gaps, c, attempt - 1), gaps[attempt - 1];
    LostAttemptWrites(trace, gap, c);
    Regroup(trace, WriteTrace(gap, c), RereadTrace(gap, c));
    Regroup([begin], lost, WriteTrace(gap, c));
    Regroup([begin], lost + WriteTrace(gap, c), RereadTrace(gap, c));
  }

  lemma {:induction false} TryingEnds(begin: Step, gaps: seq<Gap>, c: nat, attempt: nat, trace: seq<Step>,
                                      taken: seq<Step>)
    requires 1 <= attempt <= |gaps| && Trying(begin, gaps, c, attempt, trace)
    requires taken == WriteTrace(gaps[attempt - 1], c)
    ensures CallRan(begin, gaps, c, attempt, trace + taken)
  {
    OneWriteAnAttempt(gaps[attempt - 1], c);
    WritesInParts(trace, taken, c);
    Regroup([begin], LostTrace(gaps, c, attempt - 1), taken);
  }

  lemma {:induction false} Regroup(a: seq<Step>, b: seq<Step>, c: seq<Step>)
    ensures a + b + c == a + (b + c)
  {
  }

  /** Nothing adds or removes the registration. */
  lemma {:induction false} RunKeepsPresent(s: State, steps: seq<Step>)
    ensures Run(s, steps).present == s.present
  {
    if steps != [] {
      RunKeepsPresent(s, steps[..|steps| - 1]);
    }
  }

  /** The stored row, and the record of the calls made on it. */
  class RegistrationRow {
    var present: bool
    var column: Column
    var calls: seq<Call>
    var log: seq<Success>

    ghost function View(): State
      reads this
    {
      State(present, column, calls, log)
    }

    constructor (present: bool, column: Column)
      ensures View() == Start(present, column)
    {
      this.present, this.column, calls, log := present, column, [], [];
    }

    method Interfere(steps: seq<Step>)
      modifies this
      ensures View() == Run(old(View()), steps)
    {
      var t := Run(State(present, column, calls, log), steps);
      present, column, calls, log := t.present, t.column, t.calls, t.log;
    }

    /** The first read: the row must be there, and so must the candidate. */
    method FirstRead(actorId: string, dismissedBy: string, candidateExists: bool) returns (row: Option<Column>)
      modifies this
      ensures View() == BeginCall(old(View()), actorId, dismissedBy, candidateExists)
      ensures row == if old(present) && candidateExists then Some(old(column)) else None
    {
      row := if present && candidateExists then Some(column) else None;
      var phase := if row.Some? then Writing(row.value) else Done(NotFound);
      calls := calls + [Call(actorId, dismissedBy, 1, phase, |log|, |log|)];
    }

    /** The conditional write of `existing + [newEntry]`, where the column still equals what was read. */
    method TryWrite(me: nat, row: Column, at: int) returns (won: bool)
      requires me < |calls| && calls[me].phase == Writing(row)
      modifies this
      ensures View() == WriteCall(old(View()), me, at)
      ensures won <==> calls[me].phase == Done(Succeeded)
      ensures won <==> old(present) && old(column) == row
      ensures won ==>
                && column == Some((if row.Some? then row.value else [])
                                  + [Entry(old(calls)[me].actorId, old(calls)[me].dismissedBy, at)])
                && |log| == |old(log)| + 1
      ensures !won ==> column == old(column) && log == old(log)
    {
      var call := calls[me];
      won := present && column == row;
      if won {
        var existing := if row.Some? then row.value else [];
        var newEntry := Entry(call.actorId, call.dismissedBy, at);
        column := Some(existing + [newEntry]);
        log := log + [Success(me, newEntry)];
        calls := calls[me := call.(phase := Done(Succeeded))];
      } else if call.attempt < MAX_DISMISS_DUPLICATE_ATTEMPTS {
        calls := calls[me := call.(phase := Rereading, attempt := call.attempt + 1)];
      } else {
        calls := calls[me := call.(phase := Done(Conflict), readAt := |log|)];
      }
    }

    method ReadAgain(me: nat) returns (row: Option<Column>)
      requires me < |calls|
      modifies this
      ensures View() == RereadCall(old(View()), me)
      ensures row == if old(present) then Some(old(column)) else None
    {
      row := if present then Some(column) else None;
      calls := calls[me := calls[me].(phase := if row.Some? then Writing(row.value) else Done(NotFound), readAt := |log|)];
    }

    /** After a lost write: read again, with whatever others do before it. `None` when the row is gone. */
    method Refresh(me: nat, gap: Gap) returns (again: Option<Column>)
      requires me < |calls| && calls[me].phase == Rereading
      modifies this
      ensures View() == Run(old(View()), RereadTrace(gap, me)) && present == old(present)
      ensures me < |calls| && SameCaller(calls[me], old(calls)[me]) && calls[me].attempt == old(calls)[me].attempt
      ensures calls[me].phase == if again.Some? then Writing(again.value) else Done(NotFound)
      ensures again.None? ==> !present
    {
      ghost var lost := View();
      var others := Others(gap.beforeReread, me);
      ForeignRunKeepsCall(lost, others, me);
      Interfere(others);
      OneMoreStep(lost, others, Reread(me));
      again := ReadAgain(me);
      RunKeepsPresent(lost, RereadTrace(gap, me));
    }

    /** The conditional write, with whatever others do before it. */
    method WriteOnce(me: nat, seen: Column, gap: Gap) returns (won: bool)
      requires me < |calls| && calls[me].phase == Writing(seen)
      modifies this
      ensures View() == Run(old(View()), WriteTrace(gap, me)) && present == old(present)
      ensures me < |calls| && SameCaller(calls[me], old(calls)[me])
      ensures won ==> calls[me].phase == Done(Succeeded)
      ensures !won && old(calls)[me].attempt < MAX_DISMISS_DUPLICATE_ATTEMPTS ==>
                calls[me].phase == Rereading && calls[me].attempt == old(calls)[me].attempt + 1
      ensures !won && old(calls)[me].attempt >= MAX_DISMISS_DUPLICATE_ATTEMPTS ==> calls[me].phase == Done(Conflict)
    {
      ghost var start := View();
      var others := Others(gap.beforeWrite, me);
      ForeignRunKeepsCall(start, others, me);
      Interfere(others);
      OneMoreStep(start, others, Write(me, gap.clock));
      won := TryWrite(me, seen, gap.clock);
      RunKeepsPresent(start, WriteTrace(gap, me));
    }

    /** One attempt, with whatever others do before it: won, or lost with the next attempt's read, or over. */
    method Attempt(me: nat, attempt: nat, seen: Column, gap: Gap)
      returns (outcome: Option<Outcome>, row: Column, ghost taken: seq<Step>)
      requires me < |calls| && calls[me].phase == Writing(seen) && calls[me].attempt == attempt
      requires 1 <= attempt <= MAX_DISMISS_DUPLICATE_ATTEMPTS
      modifies this
      ensures View() == Run(old(View()), taken)
      ensures present == old(present)
      ensures taken == if outcome.Some? && outcome.value != NotFound then WriteTrace(gap, me)
                       else WriteTrace(gap, me) + RereadTrace(gap, me)
      ensures me < |calls| && SameCaller(calls[me], old(calls)[me])
      ensures outcome.Some? ==> calls[me].phase == Done(outcome.value)
      ensures outcome.Some? && outcome.value == Conflict ==> attempt == MAX_DISMISS_DUPLICATE_ATTEMPTS
      ensures outcome.Some? && outcome.value == NotFound ==> !present
      ensures outcome.None? ==> attempt < MAX_DISMISS_DUPLICATE_ATTEMPTS
                                && calls[me].phase == Writing(row) && calls[me].attempt == attempt + 1
    {
      row, taken := seen, WriteTrace(gap, me);
      RunInParts(View(), taken, RereadTrace(gap, me));
      var won := WriteOnce(me, seen, gap);
      if won || attempt == MAX_DISMISS_DUPLICATE_ATTEMPTS {
        outcome := Some(if won then Succeeded else Conflict);
        return;
      }
      var again := Refresh(me, gap);
      taken := taken + RereadTrace(gap, me);
      outcome := None;
      if again.None? {
        outcome := Some(NotFound);
      } else {
        row := again.value;
      }
    }

    /**
     * The call as a run of the protocol: its first read, then its conditional writes with a re-read
     * after each lost one, none after the write that ends it, and what others do in its gaps. It is
     * recorded under its caller's arguments and ends in the outcome its record shows. It answers not
     * found exactly when the registration or the candidate is unknown, then alone without a write,
     * and gives up only after three.
     */
    method DismissDuplicate(actorId: string, dismissedBy: string, candidateExists: bool, gaps: seq<Gap>)
      returns (outcome: Outcome, ghost trace: seq<Step>, ghost writes: nat)
      requires |gaps| == MAX_DISMISS_DUPLICATE_ATTEMPTS
      modifies this
      ensures View() == Run(old(View()), trace)
      ensures CallRan(Begin(actorId, dismissedBy, candidateExists), gaps, |old(calls)|, writes, trace)
      ensures writes > 0 ==>
                var begin := Begin(actorId, dismissedBy, candidateExists);
                AboutToWrite(old(View()), [begin] + LostTrace(gaps, |old(calls)|, writes - 1), |old(calls)|)
      ensures |old(calls)| < |calls| && calls[|old(calls)|].phase == Done(outcome)
      ensures calls[|old(calls)|].actorId == actorId && calls[|old(calls)|].dismissedBy == dismissedBy
      ensures outcome == NotFound <==> !(old(present) && candidateExists)
      ensures outcome == NotFound <==> writes == 0
      ensures writes <= 3
      ensures outcome == Conflict ==> writes == 3
    {
      ghost var start, begin := View(), Begin(actorId, dismissedBy, candidateExists);
      var me := |calls|;
      OneMoreStep(start, [], begin);
      assert [] + [begin] == [begin];
      var first := FirstRead(actorId, dismissedBy, candidateExists);
      TryingBegins(begin, gaps, me);
      trace, writes := [begin], 0;
      if first.None? {
        return NotFound, trace, writes;
      }
      var row := first.value;
      var attempt := 1;
      while true
        invariant 1 <= attempt <= MAX_DISMISS_DUPLICATE_ATTEMPTS
        invariant View() == Run(start, trace) && present && Trying(begin, gaps, me, attempt, trace)
        invariant me < |calls| && calls[me].phase == Writing(row) && calls[me].attempt == attempt
        invariant calls[me].actorId == actorId && calls[me].dismissedBy == dismissedBy
        decreases MAX_DISMISS_DUPLICATE_ATTEMPTS - attempt
      {
        var ended;
        ghost var taken;
        assert AboutToWrite(start, [begin] + LostTrace(gaps, me, attempt - 1), me);
        ended, row, taken := Attempt(me, attempt, row, gaps[attempt - 1]);
        RunInParts(start, trace, taken);
        if ended.Some? {
          TryingEnds(begin, gaps, me, attempt, trace, taken);
          return ended.value, trace + taken, attempt;
        }
        TryingGoesOn(begin, gaps, me, attempt, trace, taken);
        trace := trace + taken;
        attempt := attempt + 1;
      }
    }
  }

  lemma {:induction false} OneMoreStep(s: State, steps: seq<Step>, step: Step)
    ensures Run(s, steps + [step]) == Apply(Run(s, steps), step)
  {
    assert (steps + [step])[..|steps|] == steps;
  }
}
