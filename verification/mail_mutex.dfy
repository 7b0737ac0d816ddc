/** The mail transport's send lock: one holder, a first-come queue, waiters that may give up. */
module MailMutex {
  /** A call to `acquire`, numbered by arrival. */
  type Ticket = nat

  /**
   * The lock as seen from outside: `waiters` queue, `settled` are the queued calls already
   * answered. `granted` (in grant order) and `rejected` record what callers were told, `holders` who
   * was granted the lock and has not released it.
   */
  datatype Mutex = Mutex(
    locked: bool,
    waiters: seq<Ticket>,
    settled: set<Ticket>,
    next: Ticket,
    holders: set<Ticket>,
    granted: seq<Ticket>,
    rejected: set<Ticket>)

  const Fresh: Mutex := Mutex(false, [], {}, 0, {}, [], {})

  datatype Event =
    | Acquire
    | TimerFires(ticket: Ticket)
    | Release(ticket: Ticket)

  function Grant(m: Mutex, t: Ticket): Mutex {
    m.(locked := true, holders := m.holders + {t}, granted := m.granted + [t])
  }

  function OnAcquire(m: Mutex): Mutex {
    var counted := m.(next := m.next + 1);
    if !m.locked then Grant(counted, m.next) else counted.(waiters := m.waiters + [m.next])
  }

  /** `splice(indexOf(t), 1)` when it is there. */
  function Without(waiters: seq<Ticket>, t: Ticket): (r: seq<Ticket>)
    ensures forall w :: w in r ==> w in waiters
  {
    if waiters == [] then []
    else
      assert waiters == [waiters[0]] + waiters[1..];
      if waiters[0] == t then waiters[1..] else [waiters[0]] + Without(waiters[1..], t)
  }

  /** A timer exists for queued calls only, and does nothing once its call is settled. */
  function OnTimer(m: Mutex, t: Ticket): Mutex {
    if t in m.settled then m
    else m.(settled := m.settled + {t}, waiters := Without(m.waiters, t), rejected := m.rejected + {t})
  }

  /** Hand the lock to the longest-queued call; if that call turned out settled, its turn does nothing. */
  function OnRelease(m: Mutex, t: Ticket): Mutex {
    var freed := m.(holders := m.holders - {t});
    if m.waiters == [] then freed.(locked := false)
    else
      var shifted := freed.(waiters := m.waiters[1..]);
      if m.waiters[0] in m.settled then shifted
      else Grant(shifted.(settled := m.settled + {m.waiters[0]}), m.waiters[0])
  }

  /** What can happen: a queued call's timer, and a release by a call that holds the lock. */
  predicate Enabled(m: Mutex, e: Event) {
    match e
    case Acquire => true
    case TimerFires(t) => t in m.waiters || t in m.settled
    case Release(t) => t in m.holders
  }

  function Apply(m: Mutex, e: Event): Mutex {
    if !Enabled(m, e) then m
    else match e
      case Acquire => OnAcquire(m)
      case TimerFires(t) => OnTimer(m, t)
      case Release(t) => OnRelease(m, t)
  }

  function Run(events: seq<Event>): Mutex {
    if events == [] then Fresh else Apply(Run(events[..|events| - 1]), events[|events| - 1])
  }

  predicate StrictlyIncreasing(s: seq<Ticket>) {
    forall i, j :: 0 <= i < j < |s| ==> s[i] < s[j]
  }

  /**
   * The lock is held exactly while some caller has it, and then by the latest granted alone; a free lock
   * has no queue; nobody queued has been answered; grants so far followed by the queue are in
   * order of arrival; and every call so far was granted, waits, or timed out, in exactly one way.
   */
  ghost predicate Inv(m: Mutex) {
    && (m.locked <==> m.holders != {})
    && (m.locked ==> m.granted != [] && m.holders == {m.granted[|m.granted| - 1]})
    && (!m.locked ==> m.waiters == [])
    && (forall w | w in m.waiters :: w !in m.settled)
    && StrictlyIncreasing(m.granted + m.waiters)
    && (forall t: Ticket :: t < m.next <==> t in m.granted || t in m.waiters || t in m.rejected)
    && (forall t | t in m.rejected :: t in m.settled && t !in m.granted && t !in m.waiters)
    && (forall t | t in m.settled :: t in m.granted || t in m.rejected)
  }

  lemma {:induction false} WithoutCutsOne(waiters: seq<Ticket>, t: Ticket) returns (i: nat)
    requires t in waiters
    ensures i < |waiters| && waiters[i] == t
    ensures Without(waiters, t) == waiters[..i] + waiters[i + 1..]
  {
    if waiters[0] == t {
      i := 0;
    } else {
      assert waiters == [waiters[0]] + waiters[1..];
      var j := WithoutCutsOne(waiters[1..], t);
      i := j + 1;
      assert waiters[..i] == [waiters[0]] + waiters[1..][..j];
    }
  }

  lemma {:induction false} CutLeavesOthers(waiters: seq<Ticket>, i: nat, w: Ticket)
    requires StrictlyIncreasing(waiters) && i < |waiters|
    ensures w in waiters[..i] + waiters[i + 1..] <==> w in waiters && w != waiters[i]
  {
    assert waiters == waiters[..i] + [waiters[i]] + waiters[i + 1..];
  }

  lemma {:induction false} GrantedBeforeWaiting(granted: seq<Ticket>, waiters: seq<Ticket>, g: Ticket, w: Ticket)
    requires StrictlyIncreasing(granted + waiters) && g in granted && w in waiters
    ensures g < w
  {
    var i :| 0 <= i < |granted| && granted[i] == g;
    var j :| 0 <= j < |waiters| && waiters[j] == w;
    assert (granted + waiters)[i] == g && (granted + waiters)[|granted| + j] == w;
  }

  lemma {:induction false} PartsIncrease(granted: seq<Ticket>, waiters: seq<Ticket>)
    requires StrictlyIncreasing(granted + waiters)
    ensures StrictlyIncreasing(granted) && StrictlyIncreasing(waiters)
  {
    assert granted == (granted + waiters)[..|granted|] && waiters == (granted + waiters)[|granted|..];
  }

  lemma {:induction false} AcquireKeepsInv(m: Mutex)
    requires Inv(m)
    ensures Inv(OnAcquire(m))
  {
    var after := OnAcquire(m);
    var all := m.granted + m.waiters;
    assert after.granted + after.waiters == all + [m.next];
    forall i | 0 <= i < |all| ensures all[i] < m.next {
      assert all[i] in m.granted || all[i] in m.waiters;
    }
  }

  lemma {:induction false} CutIncreases(s: seq<Ticket>, k: nat)
    requires StrictlyIncreasing(s) && k < |s|
    ensures StrictlyIncreasing(s[..k] + s[k + 1..])
  {
  }

  /** Taking one call out of the queue keeps the order of arrival and loses no other call. */
  lemma {:induction false} CutKeepsOrder(granted: seq<Ticket>, waiters: seq<Ticket>, t: Ticket)
    requires StrictlyIncreasing(granted + waiters) && t in waiters
    ensures StrictlyIncreasing(granted + Without(waiters, t))
    ensures forall w :: w in Without(waiters, t) <==> w in waiters && w != t
  {
    PartsIncrease(granted, waiters);
    var i := WithoutCutsOne(waiters, t);
    var all := granted + waiters;
    forall w ensures w in Without(waiters, t) <==> w in waiters && w != t {
      CutLeavesOthers(waiters, i, w);
    }
    CutIncreases(all, |granted| + i);
    assert granted + Without(waiters, t) == all[..|granted| + i] + all[|granted| + i + 1..];
  }

  /**
   * A queued call whose time is up is told so and leaves the queue; every other call keeps its
   * place, and the lock its holder.
   */
  lemma {:induction false} TimerTurnsAway(m: Mutex, t: Ticket)
    requires Inv(m) && t in m.waiters
    ensures var after := OnTimer(m, t);
            && t in after.rejected && t !in after.waiters && t !in after.granted
            && (exists i :: 0 <= i < |m.waiters| && m.waiters[i] == t
                            && after.waiters == m.waiters[..i] + m.waiters[i + 1..])
            && after.locked == m.locked && after.holders == m.holders && after.granted == m.granted
  {
    CutKeepsOrder(m.granted, m.waiters, t);
    var i := WithoutCutsOne(m.waiters, t);
    if t in m.granted {
      GrantedBeforeWaiting(m.granted, m.waiters, t, t);
    }
  }

  lemma {:induction false} TimerKeepsInv(m: Mutex, t: Ticket)
    requires Inv(m) && (t in m.waiters || t in m.settled)
    ensures Inv(OnTimer(m, t))
  {
    if t !in m.settled {
      CutKeepsOrder(m.granted, m.waiters, t);
      if t in m.granted {
        GrantedBeforeWaiting(m.granted, m.waiters, t, t);
      }
    }
  }

  /** A release passes the lock straight to the head of the queue, and never drops it while anyone waits. */
  lemma {:induction false} ReleaseHandsOver(m: Mutex, t: Ticket)
    requires Inv(m) && t in m.holders
    ensures m.waiters != [] ==> OnRelease(m, t).locked && OnRelease(m, t).holders == {m.waiters[0]}
    ensures m.waiters == [] ==> !OnRelease(m, t).locked && OnRelease(m, t).holders == {}
    ensures OnRelease(m, t).waiters == (if m.waiters == [] then [] else m.waiters[1..])
    ensures OnRelease(m, t).rejected == m.rejected
    ensures Inv(OnRelease(m, t))
  {
    if m.waiters != [] {
      var head, after := m.waiters[0], OnRelease(m, t);
      assert m.waiters == [head] + m.waiters[1..];
      assert head in m.waiters;
      assert after.granted + after.waiters == m.granted + m.waiters;
      PartsIncrease(m.granted, m.waiters);
      assert head !in m.waiters[1..];
    }
  }

  lemma {:induction false} RunKeepsInv(events: seq<Event>)
    ensures Inv(Run(events))
  {
    if events != [] {
      var m, e := Run(events[..|events| - 1]), events[|events| - 1];
      RunKeepsInv(events[..|events| - 1]);
      if Enabled(m, e) {
        match e
        case Acquire => AcquireKeepsInv(m);
        case TimerFires(t) => TimerKeepsInv(m, t);
        case Release(t) => ReleaseHandsOver(m, t);
      }
    }
  }

  /** How many releases these events hold: those of a call that had the lock. */
  function Releases(events: seq<Event>): nat {
    if events == [] then 0
    else
      var n := |events| - 1;
      Releases(events[..n]) + if events[n].Release? && Enabled(Run(events[..n]), events[n]) then 1 else 0
  }

  /**
   * Mutual exclusion, over every run: nobody shares the lock, a grant comes only when each earlier
   * one has been released, and the lock is locked exactly while its one grant is outstanding.
   */
  lemma {:induction false} AtMostOneHolder(events: seq<Event>)
    ensures forall a, b | a in Run(events).holders && b in Run(events).holders :: a == b
    ensures |Run(events).granted| == Releases(events) + if Run(events).locked then 1 else 0
  {
    RunKeepsInv(events);
    if events != [] {
      var n := |events| - 1;
      RunKeepsInv(events[..n]);
      AtMostOneHolder(events[..n]);
      if events[n].Release? && Enabled(Run(events[..n]), events[n]) {
        ReleaseHandsOver(Run(events[..n]), events[n].ticket);
      }
    }
  }

  /** A call that is granted the lock finds it released by everyone who had it before. */
  lemma {:induction false} GrantFindsNoHolder(events: seq<Event>, e: Event)
    requires |Run(events + [e]).granted| > |Run(events).granted|
    ensures var before := Run(events).holders;
            before == {} || (e.Release? && before == {e.ticket})
    ensures |Run(events).granted| == Releases(events + [e])
  {
    assert (events + [e])[..|events|] == events;
    RunKeepsInv(events);
    AtMostOneHolder(events);
  }

  /**
   * First come, first served, over every run: of two granted calls the earlier arrival was granted
   * first, and whoever arrived before a granted call was granted too or gave up.
   */
  lemma {:induction false} GrantsAreFirstComeFirstServed(events: seq<Event>, early: Ticket, late: Ticket)
    requires early < late && late in Run(events).granted
    ensures early in Run(events).granted || early in Run(events).rejected
    ensures var g := Run(events).granted;
            forall i, j | 0 <= i < |g| && 0 <= j < |g| && g[i] == early && g[j] == late :: i < j
  {
    RunKeepsInv(events);
    var m := Run(events);
    var all := m.granted + m.waiters;
    var k :| 0 <= k < |m.granted| && m.granted[k] == late;
    assert all[k] == late;
    if early in m.waiters {
      GrantedBeforeWaiting(m.granted, m.waiters, late, early);
    }
    assert late < m.next;
    forall i, j | 0 <= i < |m.granted| && 0 <= j < |m.granted| && m.granted[i] == early && m.granted[j] == late
      ensures i < j
    {
      assert all[i] == early && all[j] == late;
    }
  }

  /** A call is granted at most once, and never after it was told it timed out. */
  lemma {:induction false} AnsweredOnce(events: seq<Event>, t: Ticket)
    requires t in Run(events).granted
    ensures t !in Run(events).rejected && t !in Run(events).waiters
    ensures multiset(Run(events).granted)[t] == 1
  {
    RunKeepsInv(events);
    var m := Run(events);
    if t in m.waiters {
      GrantedBeforeWaiting(m.granted, m.waiters, t, t);
    }
    PartsIncrease(m.granted, m.waiters);
    OccursOnce(m.granted, t);
  }

  lemma {:induction false} OccursOnce(s: seq<Ticket>, t: Ticket)
    requires StrictlyIncreasing(s)
    ensures multiset(s)[t] == if t in s then 1 else 0
  {
    if s != [] {
      var n := |s| - 1;
      OccursOnce(s[..n], t);
      assert s == s[..n] + [s[n]];
      assert s[n] !in s[..n];
    }
  }

  class MailSendMutex {
    var locked: bool
    var waiters: seq<Ticket>
    var settled: set<Ticket>
    var next: Ticket
    ghost var holders: set<Ticket>
    ghost var granted: seq<Ticket>
    ghost var rejected: set<Ticket>

    ghost function View(): Mutex
      reads this
    {
      Mutex(locked, waiters, settled, next, holders, granted, rejected)
    }

    constructor ()
      ensures View() == Fresh && Inv(View())
    {
      locked, waiters, settled, next, holders, granted, rejected := false, [], {}, 0, {}, [], {};
    }

    /** True when the lock was free; otherwise the call queues. */
    method TryAcquire() returns (ticket: Ticket, held: bool)
      requires Inv(View())
      modifies this
      ensures View() == OnAcquire(old(View())) && Inv(View())
      ensures ticket == old(next) && (held <==> old(holders) == {})
      ensures holders == if held then {ticket} else old(holders)
      ensures waiters == if held then old(waiters) else old(waiters) + [ticket]
    {
      AcquireKeepsInv(View());
      ticket := next;
      next := next + 1;
      if !locked {
        locked := true;
        holders, granted := holders + {ticket}, granted + [ticket];
        return ticket, true;
      }
      waiters := waiters + [ticket];
      held := false;
    }

    /** The timer of a queued call: true when the call is rejected, false when it was already answered. */
    method Timer(ticket: Ticket) returns (timedOut: bool)
      requires Inv(View()) && Enabled(View(), TimerFires(ticket))
      modifies this
      ensures View() == OnTimer(old(View()), ticket) && Inv(View())
      ensures timedOut <==> ticket !in old(settled)
      ensures ticket !in waiters && (timedOut ==> ticket in rejected && ticket !in granted)
      ensures locked == old(locked) && holders == old(holders)
    {
      TimerKeepsInv(View(), ticket);
      if ticket in settled {
        return false;
      }
      TimerTurnsAway(View(), ticket);
      settled := settled + {ticket};
      waiters := Without(waiters, ticket);
      rejected := rejected + {ticket};
      timedOut := true;
    }

    /** The lock goes to the longest-queued call, or is freed when there is none. */
    method ReleaseLock(ghost ticket: Ticket)
      requires Inv(View()) && ticket in holders
      modifies this
      ensures View() == OnRelease(old(View()), ticket) && Inv(View())
      ensures old(waiters) != [] ==> locked && holders == {old(waiters)[0]}
      ensures old(waiters) == [] ==> !locked && holders == {}
    {
      ReleaseHandsOver(View(), ticket);
      holders := holders - {ticket};
      if |waiters| == 0 {
        locked := false;
        return;
      }
      var turn := waiters[0];
      waiters := waiters[1..];
      if turn in settled {
        assert false;
      } else {
        settled := settled + {turn};
        locked := true;
        holders, granted := holders + {turn}, granted + [turn];
      }
    }
  }
}
