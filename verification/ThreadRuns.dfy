/** What runs of the threads promise to sleepers and to waiters (devices/timer.c, threads/synch.c), told from the actions alone. */
module ThreadRuns {
  import opened Wrappers
  import opened ThreadState
  import opened Threads

  // ---- what most actions leave alone

  /** Clock, sleep list and alarm times are as they were. */
  predicate SameClock(k: Kernel, k': Kernel) {
    k'.ticks == k.ticks && k'.alarm == k.alarm && k'.core.sleeping == k.core.sleeping
  }

  lemma ThreadClock(k: Kernel, a: ThreadAction)
    requires Inv(k, {k.current}) && Enabled(k, OfThread(a))
    ensures SameClock(k, ThreadStep(k, a)) && ThreadStep(k, a).core.semas == k.core.semas
  {
  }

  lemma SemaClock(k: Kernel, a: SemaAction)
    requires Inv(k, {k.current}) && Enabled(k, OfSema(a))
    ensures SameClock(k, SemaStep(k, a))
  {
  }

  lemma LockClock(k: Kernel, a: LockAction)
    requires Inv(k, {k.current}) && Enabled(k, OfLock(a))
    ensures SameClock(k, LockStep(k, a))
  {
  }

  lemma OtherClock(k: Kernel, a: Action)
    requires Inv(k, {k.current}) && !(a.OfClock? && Enabled(k, a))
    ensures SameClock(k, Step(k, a))
  {
    hide Inv, ThreadStep, SemaStep, LockStep;
    if Enabled(k, a) {
      match a
      case OfThread(b) => ThreadClock(k, b);
      case OfSema(b) => SemaClock(k, b);
      case OfLock(b) => LockClock(k, b);
      case OfClock(_) =>
    }
  }

  // ---- ticks

  predicate IsTimer(k: Kernel, a: Action) {
    a == OfClock(DoTimer) && Enabled(k, a)
  }

  lemma ClockTicks(k: Kernel, a: ClockAction)
    requires Inv(k, {k.current}) && Enabled(k, OfClock(a))
    ensures ClockStep(k, a).ticks == k.ticks + if a.DoTimer? then 1 else 0
    ensures !a.DoSetAlarm? ==> ClockStep(k, a).alarm == k.alarm
    ensures a.DoSetAlarm? ==> forall t | t in k.alarm && t != k.current :: t in ClockStep(k, a).alarm && ClockStep(k, a).alarm[t] == k.alarm[t]
  {
    if a.DoTimer? {
      WakesTheDue(Ticked(k));
    }
  }

  lemma TicksStep(k: Kernel, a: Action)
    requires Inv(k, {k.current})
    ensures Step(k, a).ticks == k.ticks + if IsTimer(k, a) then 1 else 0
  {
    hide Inv, ClockStep, ThreadStep, SemaStep, LockStep;
    if a.OfClock? && Enabled(k, a) {
      ClockTicks(k, a.c);
    } else {
      OtherClock(k, a);
    }
  }

  lemma {:induction false} TicksGoUp(k: Kernel, actions: seq<Action>)
    requires Inv(k, {k.current})
    ensures k.ticks <= Run(k, actions).ticks
    decreases |actions|
  {
    if actions != [] {
      StepKeepsInv(k, actions[0]);
      TicksStep(k, actions[0]);
      TicksGoUp(Step(k, actions[0]), actions[1..]);
    }
  }

  // ---- the alarm time of a thread

  /** Thread t asks to be woken. */
  predicate Asks(k: Kernel, a: Action, t: Tid) {
    a.OfClock? && a.c.DoSetAlarm? && k.current == t
  }

  lemma AlarmStays(k: Kernel, a: Action, t: Tid)
    requires Inv(k, {k.current}) && t in k.alarm && !Asks(k, a, t)
    ensures t in Step(k, a).alarm && Step(k, a).alarm[t] == k.alarm[t]
  {
    hide Inv, ClockStep, ThreadStep, SemaStep, LockStep;
    if a.OfClock? && Enabled(k, a) {
      ClockTicks(k, a.c);
    } else {
      OtherClock(k, a);
    }
  }

  /** In this run t asks for nothing. */
  ghost predicate Quiet(k: Kernel, actions: seq<Action>, t: Tid)
    requires Inv(k, {k.current})
    decreases |actions|
  {
    actions == [] || (!Asks(k, actions[0], t) && (StepKeepsInv(k, actions[0]); Quiet(Step(k, actions[0]), actions[1..], t)))
  }

  lemma {:induction false} QuietKeepsAlarm(k: Kernel, actions: seq<Action>, t: Tid)
    requires Inv(k, {k.current}) && t in k.alarm && Quiet(k, actions, t)
    ensures t in Run(k, actions).alarm && Run(k, actions).alarm[t] == k.alarm[t]
    decreases |actions|
  {
    if actions != [] {
      StepKeepsInv(k, actions[0]);
      AlarmStays(k, actions[0], t);
      QuietKeepsAlarm(Step(k, actions[0]), actions[1..], t);
    }
  }

  // ---- sleepers

  /** t sleeps, and the tick that wakes it is wake. */
  ghost predicate Awaits(k: Kernel, t: Tid, wake: int) {
    && t in k.core.sleeping && t in k.alarm && k.ticks < wake
    && (k.alarm[t] == wake || (k.alarm[t] < wake && wake == k.ticks + 1))
  }

  lemma NotCurrent(k: Kernel, t: Tid)
    requires Inv(k, {k.current}) && t in k.core.sleeping
    ensures t != k.current
  {
    assert At(k.core.place, t, Asleep);
  }

  lemma ClockSleepers(k: Kernel, a: ClockAction, t: Tid)
    requires Inv(k, {k.current}) && Enabled(k, OfClock(a)) && !a.DoTimer? && t in k.core.sleeping
    ensures t in ClockStep(k, a).core.sleeping
  {
    if a.DoSleep? {
      var s, i := k.core.sleeping, Position(k.core.sleeping, k.alarm, k.alarm[k.current]);
      assert s == s[..i] + s[i..];
      assert ClockStep(k, a).core.sleeping == s[..i] + [k.current] + s[i..];
    }
  }

  /** Every action but the timer leaves a sleeper on its list. */
  lemma OthersLetSleep(k: Kernel, a: Action, t: Tid)
    requires Inv(k, {k.current}) && t in k.core.sleeping && !IsTimer(k, a)
    ensures t in Step(k, a).core.sleeping
  {
    hide Inv, ThreadStep, SemaStep, LockStep, ClockStep;
    if a.OfClock? && Enabled(k, a) {
      ClockSleepers(k, a.c, t);
    } else {
      OtherClock(k, a);
    }
  }

  /** The sleep list holds a thread once, and is in order. */
  lemma InvSorted(k: Kernel)
    requires Inv(k, {k.current})
    ensures Sorted(k.core.sleeping, k.alarm) && forall i: nat, j: nat | i < j < |k.core.sleeping| :: k.core.sleeping[i] != k.core.sleeping[j]
  {
  }

  /** A tick before the time leaves it there too; the tick of the time puts it on the ready list. */
  lemma TickOfTime(k: Kernel, t: Tid, wake: int)
    requires Inv(k, {k.current}) && Awaits(k, t, wake)
    ensures k.ticks + 1 < wake ==> t in Timer(k).core.sleeping
    ensures k.ticks + 1 == wake ==> t !in Timer(k).core.sleeping && t in Timer(k).core.ready
  {
    hide Inv, Timer, Due;
    TimerWakesTheDue(k);
    InvSorted(k);
    var s, d := k.core.sleeping, Due(k.core.sleeping, k.alarm, k.ticks + 1);
    var i: nat :| i < |s| && s[i] == t;
    assert i < d ==> s[..d][i] == t;
    assert i >= d ==> s[d..][i - d] == t;
  }

  lemma AwaitsStep(k: Kernel, a: Action, t: Tid, wake: int)
    requires Inv(k, {k.current}) && Awaits(k, t, wake)
    ensures Step(k, a).ticks < wake ==> Awaits(Step(k, a), t, wake)
    ensures Step(k, a).ticks >= wake ==> IsTimer(k, a) && t in Step(k, a).core.ready && t !in Step(k, a).core.sleeping
  {
    hide Inv;
    TicksStep(k, a);
    NotCurrent(k, t);
    AlarmStays(k, a, t);
    if IsTimer(k, a) {
      TickOfTime(k, t, wake);
    } else {
      OthersLetSleep(k, a, t);
    }
  }

  /** The n-th action of the run is the tick wake, and moves t from the sleep list to the ready list. */
  ghost predicate WokenBy(k: Kernel, actions: seq<Action>, n: nat, t: Tid, wake: int)
    requires Inv(k, {k.current}) && n < |actions|
  {
    var before, after := Run(k, actions[..n]), Run(k, actions[..n + 1]);
    && actions[n] == OfClock(DoTimer) && before.ticks + 1 == wake == after.ticks
    && t in before.core.sleeping && t !in after.core.sleeping && t in after.core.ready
  }

  ghost predicate WokenIn(k: Kernel, actions: seq<Action>, t: Tid, wake: int)
    requires Inv(k, {k.current})
  {
    exists n: nat | n < |actions| :: WokenBy(k, actions, n, t, wake)
  }

  /** A run begins with its first action. */
  lemma RunFrom(k: Kernel, k1: Kernel, actions: seq<Action>, n: nat)
    requires Inv(k, {k.current}) && n < |actions| && k1 == Step(k, actions[0]) && Inv(k1, {k1.current})
    ensures Run(k, actions[..n + 1]) == Run(k1, actions[1..][..n])
  {
    hide Inv, Step;
    assert actions[..n + 1][1..] == actions[1..][..n];
  }

  lemma WokenNow(k: Kernel, k1: Kernel, actions: seq<Action>, t: Tid, wake: int)
    requires Inv(k, {k.current}) && actions != [] && k1 == Step(k, actions[0]) && Inv(k1, {k1.current})
    requires actions[0] == OfClock(DoTimer) && k.ticks + 1 == wake == k1.ticks
    requires t in k.core.sleeping && t !in k1.core.sleeping && t in k1.core.ready
    ensures WokenIn(k, actions, t, wake)
  {
    hide Inv, Step;
    RunFrom(k, k1, actions, 0);
    assert actions[..0] == [] && actions[1..][..0] == [];
    assert WokenBy(k, actions, 0, t, wake);
  }

  lemma WokenLater(k: Kernel, k1: Kernel, actions: seq<Action>, t: Tid, wake: int)
    requires Inv(k, {k.current}) && actions != [] && k1 == Step(k, actions[0]) && Inv(k1, {k1.current})
    requires WokenIn(k1, actions[1..], t, wake)
    ensures WokenIn(k, actions, t, wake)
  {
    hide Inv, Step, Run;
    var n: nat :| n < |actions[1..]| && WokenBy(k1, actions[1..], n, t, wake);
    RunFrom(k, k1, actions, n);
    RunFrom(k, k1, actions, n + 1);
    assert WokenBy(k, actions, n + 1, t, wake);
  }

  /** Until the tick wake, t sleeps; that tick puts it on the ready list. */
  lemma {:induction false} RunAwaits(k: Kernel, actions: seq<Action>, t: Tid, wake: int)
    requires Inv(k, {k.current}) && Awaits(k, t, wake)
    ensures Run(k, actions).ticks < wake ==> Awaits(Run(k, actions), t, wake)
    ensures Run(k, actions).ticks >= wake ==> WokenIn(k, actions, t, wake)
    decreases |actions|
  {
    hide Inv, Step, WokenIn;
    if actions != [] {
      StepKeepsInv(k, actions[0]);
      AwaitsStep(k, actions[0], t, wake);
      TicksStep(k, actions[0]);
      var k1 := Step(k, actions[0]);
      if k1.ticks < wake {
        RunAwaits(k1, actions[1..], t, wake);
        if Run(k, actions).ticks >= wake {
          WokenLater(k, k1, actions, t, wake);
        }
      } else {
        TicksGoUp(k1, actions[1..]);
        WokenNow(k, k1, actions, t, wake);
      }
    }
  }

  /** The first tick that is both past the state k2, where the thread lies down, and delay ticks past k, where it asked. */
  function WakeTick(k: Kernel, delay: int, k2: Kernel): int {
    if k.ticks + delay > k2.ticks then k.ticks + delay else k2.ticks + 1
  }

  /**
   * timer_sleep: a thread that asks for delay ticks, and later, not having asked again, goes to sleep, is on the sleep list
   * in every state of every run up to the first tick that is delay ticks past its asking and past its going to sleep; and
   * exactly that tick puts it on the ready list.
   */
  lemma SleepsAsAsked(k: Kernel, delay: int, mid: seq<Action>, later: seq<Action>, k1: Kernel, k2: Kernel, k3: Kernel, t: Tid)
    requires Inv(k, {k.current}) && k.current == t && Out(k)
    requires k1 == Step(k, OfClock(DoSetAlarm(delay))) && Inv(k1, {k1.current}) && Quiet(k1, mid, t)
    requires k2 == Run(k1, mid) && Inv(k2, {k2.current}) && k2.current == t && Out(k2) && t != k2.idle
    requires k3 == Step(k2, OfClock(DoSleep)) && Inv(k3, {k3.current})
    ensures var wake, k4 := WakeTick(k, delay, k2), Run(k3, later);
            if k4.ticks < wake then t in k4.core.sleeping else WokenIn(k3, later, t, wake)
  {
    hide Inv;
    AsksFor(k, delay);
    QuietKeepsAlarm(k1, mid, t);
    LiesDown(k2);
    RunAwaits(k3, later, t, WakeTick(k, delay, k2));
  }

  lemma AsksFor(k: Kernel, delay: int)
    requires Inv(k, {k.current}) && Out(k)
    ensures var k1 := Step(k, OfClock(DoSetAlarm(delay)));
            k.current in k1.alarm && k1.alarm[k.current] == k.ticks + delay
  {
  }

  /** A timer interrupt, which interrupts being on lets through, is one tick. */
  lemma TimerTicks(k: Kernel)
    requires Inv(k, {k.current}) && Out(k)
    ensures Step(k, OfClock(DoTimer)) == Timer(k) && Timer(k).ticks == k.ticks + 1
  {
    hide Inv, Timer;
    InvSorted(k);
    TimerWakesTheDue(k);
  }

  lemma LiesDown(k: Kernel)
    requires Inv(k, {k.current}) && Out(k) && k.current != k.idle && k.current in k.alarm
    ensures var k' := Step(k, OfClock(DoSleep));
            k.current in k'.core.sleeping && k'.alarm == k.alarm && k'.ticks == k.ticks
  {
    var i := Position(k.core.sleeping, k.alarm, k.alarm[k.current]);
    assert Step(k, OfClock(DoSleep)).core.sleeping == k.core.sleeping[..i] + [k.current] + k.core.sleeping[i..];
  }

  // ---- waiters

  /** The thread that blocks on semaphore s, if one does: it is at the test of sema_down and the value is zero. */
  ghost function JoinBy(k: Kernel, a: Action, s: Sid): seq<Tid>
    requires s < |k.core.semas|
  {
    if a == OfSema(DoDown(s)) && Enabled(k, a) && k.core.semas[s].value == 0 then [k.current] else []
  }

  /** Whether a waiter of s is woken: by sema_up, of its own or of lock_release, if there is a waiter. */
  ghost function WakeBy(k: Kernel, a: Action, s: Sid): nat
    requires s < |k.core.semas|
  {
    if (a == OfSema(DoUp(s)) || a == OfLock(DoUnlock(s))) && Enabled(k, a) && k.core.semas[s].waiters != [] then 1 else 0
  }

  lemma SemaWaiters(k: Kernel, a: SemaAction, s: Sid)
    requires Inv(k, {k.current}) && Enabled(k, OfSema(a)) && s < |k.core.semas|
    ensures var k' := SemaStep(k, a);
            && |k'.core.semas| == |k.core.semas|
            && k'.core.semas[s].waiters == (k.core.semas[s].waiters + JoinBy(k, OfSema(a), s))[WakeBy(k, OfSema(a), s)..]
            && (WakeBy(k, OfSema(a), s) > 0 ==> k'.core.ready == k.core.ready + [k.core.semas[s].waiters[0]])
  {
    assert k.core.semas[s].waiters + [] == k.core.semas[s].waiters;
  }

  lemma LockWaiters(k: Kernel, a: LockAction, s: Sid)
    requires Inv(k, {k.current}) && Enabled(k, OfLock(a)) && s < |k.core.semas|
    ensures var k' := LockStep(k, a);
            && |k'.core.semas| == |k.core.semas| && k'.core.semas[s].waiters == k.core.semas[s].waiters[WakeBy(k, OfLock(a), s)..]
            && (WakeBy(k, OfLock(a), s) > 0 ==> k'.core.ready == k.core.ready + [k.core.semas[s].waiters[0]])
  {
  }

  lemma ClockWaiters(k: Kernel, a: ClockAction, s: Sid)
    requires Inv(k, {k.current}) && Enabled(k, OfClock(a)) && s < |k.core.semas|
    ensures ClockStep(k, a).core.semas == k.core.semas
  {
    if a.DoTimer? {
      AwakeSemas(Ticked(k));
    }
  }

  lemma {:induction false} AwakeSemas(k: Kernel)
    requires Sorted(k.core.sleeping, k.alarm)
    ensures AwakeDue(k).core.semas == k.core.semas
    decreases |k.core.sleeping|
  {
    if k.core.sleeping != [] && k.ticks >= k.alarm[k.core.sleeping[0]] {
      AwakeSemas(Awake(k));
    }
  }

  /** A step appends the thread that blocks, or takes off the first waiter, which goes to the end of the ready list. */
  lemma WaitersStep(k: Kernel, a: Action, s: Sid)
    requires Inv(k, {k.current}) && s < |k.core.semas|
    ensures var k' := Step(k, a);
            && |k'.core.semas| == |k.core.semas| && WakeBy(k, a, s) <= |k.core.semas[s].waiters|
            && k'.core.semas[s].waiters == (k.core.semas[s].waiters + JoinBy(k, a, s))[WakeBy(k, a, s)..]
            && (WakeBy(k, a, s) > 0 ==> k'.core.ready == k.core.ready + [k.core.semas[s].waiters[0]])
  {
    hide Inv, ThreadStep, SemaStep, LockStep, ClockStep;
    assert k.core.semas[s].waiters + [] == k.core.semas[s].waiters;
    if Enabled(k, a) {
      match a
      case OfThread(b) => ThreadClock(k, b);
      case OfSema(b) => SemaWaiters(k, b, s);
      case OfLock(b) => LockWaiters(k, b, s);
      case OfClock(b) => ClockWaiters(k, b, s);
    }
  }

  ghost function Joins(k: Kernel, actions: seq<Action>, s: Sid): seq<Tid>
    requires Inv(k, {k.current}) && s < |k.core.semas|
    decreases |actions|
  {
    if actions == [] then [] else
    StepKeepsInv(k, actions[0]); WaitersStep(k, actions[0], s);
    JoinBy(k, actions[0], s) + Joins(Step(k, actions[0]), actions[1..], s)
  }

  ghost function Wakes(k: Kernel, actions: seq<Action>, s: Sid): nat
    requires Inv(k, {k.current}) && s < |k.core.semas|
    decreases |actions|
  {
    if actions == [] then 0 else
    StepKeepsInv(k, actions[0]); WaitersStep(k, actions[0], s);
    WakeBy(k, actions[0], s) + Wakes(Step(k, actions[0]), actions[1..], s)
  }

  /** First come, first served: in every run the waiters are those that blocked, in that order, less the first ones, as many as were woken. */
  lemma {:induction false} FirstComeFirstServed(k: Kernel, actions: seq<Action>, s: Sid)
    requires Inv(k, {k.current}) && s < |k.core.semas|
    ensures var k', w := Run(k, actions), k.core.semas[s].waiters + Joins(k, actions, s);
            s < |k'.core.semas| && Wakes(k, actions, s) <= |w| && k'.core.semas[s].waiters == w[Wakes(k, actions, s)..]
    decreases |actions|
  {
    hide Inv, Step, JoinBy, WakeBy;
    if actions != [] {
      StepKeepsInv(k, actions[0]);
      WaitersStep(k, actions[0], s);
      var k1 := Step(k, actions[0]);
      FirstComeFirstServed(k1, actions[1..], s);
      Shifted(k.core.semas[s].waiters, JoinBy(k, actions[0], s), WakeBy(k, actions[0], s), Joins(k1, actions[1..], s), Wakes(k1, actions[1..], s));
    }
  }

  lemma Shifted(w: seq<Tid>, j: seq<Tid>, n: nat, rest: seq<Tid>, m: nat)
    requires n <= |w + j| && m <= |(w + j)[n..] + rest|
    ensures n + m <= |w + (j + rest)| && ((w + j)[n..] + rest)[m..] == (w + (j + rest))[n + m..]
  {
    assert (w + j)[n..] + rest == (w + (j + rest))[n..];
  }

  // ---- every call goes through

  /** The thread on the processor is about to run code of its own, and is not the idle thread. */
  predicate AtLarge(k: Kernel) {
    Out(k) && k.current != k.idle
  }

  lemma SemaCounts(k: Kernel)
    requires Inv(k, {k.current})
    ensures |k.core.semas| == |k.downs| == |k.ups|
  {
  }

  /** sema_down takes one off a positive value and goes on; at zero the caller becomes the last of the waiters. */
  lemma DownTakes(k: Kernel, s: Sid)
    requires Inv(k, {k.current}) && AtLarge(k) && s < |k.core.semas|
    ensures var k', m := Step(k, OfSema(DoDown(s))), k.core.semas[s];
            && k'.core.semas == k.core.semas[s := if m.value > 0 then m.(value := m.value - 1) else m.(waiters := m.waiters + [k.current])]
            && (m.value > 0 ==> AtLarge(k') && k'.current == k.current)
  {
    hide Inv, Schedule;
    SemaCounts(k);
    if k.core.semas[s].value == 0 {
      ScheduleLeaves(Wait(k, s));
    }
  }

  /** sema_try_down takes one off a positive value, and else does nothing. */
  lemma TryDownTakes(k: Kernel, s: Sid)
    requires Inv(k, {k.current}) && Out(k) && s < |k.core.semas|
    ensures var k', m := Step(k, OfSema(DoTryDown(s))), k.core.semas[s];
            && Out(k') && k'.current == k.current
            && k'.core.semas == if m.value > 0 then k.core.semas[s := m.(value := m.value - 1)] else k.core.semas
  {
    hide Inv;
    SemaCounts(k);
  }

  /** sema_up adds one, whoever calls it, and makes the first of the waiters ready to try again. */
  lemma UpGives(k: Kernel, s: Sid)
    requires Inv(k, {k.current}) && Out(k) && s < |k.core.semas| && s !in k.locks
    ensures var k', m := Step(k, OfSema(DoUp(s))), k.core.semas[s];
            && Out(k') && k'.current == k.current
            && k'.core.semas == k.core.semas[s := Sema(m.value + 1, if m.waiters == [] then [] else m.waiters[1..])]
            && k'.core.ready == k.core.ready + if m.waiters == [] then [] else m.waiters[..1]
  {
    hide Inv;
    SemaCounts(k);
  }

  /** A thread that yields, or exits, makes way for the first of the ready list. */
  lemma MakesWay(k: Kernel, a: ThreadAction)
    requires Inv(k, {k.current}) && AtLarge(k) && a in {DoYield, DoExit}
    ensures var k', queue := Step(k, OfThread(a)), if a.DoYield? then k.core.ready + [k.current] else k.core.ready;
            if queue == [] then k'.current == k.idle && k'.core.ready == []
            else k'.current == queue[0] && k'.core.ready == queue[1..]
  {
    hide Inv;
  }

  /** A thread that is created stands at the end of the ready list. */
  lemma CreateQueues(k: Kernel, t: Tid)
    requires Inv(k, {k.current}) && Out(k) && t !in k.status
    ensures var k' := Step(k, OfThread(DoCreate(t))); k'.core.ready == k.core.ready + [t] && k'.current == k.current
  {
    hide Inv;
  }

  lemma TwoSteps(k: Kernel, a: Action, b: Action)
    requires Inv(k, {k.current})
    ensures var k1 := Step(k, a); Inv(k1, {k1.current}) && Run(k, [a, b]) == Step(k1, b)
  {
    hide Inv, Step;
    StepKeepsInv(k, a);
    var k1 := Step(k, a);
    StepKeepsInv(k1, b);
    assert [a, b][1..] == [b] && [b][1..] == [];
    assert Run(k, [a, b]) == Run(k1, [b]);
    assert Run(k1, [b]) == Run(Step(k1, b), []);
  }

  lemma LockHolds(k: Kernel, s: Sid)
    requires Inv(k, {k.current}) && s in k.locks
    ensures s < |k.core.semas| == |k.downs| == |k.ups| && LockOk(k.core.semas[s], k.locks[s])
  {
  }

  /** lock_acquire makes the caller holder in two steps if and only if the lock is free; else it joins the waiters, as the last. */
  lemma AcquireTakes(k: Kernel, s: Sid)
    requires Inv(k, {k.current}) && AtLarge(k) && s in k.locks
    ensures s < |k.core.semas|
    ensures k.core.semas[s].value > 0 ==>
              var k2 := Run(k, [OfSema(DoDown(s)), OfLock(DoSetHolder(s))]);
              && AtLarge(k2) && k2.current == k.current && s in k2.locks && k2.locks[s].holder == Some(k.current)
              && k2.core.semas == k.core.semas[s := k.core.semas[s].(value := 0)]
    ensures k.core.semas[s].value == 0 ==>
              var k1 := Step(k, OfSema(DoDown(s)));
              s < |k1.core.semas| && k1.core.semas[s].waiters == k.core.semas[s].waiters + [k.current] && k1.locks == k.locks
  {
    hide Inv, Schedule, LockOk, Run;
    LockHolds(k, s);
    if k.core.semas[s].value > 0 {
      AtMostOne(k.core.semas[s], k.locks[s]);
      TwoSteps(k, OfSema(DoDown(s)), OfLock(DoSetHolder(s)));
    } else {
      ScheduleLeaves(Wait(k, s));
    }
  }

  lemma AtMostOne(sema: Sema, lock: Lock)
    requires LockOk(sema, lock)
    ensures sema.value <= 1
  {
  }

  lemma ScheduleLeaves(k: Kernel)
    ensures Schedule(k).core.semas == k.core.semas && Schedule(k).locks == k.locks
  {
  }

  /** The holder gives the lock back in two steps: nobody is inside, and the first of the waiters is ready to try again. */
  lemma ReleaseGivesBack(k: Kernel, s: Sid)
    requires Inv(k, {k.current}) && AtLarge(k) && s in k.locks && k.locks[s].holder == Some(k.current)
    ensures s < |k.core.semas|
    ensures var k2 := Run(k, [OfLock(DoClearHolder(s)), OfLock(DoUnlock(s))]);
            var w := k.core.semas[s].waiters;
            && AtLarge(k2) && k2.current == k.current && k2.locks == k.locks[s := Lock(None, map[])]
            && k2.core.semas == k.core.semas[s := Sema(1, if w == [] then [] else w[1..])]
            && k2.core.ready == k.core.ready + if w == [] then [] else w[..1]
  {
    hide Inv, LockOk, Run;
    LockHolds(k, s);
    HolderIsInside(k.core.semas[s], k.locks[s], k.current);
    OneInside(k.core.semas[s], k.locks[s], k.current);
    TwoSteps(k, OfLock(DoClearHolder(s)), OfLock(DoUnlock(s)));
    var k1 := Step(k, OfLock(DoClearHolder(s)));
    assert k1.locks[s].inside - {k.current} == map[];
  }

  lemma HolderIsInside(sema: Sema, lock: Lock, t: Tid)
    requires LockOk(sema, lock) && lock.holder == Some(t)
    ensures t in lock.inside
  {
  }
}
