/**
 * The same kernel as an object whose methods change its lists in place.  Each is a step of Threads and keeps the
 * invariant, so a run of the machine has what is proved of all runs.
 */
module ThreadMachine {
  import opened Wrappers
  import opened ThreadState
  import opened Threads

  lemma InvSizes(k: Kernel)
    requires Inv(k, {k.current})
    ensures |k.core.semas| == |k.ups| == |k.downs| && Sorted(k.core.sleeping, k.alarm)
    ensures forall s | s in k.locks :: s < |k.core.semas|
  {
  }

  lemma TimerIs(k: Kernel)
    requires Sorted(k.core.sleeping, k.alarm)
    ensures Timer(k) == AwakeDue(k.(ticks := k.ticks + 1))
  {
  }

  /** A timer interrupt moves just the sleepers that are due to the ready list, first those with the earliest alarm. */
  ghost predicate WokeTheDue(k: Kernel, k': Kernel) {
    var n := |k.core.ready|;
    && k'.ticks == k.ticks + 1 && k'.alarm == k.alarm && k.core.ready <= k'.core.ready
    && k.core.sleeping == k'.core.ready[n..] + k'.core.sleeping
    && (forall i: nat | n <= i < |k'.core.ready| :: k'.core.ready[i] in k.alarm && k.alarm[k'.core.ready[i]] <= k'.ticks)
    && (forall i: nat | i < |k'.core.sleeping| :: k'.core.sleeping[i] in k.alarm && k.alarm[k'.core.sleeping[i]] > k'.ticks)
  }

  lemma TimerMoves(k: Kernel)
    requires Inv(k, {k.current})
    ensures Sorted(k.core.sleeping, k.alarm) && WokeTheDue(k, Timer(k))
  {
    TimerWakesTheDue(k);
    WakesTheDue(Ticked(k));
    var k', d := Timer(k), Due(k.core.sleeping, k.alarm, k.ticks + 1);
    assert k'.core.ready[|k.core.ready|..] == k.core.sleeping[..d];
    forall i: nat | |k.core.ready| <= i < |k'.core.ready|
      ensures k'.core.ready[i] in k.alarm && k.alarm[k'.core.ready[i]] <= k'.ticks
    {
      assert k'.core.ready[i] == k.core.sleeping[i - |k.core.ready|];
    }
  }

  /** schedule, field by field. */
  lemma ScheduleIs(k: Kernel, next: Tid, ready: seq<Tid>, departures: seq<Tid>)
    requires if k.core.ready == [] then next == k.idle && ready == [] && departures == k.departures
             else next == k.core.ready[0] && ready == k.core.ready[1..] && departures == k.departures + [next]
    ensures Schedule(k) == k.(core := k.core.(place := k.core.place[next := OnCpu], ready := ready), current := next,
                              status := k.status[next := Running], departures := departures, schedules := k.schedules + 1)
  {
  }

  /** sema_up, field by field. */
  lemma SemaUpIs(k: Kernel, s: Sid, semas: seq<Sema>, ups: seq<nat>)
    requires s < |k.core.semas| == |k.ups| && ups == k.ups[s := k.ups[s] + 1]
    requires semas == k.core.semas[s := Sema(k.core.semas[s].value + 1, if k.core.semas[s].waiters == [] then [] else k.core.semas[s].waiters[1..])]
    ensures var w := k.core.semas[s].waiters;
            SemaUp(k, s) ==
              if w == [] then k.(core := k.core.(semas := semas), ups := ups)
              else k.(core := k.core.(semas := semas, ready := k.core.ready + [w[0]], place := k.core.place[w[0] := OnReady]), ups := ups,
                      status := k.status[w[0] := Ready], arrivals := k.arrivals + [w[0]])
  {
  }

  class Machine {
    const idle: Tid
    var current: Tid
    var status: map<Tid, Status>
    var alarm: map<Tid, int>
    var ticks: int
    var ready: seq<Tid>
    var sleeping: seq<Tid>
    var semas: seq<Sema>
    var pc: map<Tid, Pc>
    var locks: map<Sid, Lock>

    ghost var place: map<Tid, Place>
    ghost var arrivals: seq<Tid>
    ghost var departures: seq<Tid>
    ghost var schedules: nat
    ghost const init: seq<nat>
    ghost var ups: seq<nat>
    ghost var downs: seq<nat>

    ghost function State(): Kernel
      reads this
    {
      Kernel(Core(place, pc, ready, sleeping, semas), idle, current, status, alarm, ticks, locks,
             arrivals, departures, schedules, init, ups, downs)
    }

    ghost predicate Valid()
      reads this
    {
      Inv(State(), {current})
    }

    /** thread_init and thread_start, with semaphores of the values init, some of them the semaphores of locks. */
    constructor (idle: Tid, main: Tid, init: seq<nat>, lockIds: set<Sid>)
      requires idle != main && forall s | s in lockIds :: s < |init| && init[s] == 1
      ensures Valid() && State() == Boot(idle, main, init, lockIds)
    {
      this.idle, current, ticks := idle, main, 0;
      status := map[idle := Blocked, main := Running];
      alarm, ready, sleeping := map[], [], [];
      semas := seq(|init|, i requires 0 <= i < |init| => Sema(init[i], []));
      pc := map[idle := Outside, main := Outside];
      locks := map s | s in lockIds :: Lock(None, map[]);
      place := map[idle := Idling, main := OnCpu];
      arrivals, departures, schedules := [], [], 0;
      this.init, ups, downs := init, seq(|init|, _ => 0), seq(|init|, _ => 0);
      new;
      BootInv(idle, main, init, lockIds);
      assert State() == Boot(idle, main, init, lockIds);
    }

    // ---- the pieces

    /** next_thread_to_run. */
    method NextThread() returns (next: Tid)
      modifies this`ready, this`departures
      ensures if old(ready) == [] then next == idle && ready == [] && departures == old(departures)
              else next == old(ready)[0] && ready == old(ready)[1..] && departures == old(departures) + [next]
    {
      next := idle;
      if ready != [] {
        next := ready[0];
        ready := ready[1..];
        departures := departures + [next];
      }
    }

    /** schedule. */
    method Switch()
      modifies this`ready, this`departures, this`current, this`status, this`place, this`schedules
      ensures State() == Schedule(old(State()))
    {
      hide Schedule;
      ghost var k := State();
      current := NextThread();
      ScheduleIs(k, current, ready, departures);
      Occupy(current);
    }

    /** The rest of schedule and thread_schedule_tail: the thread has the processor. */
    method Occupy(t: Tid)
      modifies this`status, this`place, this`schedules
      ensures schedules == old(schedules) + 1 && status == old(status)[t := Running] && place == old(place)[t := OnCpu]
    {
      schedules := schedules + 1;
      status := status[t := Running];
      place := place[t := OnCpu];
    }

    method MakeReady(t: Tid)
      modifies this`ready, this`status, this`place, this`arrivals
      ensures ready == old(ready) + [t] && arrivals == old(arrivals) + [t]
      ensures status == old(status)[t := Ready] && place == old(place)[t := OnReady]
    {
      ready := ready + [t];
      status := status[t := Ready];
      place, arrivals := place[t := OnReady], arrivals + [t];
    }

    /** The running thread joins the waiters. */
    method JoinWaiters(s: Sid)
      requires s < |semas|
      modifies this`semas, this`pc, this`place, this`status
      ensures State() == Wait(old(State()), s)
    {
      semas := semas[s := semas[s].(waiters := semas[s].waiters + [current])];
      pc := pc[current := InDown(s)];
      place := place[current := Waiting(s)];
      status := status[current := Blocked];
    }

    /** The running thread takes the semaphore. */
    method TakeTurn(s: Sid)
      requires s < |semas| == |downs| && semas[s].value > 0
      modifies this`semas, this`pc, this`downs, this`locks
      ensures State() == Take(old(State()), s)
    {
      semas := semas[s := semas[s].(value := semas[s].value - 1)];
      pc := pc[current := Outside];
      downs := downs[s := downs[s] + 1];
      if s in locks {
        locks := locks[s := Entered(locks[s], current)];
      }
    }

    method RaiseSema(s: Sid)
      requires s < |semas| == |ups|
      modifies this`semas, this`ups, this`ready, this`status, this`place, this`arrivals
      ensures State() == SemaUp(old(State()), s)
    {
      hide SemaUp;
      ghost var k := State();
      WakeFirst(s);
      semas := semas[s := semas[s].(value := semas[s].value + 1)];
      ups := ups[s := ups[s] + 1];
      SemaUpIs(k, s, semas, ups);
    }

    /** The first waiter, if there is one, leaves the list and becomes ready. */
    method WakeFirst(s: Sid)
      requires s < |semas|
      modifies this`semas, this`ready, this`status, this`place, this`arrivals
      ensures var waiters := old(semas)[s].waiters;
              if waiters == [] then
                semas == old(semas) && ready == old(ready) && status == old(status) && place == old(place) && arrivals == old(arrivals)
              else
                && semas == old(semas)[s := old(semas)[s].(waiters := waiters[1..])] && ready == old(ready) + [waiters[0]]
                && status == old(status)[waiters[0] := Ready] && place == old(place)[waiters[0] := OnReady]
                && arrivals == old(arrivals) + [waiters[0]]
    {
      var waiters := semas[s].waiters;
      if waiters != [] {
        semas := semas[s := semas[s].(waiters := waiters[1..])];
        MakeReady(waiters[0]);
      }
    }

    /** The loop of list_insert_ordered on the sleep list. */
    method FindPlace() returns (i: nat)
      requires Sorted(sleeping, alarm) && current in alarm
      ensures i == Position(sleeping, alarm, alarm[current])
    {
      i := 0;
      while i < |sleeping| && alarm[current] >= alarm[sleeping[i]]
        invariant i <= |sleeping|
        invariant Position(sleeping, alarm, alarm[current]) == i + Position(sleeping[i..], alarm, alarm[current])
      {
        assert sleeping[i..][1..] == sleeping[i + 1..];
        i := i + 1;
      }
    }

    /** The running thread goes to its place on the sleep list. */
    method JoinSleepers()
      requires Sorted(sleeping, alarm) && current in alarm
      modifies this`sleeping, this`place, this`status
      ensures State() == LieDown(old(State()))
    {
      var i := FindPlace();
      status := status[current := Blocked];
      sleeping := sleeping[..i] + [current] + sleeping[i..];
      place := place[current := Asleep];
    }

    /** thread_awake. */
    method ThreadAwake()
      requires sleeping != []
      modifies this`sleeping, this`ready, this`status, this`place, this`arrivals
      ensures State() == Awake(old(State()))
    {
      var t := sleeping[0];
      sleeping := sleeping[1..];
      MakeReady(t);
    }

    /** The loop of timer_interrupt. */
    method WakeDue()
      requires Sorted(sleeping, alarm)
      modifies this`sleeping, this`ready, this`status, this`place, this`arrivals
      ensures State() == AwakeDue(old(State()))
    {
      ghost var goal := AwakeDue(State());
      while sleeping != [] && ticks >= alarm[sleeping[0]]
        invariant Sorted(sleeping, alarm) && AwakeDue(State()) == goal
        decreases |sleeping|
      {
        ThreadAwake();
      }
    }

    // ---- the operations

    method ThreadYield()
      requires Valid()
      modifies this
      ensures Valid() && State() == Yield(old(State()))
    {
      hide Inv;
      YieldKeepsInv(State());
      if current != idle {
        MakeReady(current);
      } else {
        status := status[current := Ready];
        place := place[current := Idling];
      }
      Switch();
    }

    /** The idle thread blocks. */
    method IdleThread()
      requires Valid() && current == idle
      modifies this
      ensures Valid() && State() == IdleBlock(old(State()))
    {
      hide Inv;
      IdleBlockKeepsInv(State());
      status := status[current := Blocked];
      place := place[current := Idling];
      Switch();
    }

    method ThreadCreate(t: Tid)
      requires Valid() && t !in status
      modifies this
      ensures Valid() && State() == Create(old(State()), t)
    {
      hide Inv;
      ghost var k := State();
      CreateKeepsInv(k, t);
      pc := pc[t := Outside];
      MakeReady(t);
      assert State() == Create(k, t);
    }

    method ThreadExit()
      requires Valid() && current != idle && Out(State())
      modifies this
      ensures Valid() && State() == Exit(old(State()))
    {
      hide Inv;
      ExitKeepsInv(State());
      status := status - {current};
      place, pc := place - {current}, pc - {current};
      Switch();
    }

    /** One pass through the test of sema_down: the running thread blocks, or takes the semaphore. */
    method DownTurn(s: Sid) returns (done: bool)
      requires Valid() && current != idle && AtTest(State().core, current, s)
      modifies this
      ensures Valid() && State() == SemaDown(old(State()), s) && done == (old(semas)[s].value > 0)
    {
      hide Inv;
      SemaDownKeepsInv(State(), s);
      InvSizes(State());
      done := semas[s].value > 0;
      if done {
        TakeTurn(s);
      } else {
        JoinWaiters(s);
        Switch();
      }
    }

    /** sema_try_down. */
    method TryDown(s: Sid) returns (done: bool)
      requires Valid() && AtTest(State().core, current, s)
      modifies this
      ensures Valid() && done == (old(semas)[s].value > 0) && State() == if done then Take(old(State()), s) else old(State())
    {
      hide Inv;
      InvSizes(State());
      done := semas[s].value > 0;
      if done {
        TakeKeepsInv(State(), s);
        TakeTurn(s);
      }
    }

    /** sema_up of a semaphore that is not a lock's. */
    method Raise(s: Sid)
      requires Valid() && s < |semas| && s !in locks
      modifies this
      ensures Valid() && State() == SemaUp(old(State()), s)
    {
      hide Inv;
      SemaUpKeepsInv(State(), s);
      InvSizes(State());
      RaiseSema(s);
    }

    /** The last line of lock_acquire. */
    method BecomeHolder(s: Sid)
      requires Valid() && InPhase(State(), s, Got)
      modifies this
      ensures Valid() && State() == SetHolder(old(State()), s) && locks[s].holder == Some(current)
    {
      hide Inv;
      SetHolderKeepsInv(State(), s);
      locks := locks[s := Lock(Some(current), locks[s].inside[current := Holding])];
    }

    /** The first line of lock_release. */
    method GiveUp(s: Sid)
      requires Valid() && s in locks && locks[s].holder == Some(current)
      modifies this
      ensures Valid() && State() == ClearHolder(old(State()), s)
    {
      hide Inv;
      ClearHolderKeepsInv(State(), s);
      locks := locks[s := Lock(None, locks[s].inside[current := Releasing])];
    }

    /** The sema_up of lock_release. */
    method Leave(s: Sid)
      requires Valid() && InPhase(State(), s, Releasing)
      modifies this
      ensures Valid() && State() == Unlock(old(State()), s)
    {
      hide Inv, SemaUp;
      UnlockKeepsInv(State(), s);
      InvSizes(State());
      RaiseSema(s);
      locks := locks[s := locks[s].(inside := locks[s].inside - {current})];
    }

    /** timer_sleep up to the call of thread_sleep. */
    method SetTimer(delay: int)
      requires Valid()
      modifies this
      ensures Valid() && State() == SetAlarm(old(State()), delay)
    {
      hide Inv;
      SetAlarmKeepsInv(State(), delay);
      alarm := alarm[current := ticks + delay];
    }

    /** thread_sleep. */
    method ThreadSleep()
      requires Valid() && current != idle && current in alarm && Out(State())
      modifies this
      ensures Valid() && State() == Sleep(old(State()))
    {
      hide Inv;
      SleepKeepsInv(State());
      InvSizes(State());
      JoinSleepers();
      Switch();
    }

    /** timer_interrupt. */
    method TimerInterrupt()
      requires Valid()
      modifies this
      ensures Valid() && State() == Timer(old(State())) && WokeTheDue(old(State()), State())
    {
      hide Inv, Timer, AwakeDue, WokeTheDue, Sorted;
      ghost var k := State();
      TimerKeepsInv(k);
      TimerMoves(k);
      ticks := ticks + 1;
      WakeDue();
      assert State() == Timer(k) by {
        TimerIs(k);
      }
    }

    // ---- runs

    method IsOut() returns (out: bool)
      ensures out == Out(State())
    {
      out := current in pc && pc[current] == Outside;
    }

    /** A thread action that can come next is performed. */
    method DoThread(a: ThreadAction)
      requires Valid() && Enabled(State(), OfThread(a))
      modifies this
      ensures Valid() && State() == ThreadStep(old(State()), a)
    {
      match a
      case DoYield => ThreadYield();
      case DoIdleBlock => IdleThread();
      case DoCreate(t) => ThreadCreate(t);
      case DoExit => ThreadExit();
    }

    method DoSema(a: SemaAction)
      requires Valid() && Enabled(State(), OfSema(a))
      modifies this
      ensures Valid() && State() == SemaStep(old(State()), a)
    {
      match a
      case DoDown(s) => var _ := DownTurn(s);
      case DoTryDown(s) => var _ := TryDown(s);
      case DoUp(s) => Raise(s);
    }

    method DoLock(a: LockAction)
      requires Valid() && Enabled(State(), OfLock(a))
      modifies this
      ensures Valid() && State() == LockStep(old(State()), a)
    {
      match a
      case DoSetHolder(s) => BecomeHolder(s);
      case DoClearHolder(s) => GiveUp(s);
      case DoUnlock(s) => Leave(s);
    }

    method DoClock(a: ClockAction)
      requires Valid() && Enabled(State(), OfClock(a))
      modifies this
      ensures Valid() && State() == ClockStep(old(State()), a)
    {
      match a
      case DoSetAlarm(delay) => SetTimer(delay);
      case DoSleep => ThreadSleep();
      case DoTimer => TimerInterrupt();
    }

    /** Whether the action can come next. */
    method CanDo(a: Action) returns (ok: bool)
      ensures ok == Enabled(State(), a)
    {
      var out := IsOut();
      match a
      case OfThread(DoIdleBlock) => ok := out && current == idle;
      case OfThread(DoCreate(t)) => ok := out && t !in status;
      case OfThread(DoExit) => ok := out && current != idle;
      case OfSema(DoDown(s)) => ok := current != idle && s < |semas| && current in pc && pc[current] in {Outside, InDown(s)};
      case OfSema(DoTryDown(s)) => ok := out && s < |semas|;
      case OfSema(DoUp(s)) => ok := out && s < |semas| && s !in locks;
      case OfLock(DoSetHolder(s)) => ok := out && s in locks && current in locks[s].inside && locks[s].inside[current] == Got;
      case OfLock(DoClearHolder(s)) => ok := out && s in locks && locks[s].holder == Some(current);
      case OfLock(DoUnlock(s)) => ok := out && s in locks && current in locks[s].inside && locks[s].inside[current] == Releasing;
      case OfClock(DoSleep) => ok := out && current != idle && current in alarm;
      case _ => ok := out;
    }

    /** One step of a run; an action that cannot come next is skipped. */
    method Perform(a: Action)
      requires Valid()
      modifies this
      ensures Valid() && State() == Step(old(State()), a)
    {
      hide Inv, Enabled;
      var ok := CanDo(a);
      if ok {
        match a
        case OfThread(t) => DoThread(t);
        case OfSema(m) => DoSema(m);
        case OfLock(l) => DoLock(l);
        case OfClock(c) => DoClock(c);
      }
    }

    /** No more than the woken threads hold up the waiters of a semaphore, and the ups and downs account for its value. */
    ghost predicate NothingLost()
      reads this
    {
      && |init| == |ups| == |downs| == |semas|
      && forall s: Sid | s < |semas| ::
           && semas[s].value + downs[s] == init[s] + ups[s]
           && (semas[s].waiters != [] ==> semas[s].value <= |Woken(State().core, s)|)
    }

    /** At most one thread is inside a lock; a holder is inside. */
    ghost predicate Exclusive()
      reads this
    {
      forall s | s in locks ::
        && |locks[s].inside| <= 1
        && forall t: Tid | locks[s].holder == Some(t) :: locks[s].inside.Keys == {t}
    }

    /** What the invariant says of the machine. */
    lemma ValidMeans()
      requires Valid()
      ensures NothingLost() && Exclusive() && Sorted(sleeping, alarm)
    {
      forall s: Sid | s < |semas| ensures semas[s].waiters != [] ==> semas[s].value <= |Woken(State().core, s)| {
        assert NoneLost(State().core, s);
      }
      forall s, t: Tid | s in locks && locks[s].holder == Some(t) ensures locks[s].inside.Keys == {t} {
        OneInside(semas[s], locks[s], t);
      }
    }

    /**
     * Any run of the machine, the interrupt-free regions of all threads in any order: it is a run of Threads, and no
     * wakeup is lost, locks exclude, and the sleepers are in order.
     */
    method Run(actions: seq<Action>)
      requires Valid()
      modifies this
      ensures Valid() && State() == Threads.Run(old(State()), actions)
      ensures NothingLost() && Exclusive() && Sorted(sleeping, alarm)
    {
      ghost var k := State();
      assert actions[0..] == actions;
      for i := 0 to |actions|
        invariant Valid() && Threads.Run(State(), actions[i..]) == Threads.Run(k, actions)
      {
        assert actions[i..][1..] == actions[i + 1..];
        Perform(actions[i]);
      }
      ValidMeans();
    }
  }
}
