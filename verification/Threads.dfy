/** Threads, semaphores, locks and the alarm clock as steps (threads/thread.c, threads/synch.c, devices/timer.c). */
module Threads {
  import opened Wrappers
  import opened ThreadState

  datatype Status = Running | Ready | Blocked

  /** A thread's way through a lock: it has the semaphore, is the holder, no longer is the holder. */
  datatype Phase = Got | Holding | Releasing

  datatype Lock = Lock(holder: Option<Tid>, inside: map<Tid, Phase>)

  /**
   * The kernel between two regions with interrupts off.  arrivals and departures are the
   * threads put on and taken from the ready list, in order; ups and downs count the completed
   * operations on each semaphore.
   */
  datatype Kernel = Kernel(
    core: Core, idle: Tid, current: Tid, status: map<Tid, Status>, alarm: map<Tid, int>, ticks: int, locks: map<Sid, Lock>,
    arrivals: seq<Tid>, departures: seq<Tid>, schedules: nat, init: seq<nat>, ups: seq<nat>, downs: seq<nat>)

  // ---- the invariant

  predicate Fits(status: Status, place: Place) {
    match place
    case OnCpu => status == Running
    case OnReady => status == Ready
    case Asleep | Waiting(_) => status == Blocked
    case Idling => status != Running
  }

  ghost predicate StatusOk(status: map<Tid, Status>, place: map<Tid, Place>) {
    status.Keys == place.Keys && forall t | t in place :: Fits(status[t], place[t])
  }

  /** The sleep list is in order of alarm time. */
  ghost predicate Sorted(sleeping: seq<Tid>, alarm: map<Tid, int>) {
    && (forall i: nat | i < |sleeping| :: sleeping[i] in alarm)
    && forall i: nat, j: nat | i < j < |sleeping| :: alarm[sleeping[i]] <= alarm[sleeping[j]]
  }

  /** Exactly one of the semaphore and the threads has the lock, and holder says which thread. */
  ghost predicate LockOk(sema: Sema, lock: Lock) {
    && sema.value + |lock.inside| == 1
    && forall t: Tid :: lock.holder == Some(t) <==> t in lock.inside && lock.inside[t] == Holding
  }

  ghost predicate LocksOk(semas: seq<Sema>, locks: map<Sid, Lock>) {
    forall s | s in locks :: s < |semas| && LockOk(semas[s], locks[s])
  }

  /** The value of a semaphore is what it was at first, plus the ups, minus the downs. */
  ghost predicate Balanced(semas: seq<Sema>, init: seq<nat>, ups: seq<nat>, downs: seq<nat>) {
    && |semas| == |init| == |ups| == |downs|
    && forall s: Sid | s < |semas| :: semas[s].value + downs[s] == init[s] + ups[s]
  }

  ghost predicate ThreadsOk(k: Kernel, cpu: set<Tid>) {
    && CoreInv(k.core, cpu, k.idle) && StatusOk(k.status, k.core.place) && Sorted(k.core.sleeping, k.alarm)
    && Balanced(k.core.semas, k.init, k.ups, k.downs) && k.arrivals == k.departures + k.core.ready
  }

  ghost predicate Inv(k: Kernel, cpu: set<Tid>) {
    ThreadsOk(k, cpu) && LocksOk(k.core.semas, k.locks)
  }

  // ---- scheduling

  /** schedule, with next_thread_to_run and thread_schedule_tail. */
  function Schedule(k: Kernel): Kernel {
    if k.core.ready == [] then
      k.(core := IdleTo(k.core, k.idle, OnCpu), current := k.idle, status := k.status[k.idle := Running],
         schedules := k.schedules + 1)
    else
      var next := k.core.ready[0];
      k.(core := Dispatched(k.core), current := next, status := k.status[next := Running],
         departures := k.departures + [next], schedules := k.schedules + 1)
  }

  lemma StatusMoved(status: map<Tid, Status>, place: map<Tid, Place>, t: Tid, st: Status, p: Place)
    requires StatusOk(status, place) && Fits(st, p)
    ensures StatusOk(status[t := st], place[t := p])
  {
  }

  lemma Dequeued(arrivals: seq<Tid>, departures: seq<Tid>, ready: seq<Tid>)
    requires arrivals == departures + ready && ready != []
    ensures arrivals == departures + [ready[0]] + ready[1..]
  {
  }

  lemma ScheduleIdleKeeps(k: Kernel)
    requires Inv(k, {}) && k.core.ready == []
    ensures Inv(Schedule(k), {k.idle})
  {
    IdleKeeps(k.core, k.idle, true);
    StatusMoved(k.status, k.core.place, k.idle, Running, OnCpu);
  }

  lemma ScheduleNextKeeps(k: Kernel)
    requires Inv(k, {}) && k.core.ready != []
    ensures Inv(Schedule(k), {k.core.ready[0]})
  {
    DispatchKeeps(k.core, k.idle);
    StatusMoved(k.status, k.core.place, k.core.ready[0], Running, OnCpu);
    Dequeued(k.arrivals, k.departures, k.core.ready);
  }

  lemma ScheduleKeeps(k: Kernel)
    requires Inv(k, {})
    ensures Inv(Schedule(k), {Schedule(k).current})
  {
    if k.core.ready == [] {
      ScheduleIdleKeeps(k);
    } else {
      ScheduleNextKeeps(k);
    }
  }

  /** thread_yield, called by the running thread or when its time slice is used up. */
  function Yield(k: Kernel): Kernel {
    var t := k.current;
    if t == k.idle then Schedule(k.(core := IdleTo(k.core, t, Idling), status := k.status[t := Ready]))
    else Schedule(k.(core := ToReady(k.core, t), status := k.status[t := Ready], arrivals := k.arrivals + [t]))
  }

  lemma YieldKeepsInv(k: Kernel)
    requires Inv(k, {k.current})
    ensures Inv(Yield(k), {Yield(k).current})
  {
    var t := k.current;
    if t == k.idle {
      IdleKeeps(k.core, t, false);
      ScheduleKeeps(k.(core := IdleTo(k.core, t, Idling), status := k.status[t := Ready]));
    } else {
      YieldKeeps(k.core, t, k.idle);
      ScheduleKeeps(k.(core := ToReady(k.core, t), status := k.status[t := Ready], arrivals := k.arrivals + [t]));
    }
  }

  /** The idle thread blocks itself. */
  function IdleBlock(k: Kernel): Kernel {
    Schedule(k.(core := IdleTo(k.core, k.idle, Idling), status := k.status[k.idle := Blocked]))
  }

  lemma IdleBlockKeepsInv(k: Kernel)
    requires Inv(k, {k.current}) && k.current == k.idle
    ensures Inv(IdleBlock(k), {IdleBlock(k).current})
  {
    IdleKeeps(k.core, k.idle, false);
    ScheduleKeeps(k.(core := IdleTo(k.core, k.idle, Idling), status := k.status[k.idle := Blocked]));
  }

  /** thread_create of t. */
  function Create(k: Kernel, t: Tid): Kernel {
    k.(core := Born(k.core, t), status := k.status[t := Ready], arrivals := k.arrivals + [t])
  }

  lemma CreateKeepsInv(k: Kernel, t: Tid)
    requires Inv(k, {k.current}) && t !in k.status
    ensures Inv(Create(k, t), {k.current})
  {
    BirthKeeps(k.core, t, {k.current}, k.idle);
  }

  /** The end of thread_exit: the running thread is gone. */
  function Exit(k: Kernel): Kernel {
    Schedule(k.(core := Dead(k.core, k.current), status := k.status - {k.current}))
  }

  lemma ExitKeepsInv(k: Kernel)
    requires Inv(k, {k.current}) && k.current != k.idle && k.core.pc[k.current] == Outside
    ensures Inv(Exit(k), {Exit(k).current})
  {
    DeathKeeps(k.core, k.current, k.idle);
    ScheduleKeeps(k.(core := Dead(k.core, k.current), status := k.status - {k.current}));
  }

  // ---- semaphores

  /** The running thread joins the waiters of s. */
  function Wait(k: Kernel, s: Sid): Kernel
    requires s < |k.core.semas|
  {
    k.(core := ToWait(k.core, k.current, s), status := k.status[k.current := Blocked])
  }

  function Entered(lock: Lock, t: Tid): Lock {
    lock.(inside := lock.inside[t := Got])
  }

  /** A completed sema_down; for a lock the thread is now inside. */
  function Take(k: Kernel, s: Sid): Kernel
    requires s < |k.core.semas| == |k.downs| && k.core.semas[s].value > 0
  {
    k.(core := Down(k.core, k.current, s), downs := k.downs[s := k.downs[s] + 1],
       locks := if s in k.locks then k.locks[s := Entered(k.locks[s], k.current)] else k.locks)
  }

  /** The test of sema_down, reached for the first time or after a wakeup: block or complete. */
  function SemaDown(k: Kernel, s: Sid): Kernel
    requires s < |k.core.semas| == |k.downs|
  {
    if k.core.semas[s].value == 0 then Schedule(Wait(k, s)) else Take(k, s)
  }

  lemma WaitKeepsInv(k: Kernel, s: Sid)
    requires Inv(k, {k.current}) && k.current != k.idle && AtTest(k.core, k.current, s) && k.core.semas[s].value == 0
    ensures Inv(Wait(k, s), {})
  {
    hide CoreInv, LockOk;
    WaitKeeps(k.core, k.current, s, k.idle);
    var semas, semas' := k.core.semas, Wait(k, s).core.semas;
    assert forall r: Sid | r < |semas| :: semas'[r].value == semas[r].value;
    LocksByValue(semas, semas', k.locks);
  }

  lemma LocksByValue(semas: seq<Sema>, semas': seq<Sema>, locks: map<Sid, Lock>)
    requires LocksOk(semas, locks) && |semas'| == |semas| && forall r: Sid | r < |semas| && r in locks :: semas'[r].value == semas[r].value
    ensures LocksOk(semas', locks)
  {
    forall s | s in locks ensures s < |semas'| && LockOk(semas'[s], locks[s]) {
      assert LockOk(semas[s], locks[s]);
    }
  }

  lemma LockChanged(semas: seq<Sema>, semas': seq<Sema>, locks: map<Sid, Lock>, s: Sid, lock: Lock)
    requires LocksOk(semas, locks) && s < |semas| == |semas'| && LockOk(semas'[s], lock)
    requires forall r: Sid | r < |semas| && r != s :: semas'[r] == semas[r]
    ensures LocksOk(semas', locks[s := lock])
  {
  }

  lemma EnteredOk(sema: Sema, lock: Lock, t: Tid)
    requires LockOk(sema, lock) && sema.value > 0
    ensures LockOk(sema.(value := sema.value - 1), Entered(lock, t))
  {
    assert lock.inside == map[];
    assert Entered(lock, t).inside.Keys == {t};
  }

  lemma TakeKeepsInv(k: Kernel, s: Sid)
    requires Inv(k, {k.current}) && AtTest(k.core, k.current, s) && k.core.semas[s].value > 0
    ensures Inv(Take(k, s), {k.current})
  {
    DownKeeps(k.core, k.current, s, k.idle);
    var semas' := Take(k, s).core.semas;
    if s in k.locks {
      EnteredOk(k.core.semas[s], k.locks[s], k.current);
      LockChanged(k.core.semas, semas', k.locks, s, Entered(k.locks[s], k.current));
    } else {
      LocksByValue(k.core.semas, semas', k.locks);
    }
  }

  lemma SemaDownKeepsInv(k: Kernel, s: Sid)
    requires Inv(k, {k.current}) && k.current != k.idle && AtTest(k.core, k.current, s)
    ensures Inv(SemaDown(k, s), {SemaDown(k, s).current})
  {
    if k.core.semas[s].value == 0 {
      WaitKeepsInv(k, s);
      ScheduleKeeps(Wait(k, s));
    } else {
      TakeKeepsInv(k, s);
    }
  }

  /** sema_up. */
  function SemaUp(k: Kernel, s: Sid): Kernel
    requires s < |k.core.semas| == |k.ups|
  {
    var waiters := k.core.semas[s].waiters;
    k.(core := Up(k.core, s), ups := k.ups[s := k.ups[s] + 1],
       status := if waiters == [] then k.status else k.status[waiters[0] := Ready],
       arrivals := if waiters == [] then k.arrivals else k.arrivals + [waiters[0]])
  }

  lemma UpBalances(semas: seq<Sema>, init: seq<nat>, ups: seq<nat>, downs: seq<nat>, s: Sid, waiters: seq<Tid>)
    requires Balanced(semas, init, ups, downs) && s < |semas|
    ensures Balanced(semas[s := Sema(semas[s].value + 1, waiters)], init, ups[s := ups[s] + 1], downs)
  {
  }

  lemma UpKeepsThreads(k: Kernel, s: Sid)
    requires ThreadsOk(k, {k.current}) && s < |k.core.semas|
    ensures ThreadsOk(SemaUp(k, s), {k.current})
  {
    if k.core.semas[s].waiters == [] {
      UpBalances(k.core.semas, k.init, k.ups, k.downs, s, []);
      UpKeeps(k.core, s, {k.current}, k.idle);
    } else {
      WakeKeepsThreads(k, s);
    }
  }

  lemma WakeKeepsThreads(k: Kernel, s: Sid)
    requires ThreadsOk(k, {k.current}) && s < |k.core.semas| && k.core.semas[s].waiters != []
    ensures ThreadsOk(SemaUp(k, s), {k.current})
  {
    var waiters := k.core.semas[s].waiters;
    UpKeeps(k.core, s, {k.current}, k.idle);
    UpBalances(k.core.semas, k.init, k.ups, k.downs, s, waiters[1..]);
    StatusMoved(k.status, k.core.place, waiters[0], Ready, OnReady);
    assert SemaUp(k, s).core.place == k.core.place[waiters[0] := OnReady];
  }

  lemma SemaUpKeepsInv(k: Kernel, s: Sid)
    requires Inv(k, {k.current}) && s < |k.core.semas| && s !in k.locks
    ensures Inv(SemaUp(k, s), {k.current})
  {
    hide CoreInv, StatusOk, LockOk;
    UpKeepsThreads(k, s);
    LocksByValue(k.core.semas, SemaUp(k, s).core.semas, k.locks);
  }

  // ---- locks

  /** The last line of lock_acquire. */
  function SetHolder(k: Kernel, s: Sid): Kernel
    requires s in k.locks
  {
    var lock := k.locks[s];
    k.(locks := k.locks[s := Lock(Some(k.current), lock.inside[k.current := Holding])])
  }

  /** The first line of lock_release. */
  function ClearHolder(k: Kernel, s: Sid): Kernel
    requires s in k.locks
  {
    var lock := k.locks[s];
    k.(locks := k.locks[s := Lock(None, lock.inside[k.current := Releasing])])
  }

  /** The sema_up of lock_release. */
  function Unlock(k: Kernel, s: Sid): Kernel
    requires s in k.locks && s < |k.core.semas| == |k.ups|
  {
    var lock := k.locks[s];
    SemaUp(k, s).(locks := k.locks[s := lock.(inside := lock.inside - {k.current})])
  }

  /** At most one thread is between its sema_down and its sema_up. */
  lemma OneInside(sema: Sema, lock: Lock, t: Tid)
    requires LockOk(sema, lock) && t in lock.inside
    ensures sema.value == 0 && lock.inside.Keys == {t}
  {
    var keys := lock.inside.Keys;
    assert |lock.inside| == |keys|;
    assert keys == {t} + (keys - {t});
    assert keys - {t} != {} ==> |keys - {t}| >= 1;
  }

  lemma SetHolderKeepsInv(k: Kernel, s: Sid)
    requires Inv(k, {k.current}) && s in k.locks && k.current in k.locks[s].inside && k.locks[s].inside[k.current] == Got
    ensures Inv(SetHolder(k, s), {k.current})
  {
    OneInside(k.core.semas[s], k.locks[s], k.current);
    var lock := SetHolder(k, s).locks[s];
    assert lock.inside.Keys == {k.current} && |lock.inside| == |lock.inside.Keys|;
    LockChanged(k.core.semas, k.core.semas, k.locks, s, lock);
  }

  lemma ClearHolderKeepsInv(k: Kernel, s: Sid)
    requires Inv(k, {k.current}) && s in k.locks && k.locks[s].holder == Some(k.current)
    ensures Inv(ClearHolder(k, s), {k.current})
  {
    OneInside(k.core.semas[s], k.locks[s], k.current);
    var lock := ClearHolder(k, s).locks[s];
    assert lock.inside.Keys == {k.current} && |lock.inside| == |lock.inside.Keys|;
    LockChanged(k.core.semas, k.core.semas, k.locks, s, lock);
  }

  lemma LeftOk(sema: Sema, lock: Lock, t: Tid, waiters: seq<Tid>)
    requires LockOk(sema, lock) && t in lock.inside && lock.inside[t] == Releasing
    ensures LockOk(Sema(sema.value + 1, waiters), lock.(inside := lock.inside - {t}))
  {
    OneInside(sema, lock, t);
    var inside := lock.inside - {t};
    assert inside.Keys == {} && |inside| == |inside.Keys|;
  }

  lemma UnlockKeepsInv(k: Kernel, s: Sid)
    requires Inv(k, {k.current}) && s in k.locks && k.current in k.locks[s].inside
    requires k.locks[s].inside[k.current] == Releasing
    ensures Inv(Unlock(k, s), {k.current})
  {
    UpKeepsThreads(k, s);
    var k' := Unlock(k, s);
    LeftOk(k.core.semas[s], k.locks[s], k.current, k'.core.semas[s].waiters);
    LockChanged(k.core.semas, k'.core.semas, k.locks, s, k'.locks[s]);
  }

  // ---- the alarm clock

  /** timer_sleep up to the call of thread_sleep. */
  function SetAlarm(k: Kernel, delay: int): Kernel {
    k.(alarm := k.alarm[k.current := k.ticks + delay])
  }

  lemma SetAlarmKeepsInv(k: Kernel, delay: int)
    requires Inv(k, {k.current})
    ensures Inv(SetAlarm(k, delay), {k.current})
  {
    assert k.current !in k.core.sleeping by {
      assert !At(k.core.place, k.current, Asleep);
    }
  }

  /** Where list_insert_ordered puts a thread with alarm time a. */
  function Position(sleeping: seq<Tid>, alarm: map<Tid, int>, a: int): (i: nat)
    requires forall i: nat | i < |sleeping| :: sleeping[i] in alarm
    ensures i <= |sleeping| && forall j: nat | j < i :: alarm[sleeping[j]] <= a
    ensures i < |sleeping| ==> a < alarm[sleeping[i]]
  {
    if sleeping == [] || a < alarm[sleeping[0]] then 0 else 1 + Position(sleeping[1..], alarm, a)
  }

  lemma SortedInsertion(sleeping: seq<Tid>, alarm: map<Tid, int>, t: Tid)
    requires Sorted(sleeping, alarm) && t in alarm
    ensures var i := Position(sleeping, alarm, alarm[t]); Sorted(sleeping[..i] + [t] + sleeping[i..], alarm)
  {
    var i := Position(sleeping, alarm, alarm[t]);
    forall j: nat | i <= j < |sleeping| ensures alarm[t] <= alarm[sleeping[j]] {
      assert j > i ==> alarm[sleeping[i]] <= alarm[sleeping[j]];
    }
  }

  /** thread_sleep. */
  function Sleep(k: Kernel): Kernel
    requires Sorted(k.core.sleeping, k.alarm) && k.current in k.alarm
  {
    Schedule(LieDown(k))
  }

  function LieDown(k: Kernel): Kernel
    requires Sorted(k.core.sleeping, k.alarm) && k.current in k.alarm
  {
    k.(core := ToSleep(k.core, k.current, Position(k.core.sleeping, k.alarm, k.alarm[k.current])),
       status := k.status[k.current := Blocked])
  }

  lemma SleepKeepsInv(k: Kernel)
    requires Inv(k, {k.current}) && k.current != k.idle && k.current in k.alarm && k.core.pc[k.current] == Outside
    ensures Inv(Sleep(k), {Sleep(k).current})
  {
    SleepKeeps(k.core, k.current, k.idle, Position(k.core.sleeping, k.alarm, k.alarm[k.current]));
    SortedInsertion(k.core.sleeping, k.alarm, k.current);
    ScheduleKeeps(LieDown(k));
  }

  /** thread_awake. */
  function Awake(k: Kernel): Kernel
    requires k.core.sleeping != []
  {
    var t := k.core.sleeping[0];
    k.(core := Awoken(k.core), status := k.status[t := Ready], arrivals := k.arrivals + [t])
  }

  /** The loop of timer_interrupt. */
  function AwakeDue(k: Kernel): Kernel
    requires Sorted(k.core.sleeping, k.alarm)
    decreases |k.core.sleeping|
  {
    if k.core.sleeping != [] && k.ticks >= k.alarm[k.core.sleeping[0]] then AwakeDue(Awake(k)) else k
  }

  function Ticked(k: Kernel): Kernel {
    k.(ticks := k.ticks + 1)
  }

  lemma TickKeepsInv(k: Kernel)
    requires Inv(k, {k.current})
    ensures Inv(Ticked(k), {k.current})
  {
  }

  /** timer_interrupt. */
  function Timer(k: Kernel): Kernel
    requires Sorted(k.core.sleeping, k.alarm)
  {
    AwakeDue(Ticked(k))
  }

  lemma AwakeKeepsInv(k: Kernel, cpu: set<Tid>)
    requires Inv(k, cpu) && k.core.sleeping != []
    ensures Inv(Awake(k), cpu)
  {
    assert At(k.core.place, k.core.sleeping[0], Asleep);
    AwakeKeeps(k.core, cpu, k.idle);
  }

  lemma {:induction false} AwakeDueKeepsInv(k: Kernel, cpu: set<Tid>)
    requires Inv(k, cpu)
    ensures Inv(AwakeDue(k), cpu) && AwakeDue(k).current == k.current
    decreases |k.core.sleeping|
  {
    if k.core.sleeping != [] && k.ticks >= k.alarm[k.core.sleeping[0]] {
      AwakeKeepsInv(k, cpu);
      AwakeDueKeepsInv(Awake(k), cpu);
    }
  }

  lemma TimerKeepsInv(k: Kernel)
    requires Inv(k, {k.current})
    ensures Inv(Timer(k), {k.current}) && Timer(k).current == k.current
  {
    TickKeepsInv(k);
    AwakeDueKeepsInv(Ticked(k), {k.current});
  }

  /** The number of sleepers that are due; they come first. */
  function Due(sleeping: seq<Tid>, alarm: map<Tid, int>, now: int): (d: nat)
    requires Sorted(sleeping, alarm)
    ensures d <= |sleeping| && (forall i: nat | i < d :: alarm[sleeping[i]] <= now)
    ensures forall i: nat | d <= i < |sleeping| :: alarm[sleeping[i]] > now
  {
    if sleeping == [] || alarm[sleeping[0]] > now then 0 else 1 + Due(sleeping[1..], alarm, now)
  }

  lemma {:induction false} WakesTheDue(k: Kernel)
    requires Sorted(k.core.sleeping, k.alarm)
    ensures var d := Due(k.core.sleeping, k.alarm, k.ticks);
            && AwakeDue(k).core.sleeping == k.core.sleeping[d..]
            && AwakeDue(k).core.ready == k.core.ready + k.core.sleeping[..d]
            && AwakeDue(k).ticks == k.ticks && AwakeDue(k).alarm == k.alarm
    decreases |k.core.sleeping|
  {
    if k.core.sleeping != [] && k.ticks >= k.alarm[k.core.sleeping[0]] {
      WakesTheDue(Awake(k));
      var d := Due(k.core.sleeping, k.alarm, k.ticks);
      assert k.core.sleeping[..d] == [k.core.sleeping[0]] + k.core.sleeping[1..][..d - 1];
    }
  }

  /**
   * A timer interrupt wakes exactly the sleepers that are due, in order of their alarm times:
   * no sleeper is due afterwards, and none was woken early.
   */
  lemma TimerWakesTheDue(k: Kernel)
    requires Inv(k, {k.current})
    ensures var k', d := Timer(k), Due(k.core.sleeping, k.alarm, k.ticks + 1);
            && k'.ticks == k.ticks + 1 && k'.core.ready == k.core.ready + k.core.sleeping[..d]
            && k'.core.sleeping == k.core.sleeping[d..] && Sorted(k'.core.sleeping, k.alarm)
            && (forall i: nat | i < d :: k.alarm[k.core.sleeping[i]] <= k'.ticks)
            && (forall i: nat | i < |k'.core.sleeping| :: k.alarm[k'.core.sleeping[i]] > k'.ticks)
  {
    WakesTheDue(Ticked(k));
  }

  // ---- runs

  datatype ThreadAction = DoYield | DoIdleBlock | DoCreate(t: Tid) | DoExit
  datatype SemaAction = DoDown(s: Sid) | DoTryDown(s: Sid) | DoUp(s: Sid)
  datatype LockAction = DoSetHolder(s: Sid) | DoClearHolder(s: Sid) | DoUnlock(s: Sid)
  datatype ClockAction = DoSetAlarm(delay: int) | DoSleep | DoTimer

  /** What the running thread, or the timer, does next. */
  datatype Action = OfThread(t: ThreadAction) | OfSema(m: SemaAction) | OfLock(l: LockAction) | OfClock(c: ClockAction)

  predicate Out(k: Kernel) {
    k.current in k.core.pc && k.core.pc[k.current] == Outside
  }

  predicate InPhase(k: Kernel, s: Sid, phase: Phase) {
    s in k.locks && k.current in k.locks[s].inside && k.locks[s].inside[k.current] == phase
  }

  /**
   * When an action can come next.  A thread inside sema_down has interrupts off: it can only
   * go on with its test.  Only a completed sema_down lets a thread become holder, and only
   * the holder releases, as the assertion of lock_release demands.
   */
  predicate Enabled(k: Kernel, a: Action) {
    match a
    case OfThread(DoIdleBlock) => Out(k) && k.current == k.idle
    case OfThread(DoCreate(t)) => Out(k) && t !in k.status
    case OfThread(DoExit) => Out(k) && k.current != k.idle
    case OfSema(DoDown(s)) =>
      && k.current != k.idle && s < |k.core.semas|
      && k.current in k.core.pc && k.core.pc[k.current] in {Outside, InDown(s)}
    case OfSema(DoTryDown(s)) => Out(k) && s < |k.core.semas|
    case OfSema(DoUp(s)) => Out(k) && s < |k.core.semas| && s !in k.locks
    case OfLock(DoSetHolder(s)) => Out(k) && InPhase(k, s, Got)
    case OfLock(DoClearHolder(s)) => Out(k) && s in k.locks && k.locks[s].holder == Some(k.current)
    case OfLock(DoUnlock(s)) => Out(k) && InPhase(k, s, Releasing)
    case OfClock(DoSleep) => Out(k) && k.current != k.idle && k.current in k.alarm
    case _ => Out(k)
  }

  ghost function ThreadStep(k: Kernel, a: ThreadAction): Kernel {
    match a
    case DoYield => Yield(k)
    case DoIdleBlock => IdleBlock(k)
    case DoCreate(t) => Create(k, t)
    case DoExit => Exit(k)
  }

  ghost function SemaStep(k: Kernel, a: SemaAction): Kernel
    requires Inv(k, {k.current}) && Enabled(k, OfSema(a))
  {
    match a
    case DoDown(s) => SemaDown(k, s)
    case DoTryDown(s) => if k.core.semas[s].value > 0 then Take(k, s) else k
    case DoUp(s) => SemaUp(k, s)
  }

  ghost function LockStep(k: Kernel, a: LockAction): Kernel
    requires Inv(k, {k.current}) && Enabled(k, OfLock(a))
  {
    match a
    case DoSetHolder(s) => SetHolder(k, s)
    case DoClearHolder(s) => ClearHolder(k, s)
    case DoUnlock(s) => Unlock(k, s)
  }

  ghost function ClockStep(k: Kernel, a: ClockAction): Kernel
    requires Inv(k, {k.current}) && Enabled(k, OfClock(a))
  {
    match a
    case DoSetAlarm(delay) => SetAlarm(k, delay)
    case DoSleep => Sleep(k)
    case DoTimer => Timer(k)
  }

  ghost function Step(k: Kernel, a: Action): Kernel
    requires Inv(k, {k.current})
  {
    if !Enabled(k, a) then k else
    match a
    case OfThread(t) => ThreadStep(k, t)
    case OfSema(m) => SemaStep(k, m)
    case OfLock(l) => LockStep(k, l)
    case OfClock(c) => ClockStep(k, c)
  }

  lemma ThreadStepKeepsInv(k: Kernel, a: ThreadAction)
    requires Inv(k, {k.current}) && Enabled(k, OfThread(a))
    ensures Inv(ThreadStep(k, a), {ThreadStep(k, a).current})
  {
    match a
    case DoYield => YieldKeepsInv(k);
    case DoIdleBlock => IdleBlockKeepsInv(k);
    case DoCreate(t) => CreateKeepsInv(k, t);
    case DoExit => ExitKeepsInv(k);
  }

  lemma SemaStepKeepsInv(k: Kernel, a: SemaAction)
    requires Inv(k, {k.current}) && Enabled(k, OfSema(a))
    ensures Inv(SemaStep(k, a), {SemaStep(k, a).current})
  {
    match a
    case DoDown(s) => SemaDownKeepsInv(k, s);
    case DoTryDown(s) =>
      if k.core.semas[s].value > 0 {
        TakeKeepsInv(k, s);
      }
    case DoUp(s) => SemaUpKeepsInv(k, s);
  }

  lemma LockStepKeepsInv(k: Kernel, a: LockAction)
    requires Inv(k, {k.current}) && Enabled(k, OfLock(a))
    ensures Inv(LockStep(k, a), {LockStep(k, a).current})
  {
    match a
    case DoSetHolder(s) => SetHolderKeepsInv(k, s);
    case DoClearHolder(s) => ClearHolderKeepsInv(k, s);
    case DoUnlock(s) => UnlockKeepsInv(k, s);
  }

  lemma ClockStepKeepsInv(k: Kernel, a: ClockAction)
    requires Inv(k, {k.current}) && Enabled(k, OfClock(a))
    ensures Inv(ClockStep(k, a), {ClockStep(k, a).current})
  {
    match a
    case DoSetAlarm(delay) => SetAlarmKeepsInv(k, delay);
    case DoSleep => SleepKeepsInv(k);
    case DoTimer => TimerKeepsInv(k);
  }

  lemma StepKeepsInv(k: Kernel, a: Action)
    requires Inv(k, {k.current})
    ensures Inv(Step(k, a), {Step(k, a).current})
  {
    if Enabled(k, a) {
      match a
      case OfThread(t) => ThreadStepKeepsInv(k, t);
      case OfSema(m) => SemaStepKeepsInv(k, m);
      case OfLock(l) => LockStepKeepsInv(k, l);
      case OfClock(c) => ClockStepKeepsInv(k, c);
    }
  }

  /** A run: the interrupt-free regions of all threads, in any order that the steps allow. */
  ghost function Run(k: Kernel, actions: seq<Action>): Kernel
    requires Inv(k, {k.current})
    decreases |actions|
  {
    if actions == [] then k else StepKeepsInv(k, actions[0]); Run(Step(k, actions[0]), actions[1..])
  }

  /** Everything the invariant says holds in every reachable state. */
  lemma {:induction false} RunKeepsInv(k: Kernel, actions: seq<Action>)
    requires Inv(k, {k.current})
    ensures Inv(Run(k, actions), {Run(k, actions).current})
    decreases |actions|
  {
    if actions != [] {
      StepKeepsInv(k, actions[0]);
      RunKeepsInv(Step(k, actions[0]), actions[1..]);
    }
  }

  // ---- what the invariant says

  /** In every reachable state at most one thread has passed sema_down of a lock and not yet sema_up. */
  lemma MutualExclusion(k: Kernel, actions: seq<Action>, s: Sid, t: Tid, u: Tid)
    requires Inv(k, {k.current})
    requires var k' := Run(k, actions); s in k'.locks && t in k'.locks[s].inside && u in k'.locks[s].inside
    ensures var k' := Run(k, actions);
            t == u && s < |k'.core.semas| && k'.core.semas[s].value == 0 && k'.locks[s].holder in {None, Some(t)}
  {
    RunKeepsInv(k, actions);
    var k' := Run(k, actions);
    OneInside(k'.core.semas[s], k'.locks[s], t);
  }

  /** In every reachable state a waiting thread implies that no up is left unused but for woken threads. */
  lemma NoLostWakeup(k: Kernel, actions: seq<Action>, s: Sid)
    requires Inv(k, {k.current}) && s < |Run(k, actions).core.semas|
    ensures var k' := Run(k, actions);
            && (k'.core.semas[s].waiters != [] ==> k'.core.semas[s].value <= |Woken(k'.core, s)|)
            && |k'.init| == |k'.ups| == |k'.downs| == |k'.core.semas|
            && k'.core.semas[s].value + k'.downs[s] == k'.init[s] + k'.ups[s]
  {
    RunKeepsInv(k, actions);
    assert NoneLost(Run(k, actions).core, s);
  }

  /** Every thread is on the CPU, on exactly one list, or idle, as its status says. */
  lemma OnePlace(k: Kernel, actions: seq<Action>, t: Tid)
    requires Inv(k, {k.current})
    ensures var k' := Run(k, actions);
            t in k'.status ==>
              && (k'.status[t] == Running <==> t == k'.current)
              && (t in k'.core.ready ==> k'.status[t] == Ready && t !in k'.core.sleeping)
              && (t in k'.core.sleeping ==> k'.status[t] == Blocked)
              && (forall s: Sid | s < |k'.core.semas| && t in k'.core.semas[s].waiters ::
                    && k'.status[t] == Blocked && t !in k'.core.ready && t !in k'.core.sleeping
                    && forall r: Sid | r < |k'.core.semas| && r != s :: t !in k'.core.semas[r].waiters)
              && (t == k'.current || t == k'.idle || t in k'.core.ready || t in k'.core.sleeping ||
                  exists s: Sid | s < |k'.core.semas| :: t in k'.core.semas[s].waiters)
  {
    RunKeepsInv(k, actions);
    var c := Run(k, actions).core;
    if t in c.place {
      assert Agrees(c, t);
      assert forall p: Place :: At(c.place, t, p) <==> c.place[t] == p;
      assert forall s: Sid | s < |c.semas| :: t in c.semas[s].waiters <==> c.place[t] == Waiting(s);
    }
  }

  // ---- the ready list is fair

  /** What every step does to the queue. */
  ghost predicate Queues(k: Kernel, k': Kernel) {
    && k.arrivals <= k'.arrivals && k.departures <= k'.departures
    && (k.core.ready != [] ==> k'.schedules - k.schedules == |k'.departures| - |k.departures|)
  }

  lemma ScheduleQueue(k: Kernel, k1: Kernel)
    requires k.arrivals <= k1.arrivals && k1.departures == k.departures && k1.schedules == k.schedules
    requires k.core.ready != [] ==> k1.core.ready != []
    ensures Queues(k, Schedule(k1))
  {
  }

  lemma ThreadStepQueue(k: Kernel, a: ThreadAction)
    requires Inv(k, {k.current}) && Enabled(k, OfThread(a))
    ensures Queues(k, ThreadStep(k, a))
  {
    var t := k.current;
    match a
    case DoYield =>
      if t == k.idle {
        ScheduleQueue(k, k.(core := IdleTo(k.core, t, Idling), status := k.status[t := Ready]));
      } else {
        ScheduleQueue(k, k.(core := ToReady(k.core, t), status := k.status[t := Ready], arrivals := k.arrivals + [t]));
      }
    case DoIdleBlock =>
      ScheduleQueue(k, k.(core := IdleTo(k.core, k.idle, Idling), status := k.status[k.idle := Blocked]));
    case DoCreate(_) =>
    case DoExit =>
      ScheduleQueue(k, k.(core := Dead(k.core, t), status := k.status - {t}));
  }

  lemma SemaStepQueue(k: Kernel, a: SemaAction)
    requires Inv(k, {k.current}) && Enabled(k, OfSema(a))
    ensures Queues(k, SemaStep(k, a))
  {
    if a.DoDown? && k.core.semas[a.s].value == 0 {
      ScheduleQueue(k, Wait(k, a.s));
    }
  }

  lemma LockStepQueue(k: Kernel, a: LockAction)
    requires Inv(k, {k.current}) && Enabled(k, OfLock(a))
    ensures Queues(k, LockStep(k, a))
  {
  }

  lemma ClockStepQueue(k: Kernel, a: ClockAction)
    requires Inv(k, {k.current}) && Enabled(k, OfClock(a))
    ensures Queues(k, ClockStep(k, a))
  {
    if a.DoSleep? {
      ScheduleQueue(k, LieDown(k));
    } else if a.DoTimer? {
      AwakeDueQueue(Ticked(k));
    }
  }

  lemma StepQueue(k: Kernel, a: Action)
    requires Inv(k, {k.current})
    ensures Queues(k, Step(k, a))
  {
    if Enabled(k, a) {
      match a
      case OfThread(t) => ThreadStepQueue(k, t);
      case OfSema(m) => SemaStepQueue(k, m);
      case OfLock(l) => LockStepQueue(k, l);
      case OfClock(c) => ClockStepQueue(k, c);
    }
  }

  lemma {:induction false} AwakeDueQueue(k: Kernel)
    requires Sorted(k.core.sleeping, k.alarm)
    ensures k.arrivals <= AwakeDue(k).arrivals && AwakeDue(k).departures == k.departures && AwakeDue(k).schedules == k.schedules
    decreases |k.core.sleeping|
  {
    if k.core.sleeping != [] && k.ticks >= k.alarm[k.core.sleeping[0]] {
      AwakeDueQueue(Awake(k));
    }
  }

  lemma {:induction false} RunQueue(k: Kernel, actions: seq<Action>, n: nat)
    requires Inv(k, {k.current}) && n < |k.arrivals|
    ensures var k' := Run(k, actions);
            && k.arrivals <= k'.arrivals && |k.departures| <= |k'.departures|
            && (n < |k'.departures| || k'.schedules - k.schedules == |k'.departures| - |k.departures|)
    decreases |actions|
  {
    if actions != [] {
      StepKeepsInv(k, actions[0]);
      StepQueue(k, actions[0]);
      RunQueue(Step(k, actions[0]), actions[1..], n);
    }
  }

  lemma QueueOf(k: Kernel)
    requires Inv(k, {k.current})
    ensures k.arrivals == k.departures + k.core.ready
  {
  }

  /** The thread at place i of the ready list runs by the (i + 1)-th call of schedule. */
  lemma ReadyThreadRuns(k: Kernel, actions: seq<Action>, k': Kernel, i: nat)
    requires Inv(k, {k.current}) && i < |k.core.ready| && k' == Run(k, actions) && k'.schedules > k.schedules + i
    ensures |k.departures| + i < |k'.departures| && k'.departures[|k.departures| + i] == k.core.ready[i]
  {
    hide Inv, Run;
    RunKeepsInv(k, actions);
    QueueOf(k);
    QueueOf(k');
    RunQueue(k, actions, |k.departures| + i);
    InOrderOfArrival(k.arrivals, k.departures, k.core.ready, k'.arrivals, k'.departures, k'.core.ready, i);
  }

  lemma InOrderOfArrival(a: seq<Tid>, d: seq<Tid>, r: seq<Tid>, a': seq<Tid>, d': seq<Tid>, r': seq<Tid>, i: nat)
    requires a == d + r && a' == d' + r' && a <= a' && i < |r| && |d| + i < |d'|
    ensures d'[|d| + i] == r[i]
  {
    assert a'[|d| + i] == a[|d| + i];
  }

  // ---- the first state

  /** thread_init and thread_start: main runs, the idle thread waits, nothing is queued. */
  function Boot(idle: Tid, main: Tid, init: seq<nat>, locks: set<Sid>): Kernel {
    Kernel(Core(map[idle := Idling, main := OnCpu], map[idle := Outside, main := Outside], [], [],
                seq(|init|, i requires 0 <= i < |init| => Sema(init[i], []))),
           idle, main, map[idle := Blocked, main := Running], map[], 0, map s | s in locks :: Lock(None, map[]),
           [], [], 0, init, seq(|init|, _ => 0), seq(|init|, _ => 0))
  }

  lemma BootInv(idle: Tid, main: Tid, init: seq<nat>, locks: set<Sid>)
    requires idle != main && forall s | s in locks :: s < |init| && init[s] == 1
    ensures Inv(Boot(idle, main, init, locks), {main})
  {
    var k := Boot(idle, main, init, locks);
    BootCore(k.core, idle, main, init);
    forall s | s in k.locks ensures s < |init| && LockOk(k.core.semas[s], k.locks[s]) {
    }
  }

  lemma BootCore(c: Core, idle: Tid, main: Tid, init: seq<nat>)
    requires idle != main && |c.semas| == |init| && forall s: Sid | s < |init| :: c.semas[s] == Sema(init[s], [])
    requires c.place == map[idle := Idling, main := OnCpu] && c.pc == map[idle := Outside, main := Outside]
    requires c.ready == c.sleeping == []
    ensures CoreInv(c, {main}, idle)
  {
    assert Lists(c);
    assert Places(c, {main}, idle);
  }
}
