/** Where threads are: the CPU, the ready list, the sleep list and the waiters of semaphores. */
module ThreadState {
  import opened Sequences

  type Tid = nat
  type Sid = nat

  datatype Place = OnCpu | OnReady | Asleep | Waiting(s: Sid) | Idling

  /** Outside sema_down, or in its loop: blocked, or woken and about to test the value again. */
  datatype Pc = Outside | InDown(s: Sid)

  datatype Sema = Sema(value: nat, waiters: seq<Tid>)

  /** The lists, with the place and the program counter of every thread. */
  datatype Core = Core(place: map<Tid, Place>, pc: map<Tid, Pc>, ready: seq<Tid>, sleeping: seq<Tid>, semas: seq<Sema>)

  // ---- lists

  ghost predicate At(place: map<Tid, Place>, t: Tid, p: Place) {
    t in place && place[t] == p
  }

  /** list holds exactly the threads at place p, each once. */
  ghost predicate ListOf(list: seq<Tid>, place: map<Tid, Place>, p: Place) {
    NoDup(list) && forall t: Tid :: t in list <==> At(place, t, p)
  }

  lemma Inserted(list: seq<Tid>, place: map<Tid, Place>, p: Place, t: Tid, i: nat)
    requires ListOf(list, place, p) && !At(place, t, p) && i <= |list|
    ensures ListOf(list[..i] + [t] + list[i..], place[t := p], p)
  {
    var r := list[..i] + [t] + list[i..];
    assert t !in list;
    forall u: Tid ensures u in r <==> At(place[t := p], u, p) {
      assert u in r <==> u in list || u == t by {
        assert list == list[..i] + list[i..];
      }
    }
  }

  lemma Appended(list: seq<Tid>, place: map<Tid, Place>, p: Place, t: Tid)
    requires ListOf(list, place, p) && !At(place, t, p)
    ensures ListOf(list + [t], place[t := p], p)
  {
    Inserted(list, place, p, t, |list|);
    assert list[..|list|] + [t] + list[|list|..] == list + [t];
  }

  lemma Popped(list: seq<Tid>, place: map<Tid, Place>, p: Place, q: Place)
    requires ListOf(list, place, p) && list != [] && q != p
    ensures ListOf(list[1..], place[list[0] := q], p)
  {
    var t := list[0];
    forall u: Tid ensures u in list[1..] <==> At(place[t := q], u, p) {
      assert u in list <==> u == t || u in list[1..];
    }
  }

  lemma Elsewhere(list: seq<Tid>, place: map<Tid, Place>, p: Place, t: Tid, q: Place)
    requires ListOf(list, place, p) && !At(place, t, p) && q != p
    ensures ListOf(list, place[t := q], p)
  {
    forall u: Tid ensures u in list <==> At(place[t := q], u, p) {
    }
  }

  // ---- the invariant

  /** Threads that were woken from semaphore s and have not yet tested its value again. */
  ghost function Woken(c: Core, s: Sid): set<Tid> {
    set t | t in c.pc && c.pc[t] == InDown(s) && !At(c.place, t, Waiting(s))
  }

  /** If threads wait on s, its value is at most the number of woken ones: no wakeup is lost. */
  ghost predicate NoneLost(c: Core, s: Sid)
    requires s < |c.semas|
  {
    c.semas[s].waiters != [] ==> c.semas[s].value <= |Woken(c, s)|
  }

  ghost predicate Lists(c: Core) {
    && ListOf(c.ready, c.place, OnReady) && ListOf(c.sleeping, c.place, Asleep)
    && forall s: Sid | s < |c.semas| :: ListOf(c.semas[s].waiters, c.place, Waiting(s))
  }

  /** The program counter of a thread agrees with its place. */
  ghost predicate Agrees(c: Core, t: Tid)
    requires t in c.place
  {
    && t in c.pc
    && (c.place[t].Waiting? ==> c.place[t].s < |c.semas| && c.pc[t] == InDown(c.place[t].s))
    && (c.pc[t].InDown? ==> c.pc[t].s < |c.semas| && (c.place[t] == Waiting(c.pc[t].s) || c.place[t] in {OnCpu, OnReady}))
  }

  /** cpu runs, and only idle idles. */
  ghost predicate Places(c: Core, cpu: set<Tid>, idle: Tid) {
    && c.pc.Keys == c.place.Keys
    && (forall t | t in c.place :: Agrees(c, t) && (c.place[t] == OnCpu <==> t in cpu) && (c.place[t] == Idling ==> t == idle))
    && cpu <= c.place.Keys && idle in c.place && c.place[idle] in {OnCpu, Idling} && c.pc[idle] == Outside
  }

  ghost predicate CoreInv(c: Core, cpu: set<Tid>, idle: Tid) {
    Lists(c) && Places(c, cpu, idle) && forall s: Sid | s < |c.semas| :: NoneLost(c, s)
  }

  // ---- the moves

  /** thread_yield, thread_create: t goes to the end of the ready list. */
  function ToReady(c: Core, t: Tid): Core {
    c.(place := c.place[t := OnReady], ready := c.ready + [t])
  }

  /** next_thread_to_run, when some thread is ready. */
  function Dispatched(c: Core): Core
    requires c.ready != []
  {
    c.(place := c.place[c.ready[0] := OnCpu], ready := c.ready[1..])
  }

  /** A change of place that concerns no waiter of s keeps what is said about s. */
  lemma SameWoken(c: Core, c': Core, s: Sid)
    requires s < |c.semas| == |c'.semas| && c'.semas[s] == c.semas[s] && c'.pc == c.pc && NoneLost(c, s)
    requires forall t | t in c.pc :: At(c'.place, t, Waiting(s)) <==> At(c.place, t, Waiting(s))
    ensures NoneLost(c', s)
  {
    assert Woken(c', s) == Woken(c, s);
  }

  /** A move from and to places other than waiting. */
  lemma WaitersKept(c: Core, c': Core, t: Tid, q: Place)
    requires Lists(c) && c'.semas == c.semas && c'.pc == c.pc && c'.place == c.place[t := q]
    requires t in c.place && !c.place[t].Waiting? && !q.Waiting? && forall s: Sid | s < |c.semas| :: NoneLost(c, s)
    ensures forall s: Sid | s < |c'.semas| :: ListOf(c'.semas[s].waiters, c'.place, Waiting(s)) && NoneLost(c', s)
  {
    forall s: Sid | s < |c.semas| ensures ListOf(c'.semas[s].waiters, c'.place, Waiting(s)) && NoneLost(c', s) {
      Elsewhere(c.semas[s].waiters, c.place, Waiting(s), t, q);
      SameWoken(c, c', s);
    }
  }

  lemma YieldKeeps(c: Core, t: Tid, idle: Tid)
    requires CoreInv(c, {t}, idle) && t != idle
    ensures CoreInv(ToReady(c, t), {}, idle)
  {
    Appended(c.ready, c.place, OnReady, t);
    Elsewhere(c.sleeping, c.place, Asleep, t, OnReady);
    WaitersKept(c, ToReady(c, t), t, OnReady);
  }

  lemma DispatchKeeps(c: Core, idle: Tid)
    requires CoreInv(c, {}, idle) && c.ready != []
    ensures CoreInv(Dispatched(c), {c.ready[0]}, idle)
  {
    var t := c.ready[0];
    assert At(c.place, t, OnReady);
    Popped(c.ready, c.place, OnReady, OnCpu);
    Elsewhere(c.sleeping, c.place, Asleep, t, OnCpu);
    WaitersKept(c, Dispatched(c), t, OnCpu);
  }

  /** The idle thread takes or leaves the CPU; it is never on a list. */
  function IdleTo(c: Core, idle: Tid, p: Place): Core {
    c.(place := c.place[idle := p])
  }

  lemma IdleKeeps(c: Core, idle: Tid, on: bool)
    requires CoreInv(c, if on then {} else {idle}, idle)
    ensures CoreInv(IdleTo(c, idle, if on then OnCpu else Idling), if on then {idle} else {}, idle)
  {
    var p := if on then OnCpu else Idling;
    Elsewhere(c.ready, c.place, OnReady, idle, p);
    Elsewhere(c.sleeping, c.place, Asleep, idle, p);
    WaitersKept(c, IdleTo(c, idle, p), idle, p);
  }

  /** thread_sleep: t goes to place i of the sleep list. */
  function ToSleep(c: Core, t: Tid, i: nat): Core
    requires i <= |c.sleeping|
  {
    c.(place := c.place[t := Asleep], sleeping := c.sleeping[..i] + [t] + c.sleeping[i..])
  }

  lemma SleepKeeps(c: Core, t: Tid, idle: Tid, i: nat)
    requires CoreInv(c, {t}, idle) && t != idle && i <= |c.sleeping| && c.pc[t] == Outside
    ensures CoreInv(ToSleep(c, t, i), {}, idle)
  {
    Elsewhere(c.ready, c.place, OnReady, t, Asleep);
    Inserted(c.sleeping, c.place, Asleep, t, i);
    WaitersKept(c, ToSleep(c, t, i), t, Asleep);
  }

  /** thread_awake: the first sleeper becomes ready. */
  function Awoken(c: Core): Core
    requires c.sleeping != []
  {
    c.(place := c.place[c.sleeping[0] := OnReady], sleeping := c.sleeping[1..], ready := c.ready + [c.sleeping[0]])
  }

  lemma AwakeKeeps(c: Core, cpu: set<Tid>, idle: Tid)
    requires CoreInv(c, cpu, idle) && c.sleeping != []
    ensures CoreInv(Awoken(c), cpu, idle)
  {
    var t := c.sleeping[0];
    assert At(c.place, t, Asleep);
    Appended(c.ready, c.place, OnReady, t);
    Popped(c.sleeping, c.place, Asleep, OnReady);
    WaitersKept(c, Awoken(c), t, OnReady);
  }

  // ---- semaphores

  /** sema_down on a zero semaphore: t joins the waiters. */
  function ToWait(c: Core, t: Tid, s: Sid): Core
    requires s < |c.semas|
  {
    c.(place := c.place[t := Waiting(s)], pc := c.pc[t := InDown(s)],
       semas := c.semas[s := c.semas[s].(waiters := c.semas[s].waiters + [t])])
  }

  /** t at the test of sema_down on s, for the first time or after being woken. */
  ghost predicate AtTest(c: Core, t: Tid, s: Sid) {
    s < |c.semas| && t in c.pc && c.pc[t] in {Outside, InDown(s)}
  }

  lemma WaitKeeps(c: Core, t: Tid, s: Sid, idle: Tid)
    requires CoreInv(c, {t}, idle) && t != idle && AtTest(c, t, s) && c.semas[s].value == 0
    ensures CoreInv(ToWait(c, t, s), {}, idle)
  {
    var c' := ToWait(c, t, s);
    Elsewhere(c.ready, c.place, OnReady, t, Waiting(s));
    Elsewhere(c.sleeping, c.place, Asleep, t, Waiting(s));
    forall r: Sid | r < |c.semas| ensures ListOf(c'.semas[r].waiters, c'.place, Waiting(r)) && NoneLost(c', r) {
      assert NoneLost(c, r);
      if r == s {
        Appended(c.semas[s].waiters, c.place, Waiting(s), t);
      } else {
        Elsewhere(c.semas[r].waiters, c.place, Waiting(r), t, Waiting(s));
        assert Woken(c', r) == Woken(c, r);
      }
    }
  }

  /** sema_down on a positive semaphore. */
  function Down(c: Core, t: Tid, s: Sid): Core
    requires s < |c.semas| && c.semas[s].value > 0
  {
    c.(pc := c.pc[t := Outside], semas := c.semas[s := c.semas[s].(value := c.semas[s].value - 1)])
  }

  lemma DownKeeps(c: Core, t: Tid, s: Sid, idle: Tid)
    requires CoreInv(c, {t}, idle) && AtTest(c, t, s) && c.semas[s].value > 0
    ensures CoreInv(Down(c, t, s), {t}, idle)
  {
    var c' := Down(c, t, s);
    forall r: Sid | r < |c.semas| ensures NoneLost(c', r) {
      assert NoneLost(c, r);
      if r == s {
        assert Woken(c', s) == Woken(c, s) - {t};
      } else {
        assert Woken(c', r) == Woken(c, r);
      }
    }
  }

  /** sema_up: one waiter, if any, becomes ready, and the value goes up in any case. */
  function Up(c: Core, s: Sid): Core
    requires s < |c.semas|
  {
    var m := c.semas[s];
    if m.waiters == [] then c.(semas := c.semas[s := m.(value := m.value + 1)])
    else c.(place := c.place[m.waiters[0] := OnReady], ready := c.ready + [m.waiters[0]],
            semas := c.semas[s := Sema(m.value + 1, m.waiters[1..])])
  }

  lemma UpKeeps(c: Core, s: Sid, cpu: set<Tid>, idle: Tid)
    requires CoreInv(c, cpu, idle) && s < |c.semas|
    ensures CoreInv(Up(c, s), cpu, idle)
  {
    if c.semas[s].waiters == [] {
      forall r: Sid | r < |c.semas| ensures NoneLost(Up(c, s), r) {
        assert NoneLost(c, r) && Woken(Up(c, s), r) == Woken(c, r);
      }
    } else {
      WakeKeeps(c, s, cpu, idle);
    }
  }

  lemma WakeKeeps(c: Core, s: Sid, cpu: set<Tid>, idle: Tid)
    requires CoreInv(c, cpu, idle) && s < |c.semas| && c.semas[s].waiters != []
    ensures CoreInv(Up(c, s), cpu, idle)
  {
    var c', t := Up(c, s), c.semas[s].waiters[0];
    assert At(c.place, t, Waiting(s));
    Appended(c.ready, c.place, OnReady, t);
    Elsewhere(c.sleeping, c.place, Asleep, t, OnReady);
    forall r: Sid | r < |c.semas| ensures ListOf(c'.semas[r].waiters, c'.place, Waiting(r)) && NoneLost(c', r) {
      assert NoneLost(c, r);
      if r == s {
        Popped(c.semas[s].waiters, c.place, Waiting(s), OnReady);
        assert Woken(c', s) == Woken(c, s) + {t};
      } else {
        Elsewhere(c.semas[r].waiters, c.place, Waiting(r), t, OnReady);
        assert Woken(c', r) == Woken(c, r);
      }
    }
  }

  // ---- birth and death

  function Born(c: Core, t: Tid): Core {
    Core(c.place[t := OnReady], c.pc[t := Outside], c.ready + [t], c.sleeping, c.semas)
  }

  lemma BirthKeeps(c: Core, t: Tid, cpu: set<Tid>, idle: Tid)
    requires CoreInv(c, cpu, idle) && t !in c.place
    ensures CoreInv(Born(c, t), cpu, idle)
  {
    var c' := Born(c, t);
    Appended(c.ready, c.place, OnReady, t);
    Elsewhere(c.sleeping, c.place, Asleep, t, OnReady);
    forall s: Sid | s < |c.semas| ensures ListOf(c'.semas[s].waiters, c'.place, Waiting(s)) && NoneLost(c', s) {
      assert NoneLost(c, s);
      Elsewhere(c.semas[s].waiters, c.place, Waiting(s), t, OnReady);
      assert Woken(c', s) == Woken(c, s);
    }
  }

  function Dead(c: Core, t: Tid): Core {
    c.(place := c.place - {t}, pc := c.pc - {t})
  }

  lemma DeathKeeps(c: Core, t: Tid, idle: Tid)
    requires CoreInv(c, {t}, idle) && t != idle && c.pc[t] == Outside
    ensures CoreInv(Dead(c, t), {}, idle)
  {
    var c' := Dead(c, t);
    assert forall p: Place, u: Tid | p != OnCpu :: At(c'.place, u, p) == At(c.place, u, p);
    forall s: Sid | s < |c.semas| ensures NoneLost(c', s) {
      assert NoneLost(c, s);
      assert Woken(c', s) == Woken(c, s);
    }
  }
}
