/**
 * The monitor of threads/synch.c:250-338: condition variables with one semaphore for each wait.  A lock is taken and
 * given back in one step.
 */
module Conditions {
  import opened Sequences
  import opened Wrappers

  type Tid = nat
  type Cid = nat
  type Wid = nat

  /** Where a thread is; w names the semaphore_elem of its call of cond_wait on c. */
  datatype Pc =
    | Out
    | Inside                      // holds the lock
    | Queued(c: Cid, w: Wid)      // cond_wait: on the list, the lock still held
    | Asleep(c: Cid, w: Wid)      // at sema_down of its own semaphore
    | Awake(c: Cid, w: Wid)       // past it, at lock_acquire
    | Broadcasting(c: Cid)        // in the loop of cond_broadcast

  datatype Wait = Wait(owner: Tid, cond: Cid)

  /**
   * waiters are the lists of the condition variables, value the semaphores of the waits.  The rest is history: for each
   * condition variable the waits that joined its list and those that were signalled, both in order.
   */
  datatype Monitor = Monitor(
    pc: map<Tid, Pc>, holder: Option<Tid>, waiters: seq<seq<Wid>>, value: map<Wid, nat>,
    next: Wid, waits: map<Wid, Wait>, joined: seq<seq<Wid>>, signalled: seq<seq<Wid>>)

  predicate HoldsLock(pc: Pc) {
    pc.Inside? || pc.Queued? || pc.Broadcasting?
  }

  /** The wait w on c has not passed its semaphore. */
  predicate Before(pc: Pc, c: Cid, w: Wid) {
    pc == Queued(c, w) || pc == Asleep(c, w)
  }

  // ---- the invariant

  /** The thread of a wait that is known. */
  ghost predicate Known(x: Monitor, c: Cid, w: Wid) {
    w in x.waits && x.waits[w].cond == c && x.waits[w].owner in x.pc && w in x.value && w < x.next
  }

  /** A wait on the list: its thread is still in cond_wait, and its semaphore is down. */
  ghost predicate ListedOk(x: Monitor, c: Cid, w: Wid) {
    Known(x, c, w) && Before(x.pc[x.waits[w].owner], c, w) && x.value[w] == 0
  }

  /** A wait off the list: its semaphore is up exactly until its thread has passed it. */
  ghost predicate SignalledOk(x: Monitor, c: Cid, w: Wid) {
    Known(x, c, w) && x.value[w] == if Before(x.pc[x.waits[w].owner], c, w) then 1 else 0
  }

  ghost predicate CondOk(x: Monitor, c: Cid)
    requires c < |x.waiters| == |x.joined| == |x.signalled|
  {
    && x.joined[c] == x.signalled[c] + x.waiters[c] && NoDup(x.joined[c])
    && (forall i: nat | i < |x.waiters[c]| :: ListedOk(x, c, x.waiters[c][i]))
    && (forall i: nat | i < |x.signalled[c]| :: SignalledOk(x, c, x.signalled[c][i]))
  }

  ghost predicate ThreadOk(x: Monitor, t: Tid)
    requires t in x.pc && |x.waiters| == |x.joined| == |x.signalled|
  {
    && (HoldsLock(x.pc[t]) <==> x.holder == Some(t))
    && match x.pc[t]
       case Queued(c, w) => c < |x.joined| && w in x.joined[c] && w in x.waits && x.waits[w].owner == t
       case Asleep(c, w) => c < |x.joined| && w in x.joined[c] && w in x.waits && x.waits[w].owner == t
       case Awake(c, w) => c < |x.joined| && w in x.signalled[c]
       case Broadcasting(c) => c < |x.joined|
       case _ => true
  }

  ghost predicate Inv(x: Monitor) {
    && |x.waiters| == |x.joined| == |x.signalled|
    && (x.holder.Some? ==> x.holder.value in x.pc)
    && (forall w | w in x.waits :: w < x.next)
    && (forall c: Cid | c < |x.waiters| :: CondOk(x, c))
    && (forall t | t in x.pc :: ThreadOk(x, t))
  }

  // ---- the steps

  function Goto(x: Monitor, t: Tid, pc: Pc, holder: Option<Tid>): Monitor {
    x.(pc := x.pc[t := pc], holder := holder)
  }

  /** The first half of cond_wait: a semaphore of its own goes to the end of the list. */
  function Join(x: Monitor, t: Tid, c: Cid): Monitor
    requires c < |x.waiters| == |x.joined|
  {
    var w := x.next;
    x.(pc := x.pc[t := Queued(c, w)], waiters := x.waiters[c := x.waiters[c] + [w]], value := x.value[w := 0],
       next := w + 1, waits := x.waits[w := Wait(t, c)], joined := x.joined[c := x.joined[c] + [w]])
  }

  /** sema_down of the wait's own semaphore. */
  function Pass(x: Monitor, t: Tid, c: Cid, w: Wid): Monitor
    requires w in x.value && x.value[w] > 0
  {
    x.(pc := x.pc[t := Awake(c, w)], value := x.value[w := x.value[w] - 1])
  }

  /** cond_signal, some wait being on the list: the first one is taken off and its semaphore raised. */
  function SignalFirst(x: Monitor, c: Cid): Monitor
    requires c < |x.waiters| == |x.signalled| && x.waiters[c] != [] && x.waiters[c][0] in x.value
  {
    var w := x.waiters[c][0];
    x.(waiters := x.waiters[c := x.waiters[c][1..]], value := x.value[w := x.value[w] + 1],
       signalled := x.signalled[c := x.signalled[c] + [w]])
  }

  /** cond_signal. */
  function Signal(x: Monitor, c: Cid): Monitor
    requires c < |x.waiters| == |x.signalled|
  {
    if x.waiters[c] != [] && x.waiters[c][0] in x.value then SignalFirst(x, c) else x
  }

  datatype Action = Acquire | Release | DoWait(c: Cid) | DoSignal(c: Cid) | DoBroadcast(c: Cid) | Continue

  /** The next step of thread t; one that cannot come next, or would block, changes nothing. */
  function Next(x: Monitor, t: Tid, a: Action): Monitor
    requires t in x.pc && |x.waiters| == |x.joined| == |x.signalled|
  {
    match (x.pc[t], a)
    case (Out, Acquire) => if x.holder.None? then Goto(x, t, Inside, Some(t)) else x
    case (Inside, Release) => Goto(x, t, Out, None)
    case (Inside, DoWait(c)) => if c < |x.waiters| then Join(x, t, c) else x
    case (Inside, DoSignal(c)) => if c < |x.waiters| then Signal(x, c) else x
    case (Inside, DoBroadcast(c)) => if c < |x.waiters| then Goto(x, t, Broadcasting(c), x.holder) else x
    case (Queued(c, w), Continue) => Goto(x, t, Asleep(c, w), None)
    case (Asleep(c, w), Continue) => if w in x.value && x.value[w] > 0 then Pass(x, t, c, w) else x
    case (Awake(c, w), Continue) => if x.holder.None? then Goto(x, t, Inside, Some(t)) else x
    case (Broadcasting(c), Continue) =>
      if c >= |x.waiters| then x else if x.waiters[c] == [] then Goto(x, t, Inside, x.holder) else Signal(x, c)
    case _ => x
  }

  // ---- every step keeps the invariant

  /** A step that lets no semaphore pass and leaves the wait of t as it is. */
  lemma GotoKeeps(x: Monitor, t: Tid, pc: Pc, holder: Option<Tid>)
    requires Inv(x) && t in x.pc && (forall c, w :: Before(pc, c, w) <==> Before(x.pc[t], c, w))
    requires holder == (if HoldsLock(pc) then Some(t) else if x.holder == Some(t) then None else x.holder)
    requires HoldsLock(pc) ==> x.holder in {None, Some(t)}
    requires pc.Inside? || pc.Out? || (pc.Broadcasting? && pc.c < |x.waiters|) || (pc.Asleep? && x.pc[t] == Queued(pc.c, pc.w))
    ensures Inv(Goto(x, t, pc, holder))
  {
    var x' := Goto(x, t, pc, holder);
    forall c: Cid | c < |x'.waiters| ensures CondOk(x', c) {
      assert CondOk(x, c);
      forall i: nat | i < |x'.waiters[c]| ensures ListedOk(x', c, x'.waiters[c][i]) {
        assert ListedOk(x, c, x.waiters[c][i]);
      }
      forall i: nat | i < |x'.signalled[c]| ensures SignalledOk(x', c, x'.signalled[c][i]) {
        assert SignalledOk(x, c, x.signalled[c][i]);
      }
    }
    forall u | u in x'.pc ensures ThreadOk(x', u) {
      assert ThreadOk(x, t);
      assert u in x.pc ==> ThreadOk(x, u);
    }
  }

  /** A new wait is none of those known so far. */
  lemma NewWait(x: Monitor, t: Tid, c: Cid, d: Cid, w: Wid)
    requires Inv(x) && t in x.pc && x.pc[t] == Inside && c < |x.waiters|
    requires Known(x, d, w)
    ensures w != x.next && Known(Join(x, t, c), d, w)
    ensures Before(Join(x, t, c).pc[x.waits[w].owner], d, w) <==> Before(x.pc[x.waits[w].owner], d, w)
    ensures Join(x, t, c).waits[w] == x.waits[w] && Join(x, t, c).value[w] == x.value[w]
  {
  }

  lemma JoinKeepsCond(x: Monitor, t: Tid, c: Cid, d: Cid)
    requires Inv(x) && t in x.pc && x.pc[t] == Inside && c < |x.waiters| && d < |x.waiters|
    ensures CondOk(Join(x, t, c), d)
  {
    var x' := Join(x, t, c);
    assert CondOk(x, d);
    forall i: nat | i < |x.waiters[d]| ensures ListedOk(x', d, x.waiters[d][i]) {
      assert ListedOk(x, d, x.waiters[d][i]);
      NewWait(x, t, c, d, x.waiters[d][i]);
    }
    forall i: nat | i < |x.signalled[d]| ensures SignalledOk(x', d, x.signalled[d][i]) {
      assert SignalledOk(x, d, x.signalled[d][i]);
      NewWait(x, t, c, d, x.signalled[d][i]);
    }
    if d == c {
      assert ListedOk(x', c, x.next);
      JoinedIsNew(x, c);
    }
  }

  lemma JoinedIsNew(x: Monitor, c: Cid)
    requires Inv(x) && c < |x.waiters|
    ensures x.next !in x.joined[c] && NoDup(x.joined[c] + [x.next])
    ensures x.joined[c] + [x.next] == x.signalled[c] + (x.waiters[c] + [x.next])
  {
    assert CondOk(x, c);
    forall i: nat | i < |x.joined[c]| ensures x.joined[c][i] < x.next {
      if i < |x.signalled[c]| {
        assert SignalledOk(x, c, x.signalled[c][i]);
      } else {
        assert ListedOk(x, c, x.waiters[c][i - |x.signalled[c]|]);
      }
    }
  }

  lemma JoinKeeps(x: Monitor, t: Tid, c: Cid)
    requires Inv(x) && t in x.pc && x.pc[t] == Inside && c < |x.waiters|
    ensures Inv(Join(x, t, c))
  {
    var x' := Join(x, t, c);
    forall d: Cid | d < |x'.waiters| ensures CondOk(x', d) {
      JoinKeepsCond(x, t, c, d);
    }
    forall u | u in x'.pc ensures ThreadOk(x', u) {
      assert ThreadOk(x, t) && ThreadOk(x, u);
    }
  }

  /** A thread past its semaphore had it up, and was signalled. */
  lemma PasserSignalled(x: Monitor, t: Tid, c: Cid, w: Wid)
    requires Inv(x) && t in x.pc && x.pc[t] == Asleep(c, w) && w in x.value && x.value[w] > 0
    ensures c < |x.signalled| && w in x.signalled[c] && SignalledOk(x, c, w) && x.waits[w].owner == t && x.value[w] == 1
  {
    assert ThreadOk(x, t) && CondOk(x, c);
    var i :| 0 <= i < |x.joined[c]| && x.joined[c][i] == w;
    assert i >= |x.signalled[c]| ==> ListedOk(x, c, x.waiters[c][i - |x.signalled[c]|]);
    assert i < |x.signalled[c]| ==> SignalledOk(x, c, x.signalled[c][i]);
  }

  lemma PassKeepsCond(x: Monitor, t: Tid, c: Cid, w: Wid, d: Cid)
    requires Inv(x) && t in x.pc && x.pc[t] == Asleep(c, w) && w in x.value && x.value[w] > 0 && d < |x.waiters|
    ensures CondOk(Pass(x, t, c, w), d)
  {
    var x' := Pass(x, t, c, w);
    PasserSignalled(x, t, c, w);
    assert CondOk(x, d);
    forall i: nat | i < |x.waiters[d]| ensures ListedOk(x', d, x.waiters[d][i]) {
      assert ListedOk(x, d, x.waiters[d][i]);
    }
    forall i: nat | i < |x.signalled[d]| ensures SignalledOk(x', d, x.signalled[d][i]) {
      assert SignalledOk(x, d, x.signalled[d][i]);
    }
  }

  lemma PassKeeps(x: Monitor, t: Tid, c: Cid, w: Wid)
    requires Inv(x) && t in x.pc && x.pc[t] == Asleep(c, w) && w in x.value && x.value[w] > 0
    ensures Inv(Pass(x, t, c, w))
  {
    var x' := Pass(x, t, c, w);
    PasserSignalled(x, t, c, w);
    forall d: Cid | d < |x'.waiters| ensures CondOk(x', d) {
      PassKeepsCond(x, t, c, w, d);
    }
    forall u | u in x'.pc ensures ThreadOk(x', u) {
      assert ThreadOk(x, t) && ThreadOk(x, u);
    }
  }

  /** The first wait on a list is no other wait. */
  lemma FirstIsAlone(x: Monitor, c: Cid, d: Cid, i: nat)
    requires Inv(x) && c < |x.waiters| && x.waiters[c] != [] && d < |x.waiters|
    ensures ListedOk(x, c, x.waiters[c][0])
    ensures i < |x.signalled[d]| ==> x.signalled[d][i] != x.waiters[c][0]
    ensures i < |x.waiters[d]| && !(d == c && i == 0) ==> x.waiters[d][i] != x.waiters[c][0]
  {
    assert CondOk(x, c) && CondOk(x, d);
    var w, n := x.waiters[c][0], |x.signalled[c]|;
    assert ListedOk(x, c, w) && x.joined[c][n] == w;
    if i < |x.signalled[d]| {
      assert SignalledOk(x, d, x.signalled[d][i]) && x.joined[d][i] == x.signalled[d][i];
    }
    if i < |x.waiters[d]| {
      assert ListedOk(x, d, x.waiters[d][i]) && x.joined[d][|x.signalled[d]| + i] == x.waiters[d][i];
    }
  }

  lemma SignalKeepsCond(x: Monitor, c: Cid, d: Cid)
    requires Inv(x) && c < |x.waiters| && x.waiters[c] != [] && x.waiters[c][0] in x.value && d < |x.waiters|
    ensures CondOk(SignalFirst(x, c), d)
  {
    var x' := SignalFirst(x, c);
    assert CondOk(x, c) && CondOk(x, d);
    forall i: nat | i < |x'.waiters[d]| ensures ListedOk(x', d, x'.waiters[d][i]) {
      var j := if d == c then i + 1 else i;
      FirstIsAlone(x, c, d, j);
      assert ListedOk(x, d, x.waiters[d][j]);
    }
    forall i: nat | i < |x'.signalled[d]| ensures SignalledOk(x', d, x'.signalled[d][i]) {
      FirstIsAlone(x, c, d, i);
      assert i < |x.signalled[d]| ==> SignalledOk(x, d, x.signalled[d][i]);
    }
    if d == c {
      assert x.signalled[c] + x.waiters[c] == x.signalled[c] + [x.waiters[c][0]] + x.waiters[c][1..];
    }
  }

  lemma SignalKeeps(x: Monitor, c: Cid)
    requires Inv(x) && c < |x.waiters|
    ensures Inv(Signal(x, c)) && Signal(x, c).pc == x.pc && Signal(x, c).holder == x.holder
  {
    if x.waiters[c] != [] && x.waiters[c][0] in x.value {
      var x' := SignalFirst(x, c);
      forall d: Cid | d < |x'.waiters| ensures CondOk(x', d) {
        SignalKeepsCond(x, c, d);
      }
      forall u | u in x'.pc ensures ThreadOk(x', u) {
        assert ThreadOk(x, u);
      }
    }
  }

  lemma NextKeeps(x: Monitor, t: Tid, a: Action)
    requires Inv(x) && t in x.pc
    ensures Inv(Next(x, t, a))
  {
    assert ThreadOk(x, t);
    match (x.pc[t], a)
    case (Out, Acquire) =>
      if x.holder.None? {
        GotoKeeps(x, t, Inside, Some(t));
      }
    case (Inside, Release) => GotoKeeps(x, t, Out, None);
    case (Inside, DoWait(c)) =>
      if c < |x.waiters| {
        JoinKeeps(x, t, c);
      }
    case (Inside, DoSignal(c)) =>
      if c < |x.waiters| {
        SignalKeeps(x, c);
      }
    case (Inside, DoBroadcast(c)) =>
      if c < |x.waiters| {
        GotoKeeps(x, t, Broadcasting(c), x.holder);
      }
    case (Queued(c, w), Continue) => GotoKeeps(x, t, Asleep(c, w), None);
    case (Asleep(c, w), Continue) =>
      if w in x.value && x.value[w] > 0 {
        PassKeeps(x, t, c, w);
      }
    case (Awake(c, w), Continue) =>
      if x.holder.None? {
        GotoKeeps(x, t, Inside, Some(t));
      }
    case (Broadcasting(c), Continue) =>
      if x.waiters[c] == [] {
        GotoKeeps(x, t, Inside, x.holder);
      } else {
        SignalKeeps(x, c);
      }
    case _ =>
  }

  // ---- runs

  datatype Move = Move(t: Tid, a: Action)

  function Step(x: Monitor, m: Move): Monitor
    requires |x.waiters| == |x.joined| == |x.signalled|
    ensures |Step(x, m).waiters| == |Step(x, m).joined| == |Step(x, m).signalled|
  {
    if m.t in x.pc then Next(x, m.t, m.a) else x
  }

  /** Any interleaving of the steps of all threads. */
  function Run(x: Monitor, moves: seq<Move>): Monitor
    requires |x.waiters| == |x.joined| == |x.signalled|
    ensures |Run(x, moves).waiters| == |Run(x, moves).joined| == |Run(x, moves).signalled|
    decreases |moves|
  {
    if moves == [] then x else Run(Step(x, moves[0]), moves[1..])
  }

  lemma {:induction false} RunKeeps(x: Monitor, moves: seq<Move>)
    requires Inv(x)
    ensures Inv(Run(x, moves))
    decreases |moves|
  {
    if moves != [] {
      if moves[0].t in x.pc {
        NextKeeps(x, moves[0].t, moves[0].a);
      }
      RunKeeps(Step(x, moves[0]), moves[1..]);
    }
  }

  /** Threads outside the lock, and n condition variables that nobody waits for. */
  function Boot(threads: set<Tid>, n: nat): Monitor {
    Monitor(map t | t in threads :: Out, None, seq(n, _ => []), map[], 0, map[], seq(n, _ => []), seq(n, _ => []))
  }

  lemma BootInv(threads: set<Tid>, n: nat)
    ensures Inv(Boot(threads, n))
  {
    var x := Boot(threads, n);
    forall c: Cid | c < n ensures CondOk(x, c) {
    }
    forall t | t in x.pc ensures ThreadOk(x, t) {
    }
  }

  // ---- what holds in every run

  /** One thread at a time holds the lock: inside, joining a list or broadcasting. */
  lemma OneInside(x: Monitor, moves: seq<Move>, t: Tid, u: Tid)
    requires Inv(x)
    requires var x' := Run(x, moves); t in x'.pc && u in x'.pc && HoldsLock(x'.pc[t]) && HoldsLock(x'.pc[u])
    ensures t == u
  {
    RunKeeps(x, moves);
    assert ThreadOk(Run(x, moves), t) && ThreadOk(Run(x, moves), u);
  }

  /** The waits are signalled in the order in which they joined, each at most once. */
  lemma InOrder(x: Monitor, moves: seq<Move>, c: Cid)
    requires Inv(x) && c < |Run(x, moves).waiters|
    ensures var x' := Run(x, moves); x'.joined[c] == x'.signalled[c] + x'.waiters[c] && NoDup(x'.joined[c])
  {
    RunKeeps(x, moves);
    assert CondOk(Run(x, moves), c);
  }

  /** A wait on the list belongs to a thread that is in cond_wait and has not passed its semaphore: its element exists. */
  lemma ListedIsWaiting(x: Monitor, moves: seq<Move>, c: Cid, i: nat)
    requires Inv(x) && c < |Run(x, moves).waiters| && i < |Run(x, moves).waiters[c]|
    ensures var x', w := Run(x, moves), Run(x, moves).waiters[c][i];
            w in x'.waits && x'.waits[w].owner in x'.pc && Before(x'.pc[x'.waits[w].owner], c, w)
  {
    RunKeeps(x, moves);
    assert CondOk(Run(x, moves), c) && ListedOk(Run(x, moves), c, Run(x, moves).waiters[c][i]);
  }

  /** Nobody gets past its semaphore without having been signalled. */
  lemma NoneWakesUnsignalled(x: Monitor, moves: seq<Move>, t: Tid)
    requires Inv(x) && t in Run(x, moves).pc && Run(x, moves).pc[t].Awake?
    ensures var x', pc := Run(x, moves), Run(x, moves).pc[t]; pc.c < |x'.signalled| && pc.w in x'.signalled[pc.c]
  {
    RunKeeps(x, moves);
    assert ThreadOk(Run(x, moves), t);
  }

  /** No signal is lost: a signalled thread that still sleeps gets past its semaphore whenever it runs. */
  lemma SignalledCanGo(x: Monitor, moves: seq<Move>, t: Tid)
    requires Inv(x) && t in Run(x, moves).pc && Run(x, moves).pc[t].Asleep?
    requires var x', pc := Run(x, moves), Run(x, moves).pc[t]; pc.c < |x'.signalled| && pc.w in x'.signalled[pc.c]
    ensures var x', pc := Run(x, moves), Run(x, moves).pc[t]; Next(x', t, Continue).pc[t] == Awake(pc.c, pc.w)
  {
    RunKeeps(x, moves);
    var x' := Run(x, moves);
    var c, w := x'.pc[t].c, x'.pc[t].w;
    assert ThreadOk(x', t) && CondOk(x', c);
    var i :| 0 <= i < |x'.signalled[c]| && x'.signalled[c][i] == w;
    assert SignalledOk(x', c, x'.signalled[c][i]);
  }

  /** cond_signal under the lock takes one wait off the list, the one that joined first, and lets just its thread go. */
  lemma SignalWakesOne(x: Monitor, moves: seq<Move>, t: Tid, c: Cid)
    requires Inv(x) && t in Run(x, moves).pc && Run(x, moves).pc[t] == Inside && c < |Run(x, moves).waiters|
    requires Run(x, moves).waiters[c] != []
    ensures var x' := Run(x, moves); var x'', w := Next(x', t, DoSignal(c)), x'.waiters[c][0];
            && x''.waiters[c] == x'.waiters[c][1..] && x''.signalled[c] == x'.signalled[c] + [w] && x''.pc == x'.pc
            && (forall d: Cid | d < |x'.waiters| && d != c :: x''.waiters[d] == x'.waiters[d])
            && w in x''.value && x''.value[w] == 1 && (forall v | v in x'.value && v != w :: v in x''.value && x''.value[v] == x'.value[v])
  {
    RunKeeps(x, moves);
    assert CondOk(Run(x, moves), c) && ListedOk(Run(x, moves), c, Run(x, moves).waiters[c][0]);
  }

  // ---- broadcasting

  /** Signals are never taken back. */
  lemma StepSignals(x: Monitor, m: Move, c: Cid)
    requires Inv(x) && c < |x.waiters|
    ensures |Step(x, m).waiters| == |x.waiters| && x.signalled[c] <= Step(x, m).signalled[c]
  {
  }

  lemma {:induction false} RunSignals(x: Monitor, moves: seq<Move>, c: Cid)
    requires Inv(x) && c < |x.waiters|
    ensures |Run(x, moves).waiters| == |x.waiters| && x.signalled[c] <= Run(x, moves).signalled[c]
    decreases |moves|
  {
    if moves != [] {
      StepSignals(x, moves[0], c);
      RunKeeps(x, [moves[0]]);
      assert Run(x, [moves[0]]) == Run(Step(x, moves[0]), []);
      RunSignals(Step(x, moves[0]), moves[1..], c);
    }
  }

  /** While t broadcasts, the other threads leave the list alone. */
  lemma OthersLeaveList(x: Monitor, m: Move, t: Tid, c: Cid)
    requires Inv(x) && t in x.pc && x.pc[t] == Broadcasting(c) && c < |x.waiters| && m.t != t
    ensures var x' := Step(x, m); t in x'.pc && x'.pc[t] == Broadcasting(c)
    ensures Step(x, m).waiters == x.waiters && Step(x, m).joined == x.joined && Step(x, m).signalled == x.signalled
  {
    assert ThreadOk(x, t);
    assert m.t in x.pc ==> ThreadOk(x, m.t);
  }

  /** The turns of t in a run. */
  function Turns(moves: seq<Move>, t: Tid): nat {
    if moves == [] then 0 else (if moves[0] == Move(t, Continue) then 1 else 0) + Turns(moves[1..], t)
  }

  /** All t does in a run is to go on. */
  predicate OnlyContinues(moves: seq<Move>, t: Tid) {
    forall i: nat | i < |moves| && moves[i].t == t :: moves[i].a == Continue
  }

  /**
   * cond_broadcast: by the time its loop has had as many turns as there were waits on the list, whatever the other
   * threads do meanwhile, all of these have been signalled.
   */
  lemma {:induction false} BroadcastWakesAll(x: Monitor, moves: seq<Move>, t: Tid, c: Cid)
    requires Inv(x) && t in x.pc && x.pc[t] == Broadcasting(c) && c < |x.waiters|
    requires OnlyContinues(moves, t) && Turns(moves, t) >= |x.waiters[c]|
    ensures |Run(x, moves).waiters| == |x.waiters| && x.joined[c] <= Run(x, moves).signalled[c]
    decreases |moves|
  {
    assert CondOk(x, c);
    if x.waiters[c] == [] {
      RunSignals(x, moves, c);
    } else {
      var x' := Step(x, moves[0]);
      if moves[0].t in x.pc {
        NextKeeps(x, moves[0].t, moves[0].a);
      }
      assert OnlyContinues(moves[1..], t);
      if moves[0].t != t {
        OthersLeaveList(x, moves[0], t, c);
      } else {
        assert moves[0] == Move(t, Continue);
        assert ListedOk(x, c, x.waiters[c][0]);
        assert x'.joined == x.joined;
      }
      BroadcastWakesAll(x', moves[1..], t, c);
    }
  }

  // ---- what goes on

  /** A thread gets the lock exactly if nobody has it: from outside, or on its way back from a wait. */
  lemma GetsTheLock(x: Monitor, moves: seq<Move>, t: Tid, a: Action)
    requires Inv(x) && t in Run(x, moves).pc
    requires var pc := Run(x, moves).pc[t]; (pc.Out? && a == Acquire) || (pc.Awake? && a == Continue)
    ensures var x' := Run(x, moves); var x'' := Next(x', t, a);
            && t in x''.pc && (x''.pc[t] == Inside <==> forall u | u in x'.pc :: !HoldsLock(x'.pc[u]))
            && (x''.pc[t] != Inside ==> x'' == x')
  {
    RunKeeps(x, moves);
    var x' := Run(x, moves);
    assert ThreadOk(x', t);
    if x'.holder.Some? {
      assert ThreadOk(x', x'.holder.value);
    } else {
      forall u | u in x'.pc ensures !HoldsLock(x'.pc[u]) {
        assert ThreadOk(x', u);
      }
    }
  }

  /** The holder lets everyone else in by leaving. */
  lemma ReleaseLetsIn(x: Monitor, moves: seq<Move>, t: Tid)
    requires Inv(x) && t in Run(x, moves).pc && Run(x, moves).pc[t] == Inside
    ensures var x' := Next(Run(x, moves), t, Release);
            t in x'.pc && x'.pc[t] == Out && forall u | u in x'.pc :: !HoldsLock(x'.pc[u])
  {
    RunKeeps(x, moves);
    forall u | u in Run(x, moves).pc && u != t ensures !HoldsLock(Run(x, moves).pc[u]) {
      assert ThreadOk(Run(x, moves), t) && ThreadOk(Run(x, moves), u);
    }
  }

  /** cond_wait lets go of the lock: two steps later the thread sleeps at the end of the list, and nobody is inside. */
  lemma WaitLetsGo(x: Monitor, moves: seq<Move>, t: Tid, c: Cid)
    requires Inv(x) && t in Run(x, moves).pc && Run(x, moves).pc[t] == Inside && c < |Run(x, moves).waiters|
    ensures var x' := Run(x, moves); var x'' := Step(Step(x', Move(t, DoWait(c))), Move(t, Continue));
            && |x''.waiters| == |x'.waiters| && t in x''.pc && x''.pc[t] == Asleep(c, x'.next) && x''.waiters[c] == x'.waiters[c] + [x'.next]
            && x'.next !in x'.joined[c] && forall u | u in x''.pc :: !HoldsLock(x''.pc[u])
  {
    hide CondOk, ThreadOk, Run, Next;
    RunKeeps(x, moves);
    WaitSteps(Run(x, moves), t, c);
  }

  lemma WaitSteps(x: Monitor, t: Tid, c: Cid)
    requires Inv(x) && t in x.pc && x.pc[t] == Inside && c < |x.waiters| == |x.joined| == |x.signalled|
    ensures var x' := Step(Step(x, Move(t, DoWait(c))), Move(t, Continue));
            && |x'.waiters| == |x.waiters| && t in x'.pc && x'.pc[t] == Asleep(c, x.next) && x'.waiters[c] == x.waiters[c] + [x.next]
            && x.next !in x.joined[c] && forall u | u in x'.pc :: !HoldsLock(x'.pc[u])
  {
    JoinedIsNew(x, c);
    assert ThreadOk(x, t);
    forall u | u in x.pc && u != t ensures !HoldsLock(x.pc[u]) {
      assert ThreadOk(x, u);
    }
  }

  /** A signalled thread is back inside after two steps of its own, once nobody is. */
  lemma SignalledComesBack(x: Monitor, moves: seq<Move>, t: Tid)
    requires Inv(x) && t in Run(x, moves).pc && Run(x, moves).pc[t].Asleep?
    requires var x', pc := Run(x, moves), Run(x, moves).pc[t]; pc.c < |x'.signalled| && pc.w in x'.signalled[pc.c]
    requires forall u | u in Run(x, moves).pc :: !HoldsLock(Run(x, moves).pc[u])
    ensures var x'' := Step(Step(Run(x, moves), Move(t, Continue)), Move(t, Continue));
            t in x''.pc && x''.pc[t] == Inside
  {
    SignalledCanGo(x, moves, t);
    RunKeeps(x, moves);
    var x' := Run(x, moves);
    assert x'.holder.Some? ==> ThreadOk(x', x'.holder.value);
  }

  function Goes(t: Tid, n: nat): seq<Move> {
    if n == 0 then [] else [Move(t, Continue)] + Goes(t, n - 1)
  }

  /** cond_broadcast ends: one turn for each wait and one more, and the thread is inside with the list empty. */
  lemma {:induction false} BroadcastEnds(x: Monitor, t: Tid, c: Cid)
    requires Inv(x) && t in x.pc && x.pc[t] == Broadcasting(c) && c < |x.waiters|
    ensures var x' := Run(x, Goes(t, |x.waiters[c]| + 1));
            && |x'.waiters| == |x.waiters| && x'.waiters[c] == [] && x'.signalled[c] == x.joined[c]
            && x'.pc == x.pc[t := Inside]
    decreases |x.waiters[c]|
  {
    assert CondOk(x, c);
    var n := |x.waiters[c]| + 1;
    var x1 := Step(x, Move(t, Continue));
    assert Goes(t, n)[0] == Move(t, Continue) && Goes(t, n)[1..] == Goes(t, n - 1);
    if x.waiters[c] != [] {
      assert ListedOk(x, c, x.waiters[c][0]);
      NextKeeps(x, t, Continue);
      BroadcastEnds(x1, t, c);
    }
  }
}
