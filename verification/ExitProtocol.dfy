/** The handshake of process_wait and thread_exit (userprog/process.c:166-188, threads/thread.c:332-354, 597-625). */
module ExitProtocol {
  import opened Sequences
  import opened Wrappers

  type Tid = nat

  /** Where a thread is, as far as the protocol goes. */
  datatype Pc =
    | User
    | Waiting(c: Tid)              // process_wait: at sema_down of the child's wait_sema
    | Waited(c: Tid)               // past it, the child still on the list
    | Removed(c: Tid)              // the child taken off the list
    | Reaped(c: Tid, status: int)  // its exit status read
    | Exiting                      // thread_exit: at the loop over the children
    | Orphaning(c: Tid)            // a child taken off the list, its exit_sema not yet raised
    | Announced                    // own wait_sema raised, at sema_down of own exit_sema
    | Dying

  /** struct thread: semaphores by their values. */
  datatype Thread = Thread(children: seq<Tid>, exitStatus: int, waitSema: nat, exitSema: nat, pc: Pc)

  datatype Return = Return(waiter: Tid, child: Tid, status: int)

  /**
   * threads holds the thread structures that exist; next is the next thread identifier.  The
   * rest is history: who created a thread, how often its exit_sema was raised, the status it
   * announced, the structures freed, and the successful returns of process_wait.
   */
  datatype System = System(
    threads: map<Tid, Thread>, next: Tid, initial: Tid,
    parent: map<Tid, Tid>, raised: map<Tid, nat>, final: map<Tid, int>, freed: seq<Tid>, results: seq<Return>)

  /** The child whose exit_sema a thread has yet to raise, when it is no longer on its list. */
  function Owed(pc: Pc): Option<Tid> {
    match pc
    case Removed(c) => Some(c)
    case Reaped(c, _) => Some(c)
    case Orphaning(c) => Some(c)
    case _ => None
  }

  predicate HasAnnounced(pc: Pc) {
    pc == Announced || pc == Dying
  }

  // ---- the invariant

  /** c exists, was created by t, and t has not yet raised its exit_sema. */
  ghost predicate Pending(x: System, t: Tid, c: Tid) {
    c in x.threads && c in x.parent && x.parent[c] == t && c in x.raised && x.raised[c] == 0 && c != x.initial
  }

  ghost predicate ListOk(x: System, t: Tid)
    requires t in x.threads
  {
    NoDup(x.threads[t].children) && forall i: nat | i < |x.threads[t].children| :: Pending(x, t, x.threads[t].children[i])
  }

  ghost predicate PcOk(x: System, t: Tid)
    requires t in x.threads
  {
    var me := x.threads[t];
    match me.pc
    case Waiting(c) => c in me.children
    case Waited(c) => c in me.children && c in x.threads && HasAnnounced(x.threads[c].pc)
    case Removed(c) => c !in me.children && Pending(x, t, c) && HasAnnounced(x.threads[c].pc)
    case Reaped(c, v) => c !in me.children && Pending(x, t, c) && HasAnnounced(x.threads[c].pc) && v == x.threads[c].exitStatus
    case Orphaning(c) => c !in me.children && Pending(x, t, c)
    case Announced => me.children == []
    case Dying => me.children == []
    case _ => true
  }

  /** Someone will still raise the exit_sema of t. */
  ghost predicate Awaited(x: System, t: Tid) {
    && t in x.parent && x.parent[t] in x.threads
    && (t in x.threads[x.parent[t]].children || Owed(x.threads[x.parent[t]].pc) == Some(t))
  }

  ghost predicate SemasOk(x: System, t: Tid)
    requires t in x.threads
  {
    var me := x.threads[t];
    && t in x.raised && x.raised[t] <= 1 && (t != x.initial ==> (x.raised[t] == 0 <==> Awaited(x, t)))
    && me.exitSema + (if me.pc == Dying then 1 else 0) == x.raised[t]
    && (me.waitSema > 0 ==> HasAnnounced(me.pc))
    && (t in x.final <==> HasAnnounced(me.pc)) && (t in x.final ==> x.final[t] == me.exitStatus)
  }

  ghost predicate ThreadOk(x: System, t: Tid)
    requires t in x.threads
  {
    t < x.next && ListOk(x, t) && PcOk(x, t) && SemasOk(x, t)
  }

  /** A freed structure is gone, and its exit_sema was raised exactly once. */
  ghost predicate FreedOk(x: System, t: Tid) {
    t < x.next && t !in x.threads && t != x.initial && t in x.raised && x.raised[t] == 1
  }

  /** A successful process_wait returned the announced status of a child that is waited for no more. */
  ghost predicate ReturnOk(x: System, r: Return) {
    r.child in x.raised && x.raised[r.child] == 1 && r.child in x.final && x.final[r.child] == r.status && r.child < x.next
  }

  ghost predicate Inv(x: System) {
    && x.initial in x.threads && (forall t | t in x.final :: t < x.next)
    && (forall t | t in x.threads :: ThreadOk(x, t))
    && NoDup(x.freed) && (forall i: nat | i < |x.freed| :: FreedOk(x, x.freed[i]))
    && (forall i: nat | i < |x.results| :: ReturnOk(x, x.results[i]))
    && (forall i: nat, j: nat | i < j < |x.results| :: x.results[i].child != x.results[j].child)
  }

  // ---- the steps

  function With(x: System, t: Tid, me: Thread): System {
    x.(threads := x.threads[t := me])
  }

  /** thread_create. */
  function Spawn(x: System, t: Tid): System
    requires t in x.threads
  {
    var c := x.next;
    With(With(x, c, Thread([], -1, 0, 0, User)), t, x.threads[t].(children := x.threads[t].children + [c]))
      .(next := c + 1, parent := x.parent[c := t], raised := x.raised[c := 0])
  }

  function SetStatus(x: System, t: Tid, v: int): System
    requires t in x.threads
  {
    With(x, t, x.threads[t].(exitStatus := v))
  }

  function Goto(x: System, t: Tid, pc: Pc): System
    requires t in x.threads
  {
    With(x, t, x.threads[t].(pc := pc))
  }

  /** sema_down of the child's wait_sema completes. */
  function WaitDown(x: System, t: Tid, c: Tid): System
    requires t in x.threads && c in x.threads && x.threads[c].waitSema > 0
  {
    Goto(With(x, c, x.threads[c].(waitSema := x.threads[c].waitSema - 1)), t, Waited(c))
  }

  /** list_remove of the child. */
  function Remove(x: System, t: Tid, c: Tid): System
    requires t in x.threads
  {
    With(x, t, x.threads[t].(children := Sequences.Remove(x.threads[t].children, c), pc := Removed(c)))
  }

  /** sema_up of the exit_sema of c. */
  function RaiseExit(x: System, c: Tid): System
    requires c in x.threads && c in x.raised
  {
    With(x, c, x.threads[c].(exitSema := x.threads[c].exitSema + 1)).(raised := x.raised[c := x.raised[c] + 1])
  }

  /** The end of process_wait. */
  function ReturnStatus(x: System, t: Tid, c: Tid, v: int): System
    requires t in x.threads && c in x.threads && c in x.raised
  {
    Goto(RaiseExit(x, c), t, User).(results := x.results + [Return(t, c, v)])
  }

  /** A turn of the loop of thread_exit, or what follows it. */
  function ExitTurn(x: System, t: Tid): System
    requires t in x.threads
  {
    var me := x.threads[t];
    if me.children != [] then With(x, t, me.(children := me.children[1..], pc := Orphaning(me.children[0])))
    else With(x, t, me.(waitSema := me.waitSema + 1, pc := Announced)).(final := x.final[t := me.exitStatus])
  }

  /** sema_down of the own exit_sema completes. */
  function ExitDown(x: System, t: Tid): System
    requires t in x.threads && x.threads[t].exitSema > 0
  {
    With(x, t, x.threads[t].(exitSema := x.threads[t].exitSema - 1, pc := Dying))
  }

  /** thread_schedule_tail, on a dying predecessor. */
  function Free(x: System, t: Tid): System {
    x.(threads := x.threads - {t}, freed := x.freed + [t])
  }

  // ---- every step keeps the invariant

  lemma SetStatusKeeps(x: System, t: Tid, v: int)
    requires Inv(x) && t in x.threads && x.threads[t].pc == User
    ensures Inv(SetStatus(x, t, v))
  {
    var x' := SetStatus(x, t, v);
    forall u | u in x'.threads ensures ThreadOk(x', u) {
      assert ThreadOk(x, u);
    }
  }

  lemma GotoSemas(x: System, t: Tid, pc: Pc, u: Tid)
    requires t in x.threads && !HasAnnounced(pc) && !HasAnnounced(x.threads[t].pc) && Owed(pc) == Owed(x.threads[t].pc)
    requires u in x.threads && ThreadOk(x, u)
    ensures SemasOk(Goto(x, t, pc), u) && ListOk(Goto(x, t, pc), u)
  {
  }

  lemma GotoPc(x: System, t: Tid, pc: Pc, u: Tid)
    requires t in x.threads && !HasAnnounced(pc) && !HasAnnounced(x.threads[t].pc) && PcOk(Goto(x, t, pc), t)
    requires u in x.threads && ThreadOk(x, u)
    ensures PcOk(Goto(x, t, pc), u)
  {
  }

  /** Steps that change only the program counter: entering process_wait, reading the status, entering thread_exit. */
  lemma GotoKeeps(x: System, t: Tid, pc: Pc)
    requires Inv(x) && t in x.threads && !HasAnnounced(pc) && !HasAnnounced(x.threads[t].pc)
    requires Owed(pc) == Owed(x.threads[t].pc) && PcOk(Goto(x, t, pc), t)
    ensures Inv(Goto(x, t, pc))
  {
    hide ListOk, PcOk, SemasOk;
    var x' := Goto(x, t, pc);
    forall u | u in x'.threads ensures ThreadOk(x', u) {
      assert ThreadOk(x, u);
      GotoSemas(x, t, pc, u);
      GotoPc(x, t, pc, u);
    }
  }

  lemma WaitDownList(x: System, t: Tid, c: Tid, u: Tid)
    requires Inv(x) && t in x.threads && x.threads[t].pc == Waiting(c) && c in x.threads && x.threads[c].waitSema > 0
    requires u in x.threads && ThreadOk(x, u)
    ensures ListOk(WaitDown(x, t, c), u)
  {
    assert ThreadOk(x, c);
  }

  lemma WaitDownPc(x: System, t: Tid, c: Tid, u: Tid)
    requires Inv(x) && t in x.threads && x.threads[t].pc == Waiting(c) && c in x.threads && x.threads[c].waitSema > 0
    requires u in x.threads && ThreadOk(x, u)
    ensures PcOk(WaitDown(x, t, c), u)
  {
    assert ThreadOk(x, c);
  }

  lemma WaitDownSemas(x: System, t: Tid, c: Tid, u: Tid)
    requires Inv(x) && t in x.threads && x.threads[t].pc == Waiting(c) && c in x.threads && x.threads[c].waitSema > 0
    requires u in x.threads && ThreadOk(x, u)
    ensures SemasOk(WaitDown(x, t, c), u)
  {
    assert ThreadOk(x, c);
  }

  lemma WaitDownKeeps(x: System, t: Tid, c: Tid)
    requires Inv(x) && t in x.threads && x.threads[t].pc == Waiting(c) && c in x.threads && x.threads[c].waitSema > 0
    ensures Inv(WaitDown(x, t, c))
  {
    var x' := WaitDown(x, t, c);
    forall u | u in x'.threads ensures ThreadOk(x', u) {
      WaitDownList(x, t, c, u);
      WaitDownPc(x, t, c, u);
      WaitDownSemas(x, t, c, u);
    }
  }

  lemma ExitDownKeeps(x: System, t: Tid)
    requires Inv(x) && t in x.threads && x.threads[t].pc == Announced && x.threads[t].exitSema > 0
    ensures Inv(ExitDown(x, t))
  {
    var x' := ExitDown(x, t);
    forall u | u in x'.threads ensures ThreadOk(x', u) {
      assert ThreadOk(x, u);
    }
  }

  lemma FreeKeeps(x: System, t: Tid)
    requires Inv(x) && t in x.threads && x.threads[t].pc == Dying && t != x.initial
    ensures Inv(Free(x, t))
  {
    var x' := Free(x, t);
    assert ThreadOk(x, t);
    forall u | u in x'.threads ensures ThreadOk(x', u) {
      assert ThreadOk(x, u);
    }
  }

  lemma SpawnList(x: System, t: Tid, u: Tid)
    requires Inv(x) && t in x.threads && x.threads[t].pc == User && ThreadOk(x, t) && u in x.threads && ThreadOk(x, u)
    ensures u in Spawn(x, t).threads && ListOk(Spawn(x, t), u)
  {
    hide PcOk, SemasOk;
    var list := x.threads[u].children;
    forall i: nat | i < |list| ensures list[i] < x.next {
      assert ThreadOk(x, list[i]);
    }
  }

  lemma SpawnPc(x: System, t: Tid, u: Tid)
    requires Inv(x) && t in x.threads && x.threads[t].pc == User && ThreadOk(x, t) && u in x.threads && ThreadOk(x, u)
    ensures u in Spawn(x, t).threads && PcOk(Spawn(x, t), u)
  {
  }

  lemma SpawnSemas(x: System, t: Tid, u: Tid)
    requires Inv(x) && t in x.threads && x.threads[t].pc == User && ThreadOk(x, t) && u in x.threads && ThreadOk(x, u)
    ensures u in Spawn(x, t).threads && SemasOk(Spawn(x, t), u)
  {
  }

  lemma SpawnedOk(x: System, t: Tid)
    requires Inv(x) && t in x.threads && x.threads[t].pc == User
    ensures x.next in Spawn(x, t).threads && ThreadOk(Spawn(x, t), x.next)
  {
    assert ThreadOk(x, t);
    assert Spawn(x, t).threads[t].children[|x.threads[t].children|] == x.next;
  }

  lemma SpawnKeeps(x: System, t: Tid)
    requires Inv(x) && t in x.threads && x.threads[t].pc == User
    ensures Inv(Spawn(x, t))
  {
    hide ListOk, PcOk, SemasOk;
    var x' := Spawn(x, t);
    SpawnedOk(x, t);
    forall u | u in x'.threads ensures ThreadOk(x', u) {
      if u != x.next {
        SpawnList(x, t, u);
        SpawnPc(x, t, u);
        SpawnSemas(x, t, u);
      }
    }
  }

  lemma RemoveList(x: System, t: Tid, c: Tid, u: Tid)
    requires Inv(x) && t in x.threads && x.threads[t].pc == Waited(c) && u in x.threads && ThreadOk(x, u)
    ensures u in Remove(x, t, c).threads && ListOk(Remove(x, t, c), u)
  {
    var x' := Remove(x, t, c);
    RemoveOnce(x.threads[t].children, c);
    var before, after := x.threads[t].children, x'.threads[t].children;
    assert u == t ==> forall i: nat | i < |after| :: after[i] in before;
  }

  lemma RemovePc(x: System, t: Tid, c: Tid, u: Tid)
    requires Inv(x) && t in x.threads && x.threads[t].pc == Waited(c) && u in x.threads && ThreadOk(x, u)
    ensures u in Remove(x, t, c).threads && PcOk(Remove(x, t, c), u)
  {
    RemoveOnce(x.threads[t].children, c);
  }

  lemma RemoveSemas(x: System, t: Tid, c: Tid, u: Tid)
    requires Inv(x) && t in x.threads && x.threads[t].pc == Waited(c) && u in x.threads && ThreadOk(x, u)
    ensures u in Remove(x, t, c).threads && SemasOk(Remove(x, t, c), u)
  {
    RemoveOnce(x.threads[t].children, c);
  }

  lemma RemoveKeeps(x: System, t: Tid, c: Tid)
    requires Inv(x) && t in x.threads && x.threads[t].pc == Waited(c)
    ensures Inv(Remove(x, t, c))
  {
    var x' := Remove(x, t, c);
    forall u | u in x'.threads ensures ThreadOk(x', u) {
      RemoveList(x, t, c, u);
      RemovePc(x, t, c, u);
      RemoveSemas(x, t, c, u);
    }
  }

  lemma ExitTurnList(x: System, t: Tid, u: Tid)
    requires Inv(x) && t in x.threads && x.threads[t].pc == Exiting && ThreadOk(x, t) && u in x.threads && ThreadOk(x, u)
    ensures u in ExitTurn(x, t).threads && ListOk(ExitTurn(x, t), u)
  {
  }

  lemma ExitTurnPc(x: System, t: Tid, u: Tid)
    requires Inv(x) && t in x.threads && x.threads[t].pc == Exiting && ThreadOk(x, t) && u in x.threads && ThreadOk(x, u)
    ensures u in ExitTurn(x, t).threads && PcOk(ExitTurn(x, t), u)
  {
  }

  lemma PopSemas(x: System, t: Tid, u: Tid)
    requires Inv(x) && t in x.threads && x.threads[t].pc == Exiting && x.threads[t].children != []
    requires u in x.threads && ThreadOk(x, u)
    ensures SemasOk(ExitTurn(x, t), u)
  {
    var x', list := ExitTurn(x, t), x.threads[t].children;
    assert u in list <==> u == list[0] || u in list[1..];
    assert Awaited(x', u) <==> Awaited(x, u);
  }

  lemma AnnounceSemas(x: System, t: Tid, u: Tid)
    requires Inv(x) && t in x.threads && x.threads[t].pc == Exiting && x.threads[t].children == []
    requires u in x.threads && ThreadOk(x, u)
    ensures SemasOk(ExitTurn(x, t), u)
  {
    assert Awaited(ExitTurn(x, t), u) <==> Awaited(x, u);
  }

  lemma ExitTurnKeeps(x: System, t: Tid)
    requires Inv(x) && t in x.threads && x.threads[t].pc == Exiting
    ensures Inv(ExitTurn(x, t))
  {
    var x' := ExitTurn(x, t);
    forall u | u in x'.threads ensures ThreadOk(x', u) {
      ExitTurnList(x, t, u);
      ExitTurnPc(x, t, u);
      if x.threads[t].children != [] {
        PopSemas(x, t, u);
      } else {
        AnnounceSemas(x, t, u);
      }
    }
  }

  ghost predicate MayRaise(x: System, t: Tid, c: Tid, pc: Pc) {
    && Inv(x) && t in x.threads && Owed(x.threads[t].pc) == Some(c) && pc in {User, Exiting}
    && Pending(x, t, c) && c !in x.threads[t].children
  }

  lemma RaiseList(x: System, t: Tid, c: Tid, pc: Pc, u: Tid)
    requires MayRaise(x, t, c, pc) && u in x.threads && ThreadOk(x, u)
    ensures u in Goto(RaiseExit(x, c), t, pc).threads && ListOk(Goto(RaiseExit(x, c), t, pc), u)
  {
    assert forall i: nat | i < |x.threads[u].children| :: x.threads[u].children[i] != c;
  }

  lemma RaisePc(x: System, t: Tid, c: Tid, pc: Pc, u: Tid)
    requires MayRaise(x, t, c, pc) && u in x.threads && ThreadOk(x, u)
    ensures u in Goto(RaiseExit(x, c), t, pc).threads && PcOk(Goto(RaiseExit(x, c), t, pc), u)
  {
  }

  lemma RaiseSemas(x: System, t: Tid, c: Tid, pc: Pc, u: Tid)
    requires MayRaise(x, t, c, pc) && u in x.threads && ThreadOk(x, u)
    ensures u in Goto(RaiseExit(x, c), t, pc).threads && SemasOk(Goto(RaiseExit(x, c), t, pc), u)
  {
  }

  /** Raising the exit_sema of a child that is no longer on the list, by process_wait or thread_exit. */
  lemma RaiseKeeps(x: System, t: Tid, c: Tid, pc: Pc)
    requires Inv(x) && t in x.threads && Owed(x.threads[t].pc) == Some(c) && pc in {User, Exiting}
    ensures c in x.threads && c in x.raised && Inv(Goto(RaiseExit(x, c), t, pc))
  {
    assert ThreadOk(x, t);
    var x' := Goto(RaiseExit(x, c), t, pc);
    forall u | u in x'.threads ensures ThreadOk(x', u) {
      RaiseList(x, t, c, pc, u);
      RaisePc(x, t, c, pc, u);
      RaiseSemas(x, t, c, pc, u);
    }
  }

  lemma ReturnKeeps(x: System, t: Tid, c: Tid, v: int)
    requires Inv(x) && t in x.threads && x.threads[t].pc == Reaped(c, v)
    ensures c in x.threads && c in x.raised && Inv(ReturnStatus(x, t, c, v))
  {
    assert ThreadOk(x, t) && ThreadOk(x, c);
    RaiseKeeps(x, t, c, User);
    var x1, x' := Goto(RaiseExit(x, c), t, User), ReturnStatus(x, t, c, v);
    forall u | u in x'.threads ensures ThreadOk(x', u) {
      assert ThreadOk(x1, u);
    }
  }

  // ---- runs

  datatype Step =
    | DoSpawn | DoSetStatus(v: int) | DoWait(c: Tid) | DoExit | DoContinue | DoFree

  /** The next step of thread t.  A thread inside process_wait or thread_exit goes on with DoContinue. */
  function Next(x: System, t: Tid, a: Step): System
    requires t in x.threads
  {
    var me := x.threads[t];
    match (me.pc, a)
    case (User, DoSpawn) => Spawn(x, t)
    case (User, DoSetStatus(v)) => SetStatus(x, t, v)
    case (User, DoWait(c)) => if c in me.children then Goto(x, t, Waiting(c)) else x
    case (User, DoExit) => Goto(x, t, Exiting)
    case (Waiting(c), DoContinue) => if c in x.threads && x.threads[c].waitSema > 0 then WaitDown(x, t, c) else x
    case (Waited(c), DoContinue) => Remove(x, t, c)
    case (Removed(c), DoContinue) => if c in x.threads then Goto(x, t, Reaped(c, x.threads[c].exitStatus)) else x
    case (Reaped(c, v), DoContinue) => if c in x.threads && c in x.raised then ReturnStatus(x, t, c, v) else x
    case (Exiting, DoContinue) => ExitTurn(x, t)
    case (Orphaning(c), DoContinue) => if c in x.threads && c in x.raised then Goto(RaiseExit(x, c), t, Exiting) else x
    case (Announced, DoContinue) => if me.exitSema > 0 then ExitDown(x, t) else x
    case (Dying, DoFree) => if t != x.initial then Free(x, t) else x
    case _ => x
  }

  lemma WaitKeeps(x: System, t: Tid, c: Tid)
    requires Inv(x) && t in x.threads && x.threads[t].pc == User && c in x.threads[t].children
    ensures Inv(Goto(x, t, Waiting(c)))
  {
    GotoKeeps(x, t, Waiting(c));
  }

  lemma ExitKeeps(x: System, t: Tid)
    requires Inv(x) && t in x.threads && x.threads[t].pc == User
    ensures Inv(Goto(x, t, Exiting))
  {
    GotoKeeps(x, t, Exiting);
  }

  lemma ReapKeeps(x: System, t: Tid, c: Tid)
    requires Inv(x) && t in x.threads && x.threads[t].pc == Removed(c)
    ensures c in x.threads && Inv(Goto(x, t, Reaped(c, x.threads[c].exitStatus)))
  {
    assert ThreadOk(x, t);
    GotoKeeps(x, t, Reaped(c, x.threads[c].exitStatus));
  }

  lemma NextKeeps(x: System, t: Tid, a: Step)
    requires Inv(x) && t in x.threads
    ensures Inv(Next(x, t, a))
  {
    hide Inv, Spawn, SetStatus, Goto, WaitDown, Remove, ReturnStatus, ExitTurn, RaiseExit, ExitDown, Free;
    var me := x.threads[t];
    match (me.pc, a)
    case (User, DoSpawn) => SpawnKeeps(x, t);
    case (User, DoSetStatus(v)) => SetStatusKeeps(x, t, v);
    case (User, DoWait(c)) =>
      if c in me.children {
        WaitKeeps(x, t, c);
      }
    case (User, DoExit) => ExitKeeps(x, t);
    case (Waiting(c), DoContinue) =>
      if c in x.threads && x.threads[c].waitSema > 0 {
        WaitDownKeeps(x, t, c);
      }
    case (Waited(c), DoContinue) => RemoveKeeps(x, t, c);
    case (Removed(c), DoContinue) => ReapKeeps(x, t, c);
    case (Reaped(c, v), DoContinue) => ReturnKeeps(x, t, c, v);
    case (Exiting, DoContinue) => ExitTurnKeeps(x, t);
    case (Orphaning(c), DoContinue) => RaiseKeeps(x, t, c, Exiting);
    case (Announced, DoContinue) =>
      if me.exitSema > 0 {
        ExitDownKeeps(x, t);
      }
    case (Dying, DoFree) =>
      if t != x.initial {
        FreeKeeps(x, t);
      }
    case _ =>
  }

  datatype Move = Move(t: Tid, a: Step)

  /** Any interleaving of the steps of all threads. */
  function Run(x: System, moves: seq<Move>): System
    decreases |moves|
  {
    if moves == [] then x
    else Run(if moves[0].t in x.threads then Next(x, moves[0].t, moves[0].a) else x, moves[1..])
  }

  lemma {:induction false} RunKeeps(x: System, moves: seq<Move>)
    requires Inv(x)
    ensures Inv(Run(x, moves))
    decreases |moves|
  {
    if moves != [] {
      var m := moves[0];
      if m.t in x.threads {
        NextKeeps(x, m.t, m.a);
        RunKeeps(Next(x, m.t, m.a), moves[1..]);
      } else {
        RunKeeps(x, moves[1..]);
      }
    }
  }

  /** The initial thread, with no children. */
  function Boot(initial: Tid): System {
    System(map[initial := Thread([], -1, 0, 0, User)], initial + 1, initial, map[], map[initial := 0], map[], [], [])
  }

  lemma BootInv(initial: Tid)
    ensures Inv(Boot(initial))
  {
  }

  // ---- the status a thread sets for itself

  function Step1(x: System, m: Move): System {
    if m.t in x.threads then Next(x, m.t, m.a) else x
  }

  /** The status of c after the move m, told from the move alone: the exit system call of a thread that is not on its way out. */
  function SetBy(x: System, m: Move, c: Tid, v: int): int {
    if m.t == c && c in x.threads && x.threads[c].pc == User && m.a.DoSetStatus? then m.a.v else v
  }

  /** The status that c set last in the run, v if it set none. */
  function LastSet(x: System, moves: seq<Move>, c: Tid, v: int): int
    decreases |moves|
  {
    if moves == [] then v else LastSet(Step1(x, moves[0]), moves[1..], c, SetBy(x, moves[0], c, v))
  }

  /** v is the status that c has, or announced; -1 as long as there is no such thread. */
  ghost predicate Has(x: System, c: Tid, v: int) {
    && (c in x.threads ==> x.threads[c].exitStatus == v) && (c in x.final ==> x.final[c] == v) && (c >= x.next ==> v == -1)
  }

  lemma SpawnHas(x: System, t: Tid, c: Tid, v: int)
    requires Inv(x) && t in x.threads && x.threads[t].pc == User && Has(x, c, v)
    ensures Has(Spawn(x, t), c, v)
  {
    assert c in x.threads ==> ThreadOk(x, c);
  }

  lemma SetStatusHas(x: System, t: Tid, w: int, c: Tid, v: int)
    requires Inv(x) && t in x.threads && x.threads[t].pc == User && Has(x, c, v)
    ensures Has(SetStatus(x, t, w), c, if t == c then w else v)
  {
    assert ThreadOk(x, t);
  }

  lemma ExitTurnHas(x: System, t: Tid, c: Tid, v: int)
    requires t in x.threads && Has(x, c, v)
    ensures Has(ExitTurn(x, t), c, v)
  {
  }

  lemma OthersHave(x: System, t: Tid, a: Step, c: Tid, v: int)
    requires t in x.threads && Has(x, c, v) && !(x.threads[t].pc == User && (a.DoSpawn? || a.DoSetStatus?)) && x.threads[t].pc != Exiting
    ensures Has(Next(x, t, a), c, v)
  {
  }

  /** Only its own exit system call changes the status of a thread. */
  lemma StepHas(x: System, m: Move, c: Tid, v: int)
    requires Inv(x) && Has(x, c, v)
    ensures Inv(Step1(x, m)) && Has(Step1(x, m), c, SetBy(x, m, c, v))
  {
    hide Inv, Has, Spawn, SetStatus, ExitTurn;
    if m.t in x.threads {
      NextKeeps(x, m.t, m.a);
      if x.threads[m.t].pc == User && m.a.DoSpawn? {
        SpawnHas(x, m.t, c, v);
      } else if x.threads[m.t].pc == User && m.a.DoSetStatus? {
        SetStatusHas(x, m.t, m.a.v, c, v);
      } else if x.threads[m.t].pc == Exiting && m.a.DoContinue? {
        ExitTurnHas(x, m.t, c, v);
      } else if x.threads[m.t].pc != Exiting {
        OthersHave(x, m.t, m.a, c, v);
      }
    }
  }

  lemma {:induction false} RunHas(x: System, moves: seq<Move>, c: Tid, v: int)
    requires Inv(x) && Has(x, c, v)
    ensures Has(Run(x, moves), c, LastSet(x, moves, c, v))
    decreases |moves|
  {
    if moves != [] {
      StepHas(x, moves[0], c, v);
      RunHas(Step1(x, moves[0]), moves[1..], c, SetBy(x, moves[0], c, v));
    }
  }

  // ---- what the protocol guarantees, in every reachable state

  /** A thread structure is freed at most once, and only after its exit_sema was raised, exactly once. */
  lemma FreedOnce(initial: Tid, moves: seq<Move>, t: Tid)
    ensures var x := Run(Boot(initial), moves);
            t in x.freed ==> t != initial && t !in x.threads && t in x.raised && x.raised[t] == 1 && multiset(x.freed)[t] == 1
  {
    BootInv(initial);
    RunKeeps(Boot(initial), moves);
    InitialStays(Boot(initial), moves);
    var x := Run(Boot(initial), moves);
    CountOnce(x.freed, t);
  }

  lemma {:induction false} CountOnce(s: seq<Tid>, t: Tid)
    requires NoDup(s)
    ensures multiset(s)[t] == if t in s then 1 else 0
  {
    if s != [] {
      assert s == [s[0]] + s[1..] && s[0] !in s[1..];
      CountOnce(s[1..], t);
    }
  }

  lemma NextInitial(x: System, t: Tid, a: Step)
    requires t in x.threads
    ensures Next(x, t, a).initial == x.initial
  {
  }

  lemma {:induction false} InitialStays(x: System, moves: seq<Move>)
    ensures Run(x, moves).initial == x.initial
    decreases |moves|
  {
    if moves != [] {
      var m := moves[0];
      if m.t in x.threads {
        NextInitial(x, m.t, m.a);
        InitialStays(Next(x, m.t, m.a), moves[1..]);
      } else {
        InitialStays(x, moves[1..]);
      }
    }
  }

  /** The structure that process_wait or thread_exit is working on exists, and its exit_sema is still to be raised. */
  lemma NoUseAfterFree(initial: Tid, moves: seq<Move>, t: Tid, c: Tid)
    requires var x := Run(Boot(initial), moves);
             t in x.threads && (c in x.threads[t].children || x.threads[t].pc == Waiting(c) || x.threads[t].pc == Waited(c)
                                || Owed(x.threads[t].pc) == Some(c))
    ensures var x := Run(Boot(initial), moves);
            c in x.threads && c in x.raised && x.raised[c] == 0 && x.threads[c].pc != Dying
  {
    BootInv(initial);
    RunKeeps(Boot(initial), moves);
    var x := Run(Boot(initial), moves);
    assert ThreadOk(x, t);
    assert Pending(x, t, c);
    assert ThreadOk(x, c);
  }

  /**
   * A successful process_wait returns the status that the child set last for itself in the run, -1 if it set none; no
   * child is returned twice.
   */
  lemma WaitReturnsFinalStatus(initial: Tid, moves: seq<Move>, i: nat, j: nat)
    requires i < |Run(Boot(initial), moves).results| && j < |Run(Boot(initial), moves).results|
    ensures var x := Run(Boot(initial), moves);
            && x.results[i].status == LastSet(Boot(initial), moves, x.results[i].child, -1)
            && x.results[i].child in x.final && x.results[i].status == x.final[x.results[i].child]
            && (x.results[i].child == x.results[j].child ==> i == j)
  {
    BootInv(initial);
    RunKeeps(Boot(initial), moves);
    assert ReturnOk(Run(Boot(initial), moves), Run(Boot(initial), moves).results[i]);
    RunHas(Boot(initial), moves, Run(Boot(initial), moves).results[i].child, -1);
  }

  // ---- what goes on

  /** A running process has a child when it has made one, and is on its way out when it has asked to be. */
  lemma UserGoesOn(x: System, t: Tid)
    requires Inv(x) && t in x.threads && x.threads[t].pc == User
    ensures var x' := Next(x, t, DoSpawn);
            && t in x'.threads && x'.threads[t] == x.threads[t].(children := x.threads[t].children + [x.next])
            && x.next !in x.threads && x.next in x'.threads && x'.threads[x.next] == Thread([], -1, 0, 0, User)
    ensures var x' := Next(x, t, DoExit); t in x'.threads && x'.threads[t] == x.threads[t].(pc := Exiting)
  {
    assert ThreadOk(x, t);
    assert x.next in x.threads ==> ThreadOk(x, x.next);
  }

  /** A child that has announced its exit can be waited for: the wait takes five steps and returns the child's last status. */
  lemma WaitSucceeds(initial: Tid, moves: seq<Move>, t: Tid, c: Tid)
    requires var x := Run(Boot(initial), moves);
             && t in x.threads && x.threads[t].pc == User && c in x.threads[t].children
             && c in x.threads && x.threads[c].waitSema > 0
    ensures var x := Run(Boot(initial), moves);
            var x' := Run(x, [Move(t, DoWait(c)), Move(t, DoContinue), Move(t, DoContinue), Move(t, DoContinue), Move(t, DoContinue)]);
            && x'.results == x.results + [Return(t, c, LastSet(Boot(initial), moves, c, -1))]
            && t in x'.threads && x'.threads[t].pc == User && c !in x'.threads[t].children
            && c in x'.threads && x'.threads[c].exitSema == x.threads[c].exitSema + 1
  {
    BootInv(initial);
    RunKeeps(Boot(initial), moves);
    var x := Run(Boot(initial), moves);
    RunHas(Boot(initial), moves, c, -1);
    WaitRuns(x, t, c);
  }

  lemma WaitRuns(x: System, t: Tid, c: Tid)
    requires Inv(x) && t in x.threads && x.threads[t].pc == User && c in x.threads[t].children
    requires c in x.threads && x.threads[c].waitSema > 0
    ensures var x' := Run(x, [Move(t, DoWait(c)), Move(t, DoContinue), Move(t, DoContinue), Move(t, DoContinue), Move(t, DoContinue)]);
            && x'.results == x.results + [Return(t, c, x.threads[c].exitStatus)]
            && t in x'.threads && x'.threads[t].pc == User && c !in x'.threads[t].children
            && c in x'.threads && x'.threads[c].exitSema == x.threads[c].exitSema + 1
  {
    hide Inv, Run;
    Waiter(x, t, c);
    var x1, go := Next(x, t, DoWait(c)), Move(t, DoContinue);
    var x2 := Next(x1, t, DoContinue);
    var x3 := Next(x2, t, DoContinue);
    var x4 := Next(x3, t, DoContinue);
    FiveMoves(x, Move(t, DoWait(c)), go, go, go, go);
  }

  lemma Waiter(x: System, t: Tid, c: Tid)
    requires Inv(x) && t in x.threads && c in x.threads[t].children && c in x.threads && x.threads[c].waitSema > 0
    ensures t == c ==> x.threads[t].pc != User
    ensures c in x.raised && c !in Sequences.Remove(x.threads[t].children, c)
  {
    assert ThreadOk(x, t) && ThreadOk(x, c);
    RemoveOnce(x.threads[t].children, c);
  }

  lemma FiveMoves(x: System, m1: Move, m2: Move, m3: Move, m4: Move, m5: Move)
    ensures Run(x, [m1, m2, m3, m4, m5]) == Step1(Step1(Step1(Step1(Step1(x, m1), m2), m3), m4), m5)
  {
    OneMove(x, m1, [m2, m3, m4, m5]);
    OneMove(Step1(x, m1), m2, [m3, m4, m5]);
    OneMove(Step1(Step1(x, m1), m2), m3, [m4, m5]);
    OneMove(Step1(Step1(Step1(x, m1), m2), m3), m4, [m5]);
    OneMove(Step1(Step1(Step1(Step1(x, m1), m2), m3), m4), m5, []);
  }

  lemma OneMove(x: System, m: Move, rest: seq<Move>)
    ensures Run(x, [m] + rest) == Run(Step1(x, m), rest)
    ensures Run(x, []) == x
  {
    assert ([m] + rest)[1..] == rest;
  }

  /** The turns of t to go on, n of them. */
  function Goes(t: Tid, n: nat): seq<Move> {
    if n == 0 then [] else [Move(t, DoContinue)] + Goes(t, n - 1)
  }

  /** x' is x after t let the children cs go. */
  ghost predicate LetGo(x: System, x': System, t: Tid, cs: seq<Tid>) {
    && x'.threads.Keys == x.threads.Keys
    && forall c | c in x.threads && c != t ::
         x'.threads[c] == if c in cs then x.threads[c].(exitSema := x.threads[c].exitSema + 1) else x.threads[c]
  }

  lemma LetGoMore(x: System, x1: System, x2: System, t: Tid, c: Tid, cs: seq<Tid>)
    requires LetGo(x, x1, t, [c]) && LetGo(x1, x2, t, cs) && c !in cs
    ensures LetGo(x, x2, t, [c] + cs)
  {
  }

  /** The first child of the list: it is another thread, and not on the list twice. */
  lemma FirstChild(x: System, t: Tid)
    requires Inv(x) && t in x.threads && x.threads[t].pc == Exiting && x.threads[t].children != []
    ensures var c := x.threads[t].children[0];
            c in x.threads && c in x.raised && c !in x.threads[t].children[1..]
  {
    assert ThreadOk(x, t);
    assert Pending(x, t, x.threads[t].children[0]);
  }

  lemma OtherChild(x: System, t: Tid, c: Tid)
    requires Inv(x) && t in x.threads && x.threads[t].pc == Orphaning(c)
    ensures c in x.threads && c in x.raised && Inv(Goto(RaiseExit(x, c), t, Exiting))
  {
    RaiseKeeps(x, t, c, Exiting);
  }

  /** One child goes: it takes two steps. */
  lemma ChildLetGo(x: System, t: Tid)
    requires Inv(x) && t in x.threads && x.threads[t].pc == Exiting && x.threads[t].children != []
    ensures var x2 := Step1(Step1(x, Move(t, DoContinue)), Move(t, DoContinue));
            && Inv(x2) && LetGo(x, x2, t, [x.threads[t].children[0]]) && t in x2.threads && x2.threads[t].pc == Exiting
            && x2.threads[t].children == x.threads[t].children[1..] && x2.threads[t].waitSema == x.threads[t].waitSema
            && x2.threads[t].exitStatus == x.threads[t].exitStatus
  {
    hide Inv, Pending;
    FirstChild(x, t);
    NextKeeps(x, t, DoContinue);
    var x1 := Next(x, t, DoContinue);
    OtherChild(x1, t, x.threads[t].children[0]);
  }

  /**
   * A thread that exits lets each of its children go, in two steps each, and then announces its exit; it keeps its
   * status, and no other thread changes.
   */
  lemma {:induction false} ExitAnnounces(x: System, t: Tid)
    requires Inv(x) && t in x.threads && x.threads[t].pc == Exiting
    ensures var x' := Run(x, Goes(t, 2 * |x.threads[t].children| + 1));
            && LetGo(x, x', t, x.threads[t].children) && t in x'.threads && x'.threads[t].pc == Announced
            && x'.threads[t].waitSema == x.threads[t].waitSema + 1 && x'.threads[t].exitStatus == x.threads[t].exitStatus
    decreases |x.threads[t].children|
  {
    hide Inv, Run, Next;
    var go := Move(t, DoContinue);
    if x.threads[t].children == [] {
      LastTurn(x, t);
    } else {
      var n, x2, c := 2 * |x.threads[t].children| + 1, Step1(Step1(x, go), go), x.threads[t].children[0];
      ChildLetGo(x, t);
      FirstChild(x, t);
      OneMove(x, go, Goes(t, n - 1));
      OneMove(Step1(x, go), go, Goes(t, n - 2));
      ExitAnnounces(x2, t);
      LetGoMore(x, x2, Run(x2, Goes(t, n - 2)), t, c, x.threads[t].children[1..]);
      assert [c] + x.threads[t].children[1..] == x.threads[t].children;
    }
  }

  lemma LastTurn(x: System, t: Tid)
    requires t in x.threads && x.threads[t].pc == Exiting && x.threads[t].children == []
    ensures var x' := Run(x, Goes(t, 1));
            && LetGo(x, x', t, []) && t in x'.threads && x'.threads[t].pc == Announced
            && x'.threads[t].waitSema == x.threads[t].waitSema + 1 && x'.threads[t].exitStatus == x.threads[t].exitStatus
  {
    OneMove(x, Move(t, DoContinue), []);
  }

  /** A thread whose exit_sema was raised after it announced its exit goes on, and its structure is freed. */
  lemma AnnouncedIsFreed(x: System, t: Tid)
    requires t in x.threads && x.threads[t].pc == Announced && x.threads[t].exitSema > 0 && t != x.initial
    ensures var x' := Run(x, [Move(t, DoContinue), Move(t, DoFree)]);
            t !in x'.threads && x'.freed == x.freed + [t] && forall u | u in x.threads && u != t :: u in x'.threads && x'.threads[u] == x.threads[u]
  {
    OneMove(x, Move(t, DoContinue), [Move(t, DoFree)]);
    OneMove(Step1(x, Move(t, DoContinue)), Move(t, DoFree), []);
  }

  /** A second wait for the same child fails at once, whoever calls it. */
  lemma SecondWaitFails(initial: Tid, moves: seq<Move>, i: nat, t: Tid)
    requires i < |Run(Boot(initial), moves).results| && t in Run(Boot(initial), moves).threads
    ensures var x := Run(Boot(initial), moves);
            x.results[i].child !in x.threads[t].children && Next(x, t, DoWait(x.results[i].child)) == x
  {
    BootInv(initial);
    RunKeeps(Boot(initial), moves);
    var x := Run(Boot(initial), moves);
    assert ReturnOk(x, x.results[i]);
    assert ThreadOk(x, t);
  }
}
