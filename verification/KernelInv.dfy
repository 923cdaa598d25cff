/** The kernel invariant, and what each kind of list change does to it. */
module KernelInv {
  import opened Flags
  import opened Lists
  import opened ReadyQueue
  import opened KernelState
  import opened PriorityChain
  import opened KernelLists

  /** Nobody waits for what is already there: no missed wake-up. */
  ghost predicate SignalOk(s: Kernel, b: Obj) {
    && (b.kind == NoObj ==> b.waiters == [])
    && (b.kind == Sem && b.count > 0 ==> b.waiters == [])
    && (b.kind == Event ==> forall t :: t in b.waiters && t < |s.tasks| ==>
          !Matches(b.flags, s.tasks[t].pendFlags, s.tasks[t].pendAnd))
  }

  ghost predicate Signals(s: Kernel) {
    forall o :: 0 <= o < |s.objs| ==> SignalOk(s, s.objs[o])
  }

  /** The idle task is always ready, at the lowest priority, which no other task has. */
  ghost predicate IdleOk(s: Kernel) {
    && |s.tasks| > 0
    && s.tasks[IDLE].st == Rdy && s.tasks[IDLE].bprio == IDLE_PRI && s.tasks[IDLE].held == []
    && forall t :: 0 < t < |s.tasks| ==> s.tasks[t].bprio < IDLE_PRI
  }

  /** The running task is ready; with the scheduler unlocked it is the preferred task. */
  ghost predicate ActiveOk(s: Kernel) {
    && s.active < |s.tasks| && s.tasks[s.active].st == Rdy
    && (s.lock == 0 ==> Highest(s.ready, 0) < PRI_MAX && s.active == Preferred(s.ready))
  }

  ghost predicate Inv(s: Kernel) {
    Agree(s) && Signals(s) && IdleOk(s) && ActiveOk(s) && Inherits(s, Bases(s.tasks))
  }

  // ------------------------------------------------------------------- signals

  lemma OnlyPrioSignals(s: Kernel, s1: Kernel)
    requires OnlyPrio(s, s1) && Signals(s)
    ensures Signals(s1)
  {
    forall o | 0 <= o < |s1.objs| ensures SignalOk(s1, s1.objs[o]) {
      assert SignalOk(s, s.objs[o]) && SameButOrder(s.objs[o], s1.objs[o]);
    }
  }

  lemma MoveSignals(s: Kernel, t: Tid, st: TaskState, why: WakeReason)
    requires Wf(s) && Signals(s) && t < |s.tasks|
    ensures Signals(Move(s, t, st, why))
  {
    hide Matches, Remove, AddTail;
    var s1 := Move(s, t, st, why);
    assert TaskWf(s, s.tasks[t]);
    forall o | 0 <= o < |s1.objs| ensures SignalOk(s1, s1.objs[o]) {
      assert SignalOk(s, s.objs[o]);
    }
  }

  /** Blocking is sound when the object has nothing for the caller. */
  lemma BlockSignals(s: Kernel, o: Oid, t: Tid, ticks: nat)
    requires Wf(s) && TickOk(s) && Signals(s) && CanBlock(s, o, t)
    requires s.objs[o].kind != NoObj
    requires s.objs[o].kind == Sem ==> s.objs[o].count == 0
    requires s.objs[o].kind == Event ==> !Matches(s.objs[o].flags, s.tasks[t].pendFlags, s.tasks[t].pendAnd)
    ensures Signals(Block(s, o, t, ticks))
  {
    hide Block;
    var s1 := Block(s, o, t, ticks);
    BlockOnly(s, o, t, ticks);
    BlockedIn(s, o, t, ticks);
    forall m | 0 <= m < |s1.objs| ensures SignalOk(s1, s1.objs[m]) {
      assert SignalOk(s, s.objs[m]);
    }
  }

  lemma BlockedIn(s: Kernel, o: Oid, t: Tid, ticks: nat)
    requires Wf(s) && TickOk(s) && CanBlock(s, o, t)
    ensures forall u :: u in Block(s, o, t, ticks).objs[o].waiters <==> u == t || u in s.objs[o].waiters
  {}

  // --------------------------------------------------------------- inheritance

  /** The mutex whose wait list `t` is on belongs to `w`. */
  predicate WaitsFor(s: Kernel, t: Tid, w: Tid) {
    t < |s.tasks| && s.tasks[t].blk.Some? && Owns(s, w, s.tasks[t].blk.value)
  }

  /** Leaving a wait list does not matter to tasks that do not own the mutex. */
  lemma MoveOthers(s: Kernel, t: Tid, st: TaskState, why: WakeReason, u: Tid)
    requires Agree(s) && t < |s.tasks| && !WaitsFor(s, t, u)
    ensures SameTops(s, Move(s, t, st, why), u)
  {
    var s1 := Move(s, t, st, why);
    assert TaskWf(s, s.tasks[t]);
    forall o: Oid | OwnsWaited(s, u, o) || OwnsWaited(s1, u, o) ensures s1.objs[o] == s.objs[o] {
    }
  }

  /** Leaving a wait list changes the first waiter only if it was the first. */
  lemma MoveTop(s: Kernel, t: Tid, st: TaskState, why: WakeReason, o: Oid)
    requires Agree(s) && t < |s.tasks| && s.tasks[t].blk == Some(o) && CanMove(s, t, st)
    ensures Waited(s, o) && Top(s, o) <= s.tasks[t].prio
    ensures Waited(Move(s, t, st, why), o) ==> Top(Move(s, t, st, why), o) >= Top(s, o)
    ensures Top(s, o) != s.tasks[t].prio ==>
              Waited(Move(s, t, st, why), o) && Top(Move(s, t, st, why), o) == Top(s, o)
  {
    var s1 := Move(s, t, st, why);
    assert TaskWf(s, s.tasks[t]);
    TopIsMin(s, o, t);
    var f := s.objs[o].waiters[0];
    assert f in s.objs[o].waiters;
    if Waited(s1, o) {
      var f1 := s1.objs[o].waiters[0];
      assert f1 in s1.objs[o].waiters;
      TopIsMin(s, o, f1);
    }
    if f != t {
      WithoutKeepsHead(s.objs[o].waiters, t);
    }
  }

  lemma MoveTopsBut(s: Kernel, t: Tid, st: TaskState, why: WakeReason, w: Tid)
    requires Agree(s) && t < |s.tasks| && s.tasks[t].blk.Some?
    ensures SameTopsBut(s, Move(s, t, st, why), w, s.tasks[t].blk.value)
  {
    var s1 := Move(s, t, st, why);
    assert TaskWf(s, s.tasks[t]);
    assert forall m: Oid :: m != s.tasks[t].blk.value && m < |s.objs| ==> s1.objs[m] == s.objs[m];
  }

  /** The owner keeps its equation when a waiter it did not inherit from leaves. */
  lemma MoveOwner(s: Kernel, base: seq<nat>, t: Tid, st: TaskState, why: WakeReason, w: Tid)
    requires Agree(s) && CanMove(s, t, st) && w < |s.tasks| == |base| && WaitsFor(s, t, w)
    requires IsLeast(s, base, w, s.tasks[w].prio) && s.tasks[w].prio != s.tasks[t].prio
    ensures IsLeast(Move(s, t, st, why), base, w, s.tasks[w].prio)
  {
    var o := s.tasks[t].blk.value;
    MoveTop(s, t, st, why, o);
    MoveTopsBut(s, t, st, why, w);
    assert OwnsWaited(s, w, o);
    OneMutex(s, Move(s, t, st, why), base, w, o, s.tasks[w].prio);
  }

  /** Raising reaches tasks above `p` only, and gives them exactly `p`. */
  lemma {:induction false} RaiseOneWay(s: Kernel, t: Tid, p: nat, u: Tid)
    requires Wf(s) && t < |s.tasks| && p < s.tasks[t].prio && s.tasks[t].Live() && u < |s.tasks|
    ensures p < PRI_MAX && PriChange(s, t, p).tasks[t].prio == p
    ensures s.tasks[u].prio <= p ==> PriChange(s, t, p).tasks[u].prio == s.tasks[u].prio
    ensures PriChange(s, t, p).tasks[u].prio == s.tasks[u].prio || PriChange(s, t, p).tasks[u].prio == p < s.tasks[u].prio
    decreases Sum(s.tasks)
  {
    assert TaskWf(s, s.tasks[t]);
    var s1 := SetPrio(s, t, p);
    SetPrioWf(s, t, p);
    assert TaskWf(s, s.tasks[t]);
    match NextInChain(s1, t, s.tasks[t].prio)
    case Stop =>
    case Follow(w, q) =>
      if s1.tasks[w].Live() {
        RaiseOneWay(s1, w, q, u);
        RaiseOneWay(s1, w, q, t);
      }
  }
}
