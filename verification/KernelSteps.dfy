/** The kernel calls as steps on the scheduler state (k_mutex.c, k_task.c, k_pend.c,
    k_tick.c, k_sem.c, k_event.c). Calls that act for the current task use `active`. */
module KernelSteps {
  import opened Flags
  import opened Lists
  import opened ReadyQueue
  import opened KernelState
  import opened PriorityChain
  import opened KernelLists

  datatype Status =
    | Success | Blocked | OwnerNested | NestedOvf | TypeErr | NotOwner | NoPendWait | SchedDisabled
    | NotAllowed | InvState | InvParam | NotSuspended | SuspendOvf | SemOvf | TaskWaiting
    | LockOvf | AlreadyEnabled | IdleExists | BeyondMaxPri

  datatype Outcome = Outcome(k: Kernel, status: Status)

  /** `core_sched` on one core: with the scheduler unlocked the preferred task runs next. */
  function Resched(s: Kernel): Kernel {
    if s.lock == 0 && Highest(s.ready, 0) < PRI_MAX then s.(active := Preferred(s.ready)) else s
  }

  function WakeState(k: Task): TaskState {
    if k.st == PendSusp then Susp else Rdy
  }

  /** `pend_task_wakeup` (why = Finish) and `pend_task_rm` (why = Del). */
  function Wake(s: Kernel, t: Tid, why: WakeReason): (r: Kernel)
    requires Wf(s) && t < |s.tasks|
    ensures |r.tasks| == |s.tasks| && |r.objs| == |s.objs|
  {
    Move(s, t, WakeState(s.tasks[t]), why)
  }

  lemma WakeAgree(s: Kernel, t: Tid, why: WakeReason)
    requires Agree(s) && t < |s.tasks| && s.tasks[t].Pending()
    ensures Agree(Wake(s, t, why))
  {
    MoveAgree(s, t, WakeState(s.tasks[t]), why);
  }

  /** The first waiter of `o`. */
  function First(s: Kernel, o: Oid): (t: Tid)
    requires Wf(s) && WaitOk(s) && o < |s.objs| && s.objs[o].waiters != []
    ensures t < |s.tasks| && s.tasks[t].Pending() && s.tasks[t].blk == Some(o)
  {
    assert s.objs[o].waiters[0] in s.objs[o].waiters;
    assert ObjWf(s, s.objs[o]) && TaskWf(s, s.tasks[s.objs[o].waiters[0]]);
    s.objs[o].waiters[0]
  }

  /** Wake every waiter of `o`, first to last. */
  function WakeAll(s: Kernel, o: Oid, why: WakeReason): (r: Kernel)
    requires Agree(s) && o < |s.objs|
    ensures Agree(r) && |r.tasks| == |s.tasks| && |r.objs| == |s.objs|
    decreases |s.objs[o].waiters|
  {
    if s.objs[o].waiters == [] then s
    else
      WakeAgree(s, First(s, o), why);
      WakeAll(Wake(s, First(s, o), why), o, why)
  }

  // ------------------------------------------------------------------- mutexes

  /** `mutex_release` once the mutex is off the owner's list. */
  function Release(s: Kernel, t: Tid): (r: Kernel)
    requires Wf(s) && t < |s.tasks|
    ensures |r.tasks| == |s.tasks| && |r.objs| == |s.objs|
  {
    assert TaskWf(s, s.tasks[t]);
    PriChange(s, t, PriLook(s, t))
  }

  /** `mutex_task_pri_reset`: a task of priority `pri` has left the wait list of `o`. */
  function ResetOwner(s: Kernel, o: Oid, pri: nat): (r: Kernel)
    requires Wf(s) && o < |s.objs|
    ensures |r.tasks| == |s.tasks| && |r.objs| == |s.objs|
  {
    var b := s.objs[o];
    assert ObjWf(s, b);
    if b.kind == Mutex && b.owner.Some? && s.tasks[b.owner.value].prio == pri then
      Release(s, b.owner.value)
    else s
  }

  /** `o` leaves the mutex list of `t`; its own link stays what it is. */
  function DropHeld(s: Kernel, t: Tid, o: Oid): (r: Kernel)
    requires t < |s.tasks| && o < |s.objs|
    ensures |r.tasks| == |s.tasks| && |r.objs| == |s.objs|
  {
    var held := s.tasks[t].held;
    var s1 := SetTask(s, t, s.tasks[t].(held := Without(held, o)));
    if o in held then SetObj(s1, o, s.objs[o].(link := After(held, o))) else s1
  }

  /** `o` goes to its first waiter, which is woken, or becomes free. */
  function Give(s: Kernel, o: Oid, nested: nat): (r: Kernel)
    requires Wf(s) && WaitOk(s) && o < |s.objs|
    ensures |r.tasks| == |s.tasks| && |r.objs| == |s.objs|
  {
    if s.objs[o].waiters == [] then SetObj(s, o, s.objs[o].(owner := None, nested := nested))
    else
      var f := First(s, o);
      var s1 := Wake(s, f, Finish);
      SetTask(SetObj(s1, o, s1.objs[o].(owner := Some(f), nested := nested)),
              f, s1.tasks[f].(held := [o] + s1.tasks[f].held))
  }

  lemma DropHeldWait(s: Kernel, t: Tid, o: Oid)
    requires Wf(s) && WaitOk(s) && t < |s.tasks| && o < |s.objs|
    ensures Wf(DropHeld(s, t, o)) && WaitOk(DropHeld(s, t, o))
  {
    var s1 := DropHeld(s, t, o);
    forall u | 0 <= u < |s1.tasks| ensures TaskWf(s1, s1.tasks[u]) {
      assert TaskWf(s, s.tasks[u]);
    }
    forall m | 0 <= m < |s1.objs| ensures ObjWf(s1, s1.objs[m]) && ListOk(s1, s1.objs[m].waiters) {
      assert ObjWf(s, s.objs[m]) && ListOk(s, s.objs[m].waiters);
      assert Prios(s1.tasks) == Prios(s.tasks);
    }
  }

  /** Releasing for a ready task moves that task alone. */
  lemma ReleaseReady(s: Kernel, t: Tid)
    requires Wf(s) && WaitOk(s) && t < |s.tasks| && s.tasks[t].st == Rdy
    ensures PriLook(s, t) < PRI_MAX
    ensures Release(s, t) == if PriLook(s, t) == s.tasks[t].prio then s else SetPrio(s, t, PriLook(s, t))
    ensures Wf(Release(s, t)) && WaitOk(Release(s, t)) && Release(s, t).objs == s.objs
  {
    assert TaskWf(s, s.tasks[t]);
    if PriLook(s, t) != s.tasks[t].prio {
      SetPrioWait(s, t, PriLook(s, t));
    }
  }

  function MutexLock(s: Kernel, o: Oid, ticks: nat): Outcome
    requires Agree(s) && o < |s.objs| && s.active < |s.tasks|
  {
    var a, b := s.active, s.objs[o];
    assert ObjWf(s, b) && TaskWf(s, s.tasks[a]);
    if b.kind != Mutex then Outcome(s, TypeErr)
    else if b.owner == Some(a) then
      if b.nested == MAX_COUNT then Outcome(s, NestedOvf)
      else Outcome(SetObj(s, o, b.(nested := b.nested + 1)), OwnerNested)
    else if b.owner.None? then
      Outcome(SetTask(SetObj(s, o, b.(owner := Some(a), nested := 1)),
                      a, s.tasks[a].(held := [o] + s.tasks[a].held)), Success)
    else if ticks == NO_WAIT then Outcome(s, NoPendWait)
    else if s.lock > 0 then Outcome(s, SchedDisabled)
    else
      PriChangeAgree(s, b.owner.value, s.tasks[a].prio);
      Outcome(Resched(Block(Boost(s, b.owner.value, s.tasks[a].prio), o, a, ticks)), Blocked)
  }

  /** Raise the owner `w` to the priority `p` of a task about to wait for it. */
  function Boost(s: Kernel, w: Tid, p: nat): (r: Kernel)
    requires Wf(s) && w < |s.tasks| && p < PRI_MAX
    ensures |r.tasks| == |s.tasks| && |r.objs| == |s.objs|
  {
    if p < s.tasks[w].prio then PriChange(s, w, p) else s
  }

  function MutexUnlock(s: Kernel, o: Oid): Outcome
    requires Agree(s) && o < |s.objs| && s.active < |s.tasks| && s.tasks[s.active].st == Rdy
  {
    var a, b := s.active, s.objs[o];
    if b.kind != Mutex then Outcome(s, TypeErr)
    else if b.owner != Some(a) then Outcome(s, NotOwner)
    else if b.nested != 1 then
      Outcome(SetObj(s, o, b.(nested := if b.nested == 0 then MAX_COUNT else b.nested - 1)), OwnerNested)
    else
      DropHeldWait(s, a, o);
      ReleaseReady(DropHeld(s, a, o), a);
      var s1 := Release(DropHeld(s, a, o), a);
      if b.waiters == [] then Outcome(Give(s1, o, 0), Success)
      else Outcome(Resched(Give(s1, o, 1)), Success)
  }

  /** The object is gone: its owner no longer inherits through it. */
  function Retire(s: Kernel, o: Oid): (r: Kernel)
    requires Wf(s) && o < |s.objs|
    ensures |r.tasks| == |s.tasks| && |r.objs| == |s.objs|
  {
    var b := s.objs[o];
    assert ObjWf(s, b);
    var s1 := SetObj(s, o, b.(kind := NoObj, flags := 0));
    if b.kind == Mutex && b.owner.Some? then DropHeld(s1, b.owner.value, o) else s1
  }

  /** `krhino_mutex_del`, `krhino_sem_del`, `krhino_event_del`. */
  function ObjDel(s: Kernel, o: Oid, kind: Kind): Outcome
    requires Agree(s) && o < |s.objs|
  {
    var b := s.objs[o];
    if b.kind != kind || kind == NoObj then Outcome(s, TypeErr)
    else
      RetireAgree(s, o);
      var s1 := Retire(s, o);
      assert ObjWf(s, b);
      if b.kind == Mutex && b.owner.Some? then
        assert TaskWf(s1, s1.tasks[b.owner.value]);
        PriChangeAgree(s1, b.owner.value, PriLook(s1, b.owner.value));
        Outcome(Resched(WakeAll(Release(s1, b.owner.value), o, Del)), Success)
      else Outcome(Resched(WakeAll(s1, o, Del)), Success)
  }

  lemma RetireAgree(s: Kernel, o: Oid)
    requires Agree(s) && o < |s.objs|
    ensures Agree(Retire(s, o))
  {
    var s1 := Retire(s, o);
    RetireWf(s, o);
    SameListsAgree(s, s1);
    forall m | 0 <= m < |s1.objs| ensures OwnerOk(s1, s1.objs[m]) {
      assert OwnerOk(s, s.objs[m]) && ObjWf(s, s.objs[m]);
    }
    RetireOwn(s, o);
  }

  lemma RetireWf(s: Kernel, o: Oid)
    requires Agree(s) && o < |s.objs|
    ensures Wf(Retire(s, o)) && SameLists(s, Retire(s, o))
  {
    hide WaitOk, ReadyOk, TickOk, OwnOk, After;
    var s1 := Retire(s, o);
    assert ObjWf(s, s.objs[o]);
    forall u | 0 <= u < |s1.tasks| ensures TaskWf(s1, s1.tasks[u]) {
      assert TaskWf(s, s.tasks[u]);
    }
    forall m | 0 <= m < |s1.objs| ensures ObjWf(s1, s1.objs[m]) {
      assert ObjWf(s, s.objs[m]);
    }
  }

  lemma RetireOwn(s: Kernel, o: Oid)
    requires Agree(s) && o < |s.objs|
    ensures forall t, m {:trigger m in Retire(s, o).tasks[t].held} ::
              0 <= t < |s.tasks| && s.tasks[t].Live() && 0 <= m < |s.objs| ==>
                (m in Retire(s, o).tasks[t].held <==> Owns(Retire(s, o), t, m))
    ensures forall t :: 0 <= t < |s.tasks| && s.tasks[t].Live() ==> NoDup(Retire(s, o).tasks[t].held)
  {
    hide Wf, WaitOk, ReadyOk, TickOk, OwnOk, Retire, NoDup;
    forall t | 0 <= t < |s.tasks| && s.tasks[t].Live()
      ensures NoDup(Retire(s, o).tasks[t].held)
      ensures forall m :: 0 <= m < |s.objs| ==> (m in Retire(s, o).tasks[t].held <==> Owns(Retire(s, o), t, m))
    {
      RetireOwnOf(s, o, t);
    }
  }

  lemma RetireOwnOf(s: Kernel, o: Oid, t: Tid)
    requires Agree(s) && o < |s.objs| && t < |s.tasks| && s.tasks[t].Live()
    ensures NoDup(Retire(s, o).tasks[t].held)
    ensures forall m :: 0 <= m < |s.objs| ==> (m in Retire(s, o).tasks[t].held <==> Owns(Retire(s, o), t, m))
  {
    hide WaitOk, ReadyOk, TickOk, After;
    var b := s.objs[o];
    assert ObjWf(s, b) && OwnerOk(s, b) && NoDup(s.tasks[t].held);
    WithoutNoDup(s.tasks[t].held, o);
    forall m | 0 <= m < |s.objs| ensures m in Retire(s, o).tasks[t].held <==> Owns(Retire(s, o), t, m) {
      assert m in s.tasks[t].held <==> Owns(s, t, m);
    }
  }

  // ------------------------------------------------------- semaphores and events

  function SemTake(s: Kernel, o: Oid, ticks: nat): Outcome
    requires Agree(s) && o < |s.objs| && s.active < |s.tasks|
  {
    var b := s.objs[o];
    if b.kind != Sem then Outcome(s, TypeErr)
    else if b.count > 0 then Outcome(SetObj(s, o, b.(count := b.count - 1)), Success)
    else if ticks == NO_WAIT then Outcome(s, NoPendWait)
    else if s.lock > 0 then Outcome(s, SchedDisabled)
    else Outcome(Resched(Block(s, o, s.active, ticks)), Blocked)
  }

  function SemGive(s: Kernel, o: Oid, all: bool): Outcome
    requires Agree(s) && o < |s.objs|
  {
    var b := s.objs[o];
    if b.kind != Sem then Outcome(s, TypeErr)
    else if b.waiters == [] then
      if b.count == MAX_COUNT then Outcome(s, SemOvf)
      else Outcome(SetObj(s, o, b.(count := b.count + 1)), Success)
    else if all then Outcome(Resched(WakeAll(s, o, Finish)), Success)
    else Outcome(Resched(Wake(s, First(s, o), Finish)), Success)
  }

  function SemCountSet(s: Kernel, o: Oid, n: nat): Outcome
    requires o < |s.objs|
  {
    var b := s.objs[o];
    if b.kind != Sem then Outcome(s, TypeErr)
    else if b.count > 0 || b.waiters == [] then Outcome(SetObj(s, o, b.(count := n)), Success)
    else Outcome(s, TaskWaiting)
  }

  function EventGet(s: Kernel, o: Oid, flags: bv32, all: bool, clear: bool, ticks: nat): Outcome
    requires Agree(s) && o < |s.objs| && s.active < |s.tasks|
  {
    var a, b := s.active, s.objs[o];
    if b.kind != Event then Outcome(s, TypeErr)
    else if Matches(b.flags, flags, all) then
      var s1 := SetTask(s, a, s.tasks[a].(got := b.flags));
      Outcome(SetObj(s1, o, b.(flags := if clear then ClearFlags(b.flags, flags) else b.flags)), Success)
    else if ticks == NO_WAIT then Outcome(s, NoPendWait)
    else if s.lock > 0 then Outcome(s, SchedDisabled)
    else
      WantAgree(s, a, flags, all, clear);
      Outcome(Resched(Block(Want(s, a, flags, all, clear), o, a, ticks)), Blocked)
  }

  /** Remember what the caller waits for. */
  function Want(s: Kernel, t: Tid, flags: bv32, all: bool, clear: bool): Kernel
    requires t < |s.tasks|
  {
    SetTask(s, t, s.tasks[t].(pendAnd := all, pendClear := clear, pendFlags := flags))
  }

  lemma WantAgree(s: Kernel, t: Tid, flags: bv32, all: bool, clear: bool)
    requires Agree(s) && t < |s.tasks|
    ensures Agree(Want(s, t, flags, all, clear))
  {
    SameLinksAgree(s, Want(s, t, flags, all, clear));
    SameListsAgree(s, Want(s, t, flags, all, clear));
  }

  function EventSet(s: Kernel, o: Oid, flags: bv32, clearOthers: bool): Outcome
    requires Agree(s) && o < |s.objs|
  {
    var b := s.objs[o];
    if b.kind != Event then Outcome(s, TypeErr)
    else if clearOthers then Outcome(SetObj(s, o, b.(flags := KeepFlags(b.flags, flags))), Success)
    else
      FlagsAgree(s, o, AddFlags(b.flags, flags));
      assert ListOk(s, b.waiters);
      Outcome(Resched(EventWake(SetObj(s, o, b.(flags := AddFlags(b.flags, flags))), o, b.waiters, AddFlags(b.flags, flags))), Success)
  }

  lemma FlagsAgree(s: Kernel, o: Oid, flags: bv32)
    requires Agree(s) && o < |s.objs|
    ensures Agree(SetObj(s, o, s.objs[o].(flags := flags)))
  {
    SameObjAgree(s, o, s.objs[o].(flags := flags));
  }

  /** Counts, flags and nesting depths are not part of the list structure. */
  lemma SameObjAgree(s: Kernel, o: Oid, b: Obj)
    requires Agree(s) && o < |s.objs|
    requires b.kind == s.objs[o].kind && b.waiters == s.objs[o].waiters && b.owner == s.objs[o].owner
    ensures Agree(SetObj(s, o, b))
  {
    var s1 := SetObj(s, o, b);
    SameListsAgree(s, s1);
    forall u | 0 <= u < |s1.tasks| ensures TaskWf(s1, s1.tasks[u]) {
      assert TaskWf(s, s.tasks[u]);
    }
    forall m | 0 <= m < |s1.objs| ensures ObjWf(s1, s1.objs[m]) && OwnerOk(s1, s1.objs[m]) {
      assert ObjWf(s, s.objs[m]) && OwnerOk(s, s.objs[m]);
    }
    forall t, m | 0 <= t < |s1.tasks| && s1.tasks[t].Live() && 0 <= m < |s1.objs|
      ensures m in s1.tasks[t].held <==> Owns(s1, t, m)
    {
      assert m in s.tasks[t].held <==> Owns(s, t, m);
    }
  }

  /** The loop of `event_set`: wake each listed waiter whose condition holds in the snapshot `cur`. */
  function EventWake(s: Kernel, o: Oid, ws: seq<Tid>, cur: bv32): (r: Kernel)
    requires Agree(s) && o < |s.objs| && NoDup(ws)
    requires forall t :: t in ws ==> t in s.objs[o].waiters
    ensures Agree(r) && |r.tasks| == |s.tasks| && |r.objs| == |s.objs|
    decreases |ws|
  {
    if ws == [] then s
    else
      var t := ws[0];
      assert t in ws && t in s.objs[o].waiters && ObjWf(s, s.objs[o]) && TaskWf(s, s.tasks[t]);
      assert t !in ws[1..] && NoDup(ws[1..]);
      var k := s.tasks[t];
      if Matches(cur, k.pendFlags, k.pendAnd) then
        EventWakeOneAgree(s, o, t, cur);
        EventWake(EventWakeOne(s, o, t, cur), o, ws[1..], cur)
      else EventWake(s, o, ws[1..], cur)
  }

  function EventWakeOne(s: Kernel, o: Oid, t: Tid, cur: bv32): (r: Kernel)
    requires Wf(s) && o < |s.objs| && t < |s.tasks| && s.tasks[t].blk == Some(o)
    ensures |r.tasks| == |s.tasks| && |r.objs| == |s.objs|
  {
    var s1 := Wake(s, t, Finish);
    var s2 := SetTask(s1, t, s1.tasks[t].(got := cur));
    if s.tasks[t].pendClear then SetObj(s2, o, s2.objs[o].(flags := ClearFlags(s2.objs[o].flags, s.tasks[t].pendFlags)))
    else s2
  }

  lemma EventWakeOneAgree(s: Kernel, o: Oid, t: Tid, cur: bv32)
    requires Agree(s) && o < |s.objs| && t < |s.tasks| && s.tasks[t].blk == Some(o)
    ensures Agree(EventWakeOne(s, o, t, cur))
    ensures EventWakeOne(s, o, t, cur).objs[o].waiters == Without(s.objs[o].waiters, t)
  {
    assert TaskWf(s, s.tasks[t]);
    hide Wf, WaitOk, ReadyOk, TickOk, OwnOk;
    var s1 := Wake(s, t, Finish);
    WakeAgree(s, t, Finish);
    GotAgree(s1, t, cur);
    var s2 := SetTask(s1, t, s1.tasks[t].(got := cur));
    FlagsAgree(s2, o, ClearFlags(s2.objs[o].flags, s.tasks[t].pendFlags));
  }

  lemma GotAgree(s: Kernel, t: Tid, cur: bv32)
    requires Agree(s) && t < |s.tasks|
    ensures Agree(SetTask(s, t, s.tasks[t].(got := cur)))
  {
    SameLinksAgree(s, SetTask(s, t, s.tasks[t].(got := cur)));
    SameListsAgree(s, SetTask(s, t, s.tasks[t].(got := cur)));
  }

  // --------------------------------------------------------------------- tasks

  /** A task stops waiting and the owner it waited for is told (`mutex_task_pri_reset`). */
  function Leave(s: Kernel, t: Tid, st: TaskState, why: WakeReason): (r: Kernel)
    requires Wf(s) && CanMove(s, t, st)
    ensures |r.tasks| == |s.tasks| && |r.objs| == |s.objs|
  {
    MoveWf(s, t, st, why);
    assert TaskWf(s, s.tasks[t]);
    var s1 := Move(s, t, st, why);
    if s.tasks[t].blk.Some? then ResetOwner(s1, s.tasks[t].blk.value, s.tasks[t].prio) else s1
  }

  function TaskSleep(s: Kernel, ticks: nat): Outcome
    requires Agree(s) && s.active < |s.tasks|
  {
    if ticks == 0 then Outcome(s, InvParam)
    else if s.lock > 0 then Outcome(s, SchedDisabled)
    else Outcome(Resched(FallAsleep(s, s.active, ticks)), Blocked)
  }

  function TaskYield(s: Kernel): Outcome
    requires Agree(s) && s.active < |s.tasks| && s.tasks[s.active].st == Rdy
  {
    assert TaskWf(s, s.tasks[s.active]);
    var p := s.tasks[s.active].prio;
    assert s.active in s.ready[p];
    Outcome(Resched(s.(ready := Rotate(s.ready, p))), Success)
  }

  /** Suspending `t`: its new state, if it was not suspended already. */
  function TaskSuspend(s: Kernel, t: Tid): Outcome
    requires Wf(s) && t < |s.tasks|
  {
    var k := s.tasks[t];
    if k.prio == IDLE_PRI then Outcome(s, NotAllowed)
    else if t == s.active && s.lock > 0 then Outcome(s, SchedDisabled)
    else match k.st
      case Rdy => Outcome(Resched(WithSusp(Move(s, t, Susp, k.wake), t, 1)), Success)
      case Sleep => Outcome(Resched(WithSusp(Move(s, t, SleepSusp, k.wake), t, 1)), Success)
      case Pend => Outcome(Resched(WithSusp(Move(s, t, PendSusp, k.wake), t, 1)), Success)
      case Deleted => Outcome(s, InvState)
      case _ =>
        if k.susp == MAX_SUSPEND then Outcome(s, SuspendOvf)
        else Outcome(Resched(WithSusp(s, t, k.susp + 1)), Success)
  }

  function WithSusp(s: Kernel, t: Tid, n: nat): Kernel
    requires t < |s.tasks|
  {
    SetTask(s, t, s.tasks[t].(susp := n))
  }

  function TaskResume(s: Kernel, t: Tid): Outcome
    requires Wf(s) && t < |s.tasks|
  {
    var k := s.tasks[t];
    var n := if k.susp == 0 then MAX_SUSPEND else k.susp - 1;
    var s1 := WithSusp(s, t, n);
    WithSuspWf(s, t, n);
    match k.st
    case Rdy | Sleep | Pend => Outcome(s, NotSuspended)
    case Deleted => Outcome(s, InvState)
    case Susp => Outcome(Resched(if n == 0 then Move(s1, t, Rdy, k.wake) else s1), Success)
    case SleepSusp => Outcome(Resched(if n == 0 then Move(s1, t, Sleep, k.wake) else s1), Success)
    case PendSusp => Outcome(Resched(if n == 0 then Move(s1, t, Pend, k.wake) else s1), Success)
  }

  lemma WithSuspWf(s: Kernel, t: Tid, n: nat)
    requires Wf(s) && t < |s.tasks|
    ensures Wf(WithSusp(s, t, n))
  {
    var s1 := WithSusp(s, t, n);
    forall u | 0 <= u < |s1.tasks| ensures TaskWf(s1, s1.tasks[u]) {
      assert TaskWf(s, s.tasks[u]);
    }
    forall o | 0 <= o < |s1.objs| ensures ObjWf(s1, s1.objs[o]) {
      assert ObjWf(s, s.objs[o]);
    }
  }

  lemma WithSuspAgree(s: Kernel, t: Tid, n: nat)
    requires Agree(s) && t < |s.tasks|
    ensures Agree(WithSusp(s, t, n))
  {
    SameLinksAgree(s, WithSusp(s, t, n));
    SameListsAgree(s, WithSusp(s, t, n));
  }

  /** `krhino_task_pri_change`. */
  function TaskPriChange(s: Kernel, t: Tid, pri: nat): Outcome
    requires Wf(s) && t < |s.tasks|
  {
    var k := s.tasks[t];
    if k.prio >= IDLE_PRI || pri >= IDLE_PRI then Outcome(s, NotAllowed)
    else if k.st == Deleted then Outcome(s, InvState)
    else
      WithBaseWf(s, t, pri);
      Outcome(Resched(PriChange(WithBase(s, t, pri), t, PriLimit(s, k.held, pri))), Success)
  }

  function WithBase(s: Kernel, t: Tid, pri: nat): Kernel
    requires t < |s.tasks|
  {
    SetTask(s, t, s.tasks[t].(bprio := pri))
  }

  lemma WithBaseWf(s: Kernel, t: Tid, pri: nat)
    requires Wf(s) && t < |s.tasks| && pri < PRI_MAX
    ensures Wf(WithBase(s, t, pri))
  {
    var s1 := WithBase(s, t, pri);
    forall u | 0 <= u < |s1.tasks| ensures TaskWf(s1, s1.tasks[u]) {
      assert TaskWf(s, s.tasks[u]);
    }
    forall o | 0 <= o < |s1.objs| ensures ObjWf(s1, s1.objs[o]) {
      assert ObjWf(s, s.objs[o]);
    }
  }

  /** `krhino_task_wait_abort`. */
  function WaitAbort(s: Kernel, t: Tid): Outcome
    requires Wf(s) && t < |s.tasks|
  {
    var k := s.tasks[t];
    match k.st
    case Rdy => Outcome(Resched(s), Success)
    case Susp => Outcome(Resched(Move(s, t, Rdy, k.wake)), Success)
    case Deleted => Outcome(s, InvState)
    case _ => Outcome(Resched(Leave(s, t, Rdy, Abort)), Success)
  }

  /** `task_mutex_free`: every mutex of the dying task goes to its first waiter. */
  function FreeMutexes(s: Kernel, t: Tid): (r: Kernel)
    requires Agree(s) && t < |s.tasks| && s.tasks[t].Live()
    ensures Agree(r) && |r.tasks| == |s.tasks| && |r.objs| == |s.objs|
    ensures r.tasks[t] == s.tasks[t].(held := [])
    decreases |s.tasks[t].held|
  {
    var held := s.tasks[t].held;
    if held == [] then s
    else
      var m := held[0];
      assert m in held && TaskWf(s, s.tasks[t]) && Owns(s, t, m);
      PassOnAgree(s, t, m, s.objs[m].nested);
      FreeMutexes(PassOn(s, t, m, s.objs[m].nested), t)
  }

  /** `t` hands the mutex `m` to its first waiter, or frees it. */
  function PassOn(s: Kernel, t: Tid, m: Oid, nested: nat): (r: Kernel)
    requires Wf(s) && WaitOk(s) && t < |s.tasks| && m < |s.objs|
    ensures |r.tasks| == |s.tasks| && |r.objs| == |s.objs|
  {
    DropHeldWait(s, t, m);
    Give(DropHeld(s, t, m), m, nested)
  }

  lemma DropHeldLists(s: Kernel, t: Tid, o: Oid)
    requires Agree(s) && t < |s.tasks| && o < |s.objs|
    ensures var s0 := DropHeld(s, t, o); Wf(s0) && WaitOk(s0) && ReadyOk(s0) && TickOk(s0)
  {
    DropHeldWait(s, t, o);
    SameListsAgree(s, DropHeld(s, t, o));
  }

  /** The new owner is not the old one. */
  lemma GiveLists(s: Kernel, o: Oid, nested: nat)
    requires Wf(s) && WaitOk(s) && ReadyOk(s) && TickOk(s) && o < |s.objs|
    ensures Wf(Give(s, o, nested)) && WaitOk(Give(s, o, nested))
    ensures ReadyOk(Give(s, o, nested)) && TickOk(Give(s, o, nested))
  {
    var r := Give(s, o, nested);
    if s.objs[o].waiters == [] {
      forall u | 0 <= u < |r.tasks| ensures TaskWf(r, r.tasks[u]) {
        assert TaskWf(s, s.tasks[u]);
        assert u in s.objs[o].waiters <==> s.tasks[u].blk == Some(o);
      }
      forall m | 0 <= m < |r.objs| ensures ObjWf(r, r.objs[m]) {
        assert ObjWf(s, s.objs[m]);
      }
      SameListsAgree(s, r);
    } else {
      var f := First(s, o);
      var st := WakeState(s.tasks[f]);
      MoveWf(s, f, st, Finish);
      MoveWait(s, f, st, Finish);
      MoveReady(s, f, st, Finish);
      MoveTick(s, f, st, Finish);
      GiveWf(s, o, nested);
      SameListsAgree(Wake(s, f, Finish), r);
    }
  }

  lemma GiveWf(s: Kernel, o: Oid, nested: nat)
    requires Wf(s) && WaitOk(s) && o < |s.objs| && s.objs[o].waiters != []
    ensures Wf(Give(s, o, nested))
  {
    var r, f := Give(s, o, nested), First(s, o);
    forall u | 0 <= u < |r.tasks| ensures TaskWf(r, r.tasks[u]) {
      assert TaskWf(s, s.tasks[u]);
    }
    forall m | 0 <= m < |r.objs| ensures ObjWf(r, r.objs[m]) {
      assert ObjWf(s, s.objs[m]);
    }
  }

  /** What handing over `m` changes: its owner and wait list, and the two mutex lists. */
  lemma PassOnShape(s: Kernel, t: Tid, m: Oid, nested: nat)
    requires Agree(s) && t < |s.tasks| && s.tasks[t].Live() && Owns(s, t, m)
    ensures var r := PassOn(s, t, m, nested); |r.tasks| == |s.tasks| && |r.objs| == |s.objs|
    ensures forall o :: 0 <= o < |s.objs| && o != m ==> PassOn(s, t, m, nested).objs[o] == s.objs[o]
    ensures PassOn(s, t, m, nested).objs[m].kind == Mutex
    ensures PassOn(s, t, m, nested).tasks[t] == s.tasks[t].(held := Without(s.tasks[t].held, m))
    ensures s.objs[m].waiters == [] ==>
              && PassOn(s, t, m, nested).objs[m].owner == None
              && forall u :: 0 <= u < |s.tasks| && u != t ==> PassOn(s, t, m, nested).tasks[u] == s.tasks[u]
    ensures s.objs[m].waiters != [] ==>
              && First(s, m) != t
              && PassOn(s, t, m, nested).objs[m].owner == Some(First(s, m))
              && PassOn(s, t, m, nested).objs[m].waiters == s.objs[m].waiters[1..]
              && PassOn(s, t, m, nested).tasks[First(s, m)].held == [m] + s.tasks[First(s, m)].held
              && PassOn(s, t, m, nested).tasks[First(s, m)].Live()
              && PassOn(s, t, m, nested).tasks[First(s, m)].prio == s.tasks[First(s, m)].prio
              && PassOn(s, t, m, nested).tasks[First(s, m)].bprio == s.tasks[First(s, m)].bprio
              && forall u :: 0 <= u < |s.tasks| && u != t && u != First(s, m) ==> PassOn(s, t, m, nested).tasks[u] == s.tasks[u]
  {
    DropHeldWait(s, t, m);
    assert OwnerOk(s, s.objs[m]);
    if s.objs[m].waiters != [] {
      assert First(s, m) in s.objs[m].waiters;
      WithoutHead(s.objs[m].waiters);
    }
  }

  lemma PassOnOwn(s: Kernel, t: Tid, m: Oid, nested: nat)
    requires Agree(s) && t < |s.tasks| && s.tasks[t].Live() && Owns(s, t, m)
    ensures OwnOk(PassOn(s, t, m, nested))
  {
    hide Wf, ReadyOk, TickOk, PassOn;
    var r := PassOn(s, t, m, nested);
    PassOnShape(s, t, m, nested);
    assert ListOk(s, s.objs[m].waiters);
    WithoutNoDup(s.tasks[t].held, m);
    if s.objs[m].waiters != [] {
      assert m !in s.tasks[First(s, m)].held;
      NoDupCons(m, s.tasks[First(s, m)].held);
      assert First(s, m) !in s.objs[m].waiters[1..];
    }
    forall o | 0 <= o < |r.objs| ensures OwnerOk(r, r.objs[o]) {
      assert OwnerOk(s, s.objs[o]);
    }
    forall u, o | 0 <= u < |r.tasks| && r.tasks[u].Live() && 0 <= o < |r.objs|
      ensures o in r.tasks[u].held <==> Owns(r, u, o)
    {
      assert o in s.tasks[u].held <==> Owns(s, u, o);
    }
  }

  /** Handing a mutex over keeps the lists and the ownership lists in agreement. */
  lemma PassOnAgree(s: Kernel, t: Tid, m: Oid, nested: nat)
    requires Agree(s) && t < |s.tasks| && s.tasks[t].Live() && Owns(s, t, m)
    ensures Agree(PassOn(s, t, m, nested))
    ensures PassOn(s, t, m, nested).tasks[t] == s.tasks[t].(held := Without(s.tasks[t].held, m))
  {
    DropHeldLists(s, t, m);
    GiveLists(DropHeld(s, t, m), m, nested);
    PassOnOwn(s, t, m, nested);
    PassOnShape(s, t, m, nested);
  }

  /** `mutex_list` of a dying task goes on pointing at its first mutex. */
  function WithStale(s: Kernel, t: Tid): Kernel
    requires t < |s.tasks|
  {
    SetTask(s, t, s.tasks[t].(stale := Head(s.tasks[t].held)))
  }

  lemma WithStaleAgree(s: Kernel, t: Tid)
    requires Agree(s) && t < |s.tasks|
    ensures Agree(WithStale(s, t))
  {
    SameLinksAgree(s, WithStale(s, t));
    SameListsAgree(s, WithStale(s, t));
  }

  /** `krhino_task_del`. A task that is deleted already is refused only after `task_mutex_free` has
      walked the list that its `mutex_list` still points at. */
  function TaskDel(s: Kernel, t: Tid): Outcome
    requires Agree(s) && t < |s.tasks|
  {
    if s.tasks[t].prio == IDLE_PRI then Outcome(s, NotAllowed)
    else if t == s.active && s.lock > 0 then Outcome(s, SchedDisabled)
    else if s.tasks[t].Live() then
      WithStaleAgree(s, t);
      var s1 := FreeMutexes(WithStale(s, t), t);
      assert forall o :: 0 <= o < |s1.objs| ==> (o in s1.tasks[t].held <==> Owns(s1, t, o));
      Outcome(Resched(Leave(s1, t, Deleted, s.tasks[t].wake)), Success)
    else
      StaleListIn(s, s.tasks[t].stale, |s.objs|);
      Outcome(FreeStale(s, StaleList(s, s.tasks[t].stale, |s.objs|)), InvState)
  }

  // ------------------------------------------------- the mutex list of a dead task

  /** The lists that `Give` needs and keeps. */
  ghost predicate Listed(s: Kernel) {
    Wf(s) && WaitOk(s) && ReadyOk(s) && TickOk(s)
  }

  predicate Owned(s: Kernel, o: Oid) {
    o < |s.objs| && s.objs[o].kind == Mutex && s.objs[o].owner.Some? && s.objs[o].owner.value < |s.tasks|
  }

  /** The part of a mutex list from `o` on. */
  function From(held: seq<Oid>, o: Oid): (r: seq<Oid>)
    ensures forall x :: x in r ==> x in held
  {
    if held == [] then [] else if held[0] == o then held else From(held[1..], o)
  }

  /** The mutexes that are reached from `head`, at most `n` of them by stale links: a mutex that has an
      owner again is part of the owner's list. */
  function StaleList(s: Kernel, head: Option<Oid>, n: nat): seq<Oid>
    decreases n
  {
    if head.None? || head.value >= |s.objs| || n == 0 then []
    else if Owned(s, head.value) then From(s.tasks[s.objs[head.value].owner.value].held, head.value)
    else [head.value] + StaleList(s, s.objs[head.value].link, n - 1)
  }

  lemma {:induction false} StaleListIn(s: Kernel, head: Option<Oid>, n: nat)
    requires Wf(s)
    ensures forall x :: x in StaleList(s, head, n) ==> x < |s.objs|
    decreases n
  {
    if head.Some? && head.value < |s.objs| && n > 0 {
      if Owned(s, head.value) {
        assert TaskWf(s, s.tasks[s.objs[head.value].owner.value]);
      } else {
        StaleListIn(s, s.objs[head.value].link, n - 1);
      }
    }
  }

  /** A mutex list in which the link of `x` has come to point at `tail`. */
  function Relinked(held: seq<Oid>, x: Oid, tail: seq<Oid>): (r: seq<Oid>)
    ensures forall y :: y in r ==> y in held || y in tail
  {
    if held == [] then [] else if held[0] == x then [x] + tail else [held[0]] + Relinked(held[1..], x, tail)
  }

  function RelinkedAll(ts: seq<Task>, x: Oid, tail: seq<Oid>, f: Tid): (r: seq<Task>)
    ensures |r| == |ts|
    ensures forall t :: 0 <= t < |ts| ==> r[t] == if t == f then ts[t] else ts[t].(held := Relinked(ts[t].held, x, tail))
  {
    seq(|ts|, t requires 0 <= t < |ts| => if t == f then ts[t] else ts[t].(held := Relinked(ts[t].held, x, tail)))
  }

  /** One turn of `task_mutex_free` for a mutex that need not be the task's: the first waiter gets it, on
      its own list; a list that still contains it goes on with that one. Its owner is not asked. */
  function StaleGive(s: Kernel, m: Oid): (r: Kernel)
    requires Listed(s) && m < |s.objs|
    ensures |r.tasks| == |s.tasks| && |r.objs| == |s.objs|
  {
    var r := Give(s, m, s.objs[m].nested);
    if s.objs[m].waiters == [] then r
    else r.(tasks := RelinkedAll(r.tasks, m, s.tasks[First(s, m)].held, First(s, m)))
  }

  lemma StaleGiveListed(s: Kernel, m: Oid)
    requires Listed(s) && m < |s.objs|
    ensures Listed(StaleGive(s, m))
  {
    var g, r := Give(s, m, s.objs[m].nested), StaleGive(s, m);
    GiveLists(s, m, s.objs[m].nested);
    if s.objs[m].waiters != [] {
      assert TaskWf(s, s.tasks[First(s, m)]);
      forall u | 0 <= u < |r.tasks| ensures TaskWf(r, r.tasks[u]) {
        assert TaskWf(g, g.tasks[u]);
      }
      forall o | 0 <= o < |r.objs| ensures ObjWf(r, r.objs[o]) {
        assert ObjWf(g, g.objs[o]);
      }
      hide Give;
      SameListsAgree(g, r);
    }
  }

  /** `task_mutex_free` of a dead task. */
  function FreeStale(s: Kernel, path: seq<Oid>): (r: Kernel)
    requires Listed(s) && forall x :: x in path ==> x < |s.objs|
    ensures |r.tasks| == |s.tasks| && |r.objs| == |s.objs|
    decreases |path|
  {
    if path == [] then s
    else
      assert path[0] in path && forall x :: x in path[1..] ==> x in path;
      StaleGiveListed(s, path[0]);
      FreeStale(StaleGive(s, path[0]), path[1..])
  }

  function TaskCreate(s: Kernel, prio: nat, autorun: bool): Outcome
    requires Wf(s)
  {
    if prio >= PRI_MAX then Outcome(s, BeyondMaxPri)
    else if prio == IDLE_PRI then Outcome(s, IdleExists)
    else
      var k := Task(if autorun then Rdy else Susp, prio, prio, None, [], None, if autorun then 0 else 1,
                    Finish, 0, false, false, 0, 0);
      var s1 := s.(tasks := s.tasks + [k]);
      Outcome(if autorun then Resched(s1.(ready := AddTail(s.ready, prio, |s.tasks|))) else s1, Success)
  }

  function ObjCreate(s: Kernel, kind: Kind, count: nat, flags: bv32): Outcome {
    Outcome(s.(objs := s.objs + [Obj(kind, [], None, 0, count, flags, None)]), Success)
  }

  // ----------------------------------------------------------------- tick list

  /** The wait of a sleeping or pending task is over (one case of `tick_list_update`). */
  function Expire(s: Kernel, t: Tid): Kernel
    requires Agree(s) && t in s.ticks
  {
    var k := s.tasks[t];
    assert TaskWf(s, k);
    match k.st
    case Sleep => Leave(s, t, Rdy, Finish)
    case SleepSusp => Leave(s, t, Susp, Finish)
    case Pend => Leave(s, t, Rdy, Timeout)
    case PendSusp => Leave(s, t, Susp, Timeout)
  }

  /** `tick_match - g_tick_count` is not positive as a signed 64-bit number. */
  predicate Due(k: Task, now: nat) {
    !(0 < Remaining(k.expires, now) <= MAX_TICKS)
  }
}
