/** While the scheduler is locked, the running task goes on running. */
module KernelLocked {
  import opened Flags
  import opened Lists
  import opened KernelState
  import opened PriorityChain
  import opened KernelLists
  import opened KernelInv
  import opened KernelSteps
  import opened KernelProofs
  import opened MutexProofs
  import opened CallProofs
  import opened TaskProofs
  import opened KernelStale
  import opened KernelRun
  import opened KernelEffects

  /** The same task runs. */
  predicate SameRuns(s: Kernel, r: Kernel) {
    r.active == s.active && r.lock == s.lock
  }

  lemma ReschedRuns(s: Kernel, r: Kernel)
    requires SameRuns(s, r) && s.lock > 0
    ensures SameRuns(s, Resched(r))
  {}

  lemma UnlockRuns(s: Kernel, o: Oid)
    requires Inv(s) && o < |s.objs| && s.lock > 0
    ensures SameRuns(s, MutexUnlock(s, o).k)
  {
    hide Wf, WaitOk, ReadyOk, TickOk, OwnOk, Signals, Inherits, IdleOk, Resched, Release, DropHeld, KernelSteps.Give, PassOn;
    var a, b := s.active, s.objs[o];
    if b.kind == Mutex && b.owner == Some(a) && b.nested == 1 {
      var n := if b.waiters == [] then 0 else 1;
      UnlockOrder(s, a, o, n);
      PassOnAgree(s, a, o, n);
      AlsoIdle(s);
      PassOnIdle(s, a, o, n);
      var p := PassOn(s, a, o, n);
      ReleaseAgree(p, a);
      ReschedRuns(s, Release(p, a));
    }
  }

  lemma AlsoIdle(s: Kernel)
    requires Inv(s)
    ensures IdleOk(s)
  {}

  lemma {:induction false} WakeAllRuns(s: Kernel, o: Oid, why: WakeReason)
    requires Agree(s) && o < |s.objs|
    ensures SameRuns(s, WakeAll(s, o, why))
    decreases |s.objs[o].waiters|
  {
    hide Wf, WaitOk, ReadyOk, TickOk, OwnOk, Wake;
    if s.objs[o].waiters != [] {
      var t := First(s, o);
      WakeAgree(s, t, why);
      WakeOneFrame(s, o, t, why);
      WakeAllRuns(Wake(s, t, why), o, why);
    }
  }

  lemma GiveRuns(s: Kernel, o: Oid, all: bool)
    requires Inv(s) && o < |s.objs| && s.lock > 0
    ensures SameRuns(s, SemGive(s, o, all).k)
  {
    hide Wf, WaitOk, ReadyOk, TickOk, OwnOk, Signals, Inherits, IdleOk, Resched, WakeAll, Wake;
    if s.objs[o].kind == Sem && s.objs[o].waiters != [] {
      if all {
        WakeAllRuns(s, o, Finish);
        ReschedRuns(s, WakeAll(s, o, Finish));
      } else {
        WakeOneFrame(s, o, First(s, o), Finish);
        ReschedRuns(s, Wake(s, First(s, o), Finish));
      }
    }
  }

  lemma {:induction false} EventRuns(s: Kernel, o: Oid, ws: seq<Tid>, cur: bv32)
    requires Agree(s) && o < |s.objs| && NoDup(ws) && forall t :: t in ws ==> t in s.objs[o].waiters
    ensures SameRuns(s, EventWake(s, o, ws, cur))
    decreases |ws|
  {
    hide Wf, WaitOk, ReadyOk, TickOk, OwnOk, Matches, EventWakeOne;
    if ws != [] {
      WaiterOf(s, o, ws[0]);
      assert ws[0] !in ws[1..] && forall t :: t in ws[1..] ==> t in ws;
      if Matches(cur, s.tasks[ws[0]].pendFlags, s.tasks[ws[0]].pendAnd) {
        EventWakeOneAgree(s, o, ws[0], cur);
        EventOneFrame(s, o, ws[0], cur);
        EventRuns(EventWakeOne(s, o, ws[0], cur), o, ws[1..], cur);
      } else {
        EventRuns(s, o, ws[1..], cur);
      }
    }
  }

  lemma SetRuns(s: Kernel, o: Oid, flags: bv32, keep: bool)
    requires Inv(s) && o < |s.objs| && s.lock > 0
    ensures SameRuns(s, EventSet(s, o, flags, keep).k)
  {
    hide Wf, WaitOk, ReadyOk, TickOk, OwnOk, Signals, Inherits, IdleOk, Resched, EventWake, AddFlags, KeepFlags;
    if s.objs[o].kind == Event && !keep {
      var cur := AddFlags(s.objs[o].flags, flags);
      FlagsAgree(s, o, cur);
      WaitersDistinct(s, o);
      var s1 := SetObj(s, o, s.objs[o].(flags := cur));
      EventRuns(s1, o, s.objs[o].waiters, cur);
      ReschedRuns(s, EventWake(s1, o, s.objs[o].waiters, cur));
    }
  }

  lemma ObjDelRuns(s: Kernel, o: Oid, kind: Kind)
    requires Inv(s) && o < |s.objs| && s.lock > 0
    ensures SameRuns(s, ObjDel(s, o, kind).k)
  {
    hide Wf, WaitOk, ReadyOk, TickOk, OwnOk, Signals, Inherits, IdleOk, Resched, Release, WakeAll, Retire;
    var b := s.objs[o];
    if b.kind == kind && kind != NoObj {
      RetireAgree(s, o);
      RetireRuns(s, o);
      var s1 := Retire(s, o);
      if b.kind == Mutex && b.owner.Some? {
        OwnerLive(s, o);
        ReleaseAgree(s1, b.owner.value);
        s1 := Release(s1, b.owner.value);
      }
      WakeAllRuns(s1, o, Del);
      ReschedRuns(s, WakeAll(s1, o, Del));
    }
  }

  lemma RetireRuns(s: Kernel, o: Oid)
    requires Agree(s) && o < |s.objs|
    ensures SameRuns(s, Retire(s, o))
  {
    assert ObjWf(s, s.objs[o]);
  }

  lemma LeaveRuns(s: Kernel, t: Tid, st: TaskState, why: WakeReason)
    requires Agree(s) && CanMove(s, t, st)
    ensures SameRuns(s, Leave(s, t, st, why))
  {
    hide WaitOk, ReadyOk, TickOk, OwnOk, Leave;
    LeaveAgree(s, t, st, why);
    MoveRest(s, t, st, why);
  }

  lemma {:induction false} FreeStaleRuns(s: Kernel, path: seq<Oid>)
    requires Listed(s) && forall x :: x in path ==> x < |s.objs|
    ensures SameRuns(s, FreeStale(s, path))
    decreases |path|
  {
    hide Wf, WaitOk, ReadyOk, TickOk, StaleGive;
    if path != [] {
      assert path[0] in path && forall x :: x in path[1..] ==> x in path;
      StaleGiveListed(s, path[0]);
      StaleGiveRuns(s, path[0]);
      FreeStaleRuns(StaleGive(s, path[0]), path[1..]);
    }
  }

  lemma StaleGiveRuns(s: Kernel, m: Oid)
    requires Listed(s) && m < |s.objs|
    ensures SameRuns(s, StaleGive(s, m))
  {
    hide WaitOk, ReadyOk, TickOk, Relinked;
  }

  lemma DeleteRuns(s: Kernel, t: Tid)
    requires Inv(s) && t < |s.tasks| && s.lock > 0
    ensures SameRuns(s, TaskDel(s, t).k)
  {
    hide Wf, WaitOk, ReadyOk, TickOk, OwnOk, Signals, Inherits, IdleOk, Resched, Leave, FreeMutexes, FreeStale, StaleList, InheritsBut;
    if s.tasks[t].prio != IDLE_PRI && t != s.active {
      if s.tasks[t].Live() {
        var s0 := WithStale(s, t);
        WithStaleCore(s, t);
        CoreBut(s0, t);
        WithStaleAgree(s, t);
        var s1 := FreeMutexes(s0, t);
        FreeMutexesKeeps(s0, t);
        OwnsNothing(s1, t);
        LeaveRuns(s1, t, Deleted, s.tasks[t].wake);
        ReschedRuns(s, Leave(s1, t, Deleted, s.tasks[t].wake));
      } else {
        StaleListIn(s, s.tasks[t].stale, |s.objs|);
        FreeStaleRuns(s, StaleList(s, s.tasks[t].stale, |s.objs|));
      }
    }
  }

  lemma CoreBut(s: Kernel, t: Tid)
    requires Core(s)
    ensures Signals(s) && IdleOk(s) && InheritsBut(s, t)
  {
    InheritsAll(s, t);
  }

  lemma PriRuns(s: Kernel, t: Tid, pri: nat)
    requires Inv(s) && t < |s.tasks| && s.lock > 0
    ensures SameRuns(s, TaskPriChange(s, t, pri).k)
  {
    hide Wf, WaitOk, ReadyOk, TickOk, OwnOk, Signals, Inherits, IdleOk, Resched, PriChange, PriLimit;
    if s.tasks[t].prio < IDLE_PRI && pri < IDLE_PRI && s.tasks[t].Live() {
      var s1, p := WithBase(s, t, pri), PriLimit(s, s.tasks[t].held, pri);
      WithBaseAgree(s, t, pri);
      PriChangeAgree(s1, t, p);
      ReschedRuns(s, PriChange(s1, t, p));
    }
  }

  lemma AbortRuns(s: Kernel, t: Tid)
    requires Inv(s) && t < |s.tasks| && s.lock > 0
    ensures SameRuns(s, WaitAbort(s, t).k)
  {
    hide WaitOk, ReadyOk, TickOk, OwnOk, Signals, Inherits, IdleOk, Resched, Move, Leave;
    var k := s.tasks[t];
    assert TaskWf(s, k);
    ReschedRuns(s, s);
    if k.st == Susp {
      MoveRest(s, t, Rdy, k.wake);
      ReschedRuns(s, Move(s, t, Rdy, k.wake));
    } else if k.st != Rdy && k.st != Deleted {
      LeaveRuns(s, t, Rdy, WakeReason.Abort);
      ReschedRuns(s, Leave(s, t, Rdy, WakeReason.Abort));
    }
  }

  lemma SuspendRuns(s: Kernel, t: Tid)
    requires Inv(s) && t < |s.tasks| && s.lock > 0
    ensures SameRuns(s, TaskSuspend(s, t).k) && SameRuns(s, TaskResume(s, t).k)
  {
    hide Wf, WaitOk, ReadyOk, TickOk, OwnOk, Signals, Inherits, IdleOk;
    WithSuspWf(s, t, if s.tasks[t].susp == 0 then MAX_SUSPEND else s.tasks[t].susp - 1);
  }

  lemma TickRuns(s: Kernel, n: nat)
    requires Inv(s) && s.lock > 0
    ensures SameRuns(s, TickUpdate(s, n).k)
  {
    hide Wf, WaitOk, ReadyOk, TickOk, OwnOk, Signals, Inherits, IdleOk, Resched, ExpireDue;
    var s1 := s.(now := (s.now + n) % TICK_RANGE);
    CoreFrame(s, s1);
    ReschedRuns(s, ExpireDue(s1));
  }

  /** While the scheduler is locked, no kernel call but the one that unlocks it makes another task run. */
  lemma LockedRuns(s: Kernel, c: Call)
    requires Good(s) && Legal(s, c) && s.lock > 0 && !c.SchedDisable? && !c.SchedEnable?
    ensures SameRuns(s, Step(s, c).k)
  {
    hide Inv, Linked, SameRuns, Step, Legal;
    if OnObject(c) { ObjectRuns(s, c); } else { TaskRuns(s, c); }
  }

  lemma ObjectRuns(s: Kernel, c: Call)
    requires Inv(s) && Legal(s, c) && s.lock > 0 && OnObject(c)
    ensures SameRuns(s, Step(s, c).k)
  {
    hide Inv, SameRuns;
    match c
    case Lock(o, ticks) => TablesRun(s, o, ticks, 0, false, false);
    case Unlock(o) => UnlockRuns(s, o);
    case Take(o, ticks) => TablesRun(s, o, ticks, 0, false, false);
    case Give(o, all) => GiveRuns(s, o, all);
    case CountSet(o, n) => TablesRun(s, o, n, 0, false, false);
    case GetEvent(o, flags, all, clear, ticks) => TablesRun(s, o, ticks, flags, all, clear);
    case SetEvent(o, flags, keep) => SetRuns(s, o, flags, keep);
    case NewObj(kind, count, flags) => CreateRuns(s, kind, count, flags, 0, false);
    case DelObj(o, kind) => ObjDelRuns(s, o, kind);
  }

  lemma TaskRuns(s: Kernel, c: Call)
    requires Inv(s) && Legal(s, c) && s.lock > 0 && !OnObject(c) && !c.SchedDisable? && !c.SchedEnable?
    ensures SameRuns(s, Step(s, c).k)
  {
    hide Inv, SameRuns;
    match c
    case SleepFor(ticks) => YieldRuns(s, ticks);
    case Yield => YieldRuns(s, 0);
    case Suspend(t) => SuspendRuns(s, t);
    case Resume(t) => SuspendRuns(s, t);
    case SetPri(t, pri) => PriRuns(s, t, pri);
    case Abort(t) => AbortRuns(s, t);
    case NewTask(prio, autorun) => CreateRuns(s, NoObj, 0, 0, prio, autorun);
    case DelTask(t) => DeleteRuns(s, t);
    case Tick(n) => TickRuns(s, n);
  }

  lemma TablesRun(s: Kernel, o: Oid, n: nat, flags: bv32, all: bool, clear: bool)
    requires Inv(s) && o < |s.objs| && s.lock > 0
    ensures SameRuns(s, MutexLock(s, o, n).k) && SameRuns(s, SemTake(s, o, n).k) && SameRuns(s, SemCountSet(s, o, n).k)
    ensures SameRuns(s, EventGet(s, o, flags, all, clear, n).k)
  {
    hide Wf, WaitOk, ReadyOk, TickOk, OwnOk, Signals, Inherits, IdleOk, Resched, Block, Boost, Matches, ClearFlags;
  }

  lemma CreateRuns(s: Kernel, kind: Kind, count: nat, flags: bv32, prio: nat, autorun: bool)
    requires Inv(s) && s.lock > 0
    ensures SameRuns(s, ObjCreate(s, kind, count, flags).k) && SameRuns(s, TaskCreate(s, prio, autorun).k)
  {
    hide WaitOk, ReadyOk, TickOk, OwnOk, Signals, Inherits, IdleOk;
  }

  lemma YieldRuns(s: Kernel, ticks: nat)
    requires Inv(s) && s.lock > 0
    ensures SameRuns(s, TaskYield(s).k) && SameRuns(s, TaskSleep(s, ticks).k)
  {
    hide WaitOk, TickOk, OwnOk, Signals, Inherits, IdleOk;
  }
}
