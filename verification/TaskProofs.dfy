/** Task calls and the clock interrupt keep the kernel invariant. */
module TaskProofs {
  import opened Lists
  import opened ReadyQueue
  import opened KernelState
  import opened PriorityChain
  import opened KernelLists
  import opened KernelInv
  import opened KernelSteps
  import opened KernelProofs
  import opened MutexProofs
  import opened CallProofs

  /** Only the idle task runs at the idle priority. */
  lemma IdlePrio(s: Kernel, t: Tid)
    requires Core(s) && t < |s.tasks| && s.tasks[t].Live()
    ensures s.tasks[t].prio == IDLE_PRI <==> t == IDLE
    ensures s.tasks[t].prio <= IDLE_PRI
  {
    assert IsLeast(s, Bases(s.tasks), t, s.tasks[t].prio);
    assert forall o :: 0 <= o < |s.objs| ==> (o in s.tasks[IDLE].held <==> Owns(s, IDLE, o));
  }

  /** Only the choice of the running task may be open after a change. */
  ghost predicate Settled(s: Kernel, r: Kernel) {
    && Core(r) && r.lock == s.lock && r.active == s.active && s.active < |r.tasks|
    && (s.lock > 0 ==> r.tasks[s.active].st == Rdy)
  }

  lemma SettledInv(s: Kernel, r: Kernel)
    requires Settled(s, r)
    ensures Inv(Resched(r))
  {
    hide Wf, WaitOk, ReadyOk, TickOk, OwnOk, Inherits, Signals, Resched;
    ReschedInv(r);
  }

  lemma TaskSleepInv(s: Kernel, ticks: nat)
    requires Inv(s) && s.active != IDLE
    ensures Inv(TaskSleep(s, ticks).k)
  {
    hide Wf, WaitOk, ReadyOk, OwnOk, Inherits, Signals, Resched;
    if ticks != 0 && s.lock == 0 {
      var r := FallAsleep(s, s.active, ticks);
      FallAsleepAgree(s, s.active, ticks);
      SignalsFrame(s, r);
      assert forall u: Tid :: SameTops(s, r, u);
      InheritsFrame(s, r);
      ReschedInv(r);
    }
  }

  lemma TaskYieldInv(s: Kernel)
    requires Inv(s)
    ensures Inv(TaskYield(s).k)
  {
    hide WaitOk, TickOk, OwnOk, Inherits, Signals, Resched;
    assert TaskWf(s, s.tasks[s.active]);
    var p := s.tasks[s.active].prio;
    assert s.active in s.ready[p];
    var r := s.(ready := Rotate(s.ready, p));
    assert r.ready[p] == s.ready[p][1..] + [s.ready[p][0]];
    SameLinksAgree(s, r);
    SameTicks(s, r);
    RotateReady(s, p);
    SignalsFrame(s, r);
    assert forall u: Tid :: SameTops(s, r, u);
    InheritsFrame(s, r);
    ReschedInv(r);
  }

  lemma SameTicks(s: Kernel, r: Kernel)
    requires TickOk(s) && r.tasks == s.tasks && r.ticks == s.ticks
    ensures TickOk(r)
  {}

  lemma RotateReady(s: Kernel, p: nat)
    requires ReadyOk(s) && p < PRI_MAX && s.ready[p] != []
    ensures ReadyOk(s.(ready := Rotate(s.ready, p)))
  {
    var xs := s.ready[p];
    assert forall t :: t in xs <==> t in xs[1..] + [xs[0]];
  }

  // --------------------------------------------------------- suspend and resume

  lemma WithSuspCore(s: Kernel, t: Tid, n: nat)
    requires Core(s) && t < |s.tasks|
    ensures Core(WithSusp(s, t, n))
  {
    hide Wf, WaitOk, ReadyOk, TickOk, OwnOk, Inherits, Signals;
    var r := WithSusp(s, t, n);
    WithSuspAgree(s, t, n);
    SignalsFrame(s, r);
    assert forall u: Tid :: SameTops(s, r, u);
    InheritsFrame(s, r);
  }

  lemma MoveRest(s: Kernel, t: Tid, st: TaskState, why: WakeReason)
    requires Wf(s) && t < |s.tasks|
    ensures var r := Move(s, t, st, why);
            r.active == s.active && r.lock == s.lock && r.tasks[t].st == st &&
            forall u :: 0 <= u < |s.tasks| && u != t ==> r.tasks[u] == s.tasks[u]
  {}

  lemma TaskSuspendInv(s: Kernel, t: Tid)
    requires Inv(s) && t < |s.tasks|
    ensures Inv(TaskSuspend(s, t).k)
  {
    hide WaitOk, ReadyOk, TickOk, OwnOk, Inherits, Signals, Resched, Move;
    var k := s.tasks[t];
    assert TaskWf(s, k);
    if k.Live() && k.prio != IDLE_PRI && !(t == s.active && s.lock > 0) {
      IdlePrio(s, t);
      if k.st == Rdy || k.st == Sleep || k.st == Pend {
        var st := if k.st == Rdy then Susp else if k.st == Sleep then SleepSusp else PendSusp;
        if k.st == Sleep { SleeperTimed(s, t); }
        MoveCore(s, t, st, k.wake);
        MoveRest(s, t, st, k.wake);
        WithSuspCore(Move(s, t, st, k.wake), t, 1);
        SettledInv(s, WithSusp(Move(s, t, st, k.wake), t, 1));
      } else if k.susp != MAX_SUSPEND {
        WithSuspCore(s, t, k.susp + 1);
        SettledInv(s, WithSusp(s, t, k.susp + 1));
      }
    }
  }

  lemma SleeperTimed(s: Kernel, t: Tid)
    requires TickOk(s) && t < |s.tasks| && s.tasks[t].Sleeping()
    ensures t in s.ticks
  {}

  lemma TaskResumeInv(s: Kernel, t: Tid)
    requires Inv(s) && t < |s.tasks|
    ensures Inv(TaskResume(s, t).k)
  {
    hide WaitOk, ReadyOk, TickOk, OwnOk, Inherits, Signals, Resched, Move;
    var k := s.tasks[t];
    if k.st == Susp || k.st == SleepSusp || k.st == PendSusp {
      var n := if k.susp == 0 then MAX_SUSPEND else k.susp - 1;
      var s1 := WithSusp(s, t, n);
      WithSuspCore(s, t, n);
      assert TaskWf(s, k);
      if n == 0 {
        var st := if k.st == Susp then Rdy else if k.st == SleepSusp then Sleep else Pend;
        if k.st == SleepSusp { SleeperTimed(s, t); }
        MoveCore(s1, t, st, k.wake);
        MoveRest(s1, t, st, k.wake);
        SettledInv(s, Move(s1, t, st, k.wake));
      } else {
        SettledInv(s, s1);
      }
    }
  }

  // ------------------------------------------------------------ priority change

  lemma WithBaseAgree(s: Kernel, t: Tid, pri: nat)
    requires Agree(s) && t < |s.tasks| && pri < PRI_MAX
    ensures Agree(WithBase(s, t, pri))
  {
    hide WaitOk, ReadyOk, TickOk;
    var r := WithBase(s, t, pri);
    WithBaseWf(s, t, pri);
    SameListsAgree(s, r);
    forall m | 0 <= m < |r.objs| ensures OwnerOk(r, r.objs[m]) {
      assert OwnerOk(s, s.objs[m]);
    }
    forall u, m | 0 <= u < |r.tasks| && r.tasks[u].Live() && 0 <= m < |r.objs|
      ensures m in r.tasks[u].held <==> Owns(r, u, m)
    {
      assert m in s.tasks[u].held <==> Owns(s, u, m);
    }
  }

  lemma WithBaseTops(s: Kernel, t: Tid, pri: nat, u: Tid)
    requires t < |s.tasks|
    ensures SameTops(s, WithBase(s, t, pri), u)
  {}

  lemma WithBaseLook(s: Kernel, t: Tid, pri: nat)
    requires t < |s.tasks|
    ensures PriLook(WithBase(s, t, pri), t) == PriLimit(s, s.tasks[t].held, pri)
  {
    PriLimitFrame(s, WithBase(s, t, pri), s.tasks[t].held, pri);
  }

  /** A new base priority: every other task keeps its equation. */
  lemma WithBaseInherits(s: Kernel, t: Tid, pri: nat)
    requires t < |s.tasks| && Inherits(s, Bases(s.tasks))
    ensures InheritsBut(WithBase(s, t, pri), t)
  {
    var r := WithBase(s, t, pri);
    forall u | 0 <= u < |r.tasks| && r.tasks[u].Live() && u != t
      ensures IsLeast(r, Bases(r.tasks), u, r.tasks[u].prio)
    {
      WithBaseTops(s, t, pri, u);
      IsLeastFrame(s, r, Bases(s.tasks), u, s.tasks[u].prio);
    }
  }

  lemma TaskPriChangeInv(s: Kernel, t: Tid, pri: nat)
    requires Inv(s) && t < |s.tasks|
    ensures Inv(TaskPriChange(s, t, pri).k)
  {
    hide Wf, WaitOk, ReadyOk, TickOk, OwnOk, Inherits, Signals, Resched, PriChange, PriLimit;
    var k := s.tasks[t];
    if k.Live() && k.prio < IDLE_PRI && pri < IDLE_PRI {
      IdlePrio(s, t);
      var s1 := WithBase(s, t, pri);
      WithBaseAgree(s, t, pri);
      WithBaseInherits(s, t, pri);
      WithBaseLook(s, t, pri);
      SignalsFrame(s, s1);
      ReleaseInherits(s1, t);
      ReleaseSettled(s, s1, t);
      SettledInv(s, Release(s1, t));
    }
  }

  /** Releasing finds the kernel as it left it, priorities aside. */
  lemma ReleaseSettled(s: Kernel, s1: Kernel, t: Tid)
    requires Inv(s) && t < |s.tasks| && s.tasks[t].Live() && Wf(s1) && s1.lock == s.lock && s1.active == s.active
    requires |s1.tasks| == |s.tasks| && forall u :: 0 <= u < |s.tasks| ==> s1.tasks[u].st == s.tasks[u].st
    requires Signals(s1) && IdleOk(s1) && OnlyPrio(s1, Release(s1, t)) && Agree(Release(s1, t))
    requires Inherits(Release(s1, t), Bases(s1.tasks)) && Bases(Release(s1, t).tasks) == Bases(s1.tasks)
    ensures Settled(s, Release(s1, t))
  {
    hide Agree, Wf, Inherits, Signals, Release;
    OnlyPrioSignals(s1, Release(s1, t));
  }

  // ----------------------------------------------------------- abort and expiry

  lemma LeaveSettled(s: Kernel, t: Tid, st: TaskState, why: WakeReason)
    requires Core(s) && CanMove(s, t, st) && t != IDLE && s.active < |s.tasks|
    requires s.lock > 0 ==> s.tasks[s.active].st == Rdy && (t == s.active ==> st == Rdy)
    ensures Settled(s, Leave(s, t, st, why))
    ensures Leave(s, t, st, why).now == s.now
    ensures Leave(s, t, st, why).ticks == if Timed(st) then s.ticks else Without(s.ticks, t)
  {
    hide Wf, WaitOk, ReadyOk, TickOk, OwnOk, Inherits, Signals, Leave;
    LeaveCore(s, t, st, why);
    LeaveAgree(s, t, st, why);
    MoveRest(s, t, st, why);
  }

  lemma WaitAbortInv(s: Kernel, t: Tid)
    requires Inv(s) && t < |s.tasks|
    ensures Inv(WaitAbort(s, t).k)
  {
    hide WaitOk, ReadyOk, TickOk, OwnOk, Inherits, Signals, Resched, Leave, Move;
    var k := s.tasks[t];
    assert TaskWf(s, k);
    if k.st == Rdy {
      SettledInv(s, s);
    } else if k.Live() {
      IdlePrio(s, t);
      if k.st == Susp {
        MoveCore(s, t, Rdy, k.wake);
        MoveRest(s, t, Rdy, k.wake);
        SettledInv(s, Move(s, t, Rdy, k.wake));
      } else {
        LeaveSettled(s, t, Rdy, Abort);
        SettledInv(s, Leave(s, t, Rdy, Abort));
      }
    }
  }

  /** The loop of `tick_list_update`: expire the head of the list while it is due. The default
      case of its switch cannot arise, since every listed task sleeps or pends. */
  function ExpireDue(s: Kernel): (r: Kernel)
    requires Core(s) && s.active < |s.tasks| && (s.lock > 0 ==> s.tasks[s.active].st == Rdy)
    ensures Settled(s, r)
    decreases |s.ticks|
  {
    if s.ticks == [] then s
    else
      var t := s.ticks[0];
      assert t in s.ticks && t < |s.tasks|;
      if Due(s.tasks[t], s.now) then
        ExpireSettled(s, t);
        ExpireDue(Expire(s, t))
      else s
  }

  lemma ExpireSettled(s: Kernel, t: Tid)
    requires Core(s) && t in s.ticks && s.active < |s.tasks| && (s.lock > 0 ==> s.tasks[s.active].st == Rdy)
    ensures Settled(s, Expire(s, t)) && |Expire(s, t).ticks| < |s.ticks|
    ensures Expire(s, t).ticks == Without(s.ticks, t) && Expire(s, t).now == s.now
  {
    hide WaitOk, ReadyOk, OwnOk, Inherits, Signals, Leave;
    assert TaskWf(s, s.tasks[t]);
    var k := s.tasks[t];
    LeaveSettled(s, t, if k.st == Sleep || k.st == Pend then Rdy else Susp, if k.Sleeping() then Finish else Timeout);
  }

  /** `tick_list_update` in the clock interrupt, and the rescheduling when the interrupt ends. */
  function TickUpdate(s: Kernel, n: nat): Outcome
    requires Inv(s)
  {
    CoreFrame(s, s.(now := (s.now + n) % TICK_RANGE));
    Outcome(Resched(ExpireDue(s.(now := (s.now + n) % TICK_RANGE))), Success)
  }

  lemma TickUpdateInv(s: Kernel, n: nat)
    requires Inv(s)
    ensures Inv(TickUpdate(s, n).k)
  {
    hide Wf, WaitOk, ReadyOk, TickOk, OwnOk, Inherits, Signals, Resched;
    CoreFrame(s, s.(now := (s.now + n) % TICK_RANGE));
    SettledInv(s, ExpireDue(s.(now := (s.now + n) % TICK_RANGE)));
  }

  // ------------------------------------------------------- creation and deletion

  /** Passing every mutex of `t` on keeps the equation of all other tasks. */
  lemma {:induction false} FreeMutexesKeeps(s: Kernel, t: Tid)
    requires Agree(s) && Signals(s) && IdleOk(s) && t < |s.tasks| && s.tasks[t].Live() && InheritsBut(s, t)
    ensures var r := FreeMutexes(s, t); Signals(r) && IdleOk(r) && InheritsBut(r, t)
    ensures FreeMutexes(s, t).active == s.active && FreeMutexes(s, t).lock == s.lock
    ensures forall u :: 0 <= u < |s.tasks| && s.tasks[u].st == Rdy ==> FreeMutexes(s, t).tasks[u].st == Rdy
    decreases |s.tasks[t].held|
  {
    hide WaitOk, ReadyOk, TickOk, Signals, PassOn;
    var held := s.tasks[t].held;
    if held != [] {
      var m := held[0];
      assert m in held && TaskWf(s, s.tasks[t]) && Owns(s, t, m);
      var n := s.objs[m].nested;
      PassOnAgree(s, t, m, n);
      PassOnInherits(s, t, m, n);
      PassOnSignals(s, t, m, n);
      PassOnIdle(s, t, m, n);
      PassOnRdy(s, t, m, n);
      FreeMutexesKeeps(PassOn(s, t, m, n), t);
    }
  }

  lemma PassOnRdy(s: Kernel, t: Tid, m: Oid, n: nat)
    requires Agree(s) && t < |s.tasks| && s.tasks[t].Live() && Owns(s, t, m)
    ensures forall u :: 0 <= u < |s.tasks| && s.tasks[u].st == Rdy ==> PassOn(s, t, m, n).tasks[u].st == Rdy
  {
    PassOnShape(s, t, m, n);
  }

  lemma OwnsNothing(s: Kernel, t: Tid)
    requires OwnOk(s) && t < |s.tasks| && s.tasks[t].Live() && s.tasks[t].held == []
    ensures forall o :: !Owns(s, t, o)
  {
    assert forall o :: 0 <= o < |s.objs| ==> (o in s.tasks[t].held <==> Owns(s, t, o));
  }

  lemma WithStaleCore(s: Kernel, t: Tid)
    requires Core(s) && t < |s.tasks|
    ensures Core(WithStale(s, t))
  {
    hide Wf, WaitOk, ReadyOk, TickOk, OwnOk, Inherits, Signals;
    var r := WithStale(s, t);
    WithStaleAgree(s, t);
    SignalsFrame(s, r);
    assert forall u: Tid :: SameTops(s, r, u);
    InheritsFrame(s, r);
  }

  /** Deleting a live task keeps the invariant. */
  lemma TaskDelInv(s: Kernel, t: Tid)
    requires Inv(s) && t < |s.tasks| && s.tasks[t].Live()
    ensures Inv(TaskDel(s, t).k)
  {
    hide Wf, WaitOk, ReadyOk, TickOk, OwnOk, Inherits, Signals, Resched, Leave, FreeMutexes;
    if s.tasks[t].prio != IDLE_PRI && !(t == s.active && s.lock > 0) {
      WithStaleCore(s, t);
      IdlePrio(s, t);
      TaskDelSettled(WithStale(s, t), t, s.tasks[t].wake);
      SettledInv(s, Leave(FreeMutexes(WithStale(s, t), t), t, Deleted, s.tasks[t].wake));
    }
  }

  lemma TaskDelSettled(s: Kernel, t: Tid, why: WakeReason)
    requires Core(s) && t < |s.tasks| && s.tasks[t].Live() && t != IDLE
    requires s.active < |s.tasks| && s.tasks[s.active].st == Rdy && (s.lock > 0 ==> t != s.active)
    ensures CanMove(FreeMutexes(s, t), t, Deleted)
    ensures Settled(s, Leave(FreeMutexes(s, t), t, Deleted, why))
  {
    hide Wf, WaitOk, ReadyOk, TickOk, OwnOk, Inherits, Signals, Leave, FreeMutexes;
    InheritsAll(s, t);
    FreeMutexesKeeps(s, t);
    var s1 := FreeMutexes(s, t);
    OwnsNothing(s1, t);
    LeaveAgree(s1, t, Deleted, why);
    LeaveSignals(s1, t, Deleted, why);
    LeaveInherits(s1, t, Deleted, why);
    MoveRest(s1, t, Deleted, why);
  }

  lemma AppendTaskAgree(s: Kernel, k: Task)
    requires Agree(s) && k.prio < PRI_MAX && k.bprio < PRI_MAX && k.blk == None && k.held == []
    requires k.st == Rdy || k.st == Susp
    ensures var r := s.(tasks := s.tasks + [k]);
            Agree(r.(ready := if k.st == Rdy then AddTail(s.ready, k.prio, |s.tasks|) else s.ready))
  {
    var r := s.(tasks := s.tasks + [k], ready := if k.st == Rdy then AddTail(s.ready, k.prio, |s.tasks|) else s.ready);
    var n := |s.tasks|;
    forall u | 0 <= u < |r.tasks| ensures TaskWf(r, r.tasks[u]) {
      if u < n { assert TaskWf(s, s.tasks[u]); }
    }
    forall m | 0 <= m < |r.objs| ensures ObjWf(r, r.objs[m]) {
      assert ObjWf(s, s.objs[m]);
    }
    AppendTaskWait(s, r, k);
    AppendTaskReady(s, r, k);
    AppendTaskOwn(s, r, k);
  }

  lemma AppendTaskWait(s: Kernel, r: Kernel, k: Task)
    requires Wf(s) && WaitOk(s) && r.tasks == s.tasks + [k] && r.objs == s.objs && k.blk == None
    ensures WaitOk(r)
  {
    forall m | 0 <= m < |r.objs| ensures ListOk(r, r.objs[m].waiters) {
      assert ListOk(s, s.objs[m].waiters) && ObjWf(s, s.objs[m]);
      assert forall i :: 0 <= i < |s.tasks| ==> Prios(r.tasks)[i] == Prios(s.tasks)[i];
    }
    forall o, t | 0 <= o < |r.objs| && 0 <= t < |r.tasks|
      ensures t in r.objs[o].waiters <==> r.tasks[t].blk == Some(o)
    {
      assert ObjWf(s, s.objs[o]);
    }
  }

  lemma AppendTaskReady(s: Kernel, r: Kernel, k: Task)
    requires ReadyOk(s) && TickOk(s) && r.tasks == s.tasks + [k] && k.prio < PRI_MAX
    requires r.ready == if k.st == Rdy then AddTail(s.ready, k.prio, |s.tasks|) else s.ready
    requires (k.st == Rdy || k.st == Susp) && r.ticks == s.ticks
    ensures ReadyOk(r) && TickOk(r)
  {
    assert |s.tasks| !in s.ready[k.prio];
    NoDupSnoc(s.ready[k.prio], |s.tasks|);
  }

  lemma AppendTaskOwn(s: Kernel, r: Kernel, k: Task)
    requires Wf(s) && OwnOk(s) && r.tasks == s.tasks + [k] && r.objs == s.objs && k.held == []
    ensures OwnOk(r)
  {
    forall m | 0 <= m < |r.objs| ensures OwnerOk(r, r.objs[m]) {
      assert OwnerOk(s, s.objs[m]) && ObjWf(s, s.objs[m]);
    }
    forall u, m | 0 <= u < |r.tasks| && r.tasks[u].Live() && 0 <= m < |r.objs|
      ensures m in r.tasks[u].held <==> Owns(r, u, m)
    {
      assert ObjWf(s, s.objs[m]);
      if u < |s.tasks| { assert m in s.tasks[u].held <==> Owns(s, u, m); }
    }
  }

  /** A new task owns nothing, so it runs at its base priority; nobody else notices it. */
  lemma AppendTaskInherits(s: Kernel, r: Kernel, k: Task)
    requires Wf(s) && Signals(s) && Inherits(s, Bases(s.tasks)) && r.tasks == s.tasks + [k] && r.objs == s.objs
    requires k.prio == k.bprio
    ensures Inherits(r, Bases(r.tasks)) && Signals(r)
  {
    forall m | 0 <= m < |r.objs| ensures SignalOk(r, r.objs[m]) {
      assert SignalOk(s, s.objs[m]) && ObjWf(s, s.objs[m]);
    }
    forall u | 0 <= u < |r.tasks| && r.tasks[u].Live() ensures IsLeast(r, Bases(r.tasks), u, r.tasks[u].prio) {
      AppendTaskTops(s, r, k, u);
      if u < |s.tasks| {
        assert IsLeast(s, Bases(s.tasks), u, s.tasks[u].prio);
        if s.tasks[u].prio != s.tasks[u].bprio {
          var o :| OwnsWaited(s, u, o) && Top(s, o) == s.tasks[u].prio;
          assert OwnsWaited(r, u, o) && Top(r, o) == s.tasks[u].prio;
        }
      }
    }
  }

  lemma AppendTaskTops(s: Kernel, r: Kernel, k: Task, u: Tid)
    requires Wf(s) && r.tasks == s.tasks + [k] && r.objs == s.objs
    ensures SameTops(s, r, u)
    ensures u == |s.tasks| ==> forall o :: !OwnsWaited(r, u, o)
  {
    assert forall m :: 0 <= m < |s.objs| ==> ObjWf(s, s.objs[m]);
    assert forall m :: 0 <= m < |s.objs| && s.objs[m].waiters != [] ==> s.objs[m].waiters[0] in s.objs[m].waiters;
  }

  lemma TaskCreateInv(s: Kernel, prio: nat, autorun: bool)
    requires Inv(s)
    ensures Inv(TaskCreate(s, prio, autorun).k)
  {
    hide Wf, WaitOk, ReadyOk, TickOk, OwnOk, Inherits, Signals, Resched;
    if prio < IDLE_PRI {
      var k := Task(if autorun then Rdy else Susp, prio, prio, None, [], None, if autorun then 0 else 1,
                    Finish, 0, false, false, 0, 0);
      var r := s.(tasks := s.tasks + [k]).(ready := if autorun then AddTail(s.ready, prio, |s.tasks|) else s.ready);
      AppendTaskAgree(s, k);
      AppendTaskInherits(s, r, k);
      if autorun {
        SettledInv(s, r);
      }
    }
  }

  lemma AppendObjAgree(s: Kernel, b: Obj)
    requires Agree(s) && b.waiters == [] && b.owner == None
    ensures Agree(s.(objs := s.objs + [b]))
  {
    var r := s.(objs := s.objs + [b]);
    forall u | 0 <= u < |r.tasks| ensures TaskWf(r, r.tasks[u]) {
      assert TaskWf(s, s.tasks[u]);
    }
    forall m | 0 <= m < |r.objs| ensures ObjWf(r, r.objs[m]) && OwnerOk(r, r.objs[m]) && ListOk(r, r.objs[m].waiters) {
      if m < |s.objs| {
        assert ObjWf(s, s.objs[m]) && OwnerOk(s, s.objs[m]) && ListOk(s, s.objs[m].waiters);
      }
    }
    AppendObjLinks(s, b);
  }

  lemma AppendObjLinks(s: Kernel, b: Obj)
    requires Agree(s) && b.waiters == [] && b.owner == None
    ensures var r := s.(objs := s.objs + [b]);
            && (forall o, t {:trigger t in r.objs[o].waiters} :: 0 <= o < |r.objs| && 0 <= t < |r.tasks| ==>
                 (t in r.objs[o].waiters <==> r.tasks[t].blk == Some(o)))
            && (forall t, o {:trigger o in r.tasks[t].held} ::
                 0 <= t < |r.tasks| && r.tasks[t].Live() && 0 <= o < |r.objs| ==>
                 (o in r.tasks[t].held <==> Owns(r, t, o)))
  {
    var r := s.(objs := s.objs + [b]);
    forall o, t | 0 <= o < |r.objs| && 0 <= t < |r.tasks| ensures t in r.objs[o].waiters <==> r.tasks[t].blk == Some(o) {
      assert TaskWf(s, s.tasks[t]);
    }
    forall t, o | 0 <= t < |r.tasks| && r.tasks[t].Live() && 0 <= o < |r.objs|
      ensures o in r.tasks[t].held <==> Owns(r, t, o)
    {
      assert TaskWf(s, s.tasks[t]);
      if o < |s.objs| { assert o in s.tasks[t].held <==> Owns(s, t, o); }
    }
  }

  lemma ObjCreateInv(s: Kernel, kind: Kind, count: nat, flags: bv32)
    requires Inv(s)
    ensures Inv(ObjCreate(s, kind, count, flags).k)
  {
    hide Wf, WaitOk, ReadyOk, TickOk, OwnOk, Inherits;
    var b := Obj(kind, [], None, 0, count, flags, None);
    var r := s.(objs := s.objs + [b]);
    AppendObjAgree(s, b);
    forall m | 0 <= m < |r.objs| ensures SignalOk(r, r.objs[m]) {
      if m < |s.objs| { assert SignalOk(s, s.objs[m]); }
    }
    assert forall u: Tid :: SameTops(s, r, u);
    InheritsFrame(s, r);
  }

  /** Retiring a mutex only matters to its owner. */
  lemma RetireInherits(s: Kernel, o: Oid, w: Tid)
    requires Agree(s) && o < |s.objs| && Inherits(s, Bases(s.tasks))
    requires s.objs[o].kind == Mutex ==> s.objs[o].owner.None? || s.objs[o].owner.value == w
    ensures InheritsBut(Retire(s, o), w)
    ensures s.objs[o].kind != Mutex || s.objs[o].owner.None? ==>
              Inherits(Retire(s, o), Bases(Retire(s, o).tasks))
  {
    var r := Retire(s, o);
    forall u | 0 <= u < |r.tasks| && r.tasks[u].Live() && (u != w || !Owns(s, u, o))
      ensures IsLeast(r, Bases(r.tasks), u, r.tasks[u].prio)
    {
      RetireTops(s, o, u);
      RetirePrio(s, o, u);
      IsLeastFrame(s, r, Bases(s.tasks), u, s.tasks[u].prio);
    }
  }

  lemma RetireTops(s: Kernel, o: Oid, u: Tid)
    requires Agree(s) && o < |s.objs| && !Owns(s, u, o)
    ensures SameTops(s, Retire(s, o), u)
  {}

  lemma RetirePrio(s: Kernel, o: Oid, u: Tid)
    requires Agree(s) && o < |s.objs| && u < |s.tasks|
    ensures Retire(s, o).tasks[u] == s.tasks[u].(held := Retire(s, o).tasks[u].held)
    ensures Bases(Retire(s, o).tasks) == Bases(s.tasks)
  {
    assert Bases(Retire(s, o).tasks) == Bases(s.tasks);
  }

  lemma RetireIdle(s: Kernel, o: Oid)
    requires Agree(s) && o < |s.objs| && IdleOk(s)
    ensures IdleOk(Retire(s, o))
  {
    var r := Retire(s, o);
    RetirePrio(s, o, IDLE);
    RetireNotIdle(s, o);
    forall t | 0 < t < |r.tasks| ensures r.tasks[t].bprio < IDLE_PRI {
      RetirePrio(s, o, t);
    }
  }

  lemma RetireNotIdle(s: Kernel, o: Oid)
    requires Agree(s) && o < |s.objs| && IdleOk(s)
    ensures Retire(s, o).tasks[IDLE].held == []
  {}

  /** Deleting an object: its owner is recomputed, then every waiter is woken. */
  lemma ObjDelInv(s: Kernel, o: Oid, kind: Kind)
    requires Inv(s) && o < |s.objs|
    ensures Inv(ObjDel(s, o, kind).k)
  {
    hide Wf, WaitOk, ReadyOk, TickOk, OwnOk, Inherits, Signals, Resched, Retire, WakeAll;
    var b := s.objs[o];
    if b.kind == kind && kind != NoObj {
      RetireAgree(s, o);
      RetireIdle(s, o);
      var s1 := Retire(s, o);
      RetireRest(s, o);
      if b.kind == Mutex && b.owner.Some? {
        OwnerLive(s, o);
        RetireInherits(s, o, b.owner.value);
        RetirePrio(s, o, b.owner.value);
        ReleaseInherits(s1, b.owner.value);
        DelWakes(s, s1, Release(s1, b.owner.value), o);
      } else {
        RetireInherits(s, o, 0);
        DelWakes(s, s1, s1, o);
      }
    }
  }

  lemma RetireRest(s: Kernel, o: Oid)
    requires Agree(s) && o < |s.objs|
    ensures var r := Retire(s, o);
            && r.objs[o].kind == NoObj && r.active == s.active && r.lock == s.lock
            && (forall m :: 0 <= m < |s.objs| && m != o ==> r.objs[m] == s.objs[m])
            && (forall t :: 0 <= t < |s.tasks| ==> SameWish(s.tasks[t], r.tasks[t]))
  {}

  /** The last part of a deletion, from the state `s2` in which the owner has been released. */
  lemma DelWakes(s: Kernel, s1: Kernel, s2: Kernel, o: Oid)
    requires Inv(s) && o < |s.objs| && |s1.tasks| == |s.tasks| && |s1.objs| == |s.objs|
    requires s1.objs[o].kind == NoObj && s1.active == s.active && s1.lock == s.lock
    requires forall m :: 0 <= m < |s.objs| && m != o ==> s1.objs[m] == s.objs[m]
    requires forall t :: 0 <= t < |s.tasks| ==> SameWish(s.tasks[t], s1.tasks[t])
    requires OnlyPrio(s1, s2) && Agree(s2) && IdleOk(s2) && Inherits(s2, Bases(s2.tasks))
    ensures Inv(Resched(WakeAll(s2, o, Del)))
  {
    hide Wf, WaitOk, ReadyOk, TickOk, OwnOk, Inherits, Resched, WakeAll;
    assert SameButOrder(s1.objs[o], s2.objs[o]);
    assert SameWish(s.tasks[s.active], s1.tasks[s.active]);
    WakeAllKeeps(s2, o, Del);
    var r := WakeAll(s2, o, Del);
    assert SameWish(s2.tasks[s.active], r.tasks[s.active]);
    forall m | 0 <= m < |s2.objs| && m != o ensures SignalOk(s2, s2.objs[m]) {
      DelSignal(s, s1, s2, m);
    }
    WakeAllCore(s2, r, o);
    ReschedInv(r);
  }

  lemma DelSignal(s: Kernel, s1: Kernel, s2: Kernel, m: Oid)
    requires Signals(s) && m < |s.objs| && |s1.tasks| == |s.tasks| && |s1.objs| == |s.objs| && s1.objs[m] == s.objs[m]
    requires forall t :: 0 <= t < |s.tasks| ==> SameWish(s.tasks[t], s1.tasks[t])
    requires OnlyPrio(s1, s2)
    ensures SignalOk(s2, s2.objs[m])
  {
    assert SignalOk(s, s.objs[m]) && SameButOrder(s1.objs[m], s2.objs[m]);
    assert forall t :: 0 <= t < |s.tasks| ==> SameWish(s.tasks[t], s1.tasks[t]);
  }
}
