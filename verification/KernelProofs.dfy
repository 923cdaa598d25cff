/** Every kernel call keeps the kernel invariant. */
module KernelProofs {
  import opened ReadyQueue
  import opened KernelState
  import opened PriorityChain
  import opened KernelLists
  import opened KernelInv
  import opened KernelSteps

  /** Everything in the invariant except what concerns the running task. */
  ghost predicate Core(s: Kernel) {
    Agree(s) && Signals(s) && IdleOk(s) && Inherits(s, Bases(s.tasks))
  }

  /** The equation carries over when priorities and first waiters do. */
  lemma InheritsFrame(s: Kernel, s1: Kernel)
    requires Inherits(s, Bases(s.tasks)) && |s1.tasks| == |s.tasks|
    requires forall t :: 0 <= t < |s.tasks| && s1.tasks[t].Live() ==> SamePri(s.tasks[t], s1.tasks[t])
    requires forall t :: 0 <= t < |s.tasks| && s1.tasks[t].Live() ==> SameTops(s, s1, t)
    ensures Inherits(s1, Bases(s1.tasks))
  {
    forall t | 0 <= t < |s1.tasks| && s1.tasks[t].Live() ensures IsLeast(s1, Bases(s1.tasks), t, s1.tasks[t].prio) {
      assert SamePri(s.tasks[t], s1.tasks[t]) && SameTops(s, s1, t);
      assert IsLeast(s, Bases(s.tasks), t, s.tasks[t].prio);
      if s.tasks[t].prio != s.tasks[t].bprio {
        var o :| OwnsWaited(s, t, o) && Top(s, o) == s.tasks[t].prio;
        assert OwnsWaited(s1, t, o) && Top(s1, o) == s.tasks[t].prio;
      }
    }
  }

  ghost predicate SamePri(k: Task, k1: Task) {
    k.Live() && k1.prio == k.prio && k1.bprio == k.bprio
  }

  lemma SignalsFrame(s: Kernel, s1: Kernel)
    requires Signals(s) && s1.objs == s.objs && |s1.tasks| == |s.tasks|
    requires forall t :: 0 <= t < |s.tasks| ==>
               s1.tasks[t].pendFlags == s.tasks[t].pendFlags && s1.tasks[t].pendAnd == s.tasks[t].pendAnd
    ensures Signals(s1)
  {
    forall o | 0 <= o < |s1.objs| ensures SignalOk(s1, s1.objs[o]) {
      assert SignalOk(s, s.objs[o]);
    }
  }

  /** Two states with the same tables and lists are equally good. */
  lemma CoreFrame(s: Kernel, s1: Kernel)
    requires Core(s) && s1.tasks == s.tasks && s1.objs == s.objs && s1.ready == s.ready && s1.ticks == s.ticks
    ensures Core(s1)
  {
    AgreeFrame(s, s1);
    SignalsFrame(s, s1);
    assert forall t: Tid :: t < |s.tasks| ==> SameTops(s, s1, t);
    InheritsFrame(s, s1);
  }

  lemma AgreeFrame(s: Kernel, s1: Kernel)
    requires Agree(s) && s1.tasks == s.tasks && s1.objs == s.objs && s1.ready == s.ready && s1.ticks == s.ticks
    ensures Agree(s1)
  {
    SameLinksAgree(s, s1);
    SameListsAgree(s, s1);
  }

  lemma IdleReady(s: Kernel)
    requires Agree(s) && IdleOk(s)
    ensures Highest(s.ready, 0) < PRI_MAX
    ensures Preferred(s.ready) < |s.tasks| && s.tasks[Preferred(s.ready)].st == Rdy
    ensures s.tasks[Preferred(s.ready)].prio == Highest(s.ready, 0)
  {
    assert TaskWf(s, s.tasks[IDLE]);
    assert IDLE in s.ready[s.tasks[IDLE].prio];
    assert Preferred(s.ready) in s.ready[Highest(s.ready, 0)];
  }

  /** Rescheduling establishes the running-task part of the invariant. */
  lemma ReschedInv(s: Kernel)
    requires Core(s) && (s.lock > 0 ==> s.active < |s.tasks| && s.tasks[s.active].st == Rdy)
    ensures Inv(Resched(s))
  {
    IdleReady(s);
    CoreFrame(s, Resched(s));
  }

  // ------------------------------------------------------------ leaving a wait

  lemma LeaveAgree(s: Kernel, t: Tid, st: TaskState, why: WakeReason)
    requires Agree(s) && CanMove(s, t, st)
    ensures Agree(Leave(s, t, st, why))
    ensures OnlyPrio(Move(s, t, st, why), Leave(s, t, st, why))
  {
    MoveAgree(s, t, st, why);
    assert TaskWf(s, s.tasks[t]);
    if s.tasks[t].blk.Some? {
      ResetOwnerAgree(Move(s, t, st, why), s.tasks[t].blk.value, s.tasks[t].prio);
    }
  }

  lemma ReleaseAgree(s: Kernel, w: Tid)
    requires Agree(s) && w < |s.tasks|
    ensures Agree(Release(s, w)) && OnlyPrio(s, Release(s, w))
  {
    assert TaskWf(s, s.tasks[w]);
    PriChangeAgree(s, w, PriLook(s, w));
  }

  lemma ResetOwnerAgree(s: Kernel, o: Oid, pri: nat)
    requires Agree(s) && o < |s.objs|
    ensures Agree(ResetOwner(s, o, pri)) && OnlyPrio(s, ResetOwner(s, o, pri))
  {
    assert ObjWf(s, s.objs[o]);
    if s.objs[o].kind == Mutex && s.objs[o].owner.Some? {
      ReleaseAgree(s, s.objs[o].owner.value);
    }
  }

  /** Every live task but `t` satisfies the inheritance equation. */
  ghost predicate InheritsBut(s: Kernel, t: Tid) {
    forall u :: 0 <= u < |s.tasks| && s.tasks[u].Live() && u != t ==>
      IsLeast(s, Bases(s.tasks), u, s.tasks[u].prio)
  }

  /** Releasing restores the equation when only `w` may have lost a reason to be raised. */
  lemma ReleaseInherits(s: Kernel, w: Tid)
    requires Agree(s) && w < |s.tasks| && s.tasks[w].Live() && InheritsBut(s, w)
    ensures Inherits(Release(s, w), Bases(s.tasks)) && Agree(Release(s, w)) && OnlyPrio(s, Release(s, w))
    ensures Bases(Release(s, w).tasks) == Bases(s.tasks)
  {
    hide WaitOk, ReadyOk, TickOk, OwnOk, PriChange, PriLimit, Inherits;
    assert TaskWf(s, s.tasks[w]);
    PriLookIsLeast(s, w);
    PriChangeInherits(s, Bases(s.tasks), w, PriLook(s, w));
    ReleaseAgree(s, w);
  }

  /** When a task leaves a wait list, `mutex_task_pri_reset` restores the equation: the owner
      can only have inherited from it if their priorities are equal. */
  lemma LeaveInherits(s: Kernel, t: Tid, st: TaskState, why: WakeReason)
    requires Agree(s) && CanMove(s, t, st) && InheritsBut(s, t)
    requires st == Deleted || IsLeast(s, Bases(s.tasks), t, s.tasks[t].prio)
    ensures Inherits(Leave(s, t, st, why), Bases(Leave(s, t, st, why).tasks))
  {
    hide Wf, WaitOk, ReadyOk, TickOk, OwnOk, Release, Move, Leave, IsLeast;
    var s1 := Move(s, t, st, why);
    MoveAgree(s, t, st, why);
    LeftOthers(s, t, st, why);
    LeaveWhich(s, t, st, why);
    if s.tasks[t].blk.Some? && s.objs[s.tasks[t].blk.value].kind == Mutex {
      var w := s.objs[s.tasks[t].blk.value].owner.value;
      if s.tasks[w].prio == s.tasks[t].prio {
        ReleaseInherits(s1, w);
      } else {
        MoveOwner(s, Bases(s.tasks), t, st, why, w);
      }
    }
  }

  lemma LeftOthers(s: Kernel, t: Tid, st: TaskState, why: WakeReason)
    requires Agree(s) && CanMove(s, t, st) && InheritsBut(s, t)
    requires st == Deleted || IsLeast(s, Bases(s.tasks), t, s.tasks[t].prio)
    ensures Bases(Move(s, t, st, why).tasks) == Bases(s.tasks)
    ensures forall u :: 0 <= u < |s.tasks| && Move(s, t, st, why).tasks[u].Live() && !WaitsFor(s, t, u) ==>
              IsLeast(Move(s, t, st, why), Bases(s.tasks), u, Move(s, t, st, why).tasks[u].prio)
  {
    hide WaitOk, ReadyOk, TickOk, OwnOk, IsLeast;
    var s1 := Move(s, t, st, why);
    assert Bases(s1.tasks) == Bases(s.tasks);
    forall u | 0 <= u < |s1.tasks| && s1.tasks[u].Live() && !WaitsFor(s, t, u)
      ensures IsLeast(s1, Bases(s.tasks), u, s1.tasks[u].prio)
    {
      MoveOthers(s, t, st, why, u);
      IsLeastFrame(s, s1, Bases(s.tasks), u, s.tasks[u].prio);
    }
  }

  /** Leaving is a move, and a release by the owner of the mutex if the priorities are equal. */
  lemma LeaveWhich(s: Kernel, t: Tid, st: TaskState, why: WakeReason)
    requires Agree(s) && CanMove(s, t, st)
    ensures var s1, b := Move(s, t, st, why), s.tasks[t].blk;
            && (b.Some? ==> b.value < |s.objs|)
            && if b.Some? && s.objs[b.value].kind == Mutex then
                 && s.objs[b.value].owner.Some? && s.objs[b.value].owner.value < |s.tasks|
                 && var w := s.objs[b.value].owner.value;
                    && w != t && t in s.objs[b.value].waiters && s.tasks[w].Live() && s1.tasks[w] == s.tasks[w]
                    && (forall u :: WaitsFor(s, t, u) <==> u == w)
                    && Wf(s1) && Leave(s, t, st, why) == if s.tasks[w].prio == s.tasks[t].prio then Release(s1, w) else s1
               else Leave(s, t, st, why) == s1 && forall u :: !WaitsFor(s, t, u)
  {
    hide ReadyOk, TickOk, Release;
    MoveWf(s, t, st, why);
    assert TaskWf(s, s.tasks[t]);
    if s.tasks[t].blk.Some? {
      var b := s.objs[s.tasks[t].blk.value];
      assert ObjWf(s, b) && OwnerOk(s, b) && t in b.waiters;
    }
  }

  lemma LeaveSignals(s: Kernel, t: Tid, st: TaskState, why: WakeReason)
    requires Agree(s) && CanMove(s, t, st) && Signals(s)
    ensures Signals(Leave(s, t, st, why))
  {
    MoveSignals(s, t, st, why);
    LeaveAgree(s, t, st, why);
    OnlyPrioSignals(Move(s, t, st, why), Leave(s, t, st, why));
  }

  /** Leaving a wait keeps everything but the choice of the running task. */
  lemma LeaveCore(s: Kernel, t: Tid, st: TaskState, why: WakeReason)
    requires Core(s) && CanMove(s, t, st) && t != IDLE
    ensures Core(Leave(s, t, st, why))
  {
    LeaveAgree(s, t, st, why);
    LeaveSignals(s, t, st, why);
    LeaveInherits(s, t, st, why);
  }
}
