/** Every kernel call keeps the links of mutexes without owner in order. */
module KernelKeeps {
  import opened Flags
  import opened KernelState
  import opened PriorityChain
  import opened KernelInv
  import opened KernelSteps
  import opened KernelProofs
  import opened MutexProofs
  import opened CallProofs
  import opened TaskProofs
  import opened KernelStale

  lemma ReschedLinked(s: Kernel)
    requires Linked(s)
    ensures Linked(Resched(s))
  {
    hide Linked, LinksStay, Resched;
    ReschedLinks(s);
    LinkedStays(s, Resched(s));
  }

  lemma MutexLockLinked(s: Kernel, o: Oid, ticks: nat)
    requires Inv(s) && Linked(s) && o < |s.objs|
    ensures Linked(MutexLock(s, o, ticks).k)
  {
    hide Wf, WaitOk, ReadyOk, TickOk, OwnOk, Signals, Inherits, IdleOk, Linked, Resched, Block, Boost;
    var a, b := s.active, s.objs[o];
    PrioBound(s, a);
    if b.kind == Mutex && b.owner.Some? && b.owner != Some(a) {
      if ticks != NO_WAIT && s.lock == 0 {
        OwnerLive(s, o);
        BoostReady(s, b.owner.value, a);
        var s1 := Boost(s, b.owner.value, s.tasks[a].prio);
        assert SameButOrder(b, s1.objs[o]);
        OnlyPrioLinks(s, s1);
        BlockLinks(s1, o, a, ticks);
        hide LinksStay;
        LinkedStays(s, s1);
        LinkedStays(s1, Block(s1, o, a, ticks));
        ReschedLinked(Block(s1, o, a, ticks));
      }
    } else if MutexLock(s, o, ticks).k != s {
      LinkedStays(s, MutexLock(s, o, ticks).k);
    }
  }

  lemma MutexUnlockLinked(s: Kernel, o: Oid)
    requires Inv(s) && Linked(s) && o < |s.objs|
    ensures Linked(MutexUnlock(s, o).k)
  {
    hide Wf, WaitOk, ReadyOk, TickOk, OwnOk, Signals, Inherits, IdleOk, Linked, Resched, Give, Release, DropHeld, PassOn;
    var a, b := s.active, s.objs[o];
    if b.kind == Mutex && b.owner == Some(a) {
      if b.nested != 1 {
        LinkedStays(s, MutexUnlock(s, o).k);
      } else {
        var n := if b.waiters == [] then 0 else 1;
        UnlockOrder(s, a, o, n);
        PassOnAgree(s, a, o, n);
        PassOnLinked(s, a, o, n);
        var p := PassOn(s, a, o, n);
        var r := Release(p, a);
        ReleaseAgree(p, a);
        OnlyPrioLinks(p, r);
        hide LinksStay;
        LinkedStays(p, r);
        ReschedLinked(r);
      }
    }
  }

  lemma SemLinked(s: Kernel, o: Oid, ticks: nat, all: bool, n: nat)
    requires Inv(s) && Linked(s) && o < |s.objs|
    ensures Linked(SemTake(s, o, ticks).k) && Linked(SemGive(s, o, all).k) && Linked(SemCountSet(s, o, n).k)
  {
    hide Wf, WaitOk, ReadyOk, TickOk, OwnOk, Signals, Inherits, IdleOk, Linked, Resched, Block, Wake, WakeAll;
    var b := s.objs[o];
    if b.kind == Sem {
      LinkedStays(s, SetObj(s, o, b.(count := n)));
      if b.count > 0 {
        LinkedStays(s, SetObj(s, o, b.(count := b.count - 1)));
      } else {
        BlockLinks(s, o, s.active, ticks);
        LinkedStays(s, Block(s, o, s.active, ticks));
        ReschedLinked(Block(s, o, s.active, ticks));
      }
      if b.waiters == [] {
        LinkedStays(s, SetObj(s, o, b.(count := b.count + 1)));
      } else if all {
        WakeAllLinks(s, o, Finish);
        LinkedStays(s, WakeAll(s, o, Finish));
        ReschedLinked(WakeAll(s, o, Finish));
      } else {
        var f := First(s, o);
        WakeLinks(s, f, Finish);
        LinkedStays(s, Wake(s, f, Finish));
        ReschedLinked(Wake(s, f, Finish));
      }
    }
  }

  lemma EventGetLinked(s: Kernel, o: Oid, flags: bv32, all: bool, clear: bool, ticks: nat)
    requires Inv(s) && Linked(s) && o < |s.objs|
    ensures Linked(EventGet(s, o, flags, all, clear, ticks).k)
  {
    hide Wf, WaitOk, ReadyOk, TickOk, OwnOk, Signals, Inherits, IdleOk, Linked, Resched, Block, Matches, ClearFlags;
    var r := EventGet(s, o, flags, all, clear, ticks).k;
    if s.objs[o].kind == Event && !Matches(s.objs[o].flags, flags, all) && ticks != NO_WAIT && s.lock == 0 {
      WantAgree(s, s.active, flags, all, clear);
      var s1 := Want(s, s.active, flags, all, clear);
      LinkedStays(s, s1);
      BlockLinks(s1, o, s.active, ticks);
      LinkedStays(s1, Block(s1, o, s.active, ticks));
      ReschedLinked(Block(s1, o, s.active, ticks));
    } else if s.objs[o].kind == Event && Matches(s.objs[o].flags, flags, all) {
      LinkedStays(s, r);
    }
  }

  lemma EventSetLinked(s: Kernel, o: Oid, flags: bv32, clearOthers: bool)
    requires Inv(s) && Linked(s) && o < |s.objs|
    ensures Linked(EventSet(s, o, flags, clearOthers).k)
  {
    hide Wf, WaitOk, ReadyOk, TickOk, OwnOk, Signals, Inherits, IdleOk, Linked, Resched, EventWake, AddFlags, KeepFlags;
    var b := s.objs[o];
    if b.kind == Event {
      LinkedStays(s, SetObj(s, o, b.(flags := KeepFlags(b.flags, flags))));
      var cur := AddFlags(b.flags, flags);
      FlagsAgree(s, o, cur);
      WaitersDistinct(s, o);
      var s1 := SetObj(s, o, b.(flags := cur));
      LinkedStays(s, s1);
      EventLinks(s1, o, b.waiters, cur);
      hide LinksStay;
      LinkedStays(s1, EventWake(s1, o, b.waiters, cur));
      ReschedLinked(EventWake(s1, o, b.waiters, cur));
    }
  }

  lemma CreateLinked(s: Kernel, kind: Kind, count: nat, flags: bv32, prio: nat, autorun: bool)
    requires Inv(s) && Linked(s)
    ensures Linked(ObjCreate(s, kind, count, flags).k) && Linked(TaskCreate(s, prio, autorun).k)
  {
    hide Wf, WaitOk, ReadyOk, TickOk, OwnOk, Signals, Inherits, IdleOk, Linked;
    LinkedStays(s, ObjCreate(s, kind, count, flags).k);
    LinkedStays(s, TaskCreate(s, prio, autorun).k);
  }

  lemma ObjDelLinked(s: Kernel, o: Oid, kind: Kind)
    requires Inv(s) && Linked(s) && o < |s.objs|
    ensures Linked(ObjDel(s, o, kind).k)
  {
    hide Wf, WaitOk, ReadyOk, TickOk, OwnOk, Signals, Inherits, IdleOk, Linked, Resched, Release, WakeAll, Retire;
    var b := s.objs[o];
    if b.kind == kind && kind != NoObj {
      RetireAgree(s, o);
      RetireLinked(s, o);
      var s1 := Retire(s, o);
      if b.kind == Mutex && b.owner.Some? {
        OwnerLive(s, o);
        var s2 := Release(s1, b.owner.value);
        ReleaseAgree(s1, b.owner.value);
        OnlyPrioLinks(s1, s2);
        hide LinksStay;
        LinkedStays(s1, s2);
        s1 := s2;
      }
      hide LinksStay;
      WakeAllLinks(s1, o, Del);
      LinkedStays(s1, WakeAll(s1, o, Del));
      ReschedLinked(WakeAll(s1, o, Del));
    }
  }

  lemma SleepLinked(s: Kernel, ticks: nat)
    requires Inv(s) && Linked(s)
    ensures Linked(TaskSleep(s, ticks).k) && Linked(TaskYield(s).k)
  {
    hide Wf, WaitOk, ReadyOk, TickOk, OwnOk, Signals, Inherits, IdleOk, Linked;
    LinkedStays(s, FallAsleep(s, s.active, ticks));
    ReschedLinked(FallAsleep(s, s.active, ticks));
    LinkedStays(s, TaskYield(s).k);
  }

  lemma SuspendLinked(s: Kernel, t: Tid)
    requires Inv(s) && Linked(s) && t < |s.tasks|
    ensures Linked(TaskSuspend(s, t).k)
  {
    hide Wf, WaitOk, ReadyOk, TickOk, OwnOk, Signals, Inherits, IdleOk, Linked, Resched, Move;
    var k := s.tasks[t];
    var st := if k.st == Rdy then Susp else if k.st == Sleep then SleepSusp else PendSusp;
    MoveLinks(s, t, st, k.wake);
    var m := Move(s, t, st, k.wake);
    LinkedStays(s, m);
    LinkedStays(m, WithSusp(m, t, 1));
    ReschedLinked(WithSusp(m, t, 1));
    LinkedStays(s, WithSusp(s, t, k.susp + 1));
    ReschedLinked(WithSusp(s, t, k.susp + 1));
  }

  lemma ResumeLinked(s: Kernel, t: Tid)
    requires Inv(s) && Linked(s) && t < |s.tasks|
    ensures Linked(TaskResume(s, t).k)
  {
    hide Wf, WaitOk, ReadyOk, TickOk, OwnOk, Signals, Inherits, IdleOk, Linked, Resched, Move;
    var k := s.tasks[t];
    var n := if k.susp == 0 then MAX_SUSPEND else k.susp - 1;
    var s1 := WithSusp(s, t, n);
    WithSuspWf(s, t, n);
    LinkedStays(s, s1);
    ReschedLinked(s1);
    var st := if k.st == Susp then Rdy else if k.st == SleepSusp then Sleep else Pend;
    MoveLinks(s1, t, st, k.wake);
    LinkedStays(s1, Move(s1, t, st, k.wake));
    ReschedLinked(Move(s1, t, st, k.wake));
  }

  lemma PriLinked(s: Kernel, t: Tid, pri: nat)
    requires Inv(s) && Linked(s) && t < |s.tasks|
    ensures Linked(TaskPriChange(s, t, pri).k)
  {
    hide Wf, WaitOk, ReadyOk, TickOk, OwnOk, Signals, Inherits, IdleOk, Linked, Resched, PriChange, PriLimit;
    var k := s.tasks[t];
    if k.prio < IDLE_PRI && pri < IDLE_PRI && k.st != Deleted {
      var s1, p := WithBase(s, t, pri), PriLimit(s, k.held, pri);
      WithBaseAgree(s, t, pri);
      PriChangeAgree(s1, t, p);
      OnlyPrioLinks(s1, PriChange(s1, t, p));
      LinkedStays(s, s1);
      LinkedStays(s1, PriChange(s1, t, p));
      ReschedLinked(PriChange(s1, t, p));
    }
  }

  lemma AbortLinked(s: Kernel, t: Tid)
    requires Inv(s) && Linked(s) && t < |s.tasks|
    ensures Linked(WaitAbort(s, t).k)
  {
    hide WaitOk, ReadyOk, TickOk, OwnOk, Signals, Inherits, IdleOk, Linked, Resched, Move, Leave, LinksStay;
    var k := s.tasks[t];
    assert TaskWf(s, k);
    ReschedLinked(s);
    if k.st == Susp {
      MoveLinks(s, t, Rdy, k.wake);
      LinkedStays(s, Move(s, t, Rdy, k.wake));
      ReschedLinked(Move(s, t, Rdy, k.wake));
    } else if k.st != Rdy && k.st != Deleted {
      LeaveLinks(s, t, Rdy, Abort);
      LinkedStays(s, Leave(s, t, Rdy, Abort));
      ReschedLinked(Leave(s, t, Rdy, Abort));
    }
  }

  lemma TickLinked(s: Kernel, n: nat)
    requires Inv(s) && Linked(s)
    ensures Linked(TickUpdate(s, n).k)
  {
    hide Wf, WaitOk, ReadyOk, TickOk, OwnOk, Signals, Inherits, IdleOk, Linked, Resched, ExpireDue;
    var s1 := s.(now := (s.now + n) % TICK_RANGE);
    CoreFrame(s, s1);
    LinkedStays(s, s1);
    ExpireLinks(s1);
    LinkedStays(s1, ExpireDue(s1));
    ReschedLinked(ExpireDue(s1));
  }

  /** Deleting a task keeps the links in order where it keeps the rest of the invariant. */
  lemma TaskDelLinked(s: Kernel, t: Tid)
    requires Inv(s) && Linked(s) && t < |s.tasks|
    requires s.tasks[t].Live() || s.tasks[t].prio == IDLE_PRI || Unreached(s, t)
    ensures Linked(TaskDel(s, t).k)
  {
    hide Wf, WaitOk, ReadyOk, TickOk, OwnOk, Signals, Inherits, IdleOk, Resched, Leave, FreeMutexes, FreeStale, StaleList, LinksStay;
    if s.tasks[t].prio == IDLE_PRI || (t == s.active && s.lock > 0) {
    } else if s.tasks[t].Live() {
      LiveDelLinked(s, t);
    } else {
      assert LinkOk(s, s.tasks[t].stale);
      var path := StaleList(s, s.tasks[t].stale, |s.objs|);
      StaleKinds(s, s.tasks[t].stale, |s.objs|);
      StaleListWf(s, s.tasks[t].stale, |s.objs|);
      FreeStaleLinks(s, path);
      LinkedStays(s, FreeStale(s, path));
    }
  }

  lemma LiveDelLinked(s: Kernel, t: Tid)
    requires Inv(s) && Linked(s) && t < |s.tasks| && s.tasks[t].Live()
    requires s.tasks[t].prio != IDLE_PRI && !(t == s.active && s.lock > 0)
    ensures Linked(TaskDel(s, t).k)
  {
    hide Wf, WaitOk, ReadyOk, TickOk, OwnOk, Signals, Inherits, IdleOk, Resched, Leave, FreeMutexes, LinksStay, Linked;
    var s0, why := WithStale(s, t), s.tasks[t].wake;
    WithStaleAgree(s, t);
    WithStaleLinked(s, t);
    FreeMutexesLinked(s0, t);
    var s1 := FreeMutexes(s0, t);
    OwnsNothing(s1, t);
    LeaveLinks(s1, t, Deleted, why);
    LinkedStays(s1, Leave(s1, t, Deleted, why));
    ReschedLinked(Leave(s1, t, Deleted, why));
  }
}
