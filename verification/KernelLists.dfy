/** Every state change keeps the lists in agreement with the task states. */
module KernelLists {
  import opened Lists
  import opened ReadyQueue
  import opened KernelState

  /** When `Move` is a change the kernel makes. */
  ghost predicate CanMove(s: Kernel, t: Tid, st: TaskState) {
    && t < |s.tasks| && s.tasks[t].Live()
    && (st == Pend || st == PendSusp ==> s.tasks[t].blk.Some?)
    && (s.tasks[t].blk.Some? ==> st != Sleep && st != SleepSusp)
    && (st == Sleep || st == SleepSusp ==> t in s.ticks)
    && (st == Deleted ==> forall o :: !Owns(s, t, o))
    && (s.tasks[t].st == Rdy ==> st != Rdy)
  }

  lemma MoveWf(s: Kernel, t: Tid, st: TaskState, why: WakeReason)
    requires Wf(s) && CanMove(s, t, st)
    ensures Wf(Move(s, t, st, why))
  {
    var s1 := Move(s, t, st, why);
    forall u | 0 <= u < |s1.tasks| ensures TaskWf(s1, s1.tasks[u]) {
      assert TaskWf(s, s.tasks[u]);
    }
    forall o | 0 <= o < |s1.objs| ensures ObjWf(s1, s1.objs[o]) {
      assert ObjWf(s, s.objs[o]);
    }
  }

  lemma MoveWait(s: Kernel, t: Tid, st: TaskState, why: WakeReason)
    requires Wf(s) && WaitOk(s) && CanMove(s, t, st)
    ensures WaitOk(Move(s, t, st, why))
  {
    var s1 := Move(s, t, st, why);
    assert TaskWf(s, s.tasks[t]);
    assert Prios(s1.tasks) == Prios(s.tasks);
    forall o | 0 <= o < |s1.objs| ensures ListOk(s1, s1.objs[o].waiters) {
      assert ListOk(s, s.objs[o].waiters);
      WithoutNoDup(s.objs[o].waiters, t);
      WithoutSorted(Prios(s.tasks), s.objs[o].waiters, t);
    }
    forall o, u | 0 <= o < |s1.objs| && 0 <= u < |s1.tasks|
      ensures u in s1.objs[o].waiters <==> s1.tasks[u].blk == Some(o)
    {
      assert ListOk(s, s.objs[o].waiters);
      WithoutNoDup(s.objs[o].waiters, t);
    }
  }

  lemma MoveReady(s: Kernel, t: Tid, st: TaskState, why: WakeReason)
    requires Wf(s) && ReadyOk(s) && CanMove(s, t, st)
    ensures ReadyOk(Move(s, t, st, why))
  {
    var s1 := Move(s, t, st, why);
    var p := s.tasks[t].prio;
    assert TaskWf(s, s.tasks[t]);
    WithoutNoDup(s.ready[p], t);
    if st == Rdy {
      NoDupSnoc(s.ready[p], t);
    }
  }

  lemma NoDupSnoc<T>(xs: seq<T>, x: T)
    requires NoDup(xs) && x !in xs
    ensures NoDup(xs + [x])
  {}

  lemma MoveTick(s: Kernel, t: Tid, st: TaskState, why: WakeReason)
    requires Wf(s) && TickOk(s) && CanMove(s, t, st)
    ensures TickOk(Move(s, t, st, why))
  {
    hide Wf;
    WithoutNoDup(s.ticks, t);
  }

  lemma MoveOwn(s: Kernel, t: Tid, st: TaskState, why: WakeReason)
    requires Wf(s) && OwnOk(s) && CanMove(s, t, st)
    ensures OwnOk(Move(s, t, st, why))
  {
    var s1 := Move(s, t, st, why);
    assert TaskWf(s, s.tasks[t]);
    forall o | 0 <= o < |s1.objs| ensures OwnerOk(s1, s1.objs[o]) {
      assert OwnerOk(s, s.objs[o]) && ObjWf(s, s.objs[o]);
      assert !Owns(s, t, o) || st != Deleted;
    }
    forall u, o | 0 <= u < |s1.tasks| && s1.tasks[u].Live() && 0 <= o < |s1.objs|
      ensures o in s1.tasks[u].held <==> Owns(s1, u, o)
    {
      assert o in s.tasks[u].held <==> Owns(s, u, o);
    }
  }

  /** Every state change of a task keeps the lists in agreement. */
  lemma MoveAgree(s: Kernel, t: Tid, st: TaskState, why: WakeReason)
    requires Agree(s) && CanMove(s, t, st)
    ensures Agree(Move(s, t, st, why))
  {
    MoveWf(s, t, st, why);
    MoveWait(s, t, st, why);
    MoveReady(s, t, st, why);
    MoveTick(s, t, st, why);
    MoveOwn(s, t, st, why);
  }

  /** `t` may be put on the wait list of `o`: it is ready, and the object can wake it. */
  ghost predicate CanBlock(s: Kernel, o: Oid, t: Tid) {
    && t < |s.tasks| && s.tasks[t].st == Rdy && o < |s.objs|
    && (s.objs[o].kind == Mutex ==> s.objs[o].owner.Some? && s.objs[o].owner != Some(t))
  }

  lemma BlockWf(s: Kernel, o: Oid, t: Tid, ticks: nat)
    requires Wf(s) && TickOk(s) && CanBlock(s, o, t)
    ensures Wf(Block(s, o, t, ticks))
  {
    var s1 := Block(s, o, t, ticks);
    forall u | 0 <= u < |s1.tasks| ensures TaskWf(s1, s1.tasks[u]) {
      assert TaskWf(s, s.tasks[u]);
    }
    forall m | 0 <= m < |s1.objs| ensures ObjWf(s1, s1.objs[m]) {
      assert ObjWf(s, s.objs[m]);
    }
  }

  lemma BlockWait(s: Kernel, o: Oid, t: Tid, ticks: nat)
    requires Wf(s) && WaitOk(s) && TickOk(s) && CanBlock(s, o, t)
    ensures WaitOk(Block(s, o, t, ticks))
  {
    var s1 := Block(s, o, t, ticks);
    assert TaskWf(s, s.tasks[t]);
    assert Prios(s1.tasks) == Prios(s.tasks);
    forall m | 0 <= m < |s1.objs| ensures ListOk(s1, s1.objs[m].waiters) {
      assert ListOk(s, s.objs[m].waiters);
      if m == o {
        InsertNoDup(Prios(s.tasks), s.objs[o].waiters, s.tasks[t].prio, t);
        InsertSorted(Prios(s.tasks), s.objs[o].waiters, t);
      }
    }
  }

  lemma BlockTick(s: Kernel, o: Oid, t: Tid, ticks: nat)
    requires Wf(s) && TickOk(s) && CanBlock(s, o, t)
    ensures TickOk(Block(s, o, t, ticks))
  {
    hide Wf, Block, Insert, Remaining;
    BlockTicksNoDup(s, o, t, ticks);
    BlockOnly(s, o, t, ticks);
    TimedOnly(s, Block(s, o, t, ticks), t);
  }

  lemma BlockTicksNoDup(s: Kernel, o: Oid, t: Tid, ticks: nat)
    requires Wf(s) && TickOk(s) && CanBlock(s, o, t)
    ensures NoDup(Block(s, o, t, ticks).ticks)
  {
    hide Wf, Insert, Remaining, NoDup;
    TicksKeyed(s);
    if ticks != WAIT_FOREVER {
      var ts := s.tasks[t := s.tasks[t].(expires := (s.now + ticks) % TICK_RANGE)];
      InsertNoDup(Remains(ts, s.now), s.ticks, ticks, t);
    }
  }

  /** What blocking does to the task table and the tick list. */
  lemma BlockOnly(s: Kernel, o: Oid, t: Tid, ticks: nat)
    requires Wf(s) && TickOk(s) && CanBlock(s, o, t)
    ensures var r := Block(s, o, t, ticks);
            && r.tasks[t].st == Pend && r.tasks[t].blk == Some(o)
            && r.tasks[t] == s.tasks[t].(st := Pend, blk := Some(o), expires := r.tasks[t].expires)
            && (forall u :: 0 <= u < |s.tasks| && u != t ==> r.tasks[u] == s.tasks[u])
            && (forall u :: u in r.ticks ==> u == t || u in s.ticks) && (forall u :: u in s.ticks ==> u in r.ticks)
            && (forall m :: 0 <= m < |s.objs| && m != o ==> r.objs[m] == s.objs[m])
            && r.objs[o] == s.objs[o].(waiters := r.objs[o].waiters)
  {
    hide WaitOk;
  }

  lemma TimedOnly(s: Kernel, r: Kernel, t: Tid)
    requires TickOk(s) && t < |s.tasks| == |r.tasks| && r.tasks[t].st == Pend && NoDup(r.ticks) && s.tasks[t].st == Rdy
    requires forall u :: 0 <= u < |s.tasks| && u != t ==> r.tasks[u] == s.tasks[u]
    requires (forall u :: u in r.ticks ==> u == t || u in s.ticks) && (forall u :: u in s.ticks ==> u in r.ticks)
    ensures TickOk(r)
  {}

  lemma BlockOwn(s: Kernel, o: Oid, t: Tid, ticks: nat)
    requires Wf(s) && OwnOk(s) && TickOk(s) && CanBlock(s, o, t)
    ensures OwnOk(Block(s, o, t, ticks))
  {
    var s1 := Block(s, o, t, ticks);
    forall m | 0 <= m < |s1.objs| ensures OwnerOk(s1, s1.objs[m]) {
      assert OwnerOk(s, s.objs[m]);
    }
    forall u, m | 0 <= u < |s1.tasks| && s1.tasks[u].Live() && 0 <= m < |s1.objs|
      ensures m in s1.tasks[u].held <==> Owns(s1, u, m)
    {
      assert m in s.tasks[u].held <==> Owns(s, u, m);
    }
  }

  lemma RemoveReady(s: Kernel, s1: Kernel, t: Tid)
    requires Wf(s) && ReadyOk(s) && t < |s.tasks| && s.tasks[t].st == Rdy
    requires |s1.tasks| == |s.tasks| && s1.tasks[t].st != Rdy && s1.ready == Remove(s.ready, s.tasks[t].prio, t)
    requires forall u :: 0 <= u < |s.tasks| && u != t ==> s1.tasks[u] == s.tasks[u]
    ensures ReadyOk(s1)
  {
    assert TaskWf(s, s.tasks[t]);
    WithoutNoDup(s.ready[s.tasks[t].prio], t);
  }

  /** Blocking on an object keeps the lists in agreement. */
  lemma BlockAgree(s: Kernel, o: Oid, t: Tid, ticks: nat)
    requires Agree(s) && CanBlock(s, o, t)
    ensures Agree(Block(s, o, t, ticks))
  {
    BlockWf(s, o, t, ticks);
    BlockWait(s, o, t, ticks);
    BlockTick(s, o, t, ticks);
    BlockOwn(s, o, t, ticks);
    RemoveReady(s, Block(s, o, t, ticks), t);
  }

  /** `s1` changes only fields that `Wf`, `WaitOk` and `OwnOk` do not read. */
  ghost predicate SameLinks(s: Kernel, s1: Kernel) {
    && |s1.tasks| == |s.tasks| && s1.objs == s.objs
    && (forall t :: 0 <= t < |s.tasks| ==> SameLink(s.tasks[t], s1.tasks[t]))
  }

  ghost predicate SameLink(k: Task, k1: Task) {
    && k1.prio == k.prio && k1.bprio == k.bprio && k1.blk == k.blk && k1.held == k.held
    && (k1.Pending() <==> k.Pending()) && (k1.Live() <==> k.Live())
  }

  lemma SameLinksAgree(s: Kernel, s1: Kernel)
    requires Wf(s) && WaitOk(s) && OwnOk(s) && SameLinks(s, s1)
    ensures Wf(s1) && WaitOk(s1) && OwnOk(s1)
  {
    forall u | 0 <= u < |s1.tasks| ensures TaskWf(s1, s1.tasks[u]) {
      assert TaskWf(s, s.tasks[u]) && SameLink(s.tasks[u], s1.tasks[u]);
    }
    forall m | 0 <= m < |s1.objs| ensures ObjWf(s1, s1.objs[m]) {
      assert ObjWf(s, s.objs[m]);
    }
    assert Prios(s1.tasks) == Prios(s.tasks) by {
      assert forall t :: 0 <= t < |s.tasks| ==> SameLink(s.tasks[t], s1.tasks[t]);
    }
    forall m | 0 <= m < |s1.objs| ensures ListOk(s1, s1.objs[m].waiters) && OwnerOk(s1, s1.objs[m]) {
      assert ListOk(s, s.objs[m].waiters) && OwnerOk(s, s.objs[m]) && ObjWf(s, s.objs[m]);
      assert s.objs[m].owner.Some? ==> SameLink(s.tasks[s.objs[m].owner.value], s1.tasks[s.objs[m].owner.value]);
    }
    assert forall t :: 0 <= t < |s.tasks| ==> SameLink(s.tasks[t], s1.tasks[t]);
  }

  lemma FallAsleepTick(s: Kernel, t: Tid, ticks: nat)
    requires Wf(s) && TickOk(s) && t < |s.tasks| && s.tasks[t].st == Rdy
    ensures TickOk(FallAsleep(s, t, ticks))
  {
    assert TaskWf(s, s.tasks[t]);
    TicksKeyed(s);
    var ts := s.tasks[t := s.tasks[t].(expires := (s.now + ticks) % TICK_RANGE)];
    InsertNoDup(Remains(ts, s.now), s.ticks, ticks, t);
  }

  /** Falling asleep keeps the lists in agreement. */
  lemma FallAsleepAgree(s: Kernel, t: Tid, ticks: nat)
    requires Agree(s) && t < |s.tasks| && s.tasks[t].st == Rdy
    ensures Agree(FallAsleep(s, t, ticks))
  {
    var s1 := FallAsleep(s, t, ticks);
    assert TaskWf(s, s.tasks[t]);
    SameLinksAgree(s, s1);
    RemoveReady(s, s1, t);
    FallAsleepTick(s, t, ticks);
  }

  /** `s1` has the same lists, and tasks in the same places on them. */
  ghost predicate SameLists(s: Kernel, s1: Kernel) {
    && |s1.tasks| == |s.tasks| && |s1.objs| == |s.objs| && s1.ready == s.ready && s1.ticks == s.ticks
    && (forall t :: 0 <= t < |s.tasks| ==> SamePlace(s.tasks[t], s1.tasks[t]))
    && (forall o :: 0 <= o < |s.objs| ==> s1.objs[o].waiters == s.objs[o].waiters)
  }

  ghost predicate SamePlace(k: Task, k1: Task) {
    k1.st == k.st && k1.prio == k.prio && k1.blk == k.blk
  }

  lemma SameListsAgree(s: Kernel, s1: Kernel)
    requires WaitOk(s) && ReadyOk(s) && TickOk(s) && SameLists(s, s1)
    ensures WaitOk(s1) && ReadyOk(s1) && TickOk(s1)
  {
    assert forall t :: 0 <= t < |s.tasks| ==> SamePlace(s.tasks[t], s1.tasks[t]);
    assert Prios(s1.tasks) == Prios(s.tasks);
    forall o | 0 <= o < |s1.objs| ensures ListOk(s1, s1.objs[o].waiters) {
      assert ListOk(s, s.objs[o].waiters);
    }
  }
}
