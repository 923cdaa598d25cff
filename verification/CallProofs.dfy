/** The remaining kernel calls keep the kernel invariant. */
module CallProofs {
  import opened Flags
  import opened Lists
  import opened KernelState
  import opened PriorityChain
  import opened KernelLists
  import opened KernelInv
  import opened KernelSteps
  import opened KernelProofs
  import opened MutexProofs

  /** No owner of a mutex notices this state change. */
  ghost predicate Unnoticed(s: Kernel, t: Tid, st: TaskState) {
    t < |s.tasks| && (s.tasks[t].blk.None? || st == Pend || st == PendSusp ||
      (s.tasks[t].blk.value < |s.objs| && s.objs[s.tasks[t].blk.value].kind != Mutex))
  }

  lemma MoveInherits(s: Kernel, t: Tid, st: TaskState, why: WakeReason)
    requires Agree(s) && CanMove(s, t, st) && Unnoticed(s, t, st) && st != Deleted && Inherits(s, Bases(s.tasks))
    ensures Inherits(Move(s, t, st, why), Bases(Move(s, t, st, why).tasks))
  {
    hide WaitOk, ReadyOk, TickOk, OwnOk;
    var s1 := Move(s, t, st, why);
    forall u | 0 <= u < |s.tasks| && s1.tasks[u].Live() ensures SameTops(s, s1, u) {
      MoveUnnoticed(s, t, st, why, u);
    }
    InheritsFrame(s, s1);
  }

  lemma MoveUnnoticed(s: Kernel, t: Tid, st: TaskState, why: WakeReason, u: Tid)
    requires Agree(s) && CanMove(s, t, st) && Unnoticed(s, t, st)
    ensures SameTops(s, Move(s, t, st, why), u)
  {
    if WaitsFor(s, t, u) {
      assert Move(s, t, st, why).objs == s.objs;
      assert forall m: Oid :: Waited(Move(s, t, st, why), m) <==> Waited(s, m);
    } else {
      MoveOthers(s, t, st, why, u);
    }
  }

  lemma MoveCore(s: Kernel, t: Tid, st: TaskState, why: WakeReason)
    requires Core(s) && CanMove(s, t, st) && Unnoticed(s, t, st) && t != IDLE && st != Deleted
    ensures Core(Move(s, t, st, why))
  {
    hide WaitOk, ReadyOk, TickOk, OwnOk, Signals, Inherits;
    MoveAgree(s, t, st, why);
    MoveSignals(s, t, st, why);
    MoveInherits(s, t, st, why);
  }

  // ------------------------------------------------------ semaphores and events

  /** A task waiting on `o`, woken: `o` is not a mutex. */
  lemma WakeCore(s: Kernel, o: Oid, t: Tid, why: WakeReason)
    requires Core(s) && o < |s.objs| && s.objs[o].kind != Mutex && t < |s.tasks| && s.tasks[t].blk == Some(o)
    ensures Core(Wake(s, t, why)) && Wake(s, t, why).active == s.active && Wake(s, t, why).lock == s.lock
  {
    hide WaitOk, ReadyOk, TickOk, OwnOk, Signals, Inherits;
    assert TaskWf(s, s.tasks[t]);
    MoveCore(s, t, WakeState(s.tasks[t]), why);
  }

  /** What waking everyone on `o` leaves alone. */
  ghost predicate WokenAll(s: Kernel, r: Kernel, o: Oid) {
    && |r.tasks| == |s.tasks| && |r.objs| == |s.objs| && o < |s.objs|
    && r.objs[o] == s.objs[o].(waiters := [])
    && (forall m :: 0 <= m < |s.objs| && m != o ==> r.objs[m] == s.objs[m])
    && (forall t :: 0 <= t < |s.tasks| ==> SameWish(s.tasks[t], r.tasks[t]))
    && r.active == s.active && r.lock == s.lock
  }

  ghost predicate SameWish(k: Task, k1: Task) {
    k1.pendFlags == k.pendFlags && k1.pendAnd == k.pendAnd && k1.pendClear == k.pendClear
      && (k.st == Rdy ==> k1.st == Rdy)
  }

  lemma WakeOneFrame(s: Kernel, o: Oid, t: Tid, why: WakeReason)
    requires Agree(s) && o < |s.objs| && t < |s.tasks| && s.tasks[t].blk == Some(o)
    requires s.objs[o].waiters != [] && t == s.objs[o].waiters[0]
    ensures var r := Wake(s, t, why);
            && r.objs[o] == s.objs[o].(waiters := s.objs[o].waiters[1..])
            && (forall m :: 0 <= m < |s.objs| && m != o ==> r.objs[m] == s.objs[m])
            && (forall u :: 0 <= u < |s.tasks| ==> SameWish(s.tasks[u], r.tasks[u]))
            && r.active == s.active && r.lock == s.lock
  {
    assert TaskWf(s, s.tasks[t]);
    WithoutHead(s.objs[o].waiters);
  }

  lemma {:induction false} WakeAllKeeps(s: Kernel, o: Oid, why: WakeReason)
    requires Agree(s) && o < |s.objs| && s.objs[o].kind != Mutex && IdleOk(s) && Inherits(s, Bases(s.tasks))
    ensures IdleOk(WakeAll(s, o, why)) && Inherits(WakeAll(s, o, why), Bases(WakeAll(s, o, why).tasks))
    ensures WokenAll(s, WakeAll(s, o, why), o)
    decreases |s.objs[o].waiters|
  {
    hide Wf, WaitOk, ReadyOk, TickOk, OwnOk, Inherits, Wake;
    if s.objs[o].waiters != [] {
      var t := First(s, o);
      WakeInherits(s, o, t, why);
      WakeAgree(s, t, why);
      WakeOneFrame(s, o, t, why);
      WakeIdle(s, t, why);
      WakeAllKeeps(Wake(s, t, why), o, why);
    }
  }

  lemma WakeInherits(s: Kernel, o: Oid, t: Tid, why: WakeReason)
    requires Agree(s) && Inherits(s, Bases(s.tasks)) && o < |s.objs| && s.objs[o].kind != Mutex && t < |s.tasks| && s.tasks[t].blk == Some(o)
    ensures Inherits(Wake(s, t, why), Bases(Wake(s, t, why).tasks))
  {
    hide WaitOk, ReadyOk, TickOk, OwnOk, Inherits, Move;
    assert TaskWf(s, s.tasks[t]);
    MoveInherits(s, t, WakeState(s.tasks[t]), why);
  }

  lemma WakeIdle(s: Kernel, t: Tid, why: WakeReason)
    requires Agree(s) && IdleOk(s) && t < |s.tasks| && s.tasks[t].Pending()
    ensures IdleOk(Wake(s, t, why))
  {}

  /** Waking everyone keeps the core invariant if nothing is left signalled at `o`. */
  lemma WakeAllCore(s: Kernel, r: Kernel, o: Oid)
    requires WokenAll(s, r, o) && Agree(r) && IdleOk(r) && Inherits(r, Bases(r.tasks))
    requires forall m :: 0 <= m < |s.objs| && m != o ==> SignalOk(s, s.objs[m])
    ensures Core(r)
  {
    hide Wf, WaitOk, ReadyOk, TickOk, OwnOk, Inherits;
    assert forall t :: 0 <= t < |s.tasks| ==> SameWish(s.tasks[t], r.tasks[t]);
    forall m | 0 <= m < |r.objs| ensures SignalOk(r, r.objs[m]) {
      if m != o {
        assert SignalOk(s, s.objs[m]);
      }
    }
  }

  lemma SemTakeInv(s: Kernel, o: Oid, ticks: nat)
    requires Inv(s) && o < |s.objs| && (s.active == IDLE ==> ticks == NO_WAIT)
    ensures Inv(SemTake(s, o, ticks).k)
  {
    hide Wf, WaitOk, ReadyOk, TickOk, OwnOk, Signals, Inherits, Block, Resched;
    var b := s.objs[o];
    SignalAt(s, o);
    if b.kind == Sem && b.count > 0 {
      ObjInv(s, o, b.(count := b.count - 1));
    } else if b.kind == Sem && ticks != NO_WAIT && s.lock == 0 {
      BlockCore(s, o, s.active, ticks);
      ReschedInv(Block(s, o, s.active, ticks));
    }
  }

  lemma SignalAt(s: Kernel, o: Oid)
    requires Signals(s) && o < |s.objs|
    ensures SignalOk(s, s.objs[o])
  {}

  lemma SemGiveInv(s: Kernel, o: Oid, all: bool)
    requires Inv(s) && o < |s.objs|
    ensures Inv(SemGive(s, o, all).k)
  {
    hide Wf, WaitOk, ReadyOk, TickOk, OwnOk, Inherits, Resched, Move;
    var b := s.objs[o];
    SignalAt(s, o);
    if b.kind == Sem && b.waiters == [] {
      ObjInv(s, o, b.(count := b.count + 1));
    } else if b.kind == Sem && all {
      WakeAllKeeps(s, o, Finish);
      WakeAllCore(s, WakeAll(s, o, Finish), o);
      assert SameWish(s.tasks[s.active], WakeAll(s, o, Finish).tasks[s.active]);
      ReschedInv(WakeAll(s, o, Finish));
    } else if b.kind == Sem {
      WakeCore(s, o, First(s, o), Finish);
      WakeOneFrame(s, o, First(s, o), Finish);
      assert SameWish(s.tasks[s.active], Wake(s, First(s, o), Finish).tasks[s.active]);
      ReschedInv(Wake(s, First(s, o), Finish));
    }
  }

  lemma SemCountSetInv(s: Kernel, o: Oid, n: nat)
    requires Inv(s) && o < |s.objs|
    ensures Inv(SemCountSet(s, o, n).k)
  {
    hide Wf, WaitOk, ReadyOk, TickOk, OwnOk, Inherits, Signals;
    SignalAt(s, o);
    var b := s.objs[o];
    if b.kind == Sem && (b.count > 0 || b.waiters == []) {
      ObjInv(s, o, b.(count := n));
    }
  }

  /** Fewer flags satisfy fewer waiters. */
  lemma MatchesMono(flags: bv32, cur: bv32, want: bv32, all: bool)
    requires Within(flags, cur) && !Matches(cur, want, all)
    ensures !Matches(flags, want, all)
  {}

  /** Every flag set in `flags` is set in `cur`. */
  predicate Within(flags: bv32, cur: bv32) {
    flags & cur == flags
  }

  lemma WithinClear(flags: bv32, cur: bv32, f: bv32)
    requires Within(flags, cur)
    ensures Within(ClearFlags(flags, f), cur)
  {}

  lemma WithinAnd(flags: bv32, f: bv32)
    ensures Within(KeepFlags(flags, f), flags) && Within(flags, flags)
  {}

  /** The state of the loop in `event_set` with `ws` still to be visited. */
  ghost predicate EventLoop(s: Kernel, o: Oid, ws: seq<Tid>, cur: bv32) {
    && Agree(s) && IdleOk(s) && Inherits(s, Bases(s.tasks))
    && o < |s.objs| && s.objs[o].kind == Event && Within(s.objs[o].flags, cur)
    && NoDup(ws) && (forall t :: t in ws ==> t in s.objs[o].waiters)
    && (forall t :: t in s.objs[o].waiters && t !in ws && t < |s.tasks| ==>
          !Matches(cur, s.tasks[t].pendFlags, s.tasks[t].pendAnd))
  }

  /** What the loop leaves alone. */
  ghost predicate EventFrame(s: Kernel, r: Kernel, o: Oid) {
    && |r.tasks| == |s.tasks| && |r.objs| == |s.objs|
    && (forall m :: 0 <= m < |s.objs| && m != o ==> r.objs[m] == s.objs[m])
    && (forall t :: 0 <= t < |s.tasks| ==> SameWish(s.tasks[t], r.tasks[t]))
    && r.active == s.active && r.lock == s.lock
  }

  lemma EventFrameTrans(a: Kernel, b: Kernel, c: Kernel, o: Oid)
    requires EventFrame(a, b, o) && EventFrame(b, c, o)
    ensures EventFrame(a, c, o)
  {
    forall t | 0 <= t < |a.tasks| ensures SameWish(a.tasks[t], c.tasks[t]) {
      assert SameWish(a.tasks[t], b.tasks[t]) && SameWish(b.tasks[t], c.tasks[t]);
    }
  }

  lemma EventOneFrame(s: Kernel, o: Oid, t: Tid, cur: bv32)
    requires Agree(s) && o < |s.objs| && t < |s.tasks| && s.tasks[t].blk == Some(o)
    ensures EventFrame(s, EventWakeOne(s, o, t, cur), o)
    ensures var b := EventWakeOne(s, o, t, cur).objs[o];
            b.kind == s.objs[o].kind && (b.flags == s.objs[o].flags || b.flags == ClearFlags(s.objs[o].flags, s.tasks[t].pendFlags))
  {
    hide Matches, Within, ClearFlags, KeepFlags, AddFlags, WaitOk, ReadyOk, TickOk, OwnOk;
    assert TaskWf(s, s.tasks[t]);
    EventWakeOneAgree(s, o, t, cur);
  }

  /** Recording the flags and clearing some changes no list. */
  lemma EventOneTops(s: Kernel, o: Oid, t: Tid, cur: bv32, u: Tid)
    requires Wf(s) && o < |s.objs| && t < |s.tasks| && s.tasks[t].blk == Some(o)
    ensures SameTops(Wake(s, t, Finish), EventWakeOne(s, o, t, cur), u)
    ensures forall v :: 0 <= v < |s.tasks| ==>
              EventWakeOne(s, o, t, cur).tasks[v] ==
                Wake(s, t, Finish).tasks[v].(got := EventWakeOne(s, o, t, cur).tasks[v].got)
  {
    hide Wf, ClearFlags, Move;
  }

  lemma EventOneKeeps(s: Kernel, o: Oid, t: Tid, cur: bv32)
    requires Agree(s) && IdleOk(s) && Inherits(s, Bases(s.tasks)) && o < |s.objs| && s.objs[o].kind == Event
    requires t < |s.tasks| && s.tasks[t].blk == Some(o)
    ensures IdleOk(EventWakeOne(s, o, t, cur))
    ensures Inherits(EventWakeOne(s, o, t, cur), Bases(EventWakeOne(s, o, t, cur).tasks))
  {
    assert TaskWf(s, s.tasks[t]);
    hide Wf, WaitOk, ReadyOk, TickOk, OwnOk, Inherits, Move, EventWakeOne;
    var s1, r := Wake(s, t, Finish), EventWakeOne(s, o, t, cur);
    MoveInherits(s, t, WakeState(s.tasks[t]), Finish);
    WakeIdle(s, t, Finish);
    forall u: Tid ensures SameTops(s1, r, u) {
      EventOneTops(s, o, t, cur, u);
    }
    EventOneTops(s, o, t, cur, t);
    InheritsFrame(s1, r);
  }

  /** The loop of `event_set` wakes every waiter whose condition the snapshot meets, and clearing
      flags on the way leaves the others unsatisfied. */
  lemma {:induction false} EventWakeKeeps(s: Kernel, o: Oid, ws: seq<Tid>, cur: bv32)
    requires EventLoop(s, o, ws, cur)
    ensures IdleOk(EventWake(s, o, ws, cur))
    ensures Inherits(EventWake(s, o, ws, cur), Bases(EventWake(s, o, ws, cur).tasks))
    ensures EventFrame(s, EventWake(s, o, ws, cur), o)
    ensures EventLoop(EventWake(s, o, ws, cur), o, [], cur)
    decreases |ws|
  {
    hide Matches, Within, ClearFlags, KeepFlags, AddFlags, ReadyOk, TickOk, OwnOk, Inherits, EventWakeOne;
    if ws != [] {
      var t := ws[0];
      assert t in ws && ObjWf(s, s.objs[o]);
      if Matches(cur, s.tasks[t].pendFlags, s.tasks[t].pendAnd) {
        EventPass(s, o, ws, cur);
        var s1 := EventWakeOne(s, o, t, cur);
        EventWakeKeeps(s1, o, ws[1..], cur);
        EventOneFrame(s, o, t, cur);
        EventFrameTrans(s, s1, EventWake(s1, o, ws[1..], cur), o);
      } else {
        EventWakeKeeps(s, o, ws[1..], cur);
      }
    }
  }

  lemma EventPass(s: Kernel, o: Oid, ws: seq<Tid>, cur: bv32)
    requires EventLoop(s, o, ws, cur) && ws != [] && ws[0] < |s.tasks| && s.tasks[ws[0]].blk == Some(o)
    ensures EventLoop(EventWakeOne(s, o, ws[0], cur), o, ws[1..], cur)
  {
    hide Matches, Within, ClearFlags, KeepFlags, AddFlags, ReadyOk, TickOk, OwnOk, Inherits, EventWakeOne;
    var t := ws[0];
    var r := EventWakeOne(s, o, t, cur);
    EventWakeOneAgree(s, o, t, cur);
    EventOneFrame(s, o, t, cur);
    EventOneKeeps(s, o, t, cur);
    WithinClear(s.objs[o].flags, cur, s.tasks[t].pendFlags);
    assert ListOk(s, s.objs[o].waiters);
    WithoutNoDup(s.objs[o].waiters, t);
    forall u | u in r.objs[o].waiters && u !in ws[1..] && u < |r.tasks|
      ensures !Matches(cur, r.tasks[u].pendFlags, r.tasks[u].pendAnd)
    {
      assert SameWish(s.tasks[u], r.tasks[u]) && u != t;
      assert u !in ws;
    }
  }

  lemma EventSetInv(s: Kernel, o: Oid, flags: bv32, clearOthers: bool)
    requires Inv(s) && o < |s.objs|
    ensures Inv(EventSet(s, o, flags, clearOthers).k)
  {
    hide Matches, Within, ClearFlags, KeepFlags, AddFlags, Wf, WaitOk, ReadyOk, TickOk, OwnOk, Inherits, Resched;
    var b := s.objs[o];
    SignalAt(s, o);
    WithinAnd(b.flags, flags);
    if b.kind == Event && clearOthers {
      forall t | t in b.waiters && t < |s.tasks|
        ensures !Matches(KeepFlags(b.flags, flags), s.tasks[t].pendFlags, s.tasks[t].pendAnd)
      {
        MatchesMono(KeepFlags(b.flags, flags), b.flags, s.tasks[t].pendFlags, s.tasks[t].pendAnd);
      }
      ObjInv(s, o, b.(flags := KeepFlags(b.flags, flags)));
    } else if b.kind == Event {
      EventSetWakes(s, o, flags);
    }
  }

  lemma EventSetWakes(s: Kernel, o: Oid, flags: bv32)
    requires Inv(s) && o < |s.objs| && s.objs[o].kind == Event
    ensures Inv(EventSet(s, o, flags, false).k)
  {
    hide Matches, Within, ClearFlags, KeepFlags, AddFlags, Wf, WaitOk, ReadyOk, TickOk, OwnOk, Inherits, Resched;
    var cur := AddFlags(s.objs[o].flags, flags);
    var s1 := SetObj(s, o, s.objs[o].(flags := cur));
    var ws := s.objs[o].waiters;
    WithinAnd(cur, cur);
    FlagsAgree(s, o, cur);
    ObjTops(s, o, s.objs[o].(flags := cur));
    InheritsFrame(s, s1);
    WaitersDistinct(s, o);
    EventWakeKeeps(s1, o, ws, cur);
    var r := EventWake(s1, o, ws, cur);
    assert SameWish(s1.tasks[s.active], r.tasks[s.active]);
    EventSignals(s, r, o, cur);
    ReschedInv(r);
  }

  lemma WaitersDistinct(s: Kernel, o: Oid)
    requires Agree(s) && o < |s.objs|
    ensures NoDup(s.objs[o].waiters)
  {
    assert ListOk(s, s.objs[o].waiters);
  }

  lemma EventSignals(s: Kernel, r: Kernel, o: Oid, cur: bv32)
    requires Signals(s) && EventFrame(s, r, o) && EventLoop(r, o, [], cur)
    ensures Signals(r)
  {
    hide Matches, Within, ClearFlags, KeepFlags, AddFlags, Wf, WaitOk, ReadyOk, TickOk, OwnOk, Inherits;
    forall m | 0 <= m < |r.objs| ensures SignalOk(r, r.objs[m]) {
      if m != o {
        assert SignalOk(s, s.objs[m]);
        assert forall t :: 0 <= t < |s.tasks| ==> SameWish(s.tasks[t], r.tasks[t]);
      } else {
        forall t | t in r.objs[o].waiters && t < |r.tasks|
          ensures !Matches(r.objs[o].flags, r.tasks[t].pendFlags, r.tasks[t].pendAnd)
        {
          MatchesMono(r.objs[o].flags, cur, r.tasks[t].pendFlags, r.tasks[t].pendAnd);
        }
      }
    }
  }

  lemma EventGetInv(s: Kernel, o: Oid, flags: bv32, all: bool, clear: bool, ticks: nat)
    requires Inv(s) && o < |s.objs| && (s.active == IDLE ==> ticks == NO_WAIT)
    ensures Inv(EventGet(s, o, flags, all, clear, ticks).k)
  {
    hide Wf, WaitOk, ReadyOk, TickOk, OwnOk, Inherits, Signals, Resched, Matches, ClearFlags, Block;
    var a, b := s.active, s.objs[o];
    if b.kind == Event && Matches(b.flags, flags, all) {
      EventTake(s, o, b.flags, if clear then ClearFlags(b.flags, flags) else b.flags, flags);
    } else if b.kind == Event && ticks != NO_WAIT && s.lock == 0 {
      var s1 := Want(s, a, flags, all, clear);
      WantAgree(s, a, flags, all, clear);
      WantSignals(s, a, flags, all, clear);
      assert forall u: Tid :: SameTops(s, s1, u);
      InheritsFrame(s, s1);
      BlockCore(s1, o, a, ticks);
      ReschedInv(Block(s1, o, a, ticks));
    }
  }

  /** A ready task waits for nothing, so its wish is not looked at. */
  lemma WantSignals(s: Kernel, t: Tid, flags: bv32, all: bool, clear: bool)
    requires Agree(s) && Signals(s) && t < |s.tasks| && s.tasks[t].st == Rdy
    ensures Signals(Want(s, t, flags, all, clear))
  {
    hide ReadyOk, TickOk, OwnOk, Matches;
    var s1 := Want(s, t, flags, all, clear);
    assert TaskWf(s, s.tasks[t]);
    forall m | 0 <= m < |s1.objs| ensures SignalOk(s1, s1.objs[m]) {
      assert SignalOk(s, s.objs[m]);
      assert t !in s.objs[m].waiters;
    }
  }

  /** `krhino_event_get` when the condition holds. */
  lemma EventTake(s: Kernel, o: Oid, got: bv32, left: bv32, flags: bv32)
    requires Inv(s) && o < |s.objs| && s.objs[o].kind == Event
    requires left == s.objs[o].flags || left == ClearFlags(s.objs[o].flags, flags)
    ensures Inv(SetObj(SetTask(s, s.active, s.tasks[s.active].(got := got)), o, s.objs[o].(flags := left)))
  {
    hide Wf, WaitOk, ReadyOk, TickOk, OwnOk, Inherits, Matches, ClearFlags, Within;
    var b := s.objs[o];
    SignalAt(s, o);
    WithinAnd(b.flags, b.flags);
    WithinClear(b.flags, b.flags, flags);
    forall t | t in b.waiters && t < |s.tasks|
      ensures !Matches(left, s.tasks[t].pendFlags, s.tasks[t].pendAnd)
    {
      MatchesMono(left, b.flags, s.tasks[t].pendFlags, s.tasks[t].pendAnd);
    }
    ObjInv(s, o, b.(flags := left));
    GotInv(SetObj(s, o, b.(flags := left)), s.active, got);
    assert SetObj(SetTask(s, s.active, s.tasks[s.active].(got := got)), o, b.(flags := left)) ==
           SetTask(SetObj(s, o, b.(flags := left)), s.active, s.tasks[s.active].(got := got));
  }

  lemma GotInv(s: Kernel, t: Tid, got: bv32)
    requires Inv(s) && t < |s.tasks|
    ensures Inv(SetTask(s, t, s.tasks[t].(got := got)))
  {
    hide Wf, WaitOk, ReadyOk, TickOk, OwnOk, Inherits, Signals;
    var s1 := SetTask(s, t, s.tasks[t].(got := got));
    GotAgree(s, t, got);
    SignalsFrame(s, s1);
    assert forall u: Tid :: SameTops(s, s1, u);
    InheritsFrame(s, s1);
  }
}
