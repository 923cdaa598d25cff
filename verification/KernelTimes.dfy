/** The order of the tick list in the kernel state, and what each kind of step does to it. */
module KernelTimes {
  import opened Flags
  import opened Lists
  import opened KernelState
  import opened PriorityChain
  import opened KernelLists
  import opened KernelSteps
  import opened KernelProofs
  import opened CallProofs
  import TickList

  /** The ticks that the task has left. */
  function Left(s: Kernel, t: Tid): nat
    requires t < |s.tasks|
  {
    Remaining(s.tasks[t].expires, s.now)
  }

  ghost predicate Ahead(s: Kernel, t: Tid) {
    t < |s.tasks| && 0 < Left(s, t) <= MAX_TICKS
  }

  /** Every listed task has ticks left, at most half the range, and who has less of them comes first. */
  ghost predicate Ordered(s: Kernel) {
    && (forall t :: t in s.ticks ==> Ahead(s, t))
    && Keyed(Remains(s.tasks, s.now), s.ticks) && Sorted(Remains(s.tasks, s.now), s.ticks)
  }

  // ---------------------------------------------------------- what leaves times alone

  /** Elements may have gone, the rest is in the old order: whichever keys were sorted still are. */
  ghost predicate Thinned(xs: seq<Tid>, ys: seq<Tid>) {
    && (forall y :: y in ys ==> y in xs)
    && (forall keys :: Keyed(keys, xs) && Sorted(keys, xs) ==> Keyed(keys, ys) && Sorted(keys, ys))
  }

  lemma ThinWithout(xs: seq<Tid>, x: Tid)
    ensures Thinned(xs, Without(xs, x))
  {
    forall keys | Keyed(keys, xs) && Sorted(keys, xs) ensures Keyed(keys, Without(xs, x)) && Sorted(keys, Without(xs, x)) {
      WithoutSorted(keys, xs, x);
    }
  }

  /** No time changes, and who is still listed waits for what it waited for. */
  ghost predicate TimesStay(s: Kernel, r: Kernel) {
    && r.now == s.now && |s.tasks| <= |r.tasks| && Thinned(s.ticks, r.ticks)
    && (forall t :: 0 <= t < |s.tasks| ==> r.tasks[t].expires == s.tasks[t].expires)
    && (forall t :: t in r.ticks && t < |s.tasks| ==> r.tasks[t].blk == s.tasks[t].blk)
  }

  lemma TimesTrans(a: Kernel, b: Kernel, c: Kernel)
    requires TimesStay(a, b) && TimesStay(b, c)
    ensures TimesStay(a, c)
  {}

  lemma SameTimes(s: Kernel, r: Kernel)
    requires r.now == s.now && |s.tasks| <= |r.tasks| && r.ticks == s.ticks
    requires forall t :: 0 <= t < |s.tasks| ==> r.tasks[t].expires == s.tasks[t].expires && r.tasks[t].blk == s.tasks[t].blk
    ensures TimesStay(s, r)
  {}

  lemma OnlyPrioTimes(s: Kernel, r: Kernel)
    requires OnlyPrio(s, r)
    ensures TimesStay(s, r)
  {
    SameTimes(s, r);
  }

  lemma ReschedTimes(s: Kernel)
    ensures TimesStay(s, Resched(s))
  {
    SameTimes(s, Resched(s));
  }

  lemma MoveTimes(s: Kernel, t: Tid, st: TaskState, why: WakeReason)
    requires Wf(s) && TickOk(s) && t < |s.tasks| && (s.tasks[t].blk.Some? ==> st != Sleep && st != SleepSusp)
    ensures TimesStay(s, Move(s, t, st, why))
  {
    hide Thinned;
    WithoutNoDup(s.ticks, t);
    ThinWithout(s.ticks, t);
    SameTimes(s, s);
  }

  lemma BlkIff(s: Kernel, t: Tid)
    requires Wf(s) && t < |s.tasks|
    ensures s.tasks[t].blk.Some? <==> s.tasks[t].Pending()
  {
    assert TaskWf(s, s.tasks[t]);
  }

  lemma LeaveTimes(s: Kernel, t: Tid, st: TaskState, why: WakeReason)
    requires Agree(s) && CanMove(s, t, st)
    ensures TimesStay(s, Leave(s, t, st, why))
  {
    hide TimesStay, Leave, OnlyPrio, Move;
    LeaveAgree(s, t, st, why);
    MoveTimes(s, t, st, why);
    OnlyPrioTimes(Move(s, t, st, why), Leave(s, t, st, why));
    TimesTrans(s, Move(s, t, st, why), Leave(s, t, st, why));
  }

  lemma WakeTimes(s: Kernel, t: Tid, why: WakeReason)
    requires Wf(s) && TickOk(s) && t < |s.tasks|
    ensures TimesStay(s, Wake(s, t, why))
  {
    hide Move, TimesStay;
    MoveTimes(s, t, WakeState(s.tasks[t]), why);
  }

  lemma {:induction false} WakeAllTimes(s: Kernel, o: Oid, why: WakeReason)
    requires Agree(s) && o < |s.objs|
    ensures TimesStay(s, WakeAll(s, o, why))
    decreases |s.objs[o].waiters|
  {
    hide Wf, WaitOk, ReadyOk, TickOk, OwnOk, TimesStay, Wake;
    if s.objs[o].waiters == [] {
      SameTimes(s, s);
    } else {
      var f := First(s, o);
      WakeAgree(s, f, why);
      WakeOneFrame(s, o, f, why);
      WakeTimes(s, f, why);
      WakeAllTimes(Wake(s, f, why), o, why);
      TimesTrans(s, Wake(s, f, why), WakeAll(s, o, why));
    }
  }

  lemma EventOneTimes(s: Kernel, o: Oid, t: Tid, cur: bv32)
    requires Wf(s) && TickOk(s) && o < |s.objs| && t < |s.tasks| && s.tasks[t].blk == Some(o)
    ensures TimesStay(s, EventWakeOne(s, o, t, cur))
  {
    hide ClearFlags, TimesStay, Wake, Wf, TickOk;
    var w, r := Wake(s, t, Finish), EventWakeOne(s, o, t, cur);
    WakeTimes(s, t, Finish);
    SameTimes(w, r);
    TimesTrans(s, w, r);
  }

  lemma {:induction false} EventTimes(s: Kernel, o: Oid, ws: seq<Tid>, cur: bv32)
    requires Agree(s) && o < |s.objs| && NoDup(ws) && forall t :: t in ws ==> t in s.objs[o].waiters
    ensures TimesStay(s, EventWake(s, o, ws, cur))
    decreases |ws|
  {
    hide ReadyOk, TickOk, OwnOk, TimesStay, Matches, EventWakeOne;
    if ws == [] {
      SameTimes(s, s);
    } else {
      var t := ws[0];
      assert t in ws && t in s.objs[o].waiters && ObjWf(s, s.objs[o]) && TaskWf(s, s.tasks[t]);
      assert t !in ws[1..] && NoDup(ws[1..]) && forall u :: u in ws[1..] ==> u in ws;
      if Matches(cur, s.tasks[t].pendFlags, s.tasks[t].pendAnd) {
        EventWakeOneAgree(s, o, t, cur);
        EventOneTimes(s, o, t, cur);
        EventTimes(EventWakeOne(s, o, t, cur), o, ws[1..], cur);
        TimesTrans(s, EventWakeOne(s, o, t, cur), EventWake(s, o, ws, cur));
      } else {
        EventTimes(s, o, ws[1..], cur);
      }
    }
  }

  lemma GiveTimes(s: Kernel, o: Oid, nested: nat)
    requires Wf(s) && WaitOk(s) && TickOk(s) && o < |s.objs|
    ensures TimesStay(s, Give(s, o, nested))
  {
    hide TimesStay, Wake, Wf, WaitOk, TickOk;
    var r := Give(s, o, nested);
    if s.objs[o].waiters == [] {
      SameTimes(s, r);
    } else {
      var w := Wake(s, First(s, o), Finish);
      WakeTimes(s, First(s, o), Finish);
      SameTimes(w, r);
      TimesTrans(s, w, r);
    }
  }

  lemma PassOnTimes(s: Kernel, t: Tid, m: Oid, nested: nat)
    requires Agree(s) && t < |s.tasks| && m < |s.objs|
    ensures TimesStay(s, PassOn(s, t, m, nested))
  {
    hide TimesStay, Give, Wf, WaitOk, ReadyOk, TickOk, OwnOk, After, Without;
    DropHeldLists(s, t, m);
    SameTimes(s, DropHeld(s, t, m));
    GiveTimes(DropHeld(s, t, m), m, nested);
    TimesTrans(s, DropHeld(s, t, m), PassOn(s, t, m, nested));
  }

  lemma {:induction false} FreeMutexesTimes(s: Kernel, t: Tid)
    requires Agree(s) && t < |s.tasks| && s.tasks[t].Live()
    ensures TimesStay(s, FreeMutexes(s, t))
    decreases |s.tasks[t].held|
  {
    hide WaitOk, ReadyOk, TickOk, PassOn, TimesStay;
    var held := s.tasks[t].held;
    if held == [] {
      SameTimes(s, s);
    } else {
      var m := held[0];
      assert m in held && TaskWf(s, s.tasks[t]) && Owns(s, t, m);
      PassOnAgree(s, t, m, s.objs[m].nested);
      PassOnTimes(s, t, m, s.objs[m].nested);
      FreeMutexesTimes(PassOn(s, t, m, s.objs[m].nested), t);
      TimesTrans(s, PassOn(s, t, m, s.objs[m].nested), FreeMutexes(s, t));
    }
  }

  lemma StaleGiveTimes(s: Kernel, m: Oid)
    requires Listed(s) && m < |s.objs|
    ensures TimesStay(s, StaleGive(s, m))
  {
    hide TimesStay, Give, Wf, WaitOk, ReadyOk, TickOk, Relinked;
    var g := Give(s, m, s.objs[m].nested);
    GiveTimes(s, m, s.objs[m].nested);
    SameTimes(g, StaleGive(s, m));
    TimesTrans(s, g, StaleGive(s, m));
  }

  lemma {:induction false} FreeStaleTimes(s: Kernel, path: seq<Oid>)
    requires Listed(s) && forall x :: x in path ==> x < |s.objs|
    ensures TimesStay(s, FreeStale(s, path))
    decreases |path|
  {
    hide TimesStay, StaleGive, Wf, WaitOk, ReadyOk, TickOk;
    if path == [] {
      SameTimes(s, s);
    } else {
      assert path[0] in path && forall x :: x in path[1..] ==> x in path;
      StaleGiveListed(s, path[0]);
      StaleGiveTimes(s, path[0]);
      FreeStaleTimes(StaleGive(s, path[0]), path[1..]);
      TimesTrans(s, StaleGive(s, path[0]), FreeStale(s, path));
    }
  }

  // --------------------------------------------------------------- the kernel calls

  /** `n` ticks on, the list is ordered, and each task that is still listed has `n` ticks less left and
      waits for what it waited for. */
  ghost predicate OnTime(s: Kernel, r: Kernel, n: nat) {
    && Ordered(r) && |s.tasks| <= |r.tasks|
    && forall t :: t in s.ticks && t in r.ticks && t < |s.tasks| ==>
         Left(r, t) + n == Left(s, t) && r.tasks[t].blk == s.tasks[t].blk
  }

  lemma TimesKept(s: Kernel, r: Kernel)
    requires Ordered(s) && TimesStay(s, r)
    ensures OnTime(s, r, 0)
  {
    hide Remaining;
    KeysAgree(Remains(s.tasks, s.now), Remains(r.tasks, r.now), s.ticks);
    forall t | t in r.ticks ensures Ahead(r, t) { assert Ahead(s, t); }
  }

  /** A step that leaves times alone, behind one that keeps them. */
  lemma ThenStays(s: Kernel, a: Kernel, r: Kernel)
    requires OnTime(s, a, 0) && TimesStay(a, r)
    ensures OnTime(s, r, 0)
  {
    hide Ordered, Remaining;
    TimesKept(a, r);
  }

  /** ... and in front of one. */
  lemma FirstSame(s: Kernel, a: Kernel, r: Kernel)
    requires TimesStay(s, a) && a.ticks == s.ticks && OnTime(a, r, 0)
    ensures OnTime(s, r, 0)
  {
    hide Ordered, Remaining;
  }

  lemma ThenResched(s: Kernel, x: Kernel)
    requires OnTime(s, x, 0)
    ensures OnTime(s, Resched(x), 0)
  {
    hide OnTime, Resched, TimesStay;
    ReschedTimes(x);
    ThenStays(s, x, Resched(x));
  }

  lemma InsertOrdered(s: Kernel, t: Tid, time: nat)
    requires TickOk(s) && Ordered(s) && t < |s.tasks| && t !in s.ticks && 0 < time <= MAX_TICKS
    ensures OnTime(s, TickInsert(s, t, time), 0)
  {
    hide Remaining, TickOk, Insert, Ahead;
    var s1, r := SetTask(s, t, s.tasks[t].(expires := (s.now + time) % TICK_RANGE)), TickInsert(s, t, time);
    var ks, k1 := Remains(s.tasks, s.now), Remains(s1.tasks, s1.now);
    FreshLeft(s.now, time);
    KeysAgree(ks, k1, s.ticks);
    InsertSorted(k1, s.ticks, t);
    forall u | u in r.ticks ensures Ahead(r, u) { InsertAhead(s, t, time, u); }
  }

  lemma KeysAgree(ks: seq<nat>, k1: seq<nat>, xs: seq<Tid>)
    requires Keyed(ks, xs) && Sorted(ks, xs) && |ks| <= |k1| && forall x :: x in xs && x < |ks| ==> k1[x] == ks[x]
    ensures Keyed(k1, xs) && Sorted(k1, xs)
  {
    forall i | 0 <= i < |xs| ensures xs[i] < |ks| && k1[xs[i]] == ks[xs[i]] { assert xs[i] in xs; }
  }

  lemma InsertAhead(s: Kernel, t: Tid, time: nat, u: Tid)
    requires TickOk(s) && Ordered(s) && t < |s.tasks| && 0 < time <= MAX_TICKS && u in TickInsert(s, t, time).ticks
    ensures Ahead(TickInsert(s, t, time), u)
  {
    hide Remaining;
    FreshLeft(s.now, time);
    assert u != t ==> Ahead(s, u);
  }

  lemma FreshLeft(now: nat, time: nat)
    requires time < TICK_RANGE
    ensures Remaining((now + time) % TICK_RANGE, now) == time
  {
    var q := (now + time) / TICK_RANGE;
    TickList.WrapAdd(time, -q);
    assert (now + time) % TICK_RANGE - now == time + (-q) * TICK_RANGE;
  }

  lemma BlockOrdered(s: Kernel, o: Oid, t: Tid, ticks: nat)
    requires Wf(s) && TickOk(s) && Ordered(s) && CanBlock(s, o, t) && (0 < ticks <= MAX_TICKS || ticks == WAIT_FOREVER)
    ensures OnTime(s, Block(s, o, t, ticks), 0)
  {
    var s1, r := if ticks != WAIT_FOREVER then TickInsert(s, t, ticks) else s, Block(s, o, t, ticks);
    assert t !in s.ticks;
    hide Ordered, TimesStay, TickInsert;
    SameTimes(s, s);
    TimesKept(s, s);
    if ticks != WAIT_FOREVER { InsertOrdered(s, t, ticks); }
    BlockedTimes(s, s1, r, t);
  }

  /** What a task waits for may change while it is not listed. */
  lemma BlockedTimes(s: Kernel, a: Kernel, r: Kernel, t: Tid)
    requires OnTime(s, a, 0) && t !in s.ticks && r.now == a.now && r.ticks == a.ticks && |a.tasks| == |r.tasks|
    requires forall u :: 0 <= u < |a.tasks| ==> r.tasks[u].expires == a.tasks[u].expires && (u != t ==> r.tasks[u].blk == a.tasks[u].blk)
    ensures OnTime(s, r, 0)
  {
    hide Remaining;
    KeysAgree(Remains(a.tasks, a.now), Remains(r.tasks, r.now), a.ticks);
    forall u | u in r.ticks ensures Ahead(r, u) { assert Ahead(a, u); }
  }

  lemma SleepOrdered(s: Kernel, t: Tid, ticks: nat)
    requires Wf(s) && TickOk(s) && Ordered(s) && t < |s.tasks| && s.tasks[t].st == Rdy && 0 < ticks <= MAX_TICKS
    ensures OnTime(s, FallAsleep(s, t, ticks), 0)
  {
    var s1, r := TickInsert(s, t, ticks), FallAsleep(s, t, ticks);
    assert t !in s.ticks;
    hide Ordered, TimesStay, TickInsert;
    InsertOrdered(s, t, ticks);
    SameTimes(s1, r);
    ThenStays(s, s1, r);
  }
}
