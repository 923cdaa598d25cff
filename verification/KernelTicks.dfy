/** Time over runs of the kernel: with delays of at most half the tick range every timed wait ends with
    the right tick, not before it and not after it. */
module KernelTicks {
  import opened Flags
  import opened Lists
  import opened KernelState
  import opened PriorityChain
  import opened KernelInv
  import opened KernelSteps
  import opened KernelProofs
  import opened MutexProofs
  import opened CallProofs
  import opened TaskProofs
  import opened KernelStale
  import opened KernelTimes
  import opened KernelRun
  import opened KernelEffects

  /** A delay, or a number of ticks at once, that does not exceed half the tick range. */
  predicate Short(c: Call) {
    match c
    case Lock(_, d) => d <= MAX_TICKS || d == WAIT_FOREVER
    case Take(_, d) => d <= MAX_TICKS || d == WAIT_FOREVER
    case GetEvent(_, _, _, _, d) => d <= MAX_TICKS || d == WAIT_FOREVER
    case SleepFor(d) => d <= MAX_TICKS
    case Tick(n) => n <= MAX_TICKS
    case _ => true
  }

  /** How much time the call stands for. */
  function Span(c: Call): nat {
    if c.Tick? then c.n else 0
  }

  lemma StaysOnTime(s: Kernel, r: Kernel)
    requires Ordered(s) && TimesStay(s, r)
    ensures OnTime(s, Resched(r), 0) && OnTime(s, r, 0)
  {
    hide Ordered, TimesStay, OnTime, Resched;
    TimesKept(s, r);
    ThenResched(s, r);
  }

  /** Only what is not on the tick list has changed. */
  lemma SameOnTime(s: Kernel, r: Kernel)
    requires Ordered(s) && r.now == s.now && |s.tasks| <= |r.tasks| && r.ticks == s.ticks
    requires forall t :: 0 <= t < |s.tasks| ==> r.tasks[t].expires == s.tasks[t].expires && r.tasks[t].blk == s.tasks[t].blk
    ensures OnTime(s, r, 0)
  {
    hide Ordered, OnTime, TimesStay;
    SameTimes(s, r);
    TimesKept(s, r);
  }

  lemma LockOnTime(s: Kernel, o: Oid, ticks: nat)
    requires Inv(s) && Ordered(s) && o < |s.objs| && (ticks <= MAX_TICKS || ticks == WAIT_FOREVER)
    ensures OnTime(s, MutexLock(s, o, ticks).k, 0)
  {
    hide Wf, WaitOk, ReadyOk, TickOk, OwnOk, Signals, Inherits, IdleOk, Ordered, OnTime, Resched, Block, Boost;
    var a, b := s.active, s.objs[o];
    PrioBound(s, a);
    if b.kind == Mutex && b.owner.Some? && b.owner != Some(a) && ticks != NO_WAIT && s.lock == 0 {
      OwnerLive(s, o);
      BoostReady(s, b.owner.value, a);
      var s1 := Boost(s, b.owner.value, s.tasks[a].prio);
      assert SameButOrder(b, s1.objs[o]);
      SameTimes(s, s1);
      TimesKept(s, s1);
      OrderedThen(s, s1);
      BlockOrdered(s1, o, a, ticks);
      FirstSame(s, s1, Block(s1, o, a, ticks));
      ThenResched(s, Block(s1, o, a, ticks));
    } else {
      SameOnTime(s, MutexLock(s, o, ticks).k);
    }
  }

  lemma OrderedThen(s: Kernel, r: Kernel)
    requires OnTime(s, r, 0)
    ensures Ordered(r)
  {}

  lemma UnlockOnTime(s: Kernel, o: Oid)
    requires Inv(s) && Ordered(s) && o < |s.objs|
    ensures OnTime(s, MutexUnlock(s, o).k, 0)
  {
    hide Wf, WaitOk, ReadyOk, TickOk, OwnOk, Signals, Inherits, IdleOk, Ordered, OnTime, TimesStay, Resched, KernelSteps.Give, Release, DropHeld, PassOn;
    var a, b := s.active, s.objs[o];
    if b.kind == Mutex && b.owner == Some(a) && b.nested == 1 {
      var n := if b.waiters == [] then 0 else 1;
      UnlockOrder(s, a, o, n);
      PassOnAgree(s, a, o, n);
      PassOnTimes(s, a, o, n);
      var p := PassOn(s, a, o, n);
      ReleaseAgree(p, a);
      OnlyPrioTimes(p, Release(p, a));
      TimesTrans(s, p, Release(p, a));
      StaysOnTime(s, Release(p, a));
    } else {
      SameOnTime(s, MutexUnlock(s, o).k);
    }
  }

  lemma TakeOnTime(s: Kernel, o: Oid, ticks: nat)
    requires Inv(s) && Ordered(s) && o < |s.objs| && (ticks <= MAX_TICKS || ticks == WAIT_FOREVER)
    ensures OnTime(s, SemTake(s, o, ticks).k, 0)
  {
    hide Wf, WaitOk, ReadyOk, TickOk, OwnOk, Signals, Inherits, IdleOk, Ordered, OnTime, Resched, Block;
    var b := s.objs[o];
    if b.kind == Sem && b.count == 0 && ticks != NO_WAIT && s.lock == 0 {
      BlockOrdered(s, o, s.active, ticks);
      ThenResched(s, Block(s, o, s.active, ticks));
    } else {
      SameOnTime(s, SemTake(s, o, ticks).k);
    }
  }

  lemma GiveOnTime(s: Kernel, o: Oid, all: bool)
    requires Inv(s) && Ordered(s) && o < |s.objs|
    ensures OnTime(s, SemGive(s, o, all).k, 0)
  {
    hide Wf, WaitOk, ReadyOk, TickOk, OwnOk, Signals, Inherits, IdleOk, Ordered, OnTime, TimesStay, Resched, Wake, WakeAll;
    var b := s.objs[o];
    if b.kind == Sem && b.waiters != [] {
      if all {
        WakeAllTimes(s, o, Finish);
        StaysOnTime(s, WakeAll(s, o, Finish));
      } else {
        WakeTimes(s, First(s, o), Finish);
        StaysOnTime(s, Wake(s, First(s, o), Finish));
      }
    } else {
      SameOnTime(s, SemGive(s, o, all).k);
    }
  }

  lemma GetOnTime(s: Kernel, o: Oid, flags: bv32, all: bool, clear: bool, ticks: nat)
    requires Inv(s) && Ordered(s) && o < |s.objs| && (ticks <= MAX_TICKS || ticks == WAIT_FOREVER)
    ensures OnTime(s, EventGet(s, o, flags, all, clear, ticks).k, 0)
  {
    hide Wf, WaitOk, ReadyOk, TickOk, OwnOk, Signals, Inherits, IdleOk, Ordered, OnTime, Resched, Block, Matches, ClearFlags;
    if s.objs[o].kind == Event && !Matches(s.objs[o].flags, flags, all) && ticks != NO_WAIT && s.lock == 0 {
      WantAgree(s, s.active, flags, all, clear);
      var s1 := Want(s, s.active, flags, all, clear);
      SameTimes(s, s1);
      TimesKept(s, s1);
      OrderedThen(s, s1);
      BlockOrdered(s1, o, s.active, ticks);
      FirstSame(s, s1, Block(s1, o, s.active, ticks));
      ThenResched(s, Block(s1, o, s.active, ticks));
    } else {
      SameOnTime(s, EventGet(s, o, flags, all, clear, ticks).k);
    }
  }

  lemma SetOnTime(s: Kernel, o: Oid, flags: bv32, keep: bool)
    requires Inv(s) && Ordered(s) && o < |s.objs|
    ensures OnTime(s, EventSet(s, o, flags, keep).k, 0)
  {
    hide Wf, WaitOk, ReadyOk, TickOk, OwnOk, Signals, Inherits, IdleOk, Ordered, OnTime, TimesStay, Resched, EventWake, AddFlags, KeepFlags;
    var b := s.objs[o];
    if b.kind == Event && !keep {
      var cur := AddFlags(b.flags, flags);
      FlagsAgree(s, o, cur);
      WaitersDistinct(s, o);
      var s1 := SetObj(s, o, b.(flags := cur));
      SameTimes(s, s1);
      EventTimes(s1, o, b.waiters, cur);
      TimesTrans(s, s1, EventWake(s1, o, b.waiters, cur));
      StaysOnTime(s, EventWake(s1, o, b.waiters, cur));
    } else {
      SameOnTime(s, EventSet(s, o, flags, keep).k);
    }
  }

  lemma ObjDelOnTime(s: Kernel, o: Oid, kind: Kind)
    requires Inv(s) && Ordered(s) && o < |s.objs|
    ensures OnTime(s, ObjDel(s, o, kind).k, 0)
  {
    hide Wf, WaitOk, ReadyOk, TickOk, OwnOk, Signals, Inherits, IdleOk, Ordered, OnTime, TimesStay, Resched, Release, WakeAll, Retire;
    var b := s.objs[o];
    if b.kind == kind && kind != NoObj {
      RetireAgree(s, o);
      RetireTimes(s, o);
      var s1 := Retire(s, o);
      if b.kind == Mutex && b.owner.Some? {
        OwnerLive(s, o);
        var s2 := Release(s1, b.owner.value);
        ReleaseAgree(s1, b.owner.value);
        OnlyPrioTimes(s1, s2);
        TimesTrans(s, s1, s2);
        s1 := s2;
      }
      WakeAllTimes(s1, o, Del);
      TimesTrans(s, s1, WakeAll(s1, o, Del));
      StaysOnTime(s, WakeAll(s1, o, Del));
    } else {
      SameOnTime(s, s);
    }
  }

  lemma RetireTimes(s: Kernel, o: Oid)
    requires Agree(s) && o < |s.objs|
    ensures TimesStay(s, Retire(s, o))
  {
    hide WaitOk, ReadyOk, TickOk, OwnOk, TimesStay, After, Without;
    assert ObjWf(s, s.objs[o]);
    SameTimes(s, Retire(s, o));
  }

  lemma SleepOnTime(s: Kernel, ticks: nat)
    requires Inv(s) && Ordered(s) && ticks <= MAX_TICKS
    ensures OnTime(s, TaskSleep(s, ticks).k, 0)
  {
    hide WaitOk, ReadyOk, TickOk, OwnOk, Signals, Inherits, IdleOk, Ordered, OnTime, Resched, FallAsleep;
    if ticks == 0 || s.lock > 0 {
      SameOnTime(s, s);
    } else {
      SleepOrdered(s, s.active, ticks);
      ThenResched(s, FallAsleep(s, s.active, ticks));
    }
  }

  lemma SuspendOnTime(s: Kernel, t: Tid)
    requires Inv(s) && Ordered(s) && t < |s.tasks|
    ensures OnTime(s, TaskSuspend(s, t).k, 0)
  {
    hide Wf, WaitOk, ReadyOk, TickOk, OwnOk, Signals, Inherits, IdleOk, Ordered, OnTime, TimesStay, Resched, Move;
    var k := s.tasks[t];
    var st := if k.st == Rdy then Susp else if k.st == Sleep then SleepSusp else PendSusp;
    var m := Move(s, t, st, k.wake);
    BlkIff(s, t);
    if CanSuspend(k) {
      MoveTimes(s, t, st, k.wake);
      SameTimes(m, WithSusp(m, t, 1));
      TimesTrans(s, m, WithSusp(m, t, 1));
      StaysOnTime(s, WithSusp(m, t, 1));
    }
    SameTimes(s, WithSusp(s, t, k.susp + 1));
    StaysOnTime(s, WithSusp(s, t, k.susp + 1));
    SameOnTime(s, s);
  }

  lemma ResumeOnTime(s: Kernel, t: Tid)
    requires Inv(s) && Ordered(s) && t < |s.tasks|
    ensures OnTime(s, TaskResume(s, t).k, 0)
  {
    hide Wf, WaitOk, ReadyOk, TickOk, OwnOk, Signals, Inherits, IdleOk, Ordered, OnTime, TimesStay, Resched, Move;
    var k := s.tasks[t];
    var n := if k.susp == 0 then MAX_SUSPEND else k.susp - 1;
    var s1 := WithSusp(s, t, n);
    var st := if k.st == Susp then Rdy else if k.st == SleepSusp then Sleep else Pend;
    WithSuspAgree(s, t, n);
    SameTimes(s, s1);
    StaysOnTime(s, s1);
    BlkIff(s, t);
    if k.st == Susp || k.st == SleepSusp || k.st == PendSusp {
      MoveTimes(s1, t, st, k.wake);
      TimesTrans(s, s1, Move(s1, t, st, k.wake));
      StaysOnTime(s, Move(s1, t, st, k.wake));
    }
    SameOnTime(s, s);
  }

  lemma PriOnTime(s: Kernel, t: Tid, pri: nat)
    requires Inv(s) && Ordered(s) && t < |s.tasks|
    ensures OnTime(s, TaskPriChange(s, t, pri).k, 0)
  {
    hide Wf, WaitOk, ReadyOk, TickOk, OwnOk, Signals, Inherits, IdleOk, Ordered, OnTime, TimesStay, Resched, PriChange, PriLimit;
    var k := s.tasks[t];
    if k.prio < IDLE_PRI && pri < IDLE_PRI && k.st != Deleted {
      var s1, p := WithBase(s, t, pri), PriLimit(s, k.held, pri);
      WithBaseAgree(s, t, pri);
      PriChangeAgree(s1, t, p);
      SameTimes(s, s1);
      OnlyPrioTimes(s1, PriChange(s1, t, p));
      TimesTrans(s, s1, PriChange(s1, t, p));
      StaysOnTime(s, PriChange(s1, t, p));
    } else {
      SameOnTime(s, s);
    }
  }

  lemma AbortOnTime(s: Kernel, t: Tid)
    requires Inv(s) && Ordered(s) && t < |s.tasks|
    ensures OnTime(s, WaitAbort(s, t).k, 0)
  {
    hide WaitOk, ReadyOk, TickOk, OwnOk, Signals, Inherits, IdleOk, Ordered, OnTime, TimesStay, Resched, Move, Leave;
    var k := s.tasks[t];
    assert TaskWf(s, k);
    SameTimes(s, s);
    StaysOnTime(s, s);
    if k.st == Susp {
      MoveTimes(s, t, Rdy, k.wake);
      StaysOnTime(s, Move(s, t, Rdy, k.wake));
    } else if k.st != Rdy && k.st != Deleted {
      LeaveTimes(s, t, Rdy, WakeReason.Abort);
      StaysOnTime(s, Leave(s, t, Rdy, WakeReason.Abort));
    }
  }

  lemma TaskDelOnTime(s: Kernel, t: Tid)
    requires Inv(s) && Ordered(s) && t < |s.tasks|
    ensures OnTime(s, TaskDel(s, t).k, 0)
  {
    hide Wf, WaitOk, ReadyOk, TickOk, OwnOk, Signals, Inherits, IdleOk, Ordered, OnTime, TimesStay, Resched, Leave, FreeMutexes, FreeStale, StaleList;
    if s.tasks[t].prio == IDLE_PRI || (t == s.active && s.lock > 0) {
      SameOnTime(s, s);
    } else if s.tasks[t].Live() {
      var s0, why := WithStale(s, t), s.tasks[t].wake;
      WithStaleAgree(s, t);
      SameTimes(s, s0);
      FreeMutexesTimes(s0, t);
      var s1 := FreeMutexes(s0, t);
      TimesTrans(s, s0, s1);
      OwnsNothing(s1, t);
      LeaveTimes(s1, t, Deleted, why);
      TimesTrans(s, s1, Leave(s1, t, Deleted, why));
      StaysOnTime(s, Leave(s1, t, Deleted, why));
    } else {
      var path := StaleList(s, s.tasks[t].stale, |s.objs|);
      StaleListIn(s, s.tasks[t].stale, |s.objs|);
      FreeStaleTimes(s, path);
      StaysOnTime(s, FreeStale(s, path));
    }
  }

  // ------------------------------------------------------------------ the tick itself

  /** The clock moves on by `n`: the time left becomes less, and runs through zero. */
  lemma Later(expires: nat, now: nat, n: nat)
    requires n <= MAX_TICKS && 0 < Remaining(expires, now) <= MAX_TICKS
    ensures var left := Remaining(expires, (now + n) % TICK_RANGE);
            if n < Remaining(expires, now) then left == Remaining(expires, now) - n else !(0 < left <= MAX_TICKS)
  {
    var d, p, q := Remaining(expires, now), (expires - now) / TICK_RANGE, (now + n) / TICK_RANGE;
    assert expires - (now + n) % TICK_RANGE == (d - n) + (p + q) * TICK_RANGE;
    TickList.WrapAdd(d - n, p + q);
  }

  /** Every listed task whose time is up expires, whatever its place in the list, and no other. */
  ghost predicate Exact(s: Kernel, r: Kernel, n: nat) {
    && |r.tasks| == |s.tasks|
    && forall t :: 0 <= t < |s.tasks| ==>
         if t in s.ticks && Left(s, t) <= n then t !in r.ticks && ExpiredAs(s.tasks[t], r.tasks[t])
         else (t in r.ticks <==> t in s.ticks) && r.tasks[t] == s.tasks[t].(prio := r.tasks[t].prio)
  }

  lemma DueIff(s: Kernel, n: nat, t: Tid)
    requires Ordered(s) && n <= MAX_TICKS && t in s.ticks
    ensures t < |s.tasks| && (Due(s.tasks[t], (s.now + n) % TICK_RANGE) <==> Left(s, t) <= n)
    ensures Left(s, t) > n ==> Remaining(s.tasks[t].expires, (s.now + n) % TICK_RANGE) + n == Left(s, t)
  {
    assert Ahead(s, t);
    hide Remaining;
    Later(s.tasks[t].expires, s.now, n);
  }

  /** What is due lies in front. */
  lemma DuePrefix(s: Kernel, n: nat, k: nat)
    requires Ordered(s) && k <= |s.ticks|
    requires forall t :: t in s.ticks[..k] && t < |s.tasks| ==> Left(s, t) <= n
    requires k < |s.ticks| ==> s.ticks[k] < |s.tasks| && Left(s, s.ticks[k]) > n
    ensures forall t :: t < |s.tasks| ==> (t in s.ticks[..k] <==> t in s.ticks && Left(s, t) <= n)
    ensures forall t :: t < |s.tasks| ==> (t in s.ticks[k..] <==> t in s.ticks && Left(s, t) > n)
  {
    hide Remaining;
    forall i | k <= i < |s.ticks| ensures s.ticks[i] < |s.tasks| && Left(s, s.ticks[i]) > n {
      assert s.ticks[i] in s.ticks && Ahead(s, s.ticks[i]);
    }
    forall i | 0 <= i < k ensures s.ticks[i] in s.ticks[..k] { assert s.ticks[..k][i] == s.ticks[i]; }
    assert forall i :: k <= i < |s.ticks| ==> s.ticks[k..][i - k] == s.ticks[i];
  }

  lemma RestOrdered(s: Kernel, r: Kernel, n: nat, k: nat)
    requires Ordered(s) && n <= MAX_TICKS && k <= |s.ticks| && r.ticks == s.ticks[k..] && |r.tasks| == |s.tasks|
    requires r.now == (s.now + n) % TICK_RANGE && forall t :: 0 <= t < |s.tasks| ==> r.tasks[t].expires == s.tasks[t].expires
    requires forall t :: t in r.ticks && t < |s.tasks| ==> Left(s, t) > n && r.tasks[t].blk == s.tasks[t].blk
    ensures OnTime(s, r, n)
  {
    hide Remaining;
    forall i | 0 <= i < |r.ticks|
      ensures r.ticks[i] in r.ticks && r.ticks[i] == s.ticks[k + i] && r.ticks[i] < |s.tasks|
      ensures Left(r, r.ticks[i]) + n == Left(s, r.ticks[i]) && Ahead(r, r.ticks[i])
    {
      var t := r.ticks[i];
      assert s.ticks[k + i] in s.ticks && Ahead(s, t) && t in r.ticks;
      DueIff(s, n, t);
    }
  }

  lemma ExpiredRest(s: Kernel, x: Kernel, n: nat, k: nat)
    requires Expired(s.(now := (s.now + n) % TICK_RANGE), x, k)
    requires forall t :: t < |s.tasks| ==> (t in s.ticks[..k] <==> t in s.ticks && Left(s, t) <= n)
    requires forall t :: t < |s.tasks| ==> (t in s.ticks[k..] <==> t in s.ticks && Left(s, t) > n)
    ensures Exact(s, x, n) && x.ticks == s.ticks[k..] && forall t :: 0 <= t < |s.tasks| ==> x.tasks[t].expires == s.tasks[t].expires
    ensures forall t :: t in x.ticks && t < |s.tasks| ==> x.tasks[t].blk == s.tasks[t].blk
  {
    hide Remaining, Due;
  }

  /** Of objects, only wait lists change. */
  ghost predicate OnlyLines(s: Kernel, r: Kernel) {
    |r.objs| == |s.objs| && forall o :: 0 <= o < |s.objs| ==> r.objs[o] == s.objs[o].(waiters := r.objs[o].waiters)
  }

  lemma {:induction false} ExpireNow(s: Kernel)
    requires Core(s) && s.active < |s.tasks| && (s.lock > 0 ==> s.tasks[s.active].st == Rdy)
    ensures ExpireDue(s).now == s.now && OnlyLines(s, ExpireDue(s))
    decreases |s.ticks|
  {
    hide Agree, Inherits, Signals, IdleOk, Expire, Due;
    if s.ticks != [] {
      ListedTask(s, s.ticks[0]);
      if Due(s.tasks[s.ticks[0]], s.now) {
        ExpireSettled(s, s.ticks[0]);
        ExpireLines(s, s.ticks[0]);
        ExpireNow(Expire(s, s.ticks[0]));
      }
    }
  }

  lemma ExpireLines(s: Kernel, t: Tid)
    requires Agree(s) && t in s.ticks
    ensures OnlyLines(s, Expire(s, t))
  {
    assert TaskWf(s, s.tasks[t]);
    hide WaitOk, ReadyOk, OwnOk, Leave, Move, OnlyPrio;
    var st, why := if s.tasks[t].st == Sleep || s.tasks[t].st == Pend then Rdy else Susp, if s.tasks[t].Sleeping() then Finish else Timeout;
    LeaveAgree(s, t, st, why);
    MoveLines(s, t, st, why);
    PrioLines(s, Move(s, t, st, why), Leave(s, t, st, why));
  }

  lemma MoveLines(s: Kernel, t: Tid, st: TaskState, why: WakeReason)
    requires Wf(s) && t < |s.tasks|
    ensures OnlyLines(s, Move(s, t, st, why))
  {
    assert TaskWf(s, s.tasks[t]);
  }

  lemma PrioLines(s: Kernel, m: Kernel, r: Kernel)
    requires OnlyLines(s, m) && OnlyPrio(m, r)
    ensures OnlyLines(s, r)
  {
    assert forall o :: 0 <= o < |m.objs| ==> SameButOrder(m.objs[o], r.objs[o]);
  }

  /** `tick_list_update` by `n` ticks. */
  lemma TickExact(s: Kernel, n: nat)
    requires Inv(s) && Ordered(s) && n <= MAX_TICKS
    ensures Exact(s, TickUpdate(s, n).k, n) && OnTime(s, TickUpdate(s, n).k, n)
    ensures TickUpdate(s, n).k.now == (s.now + n) % TICK_RANGE && OnlyLines(s, TickUpdate(s, n).k)
  {
    hide Wf, WaitOk, ReadyOk, TickOk, OwnOk, Signals, Inherits, IdleOk, Ordered, OnTime, Remaining, ExpireDue, Resched, Due;
    var s1 := s.(now := (s.now + n) % TICK_RANGE);
    CoreFrame(s, s1);
    var k := ExpireDueEffect(s1);
    var x := ExpireDue(s1);
    assert forall t :: t in s.ticks[..k] ==> t in s.ticks;
    assert k < |s.ticks| ==> s.ticks[k] in s.ticks;
    forall t | t in s.ticks[..k] && t < |s.tasks| ensures Left(s, t) <= n { DueIff(s, n, t); }
    if k < |s.ticks| { DueIff(s, n, s.ticks[k]); }
    DuePrefix(s, n, k);
    ExpiredRest(s, x, n, k);
    ExpireNow(s1);
    ReschedSame(x);
    RestOrdered(s, Resched(x), n, k);
  }

  // ------------------------------------------------------------------------ whole runs

  /** Every kernel call with a short delay keeps the list in order, and takes from the time that is left
      what passes. */
  lemma StepOnTime(s: Kernel, c: Call)
    requires Good(s) && Legal(s, c) && Ordered(s) && Short(c)
    ensures OnTime(s, Step(s, c).k, Span(c))
  {
    hide Inv, Linked, Legal, Step, Ordered, OnTime, Short;
    if OnObject(c) { ObjectOnTime(s, c); } else { TaskOnTime(s, c); }
  }

  lemma ObjectOnTime(s: Kernel, c: Call)
    requires Inv(s) && Legal(s, c) && Ordered(s) && Short(c) && OnObject(c)
    ensures OnTime(s, Step(s, c).k, Span(c))
  {
    hide Inv, Ordered, OnTime;
    match c
    case Lock(o, ticks) => LockOnTime(s, o, ticks);
    case Unlock(o) => UnlockOnTime(s, o);
    case Take(o, ticks) => TakeOnTime(s, o, ticks);
    case Give(o, all) => GiveOnTime(s, o, all);
    case CountSet(o, n) => SameOnTime(s, SemCountSet(s, o, n).k);
    case GetEvent(o, flags, all, clear, ticks) => GetOnTime(s, o, flags, all, clear, ticks);
    case SetEvent(o, flags, keep) => SetOnTime(s, o, flags, keep);
    case NewObj(kind, count, flags) => SameOnTime(s, ObjCreate(s, kind, count, flags).k);
    case DelObj(o, kind) => ObjDelOnTime(s, o, kind);
  }

  lemma TaskOnTime(s: Kernel, c: Call)
    requires Inv(s) && Legal(s, c) && Ordered(s) && Short(c) && !OnObject(c)
    ensures OnTime(s, Step(s, c).k, Span(c))
  {
    hide Inv, Ordered, OnTime;
    match c
    case SleepFor(ticks) => SleepOnTime(s, ticks);
    case Yield => YieldOnTime(s);
    case Suspend(t) => SuspendOnTime(s, t);
    case Resume(t) => ResumeOnTime(s, t);
    case SetPri(t, pri) => PriOnTime(s, t, pri);
    case Abort(t) => AbortOnTime(s, t);
    case NewTask(prio, autorun) => CreateOnTime(s, prio, autorun);
    case DelTask(t) => TaskDelOnTime(s, t);
    case Tick(n) => TickExact(s, n);
    case SchedDisable => SchedOnTime(s);
    case SchedEnable => SchedOnTime(s);
  }

  lemma YieldOnTime(s: Kernel)
    requires Inv(s) && Ordered(s)
    ensures OnTime(s, TaskYield(s).k, 0)
  {
    hide WaitOk, OwnOk, Signals, Inherits, IdleOk, Ordered, OnTime;
    SameOnTime(s, TaskYield(s).k);
  }

  lemma CreateOnTime(s: Kernel, prio: nat, autorun: bool)
    requires Inv(s) && Ordered(s)
    ensures OnTime(s, TaskCreate(s, prio, autorun).k, 0)
  {
    hide WaitOk, ReadyOk, TickOk, OwnOk, Signals, Inherits, IdleOk, Ordered, OnTime;
    SameOnTime(s, TaskCreate(s, prio, autorun).k);
  }

  lemma SchedOnTime(s: Kernel)
    requires Ordered(s)
    ensures OnTime(s, SchedLock(s).k, 0) && OnTime(s, SchedUnlock(s).k, 0)
  {
    hide Ordered, OnTime;
    SameOnTime(s, SchedLock(s).k);
    SameOnTime(s, SchedUnlock(s).k);
  }

  ghost predicate AllShort(calls: seq<Call>) {
    forall i :: 0 <= i < |calls| ==> Short(calls[i])
  }

  /** How much time the calls stand for. */
  function Spans(calls: seq<Call>): nat {
    if calls == [] then 0 else Span(calls[0]) + Spans(calls[1..])
  }

  /** The task is on the tick list all the time. */
  ghost predicate Waits(s: Kernel, calls: seq<Call>, t: Tid)
    requires Good(s) && Runs(s, calls)
    decreases |calls|
  {
    t in s.ticks && (calls != [] ==> (StepInv(s, calls[0]); Waits(Step(s, calls[0]).k, calls[1..], t)))
  }

  lemma {:induction false} RunOrdered(s: Kernel, calls: seq<Call>)
    requires Good(s) && Runs(s, calls) && Ordered(s) && AllShort(calls)
    ensures Ordered(Run(s, calls))
    decreases |calls|
  {
    hide Inv, Linked, Step, Legal, Safe, Ordered, Short;
    if calls != [] {
      StepInv(s, calls[0]);
      StepOnTime(s, calls[0]);
      RunOrdered(Step(s, calls[0]).k, calls[1..]);
    }
  }

  /** While a task waits, its time runs by what passes, and it waits for the same object. */
  lemma {:induction false} TimeRuns(s: Kernel, calls: seq<Call>, t: Tid)
    requires Good(s) && Runs(s, calls) && Ordered(s) && AllShort(calls) && Waits(s, calls, t)
    ensures var r := Run(s, calls);
            t < |s.tasks| <= |r.tasks| && t in r.ticks && Left(r, t) + Spans(calls) == Left(s, t) && r.tasks[t].blk == s.tasks[t].blk
    decreases |calls|
  {
    hide Inv, Linked, Step, Legal, Safe, Short, Remaining;
    assert Ahead(s, t);
    if calls != [] {
      StepInv(s, calls[0]);
      StepOnTime(s, calls[0]);
      TimeRuns(Step(s, calls[0]).k, calls[1..], t);
    }
  }

  /** A timed wait ends exactly with the tick with which its time is up: after any calls during which
      the task has stayed listed, the next `n` ticks end the wait iff the ticks since make up the delay. */
  lemma WokenOnTime(s: Kernel, calls: seq<Call>, t: Tid, n: nat)
    requires Good(s) && Runs(s, calls) && Ordered(s) && AllShort(calls) && Waits(s, calls, t) && n <= MAX_TICKS
    ensures t < |s.tasks| && Inv(Run(s, calls)) && t < |Run(s, calls).tasks| && t < |TickUpdate(Run(s, calls), n).k.tasks|
    ensures var r := Run(s, calls);
            var r1 := TickUpdate(r, n).k;
            if Left(s, t) <= Spans(calls) + n then t !in r1.ticks && ExpiredAs(r.tasks[t], r1.tasks[t])
            else t in r1.ticks && Left(r1, t) + Spans(calls) + n == Left(s, t)
  {
    hide Inv, Linked, Runs, Run, TickUpdate, Remaining;
    TimeRuns(s, calls, t);
    RunOrdered(s, calls);
    TickExact(Run(s, calls), n);
  }

  /** A task that goes to sleep has its delay left. */
  lemma SleepLeft(s: Kernel, ticks: nat)
    requires Inv(s) && s.lock == 0 && 0 < ticks <= MAX_TICKS
    ensures var r := TaskSleep(s, ticks).k; s.active < |r.tasks| && s.active in r.ticks && Left(r, s.active) == ticks
  {
    hide Wf, WaitOk, ReadyOk, OwnOk, Signals, Inherits, IdleOk, Remaining, Insert;
    FreshLeft(s.now, ticks);
  }

  lemma BootOrdered()
    ensures Good(Boot()) && Ordered(Boot())
  {
    BootLinked();
  }
}
