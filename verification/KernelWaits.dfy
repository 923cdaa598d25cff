/** Calls that wait: what the caller that blocks waits for, for how long, and how the wait ends. */
module KernelWaits {
  import opened Flags
  import opened Lists
  import opened KernelState
  import opened PriorityChain
  import opened KernelLists
  import opened KernelInv
  import opened KernelSteps
  import opened MutexProofs
  import opened CallProofs
  import opened TaskProofs
  import opened KernelStale
  import opened KernelTimes
  import opened KernelEvents
  import opened KernelRun
  import opened KernelEffects
  import opened KernelTicks

  /** The running task of `s` waits for `o` in `r`, with `ticks` left or for ever; another task runs. */
  ghost predicate Awaits(s: Kernel, r: Kernel, o: Oid, ticks: nat) {
    && o < |s.objs| == |r.objs| && s.active < |s.tasks| == |r.tasks| && r.now == s.now && r.lock == s.lock
    && var a := s.active;
       && r.active != a && r.tasks[a].st == Pend && r.tasks[a].blk == Some(o)
       && (forall t :: t in r.objs[o].waiters <==> t == a || t in s.objs[o].waiters)
       && (if ticks == WAIT_FOREVER then r.ticks == s.ticks && a !in r.ticks else a in r.ticks && Left(r, a) == ticks)
       && (forall t :: t != a ==> (t in r.ticks <==> t in s.ticks))
  }

  /** Nothing of the object but its wait list, and no other task, has changed. */
  ghost predicate OnlyWaits(s: Kernel, r: Kernel, o: Oid) {
    && o < |s.objs| == |r.objs| && s.active < |s.tasks| == |r.tasks|
    && (forall t :: 0 <= t < |s.tasks| && t != s.active ==> r.tasks[t] == s.tasks[t])
    && (forall m :: 0 <= m < |s.objs| ==> r.objs[m] == if m == o then s.objs[o].(waiters := r.objs[o].waiters) else s.objs[m])
  }

  /** `pend_to_blk_obj` sets the alarm. */
  lemma BlockTimed(s: Kernel, o: Oid, t: Tid, ticks: nat)
    requires Agree(s) && CanBlock(s, o, t) && ticks < TICK_RANGE
    ensures var r := Block(s, o, t, ticks);
            && r.tasks[t].st == Pend && r.tasks[t].blk == Some(o) && r.now == s.now && r.lock == s.lock && r.active == s.active
            && (forall u :: u in r.objs[o].waiters <==> u == t || u in s.objs[o].waiters)
            && (if ticks == WAIT_FOREVER then r.ticks == s.ticks && t !in r.ticks else t in r.ticks && Left(r, t) == ticks)
            && (forall u :: u != t ==> (u in r.ticks <==> u in s.ticks))
            && (forall u :: 0 <= u < |s.tasks| && u != t ==> r.tasks[u] == s.tasks[u])
            && (forall m :: 0 <= m < |s.objs| ==> r.objs[m] == if m == o then s.objs[o].(waiters := r.objs[o].waiters) else s.objs[m])
  {
    hide ReadyOk, WaitOk, OwnOk, Remaining;
    FreshLeft(s.now, ticks);
  }

  /** What follows from the invariant when the running task has blocked. */
  lemma ReschedAwaits(s: Kernel, r: Kernel, o: Oid, ticks: nat)
    requires o < |s.objs| == |r.objs| && s.active < |s.tasks| == |r.tasks| && r.now == s.now && r.lock == s.lock
    requires r.tasks[s.active].st == Pend && r.tasks[s.active].blk == Some(o) && ActiveOk(Resched(r))
    requires forall t :: t in r.objs[o].waiters <==> t == s.active || t in s.objs[o].waiters
    requires if ticks == WAIT_FOREVER then r.ticks == s.ticks && s.active !in r.ticks else s.active in r.ticks && Left(r, s.active) == ticks
    requires forall t :: t != s.active ==> (t in r.ticks <==> t in s.ticks)
    ensures Awaits(s, Resched(r), o, ticks)
  {
    hide Remaining;
    ReschedSame(r);
  }

  /** `krhino_sem_take` */
  lemma TakeAnswer(s: Kernel, o: Oid, ticks: nat)
    requires Inv(s) && o < |s.objs| && s.active != IDLE && ticks < TICK_RANGE
    ensures var out, b := SemTake(s, o, ticks), s.objs[o];
            if b.kind != Sem then out == Outcome(s, TypeErr)
            else if b.count > 0 then out == Outcome(s.(objs := s.objs[o := b.(count := b.count - 1)]), Success)
            else if ticks == NO_WAIT then out == Outcome(s, NoPendWait)
            else if s.lock > 0 then out == Outcome(s, SchedDisabled)
            else out.status == Blocked && Awaits(s, out.k, o, ticks) && OnlyWaits(s, out.k, o)
  {
    hide Wf, WaitOk, ReadyOk, TickOk, OwnOk, Signals, Inherits, Resched, Block, Awaits;
    SemTakeInv(s, o, ticks);
    var b, r := s.objs[o], Block(s, o, s.active, ticks);
    if b.kind == Sem && b.count == 0 && ticks != NO_WAIT && s.lock == 0 {
      BlockTimed(s, o, s.active, ticks);
      ReschedAwaits(s, r, o, ticks);
      ReschedSame(r);
    }
  }

  /** `krhino_mutex_lock`; who waits is told by `WaitsNow`, who takes the mutex by `LockEffect`. */
  lemma LockAnswer(s: Kernel, o: Oid, ticks: nat)
    requires Inv(s) && o < |s.objs| && s.active != IDLE && ticks < TICK_RANGE
    ensures var out, b, a := MutexLock(s, o, ticks), s.objs[o], s.active;
            if b.kind != Mutex then out == Outcome(s, TypeErr)
            else if b.owner == Some(a) then
              if b.nested == MAX_COUNT then out == Outcome(s, NestedOvf)
              else out == Outcome(s.(objs := s.objs[o := b.(nested := b.nested + 1)]), OwnerNested)
            else if b.owner == None then
              out == Outcome(s.(objs := s.objs[o := b.(owner := Some(a), nested := 1)],
                                tasks := s.tasks[a := s.tasks[a].(held := [o] + s.tasks[a].held)]), Success)
            else if ticks == NO_WAIT then out == Outcome(s, NoPendWait)
            else if s.lock > 0 then out == Outcome(s, SchedDisabled)
            else out.status == Blocked && Awaits(s, out.k, o, ticks) && WaitsNow(s, out.k, o)
  {
    hide Wf, WaitOk, ReadyOk, TickOk, OwnOk, Signals, Inherits, IdleOk, Resched, Block, Boost, Awaits, WaitsNow;
    var b, a := s.objs[o], s.active;
    if b.kind == Mutex && b.owner.Some? && b.owner != Some(a) && ticks != NO_WAIT && s.lock == 0 {
      MutexLockInv(s, o, ticks);
      LockBlocksEffect(s, o, ticks);
      PrioBound(s, a);
      OwnerLive(s, o);
      BoostReady(s, b.owner.value, a);
      var s1 := Boost(s, b.owner.value, s.tasks[a].prio);
      assert SameButOrder(b, s1.objs[o]);
      BlockTimed(s1, o, a, ticks);
      ReschedAwaits(s, Block(s1, o, a, ticks), o, ticks);
    }
  }

  /** `krhino_event_get` that does not find what it asks for. What it finds is told by `Took`. */
  lemma GetAnswer(s: Kernel, o: Oid, flags: bv32, all: bool, clear: bool, ticks: nat)
    requires Inv(s) && o < |s.objs| && s.active != IDLE && ticks < TICK_RANGE
    ensures var out, b, a := EventGet(s, o, flags, all, clear, ticks), s.objs[o], s.active;
            if b.kind != Event then out == Outcome(s, TypeErr)
            else if Matches(b.flags, flags, all) then out.status == Success && Took(s, out.k, o, flags, clear)
            else if ticks == NO_WAIT then out == Outcome(s, NoPendWait)
            else if s.lock > 0 then out == Outcome(s, SchedDisabled)
            else
              && out.status == Blocked && Awaits(s, out.k, o, ticks) && OnlyWaits(s, out.k, o)
              && out.k.tasks[a].pendFlags == flags && out.k.tasks[a].pendAnd == all && out.k.tasks[a].pendClear == clear
  {
    hide Wf, WaitOk, ReadyOk, TickOk, OwnOk, Signals, Inherits, IdleOk, Resched, Block, Awaits, Matches, ClearFlags, Took;
    var b, a := s.objs[o], s.active;
    if b.kind == Event {
      if Matches(b.flags, flags, all) {
        GetEffect(s, o, flags, all, clear, ticks);
      } else if ticks != NO_WAIT && s.lock == 0 {
        EventGetInv(s, o, flags, all, clear, ticks);
        WantAgree(s, a, flags, all, clear);
        var s1 := Want(s, a, flags, all, clear);
        var r := Block(s1, o, a, ticks);
        BlockTimed(s1, o, a, ticks);
        BlockedWants(s1, o, a, ticks);
        ReschedAwaits(s, r, o, ticks);
        ReschedSame(r);
      }
    }
  }

  lemma BlockedWants(s: Kernel, o: Oid, t: Tid, ticks: nat)
    requires Wf(s) && TickOk(s) && CanBlock(s, o, t)
    ensures var k, k1 := s.tasks[t], Block(s, o, t, ticks).tasks[t];
            k1.pendFlags == k.pendFlags && k1.pendAnd == k.pendAnd && k1.pendClear == k.pendClear
  {}

  // ---------------------------------------------------------------- how waits end

  /** The call asks `o` for something, and waits for at most `d` ticks. */
  predicate Asks(c: Call, o: Oid, d: nat) {
    match c
    case Lock(x, ticks) => x == o && ticks == d
    case Take(x, ticks) => x == o && ticks == d
    case GetEvent(x, _, _, _, ticks) => x == o && ticks == d
    case _ => false
  }

  lemma CallAwaits(s: Kernel, c: Call, o: Oid, d: nat)
    requires Good(s) && Legal(s, c) && Safe(s, c) && Asks(c, o, d) && d < TICK_RANGE && Step(s, c).status == Blocked
    ensures Awaits(s, Step(s, c).k, o, d)
  {
    hide Wf, WaitOk, ReadyOk, TickOk, OwnOk, Signals, Inherits, IdleOk, ActiveOk, Linked, Awaits, Matches, OnlyWaits, WaitsNow, Took;
    match c
    case Lock(_, _) => IdleOwns(s, o); LockAnswer(s, o, d);
    case Take(_, _) => TakeAnswer(s, o, d);
    case GetEvent(_, flags, all, clear, _) => GetAnswer(s, o, flags, all, clear, d);
  }

  /** A call that blocks with a delay: as long as the task stays listed it waits for the same object, and
      the tick that makes up the delay, no earlier and no later one, ends the wait with a timeout. */
  lemma WaitTimesOut(s: Kernel, c: Call, o: Oid, d: nat, calls: seq<Call>, n: nat)
    requires Good(s) && Ordered(s) && Legal(s, c) && Safe(s, c) && Asks(c, o, d) && 0 < d <= MAX_TICKS && Step(s, c).status == Blocked
    requires Good(Step(s, c).k) && Runs(Step(s, c).k, calls) && AllShort(calls) && Waits(Step(s, c).k, calls, s.active) && n <= MAX_TICKS
    ensures Inv(Run(Step(s, c).k, calls))
    ensures var r, a := TickUpdate(Run(Step(s, c).k, calls), n).k, s.active;
            && a < |r.tasks| && o < |r.objs|
            && if Spans(calls) + n < d then r.tasks[a].blk == Some(o) && a in r.objs[o].waiters && a in r.ticks
               else r.tasks[a].blk == None && a !in r.objs[o].waiters && a !in r.ticks && r.tasks[a].wake == Timeout
  {
    hide Inv, Linked, Runs, Run, TickUpdate, Remaining, Step, Legal, Safe, Waits, Ordered;
    var s1 := Step(s, c).k;
    CallAwaits(s, c, o, d);
    StepOnTime(s, c);
    TimeRuns(s1, calls, s.active);
    WokenOnTime(s1, calls, s.active, n);
    RunOrdered(s1, calls);
    var r := Run(s1, calls);
    TickExact(r, n);
    TickUpdateInv(r, n);
    BlockedOn(r, s.active, o);
    BlockedOn(TickUpdate(r, n).k, s.active, o);
  }

  lemma BlockedOn(s: Kernel, t: Tid, o: Oid)
    requires Inv(s) && t < |s.tasks|
    ensures s.tasks[t].blk == Some(o) ==> s.tasks[t].Pending() && !s.tasks[t].Sleeping() && o < |s.objs|
    ensures o < |s.objs| ==> (t in s.objs[o].waiters <==> s.tasks[t].blk == Some(o))
  {
    assert TaskWf(s, s.tasks[t]);
  }

  /** No tick ends a wait for ever. */
  lemma NoAlarm(s: Kernel, t: Tid, n: nat)
    requires Inv(s) && Ordered(s) && t < |s.tasks| && t !in s.ticks && n <= MAX_TICKS
    ensures var r := TickUpdate(s, n).k;
            t < |r.tasks| && r.tasks[t] == s.tasks[t].(prio := r.tasks[t].prio) && t !in r.ticks
  {
    hide Inv, Ordered, TickUpdate, Remaining;
    TickExact(s, n);
  }

  /** `krhino_task_sleep` */
  lemma SleepAnswer(s: Kernel, ticks: nat)
    requires Inv(s) && s.active != IDLE && ticks < TICK_RANGE
    ensures var out, a := TaskSleep(s, ticks), s.active; var r := out.k;
            if ticks == 0 then out == Outcome(s, InvParam)
            else if s.lock > 0 then out == Outcome(s, SchedDisabled)
            else
              && out.status == Blocked && a < |r.tasks| == |s.tasks| && r.active != a
              && r.tasks == s.tasks[a := s.tasks[a].(st := Sleep, expires := r.tasks[a].expires)]
              && a in r.ticks && Left(r, a) == ticks && (forall t :: t != a ==> (t in r.ticks <==> t in s.ticks))
              && r.objs == s.objs && r.now == s.now && r.lock == s.lock
  {
    hide Wf, WaitOk, ReadyOk, TickOk, OwnOk, Signals, Inherits, IdleOk, FallAsleep, Resched, Remaining;
    TaskSleepInv(s, ticks);
    if ticks > 0 && s.lock == 0 {
      FallsAsleep(s, s.active, ticks);
      ReschedSame(FallAsleep(s, s.active, ticks));
    }
  }

  lemma FallsAsleep(s: Kernel, t: Tid, ticks: nat)
    requires Wf(s) && TickOk(s) && t < |s.tasks| && ticks < TICK_RANGE
    ensures var r := FallAsleep(s, t, ticks);
            && r.tasks == s.tasks[t := s.tasks[t].(st := Sleep, expires := r.tasks[t].expires)] && Left(r, t) == ticks
            && r.objs == s.objs && r.now == s.now && r.lock == s.lock && forall u :: u in r.ticks <==> u == t || u in s.ticks
  {
    hide Remaining, Insert;
    FreshLeft(s.now, ticks);
  }

  /** The tick that makes up the delay, no earlier and no later one, wakes the sleeper. */
  lemma SleepEnds(s: Kernel, d: nat, calls: seq<Call>, n: nat)
    requires Good(s) && Ordered(s) && s.active != IDLE && s.lock == 0 && 0 < d <= MAX_TICKS
    requires Good(TaskSleep(s, d).k) && Runs(TaskSleep(s, d).k, calls) && AllShort(calls) && Waits(TaskSleep(s, d).k, calls, s.active)
    requires n <= MAX_TICKS
    ensures Inv(Run(TaskSleep(s, d).k, calls))
    ensures var r, a := TickUpdate(Run(TaskSleep(s, d).k, calls), n).k, s.active;
            && a < |r.tasks|
            && if Spans(calls) + n < d then r.tasks[a].Sleeping() && a in r.ticks
               else !r.tasks[a].Sleeping() && a !in r.ticks && r.tasks[a].wake == Finish
  {
    hide Inv, Linked, Runs, Run, TickUpdate, Remaining, TaskSleep, Waits, Ordered, Agree;
    NotWaiting(s);
    var s1 := TaskSleep(s, d).k;
    SleepAnswer(s, d);
    SleepOnTime(s, d);
    OrderedThen(s, s1);
    TimeRuns(s1, calls, s.active);
    WokenOnTime(s1, calls, s.active, n);
    RunOrdered(s1, calls);
    var r := Run(s1, calls);
    TickExact(r, n);
    TickUpdateInv(r, n);
    Listens(r, s.active);
    Listens(TickUpdate(r, n).k, s.active);
  }

  lemma NotWaiting(s: Kernel)
    requires Inv(s)
    ensures Agree(s) && s.active < |s.tasks| && s.tasks[s.active].blk == None
  {
    assert TaskWf(s, s.tasks[s.active]);
  }

  /** Who is listed sleeps or waits. */
  lemma Listens(s: Kernel, t: Tid)
    requires Inv(s) && t < |s.tasks|
    ensures t in s.ticks && s.tasks[t].blk == None ==> s.tasks[t].Sleeping()
  {
    assert TaskWf(s, s.tasks[t]);
  }
}
