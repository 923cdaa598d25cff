/** Whole runs of the kernel, and what the invariant means for them. */
module KernelRun {
  import opened Flags
  import opened ReadyQueue
  import opened KernelState
  import opened PriorityChain
  import opened KernelInv
  import opened KernelSteps
  import opened KernelProofs
  import opened MutexProofs
  import opened CallProofs
  import opened TaskProofs
  import opened KernelStale
  import opened KernelKeeps

  datatype Call =
    | Lock(o: Oid, ticks: nat)
    | Unlock(o: Oid)
    | Take(o: Oid, ticks: nat)
    | Give(o: Oid, all: bool)
    | CountSet(o: Oid, n: nat)
    | GetEvent(o: Oid, flags: bv32, all: bool, clear: bool, ticks: nat)
    | SetEvent(o: Oid, flags: bv32, keep: bool)
    | NewObj(kind: Kind, count: nat, flags: bv32)
    | DelObj(o: Oid, kind: Kind)
    | SleepFor(ticks: nat)
    | Yield
    | Suspend(t: Tid)
    | Resume(t: Tid)
    | SetPri(t: Tid, pri: nat)
    | Abort(t: Tid)
    | NewTask(prio: nat, autorun: bool)
    | DelTask(t: Tid)
    | Tick(n: nat)
    | SchedDisable
    | SchedEnable

  const MAX_LOCK: nat := 200

  /** What the source expects of its callers: valid handles. */
  predicate Legal(s: Kernel, c: Call) {
    match c
    case Lock(o, _) => o < |s.objs|
    case Unlock(o) => o < |s.objs|
    case Take(o, _) => o < |s.objs|
    case Give(o, _) => o < |s.objs|
    case CountSet(o, _) => o < |s.objs|
    case GetEvent(o, _, _, _, _) => o < |s.objs|
    case SetEvent(o, _, _) => o < |s.objs|
    case DelObj(o, _) => o < |s.objs|
    case Suspend(t) => t < |s.tasks|
    case Resume(t) => t < |s.tasks|
    case SetPri(t, _) => t < |s.tasks|
    case Abort(t) => t < |s.tasks|
    case DelTask(t) => t < |s.tasks|
    case _ => true
  }

  /** What does no harm: the idle task neither blocks nor takes a mutex, and a task is not deleted
      once more while its old mutex list reaches a mutex that has an owner again. */
  predicate Safe(s: Kernel, c: Call)
    requires Legal(s, c)
  {
    match c
    case Lock(o, ticks) =>
      s.active == IDLE ==> s.objs[o].kind != Mutex || (s.objs[o].owner.Some? && (ticks == NO_WAIT || s.lock > 0))
    case Take(o, ticks) =>
      s.active == IDLE ==> s.objs[o].kind != Sem || s.objs[o].count > 0 || ticks == NO_WAIT || s.lock > 0
    case GetEvent(o, flags, all, _, ticks) =>
      s.active == IDLE ==> s.objs[o].kind != Event || Matches(s.objs[o].flags, flags, all) || ticks == NO_WAIT || s.lock > 0
    case SleepFor(ticks) => s.active == IDLE ==> ticks == 0 || s.lock > 0
    case DelTask(t) => s.tasks[t].Live() || s.tasks[t].prio == IDLE_PRI || Unreached(s, t)
    case _ => true
  }

  function SchedLock(s: Kernel): Outcome {
    if s.lock >= MAX_LOCK then Outcome(s, LockOvf) else Outcome(s.(lock := s.lock + 1), Success)
  }

  function SchedUnlock(s: Kernel): Outcome {
    if s.lock == 0 then Outcome(s, AlreadyEnabled)
    else if s.lock > 1 then Outcome(s.(lock := s.lock - 1), SchedDisabled)
    else Outcome(Resched(s.(lock := 0)), Success)
  }

  function Step(s: Kernel, c: Call): Outcome
    requires Inv(s) && Legal(s, c)
  {
    hide Wf, WaitOk, ReadyOk, TickOk, OwnOk, Signals, Inherits;
    match c
    case Lock(o, ticks) => MutexLock(s, o, ticks)
    case Unlock(o) => MutexUnlock(s, o)
    case Take(o, ticks) => SemTake(s, o, ticks)
    case Give(o, all) => SemGive(s, o, all)
    case CountSet(o, n) => SemCountSet(s, o, n)
    case GetEvent(o, flags, all, clear, ticks) => EventGet(s, o, flags, all, clear, ticks)
    case SetEvent(o, flags, keep) => EventSet(s, o, flags, keep)
    case NewObj(kind, count, flags) => ObjCreate(s, kind, count, flags)
    case DelObj(o, kind) => ObjDel(s, o, kind)
    case SleepFor(ticks) => TaskSleep(s, ticks)
    case Yield => TaskYield(s)
    case Suspend(t) => TaskSuspend(s, t)
    case Resume(t) => TaskResume(s, t)
    case SetPri(t, pri) => TaskPriChange(s, t, pri)
    case Abort(t) => WaitAbort(s, t)
    case NewTask(prio, autorun) => TaskCreate(s, prio, autorun)
    case DelTask(t) => TaskDel(s, t)
    case Tick(n) => TickUpdate(s, n)
    case SchedDisable => SchedLock(s)
    case SchedEnable => SchedUnlock(s)
  }

  /** The kernel invariant, and that the links left over in mutexes without owner lead on and end. */
  ghost predicate Good(s: Kernel) {
    Inv(s) && Linked(s)
  }

  /** The calls that work on objects. */
  predicate OnObject(c: Call) {
    c.Lock? || c.Unlock? || c.Take? || c.Give? || c.CountSet? || c.GetEvent? || c.SetEvent? || c.NewObj? || c.DelObj?
  }

  /** Every legal and safe kernel call keeps the invariant. */
  lemma StepInv(s: Kernel, c: Call)
    requires Good(s) && Legal(s, c) && Safe(s, c)
    ensures Good(Step(s, c).k)
  {
    hide Inv, Linked, Legal, Safe, Step;
    if OnObject(c) {
      ObjectCall(s, c);
      ObjectLinked(s, c);
    } else {
      TaskCall(s, c);
      TaskLinked(s, c);
    }
  }

  lemma ObjectCall(s: Kernel, c: Call)
    requires Inv(s) && Legal(s, c) && Safe(s, c) && OnObject(c)
    ensures Inv(Step(s, c).k)
  {
    hide Inv;
    match c
    case Lock(o, ticks) => LockInv(s, o, ticks);
    case Unlock(o) => MutexUnlockInv(s, o);
    case Take(o, ticks) => TakeInv(s, o, ticks);
    case Give(o, all) => SemGiveInv(s, o, all);
    case CountSet(o, n) => SemCountSetInv(s, o, n);
    case GetEvent(o, flags, all, clear, ticks) => GetInv(s, o, flags, all, clear, ticks);
    case SetEvent(o, flags, keep) => EventSetInv(s, o, flags, keep);
    case NewObj(kind, count, flags) => ObjCreateInv(s, kind, count, flags);
    case DelObj(o, kind) => ObjDelInv(s, o, kind);
  }

  lemma TaskCall(s: Kernel, c: Call)
    requires Good(s) && Legal(s, c) && Safe(s, c) && !OnObject(c)
    ensures Inv(Step(s, c).k)
  {
    hide Inv, Linked;
    match c
    case SleepFor(ticks) => SleepInv(s, ticks);
    case Yield => TaskYieldInv(s);
    case Suspend(t) => TaskSuspendInv(s, t);
    case Resume(t) => TaskResumeInv(s, t);
    case SetPri(t, pri) => TaskPriChangeInv(s, t, pri);
    case Abort(t) => WaitAbortInv(s, t);
    case NewTask(prio, autorun) => TaskCreateInv(s, prio, autorun);
    case DelTask(t) => DelInv(s, t);
    case Tick(n) => TickUpdateInv(s, n);
    case SchedDisable => SchedInv(s);
    case SchedEnable => SchedInv(s);
  }

  lemma ObjectLinked(s: Kernel, c: Call)
    requires Good(s) && Legal(s, c) && OnObject(c)
    ensures Linked(Step(s, c).k)
  {
    hide Inv, Linked;
    match c
    case Lock(o, ticks) => MutexLockLinked(s, o, ticks);
    case Unlock(o) => MutexUnlockLinked(s, o);
    case Take(o, ticks) => SemLinked(s, o, ticks, false, 0);
    case Give(o, all) => SemLinked(s, o, 0, all, 0);
    case CountSet(o, n) => SemLinked(s, o, 0, false, n);
    case GetEvent(o, flags, all, clear, ticks) => EventGetLinked(s, o, flags, all, clear, ticks);
    case SetEvent(o, flags, keep) => EventSetLinked(s, o, flags, keep);
    case NewObj(kind, count, flags) => CreateLinked(s, kind, count, flags, 0, false);
    case DelObj(o, kind) => ObjDelLinked(s, o, kind);
  }

  lemma TaskLinked(s: Kernel, c: Call)
    requires Good(s) && Legal(s, c) && Safe(s, c) && !OnObject(c)
    ensures Linked(Step(s, c).k)
  {
    hide Inv, Linked;
    match c
    case SleepFor(ticks) => SleepLinked(s, ticks);
    case Yield => SleepLinked(s, 0);
    case Suspend(t) => SuspendLinked(s, t);
    case Resume(t) => ResumeLinked(s, t);
    case SetPri(t, pri) => PriLinked(s, t, pri);
    case Abort(t) => AbortLinked(s, t);
    case NewTask(prio, autorun) => CreateLinked(s, NoObj, 0, 0, prio, autorun);
    case DelTask(t) => TaskDelLinked(s, t);
    case Tick(n) => TickLinked(s, n);
    case SchedDisable => SchedLinked(s);
    case SchedEnable => SchedLinked(s);
  }

  lemma SchedLinked(s: Kernel)
    requires Linked(s)
    ensures Linked(SchedLock(s).k) && Linked(SchedUnlock(s).k)
  {
    hide Linked, Resched;
    LinkedStays(s, s.(lock := s.lock + 1));
    LinkedStays(s, s.(lock := 0));
    ReschedLinked(s.(lock := 0));
    LinkedStays(s, SchedLock(s).k);
    if s.lock > 1 { LinkedStays(s, s.(lock := s.lock - 1)); }
  }

  /** A call keeps the invariant exactly if it is safe. */
  lemma StepIff(s: Kernel, c: Call)
    requires Good(s) && Legal(s, c)
    ensures Good(Step(s, c).k) <==> Safe(s, c)
    ensures Inv(Step(s, c).k) <==> Safe(s, c)
  {
    hide Inv, Linked, Safe;
    if Safe(s, c) {
      StepInv(s, c);
    } else {
      UnsafeBreaks(s, c);
    }
  }

  lemma UnsafeBreaks(s: Kernel, c: Call)
    requires Good(s) && Legal(s, c) && !Safe(s, c)
    ensures !Inv(Step(s, c).k)
  {
    match c
    case Lock(o, ticks) => IdleLocks(s, o, ticks);
    case Take(o, ticks) => IdleTakes(s, o, ticks);
    case GetEvent(o, flags, all, clear, ticks) => IdleGets(s, o, flags, all, clear, ticks);
    case SleepFor(ticks) => IdleSleeps(s, ticks);
    case DelTask(t) => TaskDelIff(s, t);
  }

  lemma DelInv(s: Kernel, t: Tid)
    requires Good(s) && Legal(s, DelTask(t)) && Safe(s, DelTask(t))
    ensures Inv(TaskDel(s, t).k)
  {
    hide Inv;
    TaskDelIff(s, t);
  }

  // ------------------------------------------------------------------ the idle task

  lemma LockInv(s: Kernel, o: Oid, ticks: nat)
    requires Inv(s) && Legal(s, Lock(o, ticks)) && Safe(s, Lock(o, ticks))
    ensures Inv(MutexLock(s, o, ticks).k)
  {
    if s.active != IDLE {
      MutexLockInv(s, o, ticks);
    } else {
      IdleOwns(s, o);
    }
  }

  /** The idle task owns no mutex. */
  lemma IdleOwns(s: Kernel, o: Oid)
    requires OwnOk(s) && IdleOk(s)
    ensures !Owns(s, IDLE, o)
  {
    assert o < |s.objs| ==> (o in s.tasks[IDLE].held <==> Owns(s, IDLE, o));
  }

  lemma IdleLocks(s: Kernel, o: Oid, ticks: nat)
    requires Inv(s) && Legal(s, Lock(o, ticks)) && !Safe(s, Lock(o, ticks))
    ensures !Inv(MutexLock(s, o, ticks).k)
  {
    hide Wf, WaitOk, ReadyOk, TickOk, OwnOk, Signals, Inherits, Boost, Boosted, Block, Resched;
    var r := MutexLock(s, o, ticks).k;
    if s.objs[o].owner.Some? {
      IdleOwns(s, o);
      OwnerLive(s, o);
      PrioBound(s, IDLE);
      BoostReady(s, s.objs[o].owner.value, IDLE);
      IdleBlocks(Boost(s, s.objs[o].owner.value, s.tasks[IDLE].prio), o, ticks);
      assert r.tasks[IDLE].st != Rdy;
    } else {
      assert r.tasks[IDLE].held != [];
    }
  }

  lemma IdleBlocks(s: Kernel, o: Oid, ticks: nat)
    requires Wf(s) && TickOk(s) && o < |s.objs| && IDLE < |s.tasks|
    ensures var r := Resched(Block(s, o, IDLE, ticks)); IDLE < |r.tasks| && r.tasks[IDLE].st == Pend
  {}

  lemma TakeInv(s: Kernel, o: Oid, ticks: nat)
    requires Inv(s) && Legal(s, Take(o, ticks)) && Safe(s, Take(o, ticks))
    ensures Inv(SemTake(s, o, ticks).k)
  {
    hide Inv, Block, Resched;
    if s.active == IDLE && ticks != NO_WAIT {
      SemTakeInv(s, o, NO_WAIT);
    } else {
      SemTakeInv(s, o, ticks);
    }
  }

  lemma IdleTakes(s: Kernel, o: Oid, ticks: nat)
    requires Inv(s) && Legal(s, Take(o, ticks)) && !Safe(s, Take(o, ticks))
    ensures !Inv(SemTake(s, o, ticks).k)
  {
    hide WaitOk, ReadyOk, OwnOk, Signals, Inherits, Block, Resched;
    IdleBlocks(s, o, ticks);
  }

  lemma GetInv(s: Kernel, o: Oid, flags: bv32, all: bool, clear: bool, ticks: nat)
    requires Inv(s) && Legal(s, GetEvent(o, flags, all, clear, ticks)) && Safe(s, GetEvent(o, flags, all, clear, ticks))
    ensures Inv(EventGet(s, o, flags, all, clear, ticks).k)
  {
    hide Inv, Block, Resched, Matches;
    if s.active == IDLE && ticks != NO_WAIT {
      EventGetInv(s, o, flags, all, clear, NO_WAIT);
    } else {
      EventGetInv(s, o, flags, all, clear, ticks);
    }
  }

  lemma IdleGets(s: Kernel, o: Oid, flags: bv32, all: bool, clear: bool, ticks: nat)
    requires Inv(s) && Legal(s, GetEvent(o, flags, all, clear, ticks)) && !Safe(s, GetEvent(o, flags, all, clear, ticks))
    ensures !Inv(EventGet(s, o, flags, all, clear, ticks).k)
  {
    hide WaitOk, ReadyOk, OwnOk, Signals, Inherits, Block, Resched, Matches;
    WantAgree(s, IDLE, flags, all, clear);
    IdleBlocks(Want(s, IDLE, flags, all, clear), o, ticks);
  }

  lemma SleepInv(s: Kernel, ticks: nat)
    requires Inv(s) && Safe(s, SleepFor(ticks))
    ensures Inv(TaskSleep(s, ticks).k)
  {
    hide Inv, FallAsleep, Resched;
    if s.active != IDLE { TaskSleepInv(s, ticks); }
  }

  lemma IdleSleeps(s: Kernel, ticks: nat)
    requires Inv(s) && !Safe(s, SleepFor(ticks))
    ensures !Inv(TaskSleep(s, ticks).k)
  {
    hide WaitOk, ReadyOk, OwnOk, Signals, Inherits;
  }

  lemma SchedInv(s: Kernel)
    requires Inv(s)
    ensures Inv(SchedLock(s).k) && Inv(SchedUnlock(s).k)
  {
    hide Wf, WaitOk, ReadyOk, TickOk, OwnOk, Inherits, Signals, Resched;
    CoreFrame(s, s.(lock := s.lock + 1));
    if s.lock > 0 {
      CoreFrame(s, s.(lock := s.lock - 1));
      if s.lock == 1 { ReschedInv(s.(lock := 0)); }
    }
  }

  /** The system before the first call: the idle task alone. */
  function Boot(): Kernel {
    Kernel([Task(Rdy, IDLE_PRI, IDLE_PRI, None, [], None, 0, Finish, 0, false, false, 0, 0)],
           [], seq(PRI_MAX, p => if p == IDLE_PRI then [IDLE] else []), [], 0, IDLE, 0)
  }

  lemma BootInv()
    ensures Inv(Boot())
  {
    BootLists();
    BootPriority();
  }

  lemma BootLists()
    ensures Agree(Boot()) && Signals(Boot()) && IdleOk(Boot()) && ActiveOk(Boot())
  {
    BootAgree();
    var s := Boot();
    assert s.ready[IDLE_PRI] == [IDLE] && forall p :: 0 <= p < IDLE_PRI ==> s.ready[p] == [];
    assert Highest(s.ready, 0) == IDLE_PRI;
  }

  lemma BootAgree()
    ensures Agree(Boot())
  {
    var s := Boot();
    assert s.ready[IDLE_PRI] == [IDLE] && forall p :: 0 <= p < IDLE_PRI ==> s.ready[p] == [];
    assert Wf(s) && WaitOk(s) && TickOk(s) && OwnOk(s);
  }

  lemma BootPriority()
    ensures Inherits(Boot(), Bases(Boot().tasks))
  {
    assert IsLeast(Boot(), Bases(Boot().tasks), IDLE, IDLE_PRI);
  }

  lemma BootLinked()
    ensures Good(Boot())
  {
    hide Inv;
    BootInv();
    NoObjects(Boot());
  }

  lemma NoObjects(s: Kernel)
    requires s.objs == [] && forall t :: 0 <= t < |s.tasks| ==> s.tasks[t].stale == None
    ensures Linked(s)
  {
    assert Ranked(s, []);
  }

  /** Each call of the sequence is legal and safe where it is made. */
  ghost predicate Runs(s: Kernel, calls: seq<Call>)
    requires Good(s)
    decreases |calls|
  {
    calls != [] ==>
      && Legal(s, calls[0]) && Safe(s, calls[0])
      && (StepInv(s, calls[0]); Runs(Step(s, calls[0]).k, calls[1..]))
  }

  /** The state after a sequence of calls. */
  ghost function Run(s: Kernel, calls: seq<Call>): (r: Kernel)
    requires Good(s) && Runs(s, calls)
    ensures Good(r)
    decreases |calls|
  {
    if calls == [] then s
    else
      StepInv(s, calls[0]);
      Run(Step(s, calls[0]).k, calls[1..])
  }

  /** The state after any such sequence of calls from system start. */
  ghost predicate Reachable(s: Kernel) {
    Good(Boot()) && exists calls :: Runs(Boot(), calls) && s == Run(Boot(), calls)
  }

  /** In every reachable state the loop of `task_mutex_free` ends, even for a task that is dead. */
  lemma DeletionEnds(s: Kernel, t: Tid)
    requires Reachable(s) && t < |s.tasks|
    ensures Ends(s, s.tasks[t].stale, |s.objs|)
  {
    var calls :| Runs(Boot(), calls) && s == Run(Boot(), calls);
    StaleWalkEnds(s, t);
  }

  // ------------------------------------------------- what the equation amounts to

  /** `path` leads from `path[0]` to its last task, each waiting for a mutex the next one owns. */
  ghost predicate Chained(s: Kernel, path: seq<Tid>) {
    && path != []
    && (forall i :: 0 <= i < |path| ==> path[i] < |s.tasks|)
    && (forall i :: 0 <= i < |path| - 1 ==> WaitsFor(s, path[i], path[i + 1]))
  }

  /** An owner runs at least as urgently as each task that waits for it. */
  lemma NoInversion(s: Kernel, u: Tid, t: Tid)
    requires Agree(s) && Inherits(s, Bases(s.tasks)) && t < |s.tasks| && WaitsFor(s, u, t)
    ensures s.tasks[t].Live() && s.tasks[t].prio <= s.tasks[u].prio
  {
    var o := s.tasks[u].blk.value;
    OwnerLive(s, o);
    assert u in s.objs[o].waiters;
    TopIsMin(s, o, u);
    assert IsLeast(s, Bases(s.tasks), t, s.tasks[t].prio) && OwnsWaited(s, t, o);
  }

  /** ... and as each task that waits for it through any chain of blocked owners. */
  lemma {:induction false} NoInversionChain(s: Kernel, path: seq<Tid>)
    requires Agree(s) && Inherits(s, Bases(s.tasks)) && Chained(s, path) && s.tasks[path[0]].Live()
    ensures s.tasks[path[|path| - 1]].prio <= s.tasks[path[0]].prio <= s.tasks[path[0]].bprio
    decreases |path|
  {
    assert IsLeast(s, Bases(s.tasks), path[0], s.tasks[path[0]].prio);
    if |path| > 1 {
      NoInversion(s, path[0], path[1]);
      assert Chained(s, path[1..]);
      NoInversionChain(s, path[1..]);
    }
  }

  /** `rank` witnesses that no task waits for itself through a chain: there is no deadlock. */
  ghost predicate NoDeadlock(s: Kernel, rank: seq<nat>) {
    && |rank| == |s.tasks|
    && forall u, t :: 0 <= u < |rank| && 0 <= t < |rank| && WaitsFor(s, u, t) ==> rank[u] < rank[t]
  }

  /** Without deadlock, a boosted priority is always somebody's base priority: that of a task
      blocked, through a chain of owners, on this one. */
  lemma {:induction false} BoostHasCause(s: Kernel, rank: seq<nat>, t: Tid) returns (path: seq<Tid>)
    requires Agree(s) && Inherits(s, Bases(s.tasks)) && NoDeadlock(s, rank) && t < |s.tasks| && s.tasks[t].Live()
    ensures Chained(s, path) && path[|path| - 1] == t && s.tasks[path[0]].Live()
    ensures s.tasks[path[0]].bprio == s.tasks[t].prio
    decreases rank[t]
  {
    hide ReadyOk, TickOk;
    assert IsLeast(s, Bases(s.tasks), t, s.tasks[t].prio);
    if s.tasks[t].prio == s.tasks[t].bprio {
      path := [t];
    } else {
      var o :| OwnsWaited(s, t, o) && Top(s, o) == s.tasks[t].prio;
      var u := First(s, o);
      assert WaitsFor(s, u, t);
      var p := BoostHasCause(s, rank, u);
      path := p + [t];
      ChainSnoc(s, p, t);
    }
  }

  lemma ChainSnoc(s: Kernel, p: seq<Tid>, t: Tid)
    requires Chained(s, p) && t < |s.tasks| && WaitsFor(s, p[|p| - 1], t)
    ensures Chained(s, p + [t])
  {
    var path := p + [t];
    forall i | 0 <= i < |path| - 1 ensures WaitsFor(s, path[i], path[i + 1]) {
      if i < |p| - 1 { assert WaitsFor(s, p[i], p[i + 1]); }
    }
  }

  lemma ChainSlice(s: Kernel, path: seq<Tid>, lo: nat, hi: nat)
    requires Chained(s, path) && lo < hi <= |path|
    ensures Chained(s, path[lo..hi])
  {
    var p := path[lo..hi];
    forall i | 0 <= i < |p| - 1 ensures WaitsFor(s, p[i], p[i + 1]) {
      assert WaitsFor(s, path[lo + i], path[lo + i + 1]);
    }
  }

  /** All tasks on a deadlock cycle run at the same priority. */
  lemma CycleLevel(s: Kernel, path: seq<Tid>, i: nat)
    requires Agree(s) && Inherits(s, Bases(s.tasks)) && Chained(s, path) && i < |path|
    requires WaitsFor(s, path[|path| - 1], path[0])
    ensures s.tasks[path[i]].prio == s.tasks[path[0]].prio
  {
    hide Wf, WaitOk, ReadyOk, TickOk, OwnOk, Inherits;
    var n := |path|;
    ChainSlice(s, path, i, n);
    ChainSlice(s, path, 0, i + 1);
    assert i < n - 1 ==> WaitsFor(s, path[i], path[i + 1]);
    assert n > 1 ==> WaitsFor(s, path[0], path[1]);
    WaiterLive(s, path[0]);
    WaiterLive(s, path[i]);
    NoInversion(s, path[n - 1], path[0]);
    NoInversionChain(s, path[i..n]);
    NoInversionChain(s, path[..i + 1]);
  }

  lemma WaiterLive(s: Kernel, u: Tid)
    requires Agree(s) && u < |s.tasks| && s.tasks[u].blk.Some?
    ensures s.tasks[u].Live() && s.tasks[u].Pending()
  {
    assert TaskWf(s, s.tasks[u]);
  }

  /** With the scheduler unlocked, the running task of a reachable state is a ready task, and no
      ready task is more urgent. */
  lemma RunsMostUrgent(s: Kernel, t: Tid)
    requires Reachable(s) && s.lock == 0 && t < |s.tasks| && s.tasks[t].st == Rdy
    ensures s.active < |s.tasks| && s.tasks[s.active].st == Rdy && s.tasks[s.active].prio <= s.tasks[t].prio
  {
    var calls :| Runs(Boot(), calls) && s == Run(Boot(), calls);
    IdleReady(s);
    assert TaskWf(s, s.tasks[t]);
    assert t in s.ready[s.tasks[t].prio];
  }
}
