/** Calls that nest: mutex depth, suspensions, and the scheduler lock. */
module KernelNesting {
  import opened ReadyQueue
  import opened KernelState
  import opened PriorityChain
  import opened KernelInv
  import opened KernelSteps
  import opened MutexProofs
  import opened CallProofs
  import opened TaskProofs
  import opened KernelStale
  import opened KernelRun
  import opened KernelEffects
  import opened KernelCalls
  import opened KernelTwice

  // ------------------------------------------------------------------- mutexes

  /** Only the depth of `o` has changed, to `n`. */
  predicate DepthOnly(s: Kernel, r: Kernel, o: Oid, n: nat) {
    o < |s.objs| && r == s.(objs := s.objs[o := s.objs[o].(nested := n)])
  }

  /** `krhino_mutex_unlock`, in all cases. A mutex that its owner holds at another depth than one stays with
      it; a depth of zero wraps. */
  lemma UnlockAnswer(s: Kernel, o: Oid)
    requires Inv(s) && o < |s.objs|
    ensures var out, b, a := MutexUnlock(s, o), s.objs[o], s.active;
            && |out.k.objs| == |s.objs| && |out.k.tasks| == |s.tasks|
            && if b.kind != Mutex then out == Outcome(s, TypeErr)
               else if b.owner != Some(a) then out == Outcome(s, NotOwner)
               else if b.nested == 1 then out.status == Success && PassedOn(s, out.k, a, o)
               else out.status == OwnerNested && DepthOnly(s, out.k, o, if b.nested > 1 then b.nested - 1 else MAX_COUNT)
  {
    hide Wf, WaitOk, ReadyOk, TickOk, OwnOk, Signals, Inherits, IdleOk, Resched, Release, DropHeld, KernelSteps.Give;
    var b := s.objs[o];
    if b.kind == Mutex && b.owner == Some(s.active) && b.nested == 1 {
      UnlockEffect(s, o);
    }
  }

  /** The state after `n` locks in a row. */
  ghost function Locks(s: Kernel, o: Oid, n: nat): (r: Kernel)
    requires Inv(s) && o < |s.objs| && s.active != IDLE
    ensures Inv(r) && |r.objs| == |s.objs| && r.active == s.active
  {
    if n == 0 then s
    else
      var s1 := Locks(s, o, n - 1);
      MutexLockInv(s1, o, NO_WAIT);
      LockStays(s1, o);
      MutexLock(s1, o, NO_WAIT).k
  }

  lemma LockStays(s: Kernel, o: Oid)
    requires Inv(s) && o < |s.objs|
    ensures MutexLock(s, o, NO_WAIT).k.active == s.active && |MutexLock(s, o, NO_WAIT).k.objs| == |s.objs|
  {
    hide Wf, WaitOk, ReadyOk, TickOk, OwnOk, Signals, Inherits, IdleOk, Resched, Block, Boost;
  }

  /** The state after `n` unlocks in a row. */
  ghost function Unlocks(s: Kernel, o: Oid, n: nat): (r: Kernel)
    requires Inv(s) && o < |s.objs|
    ensures Inv(r) && |r.objs| == |s.objs|
  {
    if n == 0 then s
    else
      var s1 := Unlocks(s, o, n - 1);
      MutexUnlockInv(s1, o);
      UnlockAnswer(s1, o);
      MutexUnlock(s1, o).k
  }

  /** Locking a free mutex `n` times takes it once and counts the rest. */
  lemma {:induction false} LocksDepth(s: Kernel, o: Oid, n: nat)
    requires Inv(s) && o < |s.objs| && s.active != IDLE && s.objs[o].kind == Mutex && s.objs[o].owner == None && 0 < n <= MAX_COUNT
    ensures Owns(Locks(s, o, n), s.active, o) && Locks(s, o, n).objs[o].nested == n
    ensures DepthOnly(Locks(s, o, 1), Locks(s, o, n), o, n)
    decreases n
  {
    hide Inv, MutexLock;
    if n == 1 {
      LockEffect(s, o, NO_WAIT);
      assert Locks(s, o, 0) == s;
    } else {
      LocksDepth(s, o, n - 1);
      NextLock(Locks(s, o, n - 1), o);
    }
  }

  lemma NextLock(s: Kernel, o: Oid)
    requires Inv(s) && o < |s.objs| && Owns(s, s.active, o)
    ensures if s.objs[o].nested == MAX_COUNT then MutexLock(s, o, NO_WAIT) == Outcome(s, NestedOvf)
            else MutexLock(s, o, NO_WAIT).status == OwnerNested && DepthOnly(s, MutexLock(s, o, NO_WAIT).k, o, s.objs[o].nested + 1)
  {
    hide Wf, WaitOk, ReadyOk, TickOk, OwnOk, Signals, Inherits, IdleOk, Resched, Block, Boost;
  }

  /** Fewer unlocks than locks leave the mutex with its owner. */
  lemma {:induction false} UnlocksDepth(s: Kernel, o: Oid, k: nat)
    requires Inv(s) && o < |s.objs| && Owns(s, s.active, o) && k < s.objs[o].nested
    ensures DepthOnly(s, Unlocks(s, o, k), o, s.objs[o].nested - k)
    decreases k
  {
    hide Inv, MutexUnlock, PassedOn;
    if k == 0 {
      assert s.objs[o := s.objs[o].(nested := s.objs[o].nested)] == s.objs;
    } else {
      UnlocksDepth(s, o, k - 1);
      UnlockAnswer(Unlocks(s, o, k - 1), o);
    }
  }

  /** As many unlocks as the mutex is deep pass it on to the first in line, or free it. */
  lemma LastUnlock(s: Kernel, o: Oid)
    requires Inv(s) && o < |s.objs| && Owns(s, s.active, o) && s.objs[o].nested > 0
    ensures PassedOn(s, Unlocks(s, o, s.objs[o].nested), s.active, o)
  {
    hide Inv, MutexUnlock;
    var n := s.objs[o].nested;
    UnlocksDepth(s, o, n - 1);
    UnlockAnswer(Unlocks(s, o, n - 1), o);
  }

  /** After `n` locks of a free mutex the first `n - 1` unlocks leave it with its owner, and the `n`-th frees
      it: then all is as before but for the stale link. */
  lemma LocksUnlocks(s: Kernel, o: Oid, n: nat, k: nat)
    requires Inv(s) && o < |s.objs| && s.active != IDLE && s.objs[o].kind == Mutex && s.objs[o].owner == None
    requires k <= n && 0 < n <= MAX_COUNT
    ensures var r := Unlocks(Locks(s, o, n), o, k);
            if k < n then Owns(r, s.active, o) && r.objs[o].nested == n - k
            else r == s.(objs := s.objs[o := s.objs[o].(nested := 0, link := Head(s.tasks[s.active].held))])
  {
    hide Inv, MutexLock, MutexUnlock;
    LocksDepth(s, o, n);
    var r := Locks(s, o, n);
    UnlocksDepth(r, o, if k < n then k else n - 1);
    if k == n {
      LockUnlock(s, o);
      assert Locks(s, o, 0) == s;
      LocksDepth(s, o, 1);
      DepthBack(Locks(s, o, 1), r, Unlocks(r, o, n - 1), o, n, 1);
    }
  }

  lemma DepthBack(s: Kernel, r: Kernel, u: Kernel, o: Oid, n: nat, m: nat)
    requires DepthOnly(s, r, o, n) && DepthOnly(r, u, o, m) && s.objs[o].nested == m
    ensures u == s
  {
    assert u.objs == s.objs;
  }

  /** Who inherits a mutex from a dead task inherits its depth: the heir's first unlock gives it up iff the
      dead task had locked it once. */
  lemma HeirUnlocks(s: Kernel, t: Tid, o: Oid, z: Kernel)
    requires Inv(s) && t < |s.tasks| && s.tasks[t].Live() && Owns(s, t, o) && s.objs[o].waiters != [] && TaskDel(s, t).status == Success
    requires Inv(z) && z.objs == TaskDel(s, t).k.objs && z.active == s.objs[o].waiters[0]
    ensures Owns(z, z.active, o)
    ensures MutexUnlock(z, o).status == Success <==> s.objs[o].nested == 1
    ensures s.objs[o].nested > 1 ==>
              MutexUnlock(z, o).status == OwnerNested && DepthOnly(z, MutexUnlock(z, o).k, o, s.objs[o].nested - 1)
  {
    hide Inv, TaskDel, MutexUnlock, PassedOn, Inherited;
    Alive(s);
    TaskDelHeir(s, t, o);
    UnlockAnswer(z, o);
  }

  /** So task 2, whom a dead task has left a mutex locked twice, does not give it up with its only unlock. */
  lemma ExampleHeir()
    ensures Good(Example(2)) && Inv(TaskDel(Example(2), 1).k) && |TaskDel(Example(2), 1).k.objs| == 1
    ensures var r := TaskDel(Example(2), 1).k;
            r.active == 2 && Owns(r, 2, 0) && MutexUnlock(r, 0).status == OwnerNested && Owns(MutexUnlock(r, 0).k, 2, 0)
  {
    hide Good, Inv, TaskDel, MutexUnlock;
    ExampleGood(2);
    HeirOf(Example(2));
  }

  lemma HeirOf(s: Kernel)
    requires Good(s) && |s.tasks| == 3 && |s.objs| == 1 && s.lock == 0 && Owns(s, 1, 0) && s.objs[0].waiters == [2] && s.objs[0].nested == 2
    requires s.tasks[1].Live() && s.tasks[1].prio != IDLE_PRI && s.tasks[2].st == Pend
    ensures Inv(TaskDel(s, 1).k) && |TaskDel(s, 1).k.objs| == 1
    ensures var r := TaskDel(s, 1).k;
            r.active == 2 && Owns(r, 2, 0) && MutexUnlock(r, 0).status == OwnerNested && Owns(MutexUnlock(r, 0).k, 2, 0)
  {
    hide Inv, Good, TaskDel, MutexUnlock, Inherited;
    HeirRuns(s);
    Alive(s);
    HeirUnlocks(s, 1, 0, TaskDel(s, 1).k);
  }

  lemma HeirRuns(s: Kernel)
    requires Good(s) && |s.tasks| == 3 && |s.objs| == 1 && s.lock == 0 && Owns(s, 1, 0) && s.objs[0].waiters == [2]
    requires s.tasks[1].Live() && s.tasks[1].prio != IDLE_PRI && s.tasks[2].st == Pend
    ensures Inv(s) && TaskDel(s, 1).status == Success && Inv(TaskDel(s, 1).k) && |TaskDel(s, 1).k.objs| == 1 && TaskDel(s, 1).k.active == 2
  {
    hide Inv, Linked, TaskDel;
    Alive(s);
    DeleteAnswer(s, 1);
    StepInv(s, DelTask(1));
    HeirReady(s);
    OneRuns(TaskDel(s, 1).k);
  }

  lemma HeirReady(s: Kernel)
    requires Inv(s) && |s.tasks| == 3 && |s.objs| == 1 && Owns(s, 1, 0) && s.objs[0].waiters == [2]
    requires s.tasks[1].Live() && s.tasks[2].st == Pend && TaskDel(s, 1).status == Success
    ensures var r := TaskDel(s, 1).k;
            |r.tasks| == 3 && |r.objs| == 1 && r.lock == s.lock && !r.tasks[1].Live() && r.tasks[2].st == Rdy
  {
    hide Inv, TaskDel, Head;
    Alive(s);
    TaskDelHeir(s, 1, 0);
    TaskDelOthers(s, 1, 1);
  }

  lemma OneRuns(r: Kernel)
    requires Inv(r) && r.lock == 0 && |r.tasks| == 3 && !r.tasks[1].Live() && r.tasks[2].st == Rdy
    ensures r.active == 2
  {
    hide WaitOk, TickOk, OwnOk, Signals, Inherits;
    var p := r.tasks[2].prio;
    assert TaskWf(r, r.tasks[2]) && 2 in r.ready[p];
    IdlePrio(r, 2);
    IdlePrio(r, 0);
    assert r.active in r.ready[Highest(r.ready, 0)];
  }

  lemma Alive(s: Kernel)
    requires Inv(s)
    ensures Agree(s)
  {}

  // ------------------------------------------------------------------- semaphores

  /** `krhino_sem_count_set` */
  lemma CountAnswer(s: Kernel, o: Oid, n: nat)
    requires Inv(s) && o < |s.objs|
    ensures var out, b := SemCountSet(s, o, n), s.objs[o];
            if b.kind != Sem then out == Outcome(s, TypeErr)
            else if b.waiters == [] then out == Outcome(s.(objs := s.objs[o := b.(count := n)]), Success)
            else out == Outcome(s, TaskWaiting)
  {
    hide Agree, Inherits;
    SignalAt(s, o);
  }

  /** The state after `n` takes in a row. */
  ghost function Takes(s: Kernel, o: Oid, n: nat): (r: Kernel)
    requires Inv(s) && o < |s.objs|
    ensures Inv(r) && |r.objs| == |s.objs|
  {
    if n == 0 then s
    else
      var s1 := Takes(s, o, n - 1);
      SemTakeInv(s1, o, NO_WAIT);
      NextTake(s1, o);
      SemTake(s1, o, NO_WAIT).k
  }

  lemma NextTake(s: Kernel, o: Oid)
    requires Inv(s) && o < |s.objs|
    ensures var out, b := SemTake(s, o, NO_WAIT), s.objs[o];
            if b.kind != Sem then out == Outcome(s, TypeErr)
            else if b.count == 0 then out == Outcome(s, NoPendWait)
            else out == Outcome(s.(objs := s.objs[o := b.(count := b.count - 1)]), Success)
  {
    hide Wf, WaitOk, ReadyOk, TickOk, OwnOk, Signals, Inherits, Resched, Block;
  }

  /** As many takes succeed as the semaphore counts, and no more. */
  lemma {:induction false} TakesCount(s: Kernel, o: Oid, n: nat)
    requires Inv(s) && o < |s.objs| && s.objs[o].kind == Sem && n <= s.objs[o].count
    ensures Takes(s, o, n) == s.(objs := s.objs[o := s.objs[o].(count := s.objs[o].count - n)])
    ensures SemTake(Takes(s, o, n), o, NO_WAIT).status == if n < s.objs[o].count then Success else NoPendWait
    decreases n
  {
    hide Inv, SemTake;
    if n == 0 {
      assert s.objs[o := s.objs[o].(count := s.objs[o].count)] == s.objs;
    } else {
      TakesCount(s, o, n - 1);
      NextTake(Takes(s, o, n - 1), o);
    }
    NextTake(Takes(s, o, n), o);
  }

  /** A count of `n` serves `n` takes. */
  lemma CountTakes(s: Kernel, o: Oid, n: nat, k: nat)
    requires Inv(s) && o < |s.objs| && s.objs[o].kind == Sem && s.objs[o].waiters == [] && k <= n
    ensures var s1 := SemCountSet(s, o, n).k;
            Inv(s1) && |s1.objs| == |s.objs| && SemTake(Takes(s1, o, k), o, NO_WAIT).status == if k < n then Success else NoPendWait
  {
    hide Inv, SemTake, SemCountSet;
    SemCountSetInv(s, o, n);
    CountAnswer(s, o, n);
    TakesCount(SemCountSet(s, o, n).k, o, k);
  }

  // ------------------------------------------------------------------- suspensions

  /** The tables differ in the task `t` only. */
  ghost predicate TaskIs(s: Kernel, r: Kernel, t: Tid, k: Task) {
    && t < |s.tasks| && r.tasks == s.tasks[t := k] && r.objs == s.objs && r.ticks == s.ticks && r.now == s.now && r.lock == s.lock
  }

  ghost function Suspends(s: Kernel, t: Tid, n: nat): (r: Kernel)
    requires Inv(s) && t < |s.tasks|
    ensures Inv(r) && |r.tasks| == |s.tasks|
  {
    if n == 0 then s
    else
      var s1 := Suspends(s, t, n - 1);
      TaskSuspendInv(s1, t);
      SuspendSizes(s1, t);
      TaskSuspend(s1, t).k
  }

  lemma SuspendSizes(s: Kernel, t: Tid)
    requires Inv(s) && t < |s.tasks|
    ensures |TaskSuspend(s, t).k.tasks| == |s.tasks| && |TaskResume(s, t).k.tasks| == |s.tasks|
  {
    hide Wf, WaitOk, ReadyOk, TickOk, OwnOk, Signals, Inherits, Resched, Move;
    Alive(s);
    var n := if s.tasks[t].susp == 0 then MAX_SUSPEND else s.tasks[t].susp - 1;
    WithSuspWf(s, t, n);
    ReschedAny();
  }

  lemma ReschedAny()
    ensures forall s: Kernel :: Resched(s).tasks == s.tasks
  {}

  ghost function Resumes(s: Kernel, t: Tid, n: nat): (r: Kernel)
    requires Inv(s) && t < |s.tasks|
    ensures Inv(r) && |r.tasks| == |s.tasks|
  {
    if n == 0 then s
    else
      var s1 := Resumes(s, t, n - 1);
      TaskResumeInv(s1, t);
      SuspendSizes(s1, t);
      TaskResume(s1, t).k
  }

  function Halted(st: TaskState): TaskState {
    match st
    case Rdy => Susp
    case Sleep => SleepSusp
    case Pend => PendSusp
    case _ => st
  }

  /** Suspensions are counted. */
  lemma {:induction false} SuspendsCount(s: Kernel, t: Tid, n: nat)
    requires Inv(s) && t < |s.tasks| && CanSuspend(s.tasks[t]) && s.tasks[t].prio != IDLE_PRI && (t == s.active ==> s.lock == 0)
    requires 0 < n <= MAX_SUSPEND
    ensures TaskIs(s, Suspends(s, t, n), t, s.tasks[t].(st := Halted(s.tasks[t].st), susp := n))
    decreases n
  {
    hide Inv, TaskSuspend;
    if n == 1 {
      SuspendAnswer(s, t);
      assert Suspends(s, t, 0) == s;
    } else {
      SuspendsCount(s, t, n - 1);
      var s1 := Suspends(s, t, n - 1);
      HaltedRuns(s1, t);
      SuspendAnswer(s1, t);
    }
  }

  lemma HaltedRuns(s: Kernel, t: Tid)
    requires Inv(s) && t < |s.tasks| && s.tasks[t].st != Rdy
    ensures t != s.active
  {}

  /** Fewer resumes than suspensions leave the task suspended. */
  lemma {:induction false} ResumesCount(s: Kernel, t: Tid, k: nat)
    requires Inv(s) && t < |s.tasks| && k < s.tasks[t].susp && s.tasks[t].st in {Susp, SleepSusp, PendSusp}
    ensures TaskIs(s, Resumes(s, t, k), t, s.tasks[t].(susp := s.tasks[t].susp - k))
    decreases k
  {
    hide Inv, TaskResume;
    if k == 0 {
      assert s.tasks[t := s.tasks[t].(susp := s.tasks[t].susp)] == s.tasks;
    } else {
      ResumesCount(s, t, k - 1);
      ResumeAnswer(Resumes(s, t, k - 1), t);
    }
  }

  /** After `n` suspensions the first `n - 1` resumes leave the task suspended, and the `n`-th brings it back:
      a task that was ready is the last of its list. */
  lemma SuspendsResumes(s: Kernel, t: Tid, n: nat, k: nat)
    requires Inv(s) && t < |s.tasks| && CanSuspend(s.tasks[t]) && s.tasks[t].prio != IDLE_PRI && (t == s.active ==> s.lock == 0)
    requires k <= n && 0 < n <= MAX_SUSPEND
    ensures var r := Resumes(Suspends(s, t, n), t, k);
            if k < n then TaskIs(s, r, t, s.tasks[t].(st := Halted(s.tasks[t].st), susp := n - k))
            else TaskIs(s, r, t, s.tasks[t].(susp := 0)) && (s.tasks[t].st == Rdy ==> LastInLane(r, t))
  {
    hide Inv, TaskResume, TaskSuspend;
    SuspendsCount(s, t, n);
    var s1 := Suspends(s, t, n);
    ResumesCount(s1, t, if k < n then k else n - 1);
    if k == n { ResumeAnswer(Resumes(s1, t, n - 1), t); }
  }

  // ------------------------------------------------------------- the scheduler lock

  function Disables(s: Kernel, n: nat): Kernel {
    if n == 0 then s else SchedLock(Disables(s, n - 1)).k
  }

  function Enables(s: Kernel, n: nat): Kernel {
    if n == 0 then s else SchedUnlock(Enables(s, n - 1)).k
  }

  /** After `n` calls of `krhino_sched_disable` it takes as many of `krhino_sched_enable` until another task
      may run. */
  lemma {:induction false} DisablesEnables(s: Kernel, n: nat, k: nat)
    requires Inv(s) && s.lock == 0 && k <= n <= MAX_LOCK
    ensures var r := Enables(Disables(s, n), k);
            && r == s.(lock := n - k) && (k < n ==> SchedUnlock(r).status == if k + 1 < n then SchedDisabled else Success)
    decreases n + k
  {
    hide Wf, WaitOk, ReadyOk, TickOk, OwnOk, Signals, Inherits, IdleOk;
    if k > 0 {
      DisablesEnables(s, n, k - 1);
    } else if n > 0 {
      DisablesEnables(s, n - 1, 0);
    }
  }
}
