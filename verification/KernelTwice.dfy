/** What `krhino_task_del` of a task that is deleted already does to the task that has its mutex now. */
module KernelTwice {
  import opened ReadyQueue
  import opened KernelState
  import opened PriorityChain
  import opened KernelInv
  import opened KernelSteps
  import opened KernelStale
  import opened KernelRun
  import opened KernelEffects

  /** The live task `h` lists the mutex `m`, but the mutex is free: the next task that asks for it gets
      it as well. */
  predicate Shared(s: Kernel, h: Tid, m: Oid) {
    && h < |s.tasks| && m < |s.objs| && s.tasks[h].Live() && m in s.tasks[h].held
    && s.objs[m].kind == Mutex && s.objs[m].owner == None
  }

  /** A dead task whose old mutex list starts with a mutex of `h`. */
  ghost predicate Dangling(s: Kernel, t: Tid, m: Oid, h: Tid) {
    && Good(s) && t < |s.tasks| && !s.tasks[t].Live() && s.tasks[t].stale == Some(m)
    && Owned(s, m) && s.objs[m].owner == Some(h) && s.objs[m].waiters == []
  }

  /** The first deletion: the mutex passes to the one task that waits for it. */
  lemma FirstDeletion(s: Kernel, t: Tid, m: Oid, h: Tid)
    requires Good(s) && t < |s.tasks| && s.tasks[t].Live() && s.tasks[t].prio != IDLE_PRI && (t == s.active ==> s.lock == 0)
    requires m < |s.objs| && Owns(s, t, m) && s.tasks[t].held == [m] && s.objs[m].waiters == [h]
    ensures TaskDel(s, t).status == Success && Dangling(TaskDel(s, t).k, t, m, h) && TaskDel(s, t).k.tasks[t].prio != IDLE_PRI
  {
    hide Wf, WaitOk, ReadyOk, TickOk, OwnOk, Inherits, Signals, IdleOk, ActiveOk, Linked, Unreached, FreeMutexes, Leave, Resched;
    StepInv(s, DelTask(t));
    var s1 := TaskDel(s, t).k;
    TaskDelEffect(s, t, m);
    SomeIn(s1.objs[m].waiters);
    OwnerIs(s1, m, h);
  }

  lemma SomeIn(ws: seq<Tid>)
    ensures ws == [] || ws[0] in ws
  {}

  lemma OwnerIs(s: Kernel, m: Oid, h: Tid)
    requires Wf(s) && m < |s.objs| && s.objs[m].kind == Mutex && s.objs[m].owner == Some(h)
    ensures Owned(s, m)
  {
    assert ObjWf(s, s.objs[m]);
  }

  /** The second: it is refused, but it has taken the mutex from its owner. */
  lemma SecondDeletion(s: Kernel, t: Tid, m: Oid, h: Tid)
    requires Dangling(s, t, m, h) && s.tasks[t].prio != IDLE_PRI
    ensures var out := TaskDel(s, t); out.status == InvState && Shared(out.k, h, m) && !Inv(out.k)
  {
    hide Wf, WaitOk, ReadyOk, TickOk, OwnOk, Inherits, Signals, IdleOk, Linked, FreeMutexes, FreeStale, Leave, Resched;
    NotActive(s, t);
    var g := OwnerRobbed(s, m);
    StaleAtOwned(s, m, |s.objs|);
  }

  lemma NotActive(s: Kernel, t: Tid)
    requires Inv(s) && t < |s.tasks| && !s.tasks[t].Live()
    ensures t != s.active
  {}

  lemma StaleAtOwned(s: Kernel, m: Oid, n: nat)
    requires Owned(s, m) && n > 0
    ensures StaleList(s, Some(m), n) == From(s.tasks[s.objs[m].owner.value].held, m)
  {}

  // --------------------------------------------------------------------- an example

  /** Task 1, raised to the priority of task 2, holds the mutex that task 2 waits for, locked `depth` times. */
  function Example(depth: nat): Kernel {
    Kernel([Task(Rdy, IDLE_PRI, IDLE_PRI, None, [], None, 0, Finish, 0, false, false, 0, 0),
            Task(Rdy, 5, 10, None, [0], None, 0, Finish, 0, false, false, 0, 0),
            Task(Pend, 5, 5, Some(0), [], None, 0, Finish, 0, false, false, 0, 0)],
           [Obj(Mutex, [2], Some(1), depth, 0, 0, None)],
           seq(PRI_MAX, p => if p == IDLE_PRI then [IDLE] else if p == 5 then [1] else []), [], 0, 1, 0)
  }

  lemma ExampleWaits(depth: nat)
    ensures Wf(Example(depth)) && WaitOk(Example(depth)) && TickOk(Example(depth))
  {}

  lemma ExampleReady(depth: nat)
    ensures ReadyOk(Example(depth)) && Highest(Example(depth).ready, 0) == 5 && Preferred(Example(depth).ready) == 1
  {
    var q := Example(depth).ready;
    assert q[IDLE_PRI] == [IDLE] && q[5] == [1];
    assert forall p :: 0 <= p < PRI_MAX && p != 5 && p != IDLE_PRI ==> q[p] == [];
  }

  lemma ExampleOwns(depth: nat)
    ensures OwnOk(Example(depth))
  {}

  lemma ExampleInherits(depth: nat)
    ensures Inherits(Example(depth), Bases(Example(depth).tasks))
  {
    var s := Example(depth);
    assert OwnsWaited(s, 1, 0) && Top(s, 0) == 5;
    assert IsLeast(s, Bases(s.tasks), 1, 5) && IsLeast(s, Bases(s.tasks), 0, IDLE_PRI) && IsLeast(s, Bases(s.tasks), 2, 5);
  }

  lemma ExampleGood(depth: nat)
    ensures Good(Example(depth))
  {
    ExampleWaits(depth);
    ExampleReady(depth);
    ExampleOwns(depth);
    ExampleInherits(depth);
    hide Wf, WaitOk, ReadyOk, TickOk, OwnOk, Inherits, Highest;
    assert Ranked(Example(depth), [0]);
  }

  /** There the second deletion of task 1 leaves the mutex free while task 2 has it. */
  lemma ExampleTwice()
    ensures Good(Example(1)) && Good(TaskDel(Example(1), 1).k) && 1 < |TaskDel(Example(1), 1).k.tasks|
    ensures var out := TaskDel(TaskDel(Example(1), 1).k, 1); out.status == InvState && Shared(out.k, 2, 0) && !Inv(out.k)
  {
    ExampleGood(1);
    TwiceShared(Example(1), 1, 0, 2);
  }

  /** Both deletions. */
  lemma TwiceShared(s: Kernel, t: Tid, m: Oid, h: Tid)
    requires Good(s) && t < |s.tasks| && s.tasks[t].Live() && s.tasks[t].prio != IDLE_PRI && (t == s.active ==> s.lock == 0)
    requires m < |s.objs| && Owns(s, t, m) && s.tasks[t].held == [m] && s.objs[m].waiters == [h]
    ensures Good(TaskDel(s, t).k) && t < |TaskDel(s, t).k.tasks|
    ensures var out := TaskDel(TaskDel(s, t).k, t); out.status == InvState && Shared(out.k, h, m) && !Inv(out.k)
  {
    hide Wf, WaitOk, ReadyOk, TickOk, OwnOk, Inherits, Signals, IdleOk, ActiveOk, Linked, TaskDel, Shared;
    FirstDeletion(s, t, m, h);
    SecondDeletion(TaskDel(s, t).k, t, m, h);
  }
}
