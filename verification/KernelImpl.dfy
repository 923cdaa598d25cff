/** The kernel as the source has it: tables and lists changed step by step, each routine proved to do
    what the step function says. */
module KernelImpl {
  import opened Flags
  import opened Lists
  import opened ReadyQueue
  import opened KernelState
  import opened PriorityChain
  import opened KernelLists
  import opened KernelInv
  import opened KernelSteps
  import opened KernelProofs
  import opened MutexProofs
  import opened CallProofs
  import opened TaskProofs
  import opened KernelStale
  import opened KernelRun

  class Rhino {
    var tasks: seq<Task>
    var objs: seq<Obj>
    var ready: Lanes
    var ticks: seq<Tid>
    var now: nat
    var active: Tid
    var lock: nat

    ghost function State(): Kernel
      reads this
    {
      Kernel(tasks, objs, ready, ticks, now, active, lock)
    }

    /** `krhino_init`: the idle task alone. */
    constructor ()
      ensures State() == Boot() && Inv(State())
    {
      BootInv();
      tasks, objs, ready, ticks, now, active, lock :=
        Boot().tasks, [], Boot().ready, [], 0, IDLE, 0;
    }

    // ----------------------------------------------------------------- lists

    /** `pend_list_add`: in front of the first task that is less urgent. */
    method PendListAdd(o: Oid, t: Tid)
      requires o < |objs| && t < |tasks| && Keyed(Prios(tasks), objs[o].waiters)
      modifies this`objs
      ensures objs == old(objs)[o := old(objs)[o].(waiters := Insert(Prios(tasks), old(objs)[o].waiters, tasks[t].prio, t))]
    {
      var ws, i := objs[o].waiters, 0;
      while i < |ws|
        invariant i <= |ws| && forall j :: 0 <= j < i ==> tasks[ws[j]].prio <= tasks[t].prio
      {
        if tasks[ws[i]].prio > tasks[t].prio {
          break;
        }
        i := i + 1;
      }
      InsertAt(Prios(tasks), ws, tasks[t].prio, t, i);
      objs := objs[o := objs[o].(waiters := ws[..i] + [t] + ws[i..])];
    }

    /** `tick_list_insert`: in front of the first task with more ticks left. */
    method TickListInsert(t: Tid, time: nat)
      requires TickOk(State()) && t < |tasks|
      modifies this`tasks, this`ticks
      ensures State() == TickInsert(old(State()), t, time)
    {
      hide Insert, Remaining;
      TicksKeyed(State());
      tasks := tasks[t := tasks[t].(expires := (now + time) % TICK_RANGE)];
      var i := TickPlace(time);
      InsertAt(Remains(tasks, now), ticks, time, t, i);
      ticks := ticks[..i] + [t] + ticks[i..];
    }

    /** The loop of `tick_list_pri_insert` */
    method TickPlace(time: nat) returns (i: nat)
      requires forall j :: 0 <= j < |ticks| ==> ticks[j] < |tasks|
      ensures i <= |ticks| && (forall j :: 0 <= j < i ==> Remaining(tasks[ticks[j]].expires, now) <= time)
      ensures i < |ticks| ==> Remaining(tasks[ticks[i]].expires, now) > time
    {
      hide Remaining;
      i := 0;
      while i < |ticks|
        invariant i <= |ticks| && forall j :: 0 <= j < i ==> Remaining(tasks[ticks[j]].expires, now) <= time
      {
        if Remaining(tasks[ticks[i]].expires, now) > time {
          break;
        }
        i := i + 1;
      }
    }

    /** `pend_task_wakeup` (why is `Finish`) and `pend_task_rm` (`Del`). The fatal case of their switch
        cannot arise. */
    method PendTaskWakeup(t: Tid, why: WakeReason)
      requires Wf(State()) && t < |tasks| && tasks[t].Pending()
      modifies this`tasks, this`objs, this`ready, this`ticks
      ensures State() == Wake(old(State()), t, why)
    {
      hide Without, TakeOff, AddTail;
      assert TaskWf(State(), tasks[t]);
      var o := tasks[t].blk.value;
      match tasks[t].st {
        case Pend =>
          objs := TakeOff(objs, o, t);
          ready := AddTail(ready, tasks[t].prio, t);
          tasks := tasks[t := tasks[t].(st := Rdy)];
        case PendSusp =>
          objs := TakeOff(objs, o, t);
          tasks := tasks[t := tasks[t].(st := Susp)];
        case _ => assert false;
      }
      ticks := Without(ticks, t);
      tasks := tasks[t := tasks[t].(wake := why)];
      tasks := tasks[t := tasks[t].(blk := None)];
    }

    /** `pend_to_blk_obj` */
    method PendToBlkObj(o: Oid, t: Tid, timeout: nat)
      requires Wf(State()) && TickOk(State()) && o < |objs| && t < |tasks|
      modifies this`tasks, this`objs, this`ready, this`ticks
      ensures State() == Block(old(State()), o, t, timeout)
    {
      hide Insert, Without, TickOk;
      ghost var s := State();
      assert TaskWf(s, tasks[t]) && ObjWf(s, objs[o]);
      assert forall i :: 0 <= i < |objs[o].waiters| ==> objs[o].waiters[i] in objs[o].waiters;
      if timeout != WAIT_FOREVER {
        TickListInsert(t, timeout);
      }
      tasks := tasks[t := tasks[t].(st := Pend, blk := Some(o))];
      ready := Remove(ready, tasks[t].prio, t);
      assert Prios(tasks) == Prios(s.tasks);
      PendListAdd(o, t);
      assert tasks == Block(s, o, t, timeout).tasks && objs == Block(s, o, t, timeout).objs;
    }

    /** `core_sched` */
    method CoreSched()
      modifies this`active
      ensures State() == Resched(old(State()))
    {
      if lock == 0 {
        var h := 0;
        while h < PRI_MAX && ready[h] == []
          invariant h <= PRI_MAX && Highest(ready, h) == Highest(ready, 0)
        {
          h := h + 1;
        }
        if h < PRI_MAX {
          active := ready[h][0];
        }
      }
    }

    // ------------------------------------------------------------- priorities

    /** `mutex_pri_limit` */
    method MutexPriLimit(t: Tid, pri0: nat) returns (highPri: nat)
      requires Wf(State()) && t < |tasks|
      ensures highPri == PriLimit(State(), tasks[t].held, pri0)
    {
      ghost var s := State();
      assert TaskWf(s, tasks[t]);
      highPri := pri0;
      var pri, held := pri0, tasks[t].held;
      var i := 0;
      while i < |held|
        invariant i <= |held| && highPri <= pri
        invariant PriLimit(s, held, pri0) == PriLimit(s, held[i..], highPri)
      {
        var o := held[i];
        assert o in held && ObjWf(s, objs[o]);
        if objs[o].waiters != [] {
          assert objs[o].waiters[0] in objs[o].waiters;
          pri := tasks[objs[o].waiters[0]].prio;
        }
        assert held[i..][1..] == held[i + 1..];
        if pri < highPri {
          highPri := pri;
        }
        i := i + 1;
      }
    }

    /** The priority of the first waiter, or else `pri0`. */
    method FirstPri(o: Oid, pri0: nat) returns (pri: nat)
      requires o < |objs| && (objs[o].waiters != [] ==> objs[o].waiters[0] < |tasks|)
      ensures pri == if objs[o].waiters != [] then tasks[objs[o].waiters[0]].prio else pri0
    {
      pri := if objs[o].waiters != [] then tasks[objs[o].waiters[0]].prio else pri0;
    }

    /** The mutex at index `i` leaves the list of the task. */
    method Unlist(t: Tid, held: seq<Oid>, i: nat, ghost s: Kernel, ghost h0: seq<Oid>, ghost left: seq<Oid>) returns (held': seq<Oid>)
      requires Looking(s, State(), t, held) && NoDup(h0) && i < |held| && left == Without(h0, held[i]) && Aligned(h0, left, held, i)
      modifies this`tasks
      ensures Looking(s, State(), t, held') && Aligned(h0, left, held', i) && held' == left && |held'| < |held| && i <= |held'|
    {
      hide Without, NoDup, Looking;
      TakeOut(h0, left, held, held[i], i);
      LookOn(s, State(), t, held);
      held' := held[..i] + held[i + 1..];
      tasks := tasks[t := tasks[t].(held := held')];
      Looked(s, State(), t, held');
    }

    /** `mutex_pri_look`: the priority that the task is entitled to; `rel` leaves its mutex list. Its
        own link is not touched: it goes on leading to what followed. */
    method MutexPriLook(t: Tid, rel: Option<Oid>) returns (newPri: nat)
      requires Wf(State()) && t < |tasks| && (rel.Some? ==> NoDup(tasks[t].held) && rel.value < |objs|)
      modifies this`tasks, this`objs
      ensures State() == if rel.Some? then DropHeld(old(State()), t, rel.value) else old(State())
      ensures newPri == PriLook(State(), t)
    {
      hide Wf, PriLimit, PriLook, Without, NoDup, Looking, Aligned, LimitFrom, After, DropHeld;
      ghost var s, h0 := State(), tasks[t].held;
      ghost var left := if rel.Some? then Without(h0, rel.value) else h0;
      HeldWaiters(s, t);
      newPri := tasks[t].bprio;
      var pri, held, i := newPri, tasks[t].held, 0;
      var found, link: Option<Oid> := false, None;
      LookStart(s, t, h0, left, newPri);
      while i < |held|
        invariant Looking(s, State(), t, held) && i <= |held| && Aligned(h0, left, held, i) && newPri <= pri
        invariant LimitFrom(s, left, 0, s.tasks[t].bprio) == LimitFrom(s, left, i, newPri)
        invariant if found then rel.Some? && held == left && rel.value in h0 && link == After(h0, rel.value) else held == h0
        decreases |held| - i
      {
        var o := held[i];
        if rel == Some(o) {
          found, link := true, if i + 1 < |held| then Some(held[i + 1]) else None;
          FoundAt(h0, left, held, o, i);
          held := Unlist(t, held, i, s, h0, left);
          continue;
        }
        LeftAt(h0, left, held, rel, i);
        LookOn(s, State(), t, held);
        ghost var pri0 := pri;
        pri := FirstPri(o, pri);
        LookStep(s, left, i, newPri, pri0, pri);
        if newPri > pri {
          newPri := pri;
        }
        i := i + 1;
      }
      NothingLeft(h0, left, held, rel);
      LookOn(s, State(), t, held);
      LookDone(s, State(), t, left, newPri);
      ghost var s1 := State();
      if found {
        objs := objs[rel.value := objs[rel.value].(link := link)];
      }
      LookLinked(s, s1, State(), t, rel, found, link, newPri);
    }

    /** `pend_list_reorder` */
    method PendListReorder(t: Tid)
      requires Wf(State()) && t < |tasks| && tasks[t].blk.Some?
      modifies this`objs
      ensures tasks[t].blk.value < |old(objs)| && Keyed(Prios(tasks), Without(old(objs)[tasks[t].blk.value].waiters, t))
      ensures var o := tasks[t].blk.value;
              objs == old(objs)[o := old(objs)[o].(waiters := Insert(Prios(tasks), Without(old(objs)[o].waiters, t), tasks[t].prio, t))]
    {
      var o := tasks[t].blk.value;
      assert TaskWf(State(), tasks[t]) && ObjWf(State(), objs[o]);
      objs := TakeOff(objs, o, t);
      assert forall i :: 0 <= i < |objs[o].waiters| ==> objs[o].waiters[i] in objs[o].waiters;
      PendListAdd(o, t);
    }

    /** `task_pri_change` */
    method TaskPriChange(t0: Tid, p0: nat)
      requires Wf(State()) && t0 < |tasks| && p0 < PRI_MAX
      modifies this`tasks, this`objs, this`ready
      ensures State() == PriChange(old(State()), t0, p0)
    {
      hide Wf, SetPrio, NextInChain, Room;
      var task: Option<Tid>, p: nat := Some(t0), p0;
      while task.Some?
        invariant Wf(State()) && p < PRI_MAX && |tasks| == |old(tasks)|
        invariant task.Some? ==> task.value < |tasks| && PriChange(State(), task.value, p) == PriChange(old(State()), t0, p0)
        invariant task.None? ==> State() == PriChange(old(State()), t0, p0)
        decreases task.Some?, task.Some? && p > tasks[task.value].prio, if task.Some? then Room(State(), task.value, p) else 0
      {
        var t := task.value;
        if tasks[t].prio != p && tasks[t].st != Deleted {
          ghost var s, p' := State(), p;
          var oldPri := tasks[t].prio;
          SetPrioWf(s, t, p);
          GivePrio(t, p);
          task, p := NextOwner(t, oldPri, p);
          if task.Some? { ChainRoom(s, t, p', task.value, p); }
        } else {
          task := None;
        }
      }
    }

    /** One pass of the switch in `task_pri_change`: the task gets its new place in its list. */
    method GivePrio(t: Tid, p: nat)
      requires Wf(State()) && t < |tasks| && p < PRI_MAX && tasks[t].st != Deleted
      modifies this`tasks, this`objs, this`ready
      ensures State() == SetPrio(old(State()), t, p) && |tasks| == |old(tasks)| && tasks[t].prio == p
    {
      assert TaskWf(State(), tasks[t]);
      match tasks[t].st {
        case Rdy =>
          ready := Remove(ready, tasks[t].prio, t);
          tasks := tasks[t := tasks[t].(prio := p)];
          if t == active {
            ready := AddHead(ready, tasks[t].prio, t);
          } else {
            ready := AddTail(ready, tasks[t].prio, t);
          }
        case Sleep | Susp | SleepSusp =>
          tasks := tasks[t := tasks[t].(prio := p)];
        case Pend | PendSusp =>
          ghost var s := State();
          tasks := tasks[t := tasks[t].(prio := p)];
          SamePrioWf(s, State(), t);
          PendListReorder(t);
      }
    }

    /** ... and where it goes from there: to the owner of the mutex that the task waits for, if the
        owner's priority has to change. */
    method NextOwner(t: Tid, oldPri: nat, p0: nat) returns (task: Option<Tid>, p: nat)
      requires Wf(State()) && t < |tasks| && p0 < PRI_MAX && p0 == tasks[t].prio
      modifies this`tasks, this`objs
      ensures State() == old(State()) && p < PRI_MAX
      ensures NextInChain(State(), t, oldPri) == if task.Some? then Follow(task.value, p) else Stop
      ensures task.Some? ==> task.value < |tasks|
    {
      task, p := None, p0;
      assert TaskWf(State(), tasks[t]);
      if tasks[t].st == Pend || tasks[t].st == PendSusp {
        var o := tasks[t].blk.value;
        if objs[o].kind == Mutex {
          var w := objs[o].owner.value;
          assert ObjWf(State(), objs[o]) && TaskWf(State(), tasks[w]);
          if tasks[w].prio > tasks[t].prio {
            task := Some(w);
          } else if tasks[w].prio == oldPri {
            p := MutexPriLook(w, None);
            if p != tasks[w].prio {
              task := Some(w);
            }
          }
        }
      }
    }

    /** `mutex_release` */
    method MutexRelease(t: Tid, rel: Option<Oid>)
      requires Wf(State()) && t < |tasks|
      requires rel.Some? ==> NoDup(tasks[t].held) && rel.value < |objs| && Wf(DropHeld(State(), t, rel.value))
      modifies this`tasks, this`objs, this`ready
      ensures State() == Release(if rel.Some? then DropHeld(old(State()), t, rel.value) else old(State()), t)
    {
      hide Wf, NoDup, Without;
      var newPri := MutexPriLook(t, rel);
      LookBound(State(), t);
      if newPri != tasks[t].prio {
        TaskPriChange(t, newPri);
      }
    }

    /** `mutex_task_pri_reset`, for a task of priority `pri` that has stopped waiting for `o` */
    method MutexTaskPriReset(o: Oid, pri: nat)
      requires Wf(State()) && o < |objs| && (objs[o].kind == Mutex ==> objs[o].owner.Some?)
      modifies this`tasks, this`objs, this`ready
      ensures State() == ResetOwner(old(State()), o, pri)
    {
      if objs[o].kind == Mutex {
        var w := objs[o].owner.value;
        assert ObjWf(State(), objs[o]);
        if tasks[w].prio == pri {
          MutexRelease(w, None);
        }
      }
    }

    // ------------------------------------------------------------------ the calls

    /** `krhino_mutex_lock`, up to where the caller blocks or returns */
    method Lock(o: Oid, timeout: nat) returns (status: Status)
      requires Inv(State()) && o < |objs|
      modifies this
      ensures Outcome(State(), status) == MutexLock(old(State()), o, timeout)
      ensures Safe(old(State()), Call.Lock(o, timeout)) ==> Inv(State())
    {
      hide Wf, WaitOk, ReadyOk, TickOk, OwnOk, Signals, Inherits, Resched, Block, PriChange, Safe;
      if Safe(State(), Call.Lock(o, timeout)) { LockInv(State(), o, timeout); }
      if objs[o].kind != Mutex { return TypeErr; }
      if objs[o].owner == Some(active) {
        if objs[o].nested == MAX_COUNT { return NestedOvf; }
        objs := objs[o := objs[o].(nested := objs[o].nested + 1)];
        return OwnerNested;
      }
      var owner := objs[o].owner;
      if owner == None {
        objs := objs[o := objs[o].(owner := Some(active))];
        tasks := tasks[active := tasks[active].(held := [o] + tasks[active].held)];
        objs := objs[o := objs[o].(nested := 1)];
        return Success;
      }
      if timeout == NO_WAIT { return NoPendWait; }
      if lock > 0 { return SchedDisabled; }
      OwnerLive(State(), o);
      PrioBound(State(), active);
      AwaitMutex(o, owner.value, timeout);
      return Blocked;
    }

    /** The owner is raised if it has to be, and the caller waits. */
    method AwaitMutex(o: Oid, owner: Tid, timeout: nat)
      requires Agree(State()) && o < |objs| && active < |tasks| && owner < |tasks| && tasks[active].prio < PRI_MAX
      modifies this
      ensures var s := old(State()); Agree(Boost(s, owner, s.tasks[s.active].prio))
      ensures var s := old(State()); State() == Resched(Block(Boost(s, owner, s.tasks[s.active].prio), o, s.active, timeout))
    {
      hide Wf, WaitOk, ReadyOk, TickOk, OwnOk, Resched, Block, PriChange;
      if tasks[active].prio < tasks[owner].prio {
        PriChangeAgree(State(), owner, tasks[active].prio);
        TaskPriChange(owner, tasks[active].prio);
      }
      PendToBlkObj(o, active, timeout);
      CoreSched();
    }

    /** `krhino_mutex_unlock` */
    method Unlock(o: Oid) returns (status: Status)
      requires Inv(State()) && o < |objs|
      modifies this
      ensures Outcome(State(), status) == MutexUnlock(old(State()), o) && Inv(State())
    {
      hide Wf, WaitOk, ReadyOk, TickOk, OwnOk, Signals, Inherits, Resched, Release, Without;
      MutexUnlockInv(State(), o);
      if objs[o].kind != Mutex { return TypeErr; }
      if objs[o].owner != Some(active) { return NotOwner; }
      ghost var s := State();
      objs := objs[o := objs[o].(nested := if objs[o].nested == 0 then MAX_COUNT else objs[o].nested - 1)];
      if objs[o].nested > 0 { return OwnerNested; }
      status := Success;
      HandOver(s, o);
    }

    /** `krhino_mutex_unlock` at depth one */
    method HandOver(ghost s: Kernel, o: Oid)
      requires Inv(s) && o < |s.objs| && Owns(s, s.active, o) && State() == SetObj(s, o, s.objs[o].(nested := 0))
      modifies this
      ensures s.objs[o].nested == 1 ==> Outcome(State(), Success) == MutexUnlock(s, o)
    {
      hide Wf, WaitOk, ReadyOk, TickOk, OwnOk, Signals, Inherits, Resched, Release, Without, NoDup, DropHeld, Wake;
      ReleasedFacts(s, o);
      MutexRelease(active, Some(o));
      if objs[o].waiters == [] {
        objs := objs[o := objs[o].(owner := None)];
        return;
      }
      var task := objs[o].waiters[0];
      assert task == First(State(), o);
      GiveNested(Release(DropHeld(s, active, o), active), State(), o);
      PendTaskWakeup(task, Finish);
      objs := objs[o := objs[o].(owner := Some(task))];
      tasks := tasks[task := tasks[task].(held := [o] + tasks[task].held)];
      objs := objs[o := objs[o].(nested := 1)];
      CoreSched();
    }

    /** Everyone who waits for `o` is woken, first to last. */
    method WakeWaiters(o: Oid, why: WakeReason)
      requires Agree(State()) && o < |objs|
      modifies this`tasks, this`objs, this`ready, this`ticks
      ensures State() == WakeAll(old(State()), o, why)
    {
      hide ReadyOk, TickOk, OwnOk, Move;
      while objs[o].waiters != []
        invariant Agree(State()) && |objs| == |old(objs)| && WakeAll(State(), o, why) == WakeAll(old(State()), o, why)
        decreases |objs[o].waiters|
      {
        var t := objs[o].waiters[0];
        assert t == First(State(), o);
        WakeAgree(State(), t, why);
        WakeOneFrame(State(), o, t, why);
        PendTaskWakeup(t, why);
      }
    }

    /** `sem_give` */
    method GiveSem(o: Oid, all: bool) returns (status: Status)
      requires Inv(State()) && o < |objs|
      modifies this
      ensures Outcome(State(), status) == SemGive(old(State()), o, all) && Inv(State())
    {
      hide Wf, WaitOk, ReadyOk, TickOk, OwnOk, Signals, Inherits, Resched, Move;
      SemGiveInv(State(), o, all);
      if objs[o].kind != Sem { return TypeErr; }
      if objs[o].waiters == [] {
        if objs[o].count == MAX_COUNT { return SemOvf; }
        objs := objs[o := objs[o].(count := objs[o].count + 1)];
        return Success;
      }
      if all {
        WakeWaiters(o, Finish);
      } else {
        var t := objs[o].waiters[0];
        assert t == First(State(), o);
        PendTaskWakeup(t, Finish);
      }
      CoreSched();
      return Success;
    }

    /** `krhino_sem_take` */
    method TakeSem(o: Oid, timeout: nat) returns (status: Status)
      requires Inv(State()) && o < |objs|
      modifies this
      ensures Outcome(State(), status) == SemTake(old(State()), o, timeout)
      ensures Safe(old(State()), Take(o, timeout)) ==> Inv(State())
    {
      hide Wf, WaitOk, ReadyOk, TickOk, OwnOk, Signals, Inherits, Resched, Block, Safe;
      if Safe(State(), Take(o, timeout)) { TakeInv(State(), o, timeout); }
      if objs[o].kind != Sem { return TypeErr; }
      if objs[o].count > 0 {
        objs := objs[o := objs[o].(count := objs[o].count - 1)];
        return Success;
      }
      if timeout == NO_WAIT { return NoPendWait; }
      if lock > 0 { return SchedDisabled; }
      PendToBlkObj(o, active, timeout);
      CoreSched();
      return Blocked;
    }

    /** `krhino_sem_count_set` */
    method SetSemCount(o: Oid, n: nat) returns (status: Status)
      requires Inv(State()) && o < |objs|
      modifies this
      ensures Outcome(State(), status) == SemCountSet(old(State()), o, n) && Inv(State())
    {
      SemCountSetInv(State(), o, n);
      if objs[o].kind != Sem { return TypeErr; }
      if objs[o].count > 0 {
        objs := objs[o := objs[o].(count := n)];
      } else if objs[o].waiters == [] {
        objs := objs[o := objs[o].(count := n)];
      } else {
        return TaskWaiting;
      }
      return Success;
    }

    /** `krhino_event_get` */
    method GetFlags(o: Oid, flags: bv32, all: bool, clear: bool, timeout: nat) returns (status: Status)
      requires Inv(State()) && o < |objs|
      modifies this
      ensures Outcome(State(), status) == EventGet(old(State()), o, flags, all, clear, timeout)
      ensures Safe(old(State()), GetEvent(o, flags, all, clear, timeout)) ==> Inv(State())
    {
      hide Wf, WaitOk, ReadyOk, TickOk, OwnOk, Signals, Inherits, Resched, Block, Matches, ClearFlags, Safe;
      if Safe(State(), GetEvent(o, flags, all, clear, timeout)) { GetInv(State(), o, flags, all, clear, timeout); }
      if objs[o].kind != Event { return TypeErr; }
      if Matches(objs[o].flags, flags, all) {
        TakeFlags(o, flags, clear);
        return Success;
      }
      if timeout == NO_WAIT { return NoPendWait; }
      if lock > 0 { return SchedDisabled; }
      AwaitFlags(o, flags, all, clear, timeout);
      return Blocked;
    }

    /** The caller is told the flags, which may be cleared. */
    method TakeFlags(o: Oid, flags: bv32, clear: bool)
      requires o < |objs| && active < |tasks|
      modifies this`tasks, this`objs
      ensures tasks == old(tasks)[active := old(tasks)[active].(got := old(objs)[o].flags)]
      ensures objs == old(objs)[o := old(objs)[o].(flags := if clear then ClearFlags(old(objs)[o].flags, flags) else old(objs)[o].flags)]
    {
      hide ClearFlags;
      tasks := tasks[active := tasks[active].(got := objs[o].flags)];
      if clear {
        objs := objs[o := objs[o].(flags := ClearFlags(objs[o].flags, flags))];
      }
    }

    /** The caller notes what it waits for, and waits. */
    method AwaitFlags(o: Oid, flags: bv32, all: bool, clear: bool, timeout: nat)
      requires Agree(State()) && o < |objs| && active < |tasks|
      modifies this
      ensures Agree(Want(old(State()), old(active), flags, all, clear))
      ensures State() == Resched(Block(Want(old(State()), old(active), flags, all, clear), o, old(active), timeout))
    {
      hide Wf, WaitOk, ReadyOk, TickOk, OwnOk, Resched, Block;
      WantAgree(State(), active, flags, all, clear);
      tasks := tasks[active := tasks[active].(pendAnd := all, pendClear := clear, pendFlags := flags)];
      PendToBlkObj(o, active, timeout);
      CoreSched();
    }

    /** `event_set` */
    method SetFlags(o: Oid, flags: bv32, keep: bool) returns (status: Status)
      requires Inv(State()) && o < |objs|
      modifies this
      ensures Outcome(State(), status) == EventSet(old(State()), o, flags, keep) && Inv(State())
    {
      hide Wf, WaitOk, ReadyOk, TickOk, OwnOk, Signals, Inherits, Resched, Matches, ClearFlags, AddFlags, KeepFlags, NoDup;
      EventSetInv(State(), o, flags, keep);
      if objs[o].kind != Event { return TypeErr; }
      if keep {
        objs := objs[o := objs[o].(flags := KeepFlags(objs[o].flags, flags))];
        return Success;
      }
      WaitersDistinct(State(), o);
      FlagsAgree(State(), o, AddFlags(objs[o].flags, flags));
      objs := objs[o := objs[o].(flags := AddFlags(objs[o].flags, flags))];
      ghost var s := State();
      var cur, rest := objs[o].flags, objs[o].waiters;
      while rest != []
        invariant Agree(State()) && |objs| == |s.objs| && NoDup(rest) && forall t :: t in rest ==> t in objs[o].waiters
        invariant EventWake(State(), o, rest, cur) == EventWake(s, o, s.objs[o].waiters, cur)
        decreases |rest|
      {
        var t, next := rest[0], rest[1..];
        VisitFacts(State(), o, rest, cur);
        if Matches(cur, tasks[t].pendFlags, tasks[t].pendAnd) {
          TellAndWake(o, t, cur);
        }
        rest := next;
      }
      CoreSched();
      return Success;
    }

    /** The task is told the flags, and woken. */
    method TellAndWake(o: Oid, t: Tid, cur: bv32)
      requires Agree(State()) && o < |objs| && t < |tasks| && tasks[t].blk == Some(o)
      modifies this`tasks, this`objs, this`ready, this`ticks
      ensures State() == EventWakeOne(old(State()), o, t, cur)
    {
      hide Wf, WaitOk, ReadyOk, TickOk, OwnOk, ClearFlags, Without, AddTail, TakeOff;
      WaitFacts(State(), t);
      GotAgree(State(), t, cur);
      tasks := tasks[t := tasks[t].(got := cur)];
      PendTaskWakeup(t, Finish);
      if tasks[t].pendClear {
        objs := objs[o := objs[o].(flags := ClearFlags(objs[o].flags, tasks[t].pendFlags))];
      }
    }

    /** `krhino_mutex_del`, `krhino_sem_del`, `krhino_event_del` */
    method DeleteObj(o: Oid, kind: Kind) returns (status: Status)
      requires Inv(State()) && o < |objs|
      modifies this
      ensures Outcome(State(), status) == ObjDel(old(State()), o, kind) && Inv(State())
    {
      hide Wf, WaitOk, ReadyOk, TickOk, OwnOk, Signals, Inherits, Resched, Release, Without, NoDup;
      ObjDelInv(State(), o, kind);
      if objs[o].kind != kind || kind == NoObj { return TypeErr; }
      ghost var s := State();
      RetireAgree(s, o);
      if kind == Mutex && objs[o].owner.Some? { RetireOwner(s, o); }
      var owner := if objs[o].kind == Mutex then objs[o].owner else None;
      objs := objs[o := objs[o].(kind := NoObj, flags := 0)];
      if owner.Some? {
        ReleaseAgree(Retire(s, o), owner.value);
        RetiredWf(s, o);
        MutexRelease(owner.value, Some(o));
      }
      WakeWaiters(o, Del);
      CoreSched();
      return Success;
    }

    // ---------------------------------------------------------------------- tasks

    /** `krhino_task_sleep` */
    method Sleep(timeout: nat) returns (status: Status)
      requires Inv(State())
      modifies this
      ensures Outcome(State(), status) == TaskSleep(old(State()), timeout)
      ensures Safe(old(State()), SleepFor(timeout)) ==> Inv(State())
    {
      hide WaitOk, ReadyOk, OwnOk, Signals, Inherits, Resched, Safe;
      if Safe(State(), SleepFor(timeout)) { SleepInv(State(), timeout); }
      if timeout == 0 { return InvParam; }
      if lock > 0 { return SchedDisabled; }
      ghost var s := State();
      TickListInsert(active, timeout);
      tasks := tasks[active := tasks[active].(st := TaskState.Sleep)];
      assert TaskWf(s, s.tasks[active]);
      ready := Remove(ready, tasks[active].prio, active);
      CoreSched();
      return Blocked;
    }

    /** `krhino_task_yield` */
    method YieldCpu() returns (status: Status)
      requires Inv(State())
      modifies this
      ensures Outcome(State(), status) == TaskYield(old(State())) && Inv(State())
    {
      hide WaitOk, OwnOk, Signals, Inherits, Resched;
      TaskYieldInv(State());
      var p := tasks[active].prio;
      assert TaskWf(State(), tasks[active]);
      assert active in ready[p];
      ready := Rotate(ready, p);
      CoreSched();
      return Success;
    }

    /** `krhino_task_suspend` */
    method SuspendTask(t: Tid) returns (status: Status)
      requires Inv(State()) && t < |tasks|
      modifies this
      ensures Outcome(State(), status) == TaskSuspend(old(State()), t) && Inv(State())
    {
      hide Wf, WaitOk, ReadyOk, TickOk, OwnOk, Signals, Inherits, Resched, Move;
      TaskSuspendInv(State(), t);
      if tasks[t].prio == IDLE_PRI { return NotAllowed; }
      if t == active {
        if lock > 0 { return SchedDisabled; }
      }
      match tasks[t].st {
        case Rdy | Sleep | Pend =>
          SuspendFirst(t);
        case Susp | SleepSusp | PendSusp =>
          if tasks[t].susp == MAX_SUSPEND { return SuspendOvf; }
          tasks := tasks[t := tasks[t].(susp := tasks[t].susp + 1)];
        case Deleted =>
          return InvState;
      }
      CoreSched();
      return Success;
    }

    /** ... of a task that is not suspended yet */
    method SuspendFirst(t: Tid)
      requires Wf(State()) && TickOk(State()) && t < |tasks| && tasks[t].st in {Rdy, TaskState.Sleep, Pend}
      modifies this`tasks, this`ready
      ensures var s := old(State());
              var st := if s.tasks[t].st == Rdy then Susp else if s.tasks[t].st == Pend then PendSusp else SleepSusp;
              State() == WithSusp(Move(s, t, st, s.tasks[t].wake), t, 1)
    {
      hide Wf, TickOk, Without;
      WaitFacts(State(), t);
      if tasks[t].st == Rdy { NotListed(State(), t); }
      tasks := tasks[t := tasks[t].(susp := 1)];
      match tasks[t].st {
        case Rdy =>
          tasks := tasks[t := tasks[t].(st := Susp)];
          ready := Remove(ready, tasks[t].prio, t);
        case Sleep =>
          tasks := tasks[t := tasks[t].(st := SleepSusp)];
        case Pend =>
          tasks := tasks[t := tasks[t].(st := PendSusp)];
      }
    }

    /** `krhino_task_resume` */
    method ResumeTask(t: Tid) returns (status: Status)
      requires Inv(State()) && t < |tasks|
      modifies this
      ensures Outcome(State(), status) == TaskResume(old(State()), t) && Inv(State())
    {
      hide Wf, WaitOk, ReadyOk, TickOk, OwnOk, Signals, Inherits, Resched, Move;
      TaskResumeInv(State(), t);
      WaitFacts(State(), t);
      if tasks[t].st in {Rdy, TaskState.Sleep, Pend} { return NotSuspended; }
      if tasks[t].st == Deleted { return InvState; }
      WithSuspAgree(State(), t, if tasks[t].susp == 0 then MAX_SUSPEND else tasks[t].susp - 1);
      tasks := tasks[t := tasks[t].(susp := if tasks[t].susp == 0 then MAX_SUSPEND else tasks[t].susp - 1)];
      if tasks[t].susp == 0 {
        ResumeLast(t);
      }
      CoreSched();
      return Success;
    }

    /** ... that is suspended once */
    method ResumeLast(t: Tid)
      requires Wf(State()) && TickOk(State()) && t < |tasks| && tasks[t].st in {Susp, SleepSusp, PendSusp}
      modifies this`tasks, this`ready
      ensures var s := old(State());
              var st := if s.tasks[t].st == Susp then Rdy else if s.tasks[t].st == PendSusp then Pend else TaskState.Sleep;
              State() == Move(s, t, st, s.tasks[t].wake)
    {
      hide Wf, TickOk, Without, AddTail;
      WaitFacts(State(), t);
      if tasks[t].st == Susp { NotListed(State(), t); }
      match tasks[t].st {
        case Susp =>
          tasks := tasks[t := tasks[t].(st := Rdy)];
          ready := AddTail(ready, tasks[t].prio, t);
        case SleepSusp => tasks := tasks[t := tasks[t].(st := TaskState.Sleep)];
        case PendSusp => tasks := tasks[t := tasks[t].(st := Pend)];
      }
    }

    /** `krhino_task_pri_change` */
    method ChangePri(t: Tid, pri: nat) returns (status: Status)
      requires Inv(State()) && t < |tasks|
      modifies this
      ensures Outcome(State(), status) == KernelSteps.TaskPriChange(old(State()), t, pri) && Inv(State())
    {
      hide Wf, WaitOk, ReadyOk, TickOk, OwnOk, Signals, Inherits, Resched, PriChange, PriLimit;
      TaskPriChangeInv(State(), t, pri);
      if tasks[t].prio >= IDLE_PRI || pri >= IDLE_PRI { return NotAllowed; }
      if tasks[t].st == Deleted { return InvState; }
      var limit := MutexPriLimit(t, pri);
      WithBaseWf(State(), t, pri);
      tasks := tasks[t := tasks[t].(bprio := pri)];
      TaskPriChange(t, limit);
      CoreSched();
      return Success;
    }

    /** A task stops sleeping or waiting: it leaves its lists, gets the state `st`, and the owner of the
        mutex it waited for is told. */
    method StopWaiting(t: Tid, st: TaskState, why: WakeReason)
      requires Wf(State()) && CanMove(State(), t, st) && tasks[t].st != Rdy && !Timed(st)
      modifies this`tasks, this`objs, this`ready, this`ticks
      ensures State() == Leave(old(State()), t, st, why)
    {
      hide Wf, Without, AddTail, Release;
      ghost var s := State();
      WaitFacts(s, t);
      MoveWf(s, t, st, why);
      var blk, pri := tasks[t].blk, tasks[t].prio;
      ticks := Without(ticks, t);
      if blk.Some? {
        objs := TakeOff(objs, blk.value, t);
      }
      if st == Rdy {
        ready := AddTail(ready, tasks[t].prio, t);
      }
      tasks := tasks[t := tasks[t].(st := st, wake := why, blk := None)];
      assert State() == Move(s, t, st, why);
      if blk.Some? {
        MutexTaskPriReset(blk.value, pri);
      }
    }

    /** `krhino_task_wait_abort` */
    method AbortWait(t: Tid) returns (status: Status)
      requires Inv(State()) && t < |tasks|
      modifies this
      ensures Outcome(State(), status) == WaitAbort(old(State()), t) && Inv(State())
    {
      hide WaitOk, ReadyOk, OwnOk, Signals, Inherits, Resched, Leave;
      WaitAbortInv(State(), t);
      assert TaskWf(State(), tasks[t]);
      match tasks[t].st {
        case Rdy =>
        case Susp =>
          tasks := tasks[t := tasks[t].(st := Rdy)];
          ready := AddTail(ready, tasks[t].prio, t);
        case Sleep | SleepSusp | Pend | PendSusp =>
          StopWaiting(t, Rdy, WakeReason.Abort);
        case Deleted =>
          return InvState;
      }
      CoreSched();
      return Success;
    }

    /** `task_mutex_free` */
    method TaskMutexFree(t: Tid)
      requires Agree(State()) && t < |tasks| && tasks[t].Live()
      modifies this`tasks, this`objs, this`ready, this`ticks
      ensures State() == FreeMutexes(old(State()), t)
    {
      hide WaitOk, ReadyOk, TickOk, OwnOk, PassOn;
      while tasks[t].held != []
        invariant Agree(State()) && |tasks| == |old(tasks)| && tasks[t].Live() && FreeMutexes(State(), t) == FreeMutexes(old(State()), t)
        decreases |tasks[t].held|
      {
        var m := tasks[t].held[0];
        FreeStep(State(), t);
        PassMutexOn(t, m);
      }
    }

    /** One turn of the loop: the mutex goes to its first waiter, at the depth it has. */
    method PassMutexOn(t: Tid, m: Oid)
      requires Agree(State()) && t < |tasks| && tasks[t].Live() && tasks[t].held != [] && m == tasks[t].held[0] && Owns(State(), t, m)
      modifies this`tasks, this`objs, this`ready, this`ticks
      ensures State() == PassOn(old(State()), t, m, old(objs)[m].nested)
    {
      hide WaitOk, ReadyOk, TickOk, OwnOk, Wake;
      ghost var s := State();
      DropHeldWait(s, t, m);
      WithoutHead(tasks[t].held);
      assert m in tasks[t].held && After(tasks[t].held, m) == Head(tasks[t].held[1..]);
      objs := objs[m := objs[m].(link := Head(tasks[t].held[1..]))];
      tasks := tasks[t := tasks[t].(held := tasks[t].held[1..])];
      assert State() == DropHeld(s, t, m);
      if objs[m].waiters != [] {
        var next := objs[m].waiters[0];
        assert next == First(State(), m);
        PendTaskWakeup(next, Finish);
        objs := objs[m := objs[m].(owner := Some(next))];
        tasks := tasks[next := tasks[next].(held := [m] + tasks[next].held)];
        KeepsNested(DropHeld(s, t, m), next, m);
      } else {
        objs := objs[m := objs[m].(owner := None)];
      }
    }

    /** `task_mutex_free` of a task that is dead already. */
    method StaleMutexFree(t: Tid)
      requires Listed(State()) && t < |tasks|
      modifies this`tasks, this`objs, this`ready, this`ticks
      ensures forall x :: x in StaleList(old(State()), old(tasks)[t].stale, |old(objs)|) ==> x < |old(objs)|
      ensures State() == FreeStale(old(State()), StaleList(old(State()), old(tasks)[t].stale, |old(objs)|))
    {
      hide Wf, WaitOk, ReadyOk, TickOk, StaleGive, StaleList;
      var path: seq<Oid> := StaleWalk(tasks[t].stale);
      StaleListIn(State(), tasks[t].stale, |objs|);
      ghost var s: Kernel, path0: seq<Oid> := State(), path;
      while path != []
        invariant Listed(State()) && |objs| == |s.objs| && (forall x :: x in path ==> x < |objs|)
        invariant FreeStale(State(), path) == FreeStale(s, path0)
        decreases |path|
      {
        assert path[0] in path && forall x :: x in path[1..] ==> x in path;
        StaleGiveListed(State(), path[0]);
        GiveStale(path[0]);
        path := path[1..];
      }
    }

    /** The mutexes that the links lead to. The loop of the source follows them without a bound; it ends
        all the same (`DeletionEnds`). */
    method StaleWalk(head: Option<Oid>) returns (path: seq<Oid>)
      ensures path == StaleList(State(), head, |objs|)
    {
      hide StaleList, From;
      path := [];
      ghost var s := State();
      var next: Option<Oid>, n: nat := head, |objs|;
      while next.Some? && next.value < |objs| && n > 0
        invariant n <= |objs| && StaleList(s, head, |objs|) == path + StaleList(s, next, n)
        decreases next.Some?, n
      {
        var m := next.value;
        StaleStep(s, path, m, n);
        if objs[m].kind == Mutex && objs[m].owner.Some? && objs[m].owner.value < |tasks| {
          path := path + From(tasks[objs[m].owner.value].held, m);
          next := None;
        } else {
          path := path + [m];
          next, n := objs[m].link, n - 1;
        }
      }
      StaleStop(s, next, n);
    }

    /** One turn of that loop. */
    method GiveStale(m: Oid)
      requires Listed(State()) && m < |objs|
      modifies this`tasks, this`objs, this`ready, this`ticks
      ensures State() == StaleGive(old(State()), m)
    {
      hide WaitOk, ReadyOk, TickOk, Wake;
      ghost var s := State();
      if objs[m].waiters != [] {
        var next := objs[m].waiters[0];
        assert next == First(State(), m);
        KeepsNested(s, next, m);
        var tail := tasks[next].held;
        PendTaskWakeup(next, Finish);
        objs := objs[m := objs[m].(owner := Some(next))];
        tasks := tasks[next := tasks[next].(held := [m] + tail)];
        tasks := RelinkedAll(tasks, m, tail, next);
      } else {
        objs := objs[m := objs[m].(owner := None)];
      }
    }

    /** `krhino_task_del`: the mutexes go first, then the state decides. */
    method DeleteTask(t: Tid) returns (status: Status)
      requires Inv(State()) && t < |tasks|
      modifies this
      ensures Outcome(State(), status) == TaskDel(old(State()), t)
      ensures Linked(old(State())) && Safe(old(State()), DelTask(t)) ==> Inv(State())
    {
      hide Wf, WaitOk, ReadyOk, TickOk, OwnOk, Signals, Inherits, Linked, Safe, FreeStale, StaleList, KernelSteps.TaskDel;
      if Linked(State()) && Safe(State(), DelTask(t)) { DelInv(State(), t); }
      DelCases(State(), t);
      if tasks[t].prio == IDLE_PRI { return NotAllowed; }
      if t == active {
        if lock > 0 { return SchedDisabled; }
      }
      if tasks[t].st == Deleted {
        StaleMutexFree(t);
        return InvState;
      }
      DeleteLive(t);
      return Success;
    }

    /** ... of a live task */
    method DeleteLive(t: Tid)
      requires Inv(State()) && t < |tasks| && tasks[t].Live()
      modifies this
      ensures Agree(WithStale(old(State()), t))
      ensures State() == Deleting(old(State()), t)
    {
      hide WaitOk, ReadyOk, TickOk, OwnOk, Signals, Inherits, Resched, Leave, FreeMutexes;
      WithStaleAgree(State(), t);
      tasks := tasks[t := tasks[t].(stale := Head(tasks[t].held))];
      TaskMutexFree(t);
      OwnsNothing(State(), t);
      assert TaskWf(State(), tasks[t]);
      if tasks[t].st == Rdy {
        LeaveReady(State(), t);
        ready := Remove(ready, tasks[t].prio, t);
        tasks := tasks[t := tasks[t].(st := Deleted)];
      } else {
        StopWaiting(t, Deleted, tasks[t].wake);
      }
      CoreSched();
    }

    // ----------------------------------------------------------------- tick list

    /** `tick_list_update`, and the rescheduling at the end of the interrupt. The fatal case of its
        switch cannot arise. */
    method TickListUpdate(n: nat)
      requires Inv(State())
      modifies this
      ensures State() == TickUpdate(old(State()), n).k && Inv(State())
    {
      hide Wf, WaitOk, ReadyOk, TickOk, OwnOk, Signals, Inherits, IdleOk, Resched, Leave, Due;
      TickUpdateInv(State(), n);
      now := (now + n) % TICK_RANGE;
      CoreFrame(old(State()), State());
      ghost var s := State();
      while ticks != []
        invariant Core(State()) && active < |tasks| && (lock > 0 ==> tasks[active].st == Rdy)
        invariant ExpireDue(State()) == ExpireDue(s)
        decreases |ticks|
      {
        var t := ticks[0];
        ListedState(State(), t);
        if !Due(tasks[t], now) {
          break;
        }
        ExpireSettled(State(), t);
        match tasks[t].st {
          case Sleep => StopWaiting(t, Rdy, Finish);
          case Pend => StopWaiting(t, Rdy, Timeout);
          case PendSusp => StopWaiting(t, Susp, Timeout);
          case SleepSusp => StopWaiting(t, Susp, Finish);
          case _ => assert false;
        }
      }
      CoreSched();
    }

    // --------------------------------------------------- creation and the scheduler lock

    /** `task_create` */
    method CreateTask(prio: nat, autorun: bool) returns (status: Status)
      requires Inv(State())
      modifies this
      ensures Outcome(State(), status) == TaskCreate(old(State()), prio, autorun) && Inv(State())
    {
      hide Inv, Resched;
      TaskCreateInv(State(), prio, autorun);
      if prio >= PRI_MAX { return BeyondMaxPri; }
      if prio == IDLE_PRI { return IdleExists; }
      tasks := tasks + [Task(if autorun then Rdy else Susp, prio, prio, None, [], None, if autorun then 0 else 1, Finish, 0, false, false, 0, 0)];
      if autorun {
        ready := AddTail(ready, prio, |tasks| - 1);
        CoreSched();
      }
      return Success;
    }

    /** `krhino_sched_disable` */
    method DisableSched() returns (status: Status)
      requires Inv(State())
      modifies this`lock
      ensures Outcome(State(), status) == SchedLock(old(State())) && Inv(State())
    {
      hide Inv;
      SchedInv(State());
      if lock >= MAX_LOCK { return LockOvf; }
      lock := lock + 1;
      return Success;
    }

    /** `krhino_sched_enable` */
    method EnableSched() returns (status: Status)
      requires Inv(State())
      modifies this`lock, this`active
      ensures Outcome(State(), status) == SchedUnlock(old(State())) && Inv(State())
    {
      hide Inv, Resched;
      SchedInv(State());
      if lock == 0 { return AlreadyEnabled; }
      lock := lock - 1;
      if lock > 0 { return SchedDisabled; }
      CoreSched();
      return Success;
    }
  }

  /** What the deletion of a live task leaves. */
  ghost function Deleting(s: Kernel, t: Tid): Kernel
    requires Agree(s) && t < |s.tasks| && s.tasks[t].Live()
  {
    WithStaleAgree(s, t);
    var s1 := FreeMutexes(WithStale(s, t), t);
    OwnsNothing(s1, t);
    Resched(Leave(s1, t, Deleted, s.tasks[t].wake))
  }

  lemma StaleStep(s: Kernel, path: seq<Oid>, m: Oid, n: nat)
    requires m < |s.objs| && n > 0
    ensures path + StaleList(s, Some(m), n) ==
              if Owned(s, m) then path + From(s.tasks[s.objs[m].owner.value].held, m) + StaleList(s, None, n)
              else path + [m] + StaleList(s, s.objs[m].link, n - 1)
  {
    hide From;
    assert StaleList(s, None, n) == [];
    if !Owned(s, m) {
      var rest := StaleList(s, s.objs[m].link, n - 1);
      assert path + ([m] + rest) == path + [m] + rest;
    }
  }

  lemma StaleStop(s: Kernel, next: Option<Oid>, n: nat)
    ensures next.None? || next.value >= |s.objs| || n == 0 ==> StaleList(s, next, n) == []
  {}

  lemma DelCases(s: Kernel, t: Tid)
    requires Agree(s) && t < |s.tasks|
    ensures s.tasks[t].prio == IDLE_PRI ==> TaskDel(s, t) == Outcome(s, NotAllowed)
    ensures s.tasks[t].prio != IDLE_PRI && t == s.active && s.lock > 0 ==> TaskDel(s, t) == Outcome(s, SchedDisabled)
    ensures s.tasks[t].prio != IDLE_PRI && !(t == s.active && s.lock > 0) ==>
              if s.tasks[t].Live() then TaskDel(s, t) == Outcome(Deleting(s, t), Success)
              else (forall x :: x in StaleList(s, s.tasks[t].stale, |s.objs|) ==> x < |s.objs|)
                   && TaskDel(s, t) == Outcome(FreeStale(s, StaleList(s, s.tasks[t].stale, |s.objs|)), InvState)
  {
    hide Wf, WaitOk, ReadyOk, TickOk, OwnOk, FreeMutexes, Leave, Resched, FreeStale, StaleList;
    StaleListIn(s, s.tasks[t].stale, |s.objs|);
    if s.tasks[t].Live() {
      WithStaleAgree(s, t);
      OwnsNothing(FreeMutexes(WithStale(s, t), t), t);
    }
  }

  /** `held` is the list before or after the removal, the same up to `i`. */
  ghost predicate Aligned(h0: seq<Oid>, left: seq<Oid>, held: seq<Oid>, i: nat) {
    (held == h0 || held == left) && i <= |held| && i <= |left| && held[..i] == left[..i]
  }

  ghost function LimitFrom(s: Kernel, held: seq<Oid>, i: nat, pri: nat): nat {
    if i <= |held| then PriLimit(s, held[i..], pri) else 0
  }

  /** Only the mutex list of `t` has changed. */
  ghost predicate Looking(s: Kernel, s1: Kernel, t: Tid, held: seq<Oid>) {
    t < |s.tasks| && s1 == SetTask(s, t, s.tasks[t].(held := held))
  }

  lemma LookStart(s: Kernel, t: Tid, h0: seq<Oid>, left: seq<Oid>, pri: nat)
    requires t < |s.tasks|
    ensures Looking(s, s, t, s.tasks[t].held) && Aligned(h0, left, h0, 0)
  {}

  lemma LookOn(s: Kernel, s1: Kernel, t: Tid, held: seq<Oid>)
    requires Looking(s, s1, t, held)
    ensures t < |s.tasks| && s1 == SetTask(s, t, s.tasks[t].(held := held))
    ensures |s1.tasks| == |s.tasks| && s1.objs == s.objs && forall u :: 0 <= u < |s.tasks| ==> s1.tasks[u].prio == s.tasks[u].prio
  {}

  lemma Looked(s: Kernel, s1: Kernel, t: Tid, held: seq<Oid>)
    requires t < |s.tasks| == |s1.tasks| && s1 == s.(tasks := s1.tasks) && s1.tasks[t] == s.tasks[t].(held := held)
    requires forall u :: 0 <= u < |s.tasks| && u != t ==> s1.tasks[u] == s.tasks[u]
    ensures Looking(s, s1, t, held)
  {
    assert s1.tasks == s.tasks[t := s.tasks[t].(held := held)];
  }

  lemma TakeOut(h0: seq<Oid>, left: seq<Oid>, held: seq<Oid>, o: Oid, i: nat)
    requires NoDup(h0) && left == Without(h0, o) && Aligned(h0, left, held, i) && i < |held| && held[i] == o
    ensures held[..i] + held[i + 1..] == left
  {
    WithoutNoDup(h0, o);
    RemoveAt(h0, i);
  }

  lemma HeldWaiters(s: Kernel, t: Tid)
    requires Wf(s) && t < |s.tasks|
    ensures forall o :: o in s.tasks[t].held ==> o < |s.objs| && (s.objs[o].waiters != [] ==> s.objs[o].waiters[0] < |s.tasks|)
  {
    assert TaskWf(s, s.tasks[t]);
    forall o | o in s.tasks[t].held ensures o < |s.objs| && (s.objs[o].waiters != [] ==> s.objs[o].waiters[0] < |s.tasks|) {
      assert ObjWf(s, s.objs[o]);
      if s.objs[o].waiters != [] { assert s.objs[o].waiters[0] in s.objs[o].waiters; }
    }
  }

  /** What is at index `i`, seen with `rel` already taken out. */
  lemma LeftAt(h0: seq<Oid>, left: seq<Oid>, held: seq<Oid>, rel: Option<Oid>, i: nat)
    requires (rel.Some? ==> NoDup(h0)) && left == (if rel.Some? then Without(h0, rel.value) else h0) && Aligned(h0, left, held, i)
    requires i < |held| && rel != Some(held[i])
    ensures i < |left| && left[i] == held[i] && Aligned(h0, left, held, i + 1) && held[i] in h0
  {
    if rel.Some? {
      WithoutNoDup(h0, rel.value);
      if held == h0 {
        assert held[..i + 1] == held[..i] + [held[i]];
        WithoutPrefix(h0, rel.value, i + 1);
      }
    }
    assert left[..i + 1][i] == held[..i + 1][i];
  }

  lemma NothingLeft(h0: seq<Oid>, left: seq<Oid>, held: seq<Oid>, rel: Option<Oid>)
    requires left == (if rel.Some? then Without(h0, rel.value) else h0) && Aligned(h0, left, held, |held|)
    ensures held == left
  {
    assert held == left[..|held|];
  }

  lemma PriLimitStep(s: Kernel, held: seq<Oid>, i: nat, pri: nat)
    requires i < |held|
    ensures PriLimit(s, held[i..], pri) ==
            PriLimit(s, held[i + 1..], if Waited(s, held[i]) && Top(s, held[i]) < pri then Top(s, held[i]) else pri)
  {
    assert held[i..][1..] == held[i + 1..];
  }

  lemma LookStep(s: Kernel, held: seq<Oid>, i: nat, newPri: nat, pri0: nat, pri: nat)
    requires i < |held| && held[i] < |s.objs| && newPri <= pri0
    requires s.objs[held[i]].waiters != [] ==> s.objs[held[i]].waiters[0] < |s.tasks|
    requires pri == if s.objs[held[i]].waiters != [] then Top(s, held[i]) else pri0
    ensures LimitFrom(s, held, i, newPri) == LimitFrom(s, held, i + 1, if newPri > pri then pri else newPri)
  {
    PriLimitStep(s, held, i, newPri);
  }

  /** The mutex to be released is found at index `i`: only then, and only once. */
  lemma FoundAt(h0: seq<Oid>, left: seq<Oid>, held: seq<Oid>, o: Oid, i: nat)
    requires NoDup(h0) && left == Without(h0, o) && Aligned(h0, left, held, i) && i < |held| && held[i] == o
    ensures held == h0 && o in h0 && After(h0, o) == if i + 1 < |held| then Some(held[i + 1]) else None
  {
    WithoutNoDup(h0, o);
    AfterAt(h0, i);
  }

  lemma {:induction false} AfterAt(held: seq<Oid>, i: nat)
    requires NoDup(held) && i < |held|
    ensures After(held, held[i]) == if i + 1 < |held| then Some(held[i + 1]) else None
  {
    if i > 0 {
      assert NoDup(held[1..]) && held[1..][i - 1] == held[i] && held[0] != held[i];
      AfterAt(held[1..], i - 1);
    }
  }

  /** What `mutex_pri_look` leaves. */
  lemma LookLinked(s: Kernel, s1: Kernel, r: Kernel, t: Tid, rel: Option<Oid>, found: bool, link: Option<Oid>, newPri: nat)
    requires t < |s.tasks| && (rel.Some? ==> NoDup(s.tasks[t].held) && rel.value < |s.objs|)
    requires var h0 := s.tasks[t].held;
             && s1 == SetTask(s, t, s.tasks[t].(held := if rel.Some? then Without(h0, rel.value) else h0))
             && (if found then rel.Some? && rel.value in h0 && link == After(h0, rel.value)
                 else rel.Some? ==> Without(h0, rel.value) == h0)
    requires r == if found then SetObj(s1, rel.value, s1.objs[rel.value].(link := link)) else s1
    requires newPri == PriLook(s1, t)
    ensures r == (if rel.Some? then DropHeld(s, t, rel.value) else s) && newPri == PriLook(r, t)
  {
    var h0 := s.tasks[t].held;
    if rel.Some? { WithoutNoDup(h0, rel.value); }
    PriLimitFrame(s1, r, r.tasks[t].held, r.tasks[t].bprio);
    if rel.None? { assert s1.tasks == s.tasks; }
  }

  lemma LookDone(s: Kernel, s1: Kernel, t: Tid, left: seq<Oid>, newPri: nat)
    requires t < |s.tasks| && s1 == SetTask(s, t, s.tasks[t].(held := left))
    requires LimitFrom(s, left, 0, s.tasks[t].bprio) == LimitFrom(s, left, |left|, newPri)
    ensures newPri == PriLook(s1, t)
  {
    assert left[|left|..] == [] && left[0..] == left;
    PriLimitFrame(s, s1, left, s.tasks[t].bprio);
  }

  lemma {:induction false} RemoveAt<T>(xs: seq<T>, i: nat)
    requires NoDup(xs) && i < |xs|
    ensures Without(xs, xs[i]) == xs[..i] + xs[i + 1..]
  {
    if i > 0 {
      var tl := xs[1..];
      assert tl[i - 1] == xs[i] && NoDup(tl) && xs[0] != xs[i];
      RemoveAt(tl, i - 1);
      assert tl[..i - 1] == xs[1..i] && tl[i..] == xs[i + 1..];
      assert [xs[0]] + xs[1..i] == xs[..i];
    }
  }

  lemma {:induction false} WithoutPrefix<T>(xs: seq<T>, x: T, n: nat)
    requires n <= |xs| && x !in xs[..n]
    ensures n <= |Without(xs, x)| && Without(xs, x)[..n] == xs[..n]
  {
    if n > 0 {
      assert xs[0] in xs[..n];
      assert xs[1..][..n - 1] == xs[1..n];
      assert forall y :: y in xs[1..n] ==> y in xs[..n];
      WithoutPrefix(xs[1..], x, n - 1);
      assert xs[..n] == [xs[0]] + xs[1..n];
    }
  }

  lemma LookBound(s: Kernel, t: Tid)
    requires Wf(s) && t < |s.tasks|
    ensures PriLook(s, t) < PRI_MAX
  {
    assert TaskWf(s, s.tasks[t]);
  }

  lemma SamePrioWf(s: Kernel, s1: Kernel, t: Tid)
    requires Wf(s) && t < |s.tasks| == |s1.tasks| && s1.objs == s.objs && s1.tasks[t].prio < PRI_MAX
    requires s1.tasks == s.tasks[t := s.tasks[t].(prio := s1.tasks[t].prio)]
    ensures Wf(s1)
  {
    forall u | 0 <= u < |s1.tasks| ensures TaskWf(s1, s1.tasks[u]) {
      assert TaskWf(s, s.tasks[u]);
    }
    forall o | 0 <= o < |s1.objs| ensures ObjWf(s1, s1.objs[o]) {
      assert ObjWf(s, s.objs[o]);
    }
  }

  lemma VisitFacts(s: Kernel, o: Oid, ws: seq<Tid>, cur: bv32)
    requires Agree(s) && o < |s.objs| && ws != [] && NoDup(ws) && forall t :: t in ws ==> t in s.objs[o].waiters
    ensures NoDup(ws[1..]) && ws[0] < |s.tasks| && s.tasks[ws[0]].blk == Some(o)
    ensures var k := s.tasks[ws[0]];
            var s1 := if Matches(cur, k.pendFlags, k.pendAnd) then EventWakeOne(s, o, ws[0], cur) else s;
            && Agree(s1) && |s1.objs| == |s.objs| && (forall t :: t in ws[1..] ==> t in s1.objs[o].waiters)
            && EventWake(s, o, ws, cur) == EventWake(s1, o, ws[1..], cur)
  {
    hide ReadyOk, TickOk, OwnOk, Matches, EventWakeOne;
    assert ws[0] in ws && ObjWf(s, s.objs[o]) && TaskWf(s, s.tasks[ws[0]]);
    assert ws[0] !in ws[1..] && forall t :: t in ws[1..] ==> t in ws;
    if Matches(cur, s.tasks[ws[0]].pendFlags, s.tasks[ws[0]].pendAnd) {
      EventWakeOneAgree(s, o, ws[0], cur);
    }
  }

  /** ... nor to its hand-over. */
  lemma GiveNested(r: Kernel, r0: Kernel, o: Oid)
    requires Wf(r) && WaitOk(r) && Wf(r0) && WaitOk(r0) && o < |r.objs| && r0 == SetObj(r, o, r.objs[o].(nested := 0))
    requires r.objs[o].waiters != []
    ensures First(r0, o) == First(r, o) && r0.tasks[First(r, o)].Pending()
    ensures var f := First(r, o);
            var w := Wake(r0, f, Finish);
            var w1 := SetObj(w, o, w.objs[o].(owner := Some(f)));
            var w2 := SetTask(w1, f, w1.tasks[f].(held := [o] + w1.tasks[f].held));
            SetObj(w2, o, w2.objs[o].(nested := 1)) == KernelSteps.Give(r, o, 1)
  {
    hide WaitOk;
    var f := First(r, o);
    assert TaskWf(r, r.tasks[f]);
    var w, v := Wake(r0, f, Finish), Wake(r, f, Finish);
    assert w.tasks == v.tasks && w.ready == v.ready && w.ticks == v.ticks;
    assert w.objs[o] == v.objs[o].(nested := 0);
    assert w.objs[o := v.objs[o].(owner := Some(f), nested := 1)] == v.objs[o := v.objs[o].(owner := Some(f), nested := 1)];
  }

  /** The nesting depth does not matter to the release of a mutex. */
  lemma ReleasedFacts(s: Kernel, o: Oid)
    requires Inv(s) && o < |s.objs| && Owns(s, s.active, o)
    ensures var a, s0 := s.active, SetObj(s, o, s.objs[o].(nested := 0));
            && Wf(s0) && Wf(DropHeld(s0, a, o)) && NoDup(s0.tasks[a].held) && Wf(DropHeld(s, a, o))
            && var r, r0 := Release(DropHeld(s, a, o), a), Release(DropHeld(s0, a, o), a);
               && r0 == SetObj(r, o, r.objs[o].(nested := 0)) && Wf(r0) && WaitOk(r0) && Wf(r) && WaitOk(r)
               && r.objs[o].waiters == s.objs[o].waiters
  {
    hide Wf, WaitOk, ReadyOk, TickOk, OwnOk, Signals, Inherits, DropHeld, Release;
    var a, s0 := s.active, SetObj(s, o, s.objs[o].(nested := 0));
    SameObjAgree(s, o, s0.objs[o]);
    HeldOnce(s, a);
    DropHeldWait(s, a, o);
    DropHeldWait(s0, a, o);
    ReleaseSame(s, s0, a, o);
  }

  lemma HeldOnce(s: Kernel, t: Tid)
    requires OwnOk(s) && t < |s.tasks| && s.tasks[t].Live()
    ensures NoDup(s.tasks[t].held)
  {}

  lemma ReleaseSame(s: Kernel, s0: Kernel, a: Tid, o: Oid)
    requires o < |s.objs| && a < |s.tasks| && s.tasks[a].st == Rdy && s0 == SetObj(s, o, s.objs[o].(nested := 0))
    requires Wf(DropHeld(s, a, o)) && WaitOk(DropHeld(s, a, o)) && Wf(DropHeld(s0, a, o)) && WaitOk(DropHeld(s0, a, o))
    ensures var r, r0 := Release(DropHeld(s, a, o), a), Release(DropHeld(s0, a, o), a);
            && r0 == SetObj(r, o, r.objs[o].(nested := 0)) && Wf(r0) && WaitOk(r0) && Wf(r) && WaitOk(r)
            && r.objs[o].waiters == s.objs[o].waiters
  {
    hide Wf, WaitOk, Without, Release, After, DropHeld;
    var d, d0 := DropHeld(s, a, o), DropHeld(s0, a, o);
    DropSame(s, s0, a, o);
    ReleaseReady(d, a);
    ReleaseReady(d0, a);
    PriSame(d, d0, a, o);
  }

  lemma DropSame(s: Kernel, s0: Kernel, a: Tid, o: Oid)
    requires o < |s.objs| && a < |s.tasks| && s0 == SetObj(s, o, s.objs[o].(nested := 0))
    ensures var d, d0 := DropHeld(s, a, o), DropHeld(s0, a, o);
            && d0 == SetObj(d, o, d.objs[o].(nested := 0)) && d.objs[o].waiters == s.objs[o].waiters
            && d.tasks[a].st == s.tasks[a].st
  {
    hide Without, After;
  }

  lemma PriSame(d: Kernel, d0: Kernel, a: Tid, o: Oid)
    requires Wf(d) && Wf(d0) && o < |d.objs| && a < |d.tasks| && d0 == SetObj(d, o, d.objs[o].(nested := 0))
    ensures PriLook(d0, a) == PriLook(d, a)
    ensures d.tasks[a].st == Rdy && PriLook(d, a) < PRI_MAX ==>
              var p := PriLook(d, a); SetPrio(d0, a, p) == SetObj(SetPrio(d, a, p), o, d.objs[o].(nested := 0))
  {
    hide Wf, PriLimit, Remove, AddHead, AddTail, Without, Insert, Prios;
    PriLimitFrame(d, d0, d.tasks[a].held, d.tasks[a].bprio);
  }

  lemma RetireOwner(s: Kernel, o: Oid)
    requires Agree(s) && o < |s.objs| && s.objs[o].kind == Mutex && s.objs[o].owner.Some?
    ensures var w := s.objs[o].owner.value; w < |s.tasks| && s.tasks[w].Live() && NoDup(s.tasks[w].held)
  {
    OwnerLive(s, o);
  }

  lemma RetiredWf(s: Kernel, o: Oid)
    requires Agree(s) && o < |s.objs|
    ensures Wf(SetObj(s, o, s.objs[o].(kind := NoObj, flags := 0)))
  {
    var s1 := SetObj(s, o, s.objs[o].(kind := NoObj, flags := 0));
    forall u | 0 <= u < |s1.tasks| ensures TaskWf(s1, s1.tasks[u]) {
      assert TaskWf(s, s.tasks[u]);
    }
    forall m | 0 <= m < |s1.objs| ensures ObjWf(s1, s1.objs[m]) {
      assert ObjWf(s, s.objs[m]);
    }
  }

  lemma NotListed(s: Kernel, t: Tid)
    requires TickOk(s) && t < |s.tasks| && (s.tasks[t].st == Rdy || s.tasks[t].st == Susp)
    ensures Without(s.ticks, t) == s.ticks
  {}

  lemma WaitFacts(s: Kernel, t: Tid)
    requires Wf(s) && t < |s.tasks|
    ensures (s.tasks[t].blk.Some? <==> s.tasks[t].Pending()) && s.tasks[t].prio < PRI_MAX
    ensures s.tasks[t].blk.Some? ==>
              var o := s.tasks[t].blk.value; o < |s.objs| && (s.objs[o].kind == Mutex ==> s.objs[o].owner.Some?)
  {
    assert TaskWf(s, s.tasks[t]);
  }

  lemma FreeStep(s: Kernel, t: Tid)
    requires Agree(s) && t < |s.tasks| && s.tasks[t].Live() && s.tasks[t].held != []
    ensures var m := s.tasks[t].held[0];
            && Owns(s, t, m) && Agree(PassOn(s, t, m, s.objs[m].nested))
            && FreeMutexes(s, t) == FreeMutexes(PassOn(s, t, m, s.objs[m].nested), t)
            && PassOn(s, t, m, s.objs[m].nested).tasks[t] == s.tasks[t].(held := s.tasks[t].held[1..])
  {
    var m := s.tasks[t].held[0];
    assert m in s.tasks[t].held && TaskWf(s, s.tasks[t]) && Owns(s, t, m);
    hide WaitOk, ReadyOk, TickOk, OwnOk;
    PassOnAgree(s, t, m, s.objs[m].nested);
    WithoutHead(s.tasks[t].held);
  }

  lemma KeepsNested(s: Kernel, t: Tid, o: Oid)
    requires Wf(s) && t < |s.tasks| && o < |s.objs|
    ensures Wake(s, t, Finish).objs[o].nested == s.objs[o].nested && Wake(s, t, Finish).tasks[t].held == s.tasks[t].held
  {}

  lemma LeaveReady(s: Kernel, t: Tid)
    requires Agree(s) && t < |s.tasks| && s.tasks[t].st == Rdy && CanMove(s, t, Deleted)
    ensures s.tasks[t].prio < PRI_MAX
    ensures Leave(s, t, Deleted, s.tasks[t].wake) ==
            s.(tasks := s.tasks[t := s.tasks[t].(st := Deleted)], ready := Remove(s.ready, s.tasks[t].prio, t))
  {
    assert TaskWf(s, s.tasks[t]);
    assert t !in s.ticks;
  }

  lemma ListedState(s: Kernel, t: Tid)
    requires Core(s) && t in s.ticks
    ensures t < |s.tasks| && t != IDLE && (s.tasks[t].Sleeping() || s.tasks[t].Pending())
    ensures CanMove(s, t, Rdy) && CanMove(s, t, Susp)
  {
    assert TaskWf(s, s.tasks[t]);
  }
}
