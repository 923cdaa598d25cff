/** Changing a task's base priority: whom it concerns, and where the task goes. */
module KernelPri {
  import opened Lists
  import opened ReadyQueue
  import opened KernelState
  import opened PriorityChain
  import opened KernelInv
  import opened KernelSteps
  import opened MutexProofs
  import opened TaskProofs
  import opened KernelRun
  import opened KernelEffects

  /** A chain of tasks, each waiting for a mutex of the next one, leads from `t` to `u`. */
  ghost predicate Leads(s: Kernel, t: Tid, u: Tid) {
    exists path :: LeadsBy(s, path, t, u)
  }

  ghost predicate LeadsBy(s: Kernel, path: seq<Tid>, t: Tid, u: Tid) {
    Chained(s, path) && path[0] == t && path[|path| - 1] == u
  }

  lemma LeadsSelf(s: Kernel, t: Tid)
    requires t < |s.tasks|
    ensures Leads(s, t, t)
  {
    assert LeadsBy(s, [t], t, t);
  }

  /** From the one that `t` waits for, nowhere is reached that is not reached from `t`. */
  lemma LeadsOn(s: Kernel, s1: Kernel, t: Tid, w: Tid, u: Tid)
    requires OnlyPrio(s, s1) && t < |s.tasks| && WaitsFor(s, t, w) && Leads(s1, w, u)
    ensures Leads(s, t, u)
  {
    var path :| LeadsBy(s1, path, w, u);
    var longer := [t] + path;
    forall i | 0 <= i < |longer| - 1 ensures WaitsFor(s, longer[i], longer[i + 1]) {
      if i > 0 {
        assert WaitsFor(s1, path[i - 1], path[i]);
        SameWaits(s, s1, path[i - 1], path[i]);
      }
    }
    assert LeadsBy(s, longer, t, u);
  }

  lemma SameWaits(s: Kernel, s1: Kernel, t: Tid, w: Tid)
    requires OnlyPrio(s, s1) && WaitsFor(s1, t, w)
    ensures WaitsFor(s, t, w)
  {
    var o := s1.tasks[t].blk.value;
    assert SameButOrder(s.objs[o], s1.objs[o]);
  }

  /** The loop of `task_pri_change` gives new priorities along the chain only. */
  lemma {:induction false} OffChain(s: Kernel, t: Tid, p: nat, u: Tid)
    requires Agree(s) && t < |s.tasks| && p < PRI_MAX && u < |s.tasks| && !Leads(s, t, u)
    ensures PriChange(s, t, p).tasks[u] == s.tasks[u]
    decreases p > s.tasks[t].prio, Room(s, t, p)
  {
    hide Wf, WaitOk, ReadyOk, TickOk, OwnOk, NextInChain, Room, Leads, SetPrio;
    LeadsSelf(s, t);
    if p != s.tasks[t].prio && s.tasks[t].st != Deleted {
      var s1 := SetPrio(s, t, p);
      SetPrioAgree(s, t, p);
      SetPrioOnly(s, t, p);
      OnlyOne(s, t, p, u);
      match NextInChain(s1, t, s.tasks[t].prio)
      case Stop =>
      case Follow(w, q) =>
        ChainRoom(s, t, p, w, q);
        FollowsOwner(s, t, p, w, q);
        if Leads(s1, w, u) { LeadsOn(s, s1, t, w, u); }
        OffChain(s1, w, q, u);
    }
  }

  lemma OnlyOne(s: Kernel, t: Tid, p: nat, u: Tid)
    requires Wf(s) && t < |s.tasks| && p < PRI_MAX && u < |s.tasks| && u != t
    ensures SetPrio(s, t, p).tasks[u] == s.tasks[u]
  {}

  lemma FollowsOwner(s: Kernel, t: Tid, p: nat, w: Tid, q: nat)
    requires Agree(s) && t < |s.tasks| && p < PRI_MAX
    requires Wf(SetPrio(s, t, p)) && NextInChain(SetPrio(s, t, p), t, s.tasks[t].prio) == Follow(w, q)
    ensures WaitsFor(s, t, w)
  {
    hide WaitOk, ReadyOk, TickOk, OwnOk;
    SetPrioOnly(s, t, p);
    assert TaskWf(s, s.tasks[t]);
    var o := s.tasks[t].blk.value;
    assert SameButOrder(s.objs[o], SetPrio(s, t, p).objs[o]);
  }

  /** `t` has the base priority `pri`, and runs at the least of that and the first waiters of its mutexes:
      at `pri` when nobody waits for them. Priorities aside, nobody else has noticed, and priorities are
      new along the chain only. */
  ghost predicate Reprioritised(s: Kernel, r: Kernel, t: Tid, pri: nat) {
    && t < |s.tasks| == |r.tasks| && |r.objs| == |s.objs| && r.ticks == s.ticks && r.now == s.now && r.lock == s.lock
    && (forall u :: 0 <= u < |s.tasks| ==>
         r.tasks[u] == s.tasks[u].(prio := r.tasks[u].prio, bprio := if u == t then pri else s.tasks[u].bprio))
    && (forall o :: 0 <= o < |s.objs| ==> SameButOrder(s.objs[o], r.objs[o]))
    && var p := r.tasks[t].prio;
       && p <= pri && (forall o :: OwnsWaited(r, t, o) ==> p <= Top(r, o))
       && (p == pri || exists o :: OwnsWaited(r, t, o) && Top(r, o) == p)
       && (forall u :: 0 <= u < |s.tasks| && !Leads(s, t, u) ==> r.tasks[u].prio == s.tasks[u].prio)
  }

  /** A ready task whose priority has changed: it is the first of its new list if it runs, and else the
      last; all others keep their places. */
  ghost predicate Placed(s: Kernel, r: Kernel, t: Tid) {
    && t < |s.tasks| == |r.tasks| && r.tasks[t].prio < PRI_MAX
    && (r.tasks[t].prio == s.tasks[t].prio ==> r.ready == s.ready)
    && (r.tasks[t].prio != s.tasks[t].prio ==>
         && (if t == s.active then StartsWith(r.ready[r.tasks[t].prio], t) else LastInLane(r, t))
         && forall p :: 0 <= p < PRI_MAX ==> Without(r.ready[p], t) == Without(s.ready[p], t))
  }

  predicate StartsWith(xs: seq<Tid>, t: Tid) {
    xs != [] && xs[0] == t
  }

  /** `krhino_task_pri_change` */
  lemma PriAnswer(s: Kernel, t: Tid, pri: nat)
    requires Inv(s) && t < |s.tasks|
    ensures var out := TaskPriChange(s, t, pri);
            if s.tasks[t].prio >= IDLE_PRI || pri >= IDLE_PRI then out == Outcome(s, NotAllowed)
            else if s.tasks[t].st == Deleted then out == Outcome(s, InvState)
            else out.status == Success && Reprioritised(s, out.k, t, pri) && (s.tasks[t].st == Rdy ==> Placed(s, out.k, t))
  {
    hide Wf, WaitOk, ReadyOk, TickOk, OwnOk, Signals, Inherits, IdleOk, Resched, PriChange, PriLimit, Placed, Reprioritised, Leads;
    var k := s.tasks[t];
    if k.Live() && k.prio < IDLE_PRI && pri < IDLE_PRI {
      TaskPriChangeInv(s, t, pri);
      WithBaseAgree(s, t, pri);
      WithBaseLook(s, t, pri);
      var s1 := WithBase(s, t, pri);
      var r := Release(s1, t);
      PrioBound(s1, t);
      PriChangeAgree(s1, t, PriLook(s1, t));
      ReschedSame(r);
      IsReprioritised(s, s1, r, Resched(r), t, pri);
      if k.st == Rdy { IsPlaced(s, s1, r, t); StillPlaced(s, r, t); }
    }
  }

  lemma IsReprioritised(s: Kernel, s1: Kernel, r: Kernel, z: Kernel, t: Tid, pri: nat)
    requires Agree(s) && t < |s.tasks| && s.tasks[t].Live() && s1 == WithBase(s, t, pri) && Agree(s1) && r == Release(s1, t) && pri < PRI_MAX
    requires OnlyPrio(s1, r) && SameTables(r, z) && Inherits(z, Bases(z.tasks))
    ensures Reprioritised(s, z, t, pri)
  {
    hide Wf, WaitOk, ReadyOk, TickOk, OwnOk, PriLimit, Release, Leads;
    forall u | 0 <= u < |s.tasks| && !Leads(s, t, u) ensures z.tasks[u].prio == s.tasks[u].prio {
      if Leads(s1, t, u) { SameLeads(s, s1, t, u); }
      PrioBound(s1, t);
      OffRelease(s1, t, u);
      LeadsSelf(s, t);
    }
    assert IsLeast(z, Bases(z.tasks), t, z.tasks[t].prio);
  }

  lemma OffRelease(s: Kernel, t: Tid, u: Tid)
    requires Agree(s) && t < |s.tasks| && u < |s.tasks| && !Leads(s, t, u)
    ensures Release(s, t).tasks[u] == s.tasks[u]
  {
    hide WaitOk, ReadyOk, TickOk, OwnOk, PriChange, Leads;
    PrioBound(s, t);
    assert TaskWf(s, s.tasks[t]);
    OffChain(s, t, PriLook(s, t), u);
  }

  lemma SameLeads(s: Kernel, s1: Kernel, t: Tid, u: Tid)
    requires |s1.tasks| == |s.tasks| && s1.objs == s.objs && Leads(s1, t, u)
    requires forall v :: 0 <= v < |s.tasks| ==> s1.tasks[v].blk == s.tasks[v].blk
    ensures Leads(s, t, u)
  {
    var path :| LeadsBy(s1, path, t, u);
    forall i | 0 <= i < |path| - 1 ensures WaitsFor(s, path[i], path[i + 1]) {
      assert WaitsFor(s1, path[i], path[i + 1]);
    }
    assert LeadsBy(s, path, t, u);
  }

  lemma IsPlaced(s: Kernel, s1: Kernel, r: Kernel, t: Tid)
    requires Agree(s) && t < |s.tasks| == |s1.tasks| && s.tasks[t].st == Rdy && Agree(s1) && r == Release(s1, t)
    requires s1 == s.(tasks := s1.tasks) && s1.tasks[t].prio == s.tasks[t].prio && s1.tasks[t].st == Rdy
    ensures Placed(s, r, t)
  {
    hide WaitOk, TickOk, OwnOk, PriLimit, Release;
    ReleaseReady(s1, t);
    assert TaskWf(s, s.tasks[t]);
    if r.tasks[t].prio != s.tasks[t].prio {
      forall p | 0 <= p < PRI_MAX ensures Without(r.ready[p], t) == Without(s.ready[p], t) {
        LaneWithout(s.ready, s.tasks[t].prio, r.tasks[t].prio, t, t == s.active, p);
      }
    }
  }

  lemma StillPlaced(s: Kernel, r: Kernel, t: Tid)
    requires Placed(s, r, t)
    ensures Placed(s, Resched(r), t)
  {}

  lemma LaneWithout(q: Lanes, from: nat, to: nat, t: Tid, head: bool, p: nat)
    requires from < PRI_MAX && to < PRI_MAX && p < PRI_MAX && from != to
    requires t !in q[to] && NoDup(q[from])
    ensures var q1 := Remove(q, from, t);
            Without((if head then AddHead(q1, to, t) else AddTail(q1, to, t))[p], t) == Without(q[p], t)
  {
    WithoutNoDup(q[from], t);
    if p == to && !head { WithoutEnd(q[to], t); }
  }

  lemma {:induction false} WithoutEnd<T>(xs: seq<T>, x: T)
    requires x !in xs
    ensures Without(xs + [x], x) == xs
  {
    if xs != [] {
      WithoutEnd(xs[1..], x);
      assert (xs + [x])[1..] == xs[1..] + [x];
    }
  }

  /** A waiter with a new priority gets its new place in its line: behind every other waiter that is at least
      as urgent, and before all others. */
  lemma ReordersBehind(s: Kernel, t: Tid, p: nat, o: Oid) returns (i: nat)
    requires Agree(s) && t < |s.tasks| && p < PRI_MAX && s.tasks[t].blk == Some(o)
    ensures o < |s.objs| && AreTasks(s, Without(s.objs[o].waiters, t))
    ensures var ws := Without(s.objs[o].waiters, t);
            && i <= |ws| && SetPrio(s, t, p).objs[o].waiters == ws[..i] + [t] + ws[i..]
            && forall j :: 0 <= j < |ws| ==> (j < i <==> s.tasks[ws[j]].prio <= p)
  {
    hide ReadyOk, TickOk, OwnOk, Insert, Sorted, Without, SetPrio, Agree;
    var ws, ps := OthersInLine(s, t, p, o);
    i := InsertPlace(ps, ws, p, t);
  }

  lemma OthersInLine(s: Kernel, t: Tid, p: nat, o: Oid) returns (ws: seq<Tid>, ps: seq<nat>)
    requires Agree(s) && t < |s.tasks| && p < PRI_MAX && s.tasks[t].blk == Some(o)
    ensures o < |s.objs| && ws == Without(s.objs[o].waiters, t) && AreTasks(s, ws) && Keyed(ps, ws) && Sorted(ps, ws)
    ensures SetPrio(s, t, p).objs[o].waiters == Insert(ps, ws, p, t) && forall j :: 0 <= j < |ws| ==> ps[ws[j]] == s.tasks[ws[j]].prio
  {
    hide ReadyOk, TickOk, OwnOk, Insert, Remove, AddHead, AddTail;
    assert TaskWf(s, s.tasks[t]) && ListOk(s, s.objs[o].waiters) && ObjWf(s, s.objs[o]);
    ws, ps := Without(s.objs[o].waiters, t), Prios(SetPrio(s, t, p).tasks);
    WithoutNoDup(s.objs[o].waiters, t);
    WithoutSorted(Prios(s.tasks), s.objs[o].waiters, t);
    SortedFrame(Prios(s.tasks), ps, ws);
    forall j | 0 <= j < |ws| ensures ws[j] < |s.tasks| && ws[j] != t { assert ws[j] in ws && ws[j] in s.objs[o].waiters; }
  }
}
