/** Priority inheritance: the equation every priority obeys, and the loop of
    `task_pri_change` that restores it along a chain of blocked owners. */
module PriorityChain {
  import opened Lists
  import opened ReadyQueue
  import opened KernelState

  // ------------------------------------------------------ the loop, as a function

  /** The priority of the first waiter. */
  function Top(s: Kernel, o: Oid): nat
    requires o < |s.objs| && s.objs[o].waiters != [] && s.objs[o].waiters[0] < |s.tasks|
  {
    s.tasks[s.objs[o].waiters[0]].prio
  }

  predicate Waited(s: Kernel, o: Oid) {
    o < |s.objs| && s.objs[o].waiters != [] && s.objs[o].waiters[0] < |s.tasks|
  }

  /** `mutex_pri_limit`: the least of `pri` and the first waiters of the held mutexes. */
  function PriLimit(s: Kernel, held: seq<Oid>, pri: nat): (r: nat)
    ensures r <= pri
    ensures forall o :: o in held && Waited(s, o) ==> r <= Top(s, o)
    ensures r == pri || exists o :: o in held && Waited(s, o) && Top(s, o) == r
  {
    if held == [] then pri
    else
      var o := held[0];
      PriLimit(s, held[1..], if Waited(s, o) && Top(s, o) < pri then Top(s, o) else pri)
  }

  /** `mutex_pri_look(t, NULL)`. */
  function PriLook(s: Kernel, t: Tid): nat
    requires t < |s.tasks|
  {
    PriLimit(s, s.tasks[t].held, s.tasks[t].bprio)
  }

  /** One pass through the switch of `task_pri_change`: give `t` the priority `p`. */
  function SetPrio(s: Kernel, t: Tid, p: nat): (r: Kernel)
    requires Wf(s) && t < |s.tasks| && p < PRI_MAX
    ensures |r.tasks| == |s.tasks| && |r.objs| == |s.objs|
  {
    var k := s.tasks[t];
    var s1 := SetTask(s, t, k.(prio := p));
    if k.st == Rdy then
      var q := Remove(s.ready, k.prio, t);
      s1.(ready := if t == s.active then AddHead(q, p, t) else AddTail(q, p, t))
    else if k.blk.Some? then
      var o := k.blk.value;
      var ws := Without(s.objs[o].waiters, t);
      assert forall i :: 0 <= i < |ws| ==> ws[i] in ws;
      SetObj(s1, o, s.objs[o].(waiters := Insert(Prios(s1.tasks), ws, p, t)))
    else s1
  }

  datatype Next = Stop | Follow(task: Tid, pri: nat)

  /** Where the loop goes after `t` moved from `oldPri` to its present priority. */
  function NextInChain(s: Kernel, t: Tid, oldPri: nat): Next
    requires Wf(s) && t < |s.tasks|
  {
    var k := s.tasks[t];
    assert TaskWf(s, k);
    if k.blk.None? || s.objs[k.blk.value].kind != Mutex then Stop
    else
      var w := s.objs[k.blk.value].owner.value;
      if s.tasks[w].prio > k.prio then Follow(w, k.prio)
      else if s.tasks[w].prio == oldPri && PriLook(s, w) != s.tasks[w].prio then Follow(w, PriLook(s, w))
      else Stop
  }

  /** The sum of all priorities. */
  function Sum(ts: seq<Task>): (r: nat) {
    if ts == [] then 0 else ts[0].prio + Sum(ts[1..])
  }

  lemma {:induction false} SumUpdate(ts: seq<Task>, t: Tid, k: Task)
    requires t < |ts|
    ensures Sum(ts[t := k]) == Sum(ts) - ts[t].prio + k.prio
  {
    if t == 0 {
      assert ts[t := k][1..] == ts[1..];
    } else {
      assert ts[t := k][1..] == ts[1..][t - 1 := k];
      SumUpdate(ts[1..], t - 1, k);
    }
  }

  lemma {:induction false} SumBound(ts: seq<Task>)
    requires forall t :: 0 <= t < |ts| ==> ts[t].prio < PRI_MAX
    ensures Sum(ts) <= PRI_MAX * |ts|
  {
    if ts != [] {
      assert forall t :: 0 <= t < |ts[1..]| ==> ts[1..][t] == ts[t + 1];
      SumBound(ts[1..]);
    }
  }

  lemma SetPrioWf(s: Kernel, t: Tid, p: nat)
    requires Wf(s) && t < |s.tasks| && p < PRI_MAX
    ensures Wf(SetPrio(s, t, p))
    ensures Sum(SetPrio(s, t, p).tasks) == Sum(s.tasks) - s.tasks[t].prio + p
  {
    hide Insert, Without, Remove, AddHead, AddTail, Sum;
    SumUpdate(s.tasks, t, s.tasks[t].(prio := p));
    SumBound(s.tasks);
    var s1 := SetPrio(s, t, p);
    forall u | 0 <= u < |s1.tasks| ensures TaskWf(s1, s1.tasks[u]) {
      assert TaskWf(s, s.tasks[u]);
    }
    forall o | 0 <= o < |s1.objs| ensures ObjWf(s1, s1.objs[o]) {
      assert ObjWf(s, s.objs[o]);
    }
  }

  /** How far the priorities can still move in the direction of the change. */
  function Room(s: Kernel, t: Tid, p: nat): (r: int)
    requires t < |s.tasks|
  {
    if p > s.tasks[t].prio then PRI_MAX * |s.tasks| - Sum(s.tasks) else Sum(s.tasks)
  }

  /** `task_pri_change`. It terminates on every owner/waiter graph, cycles included:
      a lowering step uses up room above the sum of priorities, a raising step only
      leads to raising steps, and those use up the sum itself. */
  function PriChange(s: Kernel, t: Tid, p: nat): (r: Kernel)
    requires Wf(s) && t < |s.tasks| && p < PRI_MAX
    ensures Wf(r) && |r.tasks| == |s.tasks| && |r.objs| == |s.objs|
    decreases p > s.tasks[t].prio, Room(s, t, p)
  {
    if p == s.tasks[t].prio || s.tasks[t].st == Deleted then s
    else
      var s1 := SetPrio(s, t, p);
      SetPrioWf(s, t, p);
      match NextInChain(s1, t, s.tasks[t].prio)
      case Stop => s1
      case Follow(w, q) =>
        SumBound(s.tasks); SumBound(s1.tasks);
        PriChange(s1, w, q)
  }

  /** The loop passes dead tasks by. */
  lemma {:induction false} PriChangeDead(s: Kernel, t: Tid, p: nat, u: Tid)
    requires Wf(s) && t < |s.tasks| && p < PRI_MAX && u < |s.tasks| && s.tasks[u].st == Deleted
    ensures PriChange(s, t, p).tasks[u] == s.tasks[u]
    decreases p > s.tasks[t].prio, Room(s, t, p)
  {
    hide Wf, NextInChain, Room;
    if p != s.tasks[t].prio && s.tasks[t].st != Deleted {
      var s1 := SetPrio(s, t, p);
      SetPrioWf(s, t, p);
      match NextInChain(s1, t, s.tasks[t].prio)
      case Stop =>
      case Follow(w, q) =>
        ChainRoom(s, t, p, w, q);
        PriChangeDead(s1, w, q, u);
    }
  }

  /** The measure of `PriChange` for the next task in the chain. */
  lemma ChainRoom(s: Kernel, t: Tid, p: nat, w: Tid, q: nat)
    requires Wf(s) && t < |s.tasks| && p < PRI_MAX && p != s.tasks[t].prio
    requires Wf(SetPrio(s, t, p)) && NextInChain(SetPrio(s, t, p), t, s.tasks[t].prio) == Follow(w, q)
    ensures w < |s.tasks| && q < PRI_MAX
    ensures var s1 := SetPrio(s, t, p);
            && 0 <= Room(s1, w, q) && 0 <= Room(s, t, p)
            && (q > s1.tasks[w].prio ==> p > s.tasks[t].prio)
            && ((q > s1.tasks[w].prio) == (p > s.tasks[t].prio) ==> Room(s1, w, q) < Room(s, t, p))
  {
    SetPrioWf(s, t, p);
    SumBound(s.tasks);
    SumBound(SetPrio(s, t, p).tasks);
  }

  // ------------------------------------------------------------ list agreement

  lemma SortedFrame(keys: seq<nat>, keys': seq<nat>, xs: seq<nat>)
    requires Keyed(keys, xs) && Sorted(keys, xs) && |keys'| == |keys|
    requires forall x :: x in xs ==> keys'[x] == keys[x]
    ensures Keyed(keys', xs) && Sorted(keys', xs)
  {
    forall i | 0 <= i < |xs| ensures keys'[xs[i]] == keys[xs[i]] {
      assert xs[i] in xs;
    }
  }

  /** `s1` differs from `s` in priorities, in the order within wait lists and in the ready lists. */
  ghost predicate OnlyPrio(s: Kernel, s1: Kernel) {
    && |s1.tasks| == |s.tasks| && |s1.objs| == |s.objs|
    && (forall t :: 0 <= t < |s.tasks| ==> s1.tasks[t] == s.tasks[t].(prio := s1.tasks[t].prio))
    && (forall o :: 0 <= o < |s.objs| ==> SameButOrder(s.objs[o], s1.objs[o]))
    && s1 == s.(tasks := s1.tasks, objs := s1.objs, ready := s1.ready)
  }

  ghost predicate SameButOrder(b: Obj, b1: Obj) {
    && b1 == b.(waiters := b1.waiters)
    && |b1.waiters| == |b.waiters|
    && (forall t :: t in b1.waiters <==> t in b.waiters)
  }

  lemma SetPrioOnly(s: Kernel, t: Tid, p: nat)
    requires Wf(s) && WaitOk(s) && t < |s.tasks| && p < PRI_MAX
    ensures OnlyPrio(s, SetPrio(s, t, p))
  {
    assert TaskWf(s, s.tasks[t]);
    if s.tasks[t].blk.Some? {
      var o := s.tasks[t].blk.value;
      assert t in s.objs[o].waiters;
    }
  }

  lemma OnlyPrioTrans(a: Kernel, b: Kernel, c: Kernel)
    requires OnlyPrio(a, b) && OnlyPrio(b, c)
    ensures OnlyPrio(a, c)
  {
    forall o | 0 <= o < |a.objs| ensures SameButOrder(a.objs[o], c.objs[o]) {
      assert SameButOrder(a.objs[o], b.objs[o]) && SameButOrder(b.objs[o], c.objs[o]);
    }
  }

  lemma SetPrioList(s: Kernel, t: Tid, p: nat, o: Oid)
    requires Wf(s) && WaitOk(s) && t < |s.tasks| && p < PRI_MAX && o < |s.objs|
    ensures ListOk(SetPrio(s, t, p), SetPrio(s, t, p).objs[o].waiters)
  {
    var s1 := SetPrio(s, t, p);
    var ws := s.objs[o].waiters;
    assert TaskWf(s, s.tasks[t]);
    assert ListOk(s, ws);
    if s.tasks[t].blk == Some(o) {
      WithoutNoDup(ws, t);
      WithoutSorted(Prios(s.tasks), ws, t);
      SortedFrame(Prios(s.tasks), Prios(s1.tasks), Without(ws, t));
      InsertNoDup(Prios(s1.tasks), Without(ws, t), p, t);
      InsertSorted(Prios(s1.tasks), Without(ws, t), t);
    } else {
      assert t !in ws;
      SortedFrame(Prios(s.tasks), Prios(s1.tasks), ws);
    }
  }

  lemma SetPrioWait(s: Kernel, t: Tid, p: nat)
    requires Wf(s) && WaitOk(s) && t < |s.tasks| && p < PRI_MAX
    ensures WaitOk(SetPrio(s, t, p))
  {
    var s1 := SetPrio(s, t, p);
    SetPrioOnly(s, t, p);
    forall o | 0 <= o < |s1.objs| ensures ListOk(s1, s1.objs[o].waiters) {
      SetPrioList(s, t, p, o);
    }
    forall o, u | 0 <= o < |s1.objs| && 0 <= u < |s1.tasks|
      ensures u in s1.objs[o].waiters <==> s1.tasks[u].blk == Some(o)
    {
      assert SameButOrder(s.objs[o], s1.objs[o]);
      assert s1.tasks[u] == s.tasks[u].(prio := s1.tasks[u].prio);
    }
  }

  lemma SetPrioReady(s: Kernel, t: Tid, p: nat)
    requires Wf(s) && ReadyOk(s) && t < |s.tasks| && p < PRI_MAX
    ensures ReadyOk(SetPrio(s, t, p))
  {
    var s1 := SetPrio(s, t, p);
    var k := s.tasks[t];
    assert TaskWf(s, k);
    if k.st == Rdy {
      WithoutNoDup(s.ready[k.prio], t);
      var q := Remove(s.ready, k.prio, t);
      assert t !in q[p];
      NoDupCons(t, q[p]);
      assert NoDup(q[p] + [t]);
    }
  }

  lemma SetPrioOwn(s: Kernel, t: Tid, p: nat)
    requires Wf(s) && WaitOk(s) && OwnOk(s) && t < |s.tasks| && p < PRI_MAX
    ensures OwnOk(SetPrio(s, t, p))
  {
    SetPrioOnly(s, t, p);
    OnlyPrioOwn(s, SetPrio(s, t, p));
  }

  lemma OnlyPrioOwn(s: Kernel, s1: Kernel)
    requires OnlyPrio(s, s1) && OwnOk(s)
    ensures OwnOk(s1)
  {
    forall o | 0 <= o < |s1.objs| ensures OwnerOk(s1, s1.objs[o]) {
      assert OwnerOk(s, s.objs[o]) && SameButOrder(s.objs[o], s1.objs[o]);
    }
    forall t, o | 0 <= t < |s1.tasks| && s1.tasks[t].Live() && 0 <= o < |s1.objs|
      ensures o in s1.tasks[t].held <==> Owns(s1, t, o)
    {
      assert SameButOrder(s.objs[o], s1.objs[o]);
      assert o in s.tasks[t].held <==> Owns(s, t, o);
    }
  }

  lemma SetPrioAgree(s: Kernel, t: Tid, p: nat)
    requires Agree(s) && t < |s.tasks| && p < PRI_MAX
    ensures Agree(SetPrio(s, t, p))
  {
    SetPrioWf(s, t, p);
    SetPrioWait(s, t, p);
    SetPrioReady(s, t, p);
    SetPrioOwn(s, t, p);
    SetPrioOnly(s, t, p);
  }

  /** `task_pri_change` keeps every list in agreement with the task states and touches
      nothing but priorities and list order. */
  lemma {:induction false} PriChangeAgree(s: Kernel, t: Tid, p: nat)
    requires Agree(s) && t < |s.tasks| && p < PRI_MAX
    ensures Agree(PriChange(s, t, p)) && OnlyPrio(s, PriChange(s, t, p))
    decreases p > s.tasks[t].prio, Room(s, t, p)
  {
    hide WaitOk, ReadyOk, TickOk, OwnOk;
    if p != s.tasks[t].prio && s.tasks[t].st != Deleted {
      var s1 := SetPrio(s, t, p);
      SetPrioWf(s, t, p);
      SetPrioAgree(s, t, p);
      SetPrioOnly(s, t, p);
      match NextInChain(s1, t, s.tasks[t].prio)
      case Stop =>
      case Follow(w, q) =>
        SumBound(s.tasks); SumBound(s1.tasks);
        PriChangeAgree(s1, w, q);
        OnlyPrioTrans(s, s1, PriChange(s1, w, q));
    }
  }

  // -------------------------------------------------- the inheritance equation

  predicate OwnsWaited(s: Kernel, t: Tid, o: Oid) {
    Owns(s, t, o) && Waited(s, o)
  }

  /** `p` is the least of `base[t]` and the first waiters of the mutexes `t` owns. */
  ghost predicate IsLeast(s: Kernel, base: seq<nat>, t: Tid, p: nat)
    requires t < |base|
  {
    && p <= base[t]
    && (forall o :: OwnsWaited(s, t, o) ==> p <= Top(s, o))
    && (p == base[t] || exists o :: OwnsWaited(s, t, o) && Top(s, o) == p)
  }

  /** Every live task except `x` runs at the priority the equation gives it; for `x` it gives `p`. */
  ghost predicate EqualExcept(s: Kernel, base: seq<nat>, x: Tid, p: nat)
    requires |base| == |s.tasks|
  {
    forall t :: 0 <= t < |s.tasks| && s.tasks[t].Live() ==>
      IsLeast(s, base, t, if t == x then p else s.tasks[t].prio)
  }

  /** The priority-inheritance equation, for every live task. */
  ghost predicate Inherits(s: Kernel, base: seq<nat>)
    requires |base| == |s.tasks|
  {
    forall t :: 0 <= t < |s.tasks| && s.tasks[t].Live() ==> IsLeast(s, base, t, s.tasks[t].prio)
  }

  /** `mutex_pri_look` computes the right-hand side of the equation. */
  lemma PriLookIsLeast(s: Kernel, t: Tid)
    requires OwnOk(s) && Wf(s) && t < |s.tasks| && s.tasks[t].Live()
    ensures IsLeast(s, Bases(s.tasks), t, PriLook(s, t))
  {
    var p := PriLook(s, t);
    assert TaskWf(s, s.tasks[t]);
    forall o | OwnsWaited(s, t, o) ensures p <= Top(s, o) {
      assert o in s.tasks[t].held;
    }
    if p != s.tasks[t].bprio {
      var o :| o in s.tasks[t].held && Waited(s, o) && Top(s, o) == p;
      assert OwnsWaited(s, t, o);
    }
  }

  /** The first waiter has the least priority of all waiters. */
  lemma TopIsMin(s: Kernel, o: Oid, t: Tid)
    requires Wf(s) && WaitOk(s) && o < |s.objs| && t in s.objs[o].waiters
    ensures Waited(s, o) && Top(s, o) <= s.tasks[t].prio
  {
    var ws := s.objs[o].waiters;
    assert ObjWf(s, s.objs[o]) && ListOk(s, ws);
    assert ws[0] in ws;
    var i :| 0 <= i < |ws| && ws[i] == t;
    assert i == 0 || Prios(s.tasks)[ws[0]] <= Prios(s.tasks)[ws[i]];
  }

  /** Moving one waiter of `o` changes the first waiter's priority as a minimum would. */
  lemma SetPrioTop(s: Kernel, t: Tid, p: nat, o: Oid)
    requires Agree(s) && t < |s.tasks| && p < PRI_MAX && s.tasks[t].blk == Some(o)
    ensures Waited(s, o) && Waited(SetPrio(s, t, p), o)
    ensures p <= s.tasks[t].prio ==>
              Top(SetPrio(s, t, p), o) == if p < Top(s, o) then p else Top(s, o)
    ensures p >= s.tasks[t].prio ==> Top(SetPrio(s, t, p), o) >= Top(s, o)
    ensures s.tasks[t].prio != Top(s, o) && p >= s.tasks[t].prio ==>
              Top(SetPrio(s, t, p), o) == Top(s, o)
  {
    var s1 := SetPrio(s, t, p);
    SetPrioAgree(s, t, p);
    SetPrioOnly(s, t, p);
    assert TaskWf(s, s.tasks[t]) && t in s.objs[o].waiters;
    assert SameButOrder(s.objs[o], s1.objs[o]);
    TopIsMin(s, o, t);
    TopIsMin(s1, o, t);
    var f, f1 := s.objs[o].waiters[0], s1.objs[o].waiters[0];
    assert f in s.objs[o].waiters && f1 in s1.objs[o].waiters;
    TopIsMin(s1, o, f);
    TopIsMin(s, o, f1);
  }

  /** The waited mutexes of `t`, and their first waiters' priorities, are the same. */
  ghost predicate SameTops(s: Kernel, s1: Kernel, t: Tid) {
    && (forall o :: OwnsWaited(s1, t, o) <==> OwnsWaited(s, t, o))
    && (forall o :: OwnsWaited(s, t, o) && OwnsWaited(s1, t, o) ==> Top(s1, o) == Top(s, o))
  }

  /** A task whose mutexes keep their first priorities keeps its equation. */
  lemma IsLeastFrame(s: Kernel, s1: Kernel, base: seq<nat>, t: Tid, p: nat)
    requires t < |base| && IsLeast(s, base, t, p)
    requires SameTops(s, s1, t)
    ensures IsLeast(s1, base, t, p)
  {}

  /** Changing a priority leaves the first waiters of all other objects alone. */
  lemma SetPrioOthers(s: Kernel, t: Tid, p: nat, u: Tid)
    requires Agree(s) && t < |s.tasks| && p < PRI_MAX && u < |s.tasks|
    requires s.tasks[t].blk.Some? ==> !Owns(s, u, s.tasks[t].blk.value)
    ensures SameTops(s, SetPrio(s, t, p), u)
  {
    hide ReadyOk, TickOk, OwnOk, Insert, Without, Remove, AddHead, AddTail, Prios;
    SetPrioOnly(s, t, p);
    var s1 := SetPrio(s, t, p);
    forall o | 0 <= o < |s.objs| && Owns(s, u, o)
      ensures s1.objs[o] == s.objs[o] && t !in s.objs[o].waiters
    {
      assert TaskWf(s, s.tasks[t]);
    }
    assert forall o :: 0 <= o < |s.objs| && s.objs[o].waiters != [] ==> s.objs[o].waiters[0] in s.objs[o].waiters;
    assert forall o :: 0 <= o < |s.objs| ==> SameButOrder(s.objs[o], s1.objs[o]);
  }

  /** As `SameTops`, except for the mutex `o`. */
  ghost predicate SameTopsBut(s: Kernel, s1: Kernel, t: Tid, o: Oid) {
    && (forall m :: m != o ==> (OwnsWaited(s1, t, m) <==> OwnsWaited(s, t, m)))
    && (forall m :: m != o && OwnsWaited(s, t, m) && OwnsWaited(s1, t, m) ==> Top(s1, m) == Top(s, m))
  }

  /** When only `o` changed, `p` stays least if `o` does not undercut it and still yields it where it did. */
  lemma OneMutex(s: Kernel, s1: Kernel, base: seq<nat>, w: Tid, o: Oid, p: nat)
    requires w < |base| && IsLeast(s, base, w, p) && SameTopsBut(s, s1, w, o)
    requires OwnsWaited(s1, w, o) ==> Top(s1, o) >= p
    requires OwnsWaited(s, w, o) && Top(s, o) == p ==> OwnsWaited(s1, w, o) && Top(s1, o) == p
    ensures IsLeast(s1, base, w, p)
  {
    if p != base[w] {
      var m :| OwnsWaited(s, w, m) && Top(s, m) == p;
      assert OwnsWaited(s1, w, m) && Top(s1, m) == p;
    }
  }

  /** When only `o` changed and its first waiter is now at `p`, below the old least, `p` is the least. */
  lemma OneMutexLower(s: Kernel, s1: Kernel, base: seq<nat>, w: Tid, o: Oid, p: nat, old': nat)
    requires w < |base| && IsLeast(s, base, w, old') && SameTopsBut(s, s1, w, o)
    requires OwnsWaited(s1, w, o) && Top(s1, o) == p <= old'
    ensures IsLeast(s1, base, w, p)
  {}

  /** Raising a waiter: the owner's right-hand side is capped at the new priority. */
  lemma RaiseOwner(s: Kernel, base: seq<nat>, t: Tid, p: nat, w: Tid)
    requires Agree(s) && t < |s.tasks| && |base| == |s.tasks| && p < s.tasks[t].prio
    requires s.tasks[t].blk.Some? && w < |s.tasks| && Owns(s, w, s.tasks[t].blk.value)
    requires IsLeast(s, base, w, s.tasks[w].prio)
    ensures IsLeast(SetPrio(s, t, p), base, w, if s.tasks[w].prio > p then p else s.tasks[w].prio)
  {
    var o := s.tasks[t].blk.value;
    assert TaskWf(s, s.tasks[t]);
    SetPrioTop(s, t, p, o);
    OtherTops(s, t, p, w, o);
    if s.tasks[w].prio > p {
      OneMutexLower(s, SetPrio(s, t, p), base, w, o, p, s.tasks[w].prio);
    } else {
      OneMutex(s, SetPrio(s, t, p), base, w, o, s.tasks[w].prio);
    }
  }

  /** Lowering a waiter whose old priority the owner did not run at leaves the owner's equation. */
  lemma LowerOwner(s: Kernel, base: seq<nat>, t: Tid, p: nat, w: Tid)
    requires Agree(s) && t < |s.tasks| && |base| == |s.tasks| && s.tasks[t].prio < p < PRI_MAX
    requires s.tasks[t].blk.Some? && w < |s.tasks| && Owns(s, w, s.tasks[t].blk.value)
    requires IsLeast(s, base, w, s.tasks[w].prio) && s.tasks[w].prio != s.tasks[t].prio
    ensures IsLeast(SetPrio(s, t, p), base, w, s.tasks[w].prio)
  {
    var o := s.tasks[t].blk.value;
    assert TaskWf(s, s.tasks[t]);
    SetPrioTop(s, t, p, o);
    OtherTops(s, t, p, w, o);
    OneMutex(s, SetPrio(s, t, p), base, w, o, s.tasks[w].prio);
  }

  /** The other mutexes of `w` keep their first waiters when a waiter of `o` moves. */
  lemma OtherTops(s: Kernel, t: Tid, p: nat, w: Tid, o: Oid)
    requires Agree(s) && t < |s.tasks| && p < PRI_MAX && s.tasks[t].blk == Some(o)
    ensures SameTopsBut(s, SetPrio(s, t, p), w, o)
    ensures Owns(SetPrio(s, t, p), w, o) <==> Owns(s, w, o)
  {
    hide SetPrio, Wf, WaitOk, ReadyOk, TickOk, OwnOk;
    var s1 := SetPrio(s, t, p);
    SetPrioOnly(s, t, p);
    FirstsIn(s, t, o);
    SetPrioElsewhere(s, t, p, o);
    assert o < |s.objs| ==> SameButOrder(s.objs[o], s1.objs[o]);
  }

  lemma SetPrioElsewhere(s: Kernel, t: Tid, p: nat, o: Oid)
    requires Wf(s) && t < |s.tasks| && p < PRI_MAX && s.tasks[t].blk == Some(o)
    ensures o < |s.objs| && forall m :: 0 <= m < |s.objs| && m != o ==> SetPrio(s, t, p).objs[m] == s.objs[m]
    ensures forall u :: 0 <= u < |s.tasks| && u != t ==> SetPrio(s, t, p).tasks[u] == s.tasks[u]
  {
    hide Insert, Without, Remove, AddHead, AddTail;
    assert TaskWf(s, s.tasks[t]);
  }

  /** The first waiters of the mutexes that `t` does not wait for are other tasks. */
  lemma FirstsIn(s: Kernel, t: Tid, o: Oid)
    requires Agree(s) && t < |s.tasks| && s.tasks[t].blk == Some(o)
    ensures o < |s.objs| && forall m :: 0 <= m < |s.objs| && m != o && s.objs[m].waiters != [] ==> s.objs[m].waiters[0] != t
  {
    assert TaskWf(s, s.tasks[t]);
    assert forall m :: 0 <= m < |s.objs| && s.objs[m].waiters != [] ==> s.objs[m].waiters[0] in s.objs[m].waiters;
  }

  /** What the loop of `task_pri_change` may assume at the top of each pass. */
  ghost predicate Chain(s: Kernel, base: seq<nat>, t: Tid, p: nat) {
    && Agree(s) && t < |s.tasks| && s.tasks[t].Live() && p < PRI_MAX
    && |base| == |s.tasks|
    && EqualExcept(s, base, t, p)
    && (p < s.tasks[t].prio || base == Bases(s.tasks))
  }

  /** Tasks other than `t` and the owner it waits for are not affected by one pass. */
  lemma PassOthers(s: Kernel, base: seq<nat>, t: Tid, p: nat, u: Tid)
    requires Chain(s, base, t, p) && u < |s.tasks| && s.tasks[u].Live()
    requires s.tasks[t].blk.Some? ==> !Owns(s, u, s.tasks[t].blk.value)
    ensures IsLeast(SetPrio(s, t, p), base, u, SetPrio(s, t, p).tasks[u].prio)
  {
    SetPrioOthers(s, t, p, u);
    IsLeastFrame(s, SetPrio(s, t, p), base, u, if u == t then p else s.tasks[u].prio);
  }

  /** After one pass the owner `w` satisfies the equation if the loop stops; otherwise the
      loop goes on to `w`, with the priority the equation gives it. */
  ghost predicate OwnerNext(s1: Kernel, base: seq<nat>, w: Tid, next: Next)
    requires w < |s1.tasks| == |base|
  {
    match next
    case Stop => IsLeast(s1, base, w, s1.tasks[w].prio)
    case Follow(v, q) =>
      v == w && q < PRI_MAX && IsLeast(s1, base, w, q) && (q < s1.tasks[w].prio || base == Bases(s1.tasks))
  }

  /** The owner `w` that `t` waits for is a live task other than `t`, and one pass does not move it. */
  lemma OwnerApart(s: Kernel, t: Tid, p: nat, w: Tid)
    requires Agree(s) && t < |s.tasks| && p < PRI_MAX && w < |s.tasks|
    requires s.tasks[t].blk.Some? && Owns(s, w, s.tasks[t].blk.value)
    ensures s.tasks[w].Live() && w != t && SetPrio(s, t, p).tasks[w] == s.tasks[w]
    ensures s.tasks[w].prio < PRI_MAX && Wf(SetPrio(s, t, p))
    ensures OwnsWaited(s, w, s.tasks[t].blk.value) && Top(s, s.tasks[t].blk.value) <= s.tasks[t].prio
    ensures SetPrio(s, t, p).objs[s.tasks[t].blk.value].owner == Some(w)
  {
    var o := s.tasks[t].blk.value;
    assert TaskWf(s, s.tasks[t]) && TaskWf(s, s.tasks[w]) && OwnerOk(s, s.objs[o]);
    assert t in s.objs[o].waiters;
    SetPrioWf(s, t, p);
    TopIsMin(s, o, t);
  }

  lemma PassOwnerUp(s: Kernel, base: seq<nat>, t: Tid, p: nat, w: Tid)
    requires Agree(s) && t < |s.tasks| && |base| == |s.tasks| && p < s.tasks[t].prio
    requires s.tasks[t].blk.Some? && w < |s.tasks| && Owns(s, w, s.tasks[t].blk.value)
    requires IsLeast(s, base, w, s.tasks[w].prio)
    ensures Wf(SetPrio(s, t, p)) && OwnerNext(SetPrio(s, t, p), base, w, NextInChain(SetPrio(s, t, p), t, s.tasks[t].prio))
  {
    hide WaitOk, ReadyOk, TickOk, OwnOk, IsLeast, Sorted, Insert, Without, Remove, AddHead, AddTail;
    assert TaskWf(s, s.tasks[t]);
    OwnerApart(s, t, p, w);
    RaiseOwner(s, base, t, p, w);
  }

  /** When a waiter is lowered, the loop looks at the owner's mutexes only if the owner ran at
      the waiter's old priority. */
  lemma NextDown(s: Kernel, t: Tid, p: nat, w: Tid)
    requires Agree(s) && t < |s.tasks| && s.tasks[t].prio < p < PRI_MAX
    requires s.tasks[t].blk.Some? && w < |s.tasks| && Owns(s, w, s.tasks[t].blk.value)
    requires s.tasks[w].prio <= s.tasks[t].prio
    ensures Wf(SetPrio(s, t, p))
    ensures SetPrio(s, t, p).tasks[w] == s.tasks[w]
    ensures NextInChain(SetPrio(s, t, p), t, s.tasks[t].prio) ==
              var look := PriLook(SetPrio(s, t, p), w);
              if s.tasks[w].prio == s.tasks[t].prio && look != s.tasks[w].prio then Follow(w, look) else Stop
  {
    OwnerApart(s, t, p, w);
  }

  lemma PassOwnerDown(s: Kernel, t: Tid, p: nat, w: Tid)
    requires Agree(s) && t < |s.tasks| && s.tasks[t].prio < p < PRI_MAX
    requires s.tasks[t].blk.Some? && w < |s.tasks| && Owns(s, w, s.tasks[t].blk.value)
    requires IsLeast(s, Bases(s.tasks), w, s.tasks[w].prio)
    ensures Wf(SetPrio(s, t, p))
    ensures OwnerNext(SetPrio(s, t, p), Bases(s.tasks), w, NextInChain(SetPrio(s, t, p), t, s.tasks[t].prio))
  {
    var s1 := SetPrio(s, t, p);
    OwnerApart(s, t, p, w);
    NextDown(s, t, p, w);
    assert Bases(s1.tasks) == Bases(s.tasks);
    if s.tasks[w].prio != s.tasks[t].prio {
      LowerOwner(s, Bases(s.tasks), t, p, w);
    } else {
      SetPrioOwn(s, t, p);
      PriLookIsLeast(s1, w);
      assert TaskWf(s1, s1.tasks[w]);
    }
  }

  /** One pass of the loop moves the exception along the chain, or ends it. */
  lemma Pass(s: Kernel, base: seq<nat>, t: Tid, p: nat)
    requires Chain(s, base, t, p) && p != s.tasks[t].prio
    ensures Wf(SetPrio(s, t, p))
    ensures match NextInChain(SetPrio(s, t, p), t, s.tasks[t].prio)
            case Stop => Inherits(SetPrio(s, t, p), base)
            case Follow(w, q) => Chain(SetPrio(s, t, p), base, w, q)
  {
    hide WaitOk, ReadyOk, TickOk, OwnOk, SetPrio;
    var s1 := SetPrio(s, t, p);
    SetPrioAgree(s, t, p);
    SetPrioOnly(s, t, p);
    assert TaskWf(s, s.tasks[t]);
    assert SameButOrder'(s, s1);
    var chained := s.tasks[t].blk.Some? && s.objs[s.tasks[t].blk.value].kind == Mutex;
    forall u | 0 <= u < |s1.tasks| && s1.tasks[u].Live()
      ensures (chained && Owns(s, u, s.tasks[t].blk.value)) || IsLeast(s1, base, u, s1.tasks[u].prio)
    {
      if !(chained && Owns(s, u, s.tasks[t].blk.value)) {
        PassOthers(s, base, t, p, u);
      }
    }
    if chained {
      var w := s.objs[s.tasks[t].blk.value].owner.value;
      OwnerApart(s, t, p, w);
      if p < s.tasks[t].prio { PassOwnerUp(s, base, t, p, w); } else { PassOwnerDown(s, t, p, w); }
    }
  }

  ghost predicate SameButOrder'(s: Kernel, s1: Kernel) {
    |s1.objs| == |s.objs| && forall o :: 0 <= o < |s.objs| ==> SameButOrder(s.objs[o], s1.objs[o])
  }

  /** `task_pri_change` restores the inheritance equation for every live task. */
  lemma {:induction false} PriChangeInherits(s: Kernel, base: seq<nat>, t: Tid, p: nat)
    requires Chain(s, base, t, p)
    ensures Inherits(PriChange(s, t, p), base)
    decreases p > s.tasks[t].prio, Room(s, t, p)
  {
    hide WaitOk, ReadyOk, TickOk, OwnOk;
    if p != s.tasks[t].prio {
      var s1 := SetPrio(s, t, p);
      SetPrioWf(s, t, p);
      Pass(s, base, t, p);
      match NextInChain(s1, t, s.tasks[t].prio)
      case Stop =>
      case Follow(w, q) =>
        SumBound(s.tasks); SumBound(s1.tasks);
        PriChangeInherits(s1, base, w, q);
    }
  }
}
