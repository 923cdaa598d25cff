/** What the kernel calls do for their callers, beyond keeping the invariant. */
module KernelEffects {
  import opened Flags
  import opened Lists
  import opened ReadyQueue
  import opened KernelState
  import opened PriorityChain
  import opened KernelLists
  import opened KernelInv
  import opened KernelSteps
  import opened KernelProofs
  import opened MutexProofs
  import opened CallProofs
  import opened TaskProofs
  import opened KernelRun

  /** Nothing but the choice of the running task. */
  predicate SameTables(s: Kernel, r: Kernel) {
    r.tasks == s.tasks && r.objs == s.objs && r.ticks == s.ticks && r.now == s.now && r.lock == s.lock
  }

  // ------------------------------------------------------------------- mutexes

  /** The running task of `s` waits for `o` in `r`, its owner runs at least as urgently, and whoever
      has been raised has been raised to exactly the priority of the waiter. */
  ghost predicate WaitsNow(s: Kernel, r: Kernel, o: Oid) {
    && o < |s.objs| == |r.objs| && s.active < |s.tasks| == |r.tasks|
    && var a, w, p := s.active, s.objs[o].owner, s.tasks[s.active].prio;
       && r.objs[o].owner == w && w.Some? && w.value < |s.tasks| && w.value != a && r.tasks[w.value].prio <= p
       && r.tasks[a].st == Pend && r.tasks[a].blk == Some(o) && r.tasks[a].prio == p
       && (forall t :: t in r.objs[o].waiters <==> t == a || t in s.objs[o].waiters)
       && (forall t :: 0 <= t < |s.tasks| && t != a ==> RaisedTo(s.tasks[t], r.tasks[t], p))
  }

  /** `krhino_mutex_lock` that blocks: the caller waits in line, and the owner stays the owner. */
  lemma LockBlocksEffect(s: Kernel, o: Oid, ticks: nat)
    requires Inv(s) && o < |s.objs| && s.active != IDLE && MutexLock(s, o, ticks).status == Blocked
    ensures WaitsNow(s, MutexLock(s, o, ticks).k, o) && MutexLock(s, o, ticks).k.active != s.active
  {
    hide Wf, WaitOk, ReadyOk, TickOk, OwnOk, Signals, Inherits, Boosted, Resched, Block, Boost, WaitsNow;
    var a, w := s.active, s.objs[o].owner.value;
    MutexLockInv(s, o, ticks);
    PrioBound(s, a);
    OwnerLive(s, o);
    BoostReady(s, w, a);
    var s1 := Boost(s, w, s.tasks[a].prio);
    var r := Block(s1, o, a, ticks);
    BoostRaises(s, w, a);
    assert SameButOrder(s.objs[o], s1.objs[o]);
    BlockOnly(s1, o, a, ticks);
    BlockedIn(s1, o, a, ticks);
    ReschedSame(r);
    assert WaitsFor(Resched(r), a, w);
    NoInversion(Resched(r), a, w);
    IsWaiting(s, s1, Resched(r), o);
  }

  lemma BoostRaises(s: Kernel, w: Tid, a: Tid)
    requires Agree(s) && w < |s.tasks| && s.tasks[w].Live() && a < |s.tasks| && s.tasks[a].prio < PRI_MAX
    ensures var s1, p := Boost(s, w, s.tasks[a].prio), s.tasks[a].prio;
            forall t :: 0 <= t < |s.tasks| ==> RaisedTo(s.tasks[t], s1.tasks[t], p)
  {
    hide WaitOk, ReadyOk, TickOk, OwnOk, PriChange;
    var p := s.tasks[a].prio;
    if p < s.tasks[w].prio {
      PriChangeAgree(s, w, p);
      forall t | 0 <= t < |s.tasks| ensures RaisedTo(s.tasks[t], PriChange(s, w, p).tasks[t], p) { RaiseOneWay(s, w, p, t); }
    }
  }

  lemma IsWaiting(s: Kernel, s1: Kernel, r: Kernel, o: Oid)
    requires o < |s.objs| == |s1.objs| == |r.objs| && s.active < |s.tasks| == |s1.tasks| == |r.tasks|
    requires SameButOrder(s.objs[o], s1.objs[o]) && r.objs[o] == s1.objs[o].(waiters := r.objs[o].waiters)
    requires forall t :: t in r.objs[o].waiters <==> t == s.active || t in s1.objs[o].waiters
    requires forall t :: 0 <= t < |s.tasks| ==> RaisedTo(s.tasks[t], s1.tasks[t], s.tasks[s.active].prio)
    requires forall t :: 0 <= t < |s.tasks| && t != s.active ==> r.tasks[t] == s1.tasks[t]
    requires r.tasks[s.active].st == Pend && r.tasks[s.active].blk == Some(o) && r.tasks[s.active].prio == s1.tasks[s.active].prio
    requires var w := s.objs[o].owner; w.Some? && w.value < |s.tasks| && w.value != s.active && r.tasks[w.value].prio <= s.tasks[s.active].prio
    ensures WaitsNow(s, r, o)
  {}

  /** The task is as it was, but for a raise to `p`. */
  predicate RaisedTo(k: Task, k1: Task, p: nat) {
    k1 == k.(prio := k1.prio) && (k1.prio == k.prio || k1.prio == p < k.prio)
  }

  lemma ReschedSame(s: Kernel)
    ensures SameTables(s, Resched(s)) && Resched(s).ready == s.ready
  {}

  /** What `krhino_mutex_lock` returns, and that a call that neither takes the mutex nor blocks
      changes nothing. */
  lemma LockEffect(s: Kernel, o: Oid, ticks: nat)
    requires Inv(s) && o < |s.objs| && s.active != IDLE
    ensures var out, b, a := MutexLock(s, o, ticks), s.objs[o], s.active; var r := out.k;
            && (out.status == Success <==> b.kind == Mutex && b.owner == None)
            && (out.status in {Success, OwnerNested} <==> r != s && Owns(r, a, o) && r.objs[o].nested > 0)
            && (out.status == Success ==> b.waiters == [] && a !in r.objs[o].waiters && r.objs[o].nested == 1)
            && (out.status == OwnerNested ==> Owns(s, a, o) && r == SetObj(s, o, b.(nested := b.nested + 1)))
            && (out.status !in {Success, OwnerNested, Blocked} ==> r == s)
            && (out.status == Blocked ==> b.kind == Mutex && b.owner.Some? && b.owner != Some(a) && ticks != NO_WAIT && s.lock == 0)
            && (out.status in {Success, OwnerNested} ==> r.active == a && Prios(r.tasks) == Prios(s.tasks))
  {
    hide Wf, WaitOk, ReadyOk, TickOk, OwnOk, Signals, Inherits, Boosted, Resched, Block;
    if s.objs[o].kind == Mutex { FreeHasNoWaiters(s, o); }
    var out, b, a := MutexLock(s, o, ticks), s.objs[o], s.active;
    if out.status == Blocked {
      LockBlocksEffect(s, o, ticks);
    } else if out.status == Success {
      assert out.k == Acquire(s, o, a);
      assert out.k.objs[o] != b;
    } else if out.status == OwnerNested {
      assert out.k.objs[o] != b;
    }
  }

  /** No task but `a` and `b`, and no object but `o`, has noticed. */
  ghost predicate OthersSame(s: Kernel, r: Kernel, a: Tid, b: Tid, o: Oid) {
    && |r.tasks| == |s.tasks| && |r.objs| == |s.objs| && r.now == s.now && r.lock == s.lock
    && (forall t :: 0 <= t < |s.tasks| && t != a && t != b ==> r.tasks[t] == s.tasks[t])
    && (forall m :: 0 <= m < |s.objs| && m != o ==> r.objs[m] == s.objs[m])
    && (forall t :: t != a && t != b ==> (t in r.ticks <==> t in s.ticks))
  }

  /** The task is the last on the ready list of its priority. */
  predicate LastInLane(s: Kernel, t: Tid) {
    t < |s.tasks| && s.tasks[t].prio < PRI_MAX && EndsWith(s.ready[s.tasks[t].prio], t)
  }

  predicate EndsWith(xs: seq<Tid>, t: Tid) {
    xs != [] && xs[|xs| - 1] == t
  }

  /** The task `a` has given `o` up: the mutex has passed to the first in line, which is as urgent as any
      waiter and has been woken; the others go on waiting. Without waiters it is free. Nothing else has
      happened but that `a` may have lost an inherited priority. */
  ghost predicate PassedOn(s: Kernel, r: Kernel, a: Tid, o: Oid) {
    && o < |s.objs| == |r.objs| && a < |s.tasks| == |r.tasks|
    && !Owns(r, a, o) && o !in r.tasks[a].held && r.tasks[a].st == Rdy
    && r.tasks[a] == s.tasks[a].(held := r.tasks[a].held, prio := r.tasks[a].prio)
    && (forall m :: m in s.tasks[a].held && m != o ==> m in r.tasks[a].held) && (a in r.ticks ==> a in s.ticks)
    && var ws, b := s.objs[o].waiters, r.objs[o];
       if ws == [] then OthersSame(s, r, a, a, o) && b == s.objs[o].(owner := None, nested := 0, link := b.link)
       else
         var f := ws[0];
         && f < |s.tasks| && f != a && OthersSame(s, r, a, f, o) && f !in r.ticks
         && b == s.objs[o].(owner := Some(f), nested := 1, waiters := ws[1..], link := b.link)
         && r.tasks[f] == s.tasks[f].(st := if s.tasks[f].st == PendSusp then Susp else Rdy,
                                      wake := Finish, blk := None, held := [o] + s.tasks[f].held)
         && (r.tasks[f].st == Rdy ==> LastInLane(r, f))
         && forall t :: t in ws ==> t < |s.tasks| && s.tasks[f].prio <= s.tasks[t].prio
  }

  /** Who blocks gets in line behind every waiter that is at least as urgent, and before all others: the
      first of equally urgent waiters is the first to have come. */
  lemma BlocksBehind(s: Kernel, o: Oid, t: Tid, ticks: nat) returns (i: nat)
    requires Agree(s) && CanBlock(s, o, t)
    ensures var ws, k := s.objs[o].waiters, s.tasks[t].prio;
            && i <= |ws| && Block(s, o, t, ticks).objs[o].waiters == ws[..i] + [t] + ws[i..]
            && (forall j :: 0 <= j < i ==> ws[j] < |s.tasks| && s.tasks[ws[j]].prio <= k)
            && (forall j :: i <= j < |ws| ==> ws[j] < |s.tasks| && s.tasks[ws[j]].prio > k)
  {
    hide Wf, WaitOk, ReadyOk, TickOk, OwnOk, Insert, Block, Sorted;
    WaitersSorted(s, o);
    i := InsertPlace(Prios(s.tasks), s.objs[o].waiters, s.tasks[t].prio, t);
    BlockInserts(s, o, t, ticks);
  }

  lemma WaitersSorted(s: Kernel, o: Oid)
    requires WaitOk(s) && o < |s.objs|
    ensures Keyed(Prios(s.tasks), s.objs[o].waiters) && Sorted(Prios(s.tasks), s.objs[o].waiters)
  {
    assert ListOk(s, s.objs[o].waiters);
  }

  lemma BlockInserts(s: Kernel, o: Oid, t: Tid, ticks: nat)
    requires Wf(s) && TickOk(s) && CanBlock(s, o, t) && Keyed(Prios(s.tasks), s.objs[o].waiters)
    ensures Block(s, o, t, ticks).objs[o].waiters == Insert(Prios(s.tasks), s.objs[o].waiters, s.tasks[t].prio, t)
  {}

  /** `krhino_mutex_unlock` at depth one */
  lemma UnlockEffect(s: Kernel, o: Oid)
    requires Inv(s) && o < |s.objs| && Owns(s, s.active, o) && s.objs[o].nested == 1
    ensures PassedOn(s, MutexUnlock(s, o).k, s.active, o)
  {
    hide Wf, WaitOk, ReadyOk, TickOk, OwnOk, Signals, Inherits, IdleOk, Resched, Release, Without, PassOn, DropHeld;
    hide KernelSteps.Give, PassedOn, Given, OwnLane, PriLimit;
    var a, ws := s.active, s.objs[o].waiters;
    var n := if ws == [] then 0 else 1;
    UnlockOrder(s, a, o, n);
    PassOnShape(s, a, o, n);
    PassOnAgree(s, a, o, n);
    var b := PassOn(s, a, o, n);
    ReleaseAgree(b, a);
    ReleaseReady(b, a);
    HeldNoMore(s, a, o);
    if ws != [] {
      FirstIsLeast(s, o);
      NotFirst(s, a, o);
    }
    GiveTo(s, a, o, n);
    IsPassed(s, b, a, o, n);
    PassOnIdle(s, a, o, n);
    ReleaseLane(b, a);
    StillPassed(s, b, Release(b, a), MutexUnlock(s, o).k, a, o);
  }

  lemma NotFirst(s: Kernel, a: Tid, o: Oid)
    requires OwnOk(s) && o < |s.objs| && Owns(s, a, o) && a < |s.tasks| && s.objs[o].waiters != []
    ensures s.objs[o].waiters[0] != a
  {
    assert OwnerOk(s, s.objs[o]);
    assert s.objs[o].waiters[0] in s.objs[o].waiters;
  }

  lemma IsPassed(s: Kernel, b: Kernel, a: Tid, o: Oid, n: nat)
    requires Wf(s) && WaitOk(s) && o < |s.objs| && a < |s.tasks| && s.tasks[a].st == Rdy && o !in Without(s.tasks[a].held, o)
    requires s.objs[o].kind == Mutex && Given(s, b, a, o, n) && n == if s.objs[o].waiters == [] then 0 else 1
    requires var ws := s.objs[o].waiters;
             ws != [] ==> ws[0] < |s.tasks| && ws[0] != a && forall t :: t in ws ==> t < |s.tasks| && s.tasks[ws[0]].prio <= s.tasks[t].prio
    ensures PassedOn(s, b, a, o)
  {}

  /** The release of the old owner, and the scheduler, do not change that. */
  lemma StillPassed(s: Kernel, b: Kernel, r: Kernel, z: Kernel, a: Tid, o: Oid)
    requires PassedOn(s, b, a, o) && OwnLane(b, r, a) && (z == r || z == Resched(r))
    ensures PassedOn(s, z, a, o)
  {
    hide Resched;
    ReschedSame(r);
    if s.objs[o].waiters != [] { assert LastInLane(b, s.objs[o].waiters[0]) ==> LastInLane(z, s.objs[o].waiters[0]); }
  }

  /** Only `a` has changed, in priority, and nobody else has lost the last place. */
  ghost predicate OwnLane(s: Kernel, r: Kernel, a: Tid) {
    && a < |s.tasks| == |r.tasks|
    && r == s.(tasks := s.tasks[a := s.tasks[a].(prio := r.tasks[a].prio)], ready := r.ready)
    && forall t: Tid :: t != a && LastInLane(s, t) ==> LastInLane(r, t)
  }

  /** The running task becomes the first of its new list. */
  lemma ReleaseLane(s: Kernel, a: Tid)
    requires Wf(s) && WaitOk(s) && a < |s.tasks| && s.active == a && s.tasks[a].st == Rdy
    ensures OwnLane(s, Release(s, a), a)
  {
    hide WaitOk, PriLimit, Release, EndsWith, AddHead, Remove;
    ReleaseReady(s, a);
    var r := Release(s, a);
    assert TaskWf(s, s.tasks[a]);
    if r == s {
      assert s.tasks[a := s.tasks[a].(prio := s.tasks[a].prio)] == s.tasks;
    } else {
      forall t: Tid | t != a && LastInLane(s, t) ensures LastInLane(r, t) {
        LaneEnds(s.ready, s.tasks[a].prio, r.tasks[a].prio, a, s.tasks[t].prio, t);
      }
    }
  }

  lemma LaneEnds(q: Lanes, from: nat, to: nat, a: Tid, p: nat, t: Tid)
    requires from < PRI_MAX && to < PRI_MAX && p < PRI_MAX && t != a && EndsWith(q[p], t)
    ensures EndsWith(AddHead(Remove(q, from, a), to, a)[p], t)
  {
    WithoutLast(q[p], a);
  }

  lemma {:induction false} WithoutLast<T>(xs: seq<T>, x: T)
    requires xs != [] && xs[|xs| - 1] != x
    ensures Without(xs, x) != [] && Without(xs, x)[|Without(xs, x)| - 1] == xs[|xs| - 1]
  {
    if |xs| > 1 && xs[0] != x { WithoutLast(xs[1..], x); }
  }

  lemma HeldNoMore(s: Kernel, t: Tid, o: Oid)
    requires OwnOk(s) && t < |s.tasks| && s.tasks[t].Live()
    ensures o !in Without(s.tasks[t].held, o)
  {
    WithoutNoDup(s.tasks[t].held, o);
  }

  lemma FirstIsLeast(s: Kernel, o: Oid)
    requires Wf(s) && WaitOk(s) && o < |s.objs| && s.objs[o].waiters != []
    ensures forall t :: t in s.objs[o].waiters ==> t < |s.tasks| && First(s, o) < |s.tasks| && s.tasks[First(s, o)].prio <= s.tasks[t].prio
  {
    forall t | t in s.objs[o].waiters ensures t < |s.tasks| && s.tasks[First(s, o)].prio <= s.tasks[t].prio {
      assert ObjWf(s, s.objs[o]);
      TopIsMin(s, o, t);
    }
  }

  /** The mutex `m` of `t` is its first waiter's, or nobody's, at depth `n`; all else is as it was. */
  ghost predicate Given(s: Kernel, r: Kernel, t: Tid, m: Oid, n: nat)
    requires m < |s.objs| && t < |s.tasks|
  {
    && |r.tasks| == |s.tasks| && |r.objs| == |s.objs|
    && r.tasks[t] == s.tasks[t].(held := Without(s.tasks[t].held, m))
    && var ws, b := s.objs[m].waiters, r.objs[m];
       if ws == [] then
         OthersSame(s, r, t, t, m) && r.ticks == s.ticks && b == s.objs[m].(owner := None, nested := n, link := b.link)
       else
         var f := ws[0];
         && f < |s.tasks| && OthersSame(s, r, t, f, m) && (t in r.ticks <==> t in s.ticks) && f !in r.ticks
         && b == s.objs[m].(owner := Some(f), nested := n, waiters := ws[1..], link := b.link)
         && r.tasks[f] == s.tasks[f].(st := if s.tasks[f].st == PendSusp then Susp else Rdy,
                                      wake := Finish, blk := None, held := [m] + s.tasks[f].held)
         && (r.tasks[f].st == Rdy ==> LastInLane(r, f))
  }

  lemma GiveTo(s: Kernel, t: Tid, m: Oid, n: nat)
    requires Agree(s) && t < |s.tasks| && s.tasks[t].Live() && Owns(s, t, m)
    ensures Given(s, PassOn(s, t, m, n), t, m, n)
  {
    hide ReadyOk, OwnOk, After;
    DropHeldWait(s, t, m);
    if s.objs[m].waiters != [] {
      NotFirst(s, t, m);
      GiveToFirst(s, t, m, n);
    }
  }

  lemma GiveToFirst(s: Kernel, t: Tid, m: Oid, n: nat)
    requires Wf(s) && WaitOk(s) && TickOk(s) && t < |s.tasks| && m < |s.objs| && s.objs[m].waiters != [] && First(s, m) != t
    ensures Given(s, PassOn(s, t, m, n), t, m, n)
  {
    hide ReadyOk, OwnOk, After, TickOk, Wake, DropHeld, Given, LastInLane, Without;
    DropHeldWait(s, t, m);
    var d, f := DropHeld(s, t, m), First(s, m);
    DropIs(s, t, m);
    WithoutHead(s.objs[m].waiters);
    TickOnce(s, f);
    WakeIs(d, f, m, Finish);
    WokenLast(d, f, Finish);
    IsGiven(s, d, Wake(d, f, Finish), PassOn(s, t, m, n), t, m, f, n);
  }

  lemma DropIs(s: Kernel, t: Tid, m: Oid)
    requires t < |s.tasks| && m < |s.objs|
    ensures var d := DropHeld(s, t, m);
            && d == s.(tasks := d.tasks, objs := d.objs) && d.tasks == s.tasks[t := s.tasks[t].(held := Without(s.tasks[t].held, m))]
            && d.objs == s.objs[m := s.objs[m].(link := d.objs[m].link)]
  {
    hide After;
    var d := DropHeld(s, t, m);
    assert d.objs == s.objs[m := s.objs[m].(link := d.objs[m].link)];
  }

  lemma IsGiven(s: Kernel, d: Kernel, w: Kernel, r: Kernel, t: Tid, m: Oid, f: Tid, n: nat)
    requires t < |s.tasks| && m < |s.objs| && f < |s.tasks| && f != t && s.objs[m].waiters != [] && s.objs[m].waiters[0] == f
    requires d == s.(tasks := d.tasks, objs := d.objs) && d.tasks == s.tasks[t := s.tasks[t].(held := Without(s.tasks[t].held, m))]
    requires |d.objs| == |s.objs| && d.objs == s.objs[m := s.objs[m].(link := d.objs[m].link)]
    requires w == d.(tasks := w.tasks, objs := w.objs, ready := w.ready, ticks := Without(d.ticks, f)) && f !in Without(s.ticks, f)
    requires w.tasks == d.tasks[f := d.tasks[f].(st := if d.tasks[f].st == PendSusp then Susp else Rdy, blk := None, wake := Finish)]
    requires w.objs == d.objs[m := d.objs[m].(waiters := s.objs[m].waiters[1..])] && (d.tasks[f].st != PendSusp ==> LastInLane(w, f))
    requires r == w.(tasks := w.tasks[f := w.tasks[f].(held := [m] + w.tasks[f].held)],
                     objs := w.objs[m := w.objs[m].(owner := Some(f), nested := n)])
    ensures Given(s, r, t, m, n)
  {
    hide EndsWith;
  }

  /** Waking a task, as a whole. */
  lemma WakeIs(s: Kernel, t: Tid, o: Oid, why: WakeReason)
    requires Wf(s) && t < |s.tasks| && s.tasks[t].blk == Some(o) && o < |s.objs|
    ensures var r := Wake(s, t, why);
            && r == s.(tasks := r.tasks, objs := r.objs, ready := r.ready, ticks := Without(s.ticks, t))
            && r.tasks == s.tasks[t := s.tasks[t].(st := if s.tasks[t].st == PendSusp then Susp else Rdy, blk := None, wake := why)]
            && r.objs == s.objs[o := s.objs[o].(waiters := Without(s.objs[o].waiters, t))]
  {
    assert TaskWf(s, s.tasks[t]);
  }

  lemma TickOnce(s: Kernel, t: Tid)
    requires TickOk(s)
    ensures t !in Without(s.ticks, t)
  {
    WithoutNoDup(s.ticks, t);
  }

  lemma WokenLast(s: Kernel, t: Tid, why: WakeReason)
    requires Wf(s) && t < |s.tasks|
    ensures s.tasks[t].st != PendSusp ==> LastInLane(Wake(s, t, why), t)
  {
    assert TaskWf(s, s.tasks[t]);
  }

  /** Taking a free mutex and giving it back leaves no trace but the mutex's own stale link. */
  lemma LockUnlock(s: Kernel, o: Oid)
    requires Inv(s) && o < |s.objs| && s.active != IDLE && s.objs[o].kind == Mutex && s.objs[o].owner == None
    ensures var s1, link := MutexLock(s, o, NO_WAIT).k, Head(s.tasks[s.active].held);
            Inv(s1) && MutexUnlock(s1, o) == Outcome(SetObj(s, o, s.objs[o].(nested := 0, link := link)), Success)
  {
    hide Wf, WaitOk, ReadyOk, TickOk, OwnOk, Signals, Inherits, Resched, Release;
    var a := s.active;
    var s1 := MutexLock(s, o, NO_WAIT).k;
    FreeHasNoWaiters(s, o);
    MutexLockInv(s, o, NO_WAIT);
    UnlockOrder(s1, a, o, 0);
    UnlockUncontended(s1, o, 0);
    AcquirePassOn(s, o, a);
  }

  lemma AcquirePassOn(s: Kernel, o: Oid, a: Tid)
    requires o < |s.objs| && a < |s.tasks| && s.objs[o].owner == None && s.objs[o].waiters == []
    requires Wf(Acquire(s, o, a)) && WaitOk(Acquire(s, o, a))
    ensures PassOn(Acquire(s, o, a), a, o, 0) == SetObj(s, o, s.objs[o].(nested := 0, link := Head(s.tasks[a].held)))
  {
    var s1 := Acquire(s, o, a);
    WithoutHead(s1.tasks[a].held);
    DropHeldWait(s1, a, o);
    assert s1.tasks[a].held[1..] == s.tasks[a].held;
    var s2 := DropHeld(s1, a, o);
    assert s2.tasks == s.tasks;
    assert s2.objs[o := s2.objs[o].(owner := None, nested := 0)] == s.objs[o := s.objs[o].(nested := 0, link := Head(s.tasks[a].held))];
  }

  // ------------------------------------------------------- semaphores and events

  /** The task has been woken, and nothing else has happened to it. */
  predicate WokenAs(k: Task, k1: Task, why: WakeReason) {
    k1 == k.(st := if k.st == PendSusp then Susp else Rdy, blk := None, wake := why)
  }

  /** Exactly the tasks `ws` have been woken, and have no alarm any more. */
  ghost predicate AllWoken(s: Kernel, r: Kernel, ws: seq<Tid>, why: WakeReason) {
    && |r.tasks| == |s.tasks|
    && (forall t :: 0 <= t < |s.tasks| ==> if t in ws then WokenAs(s.tasks[t], r.tasks[t], why) else r.tasks[t] == s.tasks[t])
    && LessAlarms(s, r, ws)
  }

  ghost predicate LessAlarms(s: Kernel, r: Kernel, ws: seq<Tid>) {
    r.now == s.now && r.lock == s.lock && forall t :: t in r.ticks <==> t in s.ticks && t !in ws
  }

  /** Waking everyone on `o`: exactly the waiters are woken. */
  lemma {:induction false} WakeAllEffect(s: Kernel, o: Oid, why: WakeReason)
    requires Agree(s) && o < |s.objs|
    ensures WakeAll(s, o, why).objs == s.objs[o := s.objs[o].(waiters := [])]
    ensures AllWoken(s, WakeAll(s, o, why), s.objs[o].waiters, why)
    decreases |s.objs[o].waiters|
  {
    hide Wf, WaitOk, ReadyOk, TickOk, OwnOk, AllWoken, Wake;
    var ws := s.objs[o].waiters;
    if ws == [] {
      NoneWoken(s, why);
      assert s.objs[o].(waiters := []) == s.objs[o];
    } else {
      var f := First(s, o);
      var s1 := Wake(s, f, why);
      WakeAgree(s, f, why);
      WakeFirst(s, o, why);
      WakeAllEffect(s1, o, why);
      OneMoreWoken(s, s1, WakeAll(s1, o, why), ws, why);
    }
  }

  lemma NoneWoken(s: Kernel, why: WakeReason)
    ensures AllWoken(s, s, [], why)
  {}

  lemma WakeFirst(s: Kernel, o: Oid, why: WakeReason)
    requires Agree(s) && o < |s.objs| && s.objs[o].waiters != []
    ensures var f, ws := First(s, o), s.objs[o].waiters; var s1 := Wake(s, f, why);
            && f == ws[0] && f !in ws[1..] && s1.objs == s.objs[o := s.objs[o].(waiters := ws[1..])]
            && WokenAs(s.tasks[f], s1.tasks[f], why) && (forall t :: 0 <= t < |s.tasks| && t != f ==> s1.tasks[t] == s.tasks[t])
            && LessAlarms(s, s1, [f])
  {
    hide ReadyOk, TickOk, OwnOk;
    TickOnce(s, First(s, o));
    WaitersDistinct(s, o);
    WithoutHead(s.objs[o].waiters);
    assert TaskWf(s, s.tasks[First(s, o)]);
  }

  lemma OneMoreWoken(s: Kernel, s1: Kernel, r: Kernel, ws: seq<Tid>, why: WakeReason)
    requires ws != [] && ws[0] !in ws[1..] && ws[0] < |s.tasks| == |s1.tasks| && AllWoken(s1, r, ws[1..], why)
    requires WokenAs(s.tasks[ws[0]], s1.tasks[ws[0]], why) && LessAlarms(s, s1, [ws[0]])
    requires forall t :: 0 <= t < |s.tasks| && t != ws[0] ==> s1.tasks[t] == s.tasks[t]
    ensures AllWoken(s, r, ws, why)
  {
    forall t: Tid ensures t in ws <==> t == ws[0] || t in ws[1..] {}
  }

  /** `krhino_sem_give` and `krhino_sem_give_all`: a token for the first waiter, or for every one, or
      for the count. */
  lemma SemGiveEffect(s: Kernel, o: Oid, all: bool)
    requires Inv(s) && o < |s.objs| && s.objs[o].kind == Sem
    ensures var out, b := SemGive(s, o, all), s.objs[o];
            if b.waiters != [] then
              && out.status == Success && b.count == 0
              && out.k.objs == s.objs[o := b.(waiters := if all then [] else b.waiters[1..])]
              && AllWoken(s, out.k, if all then b.waiters else b.waiters[..1], Finish)
            else if b.count == MAX_COUNT then out == Outcome(s, SemOvf)
            else out == Outcome(SetObj(s, o, b.(count := b.count + 1)), Success)
  {
    hide Wf, WaitOk, ReadyOk, TickOk, OwnOk, Inherits, Resched, AllWoken, Wake, WakeAll;
    var ws := s.objs[o].waiters;
    SignalAt(s, o);
    if ws != [] && all {
      WakeAllEffect(s, o, Finish);
      SameWoken(s, WakeAll(s, o, Finish), ws, Finish);
    } else if ws != [] {
      var f := First(s, o);
      var s1 := Wake(s, f, Finish);
      WakeFirst(s, o, Finish);
      NoneWoken(s1, Finish);
      assert ws[..1][1..] == [];
      OneMoreWoken(s, s1, s1, ws[..1], Finish);
      SameWoken(s, s1, ws[..1], Finish);
    }
  }

  lemma SameWoken(s: Kernel, r: Kernel, ws: seq<Tid>, why: WakeReason)
    requires AllWoken(s, r, ws, why)
    ensures AllWoken(s, Resched(r), ws, why) && Resched(r).objs == r.objs
  {}

  /** A token given where nobody waits can be taken, and then everything is as before. */
  lemma GiveTake(s: Kernel, o: Oid, all: bool)
    requires Inv(s) && o < |s.objs| && s.objs[o].kind == Sem && s.objs[o].waiters == [] && s.objs[o].count < MAX_COUNT
    ensures var s1 := SemGive(s, o, all).k; Inv(s1) && SemTake(s1, o, NO_WAIT) == Outcome(s, Success)
  {
    hide Wf, WaitOk, ReadyOk, TickOk, OwnOk, Inherits, Signals, IdleOk, ActiveOk, Resched, WakeAll, Wake;
    SemGiveInv(s, o, all);
    var s1 := SemGive(s, o, all).k;
    assert s1.objs[o := s1.objs[o].(count := s.objs[o].count)] == s.objs;
  }

  predicate AreTasks(s: Kernel, ws: seq<Tid>) {
    forall i :: 0 <= i < |ws| ==> ws[i] < |s.tasks|
  }

  /** The flags that the woken waiters asked to be cleared. */
  function Clears(s: Kernel, ws: seq<Tid>, cur: bv32): bv32
    requires AreTasks(s, ws)
  {
    if ws == [] then 0
    else
      var k := s.tasks[ws[0]];
      AddFlags(if Matches(cur, k.pendFlags, k.pendAnd) && k.pendClear then k.pendFlags else 0, Clears(s, ws[1..], cur))
  }

  lemma ClearTwice(a: bv32, f: bv32, g: bv32)
    ensures ClearFlags(ClearFlags(a, f), g) == ClearFlags(a, AddFlags(f, g)) && ClearFlags(a, 0) == a
    ensures ClearFlags(a, AddFlags(0, g)) == ClearFlags(a, g)
  {}

  /** Each of `ws` whose condition holds in `cur` has been woken and told `cur`; nobody else has noticed. */
  ghost predicate Told(s: Kernel, r: Kernel, ws: seq<Tid>, cur: bv32) {
    && |r.tasks| == |s.tasks| && r.now == s.now && r.lock == s.lock
    && (forall t :: 0 <= t < |s.tasks| ==>
         if t in ws && Matches(cur, s.tasks[t].pendFlags, s.tasks[t].pendAnd)
         then WokenAs(s.tasks[t].(got := cur), r.tasks[t], Finish) && t !in r.ticks
         else r.tasks[t] == s.tasks[t] && (t in r.ticks <==> t in s.ticks))
  }

  /** The loop of `event_set` visits one waiter after another. */
  lemma {:induction false} EventWakeEffect(s: Kernel, o: Oid, ws: seq<Tid>, cur: bv32)
    requires Agree(s) && o < |s.objs| && NoDup(ws) && AreTasks(s, ws) && forall t :: t in ws ==> t in s.objs[o].waiters
    ensures Told(s, EventWake(s, o, ws, cur), ws, cur)
    ensures EventWake(s, o, ws, cur).objs[o].flags == ClearFlags(s.objs[o].flags, Clears(s, ws, cur))
    decreases |ws|
  {
    hide Wf, WaitOk, ReadyOk, TickOk, OwnOk, Matches, ClearFlags, AddFlags, EventWakeOne, Told;
    if ws == [] {
      ClearTwice(s.objs[o].flags, 0, 0);
      ToldNone(s, cur);
    } else {
      var t, tl := ws[0], ws[1..];
      WaiterOf(s, o, t);
      TailOf(s, ws);
      var k, s1 := s.tasks[t], s;
      if Matches(cur, k.pendFlags, k.pendAnd) {
        s1 := EventWakeOne(s, o, t, cur);
        EventWakeOneAgree(s, o, t, cur);
        EventWakeOnly(s, o, t, cur);
        SameClears(s, s1, tl, cur);
      }
      EventWakeEffect(s1, o, tl, cur);
      ToldStep(s, s1, EventWake(s1, o, tl, cur), ws, cur);
      ClearTwice(s.objs[o].flags, if Matches(cur, k.pendFlags, k.pendAnd) && k.pendClear then k.pendFlags else 0, Clears(s, tl, cur));
    }
  }

  lemma WaiterOf(s: Kernel, o: Oid, t: Tid)
    requires Agree(s) && o < |s.objs| && t in s.objs[o].waiters
    ensures t < |s.tasks| && s.tasks[t].blk == Some(o) && s.tasks[t].Pending()
  {
    assert ObjWf(s, s.objs[o]) && TaskWf(s, s.tasks[t]);
  }

  lemma TailOf(s: Kernel, ws: seq<Tid>)
    requires ws != [] && NoDup(ws) && AreTasks(s, ws)
    ensures ws[0] !in ws[1..] && NoDup(ws[1..]) && AreTasks(s, ws[1..])
    ensures forall i :: 0 <= i < |ws[1..]| ==> ws[1..][i] != ws[0]
  {}

  lemma ToldNone(s: Kernel, cur: bv32)
    ensures Told(s, s, [], cur)
  {}

  lemma ToldStep(s: Kernel, s1: Kernel, r: Kernel, ws: seq<Tid>, cur: bv32)
    requires ws != [] && ws[0] !in ws[1..] && ws[0] < |s.tasks| == |s1.tasks| && Told(s1, r, ws[1..], cur)
    requires var k := s.tasks[ws[0]];
             if Matches(cur, k.pendFlags, k.pendAnd) then WokenAs(k.(got := cur), s1.tasks[ws[0]], Finish) && ws[0] !in s1.ticks
             else s1 == s
    requires s1.now == s.now && s1.lock == s.lock
    requires forall t :: 0 <= t < |s.tasks| && t != ws[0] ==> s1.tasks[t] == s.tasks[t] && (t in s1.ticks <==> t in s.ticks)
    ensures Told(s, r, ws, cur)
  {
    hide Matches;
    forall t | 0 <= t < |s.tasks| && t != ws[0] ensures t in ws <==> t in ws[1..] {}
  }

  lemma EventWakeOnly(s: Kernel, o: Oid, t: Tid, cur: bv32)
    requires Wf(s) && TickOk(s) && o < |s.objs| && t < |s.tasks| && s.tasks[t].blk == Some(o)
    ensures var r := EventWakeOne(s, o, t, cur);
            && WokenAs(s.tasks[t].(got := cur), r.tasks[t], Finish) && t !in r.ticks && r.now == s.now && r.lock == s.lock
            && (forall u :: 0 <= u < |s.tasks| && u != t ==> r.tasks[u] == s.tasks[u] && (u in r.ticks <==> u in s.ticks))
            && r.objs[o].flags == (if s.tasks[t].pendClear then ClearFlags(s.objs[o].flags, s.tasks[t].pendFlags) else s.objs[o].flags)
            && r.objs[o].waiters == Without(s.objs[o].waiters, t)
  {
    hide ClearFlags, TickOk;
    TickOnce(s, t);
    assert TaskWf(s, s.tasks[t]);
  }

  lemma {:induction false} SameClears(s: Kernel, s1: Kernel, ws: seq<Tid>, cur: bv32)
    requires AreTasks(s, ws) && |s1.tasks| == |s.tasks| && forall i :: 0 <= i < |ws| ==> s1.tasks[ws[i]] == s.tasks[ws[i]]
    ensures AreTasks(s1, ws) && Clears(s1, ws, cur) == Clears(s, ws, cur)
  {
    hide Matches, AddFlags;
    if ws != [] { SameClears(s, s1, ws[1..], cur); }
  }

  /** `krhino_event_set` that adds flags: exactly the waiters whose condition the new flags meet are
      woken, all of them are told the same flags, and what they asked for is cleared only then. */
  lemma EventSetEffect(s: Kernel, o: Oid, flags: bv32)
    requires Inv(s) && o < |s.objs| && s.objs[o].kind == Event
    ensures var r, ws, cur := EventSet(s, o, flags, false).k, s.objs[o].waiters, AddFlags(s.objs[o].flags, flags);
            && |r.objs| == |s.objs| && |r.tasks| == |s.tasks| && AreTasks(s, ws)
            && r.objs[o].flags == ClearFlags(cur, Clears(s, ws, cur)) && Told(s, r, ws, cur)
  {
    hide WaitOk, ReadyOk, TickOk, OwnOk, Inherits, Resched, Matches, ClearFlags, AddFlags, Told;
    var ws, cur := s.objs[o].waiters, AddFlags(s.objs[o].flags, flags);
    assert ObjWf(s, s.objs[o]);
    assert forall i :: 0 <= i < |ws| ==> ws[i] in ws;
    FlagsAgree(s, o, cur);
    WaitersDistinct(s, o);
    var s1 := SetObj(s, o, s.objs[o].(flags := cur));
    EventWakeEffect(s1, o, ws, cur);
    SameClears(s, s1, ws, cur);
    ReschedSame(EventWake(s1, o, ws, cur));
    SameTold(s, s1, EventWake(s1, o, ws, cur), Resched(EventWake(s1, o, ws, cur)), ws, cur);
  }

  lemma SameTold(s: Kernel, s1: Kernel, x: Kernel, r: Kernel, ws: seq<Tid>, cur: bv32)
    requires Told(s1, x, ws, cur) && s1 == s.(objs := s1.objs) && SameTables(x, r)
    ensures Told(s, r, ws, cur)
  {
    hide Matches;
  }

  // --------------------------------------------------------------------- tasks

  /** The wait of the task is over because its time is. */
  predicate ExpiredAs(k: Task, k1: Task) {
    k1 == k.(prio := k1.prio, blk := None,
             st := if k.st == Sleep || k.st == Pend then Rdy else Susp,
             wake := if k.Sleeping() then Finish else Timeout)
  }

  /** Priorities aside, the first `n` of the tick list have expired, and no other task has noticed. */
  ghost predicate Expired(s: Kernel, r: Kernel, n: nat) {
    && n <= |s.ticks| && |r.tasks| == |s.tasks| && r.ticks == s.ticks[n..]
    && forall t :: 0 <= t < |s.tasks| ==>
         if t in s.ticks[..n] then Due(s.tasks[t], s.now) && ExpiredAs(s.tasks[t], r.tasks[t])
         else r.tasks[t] == s.tasks[t].(prio := r.tasks[t].prio)
  }

  /** `tick_list_update` ends the waits at the head of the tick list, each of them due, and stops at
      the first that is not. */
  lemma {:induction false} ExpireDueEffect(s: Kernel) returns (n: nat)
    requires Core(s) && s.active < |s.tasks| && (s.lock > 0 ==> s.tasks[s.active].st == Rdy)
    ensures Expired(s, ExpireDue(s), n)
    ensures n < |s.ticks| ==> s.ticks[n] < |s.tasks| && !Due(s.tasks[s.ticks[n]], s.now)
    decreases |s.ticks|
  {
    hide Agree, Inherits, Signals, IdleOk, Expire, Due, Expired;
    n := 0;
    if s.ticks == [] {
      ExpiredNone(s);
    } else {
      var t := s.ticks[0];
      ListedTask(s, t);
      if Due(s.tasks[t], s.now) {
        ExpireSettled(s, t);
        ExpireOne(s, t);
        WithoutHead(s.ticks);
        FirstOnce(s);
        var s1 := Expire(s, t);
        var k := ExpireDueEffect(s1);
        n := k + 1;
        ExpiredStep(s, s1, ExpireDue(s1), k);
      } else {
        ExpiredNone(s);
      }
    }
  }

  lemma ExpiredNone(s: Kernel)
    ensures Expired(s, s, 0)
  {}

  lemma ExpiredStep(s: Kernel, s1: Kernel, r: Kernel, k: nat)
    requires s.ticks != [] && s.ticks[0] < |s.tasks| == |s1.tasks| && s.ticks[0] !in s.ticks[1..] && s1.ticks == s.ticks[1..] && s1.now == s.now
    requires Due(s.tasks[s.ticks[0]], s.now) && ExpiredAs(s.tasks[s.ticks[0]], s1.tasks[s.ticks[0]])
    requires forall u :: 0 <= u < |s.tasks| && u != s.ticks[0] ==> s1.tasks[u] == s.tasks[u].(prio := s1.tasks[u].prio)
    requires Expired(s1, r, k)
    ensures Expired(s, r, k + 1) && (k < |s1.ticks| ==> k + 1 < |s.ticks| && s.ticks[k + 1] == s1.ticks[k])
    ensures k + 1 < |s.ticks| && s.ticks[k + 1] < |s.tasks| ==> Due(s1.tasks[s.ticks[k + 1]], s.now) == Due(s.tasks[s.ticks[k + 1]], s.now)
  {
    var t := s.ticks[0];
    assert s1.ticks[k..] == s.ticks[k + 1..] && s.ticks[..k + 1] == [t] + s1.ticks[..k];
    forall u | 0 <= u < |s.tasks| && u != t ensures u in s.ticks[..k + 1] <==> u in s1.ticks[..k] {}
    assert forall i :: 0 <= i < k ==> s1.ticks[..k][i] == s.ticks[1..][i];
    assert t !in s1.ticks[..k];
  }

  lemma ListedTask(s: Kernel, t: Tid)
    requires Agree(s) && t in s.ticks
    ensures t < |s.tasks| && (s.tasks[t].Sleeping() || s.tasks[t].Pending())
  {}

  lemma FirstOnce(s: Kernel)
    requires Agree(s) && s.ticks != []
    ensures s.ticks[0] !in s.ticks[1..]
  {}

  lemma ExpireOne(s: Kernel, t: Tid)
    requires Agree(s) && t in s.ticks
    ensures t < |s.tasks| == |Expire(s, t).tasks| && ExpiredAs(s.tasks[t], Expire(s, t).tasks[t])
    ensures forall u :: 0 <= u < |s.tasks| && u != t ==>
              Expire(s, t).tasks[u] == s.tasks[u].(prio := Expire(s, t).tasks[u].prio)
  {
    assert TaskWf(s, s.tasks[t]);
    hide WaitOk, ReadyOk, OwnOk, Leave;
    LeaveAgree(s, t, if s.tasks[t].st == Sleep || s.tasks[t].st == Pend then Rdy else Susp, if s.tasks[t].Sleeping() then Finish else Timeout);
  }

  /** Who gets a mutex when its owner `t` dies. */
  function Heir(b: Obj): Option<Tid> {
    if b.waiters == [] then None else Some(b.waiters[0])
  }

  /** The task has come to own `o` without a call of its own. */
  predicate Inherited(k: Task, k1: Task, o: Oid) {
    k1 == k.(st := if k.st == PendSusp then Susp else Rdy, wake := Finish, blk := None, held := [o] + k.held, prio := k1.prio)
  }

  /** `task_mutex_free`: every mutex of the task passes to its first waiter, as deep as it was. */
  lemma {:induction false} FreeMutexesEffect(s: Kernel, t: Tid, o: Oid)
    requires Agree(s) && t < |s.tasks| && s.tasks[t].Live() && o < |s.objs|
    ensures var r, b := FreeMutexes(s, t), s.objs[o];
            if Owns(s, t, o) then
              && r.objs[o] == b.(owner := Heir(b), waiters := b.waiters[if b.waiters == [] then 0 else 1..], link := r.objs[o].link)
              && (b.waiters != [] ==> var f := b.waiters[0]; f < |s.tasks| && Inherited(s.tasks[f], r.tasks[f], o) && f !in r.ticks)
            else r.objs[o] == b
    decreases |s.tasks[t].held|
  {
    hide Wf, WaitOk, ReadyOk, TickOk, OwnOk, PassOn, Given, Inherited;
    var held := s.tasks[t].held;
    if held == [] {
      OwnsNothing(s, t);
    } else {
      var m := held[0];
      OwnsHeld(s, t, m);
      PassOnAgree(s, t, m, s.objs[m].nested);
      GiveTo(s, t, m, s.objs[m].nested);
      var s1 := PassOn(s, t, m, s.objs[m].nested);
      if s.objs[m].waiters != [] { NotFirst(s, t, m); }
      PassedObj(s, s1, t, m, o);
      FreeMutexesEffect(s1, t, o);
      if Owns(s, t, o) && s.objs[o].waiters != [] {
        HeirNext(s, s1, t, m, o);
        if m == o {
          forall x | 0 <= x < |s1.objs| && s1.objs[x].waiters != [] ensures s1.objs[x].waiters[0] in s1.objs[x].waiters {}
          FreeOthers(s1, t, s.objs[o].waiters[0]);
        }
      }
    }
  }

  lemma OwnsHeld(s: Kernel, t: Tid, m: Oid)
    requires Agree(s) && t < |s.tasks| && s.tasks[t].Live() && m in s.tasks[t].held
    ensures Owns(s, t, m)
  {
    assert TaskWf(s, s.tasks[t]);
  }

  lemma PassedObj(s: Kernel, r: Kernel, t: Tid, m: Oid, o: Oid)
    requires m < |s.objs| && t < |s.tasks| && o < |s.objs| && Owns(s, t, m) && Given(s, r, t, m, s.objs[m].nested)
    requires s.objs[m].waiters != [] ==> s.objs[m].waiters[0] != t
    ensures o < |r.objs|
    ensures o != m ==> r.objs[o] == s.objs[o]
    ensures o == m ==> !Owns(r, t, m) && r.objs[m] == s.objs[m].(owner := Heir(s.objs[m]), link := r.objs[m].link,
                                                                  waiters := s.objs[m].waiters[if s.objs[m].waiters == [] then 0 else 1..])
  {}

  /** The heir of `o`, before and after one mutex has been passed on. */
  lemma HeirNext(s: Kernel, r: Kernel, t: Tid, m: Oid, o: Oid)
    requires Agree(s) && Agree(r) && t < |s.tasks| && s.tasks[t].Live() && Owns(s, t, m) && Owns(s, t, o) && s.objs[o].waiters != []
    requires Given(s, r, t, m, s.objs[m].nested)
    ensures var f := s.objs[o].waiters[0];
            && f < |s.tasks| == |r.tasks| && f != t
            && if m == o then Inherited(s.tasks[f], r.tasks[f], o) && f !in r.ticks && (forall x :: 0 <= x < |r.objs| ==> f !in r.objs[x].waiters)
               else r.tasks[f] == s.tasks[f]
  {
    hide ReadyOk, TickOk;
    var f := s.objs[o].waiters[0];
    NotFirst(s, t, o);
    WaiterOf(s, o, f);
    if m == o {
      forall x | 0 <= x < |r.objs| ensures f !in r.objs[x].waiters { assert f in r.objs[x].waiters <==> r.tasks[f].blk == Some(x); }
    } else if s.objs[m].waiters != [] {
      WaiterOf(s, m, s.objs[m].waiters[0]);
    }
  }

  /** Who is first in line for none of the mutexes is not concerned. */
  lemma {:induction false} FreeOthers(s: Kernel, t: Tid, u: Tid)
    requires Agree(s) && t < |s.tasks| && s.tasks[t].Live() && u < |s.tasks| && u != t
    requires forall m :: 0 <= m < |s.objs| && Owns(s, t, m) && s.objs[m].waiters != [] ==> s.objs[m].waiters[0] != u
    ensures FreeMutexes(s, t).tasks[u] == s.tasks[u] && (u in FreeMutexes(s, t).ticks <==> u in s.ticks)
    decreases |s.tasks[t].held|
  {
    hide Wf, WaitOk, ReadyOk, TickOk, OwnOk, PassOn, Given;
    if s.tasks[t].held != [] {
      var m := s.tasks[t].held[0];
      OwnsHeld(s, t, m);
      PassOnAgree(s, t, m, s.objs[m].nested);
      GiveTo(s, t, m, s.objs[m].nested);
      var s1 := PassOn(s, t, m, s.objs[m].nested);
      if s.objs[m].waiters != [] { NotFirst(s, t, m); }
      GivenOthers(s, s1, t, m, u);
      FreeOthers(s1, t, u);
    }
  }

  lemma GivenOthers(s: Kernel, r: Kernel, t: Tid, m: Oid, u: Tid)
    requires m < |s.objs| && t < |s.tasks| && Given(s, r, t, m, s.objs[m].nested) && u < |s.tasks| && u != t
    requires s.objs[m].waiters != [] ==> s.objs[m].waiters[0] != u && s.objs[m].waiters[0] != t
    ensures r.tasks[u] == s.tasks[u] && (u in r.ticks <==> u in s.ticks)
    ensures forall x :: 0 <= x < |r.objs| && Owns(r, t, x) ==> Owns(s, t, x) && r.objs[x].waiters == s.objs[x].waiters
  {}

  /** `krhino_task_del`: the task waits for nothing and owns nothing any more, and each of its mutexes
      has the owner that `task_mutex_free` chose. */
  lemma TaskDelEffect(s: Kernel, t: Tid, o: Oid)
    requires Inv(s) && t < |s.tasks| && s.tasks[t].Live() && o < |s.objs| && TaskDel(s, t).status == Success
    ensures var r := TaskDel(s, t).k;
            && |r.tasks| == |s.tasks| && |r.objs| == |s.objs| && r.tasks[t].st == Deleted
            && t !in r.objs[o].waiters && t !in r.ticks && !Owns(r, t, o)
            && r.objs[o].owner == (if Owns(s, t, o) then Heir(s.objs[o]) else s.objs[o].owner)
            && r.objs[o].kind == s.objs[o].kind && (forall u :: u in r.objs[o].waiters ==> u in s.objs[o].waiters)
            && (Owns(s, t, o) && s.objs[o].waiters != [] ==> s.objs[o].waiters[0] !in r.objs[o].waiters)
            && r.tasks[t].stale == Head(s.tasks[t].held) && r.tasks[t].prio == s.tasks[t].prio
  {
    hide Wf, WaitOk, ReadyOk, TickOk, OwnOk, Inherits, Signals, IdleOk, ActiveOk, Resched, Leave, FreeMutexes, Move;
    TaskDelInv(s, t);
    WithStaleAgree(s, t);
    var s1 := FreeMutexes(WithStale(s, t), t);
    OwnsNothing(s1, t);
    FreeMutexesEffect(WithStale(s, t), t, o);
    WaitersDistinct(s, o);
    LeaveAgree(s1, t, Deleted, s.tasks[t].wake);
    var r := Leave(s1, t, Deleted, s.tasks[t].wake);
    ReschedSame(r);
    MoveOwners(s1, t, Deleted, s.tasks[t].wake, o);
    assert SameButOrder(Move(s1, t, Deleted, s.tasks[t].wake).objs[o], r.objs[o]);
    GoneTask(TaskDel(s, t).k, t, o);
    LeaveDead(s1, t, s.tasks[t].wake);
  }

  /** ... and its heir is woken and owns the mutex as deep as the dead task did. */
  lemma TaskDelHeir(s: Kernel, t: Tid, o: Oid)
    requires Inv(s) && t < |s.tasks| && s.tasks[t].Live() && Owns(s, t, o) && s.objs[o].waiters != [] && TaskDel(s, t).status == Success
    ensures var r, f, b := TaskDel(s, t).k, s.objs[o].waiters[0], s.objs[o];
            && f < |s.tasks| == |r.tasks| && |r.objs| == |s.objs| && f != t && Inherited(s.tasks[f], r.tasks[f], o) && f !in r.ticks
            && r.objs[o] == b.(owner := Some(f), waiters := r.objs[o].waiters, link := r.objs[o].link)
  {
    hide Wf, WaitOk, ReadyOk, TickOk, OwnOk, Inherits, Signals, IdleOk, ActiveOk, Resched, Leave, FreeMutexes, Move;
    TaskDelEffect(s, t, o);
    var s0, why := WithStale(s, t), s.tasks[t].wake;
    WithStaleAgree(s, t);
    var s1 := FreeMutexes(s0, t);
    OwnsNothing(s1, t);
    FreeMutexesEffect(s0, t, o);
    NotFirst(s, t, o);
    LeaveAgree(s1, t, Deleted, why);
    MoveOwners(s1, t, Deleted, why, o);
    MoveOthersSame(s1, t, Deleted, why);
    assert SameButOrder(Move(s1, t, Deleted, why).objs[o], Leave(s1, t, Deleted, why).objs[o]);
    ReschedSame(Leave(s1, t, Deleted, why));
  }

  lemma MoveOthersSame(s: Kernel, t: Tid, st: TaskState, why: WakeReason)
    requires Wf(s) && t < |s.tasks|
    ensures forall u :: 0 <= u < |s.tasks| && u != t ==> Move(s, t, st, why).tasks[u] == s.tasks[u]
    ensures forall u :: u != t ==> (u in Move(s, t, st, why).ticks <==> u in s.ticks)
  {}

  /** ... and nobody else has noticed, but for an inherited priority that is gone. */
  lemma TaskDelOthers(s: Kernel, t: Tid, u: Tid)
    requires Inv(s) && t < |s.tasks| && s.tasks[t].Live() && u < |s.tasks| && TaskDel(s, t).status == Success
    requires forall m :: 0 <= m < |s.objs| && Owns(s, t, m) && s.objs[m].waiters != [] ==> s.objs[m].waiters[0] != u
    ensures var r := TaskDel(s, t).k;
            && |r.tasks| == |s.tasks| && r.now == s.now && r.lock == s.lock
            && (u != t ==> r.tasks[u] == s.tasks[u].(prio := r.tasks[u].prio) && (u in r.ticks <==> u in s.ticks))
            && r.tasks[t] == s.tasks[t].(st := Deleted, held := [], blk := None, stale := Head(s.tasks[t].held))
  {
    hide Wf, WaitOk, ReadyOk, TickOk, OwnOk, Inherits, Signals, IdleOk, ActiveOk, Resched, Leave, FreeMutexes, Move, OnlyPrio;
    var s0, why := WithStale(s, t), s.tasks[t].wake;
    WithStaleAgree(s, t);
    var s1 := FreeMutexes(s0, t);
    OwnsNothing(s1, t);
    if u != t { FreeOthers(s0, t, u); }
    FreeTimes(s0, t);
    LeaveAgree(s1, t, Deleted, why);
    LeaveDead(s1, t, why);
    MoveOthersSame(s1, t, Deleted, why);
    MoveAway(s1, t, why);
    OnlyPrioAt(Move(s1, t, Deleted, why), Leave(s1, t, Deleted, why), u);
    OnlyPrioAt(Move(s1, t, Deleted, why), Leave(s1, t, Deleted, why), t);
    ReschedSame(Leave(s1, t, Deleted, why));
  }

  lemma OnlyPrioAt(s: Kernel, r: Kernel, u: Tid)
    requires OnlyPrio(s, r) && u < |s.tasks|
    ensures |r.tasks| == |s.tasks| && r.tasks[u] == s.tasks[u].(prio := r.tasks[u].prio)
    ensures r.now == s.now && r.lock == s.lock && r.ticks == s.ticks
  {}

  lemma MoveAway(s: Kernel, t: Tid, why: WakeReason)
    requires Wf(s) && t < |s.tasks|
    ensures var r := Move(s, t, Deleted, why);
            r.tasks[t] == s.tasks[t].(st := Deleted, wake := why, blk := None) && r.now == s.now && r.lock == s.lock
  {
    assert TaskWf(s, s.tasks[t]);
  }

  lemma {:induction false} FreeTimes(s: Kernel, t: Tid)
    requires Agree(s) && t < |s.tasks| && s.tasks[t].Live()
    ensures FreeMutexes(s, t).now == s.now && FreeMutexes(s, t).lock == s.lock
    decreases |s.tasks[t].held|
  {
    hide Wf, WaitOk, ReadyOk, TickOk, OwnOk, PassOn;
    if s.tasks[t].held != [] {
      var m := s.tasks[t].held[0];
      OwnsHeld(s, t, m);
      PassOnAgree(s, t, m, s.objs[m].nested);
      GiveTo(s, t, m, s.objs[m].nested);
      FreeTimes(PassOn(s, t, m, s.objs[m].nested), t);
    }
  }

  /** Nothing happens to the priority of a task that has just died. */
  lemma LeaveDead(s: Kernel, t: Tid, why: WakeReason)
    requires Wf(s) && CanMove(s, t, Deleted)
    ensures Leave(s, t, Deleted, why).tasks[t].prio == s.tasks[t].prio
  {
    hide PriChange, PriLimit;
    MoveWf(s, t, Deleted, why);
    assert TaskWf(s, s.tasks[t]);
    var s1 := Move(s, t, Deleted, why);
    if s.tasks[t].blk.Some? {
      var b := s1.objs[s.tasks[t].blk.value];
      assert ObjWf(s1, b);
      if b.kind == Mutex && b.owner.Some? {
        assert TaskWf(s1, s1.tasks[b.owner.value]);
        PriChangeDead(s1, b.owner.value, PriLook(s1, b.owner.value), t);
      }
    }
  }

  lemma MoveOwners(s: Kernel, t: Tid, st: TaskState, why: WakeReason, o: Oid)
    requires Wf(s) && t < |s.tasks| && o < |s.objs|
    ensures Move(s, t, st, why).objs[o] == s.objs[o].(waiters := Move(s, t, st, why).objs[o].waiters)
    ensures Move(s, t, st, why).tasks[t].st == st && Move(s, t, st, why).tasks[t].stale == s.tasks[t].stale
    ensures forall u :: u in Move(s, t, st, why).objs[o].waiters ==> u in s.objs[o].waiters
  {}

  lemma GoneTask(s: Kernel, t: Tid, o: Oid)
    requires Agree(s) && t < |s.tasks| && s.tasks[t].st == Deleted && o < |s.objs|
    ensures t !in s.objs[o].waiters && t !in s.ticks && !Owns(s, t, o)
  {
    assert TaskWf(s, s.tasks[t]) && OwnerOk(s, s.objs[o]);
  }

  /** `krhino_task_wait_abort`: the wait, of whatever kind, is over. */
  lemma WaitAbortEffect(s: Kernel, t: Tid, o: Oid)
    requires Inv(s) && t < |s.tasks| && s.tasks[t].Live() && o < |s.objs|
    ensures var out := WaitAbort(s, t); var r := out.k;
            && out.status == Success && |r.tasks| == |s.tasks| && |r.objs| == |s.objs| && r.tasks[t].st == Rdy
            && t !in r.objs[o].waiters && t !in r.ticks && r.tasks[t].blk == None
            && (s.tasks[t].Pending() || s.tasks[t].Sleeping() ==> r.tasks[t].wake == WakeReason.Abort)
  {
    hide WaitOk, ReadyOk, TickOk, OwnOk, Inherits, Signals, Resched, Leave;
    WaitAbortInv(s, t);
    var st := s.tasks[t].st;
    if st == Rdy {
      ReschedSame(s);
    } else if st == Susp {
      ReschedSame(Move(s, t, Rdy, s.tasks[t].wake));
    } else {
      LeaveAgree(s, t, Rdy, WakeReason.Abort);
      ReschedSame(Leave(s, t, Rdy, WakeReason.Abort));
    }
    ReadyTask(WaitAbort(s, t).k, t, o);
  }

  lemma ReadyTask(s: Kernel, t: Tid, o: Oid)
    requires Agree(s) && t < |s.tasks| && s.tasks[t].st == Rdy && o < |s.objs|
    ensures t !in s.objs[o].waiters && t !in s.ticks && s.tasks[t].blk == None
  {
    assert TaskWf(s, s.tasks[t]);
  }

  /** Resuming a suspended sleeper or waiter undoes the suspension; a ready task goes to the end of its
      ready list. */
  lemma SuspendResume(s: Kernel, t: Tid)
    requires Inv(s) && t < |s.tasks| && CanSuspend(s.tasks[t]) && s.tasks[t].prio != IDLE_PRI && t != s.active
    ensures var s1 := TaskSuspend(s, t).k;
            && TaskSuspend(s, t).status == Success && Inv(s1) && t < |s1.tasks| && !CanSuspend(s1.tasks[t])
            && TaskResume(s1, t).status == Success
            && var r := TaskResume(s1, t).k;
               && SameTables(WithSusp(s, t, 0), r)
               && (s.tasks[t].st != Rdy ==> r == WithSusp(s, t, 0))
               && (s.tasks[t].st == Rdy ==> r.ready == AddTail(Remove(s.ready, s.tasks[t].prio, t), s.tasks[t].prio, t))
  {
    hide Wf, WaitOk, ReadyOk, TickOk, OwnOk, Inherits, Signals, IdleOk, ActiveOk, Resched, Move, TaskSuspend, TaskResume, Suspended;
    TaskSuspendInv(s, t);
    if s.tasks[t].st == Rdy { NotTimed(s, t); }
    var k, m := s.tasks[t], Suspended(s, t);
    SuspendedIs(s, t);
    SuspendFirst(s, t);
    ReschedSame(m);
    ReschedTwice(s, m);
    var s1 := Resched(m);
    BackAgain(s, t, s1);
    var q := Move(WithSusp(s1, t, 0), t, k.st, k.wake);
    ReschedSame(q);
    if k.st != Rdy {
      SuspActive(s, t);
      ReschedTwice(WithSusp(s, t, 0), q);
    }
  }

  lemma SuspActive(s: Kernel, t: Tid)
    requires ActiveOk(s) && t < |s.tasks|
    ensures ActiveOk(WithSusp(s, t, 0))
  {}

  lemma SuspendFirst(s: Kernel, t: Tid)
    requires Wf(s) && t < |s.tasks| && CanSuspend(s.tasks[t]) && s.tasks[t].prio != IDLE_PRI && t != s.active
    ensures TaskSuspend(s, t) == Outcome(Resched(Suspended(s, t)), Success)
  {
    hide Move, Resched;
  }

  /** The state that `krhino_task_suspend` leaves, before the scheduler runs. */
  function Suspended(s: Kernel, t: Tid): Kernel
    requires Wf(s) && t < |s.tasks|
  {
    var k := s.tasks[t];
    WithSusp(Move(s, t, if k.st == Rdy then Susp else if k.st == Sleep then SleepSusp else PendSusp, k.wake), t, 1)
  }

  predicate CanSuspend(k: Task) { k.st == Rdy || k.st == Sleep || k.st == Pend }

  ghost predicate SuspendedAs(s: Kernel, r: Kernel, t: Tid)
    requires Wf(s) && t < |s.tasks|
  {
    var k := s.tasks[t];
    assert TaskWf(s, k);
    var st := if k.st == Rdy then Susp else if k.st == Sleep then SleepSusp else PendSusp;
    && r.tasks == s.tasks[t := k.(st := st, susp := 1)]
    && r.objs == s.objs && r.ticks == s.ticks && r.now == s.now && r.lock == s.lock
    && r.ready == (if k.st == Rdy then Remove(s.ready, k.prio, t) else s.ready)
  }

  lemma SuspendedIs(s: Kernel, t: Tid)
    requires Wf(s) && t < |s.tasks| && CanSuspend(s.tasks[t]) && (s.tasks[t].st == Rdy ==> Without(s.ticks, t) == s.ticks)
    ensures SuspendedAs(s, Suspended(s, t), t) && Suspended(s, t).active == s.active
  {
    assert TaskWf(s, s.tasks[t]);
  }

  lemma BackAgain(s: Kernel, t: Tid, s1: Kernel)
    requires Wf(s) && Wf(s1) && t < |s.tasks| && CanSuspend(s.tasks[t]) && SuspendedAs(s, s1, t)
    requires s.tasks[t].st == Rdy ==> Without(s.ticks, t) == s.ticks
    ensures t < |s1.tasks| && Wf(WithSusp(s1, t, 0))
    ensures var q := Move(WithSusp(s1, t, 0), t, s.tasks[t].st, s.tasks[t].wake);
            && TaskResume(s1, t) == Outcome(Resched(q), Success) && SameTables(WithSusp(s, t, 0), q) && q.active == s1.active
            && q.ready == if s.tasks[t].st == Rdy then AddTail(Remove(s.ready, s.tasks[t].prio, t), s.tasks[t].prio, t) else s.ready
  {
    hide Resched;
    WithSuspWf(s1, t, 0);
    assert TaskWf(s, s.tasks[t]);
    var q := Move(WithSusp(s1, t, 0), t, s.tasks[t].st, s.tasks[t].wake);
    assert q.tasks == WithSusp(s, t, 0).tasks;
  }

  lemma NotTimed(s: Kernel, t: Tid)
    requires Agree(s) && t < |s.tasks| && s.tasks[t].st == Rdy
    ensures t !in s.ticks && Without(s.ticks, t) == s.ticks
  {}

  /** With the same ready list the same task runs. */
  lemma ReschedTwice(s: Kernel, r: Kernel)
    ensures ActiveOk(s) && r.ready == s.ready && r.lock == s.lock && (r.lock > 0 ==> r.active == s.active) ==> Resched(r).active == s.active
  {}
}
