/** Mutex calls keep the kernel invariant. */
module MutexProofs {
  import opened Flags
  import opened Lists
  import opened ReadyQueue
  import opened KernelState
  import opened PriorityChain
  import opened KernelLists
  import opened KernelInv
  import opened KernelSteps
  import opened KernelProofs

  // ---------------------------------------------------------------------- lock

  /** Blocking on `o` leaves the first waiters of the other mutexes alone. */
  lemma BlockTops(s: Kernel, o: Oid, t: Tid, ticks: nat, u: Tid)
    requires Agree(s) && CanBlock(s, o, t)
    ensures SameTopsBut(s, Block(s, o, t, ticks), u, o)
    ensures forall w :: Owns(Block(s, o, t, ticks), w, o) <==> Owns(s, w, o)
  {
    var s1 := Block(s, o, t, ticks);
    assert forall m: Oid :: m != o && m < |s.objs| ==> s1.objs[m] == s.objs[m];
  }

  /** Blocking on `o`: its first waiter's priority becomes the minimum with the newcomer's. */
  lemma BlockTop(s: Kernel, o: Oid, t: Tid, ticks: nat)
    requires Agree(s) && CanBlock(s, o, t)
    ensures Waited(Block(s, o, t, ticks), o)
    ensures Waited(s, o) && s.tasks[t].prio < Top(s, o) ==> Top(Block(s, o, t, ticks), o) == s.tasks[t].prio
    ensures Waited(s, o) && s.tasks[t].prio >= Top(s, o) ==> Top(Block(s, o, t, ticks), o) == Top(s, o)
    ensures !Waited(s, o) ==> Top(Block(s, o, t, ticks), o) == s.tasks[t].prio
  {
    var s1 := Block(s, o, t, ticks);
    BlockAgree(s, o, t, ticks);
    assert t in s1.objs[o].waiters;
    TopIsMin(s1, o, t);
    var f1 := s1.objs[o].waiters[0];
    assert f1 in s1.objs[o].waiters && ObjWf(s, s.objs[o]);
    if s.objs[o].waiters != [] {
      var f := s.objs[o].waiters[0];
      assert f in s.objs[o].waiters;
      TopIsMin(s1, o, f);
    }
    if f1 != t {
      TopIsMin(s, o, f1);
    }
  }

  /** The owner's equation after a task at or below the owner's priority starts to wait. */
  lemma BlockOwner(s: Kernel, o: Oid, t: Tid, ticks: nat, w: Tid)
    requires Agree(s) && CanBlock(s, o, t) && w < |s.tasks| && Owns(s, w, o)
    requires s.tasks[w].prio <= s.tasks[t].prio
    requires IsLeast(s, Bases(s.tasks), w, s.tasks[w].prio) ||
             (s.tasks[w].prio == s.tasks[t].prio <= s.tasks[w].bprio &&
              forall m :: OwnsWaited(s, w, m) ==> s.tasks[w].prio <= Top(s, m))
    ensures IsLeast(Block(s, o, t, ticks), Bases(s.tasks), w, s.tasks[w].prio)
  {
    var s1 := Block(s, o, t, ticks);
    BlockTops(s, o, t, ticks, w);
    BlockTop(s, o, t, ticks);
    var p := s.tasks[w].prio;
    assert OwnsWaited(s1, w, o);
    if IsLeast(s, Bases(s.tasks), w, p) {
      OneMutex(s, s1, Bases(s.tasks), w, o, p);
    } else {
      assert Top(s1, o) == p;
    }
  }

  /** Blocking keeps the equation if the owner already runs at or above the caller's priority. */
  lemma BlockInherits(s: Kernel, o: Oid, t: Tid, ticks: nat)
    requires Agree(s) && CanBlock(s, o, t)
    requires s.objs[o].kind != Mutex ==> Inherits(s, Bases(s.tasks))
    requires s.objs[o].kind == Mutex ==>
               Boosted(s, s.objs[o].owner.value, s.tasks[t].prio)
    ensures Inherits(Block(s, o, t, ticks), Bases(Block(s, o, t, ticks).tasks))
  {
    var s1 := Block(s, o, t, ticks);
    assert Bases(s1.tasks) == Bases(s.tasks);
    forall u | 0 <= u < |s1.tasks| && s1.tasks[u].Live() ensures IsLeast(s1, Bases(s.tasks), u, s1.tasks[u].prio) {
      if Owns(s, u, o) {
        BlockOwner(s, o, t, ticks, u);
      } else {
        BlockTops(s, o, t, ticks, u);
        assert SameTops(s, s1, u);
        IsLeastFrame(s, s1, Bases(s.tasks), u, s.tasks[u].prio);
      }
    }
  }

  /** Boosting the owner: every other task keeps its equation, the owner runs at `p`. */
  lemma BoostInherits(s: Kernel, w: Tid, p: nat)
    requires Agree(s) && w < |s.tasks| && s.tasks[w].Live() && Inherits(s, Bases(s.tasks))
    requires p < s.tasks[w].prio
    ensures p < PRI_MAX && Agree(PriChange(s, w, p)) && OnlyPrio(s, PriChange(s, w, p))
    ensures InheritsBut(PriChange(s, w, p), w)
    ensures PriChange(s, w, p).tasks[w].prio == p <= s.tasks[w].bprio
    ensures forall m :: OwnsWaited(PriChange(s, w, p), w, m) ==> p <= Top(PriChange(s, w, p), m)
  {
    assert TaskWf(s, s.tasks[w]);
    assert IsLeast(s, Bases(s.tasks), w, s.tasks[w].prio);
    var base := Bases(s.tasks)[w := p];
    forall u | 0 <= u < |s.tasks| && s.tasks[u].Live()
      ensures IsLeast(s, base, u, if u == w then p else s.tasks[u].prio)
    {
      assert IsLeast(s, Bases(s.tasks), u, s.tasks[u].prio);
    }
    PriChangeInherits(s, base, w, p);
    PriChangeAgree(s, w, p);
    RaiseOneWay(s, w, p, w);
    var s1 := PriChange(s, w, p);
    assert Bases(s1.tasks) == Bases(s.tasks);
    forall u | 0 <= u < |s1.tasks| && s1.tasks[u].Live() && u != w
      ensures IsLeast(s1, Bases(s1.tasks), u, s1.tasks[u].prio)
    {
      assert IsLeast(s1, base, u, s1.tasks[u].prio);
    }
    assert IsLeast(s1, base, w, p);
  }

  /** The owner after the optional boost: at or above the caller, with a reason to be there. */
  ghost predicate Boosted(s: Kernel, w: Tid, p: nat) {
    && w < |s.tasks| && InheritsBut(s, w) && s.tasks[w].prio <= p
    && (IsLeast(s, Bases(s.tasks), w, s.tasks[w].prio) ||
        (s.tasks[w].prio == p <= s.tasks[w].bprio &&
         forall m :: OwnsWaited(s, w, m) ==> s.tasks[w].prio <= Top(s, m)))
  }

  lemma BoostReady(s: Kernel, w: Tid, a: Tid)
    requires Agree(s) && w < |s.tasks| && s.tasks[w].Live() && Inherits(s, Bases(s.tasks))
    requires a < |s.tasks| && s.tasks[a].prio < PRI_MAX
    ensures var s1 := Boost(s, w, s.tasks[a].prio);
            Agree(s1) && OnlyPrio(s, s1) && s1.tasks[a] == s.tasks[a] && Boosted(s1, w, s1.tasks[a].prio)
  {
    var p := s.tasks[a].prio;
    if p < s.tasks[w].prio {
      BoostInherits(s, w, p);
      RaiseOneWay(s, w, p, a);
    } else {
      assert IsLeast(s, Bases(s.tasks), w, s.tasks[w].prio);
    }
  }

  /** The blocking path of `krhino_mutex_lock`, once `s1` is the boosted state. */
  lemma LockBlocks(s: Kernel, s1: Kernel, o: Oid, a: Tid, ticks: nat)
    requires Core(s) && o < |s.objs| && s.objs[o].kind == Mutex && a != IDLE
    requires a < |s.tasks| && s.tasks[a].st == Rdy
    requires s.objs[o].owner.Some? && s.objs[o].owner.value != a
    requires Agree(s1) && OnlyPrio(s, s1) && s1.tasks[a] == s.tasks[a]
    requires Boosted(s1, s.objs[o].owner.value, s1.tasks[a].prio)
    ensures Core(Block(s1, o, a, ticks))
  {
    hide Wf, WaitOk, ReadyOk, TickOk, OwnOk, Signals, Inherits, Boosted, Block;
    OnlyPrioSignals(s, s1);
    assert SameButOrder(s.objs[o], s1.objs[o]);
    BlockCore(s1, o, a, ticks);
  }

  /** Blocking where nothing is available keeps the core invariant. */
  lemma BlockCore(s: Kernel, o: Oid, t: Tid, ticks: nat)
    requires Agree(s) && Signals(s) && IdleOk(s) && CanBlock(s, o, t) && t != IDLE
    requires s.objs[o].kind != NoObj
    requires s.objs[o].kind == Sem ==> s.objs[o].count == 0
    requires s.objs[o].kind == Event ==> !Matches(s.objs[o].flags, s.tasks[t].pendFlags, s.tasks[t].pendAnd)
    requires s.objs[o].kind != Mutex ==> Inherits(s, Bases(s.tasks))
    requires s.objs[o].kind == Mutex ==> Boosted(s, s.objs[o].owner.value, s.tasks[t].prio)
    ensures Core(Block(s, o, t, ticks))
  {
    hide Wf, WaitOk, ReadyOk, TickOk, OwnOk, Signals, Inherits, Boosted;
    BlockAgree(s, o, t, ticks);
    BlockSignals(s, o, t, ticks);
    BlockInherits(s, o, t, ticks);
  }

  /** The owner of a mutex is a live task. */
  lemma OwnerLive(s: Kernel, o: Oid)
    requires Agree(s) && o < |s.objs| && s.objs[o].kind == Mutex && s.objs[o].owner.Some?
    ensures s.objs[o].owner.value < |s.tasks| && s.tasks[s.objs[o].owner.value].Live()
    ensures s.objs[o].owner.value !in s.objs[o].waiters
  {
    assert ObjWf(s, s.objs[o]) && OwnerOk(s, s.objs[o]);
  }

  lemma MutexLockInv(s: Kernel, o: Oid, ticks: nat)
    requires Inv(s) && o < |s.objs| && s.active != IDLE
    ensures Inv(MutexLock(s, o, ticks).k)
  {
    hide Wf, WaitOk, ReadyOk, TickOk, OwnOk, Signals, Inherits, Boosted, Block, Resched;
    var a, b := s.active, s.objs[o];
    PrioBound(s, a);
    if b.kind == Mutex {
      if b.owner == Some(a) {
        ObjInv(s, o, b.(nested := b.nested + 1));
      } else if b.owner.None? {
        AcquireFree(s, o);
      } else if ticks != NO_WAIT && s.lock == 0 {
        OwnerLive(s, o);
        BoostReady(s, b.owner.value, a);
        var s1 := Boost(s, b.owner.value, s.tasks[a].prio);
        LockBlocks(s, s1, o, a, ticks);
        ReschedInv(Block(s1, o, a, ticks));
      }
    }
  }

  lemma PrioBound(s: Kernel, t: Tid)
    requires Wf(s) && t < |s.tasks|
    ensures s.tasks[t].prio < PRI_MAX
  {
    assert TaskWf(s, s.tasks[t]);
  }

  /** Counts, flags and depths may change if nobody is left waiting for what is there. */
  lemma ObjInv(s: Kernel, o: Oid, b: Obj)
    requires Inv(s) && o < |s.objs|
    requires b.kind == s.objs[o].kind && b.waiters == s.objs[o].waiters && b.owner == s.objs[o].owner
    requires SignalOk(s, b)
    ensures Inv(SetObj(s, o, b))
  {
    SameObjAgree(s, o, b);
    ObjSignals(s, SetObj(s, o, b), o);
    ObjTops(s, o, b);
    InheritsFrame(s, SetObj(s, o, b));
  }

  lemma ObjTops(s: Kernel, o: Oid, b: Obj)
    requires o < |s.objs|
    requires b.kind == s.objs[o].kind && b.waiters == s.objs[o].waiters && b.owner == s.objs[o].owner
    ensures forall t: Tid :: t < |s.tasks| ==> SameTops(s, SetObj(s, o, b), t)
  {}

  lemma ObjSignals(s: Kernel, s1: Kernel, o: Oid)
    requires Signals(s) && o < |s.objs| && |s1.objs| == |s.objs| && |s1.tasks| == |s.tasks|
    requires forall m :: 0 <= m < |s.objs| && m != o ==> s1.objs[m] == s.objs[m]
    requires forall t :: 0 <= t < |s.tasks| ==>
               s1.tasks[t].pendFlags == s.tasks[t].pendFlags && s1.tasks[t].pendAnd == s.tasks[t].pendAnd
    requires SignalOk(s1, s1.objs[o])
    ensures Signals(s1)
  {
    forall m | 0 <= m < |s1.objs| ensures SignalOk(s1, s1.objs[m]) {
      assert SignalOk(s, s.objs[m]);
    }
  }

  /** The caller becomes the owner of `o`. */
  function Acquire(s: Kernel, o: Oid, a: Tid): Kernel
    requires o < |s.objs| && a < |s.tasks|
  {
    SetTask(SetObj(s, o, s.objs[o].(owner := Some(a), nested := 1)), a, s.tasks[a].(held := [o] + s.tasks[a].held))
  }

  /** A free mutex is taken without waiting. */
  lemma AcquireFree(s: Kernel, o: Oid)
    requires Inv(s) && o < |s.objs| && s.objs[o].kind == Mutex && s.objs[o].owner.None? && s.active != IDLE
    ensures Inv(Acquire(s, o, s.active))
  {
    hide Wf, WaitOk, ReadyOk, TickOk, OwnOk;
    var s1 := Acquire(s, o, s.active);
    FreeHasNoWaiters(s, o);
    AcquireAgree(s, o, s.active);
    ObjSignals(s, s1, o);
    AcquireTops(s, o, s.active);
    InheritsFrame(s, s1);
  }

  lemma AcquireTops(s: Kernel, o: Oid, a: Tid)
    requires o < |s.objs| && a < |s.tasks| && s.objs[o].waiters == []
    ensures forall t: Tid :: t < |s.tasks| ==> SameTops(s, Acquire(s, o, a), t)
  {}

  /** An unowned mutex has no waiters. */
  lemma FreeHasNoWaiters(s: Kernel, o: Oid)
    requires Agree(s) && o < |s.objs| && s.objs[o].kind == Mutex
    ensures s.objs[o].owner.None? ==> s.objs[o].waiters == []
  {
    if s.objs[o].waiters != [] {
      var f := First(s, o);
      assert TaskWf(s, s.tasks[f]);
    }
  }

  lemma AcquireAgree(s: Kernel, o: Oid, a: Tid)
    requires Agree(s) && o < |s.objs| && s.objs[o].kind == Mutex && s.objs[o].owner.None?
    requires s.objs[o].waiters == [] && a < |s.tasks| && s.tasks[a].st == Rdy
    ensures Agree(Acquire(s, o, a))
  {
    hide Wf, WaitOk, ReadyOk, TickOk, OwnOk;
    AcquireWf(s, o, a);
    AcquireOwn(s, o, a);
    SameListsAgree(s, Acquire(s, o, a));
  }

  lemma AcquireWf(s: Kernel, o: Oid, a: Tid)
    requires Wf(s) && o < |s.objs| && s.objs[o].kind == Mutex && a < |s.tasks|
    ensures Wf(Acquire(s, o, a))
  {
    var s1 := Acquire(s, o, a);
    forall u | 0 <= u < |s1.tasks| ensures TaskWf(s1, s1.tasks[u]) {
      assert TaskWf(s, s.tasks[u]);
    }
    forall m | 0 <= m < |s1.objs| ensures ObjWf(s1, s1.objs[m]) {
      assert ObjWf(s, s.objs[m]);
    }
  }

  lemma AcquireOwn(s: Kernel, o: Oid, a: Tid)
    requires OwnOk(s) && o < |s.objs| && s.objs[o].kind == Mutex && s.objs[o].owner.None?
    requires s.objs[o].waiters == [] && a < |s.tasks| && s.tasks[a].st == Rdy
    ensures OwnOk(Acquire(s, o, a))
  {
    var s1 := Acquire(s, o, a);
    assert o !in s.tasks[a].held;
    NoDupCons(o, s.tasks[a].held);
    forall m | 0 <= m < |s1.objs| ensures OwnerOk(s1, s1.objs[m]) {
      assert OwnerOk(s, s.objs[m]);
    }
    forall t, m | 0 <= t < |s1.tasks| && s1.tasks[t].Live() && 0 <= m < |s1.objs|
      ensures m in s1.tasks[t].held <==> Owns(s1, t, m)
    {
      assert m in s.tasks[t].held <==> Owns(s, t, m);
    }
  }

  // -------------------------------------------------------------------- unlock

  lemma {:induction false} PriLimitFrame(s: Kernel, s1: Kernel, held: seq<Oid>, pri: nat)
    requires forall m :: m in held ==> (Waited(s1, m) <==> Waited(s, m))
    requires forall m :: m in held && Waited(s, m) && Waited(s1, m) ==> Top(s1, m) == Top(s, m)
    ensures PriLimit(s1, held, pri) == PriLimit(s, held, pri)
  {
    if held != [] {
      assert held[0] in held;
      PriLimitFrame(s, s1, held[1..], if Waited(s, held[0]) && Top(s, held[0]) < pri then Top(s, held[0]) else pri);
    }
  }

  /** Handing `m` over leaves the other mutexes' first waiters alone. */
  lemma PassOnTops(s: Kernel, t: Tid, m: Oid, nested: nat, u: Tid)
    requires Agree(s) && t < |s.tasks| && s.tasks[t].Live() && Owns(s, t, m)
    ensures SameTopsBut(s, PassOn(s, t, m, nested), u, m)
  {
    hide Wf, ReadyOk, TickOk, OwnOk;
    var r := PassOn(s, t, m, nested);
    PassOnShape(s, t, m, nested);
    assert forall o: Oid :: o < |s.objs| && s.objs[o].waiters != [] ==> s.objs[o].waiters[0] in s.objs[o].waiters;
    PassOnPrios(s, t, m, nested);
  }

  lemma PassOnPrios(s: Kernel, t: Tid, m: Oid, nested: nat)
    requires Agree(s) && t < |s.tasks| && s.tasks[t].Live() && Owns(s, t, m)
    ensures Prios(PassOn(s, t, m, nested).tasks) == Prios(s.tasks)
    ensures Bases(PassOn(s, t, m, nested).tasks) == Bases(s.tasks)
  {
    PassOnShape(s, t, m, nested);
  }

  /** The new owner was first in line, so the mutex gives it nothing to inherit. */
  lemma PassOnNewOwner(s: Kernel, t: Tid, m: Oid, nested: nat)
    requires Agree(s) && t < |s.tasks| && s.tasks[t].Live() && Owns(s, t, m) && s.objs[m].waiters != []
    requires IsLeast(s, Bases(s.tasks), First(s, m), s.tasks[First(s, m)].prio)
    ensures IsLeast(PassOn(s, t, m, nested), Bases(s.tasks), First(s, m), s.tasks[First(s, m)].prio)
  {
    hide ReadyOk, TickOk, OwnOk;
    var r, f := PassOn(s, t, m, nested), First(s, m);
    PassOnShape(s, t, m, nested);
    PassOnTops(s, t, m, nested, f);
    PassOnPrios(s, t, m, nested);
    if OwnsWaited(r, f, m) {
      var g := s.objs[m].waiters[1];
      assert g in s.objs[m].waiters && ObjWf(s, s.objs[m]);
      TopIsMin(s, m, g);
      assert Prios(r.tasks)[g] == Prios(s.tasks)[g];
    }
    OneMutex(s, r, Bases(s.tasks), f, m, s.tasks[f].prio);
  }

  /** Handing a mutex over keeps the equation of every task but the giver. */
  lemma PassOnInherits(s: Kernel, t: Tid, m: Oid, nested: nat)
    requires Agree(s) && t < |s.tasks| && s.tasks[t].Live() && Owns(s, t, m) && InheritsBut(s, t)
    ensures InheritsBut(PassOn(s, t, m, nested), t)
  {
    hide Wf, ReadyOk, TickOk, OwnOk;
    var r := PassOn(s, t, m, nested);
    PassOnShape(s, t, m, nested);
    PassOnPrios(s, t, m, nested);
    forall u | 0 <= u < |r.tasks| && r.tasks[u].Live() && u != t
      ensures IsLeast(r, Bases(r.tasks), u, r.tasks[u].prio)
    {
      if s.objs[m].waiters != [] && u == First(s, m) {
        PassOnNewOwner(s, t, m, nested);
      } else {
        PassOnTops(s, t, m, nested, u);
        assert SameTops(s, r, u);
        IsLeastFrame(s, r, Bases(s.tasks), u, s.tasks[u].prio);
      }
    }
  }

  lemma PassOnSignals(s: Kernel, t: Tid, m: Oid, nested: nat)
    requires Agree(s) && t < |s.tasks| && s.tasks[t].Live() && Owns(s, t, m) && Signals(s)
    ensures Signals(PassOn(s, t, m, nested))
  {
    hide WaitOk, ReadyOk, TickOk, OwnOk;
    PassOnShape(s, t, m, nested);
    PassOnWants(s, t, m, nested);
    ObjSignals(s, PassOn(s, t, m, nested), m);
  }

  lemma PassOnWants(s: Kernel, t: Tid, m: Oid, nested: nat)
    requires Agree(s) && t < |s.tasks| && s.tasks[t].Live() && Owns(s, t, m)
    ensures forall u :: 0 <= u < |s.tasks| ==>
              PassOn(s, t, m, nested).tasks[u].pendFlags == s.tasks[u].pendFlags &&
              PassOn(s, t, m, nested).tasks[u].pendAnd == s.tasks[u].pendAnd
  {
    DropHeldWait(s, t, m);
  }

  lemma PassOnIdle(s: Kernel, t: Tid, m: Oid, nested: nat)
    requires Agree(s) && t < |s.tasks| && s.tasks[t].Live() && Owns(s, t, m) && IdleOk(s)
    ensures t != IDLE && IdleOk(PassOn(s, t, m, nested))
    ensures PassOn(s, t, m, nested).active == s.active && PassOn(s, t, m, nested).lock == s.lock
  {
    hide ReadyOk, TickOk;
    PassOnShape(s, t, m, nested);
    PassOnPrios(s, t, m, nested);
    assert m in s.tasks[t].held;
    DropHeldWait(s, t, m);
    assert forall u :: 0 <= u < |s.tasks| ==>
      Bases(PassOn(s, t, m, nested).tasks)[u] == Bases(s.tasks)[u];
  }

  /** For the running task, releasing first and handing over afterwards, as the source does, ends
      in the same state as handing over first. */
  lemma UnlockOrder(s: Kernel, a: Tid, o: Oid, nested: nat)
    requires Agree(s) && a < |s.tasks| && s.tasks[a].st == Rdy && Owns(s, a, o) && a == s.active
    ensures Wf(DropHeld(s, a, o)) && WaitOk(DropHeld(s, a, o))
    ensures Wf(Release(DropHeld(s, a, o), a)) && WaitOk(Release(DropHeld(s, a, o), a))
    ensures Wf(PassOn(s, a, o, nested)) && a < |PassOn(s, a, o, nested).tasks|
    ensures Give(Release(DropHeld(s, a, o), a), o, nested) == Release(PassOn(s, a, o, nested), a)
  {
    var s0 := DropHeld(s, a, o);
    DropHeldLists(s, a, o);
    ReleaseReady(s0, a);
    PassOnAgree(s, a, o, nested);
    var b := PassOn(s, a, o, nested);
    ReleaseReady(b, a);
    PassOnShape(s, a, o, nested);
    SameLook(s, a, o, nested);
    var p := PriLook(s0, a);
    assert TaskWf(s0, s0.tasks[a]);
    if p != s0.tasks[a].prio {
      GiveCommutes(s0, a, o, nested, p);
    }
  }

  lemma SameLook(s: Kernel, a: Tid, o: Oid, nested: nat)
    requires Agree(s) && a < |s.tasks| && s.tasks[a].st == Rdy && Owns(s, a, o)
    ensures PriLook(PassOn(s, a, o, nested), a) == PriLook(DropHeld(s, a, o), a)
  {
    hide ReadyOk, TickOk;
    var s0, b := DropHeld(s, a, o), PassOn(s, a, o, nested);
    DropHeldWait(s, a, o);
    PassOnShape(s, a, o, nested);
    PassOnPrios(s, a, o, nested);
    WithoutNoDup(s.tasks[a].held, o);
    forall m | m in s0.tasks[a].held ensures Waited(b, m) <==> Waited(s0, m)
      ensures Waited(s0, m) && Waited(b, m) ==> Top(b, m) == Top(s0, m)
    {
      assert TaskWf(s0, s0.tasks[a]);
      assert m != o && b.objs[m] == s.objs[m];
      if Waited(s0, m) {
        assert Prios(b.tasks)[s.objs[m].waiters[0]] == Prios(s.tasks)[s.objs[m].waiters[0]];
      }
    }
    PriLimitFrame(s0, b, s0.tasks[a].held, s0.tasks[a].bprio);
  }

  /** Moving the ready task `a` to priority `p` and giving `o` away do not interfere. */
  lemma GiveCommutes(s: Kernel, a: Tid, o: Oid, nested: nat, p: nat)
    requires Wf(s) && WaitOk(s) && ReadyOk(s) && a < |s.tasks| && s.tasks[a].st == Rdy && p < PRI_MAX && o < |s.objs|
    requires a == s.active
    ensures Wf(SetPrio(s, a, p)) && WaitOk(SetPrio(s, a, p)) && Wf(Give(s, o, nested))
    ensures Give(SetPrio(s, a, p), o, nested) == SetPrio(Give(s, o, nested), a, p)
  {
    SetPrioWait(s, a, p);
    SetPrioWf(s, a, p);
    assert TaskWf(s, s.tasks[a]);
    if s.objs[o].waiters == [] {
      GiveFreeWf(s, o, nested);
    } else {
      GiveWf(s, o, nested);
      var f := First(s, o);
      assert TaskWf(s, s.tasks[f]);
      assert a in s.ready[s.tasks[a].prio];
      LanesCommute(s.ready, s.tasks[a].prio, p, s.tasks[f].prio, a, f);
      GiveCommutesReady(s, a, o, nested, p);
    }
  }

  /** The parts of `GiveCommutes` when there is a waiter. */
  lemma GiveCommutesReady(s: Kernel, a: Tid, o: Oid, nested: nat, p: nat)
    requires Wf(s) && WaitOk(s) && a < |s.tasks| && s.tasks[a].st == Rdy && p < PRI_MAX && o < |s.objs|
    requires Wf(SetPrio(s, a, p)) && WaitOk(SetPrio(s, a, p)) && s.objs[o].waiters != [] && Wf(Give(s, o, nested))
    requires a == s.active
    requires First(s, o) != a && s.tasks[First(s, o)].prio < PRI_MAX && s.tasks[a].prio < PRI_MAX
    requires AddTail(AddHead(Remove(s.ready, s.tasks[a].prio, a), p, a), s.tasks[First(s, o)].prio, First(s, o)) ==
             AddHead(Remove(AddTail(s.ready, s.tasks[First(s, o)].prio, First(s, o)), s.tasks[a].prio, a), p, a)
    ensures Give(SetPrio(s, a, p), o, nested) == SetPrio(Give(s, o, nested), a, p)
  {
    hide Wf, WaitOk;
    var f := First(s, o);
    var l, r := Give(SetPrio(s, a, p), o, nested), SetPrio(Give(s, o, nested), a, p);
    assert l.ready == r.ready;
    assert l.objs == r.objs;
    assert l.tasks == r.tasks;
  }

  lemma GiveFreeWf(s: Kernel, o: Oid, nested: nat)
    requires Wf(s) && WaitOk(s) && o < |s.objs| && s.objs[o].waiters == []
    ensures Wf(Give(s, o, nested))
  {
    var r := Give(s, o, nested);
    forall u | 0 <= u < |r.tasks| ensures TaskWf(r, r.tasks[u]) {
      assert TaskWf(s, s.tasks[u]);
      assert u in s.objs[o].waiters <==> s.tasks[u].blk == Some(o);
    }
    forall m | 0 <= m < |r.objs| ensures ObjWf(r, r.objs[m]) {
      assert ObjWf(s, s.objs[m]);
    }
  }

  /** Re-queuing the running task `a` at the head of its new list and appending the woken task
      `f` to its list commute. */
  lemma LanesCommute(q: Lanes, from: nat, to: nat, pf: nat, a: Tid, f: Tid)
    requires from < PRI_MAX && to < PRI_MAX && pf < PRI_MAX && a != f && a in q[from]
    ensures AddTail(AddHead(Remove(q, from, a), to, a), pf, f) ==
            AddHead(Remove(AddTail(q, pf, f), from, a), to, a)
  {
    WithoutSnoc(q[from], a, f);
    var l := AddTail(AddHead(Remove(q, from, a), to, a), pf, f);
    var r := AddHead(Remove(AddTail(q, pf, f), from, a), to, a);
    forall p | 0 <= p < PRI_MAX ensures l[p] == r[p] {
    }
  }

  lemma {:induction false} WithoutSnoc<T>(xs: seq<T>, x: T, y: T)
    requires x in xs
    ensures Without(xs + [y], x) == Without(xs, x) + [y]
  {
    var zs := xs + [y];
    assert zs[0] == xs[0] && zs[1..] == xs[1..] + [y];
    if xs[0] != x {
      WithoutSnoc(xs[1..], x, y);
      assert Without(zs, x) == [xs[0]] + Without(zs[1..], x);
      assert [xs[0]] + (Without(xs[1..], x) + [y]) == [xs[0]] + Without(xs[1..], x) + [y];
    } else {
      assert Without(zs, x) == zs[1..];
    }
  }

  /** The least value of the equation is unique. */
  lemma LeastUnique(s: Kernel, base: seq<nat>, t: Tid, p: nat, q: nat)
    requires t < |base| && IsLeast(s, base, t, p) && IsLeast(s, base, t, q)
    ensures p == q
  {}

  /** Releasing a mutex nobody waits for leaves the priority as it is. */
  lemma UnlockUncontended(s: Kernel, o: Oid, nested: nat)
    requires Inv(s) && o < |s.objs| && Owns(s, s.active, o) && s.objs[o].waiters == []
    ensures var b := PassOn(s, s.active, o, nested); Wf(b) && Release(b, s.active) == b
  {
    hide WaitOk, ReadyOk, TickOk;
    var a := s.active;
    PassOnAgree(s, a, o, nested);
    var b := PassOn(s, a, o, nested);
    PassOnShape(s, a, o, nested);
    PassOnTops(s, a, o, nested, a);
    PassOnPrios(s, a, o, nested);
    assert SameTops(s, b, a);
    IsLeastFrame(s, b, Bases(s.tasks), a, s.tasks[a].prio);
    PriLookIsLeast(b, a);
    LeastUnique(b, Bases(b.tasks), a, s.tasks[a].prio, PriLook(b, a));
  }

  /** The whole of `krhino_mutex_unlock` at nesting depth one, handing over first. */
  lemma UnlockCore(s: Kernel, o: Oid, nested: nat)
    requires Inv(s) && o < |s.objs| && Owns(s, s.active, o)
    ensures Wf(PassOn(s, s.active, o, nested))
    ensures var r := Release(PassOn(s, s.active, o, nested), s.active);
            Core(r) && r.active == s.active && r.lock == s.lock && r.tasks[s.active].st == Rdy
  {
    hide Wf, WaitOk, ReadyOk, TickOk, OwnOk, Signals, Inherits, Release, PassOn;
    var a := s.active;
    var b := PassOn(s, a, o, nested);
    PassOnAgree(s, a, o, nested);
    PassOnShape(s, a, o, nested);
    InheritsAll(s, a);
    PassOnInherits(s, a, o, nested);
    PassOnSignals(s, a, o, nested);
    PassOnIdle(s, a, o, nested);
    ReleaseInherits(b, a);
    OnlyPrioSignals(b, Release(b, a));
  }

  lemma InheritsAll(s: Kernel, t: Tid)
    requires Inherits(s, Bases(s.tasks))
    ensures InheritsBut(s, t)
  {}

  lemma MutexUnlockInv(s: Kernel, o: Oid)
    requires Inv(s) && o < |s.objs|
    ensures Inv(MutexUnlock(s, o).k)
  {
    hide Wf, WaitOk, ReadyOk, TickOk, OwnOk, Signals, Inherits, Resched, Give, Release, DropHeld, PassOn;
    var a, b := s.active, s.objs[o];
    if b.kind == Mutex && b.owner == Some(a) {
      if b.nested != 1 {
        ObjInv(s, o, b.(nested := if b.nested == 0 then MAX_COUNT else b.nested - 1));
      } else {
        var n := if b.waiters == [] then 0 else 1;
        UnlockOrder(s, a, o, n);
        UnlockCore(s, o, n);
        var r := Give(Release(DropHeld(s, a, o), a), o, n);
        if b.waiters == [] {
          UnlockUncontended(s, o, 0);
          PassOnReady(s, o, 0);
        } else {
          ReschedInv(r);
        }
      }
    }
  }

  lemma PassOnReady(s: Kernel, o: Oid, nested: nat)
    requires Agree(s) && s.active < |s.tasks| && o < |s.objs| && s.objs[o].waiters == []
    ensures PassOn(s, s.active, o, nested).ready == s.ready
  {
    DropHeldWait(s, s.active, o);
  }
}
