/** What the remaining kernel calls answer, and what they leave as it was. */
module KernelCalls {
  import opened Flags
  import opened Lists
  import opened ReadyQueue
  import opened KernelState
  import opened PriorityChain
  import opened KernelInv
  import opened KernelSteps
  import opened KernelProofs
  import opened MutexProofs
  import opened TaskProofs
  import opened KernelEffects

  // ------------------------------------------------------------ who is woken runs last

  /** Those of `ws` that become ready at priority `p`, in their order. */
  function Joining(s: Kernel, ws: seq<Tid>, p: nat): seq<Tid>
    requires AreTasks(s, ws)
  {
    if ws == [] then []
    else
      var k := s.tasks[ws[0]];
      (if k.st == Pend && k.prio == p then [ws[0]] else []) + Joining(s, ws[1..], p)
  }

  lemma {:induction false} SameJoining(s: Kernel, s1: Kernel, ws: seq<Tid>, p: nat)
    requires AreTasks(s, ws) && |s1.tasks| == |s.tasks| && forall i :: 0 <= i < |ws| ==> s1.tasks[ws[i]] == s.tasks[ws[i]]
    ensures AreTasks(s1, ws) && Joining(s1, ws, p) == Joining(s, ws, p)
  {
    if ws != [] { SameJoining(s, s1, ws[1..], p); }
  }

  /** Woken tasks line up behind the ready tasks of their priority, first come first served. */
  lemma {:induction false} WakeAllLanes(s: Kernel, o: Oid, why: WakeReason, p: nat)
    requires Agree(s) && o < |s.objs| && p < PRI_MAX
    ensures AreTasks(s, s.objs[o].waiters)
    ensures WakeAll(s, o, why).ready[p] == s.ready[p] + Joining(s, s.objs[o].waiters, p)
    decreases |s.objs[o].waiters|
  {
    hide Wf, WaitOk, ReadyOk, TickOk, OwnOk, Wake;
    var ws := s.objs[o].waiters;
    WaitersTasks(s, o);
    if ws != [] {
      var f := First(s, o);
      var s1 := Wake(s, f, why);
      WakeAgree(s, f, why);
      WakeFirst(s, o, why);
      WakeLane(s, f, why, p);
      WakeAllLanes(s1, o, why, p);
      forall i | 0 <= i < |ws| - 1 ensures s1.tasks[ws[1..][i]] == s.tasks[ws[1..][i]] {}
      SameJoining(s, s1, ws[1..], p);
    }
  }

  lemma WaitersTasks(s: Kernel, o: Oid)
    requires Agree(s) && o < |s.objs|
    ensures AreTasks(s, s.objs[o].waiters)
  {
    assert ObjWf(s, s.objs[o]);
    assert forall i :: 0 <= i < |s.objs[o].waiters| ==> s.objs[o].waiters[i] in s.objs[o].waiters;
  }

  lemma WakeLane(s: Kernel, t: Tid, why: WakeReason, p: nat)
    requires Wf(s) && t < |s.tasks| && s.tasks[t].Pending() && p < PRI_MAX
    ensures var k := s.tasks[t]; Wake(s, t, why).ready[p] == s.ready[p] + (if k.st == Pend && k.prio == p then [t] else [])
  {
    assert TaskWf(s, s.tasks[t]);
  }

  /** `krhino_sem_give` and `krhino_sem_give_all`; whom they wake is told by `SemGiveEffect`. */
  lemma GiveAnswer(s: Kernel, o: Oid, all: bool, p: nat)
    requires Inv(s) && o < |s.objs| && p < PRI_MAX
    ensures s.objs[o].kind != Sem ==> SemGive(s, o, all) == Outcome(s, TypeErr)
    ensures s.objs[o].kind == Sem ==> var ws := s.objs[o].waiters;
              AreTasks(s, ws) && SemGive(s, o, all).k.ready[p] == s.ready[p] + Joining(s, if all || ws == [] then ws else ws[..1], p)
  {
    hide Wf, WaitOk, ReadyOk, TickOk, OwnOk, Inherits, Resched, Wake, WakeAll;
    var ws := s.objs[o].waiters;
    WaitersTasks(s, o);
    if s.objs[o].kind == Sem && ws != [] {
      if all {
        WakeAllLanes(s, o, Finish, p);
        ReschedSame(WakeAll(s, o, Finish));
      } else {
        WakeLane(s, First(s, o), Finish, p);
        ReschedSame(Wake(s, First(s, o), Finish));
        assert ws[..1][1..] == [] && ws[..1][0] == First(s, o);
      }
    }
  }

  /** Those of `ws` whose condition holds in `cur` and who so become ready at priority `p`, in their order. */
  function Satisfied(s: Kernel, ws: seq<Tid>, cur: bv32, p: nat): seq<Tid>
    requires AreTasks(s, ws)
  {
    if ws == [] then []
    else
      var k := s.tasks[ws[0]];
      (if Matches(cur, k.pendFlags, k.pendAnd) && k.st == Pend && k.prio == p then [ws[0]] else []) + Satisfied(s, ws[1..], cur, p)
  }

  lemma {:induction false} SameSatisfied(s: Kernel, s1: Kernel, ws: seq<Tid>, cur: bv32, p: nat)
    requires AreTasks(s, ws) && |s1.tasks| == |s.tasks| && forall i :: 0 <= i < |ws| ==> s1.tasks[ws[i]] == s.tasks[ws[i]]
    ensures AreTasks(s1, ws) && Satisfied(s1, ws, cur, p) == Satisfied(s, ws, cur, p)
  {
    hide Matches;
    if ws != [] { SameSatisfied(s, s1, ws[1..], cur, p); }
  }

  /** ... and so do the waiters of an event that are satisfied. */
  lemma {:induction false} EventLanes(s: Kernel, o: Oid, ws: seq<Tid>, cur: bv32, p: nat)
    requires Agree(s) && o < |s.objs| && NoDup(ws) && AreTasks(s, ws) && p < PRI_MAX && forall t :: t in ws ==> t in s.objs[o].waiters
    ensures EventWake(s, o, ws, cur).ready[p] == s.ready[p] + Satisfied(s, ws, cur, p)
    decreases |ws|
  {
    hide Wf, WaitOk, ReadyOk, TickOk, OwnOk, Matches, EventWakeOne, ClearFlags, Without, WokenAs;
    if ws != [] {
      var t, tl := ws[0], ws[1..];
      WaiterOf(s, o, t);
      TailOf(s, ws);
      if Matches(cur, s.tasks[t].pendFlags, s.tasks[t].pendAnd) {
        EventLaneStep(s, o, ws, cur, p);
        EventLanes(EventWakeOne(s, o, t, cur), o, tl, cur, p);
      } else {
        EventLanes(s, o, tl, cur, p);
      }
    }
  }

  lemma EventLaneStep(s: Kernel, o: Oid, ws: seq<Tid>, cur: bv32, p: nat)
    requires Agree(s) && o < |s.objs| && NoDup(ws) && AreTasks(s, ws) && p < PRI_MAX && forall t :: t in ws ==> t in s.objs[o].waiters
    requires ws != [] && s.tasks[ws[0]].blk == Some(o) && s.tasks[ws[0]].Pending()
    ensures var s1, k := EventWakeOne(s, o, ws[0], cur), s.tasks[ws[0]];
            && Agree(s1) && AreTasks(s1, ws[1..]) && AreTasks(s, ws[1..]) && (forall t :: t in ws[1..] ==> t in s1.objs[o].waiters)
            && s1.ready[p] == s.ready[p] + (if k.st == Pend && k.prio == p then [ws[0]] else [])
            && Satisfied(s1, ws[1..], cur, p) == Satisfied(s, ws[1..], cur, p)
  {
    hide Wf, WaitOk, ReadyOk, TickOk, OwnOk, Matches, EventWakeOne, ClearFlags, Without, WokenAs, Satisfied;
    var t := ws[0];
    TailOf(s, ws);
    EventWakeOneAgree(s, o, t, cur);
    EventWakeOnly(s, o, t, cur);
    OneLane(s, o, t, cur, p);
    StillWait(s.objs[o].waiters, ws);
    SameSatisfied(s, EventWakeOne(s, o, t, cur), ws[1..], cur, p);
  }

  lemma StillWait(all: seq<Tid>, ws: seq<Tid>)
    requires ws != [] && ws[0] !in ws[1..] && forall t :: t in ws ==> t in all
    ensures forall t :: t in ws[1..] ==> t in Without(all, ws[0])
  {}

  lemma OneLane(s: Kernel, o: Oid, t: Tid, cur: bv32, p: nat)
    requires Wf(s) && o < |s.objs| && t < |s.tasks| && s.tasks[t].blk == Some(o) && s.tasks[t].Pending() && p < PRI_MAX
    ensures EventWakeOne(s, o, t, cur).ready[p] == s.ready[p] + (if s.tasks[t].st == Pend && s.tasks[t].prio == p then [t] else [])
  {
    hide Wf, Wake, ClearFlags;
    WakeLane(s, t, Finish, p);
  }

  // --------------------------------------------------------------- deleting an object

  /** The object is gone, its old owner does not list it any more, and everyone who waited for it has been
      woken and told so. Other tasks may have got another priority, if it was a mutex with an owner. */
  ghost predicate Gone(s: Kernel, r: Kernel, o: Oid) {
    && o < |s.objs| == |r.objs| && |r.tasks| == |s.tasks| && LessAlarms(s, r, s.objs[o].waiters)
    && var b, w := s.objs[o], if s.objs[o].kind == Mutex then s.objs[o].owner else None;
       && r.objs[o] == b.(kind := NoObj, flags := 0, waiters := [], link := r.objs[o].link)
       && (forall m :: 0 <= m < |s.objs| && m != o ==> SameButOrder(s.objs[m], r.objs[m]))
       && forall t :: 0 <= t < |s.tasks| ==>
            var k, k1 := s.tasks[t], r.tasks[t];
            && (w.None? ==> k1.prio == k.prio)
            && (if w == Some(t) then o !in k1.held && forall m :: m in k.held && m != o ==> m in k1.held else k1.held == k.held)
            && (if t in b.waiters then WokenAs(k.(held := k1.held, prio := k1.prio), k1, Del) else k1 == k.(held := k1.held, prio := k1.prio))
  }

  /** `krhino_mutex_del`, `krhino_sem_del`, `krhino_event_del` */
  lemma DelAnswer(s: Kernel, o: Oid, kind: Kind)
    requires Inv(s) && o < |s.objs|
    ensures var out := ObjDel(s, o, kind);
            if kind == NoObj || s.objs[o].kind != kind then out == Outcome(s, TypeErr)
            else out.status == Success && Gone(s, out.k, o)
  {
    hide Wf, WaitOk, ReadyOk, TickOk, OwnOk, Signals, Inherits, IdleOk, Resched, Release, WakeAll, Retire, Gone, Retired, AllWoken;
    var b := s.objs[o];
    if kind != NoObj && b.kind == kind {
      RetireAgree(s, o);
      IsRetired(s, o);
      var s1 := Retire(s, o);
      var s2 := s1;
      if b.kind == Mutex && b.owner.Some? {
        OwnerLive(s, o);
        s2 := Release(s1, b.owner.value);
        ReleaseAgree(s1, b.owner.value);
      } else {
        SameOnly(s1);
      }
      var r := WakeAll(s2, o, Del);
      WakeAllEffect(s2, o, Del);
      ReschedSame(r);
      IsGone(s, s1, s2, r, Resched(r), o);
    }
  }

  lemma SameOnly(s: Kernel)
    ensures OnlyPrio(s, s)
  {
    assert forall o :: 0 <= o < |s.objs| ==> SameButOrder(s.objs[o], s.objs[o]);
  }

  ghost predicate Retired(s: Kernel, r: Kernel, o: Oid) {
    && o < |s.objs| == |r.objs| && |r.tasks| == |s.tasks| && r == s.(tasks := r.tasks, objs := r.objs)
    && var b, w := s.objs[o], if s.objs[o].kind == Mutex then s.objs[o].owner else None;
       && r.objs[o] == b.(kind := NoObj, flags := 0, link := r.objs[o].link)
       && (forall m :: 0 <= m < |s.objs| && m != o ==> r.objs[m] == s.objs[m])
       && forall t :: 0 <= t < |s.tasks| ==>
            && r.tasks[t] == s.tasks[t].(held := r.tasks[t].held)
            && if w == Some(t) then o !in r.tasks[t].held && forall m :: m in s.tasks[t].held && m != o ==> m in r.tasks[t].held
               else r.tasks[t].held == s.tasks[t].held
  }

  lemma IsRetired(s: Kernel, o: Oid)
    requires Agree(s) && o < |s.objs|
    ensures Retired(s, Retire(s, o), o)
  {
    hide WaitOk, ReadyOk, TickOk, After;
    var b := s.objs[o];
    assert ObjWf(s, b);
    if b.kind == Mutex && b.owner.Some? {
      OwnerLive(s, o);
      HeldNoMore(s, b.owner.value, o);
    }
  }

  lemma IsGone(s: Kernel, s1: Kernel, s2: Kernel, r: Kernel, z: Kernel, o: Oid)
    requires Retired(s, s1, o) && OnlyPrio(s1, s2) && (s.objs[o].kind != Mutex || s.objs[o].owner == None ==> s2 == s1)
    requires AllWoken(s2, r, s2.objs[o].waiters, Del) && r.objs == s2.objs[o := s2.objs[o].(waiters := [])] && SameTables(r, z)
    ensures Gone(s, z, o)
  {
    hide WokenAs;
    assert SameButOrder(s1.objs[o], s2.objs[o]);
    forall m | 0 <= m < |s.objs| && m != o ensures SameButOrder(s.objs[m], z.objs[m]) { assert SameButOrder(s1.objs[m], s2.objs[m]); }
    forall t | 0 <= t < |s.tasks| && t in s.objs[o].waiters
      ensures WokenAs(s.tasks[t].(held := z.tasks[t].held, prio := z.tasks[t].prio), z.tasks[t], Del)
    {
      AlsoWoken(s.tasks[t], s1.tasks[t], s2.tasks[t], z.tasks[t]);
    }
    WokenKeep(s2, r, s2.objs[o].waiters);
  }

  lemma AlsoWoken(k: Task, k1: Task, k2: Task, z: Task)
    requires k1 == k.(held := k1.held) && k2 == k1.(prio := k2.prio) && WokenAs(k2, z, Del)
    ensures WokenAs(k.(held := z.held, prio := z.prio), z, Del) && z.held == k1.held && z.prio == k2.prio
  {}

  lemma WokenKeep(s: Kernel, r: Kernel, ws: seq<Tid>)
    requires AllWoken(s, r, ws, Del)
    ensures forall t :: 0 <= t < |s.tasks| ==> r.tasks[t].held == s.tasks[t].held && r.tasks[t].prio == s.tasks[t].prio
  {}

  // ---------------------------------------------------------------------- taking turns

  /** `krhino_task_yield`: the first of the caller's list becomes the last, and the next one runs. */
  lemma YieldAnswer(s: Kernel)
    requires Inv(s)
    ensures var out, p := TaskYield(s), s.tasks[s.active].prio;
            && out.status == Success && SameTables(s, out.k) && p < PRI_MAX && s.ready[p] != []
            && out.k.ready[p] == s.ready[p][1..] + [s.ready[p][0]]
            && (forall q :: 0 <= q < PRI_MAX && q != p ==> out.k.ready[q] == s.ready[q])
            && (s.lock > 0 ==> out.k.active == s.active)
            && (s.lock == 0 ==> s.active == s.ready[p][0] && out.k.active == out.k.ready[p][0])
  {
    hide WaitOk, TickOk, OwnOk, Signals, Inherits, IdleOk;
    assert TaskWf(s, s.tasks[s.active]);
    var p := s.tasks[s.active].prio;
    assert s.active in s.ready[p];
    if s.lock == 0 {
      assert Preferred(s.ready) in s.ready[Highest(s.ready, 0)];
      SameHighest(s.ready, s.ready[p := s.ready[p][1..] + [s.ready[p][0]]], p);
    }
  }

  lemma SameHighest(q: Lanes, q1: Lanes, p: nat)
    requires p < PRI_MAX && Highest(q, 0) == p && q1[p] != [] && forall k :: 0 <= k < p ==> q1[k] == q[k]
    ensures Highest(q1, 0) == p
  {}

  /** The state after `n` calls of `krhino_task_yield`, each by the task that runs. */
  ghost function Yields(s: Kernel, n: nat): (r: Kernel)
    requires Inv(s)
    ensures Inv(r)
  {
    if n == 0 then s
    else
      var s1 := Yields(s, n - 1);
      TaskYieldInv(s1);
      TaskYield(s1).k
  }

  /** Tasks of one priority that do nothing but yield run in turn. */
  lemma {:induction false} RoundRobin(s: Kernel, n: nat)
    requires Inv(s) && s.lock == 0
    ensures var r, p := Yields(s, n), s.tasks[s.active].prio;
            && p < PRI_MAX && s.ready[p] != [] && SameTables(s, r)
            && var lane, i := s.ready[p], n % |s.ready[p]|;
               r.active == lane[i] && r.ready[p] == lane[i..] + lane[..i]
    decreases n
  {
    hide Inv, TaskYield;
    YieldsFirst(s);
    var p := s.tasks[s.active].prio;
    var lane := s.ready[p];
    if n == 0 {
      assert lane[0..] + lane[..0] == lane;
    } else {
      RoundRobin(s, n - 1);
      var r := Yields(s, n - 1);
      TurnMember(s, r, p);
      YieldAnswer(r);
      Turn(lane, n - 1);
    }
  }

  lemma YieldsFirst(s: Kernel)
    requires Inv(s) && s.lock == 0
    ensures s.active < |s.tasks| && s.tasks[s.active].prio < PRI_MAX
    ensures s.ready[s.tasks[s.active].prio] != [] && s.ready[s.tasks[s.active].prio][0] == s.active
  {
    YieldAnswer(s);
  }

  lemma TurnMember(s: Kernel, r: Kernel, p: nat)
    requires Inv(s) && s.lock == 0 && SameTables(s, r) && p == s.tasks[s.active].prio < PRI_MAX && s.ready[p] != []
    requires r.active in s.ready[p]
    ensures r.active < |r.tasks| && r.tasks[r.active].prio == p
  {}

  lemma Turn(lane: seq<Tid>, n: nat)
    requires lane != []
    ensures var i, j := n % |lane|, (n + 1) % |lane|;
            var turned := lane[i..] + lane[..i];
            turned[1..] + [turned[0]] == lane[j..] + lane[..j] && lane[j] == (lane[j..] + lane[..j])[0]
  {
    var len := |lane|;
    var i, q := n % len, n / len;
    assert n == q * len + i;
    if i + 1 < len {
      assert n + 1 == q * len + (i + 1);
      Mod(n + 1, len, q, i + 1);
      assert lane[i..][1..] == lane[i + 1..] && lane[..i] + [lane[i]] == lane[..i + 1];
    } else {
      assert n + 1 == (q + 1) * len;
      Mod(n + 1, len, q + 1, 0);
      assert lane[i..] == [lane[i]] && lane[..i] + [lane[i]] == lane;
    }
  }

  lemma Mod(n: nat, len: nat, q: nat, i: nat)
    requires len > 0 && n == q * len + i && i < len
    ensures n % len == i
  {
    var d := n / len - q;
    assert n == (n / len) * len + n % len;
    assert d * len == i - n % len;
    NoMultiple(d, len);
  }

  lemma NoMultiple(d: int, len: nat)
    requires len > 0
    ensures 0 - len < d * len < len ==> d == 0
  {}

  // --------------------------------------------------------------------- suspending

  /** Only the task `t`, and the ready list that it left or joined, have changed. */
  ghost predicate OnlyTask(s: Kernel, r: Kernel, t: Tid, k: Task) {
    && t < |s.tasks| && s.tasks[t].prio < PRI_MAX
    && r.tasks == s.tasks[t := k] && r.objs == s.objs && r.ticks == s.ticks && r.now == s.now && r.lock == s.lock
    && (forall p :: 0 <= p < PRI_MAX && p != s.tasks[t].prio ==> r.ready[p] == s.ready[p])
    && var l, l1 := s.ready[s.tasks[t].prio], r.ready[s.tasks[t].prio];
       if s.tasks[t].st == Rdy && k.st != Rdy then l1 == Without(l, t)
       else if s.tasks[t].st != Rdy && k.st == Rdy then l1 == l + [t]
       else l1 == l
  }

  /** `krhino_task_suspend`, nested or not */
  lemma SuspendAnswer(s: Kernel, t: Tid)
    requires Inv(s) && t < |s.tasks|
    ensures var out, k := TaskSuspend(s, t), s.tasks[t];
            if k.prio == IDLE_PRI then out == Outcome(s, NotAllowed)
            else if t == s.active && s.lock > 0 then out == Outcome(s, SchedDisabled)
            else match k.st
              case Rdy => out.status == Success && OnlyTask(s, out.k, t, k.(st := Susp, susp := 1))
              case Sleep => out.status == Success && OnlyTask(s, out.k, t, k.(st := SleepSusp, susp := 1))
              case Pend => out.status == Success && OnlyTask(s, out.k, t, k.(st := PendSusp, susp := 1))
              case Deleted => out == Outcome(s, InvState)
              case _ => if k.susp == MAX_SUSPEND then out == Outcome(s, SuspendOvf)
                        else out.status == Success && OnlyTask(s, out.k, t, k.(susp := k.susp + 1))
  {
    hide Wf, WaitOk, ReadyOk, TickOk, OwnOk, Inherits, Signals, IdleOk, ActiveOk, Resched, Suspended, SuspendedAs, OnlyTask;
    var k := s.tasks[t];
    PrioBound(s, t);
    if k.prio != IDLE_PRI && !(t == s.active && s.lock > 0) {
      if CanSuspend(k) {
        if k.st == Rdy { NotTimed(s, t); }
        SuspendedIs(s, t);
        SuspendsTo(s, t);
        SuspendedOnly(s, Suspended(s, t), t);
        ReschedOnly(s, Suspended(s, t), t, Suspended(s, t).tasks[t]);
      } else if k.st != Deleted {
        Counted(s, t, k.susp + 1);
        ReschedOnly(s, WithSusp(s, t, k.susp + 1), t, k.(susp := k.susp + 1));
      }
    }
  }

  lemma SuspendedOnly(s: Kernel, r: Kernel, t: Tid)
    requires Wf(s) && t < |s.tasks| && s.tasks[t].prio < PRI_MAX && CanSuspend(s.tasks[t]) && SuspendedAs(s, r, t)
    ensures var st := if s.tasks[t].st == Rdy then Susp else if s.tasks[t].st == Sleep then SleepSusp else PendSusp;
            r.tasks[t] == s.tasks[t].(st := st, susp := 1) && OnlyTask(s, r, t, s.tasks[t].(st := st, susp := 1))
  {}

  lemma SuspendsTo(s: Kernel, t: Tid)
    requires Wf(s) && t < |s.tasks| && CanSuspend(s.tasks[t]) && s.tasks[t].prio != IDLE_PRI && !(t == s.active && s.lock > 0)
    ensures TaskSuspend(s, t) == Outcome(Resched(Suspended(s, t)), Success)
  {
    hide Move, Resched;
  }

  /** `krhino_task_resume`, nested or not. A suspended task has been suspended at least once; a count of
      zero would wrap. */
  lemma ResumeAnswer(s: Kernel, t: Tid)
    requires Inv(s) && t < |s.tasks|
    ensures var out, k := TaskResume(s, t), s.tasks[t]; var n := if k.susp == 0 then MAX_SUSPEND else k.susp - 1;
            match k.st
            case Rdy | Sleep | Pend => out == Outcome(s, NotSuspended)
            case Deleted => out == Outcome(s, InvState)
            case Susp => out.status == Success && OnlyTask(s, out.k, t, k.(susp := n, st := if n == 0 then Rdy else Susp))
            case SleepSusp => out.status == Success && OnlyTask(s, out.k, t, k.(susp := n, st := if n == 0 then Sleep else SleepSusp))
            case PendSusp => out.status == Success && OnlyTask(s, out.k, t, k.(susp := n, st := if n == 0 then Pend else PendSusp))
  {
    hide WaitOk, ReadyOk, TickOk, OwnOk, Inherits, Signals, IdleOk, ActiveOk, Resched, Move, OnlyTask;
    var k := s.tasks[t];
    var n := if k.susp == 0 then MAX_SUSPEND else k.susp - 1;
    var s1 := WithSusp(s, t, n);
    WithSuspWf(s, t, n);
    SuspFacts(s, t);
    Counted(s, t, n);
    ReschedOnly(s, s1, t, k.(susp := n));
    if k.st == Susp || k.st == SleepSusp || k.st == PendSusp {
      var st := if k.st == Susp then Rdy else if k.st == SleepSusp then Sleep else Pend;
      MovedBack(s, t, n, st);
      ReschedOnly(s, Move(s1, t, st, k.wake), t, k.(susp := n, st := st));
    }
  }

  lemma SuspFacts(s: Kernel, t: Tid)
    requires Agree(s) && t < |s.tasks|
    ensures s.tasks[t].blk.Some? <==> s.tasks[t].Pending()
    ensures s.tasks[t].prio < PRI_MAX && (s.tasks[t].st == Rdy || s.tasks[t].st == Susp ==> Without(s.ticks, t) == s.ticks)
  {
    assert TaskWf(s, s.tasks[t]);
  }

  lemma Counted(s: Kernel, t: Tid, n: nat)
    requires t < |s.tasks| && s.tasks[t].prio < PRI_MAX
    ensures OnlyTask(s, WithSusp(s, t, n), t, s.tasks[t].(susp := n))
  {}

  lemma MovedBack(s: Kernel, t: Tid, n: nat, st: TaskState)
    requires t < |s.tasks| && Wf(s) && Wf(WithSusp(s, t, n)) && s.tasks[t].prio < PRI_MAX && s.tasks[t].st != Rdy
    requires st == Rdy || st == Sleep || st == Pend
    requires s.tasks[t].blk.Some? ==> st == Pend
    requires st == Rdy ==> Without(s.ticks, t) == s.ticks
    ensures var k := s.tasks[t]; OnlyTask(s, Move(WithSusp(s, t, n), t, st, k.wake), t, k.(susp := n, st := st))
  {}

  lemma ReschedOnly(s: Kernel, r: Kernel, t: Tid, k: Task)
    requires OnlyTask(s, r, t, k)
    ensures OnlyTask(s, Resched(r), t, k)
  {}

  // ------------------------------------------------------ creating, deleting, aborting

  /** A task that has just been created: of this priority, with no object, no alarm and no history. */
  predicate Fresh(k: Task, prio: nat, autorun: bool) {
    && k.prio == prio && k.bprio == prio && k.blk == None && k.held == [] && k.stale == None && k.wake == Finish
    && (if autorun then k.st == Rdy && k.susp == 0 else k.st == Susp && k.susp == 1)
  }

  /** `task_create`: the new task is the last of its list, if it may run, and runs if it is the most urgent. */
  lemma NewTaskAnswer(s: Kernel, prio: nat, autorun: bool)
    requires Inv(s)
    ensures var out, t := TaskCreate(s, prio, autorun), |s.tasks|; var r := out.k;
            if prio >= PRI_MAX then out == Outcome(s, BeyondMaxPri)
            else if prio == IDLE_PRI then out == Outcome(s, IdleExists)
            else
              && out.status == Success && |r.tasks| == t + 1 && r.tasks[..t] == s.tasks && Fresh(r.tasks[t], prio, autorun)
              && r.objs == s.objs && r.ticks == s.ticks && r.now == s.now && r.lock == s.lock
              && (forall p :: 0 <= p < PRI_MAX ==> r.ready[p] == s.ready[p] + (if autorun && p == prio then [t] else []))
              && (s.lock > 0 || !autorun || prio >= s.tasks[s.active].prio ==> r.active == s.active)
              && (s.lock == 0 && autorun && prio < s.tasks[s.active].prio ==> r.active == t)
  {
    hide WaitOk, TickOk, OwnOk, Signals, Inherits, IdleOk;
    if prio < IDLE_PRI && autorun && s.lock == 0 {
      var q := AddTail(s.ready, prio, |s.tasks|);
      assert Preferred(s.ready) in s.ready[Highest(s.ready, 0)];
      if prio < s.tasks[s.active].prio {
        SameLanes(q, prio);
      } else {
        assert TaskWf(s, s.tasks[s.active]);
        SameHighest(s.ready, q, s.tasks[s.active].prio);
      }
    }
  }

  lemma SameLanes(q: Lanes, p: nat)
    requires p < PRI_MAX && q[p] != [] && forall k :: 0 <= k < p ==> q[k] == []
    ensures Highest(q, 0) == p
  {}

  /** `krhino_mutex_create`, `krhino_sem_create`, `krhino_event_create` */
  lemma NewObjAnswer(s: Kernel, kind: Kind, count: nat, flags: bv32)
    ensures var out, o := ObjCreate(s, kind, count, flags), |s.objs|; var r := out.k;
            && out.status == Success && r == s.(objs := r.objs) && |r.objs| == o + 1 && r.objs[..o] == s.objs
            && var b := r.objs[o];
               b.kind == kind && b.count == count && b.flags == flags && b.waiters == [] && b.owner == None && b.nested == 0
  {
    assert ObjCreate(s, kind, count, flags).k.objs[..|s.objs|] == s.objs;
  }

  /** `krhino_task_del`: whom it refuses. What it does is told by `TaskDelEffect` and `TaskDelHeir`. */
  lemma DeleteAnswer(s: Kernel, t: Tid)
    requires Inv(s) && t < |s.tasks|
    ensures var out := TaskDel(s, t);
            if s.tasks[t].prio == IDLE_PRI then out == Outcome(s, NotAllowed)
            else if t == s.active && s.lock > 0 then out == Outcome(s, SchedDisabled)
            else out.status == if s.tasks[t].Live() then Success else InvState
  {
    hide Wf, WaitOk, ReadyOk, TickOk, OwnOk, Inherits, Signals, IdleOk, Resched, Leave, FreeMutexes, FreeStale, StaleList;
  }

  /** The task is ready; priorities aside, nobody else has noticed. */
  ghost predicate MadeReady(s: Kernel, r: Kernel, t: Tid, why: WakeReason) {
    && t < |s.tasks| == |r.tasks| && |r.objs| == |s.objs| && LessAlarms(s, r, [t])
    && r.tasks[t] == s.tasks[t].(st := Rdy, blk := None, prio := r.tasks[t].prio, wake := why)
    && (forall u :: 0 <= u < |s.tasks| && u != t ==> r.tasks[u] == s.tasks[u].(prio := r.tasks[u].prio))
    && (forall o :: 0 <= o < |s.objs| ==> r.objs[o] == s.objs[o].(waiters := r.objs[o].waiters))
  }

  /** `krhino_task_wait_abort`: whatever the task waited for, it is ready, and knows why if it was waiting. */
  lemma AbortAnswer(s: Kernel, t: Tid)
    requires Inv(s) && t < |s.tasks|
    ensures var out, k := WaitAbort(s, t), s.tasks[t];
            if k.st == Deleted then out == Outcome(s, InvState)
            else
              && out.status == Success
              && MadeReady(s, out.k, t, if k.Pending() || k.Sleeping() then WakeReason.Abort else k.wake)
  {
    hide WaitOk, ReadyOk, TickOk, OwnOk, Inherits, Signals, IdleOk, Resched, Leave, Move, MadeReady, OnlyPrio;
    var k := s.tasks[t];
    assert TaskWf(s, k);
    if k.st == Rdy {
      NotTimed(s, t);
      ReschedSame(s);
      WasReady(s, Resched(s), t);
    } else if k.st == Susp {
      var m := Move(s, t, Rdy, k.wake);
      ReschedSame(m);
      SameOnly(m);
      IsReady(s, m, m, Resched(m), t, k.wake);
    } else if k.st != Deleted {
      var m, l := Move(s, t, Rdy, WakeReason.Abort), Leave(s, t, Rdy, WakeReason.Abort);
      LeaveAgree(s, t, Rdy, WakeReason.Abort);
      ReschedSame(l);
      IsReady(s, m, l, Resched(l), t, WakeReason.Abort);
    }
  }

  lemma WasReady(s: Kernel, r: Kernel, t: Tid)
    requires SameTables(s, r) && t < |s.tasks| && s.tasks[t].st == Rdy && s.tasks[t].blk == None && t !in s.ticks
    ensures MadeReady(s, r, t, s.tasks[t].wake)
  {}

  lemma IsReady(s: Kernel, m: Kernel, l: Kernel, z: Kernel, t: Tid, why: WakeReason)
    requires Wf(s) && TickOk(s) && t < |s.tasks| && m == Move(s, t, Rdy, why) && OnlyPrio(m, l) && SameTables(l, z)
    ensures MadeReady(s, z, t, why)
  {
    hide Wf, TickOk, Move;
    MoveIs(s, t, why);
    TickOnce(s, t);
    assert forall o :: 0 <= o < |s.objs| ==> SameButOrder(m.objs[o], l.objs[o]);
  }

  /** A task becomes ready. */
  lemma MoveIs(s: Kernel, t: Tid, why: WakeReason)
    requires Wf(s) && t < |s.tasks|
    ensures var r, k := Move(s, t, Rdy, why), s.tasks[t];
            && r.tasks == s.tasks[t := k.(st := Rdy, wake := why, blk := None)] && r.ticks == Without(s.ticks, t)
            && |r.objs| == |s.objs| && r.now == s.now && r.lock == s.lock
            && forall o :: 0 <= o < |s.objs| ==> r.objs[o] == s.objs[o].(waiters := r.objs[o].waiters)
  {
    assert TaskWf(s, s.tasks[t]);
  }
}
