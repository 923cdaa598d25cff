/** What is left of a task's mutex list after the task is deleted, and what a second deletion of the
    same task does with it. */
module KernelStale {
  import opened Flags
  import opened Lists
  import opened KernelState
  import opened PriorityChain
  import opened KernelLists
  import opened KernelInv
  import opened KernelSteps
  import opened KernelProofs
  import opened MutexProofs
  import opened CallProofs
  import opened TaskProofs

  /** A link leads to a mutex, or to one that has been deleted, or nowhere. */
  predicate LinkOk(s: Kernel, link: Option<Oid>) {
    link.Some? ==> link.value < |s.objs| && (s.objs[link.value].kind == Mutex || s.objs[link.value].kind == NoObj)
  }

  ghost predicate LinksOk(s: Kernel) {
    && (forall o :: 0 <= o < |s.objs| ==> LinkOk(s, s.objs[o].link))
    && (forall t :: 0 <= t < |s.tasks| ==> LinkOk(s, s.tasks[t].stale))
  }

  /** No mutex that the list of a dead task still reaches has an owner. */
  predicate Unreached(s: Kernel, t: Tid)
    requires t < |s.tasks|
  {
    forall x :: x in StaleList(s, s.tasks[t].stale, |s.objs|) ==> !Owned(s, x)
  }

  // ------------------------------------------------------------ what does no harm

  /** Without an owner there are no waiters. */
  lemma UnownedFree(s: Kernel, m: Oid)
    requires Inv(s) && m < |s.objs| && !Owned(s, m) && LinkOk(s, Some(m))
    ensures s.objs[m].waiters == [] && (s.objs[m].kind == Mutex ==> s.objs[m].owner == None)
  {
    hide WaitOk, ReadyOk, TickOk, OwnOk, Inherits;
    assert SignalOk(s, s.objs[m]) && ObjWf(s, s.objs[m]);
    if s.objs[m].kind == Mutex { FreeHasNoWaiters(s, m); }
  }

  /** Taking the owner from an object that nobody owns changes nothing that matters. */
  lemma ClearOwner(s: Kernel, m: Oid)
    requires Inv(s) && m < |s.objs| && !Owned(s, m) && LinkOk(s, Some(m))
    ensures StaleGive(s, m) == SetObj(s, m, s.objs[m].(owner := None)) && Inv(StaleGive(s, m))
  {
    hide WaitOk, ReadyOk, TickOk, OwnOk, Inherits;
    UnownedFree(s, m);
    var r := SetObj(s, m, s.objs[m].(owner := None));
    if s.objs[m].kind == Mutex {
      assert s.objs[m].(owner := None) == s.objs[m];
      assert r.objs == s.objs;
    } else {
      NoObjAgree(s, m);
      NoObjCore(s, m);
    }
  }

  lemma NoObjAgree(s: Kernel, m: Oid)
    requires Agree(s) && m < |s.objs| && s.objs[m].kind == NoObj
    ensures Agree(SetObj(s, m, s.objs[m].(owner := None)))
  {
    var r := SetObj(s, m, s.objs[m].(owner := None));
    SameListsAgree(s, r);
    forall u | 0 <= u < |r.tasks| ensures TaskWf(r, r.tasks[u]) {
      assert TaskWf(s, s.tasks[u]);
    }
    forall o | 0 <= o < |r.objs| ensures ObjWf(r, r.objs[o]) && OwnerOk(r, r.objs[o]) {
      assert ObjWf(s, s.objs[o]) && OwnerOk(s, s.objs[o]);
    }
    forall t, o | 0 <= t < |r.tasks| && r.tasks[t].Live() && 0 <= o < |r.objs|
      ensures o in r.tasks[t].held <==> Owns(r, t, o)
    {
      assert o in s.tasks[t].held <==> Owns(s, t, o);
    }
  }

  lemma NoObjCore(s: Kernel, m: Oid)
    requires Inv(s) && m < |s.objs| && s.objs[m].kind == NoObj && Agree(SetObj(s, m, s.objs[m].(owner := None)))
    ensures Inv(SetObj(s, m, s.objs[m].(owner := None)))
  {
    hide WaitOk, ReadyOk, TickOk, OwnOk, Inherits, Wf;
    var r := SetObj(s, m, s.objs[m].(owner := None));
    forall o | 0 <= o < |r.objs| ensures SignalOk(r, r.objs[o]) {
      assert SignalOk(s, s.objs[o]);
    }
    assert forall t: Tid :: t < |s.tasks| ==> SameTops(s, r, t);
    InheritsFrame(s, r);
  }

  // ------------------------------------------------------------ what does harm

  /** `p` is the start of the list. */
  ghost predicate Starts(p: seq<Oid>, held: seq<Oid>) {
    |p| <= |held| && held[..|p|] == p
  }

  lemma {:induction false} RelinkedStarts(p: seq<Oid>, held: seq<Oid>, x: Oid, tail: seq<Oid>)
    requires Starts(p, held) && x !in p
    ensures Starts(p, Relinked(held, x, tail))
  {
    if p != [] {
      assert held[0] == p[0] && held[1..][..|p| - 1] == p[1..];
      assert x !in p[1..];
      RelinkedStarts(p[1..], held[1..], x, tail);
      var r := Relinked(held[1..], x, tail);
      assert ([held[0]] + r)[..|p|] == [held[0]] + r[..|p| - 1];
    }
  }

  /** The list up to `m`, and the list from there on. */
  lemma {:induction false} SplitFrom(held: seq<Oid>, m: Oid) returns (p: seq<Oid>)
    requires m in held && NoDup(held)
    ensures From(held, m) != [] && From(held, m)[0] == m
    ensures m in p && held == p + From(held, m)[1..] && forall x :: x in From(held, m)[1..] ==> x !in p
    ensures forall tail :: Starts(p, Relinked(held, m, tail))
  {
    if held[0] == m {
      p := [m];
      assert held == [m] + held[1..];
      assert forall tail :: ([m] + tail)[..1] == [m];
    } else {
      assert NoDup(held[1..]);
      var q := SplitFrom(held[1..], m);
      p := [held[0]] + q;
      assert held[0] !in held[1..];
      forall tail ensures Starts(p, Relinked(held, m, tail)) {
        var r := Relinked(held[1..], m, tail);
        assert Starts(q, r);
        assert ([held[0]] + r)[..|p|] == [held[0]] + r[..|q|];
      }
    }
  }

  /** The live task `h` still lists `m` and does not own it. */
  ghost predicate Robbed(s: Kernel, h: Tid, m: Oid, p: seq<Oid>) {
    && h < |s.tasks| && m < |s.objs| && s.tasks[h].Live() && m in p && Starts(p, s.tasks[h].held)
    && !(s.objs[m].owner == Some(h))
  }

  /** What one turn does for a task that does not wait for this mutex. */
  lemma StaleGiveOther(s: Kernel, x: Oid, h: Tid)
    requires Listed(s) && x < |s.objs| && h < |s.tasks| && h !in s.objs[x].waiters
    ensures var r := StaleGive(s, x);
            && r.tasks[h].Live() == s.tasks[h].Live() && r.objs[x].owner != Some(h)
            && (forall o :: 0 <= o < |s.objs| && o != x ==> r.objs[o] == s.objs[o])
            && (r.tasks[h].held == s.tasks[h].held || exists tail :: r.tasks[h].held == Relinked(s.tasks[h].held, x, tail))
            && r.objs[x].kind == s.objs[x].kind && (forall t :: t in r.objs[x].waiters ==> t in s.objs[x].waiters)
  {
    hide WaitOk, ReadyOk, TickOk;
    if s.objs[x].waiters != [] {
      var f := First(s, x);
      assert f in s.objs[x].waiters && f != h;
      assert TaskWf(s, s.tasks[f]);
      assert StaleGive(s, x).tasks[h] == s.tasks[h].(held := Relinked(s.tasks[h].held, x, s.tasks[f].held));
    }
  }

  lemma {:induction false} StaysRobbed(s: Kernel, h: Tid, m: Oid, p: seq<Oid>, path: seq<Oid>)
    requires Listed(s) && Robbed(s, h, m, p)
    requires forall x :: x in path ==> x < |s.objs| && x !in p && h !in s.objs[x].waiters
    ensures Robbed(FreeStale(s, path), h, m, p) && FreeStale(s, path).objs[m] == s.objs[m]
    decreases |path|
  {
    hide Wf, WaitOk, ReadyOk, TickOk, StaleGive;
    if path != [] {
      var x := path[0];
      assert x in path && forall y :: y in path[1..] ==> y in path;
      var r := StaleGive(s, x);
      StaleGiveListed(s, x);
      StaleGiveOther(s, x, h);
      if r.tasks[h].held != s.tasks[h].held {
        var tail :| r.tasks[h].held == Relinked(s.tasks[h].held, x, tail);
        RelinkedStarts(p, s.tasks[h].held, x, tail);
      }
      StaysRobbed(r, h, m, p, path[1..]);
    }
  }

  /** The list of a dead task that reaches a mutex with an owner takes it from the owner. */
  lemma OwnerRobbed(s: Kernel, m: Oid) returns (h: Tid)
    requires Agree(s) && Owned(s, m)
    ensures h < |s.tasks| && s.objs[m].owner == Some(h) && s.tasks[h].Live()
    ensures forall x :: x in From(s.tasks[h].held, m) ==> x < |s.objs|
    ensures var r := FreeStale(s, From(s.tasks[h].held, m));
            && m in r.tasks[h].held && !Owns(r, h, m) && r.tasks[h].Live() && !Inv(r)
            && (s.objs[m].waiters == [] ==> r.objs[m] == s.objs[m].(owner := None))
  {
    hide Wf, WaitOk, ReadyOk, TickOk, StaleGive, Signals, Inherits, IdleOk, ActiveOk;
    h := s.objs[m].owner.value;
    OwnerLive(s, m);
    var held := s.tasks[h].held;
    assert m in held <==> Owns(s, h, m);
    var p := SplitFrom(held, m);
    var path := From(held, m);
    HeldOwned(s, h);
    assert forall x :: x in path[1..] ==> x in path && x in held;
    RobFirst(s, m, h, p, path);
    var s1 := StaleGive(s, m);
    StaysRobbed(s1, h, m, p, path[1..]);
    InStart(p, FreeStale(s1, path[1..]).tasks[h].held, m);
    NotAgree(FreeStale(s1, path[1..]), h, m);
  }

  /** Nobody waits for what it owns. */
  lemma HeldOwned(s: Kernel, h: Tid)
    requires Agree(s) && h < |s.tasks| && s.tasks[h].Live()
    ensures forall x :: x in s.tasks[h].held ==> x < |s.objs| && h !in s.objs[x].waiters
  {
    hide ReadyOk, TickOk, WaitOk;
    assert TaskWf(s, s.tasks[h]);
    forall x | x in s.tasks[h].held ensures x < |s.objs| && h !in s.objs[x].waiters {
      assert Owns(s, h, x);
      OwnerLive(s, x);
    }
  }

  /** The first turn takes `m` from its owner, whose list goes on up to `m`. */
  lemma RobFirst(s: Kernel, m: Oid, h: Tid, p: seq<Oid>, path: seq<Oid>)
    requires Listed(s) && m < |s.objs| && h < |s.tasks| && s.tasks[h].Live() && h !in s.objs[m].waiters && m in p
    requires path != [] && s.tasks[h].held == p + path[1..] && forall tail :: Starts(p, Relinked(s.tasks[h].held, m, tail))
    requires forall x :: x in path[1..] ==> x < |s.objs| && h !in s.objs[x].waiters
    ensures var s1 := StaleGive(s, m);
            && Listed(s1) && Robbed(s1, h, m, p) && |s1.objs| == |s.objs|
            && (forall x :: x in path[1..] ==> h !in s1.objs[x].waiters)
            && (s.objs[m].waiters == [] ==> s1.objs[m] == s.objs[m].(owner := None))
  {
    hide Wf, WaitOk, ReadyOk, TickOk, StaleGive;
    StaleGiveListed(s, m);
    StaleGiveOther(s, m, h);
    StaleGiveFree(s, m);
    StartsSelf(s.tasks[h].held, p, path);
  }

  lemma StaleGiveFree(s: Kernel, m: Oid)
    requires Listed(s) && m < |s.objs|
    ensures s.objs[m].waiters == [] ==> StaleGive(s, m).objs[m] == s.objs[m].(owner := None)
  {
    hide Wf, WaitOk, ReadyOk, TickOk;
  }

  lemma StartsSelf(held: seq<Oid>, p: seq<Oid>, path: seq<Oid>)
    requires path != [] && held == p + path[1..]
    ensures Starts(p, held)
  {}

  lemma InStart(p: seq<Oid>, held: seq<Oid>, m: Oid)
    requires Starts(p, held) && m in p
    ensures m in held
  {
    assert m in held[..|p|];
  }

  lemma NotAgree(s: Kernel, h: Tid, m: Oid)
    requires h < |s.tasks| && m < |s.objs| && s.tasks[h].Live() && m in s.tasks[h].held && s.objs[m].owner != Some(h)
    ensures !Owns(s, h, m) && !OwnOk(s) && !Inv(s)
  {}

  // -------------------------------------------------------------- the exact condition

  lemma {:induction false} StaleListSame(s: Kernel, s1: Kernel, head: Option<Oid>, n: nat)
    requires |s1.objs| == |s.objs| && s1.tasks == s.tasks
    requires forall o :: 0 <= o < |s.objs| ==> s1.objs[o].link == s.objs[o].link && Owned(s1, o) == Owned(s, o)
    requires forall o :: 0 <= o < |s.objs| && Owned(s, o) ==> s1.objs[o].owner == s.objs[o].owner
    ensures StaleList(s1, head, n) == StaleList(s, head, n)
    decreases n
  {
    if head.Some? && head.value < |s.objs| && n > 0 && !Owned(s, head.value) {
      StaleListSame(s, s1, s.objs[head.value].link, n - 1);
    }
  }

  /** Walking a stale list keeps the invariant iff it reaches no mutex that has an owner. */
  lemma {:induction false} FreeStaleIff(s: Kernel, head: Option<Oid>, n: nat)
    requires Inv(s) && LinksOk(s) && LinkOk(s, head)
    ensures forall x :: x in StaleList(s, head, n) ==> x < |s.objs|
    ensures Inv(FreeStale(s, StaleList(s, head, n))) <==> forall x :: x in StaleList(s, head, n) ==> !Owned(s, x)
    decreases n
  {
    hide Wf, WaitOk, ReadyOk, TickOk, OwnOk, Signals, Inherits, IdleOk, ActiveOk, StaleGive;
    StaleListWf(s, head, n);
    if head.Some? && n > 0 {
      var m := head.value;
      if Owned(s, m) {
        var h := OwnerRobbed(s, m);
        ListsIt(s, h, m);
      } else {
        ClearOwner(s, m);
        var s1, link := StaleGive(s, m), s.objs[m].link;
        assert LinkOk(s, link);
        assert LinksOk(s1);
        StaleListSame(s, s1, link, n - 1);
        FreeStaleIff(s1, link, n - 1);
        hide LinksOk, LinkOk, Owned, StaleList;
        FirstFreed(s, s1, m, StaleList(s, link, n - 1));
      }
    }
  }

  /** A mutex without owner at the front of the list does not matter. */
  lemma FirstFreed(s: Kernel, s1: Kernel, m: Oid, rest: seq<Oid>)
    requires Listed(s) && Listed(s1) && m < |s.objs| == |s1.objs| && s1 == StaleGive(s, m) && !Owned(s, m)
    requires forall x :: x in rest ==> x < |s.objs|
    requires s1 == SetObj(s, m, s.objs[m].(owner := None))
    ensures forall x :: x in [m] + rest ==> x < |s.objs|
    ensures FreeStale(s, [m] + rest) == FreeStale(s1, rest)
    ensures (forall x :: x in [m] + rest ==> !Owned(s, x)) <==> forall x :: x in rest ==> !Owned(s1, x)
  {
    hide Wf, WaitOk, ReadyOk, TickOk, StaleGive;
    assert ([m] + rest)[1..] == rest && ([m] + rest)[0] == m;
    forall x ensures x in [m] + rest <==> x == m || x in rest {}
    forall x | x in rest ensures Owned(s1, x) <==> Owned(s, x) { SameOwned(s, s1, m, x); }
  }

  lemma SameOwned(s: Kernel, s1: Kernel, m: Oid, x: Oid)
    requires m < |s.objs| && s1 == SetObj(s, m, s.objs[m].(owner := None)) && !Owned(s, m)
    ensures Owned(s1, x) <==> Owned(s, x)
  {}

  lemma StaleListWf(s: Kernel, head: Option<Oid>, n: nat)
    requires Inv(s)
    ensures Listed(s) && forall x :: x in StaleList(s, head, n) ==> x < |s.objs|
  {
    StaleListIn(s, head, n);
  }

  lemma ListsIt(s: Kernel, h: Tid, m: Oid)
    requires OwnOk(s) && Owned(s, m) && s.objs[m].owner == Some(h) && h < |s.tasks| && s.tasks[h].Live()
    ensures m in From(s.tasks[h].held, m)
  {
    assert m in s.tasks[h].held <==> Owns(s, h, m);
    var p := SplitFrom(s.tasks[h].held, m);
  }

  /** `krhino_task_del` keeps the invariant iff the task is alive, or is refused at once, or its stale
      mutex list reaches no mutex that has an owner. */
  lemma TaskDelIff(s: Kernel, t: Tid)
    requires Inv(s) && LinksOk(s) && t < |s.tasks|
    ensures Inv(TaskDel(s, t).k) <==> s.tasks[t].Live() || s.tasks[t].prio == IDLE_PRI || Unreached(s, t)
  {
    hide Wf, WaitOk, ReadyOk, TickOk, OwnOk, Signals, Inherits, Resched, Leave, FreeMutexes, FreeStale, StaleList;
    if s.tasks[t].Live() {
      TaskDelInv(s, t);
    } else {
      assert LinkOk(s, s.tasks[t].stale);
      FreeStaleIff(s, s.tasks[t].stale, |s.objs|);
    }
  }

  // --------------------------------------------------------------- the walk ends

  /** Among mutexes without owner, each one links to a mutex of higher rank: it was given up later. */
  ghost predicate Ranked(s: Kernel, rank: seq<nat>) {
    && |rank| == |s.objs|
    && forall o :: 0 <= o < |s.objs| ==> RankOk(s, rank, o)
  }

  ghost predicate RankOk(s: Kernel, rank: seq<nat>, o: Oid)
    requires o < |s.objs| == |rank|
  {
    var l := s.objs[o].link;
    !Owned(s, o) && l.Some? && l.value < |s.objs| && !Owned(s, l.value) ==> rank[o] < rank[l.value]
  }

  ghost predicate Linked(s: Kernel) {
    LinksOk(s) && exists rank :: Ranked(s, rank)
  }

  /** The walk from `head` meets a mutex with an owner, or the end of the list, within `n` links. */
  predicate Ends(s: Kernel, head: Option<Oid>, n: nat)
    decreases n
  {
    head.None? || head.value >= |s.objs| || (n > 0 && (Owned(s, head.value) || Ends(s, s.objs[head.value].link, n - 1)))
  }

  lemma {:induction false} WalkEnds(s: Kernel, rank: seq<nat>, seen: seq<Oid>, head: Option<Oid>, n: nat)
    requires Ranked(s, rank) && NoDup(seen) && |seen| + n == |s.objs|
    requires forall i :: 0 <= i < |seen| ==> seen[i] < |s.objs| && !Owned(s, seen[i])
    requires head.Some? && head.value < |s.objs| && !Owned(s, head.value) ==>
               forall i :: 0 <= i < |seen| ==> rank[seen[i]] < rank[head.value]
    ensures Ends(s, head, n)
    decreases n
  {
    if head.Some? && head.value < |s.objs| {
      var m := head.value;
      NoDupBound(seen + [m], |s.objs|);
      if !Owned(s, m) {
        assert RankOk(s, rank, m);
        WalkEnds(s, rank, seen + [m], s.objs[m].link, n - 1);
      }
    }
  }

  /** `task_mutex_free` ends, whatever the task. */
  lemma StaleWalkEnds(s: Kernel, t: Tid)
    requires Linked(s) && t < |s.tasks|
    ensures Ends(s, s.tasks[t].stale, |s.objs|)
  {
    var rank :| Ranked(s, rank);
    WalkEnds(s, rank, [], s.tasks[t].stale, |s.objs|);
  }

  // ------------------------------------------------------------ what keeps links

  ghost predicate LinkStays(s: Kernel, r: Kernel, o: Oid)
    requires o < |s.objs| <= |r.objs|
  {
    && r.objs[o].link == s.objs[o].link && (r.objs[o].kind == s.objs[o].kind || r.objs[o].kind == NoObj)
    && (Owned(s, o) ==> Owned(r, o))
  }

  /** No mutex loses its owner, and no link changes. */
  ghost predicate LinksStay(s: Kernel, r: Kernel) {
    && |s.tasks| <= |r.tasks| && |s.objs| <= |r.objs|
    && (forall o :: 0 <= o < |s.objs| ==> LinkStays(s, r, o))
    && (forall o :: |s.objs| <= o < |r.objs| ==> r.objs[o].link == None)
    && (forall t :: 0 <= t < |s.tasks| ==> r.tasks[t].stale == s.tasks[t].stale)
    && (forall t :: |s.tasks| <= t < |r.tasks| ==> r.tasks[t].stale == None)
  }

  lemma LinkedStays(s: Kernel, r: Kernel)
    requires Linked(s) && LinksStay(s, r)
    ensures Linked(r)
  {
    var rank :| Ranked(s, rank);
    var rank' := rank + seq(|r.objs| - |s.objs|, _ => 0);
    forall o | 0 <= o < |r.objs| ensures LinkOk(r, r.objs[o].link) && RankOk(r, rank', o) {
      if o < |s.objs| {
        assert LinkStays(s, r, o) && LinkOk(s, s.objs[o].link) && RankOk(s, rank, o);
        var l := s.objs[o].link;
        assert l.Some? ==> LinkStays(s, r, l.value);
      }
    }
    forall t | 0 <= t < |r.tasks| ensures LinkOk(r, r.tasks[t].stale) {
      if t < |s.tasks| {
        assert LinkOk(s, s.tasks[t].stale);
        assert s.tasks[t].stale.Some? ==> LinkStays(s, r, s.tasks[t].stale.value);
      }
    }
    assert Ranked(r, rank');
  }

  lemma LinksStayTrans(a: Kernel, b: Kernel, c: Kernel)
    requires LinksStay(a, b) && LinksStay(b, c) && |a.tasks| == |b.tasks| && |a.objs| == |b.objs|
    ensures LinksStay(a, c)
  {
    forall o | 0 <= o < |a.objs| ensures LinkStays(a, c, o) {
      assert LinkStays(a, b, o) && LinkStays(b, c, o);
    }
  }

  lemma OnlyPrioLinks(s: Kernel, r: Kernel)
    requires OnlyPrio(s, r)
    ensures LinksStay(s, r)
  {
    forall o | 0 <= o < |s.objs| ensures LinkStays(s, r, o) {
      assert SameButOrder(s.objs[o], r.objs[o]);
    }
  }

  lemma ReschedLinks(s: Kernel)
    ensures LinksStay(s, Resched(s))
  {}

  lemma MoveLinks(s: Kernel, t: Tid, st: TaskState, why: WakeReason)
    requires Wf(s) && t < |s.tasks|
    ensures LinksStay(s, Move(s, t, st, why))
  {
    assert TaskWf(s, s.tasks[t]);
  }

  lemma LeaveLinks(s: Kernel, t: Tid, st: TaskState, why: WakeReason)
    requires Agree(s) && CanMove(s, t, st)
    ensures LinksStay(s, Leave(s, t, st, why))
  {
    hide LinksStay, Leave;
    LeaveAgree(s, t, st, why);
    MoveLinks(s, t, st, why);
    OnlyPrioLinks(Move(s, t, st, why), Leave(s, t, st, why));
    LinksStayTrans(s, Move(s, t, st, why), Leave(s, t, st, why));
  }

  lemma BlockLinks(s: Kernel, o: Oid, t: Tid, ticks: nat)
    requires Wf(s) && TickOk(s) && CanBlock(s, o, t)
    ensures LinksStay(s, Block(s, o, t, ticks))
  {
    BlockOnly(s, o, t, ticks);
    hide Block;
  }

  lemma {:induction false} WakeAllLinks(s: Kernel, o: Oid, why: WakeReason)
    requires Agree(s) && o < |s.objs|
    ensures LinksStay(s, WakeAll(s, o, why))
    decreases |s.objs[o].waiters|
  {
    hide Wf, WaitOk, ReadyOk, TickOk, OwnOk, LinksStay, Wake;
    if s.objs[o].waiters == [] {
      SelfLinks(s);
    } else {
      var f := First(s, o);
      WakeAgree(s, f, why);
      WakeOneFrame(s, o, f, why);
      WakeLinks(s, f, why);
      WakeAllLinks(Wake(s, f, why), o, why);
      LinksStayTrans(s, Wake(s, f, why), WakeAll(s, o, why));
    }
  }

  lemma SelfLinks(s: Kernel)
    ensures LinksStay(s, s)
  {}

  lemma WakeLinks(s: Kernel, t: Tid, why: WakeReason)
    requires Wf(s) && t < |s.tasks|
    ensures LinksStay(s, Wake(s, t, why))
  {
    hide Move;
    MoveLinks(s, t, WakeState(s.tasks[t]), why);
  }

  lemma EventOneLinks(s: Kernel, o: Oid, t: Tid, cur: bv32)
    requires Wf(s) && o < |s.objs| && t < |s.tasks| && s.tasks[t].blk == Some(o)
    ensures LinksStay(s, EventWakeOne(s, o, t, cur))
  {
    hide ClearFlags;
    assert TaskWf(s, s.tasks[t]);
  }

  lemma {:induction false} EventLinks(s: Kernel, o: Oid, ws: seq<Tid>, cur: bv32)
    requires Agree(s) && o < |s.objs| && NoDup(ws) && forall t :: t in ws ==> t in s.objs[o].waiters
    ensures LinksStay(s, EventWake(s, o, ws, cur))
    decreases |ws|
  {
    hide ReadyOk, TickOk, OwnOk, LinksStay, Matches, EventWakeOne;
    if ws == [] {
      SelfLinks(s);
    } else {
      var t := ws[0];
      assert t in ws && t in s.objs[o].waiters && ObjWf(s, s.objs[o]) && TaskWf(s, s.tasks[t]);
      assert t !in ws[1..] && NoDup(ws[1..]) && forall u :: u in ws[1..] ==> u in ws;
      if Matches(cur, s.tasks[t].pendFlags, s.tasks[t].pendAnd) {
        EventWakeOneAgree(s, o, t, cur);
        EventOneLinks(s, o, t, cur);
        EventLinks(EventWakeOne(s, o, t, cur), o, ws[1..], cur);
        LinksStayTrans(s, EventWakeOne(s, o, t, cur), EventWake(s, o, ws, cur));
      } else {
        EventLinks(s, o, ws[1..], cur);
      }
    }
  }

  lemma {:induction false} ExpireLinks(s: Kernel)
    requires Core(s) && s.active < |s.tasks| && (s.lock > 0 ==> s.tasks[s.active].st == Rdy)
    ensures LinksStay(s, ExpireDue(s))
    decreases |s.ticks|
  {
    hide Wf, WaitOk, ReadyOk, OwnOk, Inherits, Signals, IdleOk, LinksStay, Leave, Due;
    SelfLinks(s);
    if s.ticks != [] {
      var t := s.ticks[0];
      assert t in s.ticks && t < |s.tasks|;
      if Due(s.tasks[t], s.now) {
        ExpireSettled(s, t);
        ExpireOneLinks(s, t);
        ExpireLinks(Expire(s, t));
        LinksStayTrans(s, Expire(s, t), ExpireDue(s));
      }
    }
  }

  lemma ExpireOneLinks(s: Kernel, t: Tid)
    requires Agree(s) && t in s.ticks && t < |s.tasks|
    ensures LinksStay(s, Expire(s, t)) && |Expire(s, t).tasks| == |s.tasks| && |Expire(s, t).objs| == |s.objs|
  {
    assert TaskWf(s, s.tasks[t]);
    hide WaitOk, ReadyOk, OwnOk, LinksStay, Leave;
    var rdy := s.tasks[t].st == Sleep || s.tasks[t].st == Pend;
    LeaveLinks(s, t, if rdy then Rdy else Susp, if s.tasks[t].Sleeping() then Finish else Timeout);
  }

  // -------------------------------------------------------- what makes stale links

  function MaxOf(xs: seq<nat>): (r: nat)
    ensures forall i :: 0 <= i < |xs| ==> xs[i] <= r
  {
    if xs == [] then 0
    else
      var n := |xs| - 1;
      var r := MaxOf(xs[..n]);
      assert forall i :: 0 <= i < n ==> xs[i] == xs[..n][i];
      if xs[n] > r then xs[n] else r
  }

  /** A mutex that is given up links to one that still has an owner: it ranks above all others. */
  lemma LinkedBut(s: Kernel, r: Kernel, m: Oid)
    requires Linked(s) && |r.tasks| == |s.tasks| && |r.objs| == |s.objs| && m < |s.objs|
    requires forall o :: 0 <= o < |s.objs| && o != m ==> LinkStays(s, r, o)
    requires forall t :: 0 <= t < |s.tasks| ==> r.tasks[t].stale == s.tasks[t].stale
    requires r.objs[m].kind == s.objs[m].kind || r.objs[m].kind == NoObj
    requires var l := r.objs[m].link; l.Some? ==> l.value < |r.objs| && l.value != m && Owned(r, l.value)
    ensures Linked(r)
  {
    var rank :| Ranked(s, rank);
    var rank' := rank[m := MaxOf(rank) + 1];
    forall o | 0 <= o < |r.objs| ensures LinkOk(r, r.objs[o].link) && RankOk(r, rank', o) {
      if o != m {
        assert LinkStays(s, r, o) && LinkOk(s, s.objs[o].link) && RankOk(s, rank, o);
        var l := s.objs[o].link;
        assert l.Some? && l.value != m ==> LinkStays(s, r, l.value);
      }
    }
    forall t | 0 <= t < |r.tasks| ensures LinkOk(r, r.tasks[t].stale) {
      var l := s.tasks[t].stale;
      assert LinkOk(s, l);
      assert l.Some? && l.value != m ==> LinkStays(s, r, l.value);
    }
    assert Ranked(r, rank');
  }

  lemma {:induction false} AfterIn(held: seq<Oid>, m: Oid)
    ensures After(held, m).Some? ==> After(held, m).value in held
    ensures NoDup(held) ==> After(held, m) != Some(m)
  {
    if held != [] {
      AfterIn(held[1..], m);
      if NoDup(held) {
        assert NoDup(held[1..]) && held[0] !in held[1..];
        assert held[1..] != [] ==> held[1] in held[1..];
      }
    }
  }

  lemma PassOnLinked(s: Kernel, t: Tid, m: Oid, nested: nat)
    requires Agree(s) && Linked(s) && t < |s.tasks| && s.tasks[t].Live() && Owns(s, t, m)
    ensures Linked(PassOn(s, t, m, nested))
  {
    hide ReadyOk, TickOk, Linked, After;
    var r, held := PassOn(s, t, m, nested), s.tasks[t].held;
    AfterOwned(s, t, m);
    PassOnShape(s, t, m, nested);
    PassOnRest(s, t, m, nested);
    var l := After(held, m);
    assert l.Some? ==> r.objs[l.value] == s.objs[l.value];
    LinkedBut(s, r, m);
  }

  /** In the list of a live task a mutex is followed by another one that the task owns. */
  lemma AfterOwned(s: Kernel, t: Tid, m: Oid)
    requires Wf(s) && OwnOk(s) && t < |s.tasks| && s.tasks[t].Live()
    ensures var l := After(s.tasks[t].held, m); l.Some? ==> l.value < |s.objs| && l.value != m && Owns(s, t, l.value)
  {
    AfterIn(s.tasks[t].held, m);
    assert TaskWf(s, s.tasks[t]);
    var l := After(s.tasks[t].held, m);
    if l.Some? { assert l.value in s.tasks[t].held <==> Owns(s, t, l.value); }
  }

  lemma PassOnRest(s: Kernel, t: Tid, m: Oid, nested: nat)
    requires Agree(s) && t < |s.tasks| && s.tasks[t].Live() && Owns(s, t, m)
    ensures PassOn(s, t, m, nested).objs[m].link == After(s.tasks[t].held, m)
    ensures forall u :: 0 <= u < |s.tasks| ==> PassOn(s, t, m, nested).tasks[u].stale == s.tasks[u].stale
  {
    hide ReadyOk, TickOk, OwnOk, After, Without;
    HasIt(s, t, m);
    DropHeldWait(s, t, m);
  }

  lemma HasIt(s: Kernel, t: Tid, m: Oid)
    requires OwnOk(s) && t < |s.tasks| && s.tasks[t].Live() && Owns(s, t, m)
    ensures m in s.tasks[t].held
  {
    assert m in s.tasks[t].held <==> Owns(s, t, m);
  }

  lemma {:induction false} FreeMutexesLinked(s: Kernel, t: Tid)
    requires Agree(s) && Linked(s) && t < |s.tasks| && s.tasks[t].Live()
    ensures Linked(FreeMutexes(s, t))
    decreases |s.tasks[t].held|
  {
    hide WaitOk, ReadyOk, TickOk, PassOn, Linked;
    var held := s.tasks[t].held;
    if held != [] {
      var m := held[0];
      assert m in held && TaskWf(s, s.tasks[t]) && Owns(s, t, m);
      PassOnAgree(s, t, m, s.objs[m].nested);
      PassOnLinked(s, t, m, s.objs[m].nested);
      FreeMutexesLinked(PassOn(s, t, m, s.objs[m].nested), t);
    }
  }

  lemma RetireLinked(s: Kernel, o: Oid)
    requires Agree(s) && Linked(s) && o < |s.objs|
    ensures Linked(Retire(s, o))
  {
    hide WaitOk, ReadyOk, TickOk, Linked, After;
    var r, b := Retire(s, o), s.objs[o];
    if b.kind == Mutex && b.owner.Some? {
      OwnerLive(s, o);
      AfterOwned(s, b.owner.value, o);
      LinkedBut(s, r, o);
    } else {
      LinkedStays(s, r);
    }
  }

  lemma WithStaleLinked(s: Kernel, t: Tid)
    requires Agree(s) && Linked(s) && t < |s.tasks| && s.tasks[t].Live()
    ensures Linked(WithStale(s, t))
  {
    hide WaitOk, ReadyOk, TickOk;
    var r, held := WithStale(s, t), s.tasks[t].held;
    var rank :| Ranked(s, rank);
    if held != [] { assert held[0] in held && TaskWf(s, s.tasks[t]) && Owns(s, t, held[0]); }
    forall o | 0 <= o < |r.objs| ensures LinkOk(r, r.objs[o].link) && RankOk(r, rank, o) {
      assert LinkOk(s, s.objs[o].link) && RankOk(s, rank, o);
    }
    forall u | 0 <= u < |r.tasks| ensures LinkOk(r, r.tasks[u].stale) {
      assert LinkOk(s, s.tasks[u].stale);
    }
    assert Ranked(r, rank);
  }

  /** A walk that reaches no mutex with an owner changes no link. */
  lemma {:induction false} FreeStaleLinks(s: Kernel, path: seq<Oid>)
    requires Inv(s) && LinksOk(s) && forall x :: x in path ==> x < |s.objs| && !Owned(s, x) && LinkOk(s, Some(x))
    ensures Listed(s) && LinksStay(s, FreeStale(s, path))
    decreases |path|
  {
    hide Wf, WaitOk, ReadyOk, TickOk, OwnOk, Signals, Inherits, StaleGive, LinksStay;
    SelfLinks(s);
    if path != [] {
      var m := path[0];
      assert m in path && forall x :: x in path[1..] ==> x in path;
      ClearOwner(s, m);
      var s1 := StaleGive(s, m);
      ClearLinks(s, m);
      FreeStaleLinks(s1, path[1..]);
      LinksStayTrans(s, s1, FreeStale(s, path));
    }
  }

  lemma ClearLinks(s: Kernel, m: Oid)
    requires m < |s.objs| && !Owned(s, m) && LinksOk(s)
    ensures var r := SetObj(s, m, s.objs[m].(owner := None)); LinksStay(s, r) && LinksOk(r)
  {
    var r := SetObj(s, m, s.objs[m].(owner := None));
    forall o | 0 <= o < |r.objs| ensures LinkOk(r, r.objs[o].link) {
      assert LinkOk(s, s.objs[o].link);
    }
    forall t | 0 <= t < |r.tasks| ensures LinkOk(r, r.tasks[t].stale) {
      assert LinkOk(s, s.tasks[t].stale);
    }
  }

  /** Every mutex on a stale walk is a mutex, or was one. */
  lemma {:induction false} StaleKinds(s: Kernel, head: Option<Oid>, n: nat)
    requires LinksOk(s) && LinkOk(s, head)
    ensures (forall x :: x in StaleList(s, head, n) ==> !Owned(s, x)) ==>
              forall x :: x in StaleList(s, head, n) ==> x < |s.objs| && LinkOk(s, Some(x))
    decreases n
  {
    if head.Some? && n > 0 && !Owned(s, head.value) {
      assert LinkOk(s, s.objs[head.value].link);
      StaleKinds(s, s.objs[head.value].link, n - 1);
      assert forall x :: x in StaleList(s, head, n) <==> x == head.value || x in StaleList(s, s.objs[head.value].link, n - 1);
    } else if head.Some? && n > 0 {
      FromHead(s.tasks[s.objs[head.value].owner.value].held, head.value);
    }
  }

  lemma {:induction false} FromHead(held: seq<Oid>, m: Oid)
    ensures From(held, m) != [] ==> From(held, m)[0] == m
    ensures From(held, m) != [] ==> m in From(held, m)
  {
    if held != [] && held[0] != m { FromHead(held[1..], m); }
  }
}
