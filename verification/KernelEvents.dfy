/** Event flags, bit by bit. */
module KernelEvents {
  import opened Flags
  import opened KernelState
  import opened PriorityChain
  import opened KernelInv
  import opened KernelSteps
  import opened CallProofs
  import opened KernelEffects

  /** The caller is told the flags as they were; with `clear` exactly those it asked for are gone. */
  ghost predicate Took(s: Kernel, r: Kernel, o: Oid, flags: bv32, clear: bool) {
    && o < |s.objs| == |r.objs| && s.active < |s.tasks|
    && var a, b, b1 := s.active, s.objs[o], r.objs[o];
       && r == s.(tasks := s.tasks[a := s.tasks[a].(got := b.flags)], objs := s.objs[o := b.(flags := b1.flags)])
       && forall c :: Single(c) ==> (On(b1.flags, c) <==> On(b.flags, c) && !(clear && On(flags, c)))
  }

  /** `krhino_event_get` that finds what it asks for. */
  lemma GetEffect(s: Kernel, o: Oid, flags: bv32, all: bool, clear: bool, ticks: nat)
    requires Inv(s) && o < |s.objs| && s.objs[o].kind == Event && Matches(s.objs[o].flags, flags, all)
    ensures EventGet(s, o, flags, all, clear, ticks).status == Success
    ensures Took(s, EventGet(s, o, flags, all, clear, ticks).k, o, flags, clear)
  {
    hide Wf, WaitOk, ReadyOk, TickOk, OwnOk, Signals, Inherits, Resched, Matches, Single, On, ClearFlags;
    FlagBits(s.objs[o].flags, flags);
  }

  /** What has been taken with `clear` cannot be taken once more; what has been left can. */
  lemma GetTwice(s: Kernel, o: Oid, flags: bv32, all: bool, clear: bool, ticks: nat)
    requires Inv(s) && o < |s.objs| && s.objs[o].kind == Event && Matches(s.objs[o].flags, flags, all)
    ensures var s1 := EventGet(s, o, flags, all, clear, ticks).k;
            && Inv(s1)
            && (clear && flags != 0 ==> EventGet(s1, o, flags, all, clear, NO_WAIT) == Outcome(s1, NoPendWait))
            && (!clear ==> EventGet(s1, o, flags, all, clear, NO_WAIT) == Outcome(s1, Success))
  {
    hide Wf, WaitOk, ReadyOk, TickOk, OwnOk, Signals, IdleOk, Inherits, Resched, Matches, ClearFlags;
    var f := s.objs[o].flags;
    var s1 := EventGet(s, o, flags, all, clear, ticks).k;
    EventTake(s, o, f, if clear then ClearFlags(f, flags) else f, flags);
    if flags != 0 { ClearedNoMatch(f, flags, all); }
    if !clear {
      assert s1.tasks[s.active := s1.tasks[s.active].(got := f)] == s1.tasks;
      assert s1.objs[o := s1.objs[o].(flags := f)] == s1.objs;
    }
  }

  /** Some waiter of `ws` whose condition `cur` meets has asked for the bit to be cleared. */
  ghost predicate Claimed(s: Kernel, ws: seq<Tid>, cur: bv32, c: bv32)
    requires AreTasks(s, ws)
  {
    exists i :: 0 <= i < |ws| && Claims(s.tasks[ws[i]], cur, c)
  }

  predicate Claims(k: Task, cur: bv32, c: bv32) {
    Matches(cur, k.pendFlags, k.pendAnd) && k.pendClear && On(k.pendFlags, c)
  }

  lemma {:induction false} ClearsBit(s: Kernel, ws: seq<Tid>, cur: bv32, c: bv32)
    requires AreTasks(s, ws) && Single(c)
    ensures On(Clears(s, ws, cur), c) <==> Claimed(s, ws, cur, c)
  {
    hide Matches, Single, On, AddFlags, Claims;
    NoBit(c);
    if ws != [] {
      var k, tl := s.tasks[ws[0]], ws[1..];
      ClearsBit(s, tl, cur, c);
      FirstClaims(k, cur, Clears(s, tl, cur), c);
      if i :| 0 <= i < |ws| && Claims(s.tasks[ws[i]], cur, c) { assert i > 0 ==> tl[i - 1] == ws[i]; }
      if i :| 0 <= i < |tl| && Claims(s.tasks[tl[i]], cur, c) { assert ws[i + 1] == tl[i]; }
    }
  }

  lemma FirstClaims(k: Task, cur: bv32, rest: bv32, c: bv32)
    ensures On(AddFlags(if Matches(cur, k.pendFlags, k.pendAnd) && k.pendClear then k.pendFlags else 0, rest), c) <==>
              Claims(k, cur, c) || On(rest, c)
  {
    hide Matches, Single, On, AddFlags;
    NoBit(c);
    AddBit(if Matches(cur, k.pendFlags, k.pendAnd) && k.pendClear then k.pendFlags else 0, rest, c);
  }

  /** `krhino_event_set`, bit by bit: OR adds flags, wakes who is satisfied, and then clears what those asked
      for; AND keeps the flags it names, and wakes nobody. */
  lemma SetBits(s: Kernel, o: Oid, flags: bv32, keep: bool)
    requires Inv(s) && o < |s.objs| && s.objs[o].kind == Event
    ensures var out, ws, old', cur := EventSet(s, o, flags, keep), s.objs[o].waiters, s.objs[o].flags, AddFlags(s.objs[o].flags, flags);
            && out.status == Success && |out.k.objs| == |s.objs| && AreTasks(s, ws)
            && (forall c :: Single(c) ==> (On(cur, c) <==> On(old', c) || On(flags, c)))
            && (forall c :: Single(c) ==>
                 (On(out.k.objs[o].flags, c) <==>
                   if keep then On(old', c) && On(flags, c)
                   else (On(old', c) || On(flags, c)) && !Claimed(s, ws, cur, c)))
            && (if keep then out.k == s.(objs := s.objs[o := s.objs[o].(flags := out.k.objs[o].flags)]) else Told(s, out.k, ws, cur))
  {
    hide Wf, WaitOk, ReadyOk, TickOk, OwnOk, Signals, Inherits, Resched, Matches, Single, On, EventWake, Told, Claimed, AreTasks;
    hide ClearFlags, KeepFlags, AddFlags, Clears;
    var ws, f, cur := s.objs[o].waiters, s.objs[o].flags, AddFlags(s.objs[o].flags, flags);
    EventSetEffect(s, o, flags);
    FlagBits(f, flags);
    if !keep {
      FlagBits(cur, Clears(s, ws, cur));
      forall c | Single(c) ensures On(Clears(s, ws, cur), c) <==> Claimed(s, ws, cur, c) { ClearsBit(s, ws, cur, c); }
    }
  }
}
