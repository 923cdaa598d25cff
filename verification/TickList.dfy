/** The tick list of k_tick.c under wrap-around of the 64-bit tick count. */
module TickList {
  import opened Lists
  import opened KernelState

  /** The test of `tick_list_update`: the difference, as a signed number, is not positive. */
  predicate Late(expires: nat, now: nat) {
    !(0 < Remaining(expires, now) <= MAX_TICKS)
  }

  /** The difference of two tick counts is that of the times, if it is small enough. */
  lemma RemainingIs(deadline: nat, time: nat)
    requires time <= deadline < time + TICK_RANGE
    ensures Remaining(deadline % TICK_RANGE, time % TICK_RANGE) == deadline - time
  {
    WrapDiff(deadline, time);
  }

  lemma WrapDiff(a: nat, b: nat)
    ensures (a % TICK_RANGE - b % TICK_RANGE) % TICK_RANGE == (a - b) % TICK_RANGE
  {
    var qa, qb := a / TICK_RANGE, b / TICK_RANGE;
    assert a - b == (a % TICK_RANGE - b % TICK_RANGE) + (qa - qb) * TICK_RANGE;
    WrapAdd(a % TICK_RANGE - b % TICK_RANGE, qa - qb);
  }

  lemma {:induction false} WrapAdd(x: int, k: int)
    ensures (x + k * TICK_RANGE) % TICK_RANGE == x % TICK_RANGE
    decreases if k < 0 then -k else k
  {
    if k > 0 {
      WrapAdd(x, k - 1);
      assert x + k * TICK_RANGE == (x + (k - 1) * TICK_RANGE) + TICK_RANGE;
    } else if k < 0 {
      WrapAdd(x, k + 1);
      assert x + k * TICK_RANGE == (x + (k + 1) * TICK_RANGE) - TICK_RANGE;
    }
  }

  /** A deadline at most half the range ahead or behind is judged rightly. */
  lemma LateIff(deadline: nat, time: nat)
    requires deadline <= time + MAX_TICKS && time <= deadline + MAX_TICKS
    ensures Late(deadline % TICK_RANGE, time % TICK_RANGE) <==> deadline <= time
  {
    WrapDiff(deadline, time);
  }

  /** A delay of `delay` ticks looks over after `n`. */
  predicate Over(time: nat, delay: nat, n: nat) {
    Late((time + delay) % TICK_RANGE, (time + n) % TICK_RANGE)
  }

  /** A delay is never cut short iff it is at most one more than half the range. */
  lemma NeverEarlyIff(time: nat, delay: nat)
    requires 0 < delay < TICK_RANGE
    ensures (forall n: nat :: 0 < n < delay ==> !Over(time, delay, n)) <==> delay <= MAX_TICKS + 1
  {
    hide Over;
    forall n: nat | 0 < n < delay ensures Over(time, delay, n) <==> delay - n > MAX_TICKS {
      OverIff(time, delay, n);
    }
    if delay > MAX_TICKS + 1 {
      assert Over(time, delay, 1);
    }
  }

  lemma OverIff(time: nat, delay: nat, n: nat)
    requires 0 < n < delay < TICK_RANGE
    ensures Over(time, delay, n) <==> delay - n > MAX_TICKS
  {
    RemainingIs(time + delay, time + n);
  }

  class TickList {
    /** `g_tick_head`, the `tick_match` of every task, and `g_tick_count`. */
    var list: seq<Tid>
    var expires: seq<nat>
    var tickCount: nat
    /** The ticks since the start, and when each wait ends, without wrap-around. */
    ghost var time: nat
    ghost var deadline: seq<nat>

    /** The list is in the order of the deadlines, all of them ahead and at most half the range away. */
    ghost predicate Valid()
      reads this
    {
      && tickCount == time % TICK_RANGE && Listed(list, expires, deadline) && Sorted(deadline, list)
      && forall i :: 0 <= i < |list| ==> time < deadline[list[i]] <= time + MAX_TICKS
    }

    constructor (tasks: nat)
      ensures Valid() && list == [] && |expires| == tasks && time == 0
    {
      list, expires, tickCount, time, deadline := [], seq(tasks, _ => 0), 0, 0, seq(tasks, _ => 0);
    }

    /** `tick_list_insert` */
    method Insert(t: Tid, ticks: nat)
      requires Valid() && t < |expires| && t !in list && 0 < ticks <= MAX_TICKS
      modifies this
      ensures Valid() && time == old(time) && deadline == old(deadline)[t := old(time) + ticks]
      ensures forall u :: u in list <==> u == t || u in old(list)
    {
      hide Remaining, Sorted;
      expires := expires[t := (tickCount + ticks) % TICK_RANGE];
      deadline := deadline[t := time + ticks];
      SumWraps(time, ticks);
      StillSorted(old(deadline), deadline, list, t);
      var i := Place(ticks);
      Between(deadline, list, t, i);
      list := list[..i] + [t] + list[i..];
    }

    /** The loop of `tick_list_pri_insert`: in front of the first task with more ticks left. */
    method Place(ticks: nat) returns (i: nat)
      requires Listed(list, expires, deadline) && tickCount == time % TICK_RANGE
      requires forall i :: 0 <= i < |list| ==> time < deadline[list[i]] <= time + MAX_TICKS
      ensures i <= |list| && (forall j :: 0 <= j < i ==> deadline[list[j]] <= time + ticks)
      ensures i < |list| ==> time + ticks < deadline[list[i]]
    {
      hide Remaining;
      i := 0;
      while i < |list|
        invariant i <= |list| && forall j :: 0 <= j < i ==> deadline[list[j]] <= time + ticks
      {
        RemainingIs(deadline[list[i]], time);
        if Remaining(expires[list[i]], tickCount) > ticks {
          break;
        }
        i := i + 1;
      }
    }

    /** `tick_list_rm` */
    method Remove(t: Tid)
      requires Valid()
      modifies this`list
      ensures Valid() && list == Without(old(list), t) && t !in list
    {
      WithoutNoDup(list, t);
      WithoutSorted(deadline, list, t);
      list := Without(list, t);
      forall i | 0 <= i < |list| ensures list[i] in old(list) { assert list[i] in list; }
    }

    /** `tick_list_update`: `expired` are exactly the tasks whose time has come, the earliest first. */
    method Update(ticks: nat) returns (expired: seq<Tid>)
      requires Valid() && ticks <= MAX_TICKS
      modifies this
      ensures Valid() && time == old(time) + ticks && deadline == old(deadline) && expires == old(expires)
      ensures expired + list == old(list)
      ensures forall i :: 0 <= i < |old(list)| ==> (i < |expired| <==> deadline[old(list)[i]] <= time)
    {
      hide Late, Remaining, NoDup, Sorted;
      ghost var list0 := list;
      tickCount := (tickCount + ticks) % TICK_RANGE;
      SumWraps(time, ticks);
      time := time + ticks;
      expired := [];
      while list != []
        invariant deadline == old(deadline) && expires == old(expires) && time == old(time) + ticks && tickCount == time % TICK_RANGE
        invariant |expired| <= |list0| && list == list0[|expired|..] && expired == list0[..|expired|]
        invariant forall i :: 0 <= i < |expired| ==> deadline[list0[i]] <= time
        decreases |list|
      {
        var t := list[0];
        OneOn(list0, |expired|);
        LateIff(deadline[t], time);
        if !Late(expires[t], tickCount) {
          break;
        }
        expired, list := expired + [t], list[1..];
      }
      Rest(deadline, list0, |expired|, time);
      StillListed(list0, expires, deadline, |expired|);
    }

    /** `krhino_next_sleep_ticks_get`: the ticks until the first task is due. */
    method NextSleepTicks() returns (ticks: nat)
      requires Valid()
      ensures list == [] ==> ticks == WAIT_FOREVER
      ensures forall i :: 0 <= i < |list| ==> time + ticks <= deadline[list[i]]
      ensures list != [] ==> time + ticks == deadline[list[0]]
    {
      if list == [] { return WAIT_FOREVER; }
      RemainingIs(deadline[list[0]], time);
      ticks := Remaining(expires[list[0]], tickCount);
    }
  }

  ghost predicate Listed(list: seq<Tid>, expires: seq<nat>, deadline: seq<nat>) {
    && NoDup(list) && |expires| == |deadline| && Keyed(deadline, list)
    && forall i :: 0 <= i < |list| ==> expires[list[i]] == deadline[list[i]] % TICK_RANGE
  }

  lemma SumWraps(a: nat, b: nat)
    ensures (a % TICK_RANGE + b) % TICK_RANGE == (a + b) % TICK_RANGE
  {
    var q := a / TICK_RANGE;
    assert a + b == (a % TICK_RANGE + b) + q * TICK_RANGE;
    WrapAdd(a % TICK_RANGE + b, q);
  }

  /** A list that is split one element further on. */
  lemma OneOn(xs: seq<Tid>, n: nat)
    requires n < |xs|
    ensures xs[n..][0] == xs[n] && xs[n..][1..] == xs[n + 1..] && xs[..n] + [xs[n]] == xs[..n + 1]
  {}

  lemma StillListed(list: seq<Tid>, expires: seq<nat>, deadline: seq<nat>, n: nat)
    requires Listed(list, expires, deadline) && n <= |list|
    ensures Listed(list[n..], expires, deadline) && list[..n] + list[n..] == list
  {}

  lemma StillSorted(keys: seq<nat>, keys': seq<nat>, xs: seq<nat>, t: nat)
    requires Keyed(keys, xs) && Sorted(keys, xs) && t !in xs && t < |keys| == |keys'| && keys' == keys[t := keys'[t]]
    ensures Keyed(keys', xs) && Sorted(keys', xs)
  {
    forall i | 0 <= i < |xs| ensures keys'[xs[i]] == keys[xs[i]] { assert xs[i] in xs; }
  }

  /** A place in a sorted list. */
  lemma Between(keys: seq<nat>, xs: seq<nat>, t: nat, i: nat)
    requires Keyed(keys, xs) && Sorted(keys, xs) && NoDup(xs) && t < |keys| && t !in xs && i <= |xs|
    requires (forall j :: 0 <= j < i ==> keys[xs[j]] <= keys[t]) && (i < |xs| ==> keys[t] < keys[xs[i]])
    ensures var r := xs[..i] + [t] + xs[i..]; Keyed(keys, r) && Sorted(keys, r) && NoDup(r) && forall u :: u in r <==> u == t || u in xs
  {
    InsertAt(keys, xs, keys[t], t, i);
    InsertSorted(keys, xs, t);
    InsertNoDup(keys, xs, keys[t], t);
  }

  lemma Rest(keys: seq<nat>, xs: seq<nat>, n: nat, time: nat)
    requires Keyed(keys, xs) && Sorted(keys, xs) && NoDup(xs) && n <= |xs| && (n < |xs| ==> time < keys[xs[n]])
    ensures Keyed(keys, xs[n..]) && Sorted(keys, xs[n..]) && NoDup(xs[n..]) && forall i :: n <= i < |xs| ==> time < keys[xs[i]]
    ensures forall i :: 0 <= i < |xs[n..]| ==> xs[n..][i] == xs[i + n]
  {}
}
