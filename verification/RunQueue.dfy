/** The run queue of k_sched.c as the source keeps it: a circular list per priority, a bitmap of the
    priorities in use, and the highest of them. */
module RunQueue {
  import opened Bits
  import opened Lists
  import opened ReadyQueue

  const UNIT: nat := 32
  const WORDS: nat := 2

  /** The bit of a priority: priorities count from the most significant bit down. */
  predicate InUse(bits: seq<nat>, p: nat)
    requires |bits| == WORDS && p < WORDS * UNIT
  {
    Bit(bits[p / UNIT], UNIT - 1 - p % UNIT)
  }

  /** `krhino_bitmap_set` */
  function Mark(bits: seq<nat>, p: nat): seq<nat>
    requires |bits| == WORDS && p < WORDS * UNIT
  {
    bits[p / UNIT := SetBit(bits[p / UNIT], UNIT - 1 - p % UNIT)]
  }

  /** `krhino_bitmap_clear` */
  function Unmark(bits: seq<nat>, p: nat): seq<nat>
    requires |bits| == WORDS && p < WORDS * UNIT
  {
    bits[p / UNIT := ClearBit(bits[p / UNIT], UNIT - 1 - p % UNIT)]
  }

  ghost predicate Words(bits: seq<nat>) {
    |bits| == WORDS && forall w :: 0 <= w < WORDS ==> bits[w] < 0x1_0000_0000
  }

  /** No bit beyond a 32-bit word is set. */
  ghost predicate Narrow(b: nat) { forall i: nat :: i >= 32 ==> !Bit(b, i) }

  lemma WordIff(b: nat)
    ensures b < 0x1_0000_0000 <==> Narrow(b)
  {
    hide Pow2, Bit;
    Pow32();
    if b < 0x1_0000_0000 {
      BitLenIff(b, 32);
      TopBit(b);
    }
    if Narrow(b) { WordSize(b, 32); }
  }

  lemma Pow32()
    ensures Pow2(32) == 0x1_0000_0000
  {
    PowersOfTwo();
    PowAdd(16, 16);
  }

  /** The most significant bit that is set. */
  lemma {:induction false} TopBit(x: nat)
    ensures x > 0 ==> BitLen(x) > 0 && Bit(x, BitLen(x) - 1)
    ensures forall i: nat :: i >= BitLen(x) ==> !Bit(x, i)
  {
    if x == 0 {
      forall i: nat ensures !Bit(x, i) { ZeroBits(i); }
    } else {
      TopBit(x / 2);
      if x == 1 { assert BitLen(1) == 1; }
      forall i: nat | i >= BitLen(x) ensures !Bit(x, i) { assert !Bit(x / 2, i - 1); }
    }
  }

  lemma MarkIs(bits: seq<nat>, p: nat, q: nat)
    requires Words(bits) && p < WORDS * UNIT && q < WORDS * UNIT
    ensures Words(Mark(bits, p)) && (InUse(Mark(bits, p), q) <==> q == p || InUse(bits, q))
    ensures Words(Unmark(bits, p)) && (InUse(Unmark(bits, p), q) <==> q != p && InUse(bits, q))
  {
    hide Bit, SetBit, ClearBit;
    var w, b := bits[p / UNIT], UNIT - 1 - p % UNIT;
    SetBitAt(w, b, UNIT - 1 - q % UNIT);
    ClearBitAt(w, b, UNIT - 1 - q % UNIT);
    forall i: nat ensures Bit(SetBit(w, b), i) <==> (i == b || Bit(w, i)) { SetBitAt(w, b, i); }
    forall i: nat ensures Bit(ClearBit(w, b), i) <==> (i != b && Bit(w, i)) { ClearBitAt(w, b, i); }
    assert b < 32;
    WordIff(w);
    WordIff(SetBit(w, b));
    WordIff(ClearBit(w, b));
  }

  class RunQueue {
    /** `cur_list_item`: the lists, from the current item on. */
    var lists: Lanes
    var taskBitMap: seq<nat>
    var highestPri: nat

    /** A bit is set iff the list is not empty, and the highest priority in use is known. */
    ghost predicate Valid()
      reads this
    {
      && Words(taskBitMap) && highestPri == Highest(lists, 0)
      && (forall p :: 0 <= p < PRI_MAX ==> (InUse(taskBitMap, p) <==> lists[p] != []))
      && (forall p :: PRI_MAX <= p < WORDS * UNIT ==> !InUse(taskBitMap, p))
    }

    /** `runqueue_init` */
    constructor ()
      ensures Valid() && lists == seq(PRI_MAX, _ => [])
    {
      lists, taskBitMap, highestPri := seq(PRI_MAX, _ => []), [0, 0], PRI_MAX;
      new;
      NoneInUse(lists, taskBitMap);
    }

    /** `ready_list_init`: the first task of its priority. */
    method ListInit(p: nat, t: nat)
      requires Valid() && p < PRI_MAX && lists[p] == []
      modifies this
      ensures Valid() && lists == old(lists)[p := [t]]
    {
      hide Highest, InUse;
      Marked(lists, taskBitMap, p, [t]);
      lists := lists[p := [t]];
      taskBitMap := Mark(taskBitMap, p);
      if p < highestPri {
        highestPri := p;
      }
    }

    /** `ready_list_add_tail` */
    method AddTail(p: nat, t: nat)
      requires Valid() && p < PRI_MAX
      modifies this
      ensures Valid() && lists == old(lists)[p := old(lists)[p] + [t]]
    {
      hide InUse;
      if lists[p] == [] {
        ListInit(p, t);
        assert [] + [t] == [t];
        return;
      }
      SameEmpty(lists, p, lists[p] + [t], 0);
      lists := lists[p := lists[p] + [t]];
    }

    /** `ready_list_add_head` */
    method AddHead(p: nat, t: nat)
      requires Valid() && p < PRI_MAX
      modifies this
      ensures Valid() && lists == old(lists)[p := [t] + old(lists)[p]]
    {
      hide InUse;
      if lists[p] == [] {
        ListInit(p, t);
        assert [t] + [] == [t];
        return;
      }
      SameEmpty(lists, p, [t] + lists[p], 0);
      lists := lists[p := [t] + lists[p]];
    }

    /** `ready_list_rm`. Some task must stay: the idle task always does. */
    method Remove(p: nat, t: nat)
      requires Valid() && p < PRI_MAX && t in lists[p] && Highest(ReadyQueue.Remove(lists, p, t), 0) < PRI_MAX
      modifies this
      ensures Valid() && lists == old(lists)[p := Without(old(lists)[p], t)]
    {
      hide InUse, Without;
      if |lists[p]| > 1 {
        WithoutFacts(lists[p], t);
        SameEmpty(lists, p, Without(lists[p], t), 0);
        lists := lists[p := if lists[p][0] == t then lists[p][1..] else Without(lists[p], t)];
        return;
      }
      WithoutFacts(lists[p], t);
      Unmarked(lists, taskBitMap, p);
      lists := lists[p := []];
      taskBitMap := Unmark(taskBitMap, p);
      if p != highestPri {
        return;
      }
      highestPri := BitmapFirst();
    }

    /** `krhino_bitmap_first` */
    method BitmapFirst() returns (nr: nat)
      requires Words(taskBitMap) && Highest(lists, 0) < PRI_MAX
      requires forall p :: 0 <= p < PRI_MAX ==> (InUse(taskBitMap, p) <==> lists[p] != [])
      requires forall p :: PRI_MAX <= p < WORDS * UNIT ==> !InUse(taskBitMap, p)
      ensures nr == Highest(lists, 0)
    {
      hide Bit, BitLen, Highest;
      nr := 0;
      var w := 0;
      assert InUse(taskBitMap, Highest(lists, 0));
      while taskBitMap[w] == 0
        invariant w < WORDS && nr == w * UNIT && forall p :: 0 <= p < nr ==> !InUse(taskBitMap, p)
        decreases WORDS - w
      {
        ZeroWord(taskBitMap, w, Highest(lists, 0));
        nr := nr + UNIT;
        w := w + 1;
      }
      var n := Clz32(taskBitMap[w]);
      FirstInWord(taskBitMap, w, n);
      nr := nr + n;
      HighestIs(lists, nr);
    }

    /** `ready_list_head_to_tail` */
    method HeadToTail(p: nat)
      requires Valid() && p < PRI_MAX && lists[p] != []
      modifies this
      ensures Valid() && lists == old(lists)[p := old(lists)[p][1..] + [old(lists)[p][0]]]
    {
      hide InUse;
      SameEmpty(lists, p, lists[p][1..] + [lists[p][0]], 0);
      lists := lists[p := lists[p][1..] + [lists[p][0]]];
    }

    /** `preferred_cpu_ready_task_get` on one core: the first of the most urgent ready tasks. */
    method PreferredTask() returns (t: nat)
      requires Valid() && exists p :: 0 <= p < PRI_MAX && lists[p] != []
      ensures Highest(lists, 0) < PRI_MAX && t == Preferred(lists)
      ensures exists p :: 0 <= p < PRI_MAX && lists[p] != [] && t == lists[p][0] && forall q :: 0 <= q < p ==> lists[q] == []
    {
      t := lists[highestPri][0];
      assert t in lists[highestPri];
    }
  }

  lemma WithoutFacts(xs: seq<nat>, x: nat)
    requires x in xs
    ensures |xs| == 1 ==> Without(xs, x) == []
    ensures |xs| > 1 ==> Without(xs, x) != []
    ensures xs[0] == x ==> Without(xs, x) == xs[1..]
  {}

  lemma NoneInUse(q: Lanes, bits: seq<nat>)
    requires bits == [0, 0] && forall p :: 0 <= p < PRI_MAX ==> q[p] == []
    ensures Words(bits) && Highest(q, 0) == PRI_MAX && forall p :: 0 <= p < WORDS * UNIT ==> !InUse(bits, p)
  {
    hide Bit;
    forall p | 0 <= p < WORDS * UNIT ensures !InUse(bits, p) { ZeroBits(UNIT - 1 - p % UNIT); }
  }

  /** `Highest`, by what it means. */
  lemma HighestIs(q: Lanes, h: nat)
    requires h < PRI_MAX && q[h] != [] && forall k :: 0 <= k < h ==> q[k] == []
    ensures Highest(q, 0) == h
  {}

  lemma {:induction false} SameEmpty(q: Lanes, p: nat, xs: seq<nat>, from: nat)
    requires p < PRI_MAX && (q[p] == [] <==> xs == []) && from <= PRI_MAX
    ensures Highest(q[p := xs], from) == Highest(q, from)
    decreases PRI_MAX - from
  {
    if from < PRI_MAX { SameEmpty(q, p, xs, from + 1); }
  }

  /** A list that is not empty any more. */
  lemma Marked(q: Lanes, bits: seq<nat>, p: nat, xs: seq<nat>)
    requires Words(bits) && p < PRI_MAX && q[p] == [] && xs != []
    ensures Words(Mark(bits, p)) && forall k :: 0 <= k < WORDS * UNIT ==> (InUse(Mark(bits, p), k) <==> k == p || InUse(bits, k))
    ensures Highest(q[p := xs], 0) == if p < Highest(q, 0) then p else Highest(q, 0)
  {
    hide InUse;
    MarkIs(bits, p, p);
    forall k | 0 <= k < WORDS * UNIT ensures InUse(Mark(bits, p), k) <==> k == p || InUse(bits, k) { MarkIs(bits, p, k); }
    var h := if p < Highest(q, 0) then p else Highest(q, 0);
    HighestIs(q[p := xs], h);
  }

  /** A list that is empty now. */
  lemma Unmarked(q: Lanes, bits: seq<nat>, p: nat)
    requires Words(bits) && p < PRI_MAX
    ensures Words(Unmark(bits, p)) && forall k :: 0 <= k < WORDS * UNIT ==> (InUse(Unmark(bits, p), k) <==> k != p && InUse(bits, k))
    ensures p != Highest(q, 0) && Highest(q, 0) < PRI_MAX ==> Highest(q[p := []], 0) == Highest(q, 0)
  {
    hide InUse;
    MarkIs(bits, p, p);
    forall k | 0 <= k < WORDS * UNIT ensures InUse(Unmark(bits, p), k) <==> k != p && InUse(bits, k) { MarkIs(bits, p, k); }
    if p != Highest(q, 0) && Highest(q, 0) < PRI_MAX { HighestIs(q[p := []], Highest(q, 0)); }
  }

  /** A word of zeros: its priorities are not in use, and one in use lies beyond. */
  lemma ZeroWord(bits: seq<nat>, w: nat, h: nat)
    requires |bits| == WORDS && w < WORDS && bits[w] == 0 && h < WORDS * UNIT && InUse(bits, h)
    requires forall p :: 0 <= p < w * UNIT ==> !InUse(bits, p)
    ensures w + 1 < WORDS && forall p :: 0 <= p < (w + 1) * UNIT ==> !InUse(bits, p)
  {
    hide Bit;
    forall p | w * UNIT <= p < (w + 1) * UNIT ensures !InUse(bits, p) {
      assert p / UNIT == w;
      ZeroBits(UNIT - 1 - p % UNIT);
    }
  }

  /** The first priority in use lies as far into its word as the word has leading zeros. */
  lemma FirstInWord(bits: seq<nat>, w: nat, n: nat)
    requires |bits| == WORDS && w < WORDS && bits[w] > 0 && n + BitLen(bits[w]) == UNIT
    requires forall p :: 0 <= p < w * UNIT ==> !InUse(bits, p)
    ensures n < UNIT && InUse(bits, w * UNIT + n) && forall p :: 0 <= p < w * UNIT + n ==> !InUse(bits, p)
  {
    hide Bit, BitLen;
    TopBit(bits[w]);
    assert (w * UNIT + n) / UNIT == w && (w * UNIT + n) % UNIT == n;
    forall p | w * UNIT <= p < w * UNIT + n ensures !InUse(bits, p) {
      assert p / UNIT == w && p % UNIT == p - w * UNIT;
    }
  }
}
