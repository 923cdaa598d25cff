/** The slab pool of k_mm_blk.c: slices cut into blocks of one power-of-two size each. Addresses count
    from the start of the pool. */
module Slab {
  import opened Bits
  import opened Lists

  const SLICE: nat := 1024
  const TYPES: nat := 10
  const LINK: nat := 4

  datatype Option<+T> = None | Some(value: T)

  /** `mblk_list_t`: the blocks of one size; `slice` is where blocks are cut, from `offset` on. */
  datatype BlkList = BlkList(fails: nat, freeCnt: nat, usedCnt: nat, slices: nat, slice: Option<nat>, offset: nat, free: seq<nat>)

  /** `MM_BLK_TYPE2SIZE` */
  function Size(t: nat): (n: nat)
    ensures n > 0
  {
    Pow2(t)
  }

  /** The size type of a request: pointers are kept in free blocks. */
  function TypeOf(size: nat): nat {
    BitLen((if size < LINK then LINK else size) - 1)
  }

  /** The type is the least whose blocks are large enough. */
  lemma TypeFits(size: nat, t: nat)
    ensures TypeOf(size) <= t <==> Size(t) >= size && Size(t) >= LINK
  {
    BitLenIff((if size < LINK then LINK else size) - 1, t);
  }

  /** The sizes divide a slice. */
  lemma SizeDivides(t: nat)
    requires t < TYPES
    ensures Size(t) * Pow2(TYPES - t) == SLICE && SLICE % Size(t) == 0 && Size(t) <= SLICE
  {
    PowersOfTwo();
    PowAdd(t, TYPES - t);
    hide Pow2;
    MultipleMod(Size(t), Pow2(TYPES - t));
  }

  lemma {:induction false} MultipleMod(n: nat, k: nat)
    requires n > 0
    ensures (n * k) % n == 0 && (k > 0 ==> n <= n * k)
  {
    if k > 0 {
      MultipleMod(n, k - 1);
      assert n * k == n * (k - 1) + n;
      NextMultiple(n, n * (k - 1));
    }
  }

  lemma NextMultiple(n: nat, a: nat)
    requires n > 0 && a % n == 0
    ensures (a + n) % n == 0
  {
    var b := a + n;
    var qa, qb, r := a / n, b / n, b % n;
    assert a == n * qa && b == n * qb + r;
    NoMultiple(n, qa + 1 - qb, r);
  }

  lemma NoMultiple(n: nat, d: int, r: nat)
    requires n > 0 && n * d == r && r < n
    ensures r == 0
  {}

  /** The multiples of `n` are at least `n` apart. */
  lemma Apart(n: nat, a: nat, b: nat)
    requires n > 0 && a % n == 0 && b % n == 0 && a < b
    ensures a + n <= b
  {
    var qa, qb := a / n, b / n;
    assert a == n * qa && b == n * qb;
    if qb <= qa {
      Monotone(n, qb, qa);
      assert false;
    }
    Monotone(n, qa + 1, qb);
    assert n * (qa + 1) == n * qa + n;
  }

  lemma Monotone(n: nat, a: nat, b: nat)
    requires a <= b
    ensures n * a <= n * b
  {}

  /** The state of a pool; `live` is what is handed out of each size. */
  datatype Pool = Pool(sliceNum: nat, sliceCnt: nat, sliceType: seq<nat>, lists: seq<BlkList>, live: seq<set<nat>>)

  /** A block that has been cut: at a multiple of its size in a slice of its type, and not in the part
      of the current slice that is still whole. */
  predicate Cut(p: Pool, t: nat, a: nat) {
    && a / SLICE < p.sliceCnt <= |p.sliceType| && t < |p.lists|
    && p.sliceType[a / SLICE] == t && a % SLICE % Size(t) == 0
    && (p.lists[t].slice == Some(a / SLICE) ==> a % SLICE < p.lists[t].offset)
  }

  /** How much of the slices of a type has been cut. */
  function CutSize(b: BlkList): int {
    if b.slices == 0 then 0 else (b.slices - 1) * SLICE + b.offset
  }

  ghost predicate ListOk(p: Pool, t: nat) {
    && t < TYPES == |p.lists| == |p.live|
    && Current(p, t) && Holds(p, t) && NoDup(p.lists[t].free)
    && p.lists[t].freeCnt == |p.lists[t].free| && p.lists[t].usedCnt == |p.live[t]|
    && (p.lists[t].usedCnt + p.lists[t].freeCnt) * Size(t) == CutSize(p.lists[t])
  }

  /** The slice that blocks are cut from. */
  ghost predicate Current(p: Pool, t: nat)
    requires t < |p.lists|
  {
    var b := p.lists[t];
    && p.sliceCnt <= |p.sliceType| && b.offset <= SLICE && b.offset % Size(t) == 0
    && (b.slice.Some? ==> b.slices > 0 && b.slice.value < p.sliceCnt && p.sliceType[b.slice.value] == t)
    && (b.slice.None? ==> b.slices == 0 && forall s :: 0 <= s < p.sliceCnt ==> p.sliceType[s] != t)
  }

  /** What has been cut is either handed out or free. */
  ghost predicate Holds(p: Pool, t: nat)
    requires t < |p.lists| && t < |p.live|
  {
    && (forall a :: a in p.lists[t].free ==> Cut(p, t, a) && a !in p.live[t])
    && (forall a :: a in p.live[t] ==> Cut(p, t, a))
    && (forall a :: Cut(p, t, a) ==> a in p.live[t] || a in p.lists[t].free)
  }

  /** Every block that was ever cut is handed out or free, and counted as such. */
  ghost predicate Ok(p: Pool) {
    && |p.lists| == TYPES && |p.live| == TYPES && |p.sliceType| == p.sliceNum && p.sliceCnt <= p.sliceNum
    && forall t :: 0 <= t < TYPES ==> ListOk(p, t)
  }

  /** A block lies in its slice, and so in the pool. */
  lemma InSlice(p: Pool, t: nat, a: nat)
    requires Ok(p) && t < TYPES && Cut(p, t, a)
    ensures a % SLICE + Size(t) <= SLICE && a + Size(t) <= p.sliceNum * SLICE
  {
    hide Pow2, ListOk, Size;
    SizeDivides(t);
    Apart(Size(t), a % SLICE, SLICE);
  }

  /** Two blocks that have been cut share no byte. */
  lemma Disjoint(p: Pool, t: nat, a: nat, u: nat, b: nat)
    requires Ok(p) && t < TYPES && u < TYPES && Cut(p, t, a) && Cut(p, u, b) && a != b
    ensures a + Size(t) <= b || b + Size(u) <= a
  {
    hide Pow2, ListOk, Size;
    InSlice(p, t, a);
    InSlice(p, u, b);
    if a / SLICE == b / SLICE {
      if a < b { Apart(Size(t), a % SLICE, b % SLICE); } else { Apart(Size(t), b % SLICE, a % SLICE); }
    }
  }

  /** Blocks that are handed out at the same time share no byte. */
  lemma LiveApart(p: Pool, t: nat, a: nat, u: nat, b: nat)
    requires Ok(p) && t < TYPES && u < TYPES && a in p.live[t] && b in p.live[u] && (t, a) != (u, b)
    ensures a + Size(t) <= b || b + Size(u) <= a
  {
    assert ListOk(p, t) && ListOk(p, u);
    Disjoint(p, t, a, u, b);
  }

  lemma OffsetIn(p: Pool, t: nat)
    requires Ok(p) && t < TYPES
    ensures p.lists[t].offset <= SLICE && p.sliceCnt <= p.sliceNum
  {
    assert ListOk(p, t);
  }

  /** No block of type `t` can be had. */
  predicate Exhausted(p: Pool, t: nat)
    requires t < |p.lists|
  {
    p.lists[t].free == [] && (p.lists[t].slice.None? || p.lists[t].offset == SLICE) && p.sliceCnt == p.sliceNum
  }

  /** ... exactly when every byte of its slices is handed out and no slice is left. */
  lemma ExhaustedIff(p: Pool, t: nat)
    requires Ok(p) && t < TYPES
    ensures Exhausted(p, t) <==> |p.live[t]| * Size(t) == p.lists[t].slices * SLICE && p.sliceCnt == p.sliceNum
  {
    hide Holds, Size, SLICE;
    var b := p.lists[t];
    assert ListOk(p, t);
    assert (b.usedCnt + b.freeCnt) * Size(t) == |p.live[t]| * Size(t) + |b.free| * Size(t);
    if b.free != [] { Monotone(Size(t), 1, |b.free|); }
    if b.slices > 0 { assert b.slices * SLICE == (b.slices - 1) * SLICE + SLICE; }
  }

  // -------------------------------------------------------------- the steps of a pool

  function Popped(p: Pool, t: nat): Pool
    requires t < |p.lists| && t < |p.live| && p.lists[t].free != [] && p.lists[t].freeCnt > 0
  {
    var b := p.lists[t];
    p.(lists := p.lists[t := b.(free := b.free[1..], freeCnt := b.freeCnt - 1, usedCnt := b.usedCnt + 1)],
       live := p.live[t := p.live[t] + {b.free[0]}])
  }

  lemma PoppedOk(p: Pool, t: nat)
    requires Ok(p) && t < TYPES && p.lists[t].free != []
    ensures p.lists[t].freeCnt > 0 && Ok(Popped(p, t)) && Cut(p, t, p.lists[t].free[0]) && p.lists[t].free[0] !in p.live[t]
  {
    hide Size;
    assert ListOk(p, t);
    var b, q := p.lists[t], Popped(p, t);
    assert b.free[0] in b.free;
    assert forall a :: a in b.free <==> a == b.free[0] || a in b.free[1..];
    forall u | 0 <= u < TYPES ensures ListOk(q, u) {
      assert ListOk(p, u);
      SameCut(p, q, u);
    }
  }

  lemma SameCut(p: Pool, q: Pool, u: nat)
    requires u < |p.lists| == |q.lists| && q.sliceCnt == p.sliceCnt && q.sliceType == p.sliceType
    requires q.lists[u].slice == p.lists[u].slice && q.lists[u].offset == p.lists[u].offset
    ensures forall a :: Cut(q, u, a) <==> Cut(p, u, a)
  {}

  function Pushed(p: Pool, t: nat, a: nat): Pool
    requires t < |p.lists| && t < |p.live| && p.lists[t].usedCnt > 0
  {
    var b := p.lists[t];
    p.(lists := p.lists[t := b.(free := [a] + b.free, freeCnt := b.freeCnt + 1, usedCnt := b.usedCnt - 1)],
       live := p.live[t := p.live[t] - {a}])
  }

  lemma PushedOk(p: Pool, t: nat, a: nat)
    requires Ok(p) && t < TYPES && a in p.live[t]
    ensures p.lists[t].usedCnt > 0 && Ok(Pushed(p, t, a)) && a / SLICE < p.sliceNum && p.sliceType[a / SLICE] == t
  {
    hide Size;
    assert ListOk(p, t);
    var b := p.lists[t];
    assert p.live[t] == p.live[t] - {a} + {a};
    var q := Pushed(p, t, a);
    NoDupCons(a, b.free);
    forall u | 0 <= u < TYPES ensures ListOk(q, u) {
      assert ListOk(p, u);
      SameCut(p, q, u);
    }
  }

  /** A new slice for type `t`, nothing cut from it yet. */
  function Sliced(p: Pool, t: nat): Pool
    requires t < |p.lists| && p.sliceCnt < |p.sliceType|
  {
    var b := p.lists[t];
    p.(lists := p.lists[t := b.(slice := Some(p.sliceCnt), offset := 0, slices := b.slices + 1)],
       sliceType := p.sliceType[p.sliceCnt := t], sliceCnt := p.sliceCnt + 1)
  }

  lemma SlicedOk(p: Pool, t: nat)
    requires Ok(p) && t < TYPES && p.sliceCnt < p.sliceNum && (p.lists[t].slice.None? || p.lists[t].offset == SLICE)
    ensures Ok(Sliced(p, t))
  {
    hide Size;
    var q := Sliced(p, t);
    SizeDivides(t);
    forall u | 0 <= u < TYPES ensures ListOk(q, u) {
      assert ListOk(p, u);
      SlicedCut(p, t, u);
    }
  }

  lemma SlicedCut(p: Pool, t: nat, u: nat)
    requires Ok(p) && t < TYPES && u < TYPES && p.sliceCnt < p.sliceNum && (p.lists[t].slice.None? || p.lists[t].offset == SLICE)
    ensures forall a :: Cut(Sliced(p, t), u, a) <==> Cut(p, u, a)
  {
    assert ListOk(p, u);
  }

  /** The next block of the current slice. */
  function Carved(p: Pool, t: nat, a: nat): Pool
    requires t < |p.lists| && t < |p.live|
  {
    var b := p.lists[t];
    p.(lists := p.lists[t := b.(offset := b.offset + Size(t), usedCnt := b.usedCnt + 1)],
       live := p.live[t := p.live[t] + {a}])
  }

  lemma CarvedOk(p: Pool, t: nat, a: nat)
    requires Ok(p) && t < TYPES && p.lists[t].slice.Some? && p.lists[t].offset < SLICE
    requires a == p.lists[t].slice.value * SLICE + p.lists[t].offset
    ensures Ok(Carved(p, t, a)) && Cut(Carved(p, t, a), t, a) && a !in p.live[t]
  {
    hide Size;
    var q, b := Carved(p, t, a), p.lists[t];
    assert ListOk(p, t);
    SizeDivides(t);
    Apart(Size(t), b.offset, SLICE);
    NextMultiple(Size(t), b.offset);
    CarvedCut(p, t, a);
    assert !Cut(p, t, a);
    forall u | 0 <= u < TYPES ensures ListOk(q, u) {
      assert ListOk(p, u);
      if u == t {
        Distribute(b.usedCnt + b.freeCnt, Size(t));
      } else {
        SameCut(p, q, u);
      }
    }
  }

  lemma Distribute(k: nat, n: nat)
    ensures (k + 1) * n == k * n + n
  {}

  lemma CarvedCut(p: Pool, t: nat, a: nat)
    requires Ok(p) && t < TYPES && p.lists[t].slice.Some? && p.lists[t].offset + Size(t) <= SLICE
    requires a == p.lists[t].slice.value * SLICE + p.lists[t].offset && a / SLICE == p.lists[t].slice.value && a % SLICE == p.lists[t].offset
    ensures forall x :: Cut(Carved(p, t, a), t, x) <==> x == a || Cut(p, t, x)
  {
    hide Size, Cut, ListOk;
    forall x ensures Cut(Carved(p, t, a), t, x) <==> x == a || Cut(p, t, x) { CarvedOne(p, t, a, x); }
  }

  lemma CarvedOne(p: Pool, t: nat, a: nat, x: nat)
    requires Ok(p) && t < TYPES && p.lists[t].slice.Some? && p.lists[t].offset + Size(t) <= SLICE
    requires a == p.lists[t].slice.value * SLICE + p.lists[t].offset && a / SLICE == p.lists[t].slice.value && a % SLICE == p.lists[t].offset
    ensures Cut(Carved(p, t, a), t, x) <==> x == a || Cut(p, t, x)
  {
    hide Size;
    assert ListOk(p, t);
    var b, r := p.lists[t], x % SLICE;
    if x / SLICE == b.slice.value && r % Size(t) == 0 && b.offset <= r < b.offset + Size(t) {
      if b.offset < r { Apart(Size(t), b.offset, r); }
      assert x == a;
    }
  }

  // ------------------------------------------------------------------------ the pool

  /** `mblk_pool_t` */
  class Slab {
    const sliceNum: nat
    var sliceCnt: nat
    var sliceType: seq<nat>
    var lists: seq<BlkList>
    ghost var live: seq<set<nat>>

    ghost function State(): Pool
      reads this
    {
      Pool(sliceNum, sliceCnt, sliceType, lists, live)
    }

    ghost predicate Valid()
      reads this
    {
      Ok(State())
    }

    /** `krhino_mblk_pool_init` */
    constructor (slices: nat)
      ensures Valid() && sliceNum == slices && live == seq(TYPES, _ => {})
    {
      sliceNum, sliceCnt, sliceType := slices, 0, seq(slices, _ => 0);
      lists, live := seq(TYPES, _ => BlkList(0, 0, 0, 0, None, 0, [])), seq(TYPES, _ => {});
      new;
      hide Size;
      forall t | 0 <= t < TYPES ensures ListOk(State(), t) {}
    }

    /** `krhino_mblk_alloc_nolock`: a block that was not handed out, at least as large as asked for; none
        exactly when no block of this or a larger size can be had. */
    method Alloc(size: nat) returns (blk: Option<nat>, ghost t: nat)
      requires Valid()
      modifies this
      ensures Valid()
      ensures blk.Some? ==> t < TYPES && Size(t) >= size && blk.value !in old(live)[t] && live == old(live)[t := old(live)[t] + {blk.value}]
      ensures blk.Some? ==> blk.value + Size(t) <= sliceNum * SLICE
      ensures blk.Some? ==> TypeOf(size) <= t && forall u :: TypeOf(size) <= u < t ==> Exhausted(old(State()), u)
      ensures blk.None? ==> live == old(live)
      ensures blk.None? <==> forall u :: TypeOf(size) <= u < TYPES ==> Exhausted(old(State()), u)
    {
      hide ListOk, Size, TypeOf, Cut;
      var ty := TypeOf(size);
      t := ty;
      while ty < TYPES
        invariant Valid() && State() == old(State())
        invariant TypeOf(size) <= ty && forall u :: TypeOf(size) <= u < ty && u < TYPES ==> Exhausted(State(), u)
        decreases TYPES - ty
      {
        t := ty;
        TypeFits(size, ty);
        if lists[ty].free != [] {
          assert !Exhausted(State(), ty);
          var a := FromFree(ty);
          return Some(a), t;
        }
        OffsetIn(State(), ty);
        assert !(lists[ty].slice == None || lists[ty].offset == SLICE) ==> !Exhausted(State(), ty);
        if lists[ty].slice == None || lists[ty].offset == SLICE {
          if sliceCnt == sliceNum {
            ty := ty + 1;
            continue;
          }
          assert !Exhausted(State(), ty);
          NewSlice(ty);
        }
        var a := FromSlice(ty);
        return Some(a), t;
      }
      if TypeOf(size) < TYPES {
        Failed(TYPES - 1);
      }
      blk := None;
    }

    /** The first block of the free list. */
    method FromFree(t: nat) returns (a: nat)
      requires Valid() && t < TYPES && lists[t].free != []
      modifies this`lists, this`live
      ensures Valid() && a !in old(live)[t] && live == old(live)[t := old(live)[t] + {a}] && a + Size(t) <= sliceNum * SLICE
    {
      hide ListOk, Size, Cut;
      PoppedOk(State(), t);
      a := lists[t].free[0];
      InSlice(State(), t, a);
      live := live[t := live[t] + {a}];
      lists := lists[t := lists[t].(free := lists[t].free[1..], freeCnt := lists[t].freeCnt - 1, usedCnt := lists[t].usedCnt + 1)];
    }

    /** A slice is set aside for the type. */
    method NewSlice(t: nat)
      requires Valid() && t < TYPES && sliceCnt < sliceNum && (lists[t].slice == None || lists[t].offset == SLICE)
      modifies this`lists, this`sliceType, this`sliceCnt
      ensures Valid() && lists[t].slice.Some? && lists[t].offset < SLICE
    {
      hide ListOk, Size, Cut;
      SlicedOk(State(), t);
      ghost var s := State();
      lists := lists[t := lists[t].(slice := Some(sliceCnt))];
      sliceType := sliceType[sliceCnt := t];
      lists := lists[t := lists[t].(offset := 0)];
      sliceCnt := sliceCnt + 1;
      lists := lists[t := lists[t].(slices := lists[t].slices + 1)];
      assert State() == Sliced(s, t);
    }

    /** The next block of the current slice. */
    method FromSlice(t: nat) returns (a: nat)
      requires Valid() && t < TYPES && lists[t].slice.Some? && lists[t].offset < SLICE
      modifies this`lists, this`live
      ensures Valid() && a !in old(live)[t] && live == old(live)[t := old(live)[t] + {a}] && a + Size(t) <= sliceNum * SLICE
    {
      hide ListOk, Cut;
      a := lists[t].slice.value * SLICE + lists[t].offset;
      CarvedOk(State(), t, a);
      ghost var s := State();
      live := live[t := live[t] + {a}];
      lists := lists[t := lists[t].(offset := lists[t].offset + Pow2(t))];
      lists := lists[t := lists[t].(usedCnt := lists[t].usedCnt + 1)];
      assert State() == Carved(s, t, a);
      InSlice(State(), t, a);
    }

    /** The failure is counted where it was noticed last. */
    method Failed(t: nat)
      requires Valid() && t < TYPES
      modifies this`lists
      ensures Valid() && live == old(live)
    {
      ghost var s := State();
      lists := lists[t := lists[t].(fails := lists[t].fails + 1)];
      hide Size;
      forall u | 0 <= u < TYPES ensures ListOk(State(), u) {
        assert ListOk(s, u);
        SameCut(s, State(), u);
      }
    }

    /** `krhino_mblk_free_nolock`: the block goes back to the free list of its own size. Returns whether
        the address was one of the pool's. */
    method Free(a: nat) returns (ok: bool)
      requires Valid() && (a / SLICE < sliceNum ==> exists t :: 0 <= t < TYPES && a in live[t])
      modifies this`lists, this`live
      ensures Valid() && (ok <==> a / SLICE < sliceNum)
      ensures !ok ==> live == old(live) && lists == old(lists)
      ensures ok ==> forall t :: 0 <= t < TYPES ==>
                if a in old(live)[t] then live[t] == old(live)[t] - {a} && lists[t].free == [a] + old(lists)[t].free
                else live[t] == old(live)[t] && lists[t] == old(lists)[t]
    {
      hide ListOk, Cut;
      var idx := a / SLICE;
      if idx >= sliceNum {
        return false;
      }
      ghost var t :| 0 <= t < TYPES && a in live[t];
      PushedOk(State(), t, a);
      forall u | 0 <= u < TYPES && a in live[u] ensures u == t { PushedOk(State(), u, a); }
      var ty := sliceType[idx];
      if ty >= TYPES {
        assert false;
      }
      lists := lists[ty := lists[ty].(free := [a] + lists[ty].free)];
      lists := lists[ty := lists[ty].(usedCnt := lists[ty].usedCnt - 1)];
      lists := lists[ty := lists[ty].(freeCnt := lists[ty].freeCnt + 1)];
      live := live[ty := live[ty] - {a}];
      assert State() == Pushed(old(State()), t, a);
      ok := true;
    }
  }
}
