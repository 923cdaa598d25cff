/** The allocator as k_mm.c has it: small requests are served from the slab pool, which itself lies in a
    block of the heap, and the rest from the heap. */
module HeapPool {
  import opened HeapTiles
  import opened HeapIndex
  import opened HeapSums
  import opened HeapFacts
  import H = Heap
  import S = Slab

  /** The blocks of heap and pool: `block` is the heap's block that has the pool, `start` is where its
      slices begin. */
  datatype Blocks = Blocks(head: nat, live: map<nat, nat>, block: nat, start: nat, pool: S.Pool)

  ghost predicate InHeap(v: Blocks, p: nat, n: nat) {
    p >= v.head && p - v.head in v.live && p - v.head != v.block && v.live[p - v.head] == n
  }

  ghost predicate InPool(v: Blocks, p: nat, n: nat) {
    exists t :: OfType(v, p, n, t)
  }

  ghost predicate OfType(v: Blocks, p: nat, n: nat, t: nat) {
    p >= v.start && t < S.TYPES && t < |v.pool.live| && p - v.start in v.pool.live[t] && n == S.Size(t)
  }

  /** `n` bytes at `p` are handed out. */
  ghost predicate Has(v: Blocks, p: nat, n: nat) {
    InHeap(v, p, n) || InPool(v, p, n)
  }

  /** The slices lie in their block; blocks of the pool have room for a link; heap blocks lie apart. */
  ghost predicate BlocksOk(v: Blocks, len: nat) {
    && S.Ok(v.pool) && v.block in v.live
    && v.start >= v.block + v.head && v.start + v.pool.sliceNum * S.SLICE <= v.block + v.head + v.live[v.block]
    && (forall t :: 0 <= t < S.TYPES && v.pool.live[t] != {} ==> S.Size(t) >= S.LINK)
    && (forall b :: b in v.live ==> b + v.head + v.live[b] <= len)
    && (forall a, b :: a in v.live && b in v.live && a < b ==> a + v.head + v.live[a] <= b)
  }

  /** A block of the pool lies in the slices, and so in the heap's block. */
  lemma PoolInside(v: Blocks, len: nat, p: nat, n: nat)
    requires BlocksOk(v, len) && InPool(v, p, n)
    ensures v.start <= p && p + n <= v.start + v.pool.sliceNum * S.SLICE <= v.block + v.head + v.live[v.block] <= len && n >= S.LINK
  {
    var t :| OfType(v, p, n, t);
    assert S.ListOk(v.pool, t);
    hide S.Size, S.ListOk, S.SLICE;
    S.InSlice(v.pool, t, p - v.start);
  }

  /** No two blocks that are handed out share a byte, wherever they come from. */
  lemma BlocksApart(v: Blocks, len: nat, p: nat, n: nat, q: nat, m: nat)
    requires BlocksOk(v, len) && Has(v, p, n) && Has(v, q, m) && (p, n) != (q, m)
    ensures p + n <= len && q + m <= len && (p + n <= q || q + m <= p)
  {
    if InPool(v, p, n) { PoolInside(v, len, p, n); }
    if InPool(v, q, m) { PoolInside(v, len, q, m); }
    if InPool(v, p, n) && InPool(v, q, m) {
      var t, u :| OfType(v, p, n, t) && OfType(v, q, m, u);
      S.LiveApart(v.pool, t, p - v.start, u, q - v.start);
    }
  }

  /** The bytes of the block stay. */
  ghost predicate Same(m0: seq<int>, m1: seq<int>, p: nat, n: nat) {
    |m0| == |m1| && p + n <= |m0| && forall i :: p <= i < p + n ==> m1[i] == m0[i]
  }

  /** ... of every block but the one at `ptr`. */
  ghost predicate Others(v: Blocks, m0: seq<int>, m1: seq<int>, ptr: Option<nat>) {
    forall p: nat, n: nat :: Has(v, p, n) && ptr != Some(p) ==> Same(m0, m1, p, n)
  }

  /** What the heap keeps, the pool keeps. */
  lemma HeapKeeps(v: Blocks, live: map<nat, nat>, m0: seq<int>, m1: seq<int>, ptr: Option<nat>)
    requires BlocksOk(v, |m0|) && Kept(v.head, live, m0, m1) && v.block in live && live[v.block] == v.live[v.block]
    requires forall b :: b in v.live && ptr != Some(b + v.head) ==> b in live && live[b] == v.live[b]
    ensures Others(v, m0, m1, ptr)
  {
    forall p: nat, n: nat | Has(v, p, n) && ptr != Some(p) ensures Same(m0, m1, p, n) {
      if InPool(v, p, n) {
        PoolInside(v, |m0|, p, n);
        assert KeptAt(v.head, v.block, live[v.block], m0, m1);
      } else {
        assert KeptAt(v.head, p - v.head, live[p - v.head], m0, m1);
      }
    }
  }

  /** Writing inside one block leaves the others alone. */
  lemma WriteSpares(v: Blocks, m0: seq<int>, m1: seq<int>, p: nat, n: nat, k: nat)
    requires BlocksOk(v, |m0|) && Has(v, p, n) && k <= n && OnlyIn(p, k, m0, m1)
    ensures Others(v, m0, m1, Some(p))
  {
    forall q: nat, m: nat | Has(v, q, m) && q != p ensures Same(m0, m1, q, m) {
      BlocksApart(v, |m0|, p, n, q, m);
    }
  }

  lemma OthersSame(v: Blocks, len: nat, m: seq<int>)
    requires BlocksOk(v, len) && len == |m|
    ensures Others(v, m, m, None)
  {
    forall p: nat, n: nat | Has(v, p, n) ensures Same(m, m, p, n) {
      if InPool(v, p, n) { PoolInside(v, len, p, n); }
    }
  }

  /** One block more. */
  ghost predicate Added(v0: Blocks, v1: Blocks, ptr: nat, n: nat) {
    && (forall m: nat :: !Has(v0, ptr, m))
    && forall p: nat, m: nat :: Has(v1, p, m) <==> (p == ptr && m == n) || Has(v0, p, m)
  }

  /** One block less. */
  ghost predicate Removed(v0: Blocks, v1: Blocks, ptr: nat) {
    forall p: nat, m: nat :: Has(v1, p, m) <==> p != ptr && Has(v0, p, m)
  }

  /** One block in the place of another. */
  ghost predicate Replaced(v0: Blocks, v1: Blocks, ptr: nat, r: nat, n: nat) {
    && (forall m: nat :: Has(v0, r, m) ==> r == ptr)
    && forall p: nat, m: nat :: Has(v1, p, m) <==> (p == r && m == n) || (p != ptr && p != r && Has(v0, p, m))
  }

  // ------------------------------------------------------------ what each step does

  /** The blocks of the heap, by themselves. */
  ghost predicate LiveOk(head: nat, live: map<nat, nat>, len: nat) {
    && (forall b :: b in live ==> b + head + live[b] <= len)
    && (forall a, b :: a in live && b in live && a < b ==> a + head + live[a] <= b)
  }

  /** The heap has done something that did not concern the pool's block. */
  lemma HeapStep(v0: Blocks, v1: Blocks, len: nat)
    requires BlocksOk(v0, len) && v1 == v0.(live := v1.live) && LiveOk(v1.head, v1.live, len)
    requires v1.block in v1.live && v1.live[v1.block] == v0.live[v0.block]
    ensures BlocksOk(v1, len)
  {
    hide S.Ok, S.Size;
  }

  lemma Shapes(v: Blocks, len: nat)
    requires BlocksOk(v, len)
    ensures v.block in v.live && |v.pool.live| == S.TYPES == |v.pool.lists| && |v.pool.sliceType| == v.pool.sliceNum
  {}

  /** The heap has handed out a block. */
  lemma HeapAdds(v0: Blocks, v1: Blocks, len: nat, b: nat)
    requires BlocksOk(v0, len) && BlocksOk(v1, len) && v1 == v0.(live := v1.live)
    requires b !in v0.live && b in v1.live && v1.live == v0.live[b := v1.live[b]] && v0.block in v0.live
    ensures Added(v0, v1, b + v0.head, v1.live[b])
  {
    hide BlocksOk, InPool;
    var ptr := b + v0.head;
    forall p: nat, m: nat ensures InPool(v1, p, m) <==> InPool(v0, p, m) { SamePool(v0, v1, p, m); }
    forall m: nat ensures !Has(v0, ptr, m) {
      if InPool(v0, ptr, m) {
        SamePool(v0, v1, ptr, m);
        NotBoth(v1, len, ptr, m);
      }
    }
  }

  lemma SamePool(v0: Blocks, v1: Blocks, p: nat, n: nat)
    requires v1.start == v0.start && v1.pool.live == v0.pool.live
    ensures InPool(v1, p, n) <==> InPool(v0, p, n)
  {
    if t :| OfType(v0, p, n, t) { assert OfType(v1, p, n, t); }
    if t :| OfType(v1, p, n, t) { assert OfType(v0, p, n, t); }
  }

  lemma PoolFails(v0: Blocks, v1: Blocks, len: nat)
    requires BlocksOk(v0, len) && v1 == v0.(pool := v1.pool) && S.Ok(v1.pool) && v1.pool.sliceNum == v0.pool.sliceNum
    requires v1.pool.live == v0.pool.live
    ensures BlocksOk(v1, len)
  {
    hide S.Ok, S.Size;
  }

  /** A failed attempt of the pool is counted, and changes nothing else. */
  lemma SameHas(v0: Blocks, v1: Blocks)
    requires v1 == v0.(pool := v1.pool) && v1.pool.live == v0.pool.live
    ensures forall p: nat, n: nat :: Has(v1, p, n) <==> Has(v0, p, n)
  {
    forall p: nat, n: nat ensures Has(v1, p, n) <==> Has(v0, p, n) { SamePool(v0, v1, p, n); }
  }

  /** What lies in the pool is not a payload of the heap. */
  lemma NotBoth(v: Blocks, len: nat, p: nat, n: nat)
    requires BlocksOk(v, len) && InPool(v, p, n)
    ensures p >= v.head && p - v.head in v.live ==> p - v.head == v.block
  {
    PoolInside(v, len, p, n);
  }

  /** ... or taken one back. */
  lemma HeapRemoves(v0: Blocks, v1: Blocks, len: nat, b: nat)
    requires BlocksOk(v0, len) && v1 == v0.(live := v0.live - {b}) && b in v0.live && b != v0.block
    ensures BlocksOk(v1, len) && Removed(v0, v1, b + v0.head)
  {
    hide InPool, S.Ok;
    var ptr := b + v0.head;
    forall p: nat, m: nat ensures Has(v1, p, m) <==> p != ptr && Has(v0, p, m) {
      SamePool(v0, v1, p, m);
      if InPool(v0, p, m) { NotBoth(v0, len, p, m); }
    }
  }

  /** ... or resized one in place. */
  lemma HeapResizes(v0: Blocks, v1: Blocks, len: nat, b: nat)
    requires BlocksOk(v0, len) && BlocksOk(v1, len) && v1 == v0.(live := v1.live) && b in v0.live && b != v0.block
    requires b in v1.live && v1.live == v0.live[b := v1.live[b]]
    ensures Replaced(v0, v1, b + v0.head, b + v0.head, v1.live[b])
  {
    hide BlocksOk, InPool;
    var ptr := b + v0.head;
    forall p: nat, m: nat ensures Has(v1, p, m) <==> (p == ptr && m == v1.live[b]) || (p != ptr && Has(v0, p, m)) {
      SamePool(v0, v1, p, m);
      if InPool(v0, p, m) { NotBoth(v0, len, p, m); }
    }
  }

  lemma SameHeap(v0: Blocks, v1: Blocks)
    requires v1.head == v0.head && v1.live == v0.live && v1.block == v0.block
    ensures forall p: nat, n: nat :: InHeap(v1, p, n) <==> InHeap(v0, p, n)
  {}

  lemma NotHeap(v: Blocks, p: nat, n: nat)
    requires p >= v.head && p - v.head in v.live ==> p - v.head == v.block
    ensures !InHeap(v, p, n)
  {}

  /** The pool has handed out a block ... */
  lemma PoolAdds(v0: Blocks, v1: Blocks, len: nat, a: nat, t: nat)
    requires BlocksOk(v0, len) && v1 == v0.(pool := v1.pool) && S.Ok(v1.pool) && v1.pool.sliceNum == v0.pool.sliceNum
    requires t < S.TYPES && S.Size(t) >= S.LINK && |v0.pool.live| == S.TYPES && a !in v0.pool.live[t]
    requires v1.pool.live == v0.pool.live[t := v0.pool.live[t] + {a}]
    ensures BlocksOk(v1, len) && Added(v0, v1, v0.start + a, S.Size(t))
  {
    hide S.Size, S.Ok, InHeap;
    var ptr := v0.start + a;
    assert OfType(v1, ptr, S.Size(t), t);
    SameHeap(v0, v1);
    forall m: nat ensures !Has(v0, ptr, m) {
      if InPool(v0, ptr, m) {
        var u :| OfType(v0, ptr, m, u);
        S.LiveApart(v1.pool, t, a, u, a);
      }
      NotBoth(v1, len, ptr, S.Size(t));
      NotHeap(v0, ptr, m);
    }
    forall p: nat, m: nat ensures InPool(v1, p, m) <==> (p == ptr && m == S.Size(t)) || InPool(v0, p, m) {
      if u :| OfType(v0, p, m, u) { assert OfType(v1, p, m, u); }
      if u :| OfType(v1, p, m, u) && !(p == ptr && u == t) { assert OfType(v0, p, m, u); }
    }
  }

  /** ... or taken one back. */
  lemma PoolRemoves(v0: Blocks, v1: Blocks, len: nat, a: nat, t: nat)
    requires BlocksOk(v0, len) && v1 == v0.(pool := v1.pool) && S.Ok(v1.pool) && v1.pool.sliceNum == v0.pool.sliceNum
    requires |v0.pool.live| == S.TYPES && t < S.TYPES && a in v0.pool.live[t]
    requires forall u :: 0 <= u < S.TYPES ==> v1.pool.live[u] == v0.pool.live[u] - {a}
    ensures BlocksOk(v1, len) && Removed(v0, v1, v0.start + a)
  {
    hide S.Size, S.ListOk;
    var ptr := v0.start + a;
    assert OfType(v0, ptr, S.Size(t), t);
    NotBoth(v0, len, ptr, S.Size(t));
    forall p: nat, m: nat ensures InPool(v1, p, m) <==> p != ptr && InPool(v0, p, m) {
      if u :| OfType(v0, p, m, u) && p != ptr { assert OfType(v1, p, m, u); }
      if u :| OfType(v1, p, m, u) { assert OfType(v0, p, m, u); }
    }
  }

  /** The outcome of a reallocation: the old block gives way to one with its first bytes, or nothing has
      changed. */
  ghost predicate ReallocDone(v0: Blocks, v1: Blocks, m0: seq<int>, m1: seq<int>, ptr: nat, r: Option<nat>, n: nat, keep: nat) {
    match r
    case None => (forall p: nat, m: nat :: Has(v1, p, m) <==> Has(v0, p, m)) && Others(v0, m0, m1, None)
    case Some(q) => Replaced(v0, v1, ptr, q, n) && Others(v0, m0, m1, Some(ptr)) && Copied(m0, ptr, m1, q, keep)
  }

  /** The first `k` bytes of a pool block, or as many as were asked for, fit into whatever serves the
      rounded size iff the rounding does not wrap or the block is no larger than the least heap block. */
  lemma CopyFitsIff(c: Config, k: nat, size: Size)
    requires c.Ok() && size > 0
    ensures Min(k, size) <= Rounded(c, size) <==> size <= WORD - 8 || k <= c.MinSize()
  {
    hide Config.MinSize;
    MinSizeBound(c);
  }

  lemma KeepLess(v0: Blocks, v1: Blocks, m0: seq<int>, m1: seq<int>, ptr: nat, r: Option<nat>, n: nat, keep: nat, keep': nat)
    requires ReallocDone(v0, v1, m0, m1, ptr, r, n, keep) && keep' <= keep
    ensures ReallocDone(v0, v1, m0, m1, ptr, r, n, keep')
  {
    hide Has, Replaced, Others;
  }

  lemma BothThere(v0: Blocks, v1: Blocks, ptr: nat, k: nat, r: nat, n: nat)
    requires Has(v0, ptr, k) && Added(v0, v1, r, n)
    ensures Has(v1, ptr, k) && Has(v1, r, n) && r != ptr
  {
    hide Has;
  }

  lemma OnlyLess(m0: seq<int>, m1: seq<int>, p: nat, k: nat, n: nat)
    requires OnlyIn(p, k, m0, m1) && k <= n
    ensures OnlyIn(p, n, m0, m1)
  {}

  lemma MoveDone(v0: Blocks, v1: Blocks, v2: Blocks, m0: seq<int>, m1: seq<int>, m2: seq<int>, m3: seq<int>,
                 ptr: nat, k: nat, r: nat, n: nat, len: nat)
    requires Has(v0, ptr, k) && Added(v0, v1, r, n) && Removed(v1, v2, ptr) && len <= k && len <= n
    requires Others(v0, m0, m1, None) && Others(v1, m1, m2, Some(r)) && Others(v1, m2, m3, Some(ptr))
    requires Copied(m1, ptr, m2, r, len) && r != ptr
    ensures Replaced(v0, v2, ptr, r, n) && Others(v0, m0, m3, Some(ptr)) && Copied(m0, ptr, m3, r, len)
  {
    hide Has;
    assert Has(v1, r, n) && Same(m2, m3, r, n) && Same(m0, m1, ptr, k);
    forall p: nat, m: nat | Has(v0, p, m) && p != ptr ensures Same(m0, m3, p, m) {
      assert Has(v1, p, m) && p != r;
      assert Same(m0, m1, p, m) && Same(m1, m2, p, m) && Same(m2, m3, p, m);
    }
  }

  /** The heap has resized the block in place. */
  lemma ResizedHere(v0: Blocks, v1: Blocks, c: Config, m0: seq<int>, m1: seq<int>, ptr: nat, k: nat, need: nat)
    requires BlocksOk(v0, |m0|) && v1 == v0.(live := v1.live) && LiveOk(v1.head, v1.live, |m0|) && InHeap(v0, ptr, k) && c.head == v0.head
    requires Reallocated(c, v0.live, m0, v1.live, m1, ptr, ptr, need) && |m1| == |m0|
    ensures BlocksOk(v1, |m0|) && ptr - v0.head in v1.live && v1.live[ptr - v0.head] >= need
    ensures ReallocDone(v0, v1, m0, m1, ptr, Some(ptr), v1.live[ptr - v0.head], Min(k, need))
  {
    hide BlocksOk, LiveOk, Kept, Copied, Has;
    var b := ptr - v0.head;
    Shapes(v0, |m0|);
    assert v1.live == v0.live[b := v1.live[b]];
    HeapStep(v0, v1, |m0|);
    HeapResizes(v0, v1, |m0|, b);
    HeapKeeps(v0, v0.live - {b}, m0, m1, Some(ptr));
    assert Min(k, need) == Min(need, v0.live[b]);
  }

  /** `k_mm_head` with its `fix_pool` */
  class Mm {
    const heap: H.Heap
    const pool: S.Slab
    /** `RHINO_CONFIG_MM_BLK_SIZE` */
    const small: nat
    const block: nat
    /** `pool_start` */
    const start: nat

    ghost predicate Valid()
      reads this, heap, pool
    {
      heap.Valid() && pool.Valid() && BlocksOk(View(), heap.mem.Length)
    }

    ghost function View(): Blocks
      reads this, heap, pool
    {
      Blocks(heap.c.head, heap.Live(), block, start, pool.State())
    }

    /** A pool that has been set up in a block of the heap. */
    constructor (heap: H.Heap, pool: S.Slab, small: nat, block: nat, start: nat)
      requires heap.Valid() && pool.Valid() && block in heap.Live() && start >= block + heap.c.head
      requires start + pool.sliceNum * S.SLICE <= block + heap.c.head + heap.Live()[block]
      requires pool.live == seq(S.TYPES, _ => {})
      ensures Valid() && this.heap == heap && this.pool == pool && this.small == small && this.start == start
      ensures forall p: nat, n: nat :: Has(View(), p, n) <==> InHeap(View(), p, n)
    {
      hide S.Ok, S.Size, Tiling, Indexed, Used, Frees, InMemory, S.SLICE, BlocksOk, LiveOk, Has, InHeap;
      this.heap, this.pool, this.small, this.block, this.start := heap, pool, small, block, start;
      new;
      HeapApart();
      NoneInPool(View(), heap.mem.Length);
    }

    /** Blocks of the heap lie in memory, and apart. */
    lemma HeapApart()
      requires heap.Valid()
      ensures LiveOk(heap.c.head, heap.Live(), heap.mem.Length)
    {
      hide Tiling, Indexed, Used, Frees, InMemory;
      forall b | b in heap.Live() ensures b + heap.c.head + heap.Live()[b] <= heap.mem.Length {
        UsedAt(heap.hdr, heap.fixed, b);
        FitsMemory(heap.c, heap.hdr, heap.mem.Length, b);
      }
      forall a, b | a in heap.Live() && b in heap.Live() && a < b ensures a + heap.c.head + heap.Live()[a] <= b {
        PayloadsApart(heap.c, heap.hdr, heap.top, heap.fixed, heap.mem.Length, a, b);
      }
    }

    lemma ConfigOk()
      requires Valid()
      ensures heap.c.Ok()
    {
      hide BlocksOk, Tiling, Indexed, InMemory, Config.Ok;
    }

    ghost predicate PoolServes(size: nat)
      reads pool
    {
      size <= small && exists t :: S.TypeOf(size) <= t < S.TYPES && t < |pool.lists| && !S.Exhausted(pool.State(), t)
    }

    /** Some free block of the heap has the bytes asked for. */
    ghost predicate HeapServes(size: Size)
      requires heap.c.Ok()
      reads heap
    {
      Available(Frees(heap.hdr), Asked(heap.c, size))
    }

    /** A reallocation asks both again, for the rounded size. */
    lemma ServesRounded(size: Size)
      requires heap.Valid()
      ensures HeapServes(Rounded(heap.c, size)) <==> HeapServes(size)
    {
      hide Tiling, Indexed, Used, Frees, InMemory, Available, Level, Rounded;
      ServedIff(heap.c, heap.hdr, heap.top, heap.fixed, size);
    }

    /** The first part of `k_mm_alloc`: a small request goes to the pool. */
    method FromPool(size: Size) returns (ptr: Option<nat>, ghost n: nat)
      requires Valid() && size <= small
      modifies pool
      ensures Valid() && View() == old(View()).(pool := View().pool) && (ptr.None? <==> !old(PoolServes(size)))
      ensures ptr.None? ==> pool.live == old(pool.live)
      ensures ptr.Some? ==> Added(old(View()), View(), ptr.value, n) && n >= size
    {
      hide S.Ok, S.Size, S.TypeOf, S.Exhausted, S.Cut, Added, BlocksOk, H.Heap.Valid;
      ghost var v0 := View();
      Shapes(v0, heap.mem.Length);
      var blk, t := pool.Alloc(size);
      n := 0;
      if blk.None? {
        PoolFails(v0, View(), heap.mem.Length);
        return None, n;
      }
      S.TypeFits(size, t);
      PoolAdds(v0, View(), heap.mem.Length, blk.value, t);
      ptr, n := Some(start + blk.value), S.Size(t);
    }

    /** The rest goes to the heap. */
    method FromHeap(size: Size) returns (ptr: Option<nat>, ghost n: nat)
      requires Valid()
      modifies heap, heap.mem
      ensures Valid() && View() == old(View()).(live := View().live) && (ptr.None? <==> size == 0 || !old(HeapServes(size)))
      ensures ptr.None? ==> View() == old(View())
      ensures ptr.Some? ==> Added(old(View()), View(), ptr.value, n) && n >= Rounded(heap.c, size) && FitsClosely(heap.c, n, size)
      ensures Others(old(View()), old(heap.mem[..]), heap.mem[..], None)
    {
      hide S.Ok, S.Size, Tiling, Indexed, Used, Frees, InMemory, Level, Rounded, Available, Kept, Added, Others, BlocksOk, LiveOk, Asked, FitsClosely;
      ghost var v0, m0 := View(), heap.mem[..];
      Shapes(v0, heap.mem.Length);
      ptr := heap.Alloc(size);
      HeapApart();
      HeapKeeps(v0, v0.live, m0, heap.mem[..], None);
      n := 0;
      if ptr.Some? {
        HeapStep(v0, View(), heap.mem.Length);
        HeapAdds(v0, View(), heap.mem.Length, ptr.value - heap.c.head);
        n := heap.Live()[ptr.value - heap.c.head];
      }
    }

    /** `k_mm_alloc`: fails exactly when neither can serve the request; no other block is touched. */
    method Alloc(size: Size) returns (ptr: Option<nat>, ghost n: nat)
      requires Valid()
      modifies heap, pool, heap.mem
      ensures Valid()
      ensures ptr.None? <==> size == 0 || (!old(PoolServes(size)) && !old(HeapServes(size)))
      ensures ptr.None? ==> View() == old(View()).(pool := View().pool) && View().pool.live == old(View()).pool.live
      ensures ptr.Some? ==> Added(old(View()), View(), ptr.value, n) && n >= Min(size, Rounded(heap.c, size))
      ensures Others(old(View()), old(heap.mem[..]), heap.mem[..], None)
    {
      hide S.Ok, S.Size, Tiling, Indexed, Used, Frees, InMemory, Level, Rounded, Available, Kept, Has, Same, S.Exhausted, S.TypeOf;
      ghost var v0, m0 := View(), heap.mem[..];
      if size == 0 {
        OthersSame(v0, heap.mem.Length, m0);
        return None, 0;
      }
      if size <= small {
        ptr, n := FromPool(size);
        if ptr.Some? {
          OthersSame(v0, heap.mem.Length, m0);
          return;
        }
      }
      SameHas(v0, View());
      ptr, n := FromHeap(size);
    }

    /** `k_mm_free`: the block goes back to where it came from, and no other is touched. */
    method Free(ptr: Option<nat>)
      requires Valid() && (ptr.Some? ==> exists n: nat :: Has(View(), ptr.value, n))
      modifies heap, pool, heap.mem
      ensures Valid()
      ensures if ptr.Some? then Removed(old(View()), View(), ptr.value) else View() == old(View())
      ensures Others(old(View()), old(heap.mem[..]), heap.mem[..], ptr)
    {
      hide S.Ok, S.Size, Has, BlocksOk, Removed, Others, H.Heap.Valid, S.SLICE;
      if ptr.None? {
        OthersSame(View(), heap.mem.Length, heap.mem[..]);
        return;
      }
      ghost var n: nat :| Has(View(), ptr.value, n);
      Source(View(), heap.mem.Length, ptr.value, n);
      if start <= ptr.value < start + pool.sliceNum * S.SLICE {
        ToPool(ptr.value, n);
      } else {
        ToHeap(ptr.value, n);
      }
    }

    /** `krhino_mblk_free_nolock`; the link to the next free block takes the place of the first bytes. */
    method ToPool(ptr: nat, ghost n: nat)
      requires Valid() && InPool(View(), ptr, n)
      modifies pool, heap.mem
      ensures Valid() && View() == old(View()).(pool := View().pool) && Removed(old(View()), View(), ptr)
      ensures Others(old(View()), old(heap.mem[..]), heap.mem[..], Some(ptr))
    {
      hide S.Ok, S.Size, Has, BlocksOk, Removed, Others, H.Heap.Valid, S.SLICE, S.Cut;
      ghost var v0, m0 := View(), heap.mem[..];
      ghost var t :| OfType(v0, ptr, n, t);
      Shapes(v0, heap.mem.Length);
      PoolInside(v0, heap.mem.Length, ptr, n);
      S.PushedOk(pool.State(), t, ptr - start);
      heap.Scribble(ptr, S.LINK);
      var ok := pool.Free(ptr - start);
      PoolRemoves(v0, View(), heap.mem.Length, ptr - start, t);
      InPoolHas(v0, ptr, n);
      WriteSpares(v0, m0, heap.mem[..], ptr, n, S.LINK);
    }

    method ToHeap(ptr: nat, ghost n: nat)
      requires Valid() && InHeap(View(), ptr, n)
      modifies heap, heap.mem
      ensures Valid() && View() == old(View()).(live := View().live) && Removed(old(View()), View(), ptr)
      ensures Others(old(View()), old(heap.mem[..]), heap.mem[..], Some(ptr))
    {
      hide S.Ok, S.Size, Tiling, Indexed, Used, Frees, InMemory, Available, Kept, Has, Removed, Others, BlocksOk;
      ghost var v0, m0 := View(), heap.mem[..];
      Shapes(v0, heap.mem.Length);
      heap.Free(Some(ptr));
      HeapRemoves(v0, View(), heap.mem.Length, ptr - heap.c.head);
      HeapKeeps(v0, heap.Live(), m0, heap.mem[..], Some(ptr));
    }

    /** The tail of both reallocations: the bytes go to the new block, and the old one is freed. */
    method MoveTo(ptr: nat, ghost k: nat, r: nat, ghost n: nat, len: nat, ghost v0: Blocks, ghost m0: seq<int>)
      requires Valid() && Has(v0, ptr, k) && Added(v0, View(), r, n) && BlocksOk(v0, heap.mem.Length) && |m0| == heap.mem.Length
      requires Others(v0, m0, heap.mem[..], None) && len <= k && len <= n && v0.start == start && v0.pool.sliceNum == pool.sliceNum
      modifies heap, pool, heap.mem
      ensures Valid() && Replaced(v0, View(), ptr, r, n)
      ensures Others(v0, m0, heap.mem[..], Some(ptr)) && Copied(m0, ptr, heap.mem[..], r, len)
    {
      hide S.Ok, S.Size, Has, BlocksOk, Removed, Replaced, Others, H.Heap.Valid, Copied, OnlyIn;
      ghost var v1, m1 := View(), heap.mem[..];
      BothThere(v0, v1, ptr, k, r, n);
      BlocksApart(v1, heap.mem.Length, ptr, k, r, n);
      heap.MemCopy(r, ptr, len);
      ghost var m2 := heap.mem[..];
      OnlyLess(m1, m2, r, len, n);
      WriteSpares(v1, m1, m2, r, n, n);
      Free(Some(ptr));
      MoveDone(v0, v1, View(), m0, m1, m2, heap.mem[..], ptr, k, r, n, len);
    }

    /** `k_mm_realloc` of a block of the pool. */
    method ReallocSmall(ptr: nat, ghost k: nat, size: Size) returns (r: Option<nat>, ghost n: nat)
      requires Valid() && InPool(View(), ptr, k) && size > 0 && (size <= WORD - 8 || k <= heap.c.MinSize())
      modifies heap, pool, heap.mem
      ensures Valid() && (r.None? <==> !old(PoolServes(size)) && !old(HeapServes(size))) && (r.Some? ==> n >= Min(size, Rounded(heap.c, size)))
      ensures ReallocDone(old(View()), View(), old(heap.mem[..]), heap.mem[..], ptr, r, n, Min(k, size))
    {
      hide S.Ok, S.Size, Has, BlocksOk, Added, Others, Copied, Replaced, H.Heap.Valid, PoolServes, HeapServes;
      ghost var v0, m0 := View(), heap.mem[..];
      InPoolHas(v0, ptr, k);
      var had := BlockSize(ptr, k);
      ConfigOk();
      CopyFitsIff(heap.c, k, size);
      r, n := Alloc(size);
      if r.None? {
        SameHas(v0, View());
        return;
      }
      MoveTo(ptr, k, r.value, n, Min(had, size), v0, m0);
    }

    /** `krhino_mblk_get_size` */
    method BlockSize(ptr: nat, ghost k: nat) returns (size: nat)
      requires Valid() && InPool(View(), ptr, k)
      ensures size == k
    {
      hide S.Ok, BlocksOk, H.Heap.Valid;
      ghost var t :| OfType(View(), ptr, k, t);
      Shapes(View(), heap.mem.Length);
      S.PushedOk(pool.State(), t, ptr - start);
      size := S.Size(pool.sliceType[(ptr - start) / S.SLICE]);
    }

    /** ... of a block of the heap. */
    method ReallocLarge(ptr: nat, ghost k: nat, size: Size) returns (r: Option<nat>, ghost n: nat)
      requires Valid() && InHeap(View(), ptr, k) && size > 0 && !(start <= ptr < start + pool.sliceNum * S.SLICE)
      modifies heap, pool, heap.mem
      ensures Valid() && (r.Some? ==> n >= Rounded(heap.c, size))
      ensures var need := Rounded(heap.c, size);
              && (r.None? <==> old(heap.Tight(ptr - heap.c.head, need)) && !old(PoolServes(need)) && !old(HeapServes(need)))
              && (r.None? <==> old(heap.Tight(ptr - heap.c.head, Asked(heap.c, size))) && !old(PoolServes(need)) && !old(HeapServes(size)))
      ensures ReallocDone(old(View()), View(), old(heap.mem[..]), heap.mem[..], ptr, r, n, Min(k, Rounded(heap.c, size)))
    {
      hide S.Ok, S.Size, S.SLICE, BlocksOk, LiveOk, Added, Others, Copied, Replaced, PoolServes, H.Heap.Tight, Asked;
      hide Level, Available, Tiling, Indexed, Used, Frees, InMemory, Rounded, Kept;
      ghost var v0, m0 := View(), heap.mem[..];
      Shapes(v0, heap.mem.Length);
      var need := Rounded(heap.c, size);
      RoundedTwice(heap.c, size);
      UsedAt(heap.hdr, heap.fixed, ptr - heap.c.head);
      heap.TightIff(ptr - heap.c.head, size);
      ServesRounded(size);
      var had := heap.hdr[ptr - heap.c.head].size;
      var ok := heap.InPlace(ptr, need);
      if ok {
        HeapApart();
        ResizedHere(v0, View(), heap.c, m0, heap.mem[..], ptr, k, need);
        return Some(ptr), heap.Live()[ptr - heap.c.head];
      }
      r, n := Alloc(need);
      if r.None? {
        SameHas(v0, View());
        return;
      }
      MoveTo(ptr, k, r.value, n, Min(had, need), v0, m0);
    }

    /** `k_mm_realloc` */
    method Realloc(ptr: Option<nat>, size: Size) returns (r: Option<nat>, ghost n: nat)
      requires Valid() && (ptr.Some? ==> exists k: nat :: Has(View(), ptr.value, k))
      requires ptr.Some? && start <= ptr.value < start + pool.sliceNum * S.SLICE ==>
                 size <= WORD - 8 || forall k: nat :: Has(View(), ptr.value, k) ==> k <= heap.c.MinSize()
      modifies heap, pool, heap.mem
      ensures Valid()
      ensures ptr.None? ==>
                && (r.None? <==> size == 0 || (!old(PoolServes(size)) && !old(HeapServes(size))))
                && (r.Some? ==> Added(old(View()), View(), r.value, n)) && Others(old(View()), old(heap.mem[..]), heap.mem[..], None)
      ensures ptr.Some? && size == 0 ==>
                r.None? && Removed(old(View()), View(), ptr.value) && Others(old(View()), old(heap.mem[..]), heap.mem[..], ptr)
      ensures ptr.Some? && size > 0 ==>
                exists k: nat :: Has(old(View()), ptr.value, k) &&
                  ReallocDone(old(View()), View(), old(heap.mem[..]), heap.mem[..], ptr.value, r, n, Min(k, Min(size, Rounded(heap.c, size))))
      ensures ptr.Some? && size > 0 ==>
                (r.None? <==>
                  if start <= ptr.value < start + pool.sliceNum * S.SLICE then !old(PoolServes(size)) && !old(HeapServes(size))
                  else old(heap.Tight(ptr.value - heap.c.head, Asked(heap.c, size))) && !old(PoolServes(Rounded(heap.c, size))) &&
                       !old(HeapServes(size)))
      ensures r.Some? ==> n >= Min(size, Rounded(heap.c, size))
    {
      hide S.Ok, S.Size, Has, BlocksOk, Added, Removed, Others, ReallocDone, H.Heap.Valid, PoolServes, HeapServes, S.SLICE;
      n := 0;
      if ptr.None? {
        r, n := Alloc(size);
        return;
      }
      if size == 0 {
        Free(ptr);
        return None, n;
      }
      ConfigOk();
      ghost var v0, m0 := View(), heap.mem[..];
      ghost var k: nat :| Has(v0, ptr.value, k);
      Source(v0, heap.mem.Length, ptr.value, k);
      if start <= ptr.value < start + pool.sliceNum * S.SLICE {
        r, n := ReallocSmall(ptr.value, k, size);
      } else {
        r, n := ReallocLarge(ptr.value, k, size);
        KeepLess(v0, View(), m0, heap.mem[..], ptr.value, r, n, Min(k, Rounded(heap.c, size)), Min(k, Min(size, Rounded(heap.c, size))));
      }
    }
  }

  lemma NoneInPool(v: Blocks, len: nat)
    requires v.pool.live == seq(S.TYPES, _ => {}) && S.Ok(v.pool) && LiveOk(v.head, v.live, len) && v.block in v.live
    requires v.start >= v.block + v.head && v.start + v.pool.sliceNum * S.SLICE <= v.block + v.head + v.live[v.block]
    ensures BlocksOk(v, len) && forall p: nat, n: nat :: Has(v, p, n) <==> InHeap(v, p, n)
  {
    hide S.Ok, S.Size;
  }

  /** The test of `krhino_mblk_check` tells where a block came from. */
  lemma Source(v: Blocks, len: nat, p: nat, n: nat)
    requires BlocksOk(v, len) && Has(v, p, n)
    ensures if v.start <= p < v.start + v.pool.sliceNum * S.SLICE then InPool(v, p, n) else InHeap(v, p, n)
  {
    if InPool(v, p, n) { PoolInside(v, len, p, n); }
  }

  lemma InPoolHas(v: Blocks, p: nat, n: nat)
    requires InPool(v, p, n)
    ensures Has(v, p, n)
  {}
}
