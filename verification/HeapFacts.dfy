/** Facts about heap layouts, as values, on which the in-place operations of k_mm.c rest. */
module HeapFacts {
  import opened Bits
  import opened HeapTiles
  import opened HeapIndex
  import opened HeapSums

  /** `size_t` is 32 bits wide. */
  const WORD: nat := 0x1_0000_0000
  type Size = n: nat | n < WORD

  /** `MM_ALIGN_UP`, on 32-bit words: the last seven sizes wrap to zero. */
  function AlignUp(n: Size): (r: Size)
    ensures Aligned(r)
    ensures n <= WORD - 8 ==> n <= r < n + 8
    ensures n > WORD - 8 ==> r == 0
  {
    (n + 7) % WORD / 8 * 8
  }

  /** The free-list links at the start of a free block's payload. */
  const LINKS: nat := 8

  /** The payload a request is rounded up to. */
  function Rounded(c: Config, size: Size): (r: Size)
    requires c.Ok()
    ensures Aligned(r) && r >= c.MinSize() && (size <= WORD - 8 ==> r >= size)
  {
    MinSizeBound(c);
    if AlignUp(size) < c.MinSize() then c.MinSize() else AlignUp(size)
  }

  lemma MinSizeBound(c: Config)
    requires c.Ok()
    ensures 0 < c.MinSize() < WORD - 8
  {
    Pow2Mono(c.minBit - 1, 30);
    PowAdd(16, 14);
    PowersOfTwo();
    PowAdd(10, 4);
  }

  /** A request is served with enough bytes unless it is one of the last seven sizes, whose
      rounding wraps to the smallest block. */
  lemma RoundedIff(c: Config, size: Size)
    requires c.Ok()
    ensures Rounded(c, size) >= size <==> size <= WORD - 8
  {
    MinSizeBound(c);
  }

  /** The rounded size is the least that is aligned, covers the request, and is no smaller than the
      smallest block; a request whose rounding wraps gets the smallest block. */
  lemma RoundedLeast(c: Config, size: Size, m: nat)
    requires c.Ok()
    ensures Aligned(m) && m >= size && m >= c.MinSize() ==> Rounded(c, size) <= m
    ensures size > WORD - 8 ==> Rounded(c, size) == c.MinSize()
  {
    MinSizeBound(c);
    if Aligned(m) && m >= size { assert m % 8 == 0; }
  }

  /** The bytes a request comes to: those asked for, unless their rounding wraps. */
  function Asked(c: Config, size: Size): (r: Size)
    requires c.Ok()
  {
    MinSizeBound(c);
    if size <= WORD - 8 then size else c.MinSize()
  }

  /** `n` bytes for a request of `size`: enough of them, and not another block's worth to spare. */
  predicate FitsClosely(c: Config, n: nat, size: Size)
    requires c.Ok()
  {
    Asked(c, size) <= n < Max(c.MinSize(), Asked(c, size) + 8) + c.head + c.MinSize()
  }

  lemma RoundedFits(c: Config, n: nat, size: Size)
    requires c.Ok() && Rounded(c, size) <= n < Rounded(c, size) + c.head + c.MinSize()
    ensures FitsClosely(c, n, size)
  {
    MinSizeBound(c);
  }

  /** Rounding turns away no request that an indexed block could serve: a block has the rounded size
      and a level exactly when it has the bytes asked for. */
  lemma ServedIff(c: Config, h: Tiles, top: map<nat, nat>, fixed: set<nat>, size: Size)
    requires c.Ok() && Tiling(c, h, top, fixed)
    ensures Level(c, Rounded(c, size)).Some? && Available(Frees(h), Rounded(c, size)) <==> Available(Frees(h), Asked(c, size))
    ensures Available(Frees(h), Rounded(c, size)) <==> Available(Frees(h), Asked(c, size))
  {
    hide Tiling, Frees, Level, Rounded, Config.MinSize;
    var need := Rounded(c, size);
    RoundedLeast(c, size, need);
    if b :| b in Frees(h) && Frees(h)[b] >= Asked(c, size) {
      FreeAt(h, b);
      FreeSize(c, h, top, fixed, b);
      FreeHasLevel(c, h, top, fixed, b);
      RoundedLeast(c, size, h[b].size);
      LevelMono(c, need, h[b].size);
    }
  }

  lemma FreeSize(c: Config, h: Tiles, top: map<nat, nat>, fixed: set<nat>, b: nat)
    requires Tiling(c, h, top, fixed) && b in h && h[b].free
    ensures Aligned(h[b].size) && h[b].size >= c.MinSize()
  {
    hide Apart, NeighbourOk, Config.MinSize;
    assert BlockOk(c, h, top, fixed, b);
  }

  /** The answer to a request, by what is free: none exactly if it is empty or every free block is smaller
      than what was asked for. */
  ghost predicate AllocAnswer(c: Config, frees: map<nat, nat>, live: map<nat, nat>, size: Size, ptr: Option<nat>)
    requires c.Ok()
  {
    && (ptr.None? <==> size == 0 || !Available(frees, Asked(c, size)))
    && (ptr.Some? ==> ptr.value >= c.head && ptr.value - c.head in live && FitsClosely(c, live[ptr.value - c.head], size))
  }

  /** `removesize`, which saturates at zero. */
  function RemoveSize(used: nat, size: nat): nat {
    if used > size then used - size else 0
  }

  lemma RoundedTwice(c: Config, size: Size)
    requires c.Ok()
    ensures Rounded(c, Rounded(c, size)) == Rounded(c, size) > 0
  {
    MinSizeBound(c);
  }

  /** Every free block is small enough to have a level. */
  lemma FreeHasLevel(c: Config, h: Tiles, top: map<nat, nat>, fixed: set<nat>, b: nat)
    requires c.Ok() && Tiling(c, h, top, fixed) && b in h
    ensures Level(c, h[b].size).Some? && (b !in fixed ==> h[b].size >= c.MinSize() >= LINKS)
  {
    hide Apart, Level, Pow2, Aligned, Config.MinSize, Config.Ok, NeighbourOk;
    assert BlockOk(c, h, top, fixed, b) && (b < top[b] ==> BlockOk(c, h, top, fixed, Next(c, h, b)));
    LevelSome(c, h[b].size);
    MinSizeLinks(c);
  }

  lemma MinSizeLinks(c: Config)
    requires c.Ok()
    ensures c.MinSize() >= LINKS
  {
    hide Pow2;
    MinSizeBound(c);
  }

  /** The bytes of free-list links: those of `b` and of every listed block. */
  ghost predicate LinkByte(c: Config, frees: map<nat, nat>, b: nat, i: int) {
    exists x :: (x == b || x in frees) && x + c.head <= i < x + c.head + LINKS
  }

  /** The two memories differ only in the `n` bytes at `a`. */
  ghost predicate OnlyIn(a: nat, n: nat, m0: seq<int>, m1: seq<int>) {
    |m0| == |m1| && forall i :: 0 <= i < |m0| && !(a <= i < a + n) ==> m1[i] == m0[i]
  }

  /** The two memories differ only in free-list links. */
  ghost predicate OnlyLinks(c: Config, frees: map<nat, nat>, b: nat, m0: seq<int>, m1: seq<int>) {
    |m0| == |m1| && forall i :: 0 <= i < |m0| && !LinkByte(c, frees, b, i) ==> m1[i] == m0[i]
  }

  ghost predicate InMemory(c: Config, h: Tiles, len: nat) {
    forall b :: b in h ==> Next(c, h, b) <= len
  }

  /** A block that is handed out. */
  predicate InUse(h: Tiles, fixed: set<nat>, b: nat) {
    b in h && !h[b].free && b !in fixed
  }

  /** `b` has a right neighbour. */
  predicate CanTake(c: Config, h: Tiles, b: nat) {
    b in h && Next(c, h, b) in h && Next(c, h, b) != b
  }

  // ------------------------------------------------ what the steps do, on values

  lemma TakeFacts(c: Config, h: Tiles, top: map<nat, nat>, fixed: set<nat>, len: nat, b: nat)
    requires c.Ok() && Tiling(c, h, top, fixed) && InMemory(c, h, len) && b in h && h[b].free
    ensures CanTake(c, h, b) && b + c.head <= len && Next(c, h, b) + c.head <= len
    ensures b in Frees(h) && Frees(h)[b] == h[b].size && Level(c, h[b].size).Some?
    ensures forall x :: x in Frees(h) ==> x + c.head + LINKS <= len
    ensures var h1 := Take(c, h, b);
            && h1 == h[b := h[b].(free := false)][Next(c, h, b) := h[Next(c, h, b)].(prevFree := false)]
            && Tiling(c, h1, top, fixed) && InMemory(c, h1, len) && Frees(h1) == Frees(h) - {b}
  {
    hide Frees, Used, Level;
    FreeAt(h, b);
    FreeHasLevel(c, h, top, fixed, b);
    LinksFit(c, h, top, fixed, len);
    hide Tiling;
    TakeTiling(c, h, top, fixed, b);
    TakeMaps(c, h, fixed, b);
    SameInMemory(c, h, Take(c, h, b), len);
  }

  lemma ReleaseFacts(c: Config, h: Tiles, top: map<nat, nat>, fixed: set<nat>, len: nat, b: nat)
    requires c.Ok() && Tiling(c, h, top, fixed) && InMemory(c, h, len) && InUse(h, fixed, b) && !h[b].prevFree
    requires Next(c, h, b) in h ==> !h[Next(c, h, b)].free
    ensures CanTake(c, h, b) && b + c.head <= len && Next(c, h, b) + c.head <= len
    ensures b !in Frees(h) && Level(c, h[b].size).Some?
    ensures forall x :: x == b || x in Frees(h) ==> x + c.head + LINKS <= len
    ensures var h1 := Release(c, h, b);
            && h1 == h[b := h[b].(free := true)][Next(c, h, b) := h[Next(c, h, b)].(prevFree := true, prev := b)]
            && Tiling(c, h1, top, fixed) && InMemory(c, h1, len) && Frees(h1) == Frees(h)[b := h[b].size]
            && forall x :: x == b || x in Frees(h) ==> x in h1 && h1[x].free
  {
    hide Frees, Used, Level;
    FreeAt(h, b);
    FreeHasLevel(c, h, top, fixed, b);
    LinksFit(c, h, top, fixed, len);
    hide Tiling;
    ReleaseTiling(c, h, top, fixed, b);
    ReleaseMaps(c, h, fixed, b);
    var h1 := Release(c, h, b);
    SameInMemory(c, h, h1, len);
    forall x | x == b || x in Frees(h) ensures x in h1 && h1[x].free {
      FreeAt(h1, x);
    }
  }

  lemma SameInMemory(c: Config, h: Tiles, h': Tiles, len: nat)
    requires InMemory(c, h, len) && h'.Keys == h.Keys && forall x :: x in h ==> h'[x].size == h[x].size
    ensures InMemory(c, h', len)
  {
    assert forall x :: x in h' ==> Next(c, h', x) == Next(c, h, x);
  }

  lemma JoinFacts(c: Config, h: Tiles, top: map<nat, nat>, fixed: set<nat>, len: nat, b: nat)
    requires c.Ok() && Tiling(c, h, top, fixed) && InMemory(c, h, len) && InUse(h, fixed, b)
    requires InUse(h, fixed, Next(c, h, b))
    ensures b + c.head <= len && Next(c, h, b) != b
    ensures var n := Next(c, h, b); var h1 := Join(c, h, b);
            && h1 == h[b := h[b].(size := h[b].size + c.head + h[n].size)] - {n}
            && Tiling(c, h1, top - {n}, fixed) && InMemory(c, h1, len) && Frees(h1) == Frees(h)
  {
    hide Frees, Used, Tiling;
    JoinTiling(c, h, top, fixed, b);
    JoinMaps(c, h, fixed, b);
    var h1 := Join(c, h, b);
    forall x | x in h1 ensures Next(c, h1, x) <= len {
      assert Next(c, h, x) <= len && Next(c, h, Next(c, h, b)) <= len;
    }
  }

  lemma CutFacts(c: Config, h: Tiles, top: map<nat, nat>, fixed: set<nat>, len: nat, b: nat, size: nat)
    requires c.Ok() && Tiling(c, h, top, fixed) && InMemory(c, h, len) && InUse(h, fixed, b) && CanCut(c, h, b, size)
    ensures b in top && h[b].size >= size + c.head && b + c.head + size !in h && Next(c, h, b) <= len
    ensures var nb := b + c.head + size; var h1 := Cut(c, h, b, size);
            && h1 == h[b := h[b].(size := size)][nb := Hdr(h[b].size - size - c.head, false, false, b)]
            && Tiling(c, h1, top[nb := top[b]], fixed) && InMemory(c, h1, len) && Frees(h1) == Frees(h)
  {
    assert b in top && Next(c, h, b) <= len && h[b].size >= size + c.head;
    hide Tiling, Used, Frees, Cut, CanCut, InMemory;
    CutIs(c, h, b, size);
    CutTiling(c, h, top, fixed, b, size);
    CutInMemory(c, h, len, b, size);
    CutMaps(c, h, fixed, b, size);
  }

  lemma CutIs(c: Config, h: Tiles, b: nat, size: nat)
    requires b in h && h[b].size >= size + c.head
    ensures Cut(c, h, b, size) ==
              h[b := h[b].(size := size)][b + c.head + size := Hdr(h[b].size - size - c.head, false, false, b)]
  {}

  lemma CutInMemory(c: Config, h: Tiles, len: nat, b: nat, size: nat)
    requires InMemory(c, h, len) && CanCut(c, h, b, size)
    ensures InMemory(c, Cut(c, h, b, size), len)
  {
    var h' := Cut(c, h, b, size);
    forall x | x in h' ensures Next(c, h', x) <= len {
      assert x in h ==> Next(c, h, x) <= len;
      assert Next(c, h, b) <= len;
    }
  }

  /** Writing a header leaves live payloads alone. */
  lemma HeadersSpare(c: Config, h: Tiles, top: map<nat, nat>, fixed: set<nat>, b: nat, m0: seq<int>, m1: seq<int>)
    requires c.Ok() && Tiling(c, h, top, fixed) && b in h
    requires OnlyIn(b, c.head, m0, m1)
    ensures Kept(c.head, Used(h, fixed), m0, m1)
  {
    hide Used, Frees, AllOk;
    var live := Used(h, fixed);
    forall y | y in live ensures KeptAt(c.head, y, live[y], m0, m1) {
      UsedAt(h, fixed, y);
      if y != b { ApartBlocks(c, h, top, fixed, b, y); }
    }
  }

  /** Links lie inside memory: every listed block has room for them. */
  lemma LinksFit(c: Config, h: Tiles, top: map<nat, nat>, fixed: set<nat>, len: nat)
    requires c.Ok() && Tiling(c, h, top, fixed) && InMemory(c, h, len)
    ensures forall x :: x in Frees(h) ==> x + c.head + LINKS <= len
  {
    hide Used, Frees, Tiling;
    forall x | x in Frees(h) ensures x + c.head + LINKS <= len {
      FreeAt(h, x);
      FreeBlock(c, h, top, fixed, x);
      assert Next(c, h, x) <= len;
    }
  }

  /** Writing links of free blocks leaves live payloads alone. */
  lemma LinksSpare(c: Config, h: Tiles, top: map<nat, nat>, fixed: set<nat>, b: nat, m0: seq<int>, m1: seq<int>)
    requires c.Ok() && Tiling(c, h, top, fixed) && b in Frees(h) && OnlyLinks(c, Frees(h), b, m0, m1)
    ensures Kept(c.head, Used(h, fixed), m0, m1)
  {
    hide Used, Frees, Tiling, OnlyLinks, Kept;
    forall x | x == b || x in Frees(h) ensures x in h && h[x].free { FreeAt(h, x); }
    LinksSpareBut(c, h, top, fixed, Frees(h), b, m0, m1);
  }

  lemma LinksSpareBut(c: Config, h: Tiles, top: map<nat, nat>, fixed: set<nat>, frees: map<nat, nat>, b: nat, m0: seq<int>, m1: seq<int>)
    requires c.Ok() && Tiling(c, h, top, fixed) && OnlyLinks(c, frees, b, m0, m1)
    requires forall x :: x == b || x in frees ==> x in h && h[x].free
    ensures Kept(c.head, Used(h, fixed), m0, m1)
  {
    hide Used, Frees, Tiling;
    var live := Used(h, fixed);
    forall y | y in live ensures KeptAt(c.head, y, live[y], m0, m1) {
      UsedAt(h, fixed, y);
      forall i | y + c.head <= i < y + c.head + live[y] && i < |m0| ensures !LinkByte(c, frees, b, i) {
        NotALink(c, h, top, fixed, frees, b, y, i);
      }
    }
  }

  lemma NotALink(c: Config, h: Tiles, top: map<nat, nat>, fixed: set<nat>, frees: map<nat, nat>, b: nat, y: nat, i: nat)
    requires c.Ok() && Tiling(c, h, top, fixed) && y in h && !h[y].free
    requires forall x :: x == b || x in frees ==> x in h && h[x].free
    requires y + c.head <= i < Next(c, h, y)
    ensures !LinkByte(c, frees, b, i)
  {
    hide Tiling, BlockOk;
    if LinkByte(c, frees, b, i) {
      var x: nat :| (x == b || x in frees) && x + c.head <= i < x + c.head + LINKS;
      FreeBlock(c, h, top, fixed, x);
      ApartBlocks(c, h, top, fixed, x, y);
    }
  }

  lemma FreeBlock(c: Config, h: Tiles, top: map<nat, nat>, fixed: set<nat>, x: nat)
    requires c.Ok() && Tiling(c, h, top, fixed) && x in h && h[x].free
    ensures h[x].size >= LINKS
  {
    hide Apart, Level;
    FreeHasLevel(c, h, top, fixed, x);
    assert BlockOk(c, h, top, fixed, x);
  }

  lemma ApartBlocks(c: Config, h: Tiles, top: map<nat, nat>, fixed: set<nat>, x: nat, y: nat)
    requires Tiling(c, h, top, fixed) && x in h && y in h && x != y
    ensures Next(c, h, x) <= y || Next(c, h, y) <= x
  {}

  lemma KeptSelf(head: nat, live: map<nat, nat>, m: seq<int>)
    ensures Kept(head, live, m, m)
  {}

  ghost predicate Covers(live: map<nat, nat>, more: map<nat, nat>) {
    forall b :: b in live ==> b in more && live[b] <= more[b]
  }

  lemma KeptSub(head: nat, live: map<nat, nat>, more: map<nat, nat>, m0: seq<int>, m1: seq<int>)
    requires Kept(head, more, m0, m1)
    requires Covers(live, more)
    ensures Kept(head, live, m0, m1)
  {
    forall b | b in live ensures KeptAt(head, b, live[b], m0, m1) {
      assert KeptAt(head, b, more[b], m0, m1);
    }
  }

  /** A free block stands between used blocks. */
  lemma FreeFacts(c: Config, h: Tiles, top: map<nat, nat>, fixed: set<nat>, b: nat)
    requires c.Ok() && Tiling(c, h, top, fixed) && b in h && h[b].free
    ensures b !in fixed && !h[b].prevFree && CanTake(c, h, b) && !h[Next(c, h, b)].free
  {
    assert BlockOk(c, h, top, fixed, b);
    assert h[b].prevFree ==> BlockOk(c, h, top, fixed, h[b].prev);
  }

  // ------------------------------------------------------- two steps together

  /** The layout after `b` has absorbed its free right neighbour `n`, and has `size` bytes. */
  ghost predicate Absorbed(c: Config, h: Tiles, fixed: set<nat>, b: nat, n: nat, size: nat, h2: Tiles)
    requires b in h
  {
    && b in h2 && h2[b] == h[b].(size := size)
    && Next(c, h2, b) in h2 && !h2[Next(c, h2, b)].free
    && Used(h2, fixed) == Used(h, fixed)[b := size]
    && Frees(h2) == Frees(h) - {n}
  }

  lemma AbsorbHdr(c: Config, h: Tiles, b: nat)
    requires c.Ok() && CanTake(c, h, b) && CanTake(c, h, Next(c, h, b)) && !h[b].free
    requires h[Next(c, h, b)].free && !h[Next(c, h, Next(c, h, b))].free
    ensures var n := Next(c, h, b); var nn := Next(c, h, n);
            var h1 := Take(c, h, n);
            && b in h1 && n in h1 && Next(c, h1, b) == n && !h1[n].free && h1[n].size == h[n].size
            && h1[b] == h[b] && nn in h1 && !h1[nn].free
            && var h2 := Join(c, h1, b);
               && b in h2 && h2[b] == h[b].(size := h[b].size + c.head + h[n].size)
               && Next(c, h2, b) == nn && nn in h2 && !h2[nn].free
  {}

  lemma AbsorbFacts(c: Config, h: Tiles, top: map<nat, nat>, fixed: set<nat>, b: nat, n: nat, size: nat)
    requires c.Ok() && Tiling(c, h, top, fixed) && InUse(h, fixed, b)
    requires n == Next(c, h, b) && n in h && h[n].free && size == h[b].size + c.head + h[n].size
    ensures CanTake(c, h, b) && CanTake(c, h, n)
    ensures var h1 := Take(c, h, n);
            && InUse(h1, fixed, b) && Next(c, h1, b) == n && InUse(h1, fixed, n)
            && Covers(Used(h, fixed), Used(h1, fixed))
            && Absorbed(c, h, fixed, b, n, size, Join(c, h1, b)) && InUse(Join(c, h1, b), fixed, b)
  {
    hide Tiling, Used, Frees, Take, Join, Config.Ok;
    FreeFacts(c, h, top, fixed, n);
    UsedAt(h, fixed, n);
    AbsorbHdr(c, h, b);
    var h1 := Take(c, h, n);
    TakeMaps(c, h, fixed, n);
    JoinUsed(c, h1, fixed, b, n, size);
    PutDrop(Used(h, fixed), n, h[n].size, b, size);
  }

  lemma JoinUsed(c: Config, h: Tiles, fixed: set<nat>, b: nat, n: nat, size: nat)
    requires c.Ok() && InUse(h, fixed, b) && n in h && !h[n].free
    requires n == Next(c, h, b) && size == h[b].size + c.head + h[n].size
    ensures Frees(Join(c, h, b)) == Frees(h)
    ensures Used(Join(c, h, b), fixed) == (Used(h, fixed) - {n})[b := size]
  {
    hide Used, Frees, Join;
    JoinMaps(c, h, fixed, b);
  }

  lemma PutDrop(u: map<nat, nat>, n: nat, k: nat, b: nat, size: nat)
    requires n !in u && b != n
    ensures (u[n := k] - {n})[b := size] == u[b := size] == u[b := size][n := k] - {n}
  {}

  /** The layout after the tail of `b` beyond `size` bytes, `nb`, has been split off and freed. */
  ghost predicate SplitOff(c: Config, h: Tiles, fixed: set<nat>, b: nat, size: nat, nb: nat, h2: Tiles)
    requires b in h && h[b].size >= size + c.head
  {
    && b in h2 && h2[b] == h[b].(size := size)
    && Used(h2, fixed) == Used(h, fixed)[b := size]
    && Frees(h2) == Frees(h)[nb := h[b].size - size - c.head]
  }

  lemma SplitFacts(c: Config, h: Tiles, top: map<nat, nat>, fixed: set<nat>, b: nat, size: nat, nb: nat)
    requires c.Ok() && Tiling(c, h, top, fixed) && InUse(h, fixed, b) && CanCut(c, h, b, size)
    requires Next(c, h, b) in h ==> !h[Next(c, h, b)].free
    requires nb == b + c.head + size
    ensures h[b].size >= size + c.head
    ensures var h1 := Cut(c, h, b, size);
            && InUse(h1, fixed, nb) && !h1[nb].prevFree
            && (Next(c, h1, nb) in h1 ==> !h1[Next(c, h1, nb)].free)
            && Covers(Used(h, fixed)[b := size], Used(h1, fixed))
            && (CanTake(c, h1, nb) ==> var h2 := Release(c, h1, nb);
                 SplitOff(c, h, fixed, b, size, nb, h2) && InUse(h2, fixed, b) && Covers(Used(h2, fixed), Used(h1, fixed)))
  {
    hide Tiling, Used, Frees;
    CutTiling(c, h, top, fixed, b, size);
    UsedAt(h, fixed, nb);
    var h1 := Cut(c, h, b, size);
    CutMaps(c, h, fixed, b, size);
    CutHdr(c, h, b, size);
    hide Cut, Release;
    if CanTake(c, h1, nb) {
      ReleaseMaps(c, h1, fixed, nb);
      ReleaseOther(c, h1, nb, b);
      PutDrop(Used(h, fixed), nb, h[b].size - size - c.head, b, size);
    }
  }

  lemma CutHdr(c: Config, h: Tiles, b: nat, size: nat)
    requires c.Ok() && CanCut(c, h, b, size) && !h[b].free && b + c.head + size !in h
    requires Next(c, h, b) in h ==> !h[Next(c, h, b)].free
    ensures var nb := b + c.head + size; var h1 := Cut(c, h, b, size);
            && nb in h1 && h1[nb] == Hdr(h[b].size - size - c.head, false, false, b)
            && b in h1 && h1[b] == h[b].(size := size) && Next(c, h1, b) == nb
            && (Next(c, h1, nb) in h1 ==> !h1[Next(c, h1, nb)].free)
  {}

  lemma ReleaseOther(c: Config, h: Tiles, b: nat, x: nat)
    requires c.Ok() && CanTake(c, h, b) && x in h && x != b && x != Next(c, h, b)
    ensures x in Release(c, h, b) && Release(c, h, b)[x] == h[x]
  {}

  /** What `k_mm_free` finds beside a free left neighbour. */
  lemma PrevFacts(c: Config, h: Tiles, top: map<nat, nat>, fixed: set<nat>, b: nat)
    requires c.Ok() && Tiling(c, h, top, fixed) && b in h && h[b].prevFree
    ensures h[b].prev in h && h[h[b].prev].free && Next(c, h, h[b].prev) == b && h[b].prev != b
  {
    assert BlockOk(c, h, top, fixed, b);
  }

  /** The layout after the free left neighbour `p` has absorbed the used block `b`. */
  lemma AbsorbLeft(c: Config, h: Tiles, top: map<nat, nat>, fixed: set<nat>, p: nat, b: nat, size: nat)
    requires c.Ok() && Tiling(c, h, top, fixed) && InUse(h, fixed, b) && p in h && h[p].free && Next(c, h, p) == b
    requires Next(c, h, b) in h && !h[Next(c, h, b)].free && size == h[p].size + c.head + h[b].size
    ensures CanTake(c, h, p) && b != p && CanTake(c, Take(c, h, p), p)
    ensures var h1 := Take(c, h, p); var h2 := Join(c, h1, p);
            && InUse(h1, fixed, p) && Next(c, h1, p) == b && InUse(h1, fixed, b)
            && Covers(Used(h, fixed), Used(h1, fixed))
            && InUse(h2, fixed, p) && h2[p].size == size && !h2[p].prevFree && Next(c, h2, p) in h2 && !h2[Next(c, h2, p)].free
            && Used(h2, fixed) == (Used(h, fixed) - {b})[p := size]
            && p !in Used(h, fixed)
  {
    hide Tiling, Used, Frees, Take, Join, Config.Ok;
    FreeFacts(c, h, top, fixed, p);
    var h1 := Take(c, h, p);
    LeftHdr(c, h, p);
    UsedAt(h, fixed, p);
    TakeMaps(c, h, fixed, p);
    JoinUsed(c, h1, fixed, p, b, size);
    PutDropPut(Used(h, fixed), p, h[p].size, b, size);
  }

  lemma LeftHdr(c: Config, h: Tiles, p: nat)
    requires c.Ok() && CanTake(c, h, p) && h[p].free && !h[p].prevFree
    requires var b := Next(c, h, p); !h[b].free && Next(c, h, b) in h && !h[Next(c, h, b)].free
    ensures var b := Next(c, h, p); var h1 := Take(c, h, p);
            && p in h1 && !h1[p].free && Next(c, h1, p) == b && b in h1 && !h1[b].free
            && h1[p].size == h[p].size && h1[b].size == h[b].size
            && var h2 := Join(c, h1, p);
               && p in h2 && !h2[p].free && !h2[p].prevFree && h2[p].size == h[p].size + c.head + h[b].size
               && Next(c, h2, p) in h2 && !h2[Next(c, h2, p)].free
  {}

  lemma PutDropPut(u: map<nat, nat>, p: nat, k: nat, b: nat, size: nat)
    requires b != p
    ensures (u[p := k] - {b})[p := size] == (u - {b})[p := size]
  {}

  /** What `k_mm_alloc` holds after taking the free block `b`. */
  lemma TakeOne(c: Config, h: Tiles, top: map<nat, nat>, fixed: set<nat>, b: nat)
    requires c.Ok() && Tiling(c, h, top, fixed) && b in h && h[b].free
    ensures CanTake(c, h, b) && b !in Used(h, fixed)
    ensures var h1 := Take(c, h, b);
            && InUse(h1, fixed, b) && h1[b].size == h[b].size
            && (Next(c, h1, b) in h1 ==> !h1[Next(c, h1, b)].free)
            && Used(h1, fixed) == Used(h, fixed)[b := h[b].size]
            && Covers(Used(h, fixed), Used(h1, fixed))
  {
    hide Tiling, Used, Frees, Take, Config.Ok;
    FreeFacts(c, h, top, fixed, b);
    TakeHdr(c, h, b);
    UsedAt(h, fixed, b);
    TakeMaps(c, h, fixed, b);
  }

  lemma TakeHdr(c: Config, h: Tiles, b: nat)
    requires c.Ok() && CanTake(c, h, b) && h[b].free && !h[Next(c, h, b)].free
    ensures var h1 := Take(c, h, b);
            && b in h1 && !h1[b].free && h1[b].size == h[b].size
            && Next(c, h1, b) in h1 && !h1[Next(c, h1, b)].free
  {}

  /** A block that is handed out has a right neighbour. */
  lemma HasNext(c: Config, h: Tiles, top: map<nat, nat>, fixed: set<nat>, b: nat)
    requires c.Ok() && Tiling(c, h, top, fixed) && InUse(h, fixed, b)
    ensures CanTake(c, h, b) && Aligned(h[b].size) && h[b].size >= c.MinSize()
    ensures h[Next(c, h, b)].free ==>
              && CanTake(c, h, Next(c, h, b)) && h[Next(c, h, b)].size >= c.MinSize()
              && Aligned(h[Next(c, h, b)].size)
  {
    assert BlockOk(c, h, top, fixed, b);
    assert BlockOk(c, h, top, fixed, Next(c, h, b));
  }

  /** A block that has been served for a request of `size` bytes: new, large enough, not wasteful. */
  ghost predicate Served(c: Config, live0: map<nat, nat>, live1: map<nat, nat>, b: nat, size: nat) {
    && b !in live0 && b in live1 && live1 == live0[b := live1[b]]
    && size <= live1[b] < size + c.head + c.MinSize()
  }

  /** The outcome of a request for `size` bytes. It fails iff it is empty, or its rounded size has no
      level, or no free block is large enough; then nothing changes. All live bytes stay. */
  ghost predicate AllocOutcome(c: Config, frees0: map<nat, nat>, live0: map<nat, nat>, m0: seq<int>,
                               live1: map<nat, nat>, m1: seq<int>, size: Size, ptr: Option<nat>)
    requires c.Ok()
  {
    && (ptr.None? <==> size == 0 || Level(c, Rounded(c, size)).None? || !Available(frees0, Rounded(c, size)))
    && (ptr.None? ==> live1 == live0 && m1 == m0)
    && (ptr.Some? ==> ptr.value >= c.head && Served(c, live0, live1, ptr.value - c.head, Rounded(c, size)))
    && Kept(c.head, live0, m0, m1)
  }

  lemma AllocNothing(c: Config, frees: map<nat, nat>, live: map<nat, nat>, m: seq<int>, size: Size)
    requires c.Ok()
    requires size == 0 || Level(c, Rounded(c, size)).None? || !Available(frees, Rounded(c, size))
    ensures AllocOutcome(c, frees, live, m, live, m, size, None)
  {}

  lemma DropPut(u: map<nat, nat>, b: nat, f: nat, k: nat)
    requires f !in u
    ensures (u - {b})[f := k] - {f} == u - {b}
  {}

  lemma PutPut(u: map<nat, nat>, b: nat, j: nat, k: nat)
    ensures u[b := j][b := k] == u[b := k]
  {}

  /** When `k_mm_realloc` shrinks a block and unlinks its free right neighbour, the split test
      succeeds: no bytes leave the index. */
  lemma ShrinkSplits(c: Config, h: Tiles, top: map<nat, nat>, fixed: set<nat>, b: nat, need: nat)
    requires c.Ok() && Tiling(c, h, top, fixed) && InUse(h, fixed, b) && need <= h[b].size
    requires Next(c, h, b) in h && h[Next(c, h, b)].free
    ensures h[b].size + (c.head + h[Next(c, h, b)].size) >= need + c.head + c.MinSize()
  {
    HasNext(c, h, top, fixed, b);
  }

  function Min(a: nat, b: nat): nat {
    if a <= b then a else b
  }

  function Max(a: nat, b: nat): nat {
    if a <= b then b else a
  }

  /** `n` bytes at `from` in the first memory are at `to` in the second. */
  ghost predicate Copied(m0: seq<int>, from: nat, m1: seq<int>, to: nat, n: nat) {
    from + n <= |m0| && to + n <= |m1| && forall j :: to <= j < to + n ==> m1[j] == m0[from + (j - to)]
  }

  lemma FitsMemory(c: Config, h: Tiles, len: nat, b: nat)
    requires InMemory(c, h, len) && b in h
    ensures b + c.head + h[b].size == Next(c, h, b) <= len
  {}

  lemma KeptCopied(head: nat, live: map<nat, nat>, b: nat, n: nat, m0: seq<int>, m1: seq<int>)
    requires Kept(head, live, m0, m1) && b in live && n <= live[b] && b + head + n <= |m0|
    ensures Copied(m0, b + head, m1, b + head, n)
  {
    assert KeptAt(head, b, live[b], m0, m1);
  }

  lemma CopiedTrans(m0: seq<int>, p0: nat, m1: seq<int>, p1: nat, m2: seq<int>, p2: nat, n: nat)
    requires Copied(m0, p0, m1, p1, n) && Copied(m1, p1, m2, p2, n)
    ensures Copied(m0, p0, m2, p2, n)
  {
    forall j | p2 <= j < p2 + n ensures m2[j] == m0[p0 + (j - p2)] {
      assert m1[p1 + (j - p2)] == m0[p0 + (j - p2)];
    }
  }

  /** Payloads handed out do not overlap, and lie inside memory. */
  lemma PayloadsApart(c: Config, h: Tiles, top: map<nat, nat>, fixed: set<nat>, len: nat, x: nat, y: nat)
    requires c.Ok() && Tiling(c, h, top, fixed) && InMemory(c, h, len)
    requires x in Used(h, fixed) && y in Used(h, fixed) && x != y
    ensures var live := Used(h, fixed);
            && x + c.head + live[x] <= len
            && (x + c.head + live[x] <= y || y + c.head + live[y] <= x)
  {
    hide Used, Frees;
    UsedAt(h, fixed, x);
    UsedAt(h, fixed, y);
    assert Next(c, h, x) <= len;
    ApartBlocks(c, h, top, fixed, x, y);
  }

  /** Writing inside one payload leaves the others alone. */
  lemma PayloadSpare(c: Config, h: Tiles, top: map<nat, nat>, fixed: set<nat>, b: nat, n: nat, m0: seq<int>, m1: seq<int>)
    requires c.Ok() && Tiling(c, h, top, fixed) && InMemory(c, h, |m0|)
    requires b in Used(h, fixed) && n <= Used(h, fixed)[b] && OnlyIn(b + c.head, n, m0, m1)
    ensures Kept(c.head, Used(h, fixed) - {b}, m0, m1)
  {
    hide Used, Frees, Tiling, InMemory;
    var live := Used(h, fixed) - {b};
    forall y | y in live ensures KeptAt(c.head, y, live[y], m0, m1) {
      PayloadsApart(c, h, top, fixed, |m0|, y, b);
    }
  }

  /** The outcome of a reallocation: the old block gives way to one that fits, with the bytes they
      have in common; all other blocks keep theirs. */
  ghost predicate Reallocated(c: Config, live0: map<nat, nat>, m0: seq<int>, live1: map<nat, nat>, m1: seq<int>,
                              ptr: nat, r: nat, need: nat)
  {
    && ptr >= c.head && r >= c.head && ptr - c.head in live0
    && Served(c, live0 - {ptr - c.head}, live1, r - c.head, need)
    && Copied(m0, ptr, m1, r, Min(need, live0[ptr - c.head]))
    && Kept(c.head, live0 - {ptr - c.head}, m0, m1)
  }

  /** The outcome of reallocating a block: it fails iff there is no room for it, and then nothing is lost. */
  ghost predicate ReallocOutcome(c: Config, noRoom: bool, live0: map<nat, nat>, m0: seq<int>,
                                 live1: map<nat, nat>, m1: seq<int>, ptr: nat, r: Option<nat>, need: nat)
  {
    && (r.None? <==> noRoom)
    && (r.None? ==> live1 == live0 && Kept(c.head, live0, m0, m1))
    && (r.Some? ==> Reallocated(c, live0, m0, live1, m1, ptr, r.value, need))
  }

  /** A reallocated block is no larger than the request needs. */
  lemma ReallocFits(c: Config, live0: map<nat, nat>, m0: seq<int>, live1: map<nat, nat>, m1: seq<int>,
                    ptr: nat, r: nat, size: Size)
    requires c.Ok() && Reallocated(c, live0, m0, live1, m1, ptr, r, Rounded(c, size))
    ensures r >= c.head && r - c.head in live1 && FitsClosely(c, live1[r - c.head], size)
  {
    hide Rounded, FitsClosely, Copied, Kept;
    RoundedFits(c, live1[r - c.head], size);
  }

  lemma ResizedIs(c: Config, live0: map<nat, nat>, m0: seq<int>, live1: map<nat, nat>, m1: seq<int>,
                  ptr: nat, b: nat, keep: nat, need: nat)
    requires b in live0 && ptr == b + c.head && b in live1 && live1 == live0[b := live1[b]]
    requires need <= live1[b] < need + c.head + c.MinSize() && keep == Min(need, live0[b])
    requires Kept(c.head, live0[b := keep], m0, m1) && b + c.head + keep <= |m0|
    ensures Reallocated(c, live0, m0, live1, m1, ptr, ptr, need)
  {
    KeptCopied(c.head, live0[b := keep], b, keep, m0, m1);
    KeptSub(c.head, live0 - {b}, live0[b := keep], m0, m1);
    assert (live0 - {b})[b := live1[b]] == live1;
  }

  /** Serving the new block, copying, and freeing the old one is a reallocation. */
  lemma MovedIs(c: Config, live0: map<nat, nat>, live1: map<nat, nat>, m0: seq<int>, m1: seq<int>, m2: seq<int>, m3: seq<int>,
                b: nat, nb: nat, ptr: nat, r: nat, n: nat, need: nat)
    requires b in live0 && ptr == b + c.head && r == nb + c.head && n == Min(need, live0[b])
    requires Served(c, live0, live1, nb, need) && Kept(c.head, live0, m0, m1) && ptr + live0[b] <= |m0| && r + need <= |m2|
    requires Copied(m1, ptr, m2, r, n) && Kept(c.head, live1 - {nb}, m1, m2)
    requires Kept(c.head, live1 - {b}, m2, m3)
    ensures Reallocated(c, live0, m0, live1 - {b}, m3, ptr, r, need)
  {
    var others := live0 - {b};
    KeptCopied(c.head, live0, b, n, m0, m1);
    KeptCopied(c.head, live1 - {b}, nb, n, m2, m3);
    CopiedTrans(m0, ptr, m1, ptr, m2, r, n);
    CopiedTrans(m0, ptr, m2, r, m3, r, n);
    KeptSub(c.head, others, live0, m0, m1);
    KeptSub(c.head, others, live1 - {nb}, m1, m2);
    KeptSub(c.head, others, live1 - {b}, m2, m3);
    KeptTrans(c.head, others, m0, m1, m2);
    KeptTrans(c.head, others, m0, m2, m3);
    assert live1 - {b} == others[nb := live1[nb]];
  }

  /** Where `krhino_add_mm_region` starts, and how much it uses, of `len` bytes at `addr`; the length
      is 32-bit arithmetic. */
  function RegionStart(addr: Size): Size {
    AlignUp(addr)
  }

  function RegionLen(addr: Size, len: Size): (r: Size)
    ensures Aligned(r)
  {
    (len + WORD - (RegionStart(addr) + WORD - addr) % WORD) % WORD / 8 * 8
  }

  /** The used part lies inside the given one unless fewer bytes are given than alignment skips:
      then the length wraps round. Less than one unit is left unused at either end. */
  lemma RegionLenIff(addr: Size, len: Size)
    requires addr <= WORD - 8
    ensures RegionStart(addr) + RegionLen(addr, len) <= addr + len <==> len >= RegionStart(addr) - addr
    ensures addr <= RegionStart(addr) < addr + 8
    ensures len >= RegionStart(addr) - addr ==> addr + len - 8 < RegionStart(addr) + RegionLen(addr, len)
  {
    var gap := RegionStart(addr) - addr;
    assert 0 <= gap < 8 && (RegionStart(addr) + WORD - addr) % WORD == gap;
    if len >= gap {
      assert (len + WORD - gap) % WORD == len - gap;
    } else {
      assert (len + WORD - gap) % WORD == len + WORD - gap;
    }
  }

  /** Writing a new region leaves live payloads alone. */
  lemma RegionSpare(c: Config, h: Tiles, fixed: set<nat>, a: nat, len: nat, m0: seq<int>, m1: seq<int>)
    requires CanAdd(c, h, a, len) && OnlyIn(a, len, m0, m1)
    ensures Kept(c.head, Used(h, fixed), m0, m1)
  {
    hide Used, Frees;
    var live := Used(h, fixed);
    forall y | y in live ensures KeptAt(c.head, y, live[y], m0, m1) {
      UsedAt(h, fixed, y);
      assert Next(c, h, y) <= a || a + len <= y;
    }
  }

  lemma FreshFacts(c: Config, h: Tiles, top: map<nat, nat>, fixed: set<nat>, n: nat, a: nat, len: nat, mid: nat, last: nat, size: nat)
    requires c.Ok() && Tiling(c, h, top, fixed) && InMemory(c, h, n) && CanAdd(c, h, a, len) && a + len <= n
    requires mid == a + c.head + REGION_INFO && last == a + len - c.head && size == FreshSize(c, len)
    ensures Tiling(c, Fresh(c, h, a, mid, last, size), top[a := last][mid := last][last := last], fixed + {a, last})
    ensures InMemory(c, Fresh(c, h, a, mid, last, size), n)
    ensures Frees(Fresh(c, h, a, mid, last, size)) == Frees(h)[mid := size]
    ensures Used(Fresh(c, h, a, mid, last, size), fixed + {a, last}) == Used(h, fixed)
    ensures mid !in Frees(h) && Level(c, size).Some? && a < mid < last && mid + c.head + LINKS <= n
    ensures forall x :: x in Frees(h) ==> x + c.head + LINKS <= n
    ensures forall x :: x == mid || x in Frees(h) ==>
              x in Fresh(c, h, a, mid, last, size) && Fresh(c, h, a, mid, last, size)[x].free
  {
    assert fixed <= h.Keys;
    FreshInMemory(c, h, n, a, len, mid, last, size);
    hide Tiling, Frees, Used, Level, Pow2, InMemory, Fresh, CanAdd;
    FreshTiling(c, h, top, fixed, a, len, mid, last, size);
    FreshLevel(c, h, a, len, mid, last, size, n);
    LinksFit(c, h, top, fixed, n);
    FreeAt(h, mid);
    FreshMaps(c, h, fixed, a, mid, last, size);
    var h' := Fresh(c, h, a, mid, last, size);
    forall x | x == mid || x in Frees(h) ensures x in h' && h'[x].free {
      FreeAt(h', x);
    }
  }

  lemma FreshLevel(c: Config, h: Tiles, a: nat, len: nat, mid: nat, last: nat, size: nat, n: nat)
    requires c.Ok() && CanAdd(c, h, a, len) && a + len <= n
    requires mid == a + c.head + REGION_INFO && last == a + len - c.head && size == FreshSize(c, len)
    ensures Level(c, size).Some? && a < mid < last && mid + c.head + LINKS <= n
  {
    hide Level;
    FreshSizes(c, h, a, len, mid, last, size);
    LevelSome(c, size);
    MinSizeBound(c);
  }

  lemma FreshInMemory(c: Config, h: Tiles, n: nat, a: nat, len: nat, mid: nat, last: nat, size: nat)
    requires c.Ok() && InMemory(c, h, n) && CanAdd(c, h, a, len) && a + len <= n
    requires mid == a + c.head + REGION_INFO && last == a + len - c.head && size == FreshSize(c, len)
    ensures InMemory(c, Fresh(c, h, a, mid, last, size), n)
  {
    var h' := Fresh(c, h, a, mid, last, size);
    forall x | x in h' ensures Next(c, h', x) <= n {
      assert x in h ==> Next(c, h, x) <= n;
    }
  }

  lemma FreshMid(c: Config, h: Tiles, a: nat, mid: nat, last: nat, size: nat)
    requires mid != last
    ensures mid in Fresh(c, h, a, mid, last, size) && Fresh(c, h, a, mid, last, size)[mid].size == size
  {}
}
