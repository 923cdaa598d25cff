/** The physical side of the heap of k_mm.c: block headers at addresses, and the four changes
    that every operation is composed of. */
module HeapTiles {
  import opened Bits

  /** A block header: payload size, the two state bits, and the link to the left neighbour. */
  datatype Hdr = Hdr(size: nat, free: bool, prevFree: bool, prev: nat)

  type Tiles = map<nat, Hdr>

  /** `MM_ALIGN_SIZE` is 8. */
  predicate Aligned(n: int) {
    n % 8 == 0
  }

  lemma AlignedSum(a: int, b: int)
    requires Aligned(a) && Aligned(b)
    ensures Aligned(a + b) && Aligned(a - b)
  {}

  /** Heap parameters: header size, and the exponents that bound block sizes. */
  datatype Config = Config(head: nat, minBit: nat, maxBit: nat)
  {
    /** `MM_MIN_SIZE` */
    function MinSize(): nat {
      if minBit == 0 then 0 else Pow2(minBit - 1)
    }

    /** `MM_BIT_LEVEL` */
    function Levels(): nat
      requires minBit <= maxBit
    {
      maxBit - minBit + 2
    }

    predicate Ok() {
      head > 0 && Aligned(head) && 0 < minBit <= maxBit < 32 && Aligned(MinSize())
    }
  }

  /** `MM_GET_NEXT_BLK` */
  function Next(c: Config, h: Tiles, b: nat): nat
    requires b in h
  {
    b + c.head + h[b].size
  }

  /** The well-formedness of the physical layout. `top` gives, for each block, the sentinel that
      ends its region; `fixed` holds the first block and the sentinel of each region. */
  ghost predicate Tiling(c: Config, h: Tiles, top: map<nat, nat>, fixed: set<nat>) {
    && top.Keys == h.Keys && fixed <= h.Keys
    && AllOk(c, h, top, fixed) && Apart(c, h)
  }

  ghost predicate AllOk(c: Config, h: Tiles, top: map<nat, nat>, fixed: set<nat>)
    requires top.Keys == h.Keys
  {
    forall b :: b in h ==> BlockOk(c, h, top, fixed, b)
  }

  /** Blocks do not overlap. */
  ghost predicate Apart(c: Config, h: Tiles) {
    forall a, b :: a in h && b in h && a < b ==> Next(c, h, a) <= b
  }

  ghost predicate BlockOk(c: Config, h: Tiles, top: map<nat, nat>, fixed: set<nat>, b: nat)
    requires b in h && top.Keys == h.Keys
  {
    && Aligned(b) && Aligned(h[b].size)
    && (b in fixed ==> !h[b].free)
    && b <= top[b] < b + Pow2(c.maxBit)
    && (b == top[b] ==> b in fixed && h[b].size == 0)
    && (b < top[b] ==> Next(c, h, b) in h && top[Next(c, h, b)] == top[b])
    && (b < top[b] ==> NeighbourOk(h, b, Next(c, h, b)))
    && (b !in fixed ==> h[b].size >= c.MinSize())
    && (h[b].prevFree ==> h[b].prev in h && h[h[b].prev].free && Next(c, h, h[b].prev) == b)
  }

  /** The right neighbour knows whether this block is free; two free blocks never touch. */
  ghost predicate NeighbourOk(h: Tiles, b: nat, n: nat)
    requires b in h && n in h
  {
    (h[n].prevFree <==> h[b].free) && (h[b].free ==> h[n].prev == b && !h[n].free)
  }

  /** The free blocks, with their payload sizes. */
  ghost function Frees(h: Tiles): map<nat, nat> {
    if h == map[] then map[]
    else
      var b :| b in h;
      var r := Frees(h - {b});
      if h[b].free then r[b := h[b].size] else r
  }

  /** The blocks handed out, with their payload sizes. */
  ghost function Used(h: Tiles, fixed: set<nat>): map<nat, nat> {
    if h == map[] then map[]
    else
      var b :| b in h;
      var r := Used(h - {b}, fixed);
      if !h[b].free && b !in fixed then r[b := h[b].size] else r
  }

  lemma {:induction false} FreeAt(h: Tiles, x: nat)
    ensures x in Frees(h) <==> x in h && h[x].free
    ensures x in Frees(h) ==> Frees(h)[x] == h[x].size
  {
    if h != map[] {
      var b :| b in h && Frees(h) == var r := Frees(h - {b}); if h[b].free then r[b := h[b].size] else r;
      FreeAt(h - {b}, x);
    }
  }

  lemma {:induction false} UsedAt(h: Tiles, fixed: set<nat>, x: nat)
    ensures x in Used(h, fixed) <==> x in h && !h[x].free && x !in fixed
    ensures x in Used(h, fixed) ==> Used(h, fixed)[x] == h[x].size
  {
    if h != map[] {
      var b :| b in h && Used(h, fixed) ==
        var r := Used(h - {b}, fixed); if !h[b].free && b !in fixed then r[b := h[b].size] else r;
      UsedAt(h - {b}, fixed, x);
    }
  }

  // --------------------------------------------------------- the four primitives

  /** A free block is taken into use. */
  function Take(c: Config, h: Tiles, b: nat): Tiles
    requires b in h && Next(c, h, b) in h && Next(c, h, b) != b
  {
    var n := Next(c, h, b);
    h[b := h[b].(free := false)][n := h[n].(prevFree := false)]
  }

  /** A used block, between used neighbours, becomes free. */
  function Release(c: Config, h: Tiles, b: nat): Tiles
    requires b in h && Next(c, h, b) in h && Next(c, h, b) != b
  {
    var n := Next(c, h, b);
    h[b := h[b].(free := true)][n := h[n].(prevFree := true, prev := b)]
  }

  /** Two adjacent used blocks become one. */
  function Join(c: Config, h: Tiles, b: nat): Tiles
    requires b in h && Next(c, h, b) in h
  {
    var n := Next(c, h, b);
    h[b := h[b].(size := h[b].size + c.head + h[n].size)] - {n}
  }

  /** A used block is cut in two used blocks, the first with payload `size`. */
  function Cut(c: Config, h: Tiles, b: nat, size: nat): Tiles
    requires b in h && h[b].size >= size + c.head
  {
    h[b := h[b].(size := size)][b + c.head + size := Hdr(h[b].size - size - c.head, false, false, b)]
  }

  /** What a change at `b` needs to know about another block `x`. */
  ghost predicate Near(c: Config, h: Tiles, top: map<nat, nat>, fixed: set<nat>, b: nat, x: nat) {
    && top.Keys == h.Keys && b in h && x in h
    && BlockOk(c, h, top, fixed, b) && BlockOk(c, h, top, fixed, x)
    && (b < top[b] ==> BlockOk(c, h, top, fixed, Next(c, h, b)))
    && (x < b ==> Next(c, h, x) <= b) && (b < x ==> Next(c, h, b) <= x)
    && (b < top[b] && x < Next(c, h, b) ==> Next(c, h, x) <= Next(c, h, b))
    && (b < top[b] && Next(c, h, b) < x ==> Next(c, h, Next(c, h, b)) <= x)
  }

  lemma NearAll(c: Config, h: Tiles, top: map<nat, nat>, fixed: set<nat>, b: nat, x: nat)
    requires Tiling(c, h, top, fixed) && b in h && x in h
    ensures Near(c, h, top, fixed, b, x)
  {
    assert BlockOk(c, h, top, fixed, b);
  }

  lemma TakeBlock(c: Config, h: Tiles, top: map<nat, nat>, fixed: set<nat>, b: nat, x: nat)
    requires c.Ok() && Near(c, h, top, fixed, b, x) && h[b].free
    ensures Next(c, h, b) in h && Next(c, h, b) != b && b !in fixed
    ensures var h' := Take(c, h, b); h'.Keys == h.Keys && BlockOk(c, h', top, fixed, x)
  {
    hide Aligned, Pow2;
  }

  lemma TakeTiling(c: Config, h: Tiles, top: map<nat, nat>, fixed: set<nat>, b: nat)
    requires c.Ok() && Tiling(c, h, top, fixed) && b in h && h[b].free
    ensures Next(c, h, b) in h && Next(c, h, b) != b && b !in fixed
    ensures Tiling(c, Take(c, h, b), top, fixed)
  {
    hide BlockOk;
    NearAll(c, h, top, fixed, b, b);
    TakeBlock(c, h, top, fixed, b, b);
    var h' := Take(c, h, b);
    forall x | x in h' ensures BlockOk(c, h', top, fixed, x) {
      NearAll(c, h, top, fixed, b, x);
      TakeBlock(c, h, top, fixed, b, x);
    }
  }

  lemma ReleaseBlock(c: Config, h: Tiles, top: map<nat, nat>, fixed: set<nat>, b: nat, x: nat)
    requires c.Ok() && Near(c, h, top, fixed, b, x) && !h[b].free && b !in fixed && !h[b].prevFree
    requires Next(c, h, b) in h ==> !h[Next(c, h, b)].free
    ensures Next(c, h, b) in h && Next(c, h, b) != b
    ensures var h' := Release(c, h, b); h'.Keys == h.Keys && BlockOk(c, h', top, fixed, x)
  {
    hide Aligned, Pow2;
  }

  lemma ReleaseTiling(c: Config, h: Tiles, top: map<nat, nat>, fixed: set<nat>, b: nat)
    requires c.Ok() && Tiling(c, h, top, fixed) && b in h && !h[b].free && b !in fixed && !h[b].prevFree
    requires Next(c, h, b) in h ==> !h[Next(c, h, b)].free
    ensures Next(c, h, b) in h && Next(c, h, b) != b
    ensures Tiling(c, Release(c, h, b), top, fixed)
  {
    hide BlockOk;
    NearAll(c, h, top, fixed, b, b);
    ReleaseBlock(c, h, top, fixed, b, b);
    var h' := Release(c, h, b);
    forall x | x in h' ensures BlockOk(c, h', top, fixed, x) {
      NearAll(c, h, top, fixed, b, x);
      ReleaseBlock(c, h, top, fixed, b, x);
    }
  }

  lemma JoinBlock(c: Config, h: Tiles, top: map<nat, nat>, fixed: set<nat>, b: nat, x: nat)
    requires c.Ok() && Near(c, h, top, fixed, b, x) && !h[b].free && b !in fixed
    requires Next(c, h, b) in h && !h[Next(c, h, b)].free && Next(c, h, b) !in fixed && x != Next(c, h, b)
    ensures Next(c, h, b) != b
    ensures Join(c, h, b).Keys == h.Keys - {Next(c, h, b)} == (top - {Next(c, h, b)}).Keys
    ensures BlockOk(c, Join(c, h, b), top - {Next(c, h, b)}, fixed, x)
  {
    assert (top - {Next(c, h, b)}).Keys == Join(c, h, b).Keys;
    JoinBlockOk(c, h, top, Join(c, h, b), top - {Next(c, h, b)}, fixed, b, x);
  }

  lemma JoinBlockOk(c: Config, h: Tiles, top: map<nat, nat>, h': Tiles, top': map<nat, nat>, fixed: set<nat>, b: nat, x: nat)
    requires c.Ok() && Near(c, h, top, fixed, b, x) && !h[b].free && b !in fixed
    requires Next(c, h, b) in h && !h[Next(c, h, b)].free && Next(c, h, b) !in fixed && x != Next(c, h, b)
    requires top'.Keys == h'.Keys == h.Keys - {Next(c, h, b)}
    requires b in h' && h'[b] == h[b].(size := h[b].size + c.head + h[Next(c, h, b)].size)
    requires forall y :: y in h' && y != b ==> h'[y] == h[y]
    requires forall y :: y in h' ==> top'[y] == top[y]
    ensures BlockOk(c, h', top', fixed, x)
  {
    hide Aligned, Pow2;
    var n := Next(c, h, b);
    AlignedSum(h[b].size, c.head);
    AlignedSum(h[b].size + c.head, h[n].size);
    if x == b {
      assert n < top[n] && Next(c, h, n) in h';
      assert NeighbourOk(h, n, Next(c, h, n));
      assert Next(c, h', b) == Next(c, h, n);
      assert h'[Next(c, h, n)] == h[Next(c, h, n)];
      assert NeighbourOk(h', b, Next(c, h', b));
    } else {
      assert h'[x] == h[x];
      if x < top[x] {
        assert Next(c, h, x) != n;
        assert h'[Next(c, h, x)].prevFree == h[Next(c, h, x)].prevFree;
      }
      if h[x].prevFree {
        assert h[x].prev != n && h[x].prev != b;
      }
    }
  }

  lemma JoinTiling(c: Config, h: Tiles, top: map<nat, nat>, fixed: set<nat>, b: nat)
    requires c.Ok() && Tiling(c, h, top, fixed) && b in h && !h[b].free && b !in fixed
    requires Next(c, h, b) in h && !h[Next(c, h, b)].free && Next(c, h, b) !in fixed
    ensures Next(c, h, b) != b
    ensures Tiling(c, Join(c, h, b), top - {Next(c, h, b)}, fixed)
  {
    hide BlockOk;
    NearAll(c, h, top, fixed, b, b);
    NearAll(c, h, top, fixed, b, Next(c, h, b));
    ApartFromNext(c, h, b);
    var h' := Join(c, h, b);
    var top' := top - {Next(c, h, b)};
    assert top'.Keys == h'.Keys;
    forall x | x in h' ensures BlockOk(c, h', top', fixed, x) {
      NearAll(c, h, top, fixed, b, x);
      JoinBlock(c, h, top, fixed, b, x);
    }
    forall a, d | a in h' && d in h' && a < d ensures Next(c, h', a) <= d {
      JoinApart(c, h, b, a, d);
    }
  }

  lemma ApartFromNext(c: Config, h: Tiles, b: nat)
    requires c.Ok() && b in h
    ensures Next(c, h, b) > b
  {}

  lemma JoinApart(c: Config, h: Tiles, b: nat, a: nat, d: nat)
    requires c.Ok() && Apart(c, h) && b in h && Next(c, h, b) in h && a in h && d in h && a < d
    requires a != Next(c, h, b) && d != Next(c, h, b)
    ensures Next(c, Join(c, h, b), a) <= d
  {
    var n := Next(c, h, b);
    assert Next(c, h, a) <= d;
    if a == b {
      assert n < d ==> Next(c, h, n) <= d;
    }
  }

  /** Where a block may be cut: both parts are aligned and at least the minimum size. */
  predicate CanCut(c: Config, h: Tiles, b: nat, size: nat) {
    b in h && Aligned(size) && c.MinSize() <= size && h[b].size >= size + c.head + c.MinSize()
  }

  lemma CutBlock(c: Config, h: Tiles, top: map<nat, nat>, fixed: set<nat>, b: nat, size: nat, x: nat)
    requires c.Ok() && Near(c, h, top, fixed, b, x) && !h[b].free && b !in fixed && CanCut(c, h, b, size)
    requires b + c.head + size !in h
    ensures var h' := Cut(c, h, b, size); var top' := top[b + c.head + size := top[b]];
            top'.Keys == h'.Keys && BlockOk(c, h', top', fixed, x)
  {
    hide Aligned, Pow2;
  }

  lemma CutNew(c: Config, h: Tiles, top: map<nat, nat>, fixed: set<nat>, b: nat, size: nat)
    requires c.Ok() && Near(c, h, top, fixed, b, b) && !h[b].free && b !in fixed && CanCut(c, h, b, size)
    requires b + c.head + size !in h && fixed <= h.Keys
    ensures var h' := Cut(c, h, b, size); var top' := top[b + c.head + size := top[b]];
            top'.Keys == h'.Keys && BlockOk(c, h', top', fixed, b + c.head + size)
  {
    hide Aligned, Pow2;
    AlignedSum(b, c.head);
    AlignedSum(b + c.head, size);
    AlignedSum(h[b].size, size);
    AlignedSum(h[b].size - size, c.head);
  }

  lemma CutTiling(c: Config, h: Tiles, top: map<nat, nat>, fixed: set<nat>, b: nat, size: nat)
    requires c.Ok() && Tiling(c, h, top, fixed) && b in h && !h[b].free && b !in fixed && CanCut(c, h, b, size)
    ensures b + c.head + size !in h && fixed <= h.Keys
    ensures Tiling(c, Cut(c, h, b, size), top[b + c.head + size := top[b]], fixed)
  {
    hide BlockOk;
    var nb := b + c.head + size;
    NearAll(c, h, top, fixed, b, b);
    assert nb in h ==> Next(c, h, b) <= nb;
    var h' := Cut(c, h, b, size);
    var top' := top[nb := top[b]];
    forall x | x in h' ensures BlockOk(c, h', top', fixed, x) {
      if x == nb {
        CutNew(c, h, top, fixed, b, size);
      } else {
        NearAll(c, h, top, fixed, b, x);
        CutBlock(c, h, top, fixed, b, size, x);
      }
    }
    CutApart(c, h, b, size);
  }

  lemma CutApart(c: Config, h: Tiles, b: nat, size: nat)
    requires c.Ok() && Apart(c, h) && CanCut(c, h, b, size) && b + c.head + size !in h
    ensures Apart(c, Cut(c, h, b, size))
  {
    var h', nb := Cut(c, h, b, size), b + c.head + size;
    forall a, d | a in h' && d in h' && a < d ensures Next(c, h', a) <= d {
      if a != nb && d != nb {
        assert Next(c, h, a) <= d;
      } else if a == nb {
        assert Next(c, h, b) <= d;
      } else if a < b {
        assert Next(c, h, a) <= b;
      } else if b < a {
        assert false;
      }
    }
  }

  // ------------------------------------------------- what is free, what is used

  lemma TakeMaps(c: Config, h: Tiles, fixed: set<nat>, b: nat)
    requires b in h && Next(c, h, b) in h && Next(c, h, b) != b && h[b].free && b !in fixed
    ensures Frees(Take(c, h, b)) == Frees(h) - {b}
    ensures Used(Take(c, h, b), fixed) == Used(h, fixed)[b := h[b].size]
  {
    var h', frees, used := Take(c, h, b), Frees(h) - {b}, Used(h, fixed)[b := h[b].size];
    hide Frees, Used;
    forall x: nat ensures MapsAgree(h', fixed, frees, used, x) {
      FreeAt(h, x);
      UsedAt(h, fixed, x);
    }
    SameMap(h', fixed, frees, used);
  }

  lemma ReleaseMaps(c: Config, h: Tiles, fixed: set<nat>, b: nat)
    requires b in h && Next(c, h, b) in h && Next(c, h, b) != b && !h[b].free && b !in fixed
    ensures Frees(Release(c, h, b)) == Frees(h)[b := h[b].size]
    ensures Used(Release(c, h, b), fixed) == Used(h, fixed) - {b}
  {
    var h', frees, used := Release(c, h, b), Frees(h)[b := h[b].size], Used(h, fixed) - {b};
    hide Frees, Used;
    forall x: nat ensures MapsAgree(h', fixed, frees, used, x) {
      FreeAt(h, x);
      UsedAt(h, fixed, x);
    }
    SameMap(h', fixed, frees, used);
  }

  lemma JoinMaps(c: Config, h: Tiles, fixed: set<nat>, b: nat)
    requires c.Ok() && b in h && Next(c, h, b) in h && !h[b].free && !h[Next(c, h, b)].free && b !in fixed
    ensures Frees(Join(c, h, b)) == Frees(h)
    ensures Used(Join(c, h, b), fixed) ==
              (Used(h, fixed) - {Next(c, h, b)})[b := h[b].size + c.head + h[Next(c, h, b)].size]
  {
    var h' := Join(c, h, b);
    var used := (Used(h, fixed) - {Next(c, h, b)})[b := h[b].size + c.head + h[Next(c, h, b)].size];
    hide Frees, Used;
    forall x: nat ensures MapsAgree(h', fixed, Frees(h), used, x) {
      FreeAt(h, x);
      UsedAt(h, fixed, x);
    }
    SameMap(h', fixed, Frees(h), used);
  }

  lemma CutMaps(c: Config, h: Tiles, fixed: set<nat>, b: nat, size: nat)
    requires c.Ok() && CanCut(c, h, b, size) && !h[b].free && b !in fixed
    requires b + c.head + size !in h && fixed <= h.Keys
    ensures Frees(Cut(c, h, b, size)) == Frees(h)
    ensures Used(Cut(c, h, b, size), fixed) ==
              Used(h, fixed)[b := size][b + c.head + size := h[b].size - size - c.head]
  {
    var h', rest := Cut(c, h, b, size), h[b].size - size - c.head;
    var used := Used(h, fixed)[b := size][b + c.head + size := rest];
    hide Frees, Used, Config.MinSize, Aligned;
    forall x: nat ensures MapsAgree(h', fixed, Frees(h), used, x) {
      FreeAt(h, x);
      UsedAt(h, fixed, x);
    }
    SameMap(h', fixed, Frees(h), used);
  }

  /** The two maps are right at `x`. */
  ghost predicate MapsAgree(h: Tiles, fixed: set<nat>, frees: map<nat, nat>, used: map<nat, nat>, x: nat) {
    && (x in frees <==> x in h && h[x].free) && (x in frees ==> frees[x] == h[x].size)
    && (x in used <==> x in h && !h[x].free && x !in fixed) && (x in used ==> used[x] == h[x].size)
  }

  lemma SameMap(h: Tiles, fixed: set<nat>, frees: map<nat, nat>, used: map<nat, nat>)
    requires forall x: nat :: MapsAgree(h, fixed, frees, used, x)
    ensures Frees(h) == frees && Used(h, fixed) == used
  {
    hide Frees, Used;
    forall x: nat ensures (x in Frees(h) <==> x in frees) && (x in Frees(h) ==> Frees(h)[x] == frees[x]) {
      assert MapsAgree(h, fixed, frees, used, x);
      FreeAt(h, x);
    }
    forall x: nat ensures (x in Used(h, fixed) <==> x in used) && (x in used ==> Used(h, fixed)[x] == used[x]) {
      assert MapsAgree(h, fixed, frees, used, x);
      UsedAt(h, fixed, x);
    }
  }

  /** Each block of `s` is followed by its right neighbour. */
  ghost predicate Chained(c: Config, h: Tiles, s: seq<nat>) {
    && (forall i :: 0 <= i < |s| ==> s[i] in h)
    && forall i :: 0 <= i < |s| - 1 ==> s[i + 1] == Next(c, h, s[i])
  }

  /** The blocks of a region, found by stepping from `b` to the right, end exactly at its sentinel,
      and no other block lies between. */
  lemma {:induction false} RegionTiled(c: Config, h: Tiles, top: map<nat, nat>, fixed: set<nat>, b: nat) returns (s: seq<nat>)
    requires c.Ok() && Tiling(c, h, top, fixed) && b in h
    ensures |s| > 0 && s[0] == b && s[|s| - 1] == top[b] && top[b] in h && h[top[b]].size == 0
    ensures Chained(c, h, s)
    ensures forall x :: x in h && b <= x <= top[b] ==> x in s
    decreases top[b] - b
  {
    hide AllOk;
    StepRight(c, h, top, fixed, b);
    if b == top[b] { return [b]; }
    var n := Next(c, h, b);
    var rest := RegionTiled(c, h, top, fixed, n);
    s := [b] + rest;
    hide Chained;
    forall x | x in h && b <= x <= top[b] ensures x in s {
      assert x == b || x in rest;
    }
    Prepend(c, h, b, rest);
  }

  lemma Prepend(c: Config, h: Tiles, b: nat, s: seq<nat>)
    requires b in h && |s| > 0 && s[0] == Next(c, h, b) && Chained(c, h, s)
    ensures Chained(c, h, [b] + s)
  {
    var t := [b] + s;
    forall i | 0 <= i < |t| - 1 ensures t[i] in h && t[i + 1] == Next(c, h, t[i]) {
      if i > 0 { assert s[i] == Next(c, h, s[i - 1]); }
    }
    assert t[|t| - 1] == s[|s| - 1];
  }

  lemma StepRight(c: Config, h: Tiles, top: map<nat, nat>, fixed: set<nat>, b: nat)
    requires c.Ok() && Tiling(c, h, top, fixed) && b in h
    ensures b <= top[b] && (b == top[b] ==> h[b].size == 0)
    ensures b < top[b] ==> Next(c, h, b) in h && top[Next(c, h, b)] == top[b] && b < Next(c, h, b) <= top[b]
  {
    assert BlockOk(c, h, top, fixed, b);
    assert b < top[b] ==> BlockOk(c, h, top, fixed, Next(c, h, b));
  }

  /** The size of the one free block of a fresh region of `len` bytes. */
  function FreshSize(c: Config, len: nat): nat
    requires len >= REGION_INFO + 3 * c.head
  {
    len - REGION_INFO - 3 * c.head
  }

  /** The aligned size of `k_mm_region_info_t`. */
  const REGION_INFO: nat := 8

  /** `init_mm_region` at `a`, and its middle block freed: a first block, a free block, a sentinel. */
  function Fresh(c: Config, h: Tiles, a: nat, mid: nat, last: nat, size: nat): Tiles {
    h[a := Hdr(REGION_INFO, false, false, 0)][mid := Hdr(size, true, false, 0)][last := Hdr(0, false, true, mid)]
  }

  /** Where a region may be added: aligned, large enough, not too large, and clear of all blocks. */
  ghost predicate CanAdd(c: Config, h: Tiles, a: nat, len: nat) {
    && Aligned(a) && Aligned(len) && REGION_INFO + 3 * c.head + c.MinSize() <= len <= Pow2(c.maxBit)
    && forall b :: b in h ==> Next(c, h, b) <= a || a + len <= b
  }

  lemma FreshTiling(c: Config, h: Tiles, top: map<nat, nat>, fixed: set<nat>, a: nat, len: nat, mid: nat, last: nat, size: nat)
    requires c.Ok() && Tiling(c, h, top, fixed) && CanAdd(c, h, a, len)
    requires mid == a + c.head + REGION_INFO && last == a + len - c.head && size == FreshSize(c, len)
    ensures a !in h && mid !in h && last !in h && a < mid < last
    ensures Tiling(c, Fresh(c, h, a, mid, last, size), top[a := last][mid := last][last := last], fixed + {a, last})
  {
    hide BlockOk;
    var h', top', fixed' := Fresh(c, h, a, mid, last, size), top[a := last][mid := last][last := last], fixed + {a, last};
    Clear(c, h, a, len, a);
    Clear(c, h, a, len, mid);
    Clear(c, h, a, len, last);
    FreshSizes(c, h, a, len, mid, last, size);
    forall x | x in h' ensures BlockOk(c, h', top', fixed', x) {
      if x in h {
        FreshOld(c, h, top, fixed, a, mid, last, size, x);
      } else {
        FreshNew(c, h, top, fixed, a, mid, last, size, x);
      }
    }
    FreshApart(c, h, a, len, mid, last, size);
    assert top'.Keys == h'.Keys;
  }

  lemma FreshApart(c: Config, h: Tiles, a: nat, len: nat, mid: nat, last: nat, size: nat)
    requires c.Ok() && Apart(c, h) && CanAdd(c, h, a, len) && a !in h && mid !in h && last !in h
    requires mid == a + c.head + REGION_INFO && last == a + len - c.head && size == FreshSize(c, len)
    ensures Apart(c, Fresh(c, h, a, mid, last, size))
  {
    hide Pow2, Aligned, Config.MinSize;
    var h' := Fresh(c, h, a, mid, last, size);
    forall x, y | x in h' && y in h' && x < y ensures Next(c, h', x) <= y {
      assert x in h && y in h ==> Next(c, h, x) <= y;
      assert x in h ==> Next(c, h, x) <= a || a + len <= x;
      assert y in h ==> Next(c, h, y) <= a || a + len <= y;
    }
  }

  lemma FreshOld(c: Config, h: Tiles, top: map<nat, nat>, fixed: set<nat>, a: nat, mid: nat, last: nat, size: nat, x: nat)
    requires c.Ok() && Tiling(c, h, top, fixed) && x in h && a !in h && mid !in h && last !in h
    ensures BlockOk(c, Fresh(c, h, a, mid, last, size), top[a := last][mid := last][last := last], fixed + {a, last}, x)
  {
    hide Apart, Pow2, Aligned, Config.MinSize;
    assert BlockOk(c, h, top, fixed, x);
  }

  lemma Clear(c: Config, h: Tiles, a: nat, len: nat, x: nat)
    requires CanAdd(c, h, a, len) && a <= x < a + len && c.head > 0
    ensures x !in h
  {}

  lemma FreshSizes(c: Config, h: Tiles, a: nat, len: nat, mid: nat, last: nat, size: nat)
    requires c.Ok() && CanAdd(c, h, a, len)
    requires mid == a + c.head + REGION_INFO && last == a + len - c.head && size == FreshSize(c, len)
    ensures Aligned(a) && Aligned(mid) && Aligned(last) && Aligned(size) && Aligned(REGION_INFO) && Aligned(0)
    ensures mid + c.head + size == last && c.MinSize() <= size && last < a + Pow2(c.maxBit)
  {
    hide Pow2, Aligned, Config.MinSize;
    AlignedConstants();
    AlignedSum(a, c.head);
    AlignedSum(a + c.head, REGION_INFO);
    AlignedSum(a, len);
    AlignedSum(a + len, c.head);
    AlignedSum(len, REGION_INFO);
    AlignedSum(len - REGION_INFO, c.head);
    AlignedSum(len - REGION_INFO - c.head, c.head);
    AlignedSum(len - REGION_INFO - c.head - c.head, c.head);
  }

  lemma AlignedConstants()
    ensures Aligned(REGION_INFO) && Aligned(0)
  {}

  lemma FreshNew(c: Config, h: Tiles, top: map<nat, nat>, fixed: set<nat>, a: nat, mid: nat, last: nat, size: nat, x: nat)
    requires c.Ok() && fixed <= h.Keys && top.Keys == h.Keys
    requires Aligned(a) && Aligned(mid) && Aligned(last) && Aligned(size) && Aligned(REGION_INFO) && Aligned(0)
    requires mid == a + c.head + REGION_INFO && mid + c.head + size == last && c.MinSize() <= size && last < a + Pow2(c.maxBit)
    requires a !in h && mid !in h && last !in h && (x == a || x == mid || x == last)
    ensures BlockOk(c, Fresh(c, h, a, mid, last, size), top[a := last][mid := last][last := last], fixed + {a, last}, x)
  {
    hide Pow2, Aligned;
    var h', top' := Fresh(c, h, a, mid, last, size), top[a := last][mid := last][last := last];
    assert h'[a].size == REGION_INFO && h'[mid].size == size && h'[last].size == 0;
    assert Next(c, h', a) == mid && Next(c, h', mid) == last;
  }

  lemma FreshMaps(c: Config, h: Tiles, fixed: set<nat>, a: nat, mid: nat, last: nat, size: nat)
    requires a !in h && mid !in h && last !in h && a < mid < last && fixed <= h.Keys
    ensures Frees(Fresh(c, h, a, mid, last, size)) == Frees(h)[mid := size]
    ensures Used(Fresh(c, h, a, mid, last, size), fixed + {a, last}) == Used(h, fixed)
  {
    var h', fixed', frees, used := Fresh(c, h, a, mid, last, size), fixed + {a, last}, Frees(h)[mid := size], Used(h, fixed);
    hide Frees, Used;
    forall x: nat ensures MapsAgree(h', fixed', frees, used, x) {
      FreeAt(h, x);
      UsedAt(h, fixed, x);
    }
    SameMap(h', fixed', frees, used);
  }
}
