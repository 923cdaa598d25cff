/** The heap of k_mm.c: allocation, release and reallocation in place. */
module Heap {
  import opened Bits
  import opened Lists
  import opened HeapTiles
  import opened HeapIndex
  import opened HeapSums
  import opened HeapFacts

  class Heap {
    const c: Config
    const quick: bool
    const mem: array<int>
    var hdr: Tiles
    var lists: seq<seq<nat>>
    var bitmap: nat
    var used: nat
    ghost var top: map<nat, nat>
    ghost var fixed: set<nat>
    ghost var base: nat

    /** The physical layout and the free index are well-formed and agree. */
    ghost predicate Shape()
      reads this
    {
      && c.Ok() && base > 0
      && Tiling(c, hdr, top, fixed)
      && Indexed(c, Frees(hdr), lists, bitmap)
      && InMemory(c, hdr, mem.Length)
    }

    /** ... and `used_size` is the fixed base plus the blocks handed out. */
    ghost predicate Valid()
      reads this
    {
      Shape() && used == base + Span(c.head, Live())
    }

    /** The blocks handed out: header address to payload size. */
    ghost function Live(): map<nat, nat>
      reads this
    {
      Used(hdr, fixed)
    }

    /** Writing a header or a link clobbers the bytes it occupies. */
    method Scribble(a: nat, n: nat)
      requires a + n <= mem.Length
      modifies mem
      ensures OnlyIn(a, n, old(mem[..]), mem[..])
    {
      for k := a to a + n
        invariant forall i :: 0 <= i < mem.Length && !(a <= i < a + n) ==> mem[i] == old(mem[i])
      {
        mem[k] := *;
      }
    }

    /** `k_mm_freelist_insert` */
    method FreelistInsert(b: nat, ghost frees: map<nat, nat>)
      requires c.Ok() && Indexed(c, frees, lists, bitmap) && b in hdr && b !in frees
      requires forall x :: x == b || x in frees ==> x + c.head + LINKS <= mem.Length
      modifies this`lists, this`bitmap, mem
      ensures Level(c, hdr[b].size).Some? ==> Indexed(c, frees[b := hdr[b].size], lists, bitmap)
      ensures Level(c, hdr[b].size).None? ==> lists == old(lists) && bitmap == old(bitmap)
      ensures OnlyLinks(c, frees, b, old(mem[..]), mem[..])
    {
      var level := Level(c, hdr[b].size);
      if level.None? { return; }
      var l := level.value;
      InsertIndexed(c, frees, lists, bitmap, b, hdr[b].size);
      Scribble(b + c.head, LINKS);
      if lists[l] != [] {
        assert lists[l][0] in lists[l];
        Scribble(lists[l][0] + c.head, LINKS);
      }
      lists := lists[l := [b] + lists[l]];
      bitmap := SetBit(bitmap, l);
    }

    /** `k_mm_freelist_delete` */
    method FreelistDelete(b: nat, ghost frees: map<nat, nat>)
      requires c.Ok() && Indexed(c, frees, lists, bitmap) && b in hdr && b in frees && frees[b] == hdr[b].size
      requires Level(c, hdr[b].size).Some?
      requires forall x :: x in frees ==> x + c.head + LINKS <= mem.Length
      modifies this`lists, this`bitmap, mem
      ensures Indexed(c, frees - {b}, lists, bitmap)
      ensures OnlyLinks(c, frees, b, old(mem[..]), mem[..])
    {
      var l := Level(c, hdr[b].size).value;
      DeleteIndexed(c, frees, lists, bitmap, b);
      var k :| 0 <= k < |lists[l]| && lists[l][k] == b;
      if k + 1 < |lists[l]| {
        assert lists[l][k + 1] in lists[l];
        Scribble(lists[l][k + 1] + c.head, LINKS);
      }
      if k > 0 {
        assert lists[l][k - 1] in lists[l];
        Scribble(lists[l][k - 1] + c.head, LINKS);
      }
      Scribble(b + c.head, LINKS);
      var rest := Without(lists[l], b);
      lists := lists[l := rest];
      if rest == [] { bitmap := ClearBit(bitmap, l); }
    }

    /** `find_up_level`: the first block of the lowest non-empty list above `level`. */
    method FindUpLevel(level: nat, ghost frees: map<nat, nat>) returns (r: Option<nat>)
      requires c.Ok() && Indexed(c, frees, lists, bitmap) && level < |lists|
      ensures r.Some? ==> r.value in frees && Level(c, frees[r.value]).Some? && Level(c, frees[r.value]).value > level
      ensures r.None? ==> forall k :: level < k < |lists| ==> lists[k] == []
    {
      var masked := MaskFrom(bitmap, level + 1);
      forall i: nat ensures Bit(masked, i) <==> (i > level && i < |lists| && lists[i] != []) {
        MaskFromAt(bitmap, level + 1, i);
      }
      WordSize(masked, |lists|);
      var l := Ctz32(masked);
      if masked > 0 {
        LowBitIs(masked, 0);
        assert Bit(masked, l);
        assert lists[l][0] in lists[l];
        return Some(lists[l][0]);
      }
      forall k | level < k < |lists| ensures lists[k] == [] {
        ZeroBits(k);
        assert Bit(masked, k) <==> lists[k] != [];
      }
      r := None;
    }

    /** The search of a level's own list for a block that is large enough. */
    method FindInLevel(level: nat, size: nat, ghost frees: map<nat, nat>) returns (r: Option<nat>)
      requires c.Ok() && Indexed(c, frees, lists, bitmap) && level < |lists|
      requires forall b :: b in frees ==> b in hdr && hdr[b].size == frees[b]
      ensures r.Some? ==> r.value in frees && frees[r.value] >= size && Level(c, frees[r.value]) == Some(level)
      ensures r.None? ==> forall b :: b in lists[level] ==> frees[b] < size
    {
      var i := 0;
      while i < |lists[level]|
        invariant 0 <= i <= |lists[level]|
        invariant forall k :: 0 <= k < i ==> lists[level][k] in frees && frees[lists[level][k]] < size
      {
        assert lists[level][i] in lists[level];
        if hdr[lists[level][i]].size >= size { return Some(lists[level][i]); }
        i := i + 1;
      }
      r := None;
    }

    /** The search of `k_mm_alloc`, in either order: it fails iff no free block is large enough. */
    method Find(level: nat, size: nat) returns (r: Option<nat>)
      requires Valid() && Level(c, size) == Some(level)
      ensures r.None? <==> !Available(Frees(hdr), size)
      ensures r.Some? ==> r.value in hdr && hdr[r.value].free && hdr[r.value].size >= size
    {
      ghost var frees := Frees(hdr);
      LevelSome(c, size);
      forall b: nat ensures (b in frees <==> b in hdr && hdr[b].free) && (b in frees ==> frees[b] == hdr[b].size) {
        FreeAt(hdr, b);
      }
      forall b | b in frees ensures Level(c, frees[b]).Some? {
        FreeHasLevel(c, hdr, top, fixed, b);
      }
      hide Tiling, Frees, Used, Level;
      var up, same: Option<nat> := None, None;
      if quick {
        up := FindUpLevel(level, frees);
        if up.None? { same := FindInLevel(level, size, frees); }
      } else {
        same := FindInLevel(level, size, frees);
        if same.None? { up := FindUpLevel(level, frees); }
      }
      if up.Some? {
        HigherFits(c, size, frees[up.value]);
        return up;
      }
      if same.None? {
        SearchComplete(c, frees, lists, bitmap, size, level);
      }
      r := same;
    }

    // The four in-place steps of which `k_mm_alloc`, `k_mm_free` and `k_mm_realloc` are made.

    /** The free block `b` leaves the index and is in use. */
    method TakeIn(b: nat)
      requires Shape() && b in hdr && hdr[b].free
      modifies this`hdr, this`lists, this`bitmap, mem
      ensures Shape() && CanTake(c, old(hdr), b) && hdr == Take(c, old(hdr), b)
      ensures Kept(c.head, old(Live()), old(mem[..]), mem[..])
    {
      hide Tiling, Indexed, Kept, OnlyIn, OnlyLinks, Frees, Used, InMemory, Take;
      ghost var h0, frees0, m0 := hdr, Frees(hdr), mem[..];
      TakeFacts(c, hdr, top, fixed, mem.Length, b);
      FreelistDelete(b, frees0);
      ghost var m1 := mem[..];
      LinksSpare(c, h0, top, fixed, b, m0, m1);
      var n := Next(c, hdr, b);
      hdr := hdr[b := hdr[b].(free := false)];
      Scribble(b, c.head);
      HeadersSpare(c, h0, top, fixed, b, m1, mem[..]);
      ghost var m2 := mem[..];
      hdr := hdr[n := hdr[n].(prevFree := false)];
      Scribble(n, c.head);
      HeadersSpare(c, h0, top, fixed, n, m2, mem[..]);
      KeptTrans(c.head, Used(h0, fixed), m0, m1, m2);
      KeptTrans(c.head, Used(h0, fixed), m0, m2, mem[..]);
    }

    /** The used block `b`, between used neighbours, becomes free and is indexed. */
    method GiveBack(b: nat)
      requires Shape() && InUse(hdr, fixed, b) && !hdr[b].prevFree
      requires Next(c, hdr, b) in hdr ==> !hdr[Next(c, hdr, b)].free
      modifies this`hdr, this`lists, this`bitmap, mem
      ensures Shape() && CanTake(c, old(hdr), b) && hdr == Release(c, old(hdr), b)
      ensures Kept(c.head, Live(), old(mem[..]), mem[..])
    {
      hide Tiling, Indexed, Kept, OnlyIn, OnlyLinks, Frees, Used, InMemory, Release;
      ghost var h0, frees0, m0 := hdr, Frees(hdr), mem[..];
      ReleaseFacts(c, hdr, top, fixed, mem.Length, b);
      ghost var h1 := Release(c, h0, b);
      var n := Next(c, hdr, b);
      hdr := hdr[b := hdr[b].(free := true)];
      Scribble(b, c.head);
      HeadersSpare(c, h1, top, fixed, b, m0, mem[..]);
      ghost var m1 := mem[..];
      FreelistInsert(b, frees0);
      ghost var m2 := mem[..];
      LinksSpareBut(c, h1, top, fixed, frees0, b, m1, m2);
      hdr := hdr[n := hdr[n].(prevFree := true, prev := b)];
      Scribble(n, c.head);
      HeadersSpare(c, h1, top, fixed, n, m2, mem[..]);
      KeptTrans(c.head, Used(h1, fixed), m0, m1, m2);
      KeptTrans(c.head, Used(h1, fixed), m0, m2, mem[..]);
    }

    /** The used right neighbour of the used block `b` becomes part of it. */
    method JoinNext(b: nat)
      requires Shape() && InUse(hdr, fixed, b) && InUse(hdr, fixed, Next(c, hdr, b))
      modifies this`hdr, this`top, mem
      ensures Shape() && Next(c, old(hdr), b) in old(hdr) && hdr == Join(c, old(hdr), b)
      ensures Kept(c.head, old(Live()), old(mem[..]), mem[..])
    {
      hide Tiling, Indexed, Kept, OnlyIn, Frees, Used, InMemory, Join;
      ghost var h0, m0 := hdr, mem[..];
      JoinFacts(c, hdr, top, fixed, mem.Length, b);
      var n := Next(c, hdr, b);
      hdr := hdr[b := hdr[b].(size := hdr[b].size + c.head + hdr[n].size)];
      Scribble(b, c.head);
      HeadersSpare(c, h0, top, fixed, b, m0, mem[..]);
      hdr := hdr - {n};
      top := top - {n};
    }

    /** The used block `b` is cut after `size` payload bytes; the rest becomes a used block. */
    method CutAt(b: nat, size: nat) returns (nb: nat)
      requires Shape() && InUse(hdr, fixed, b) && CanCut(c, hdr, b, size)
      modifies this`hdr, this`top, mem
      ensures Shape() && nb == b + c.head + size && nb !in old(hdr) && hdr == Cut(c, old(hdr), b, size)
      ensures Kept(c.head, Live(), old(mem[..]), mem[..])
    {
      hide Tiling, Indexed, Kept, Frees, Used, InMemory, OnlyIn, Cut, CanCut;
      ghost var h0, m0 := hdr, mem[..];
      CutFacts(c, h0, top, fixed, mem.Length, b, size);
      ghost var h1 := Cut(c, h0, b, size);
      nb := b + c.head + size;
      top := top[nb := top[b]];
      var rest := hdr[b].size - size - c.head;
      hdr := hdr[b := hdr[b].(size := size)];
      hdr := hdr[nb := Hdr(rest, false, false, b)];
      Scribble(b, c.head);
      HeadersSpare(c, h1, top, fixed, b, m0, mem[..]);
      ghost var m1 := mem[..];
      Scribble(nb, c.head);
      HeadersSpare(c, h1, top, fixed, nb, m1, mem[..]);
      KeptTrans(c.head, Used(h1, fixed), m0, m1, mem[..]);
    }

    /** The used block `b` absorbs its free right neighbour `n`, growing to `size` bytes. */
    method Absorb(b: nat, n: nat, ghost size: nat)
      requires Shape() && InUse(hdr, fixed, b) && n == Next(c, hdr, b) && n in hdr && hdr[n].free
      requires size == hdr[b].size + c.head + hdr[n].size
      modifies this`hdr, this`lists, this`bitmap, this`top, mem
      ensures Shape() && InUse(hdr, fixed, b)
      ensures b in old(hdr) && Absorbed(c, old(hdr), fixed, b, n, size, hdr)
      ensures Kept(c.head, old(Live()), old(mem[..]), mem[..])
    {
      hide Tiling, Indexed, Kept, Used, Frees, InMemory, Take, Join, Covers, Absorbed;
      ghost var live0, m0 := Live(), mem[..];
      AbsorbFacts(c, hdr, top, fixed, b, n, size);
      ghost var h1 := Take(c, hdr, n);
      TakeIn(n);
      assert hdr == h1;
      ghost var m1 := mem[..];
      JoinNext(b);
      KeptSub(c.head, live0, Used(h1, fixed), m1, mem[..]);
      KeptTrans(c.head, live0, m0, m1, mem[..]);
    }

    /** The tail of the used block `b` after `size` bytes becomes the free block `nb`. */
    method Split(b: nat, size: nat, nb: nat)
      requires Shape() && InUse(hdr, fixed, b) && CanCut(c, hdr, b, size) && nb == b + c.head + size
      requires Next(c, hdr, b) in hdr ==> !hdr[Next(c, hdr, b)].free
      modifies this`hdr, this`lists, this`bitmap, this`top, mem
      ensures Shape() && InUse(hdr, fixed, b)
      ensures b in old(hdr) && old(hdr)[b].size >= size + c.head && SplitOff(c, old(hdr), fixed, b, size, nb, hdr)
      ensures Kept(c.head, Live(), old(mem[..]), mem[..])
    {
      hide Tiling, Indexed, Kept, Used, Frees, InMemory, Cut, Release, Covers, SplitOff;
      ghost var m0 := mem[..];
      SplitFacts(c, hdr, top, fixed, b, size, nb);
      var r := CutAt(b, size);
      ghost var m1, live1 := mem[..], Live();
      GiveBack(r);
      KeptSub(c.head, Live(), live1, m0, m1);
      KeptTrans(c.head, Live(), m0, m1, mem[..]);
    }

    /** The block whose payload starts at `ptr` has been handed out. */
    ghost predicate Holds(ptr: nat)
      reads this
    {
      ptr >= c.head && ptr - c.head in Live()
    }

    /** `k_mm_alloc` */
    method Alloc(size: Size) returns (ptr: Option<nat>)
      requires Valid()
      modifies this`hdr, this`lists, this`bitmap, this`top, this`used, mem
      ensures Valid()
      ensures AllocOutcome(c, old(Frees(hdr)), old(Live()), old(mem[..]), Live(), mem[..], size, ptr)
      ensures AllocAnswer(c, old(Frees(hdr)), Live(), size, ptr)
      ensures ptr.None? ==> hdr == old(hdr) && lists == old(lists) && bitmap == old(bitmap)
    {
      hide Tiling, Indexed, Used, Frees, InMemory, Take, Covers, Level, BitLen, Rounded, Available, Asked, FitsClosely;
      ghost var live0, m0 := Live(), mem[..];
      ServedIff(c, hdr, top, fixed, size);
      if size == 0 {
        AllocNothing(c, Frees(hdr), live0, m0, size);
        return None;
      }
      var need := Rounded(c, size);
      var level := Level(c, need);
      if level.None? {
        AllocNothing(c, Frees(hdr), live0, m0, size);
        return None;
      }
      var found := Find(level.value, need);
      if found.None? {
        AllocNothing(c, Frees(hdr), live0, m0, size);
        return None;
      }
      hide Kept;
      var b := found.value;
      TakeOne(c, hdr, top, fixed, b);
      ghost var h1 := Take(c, hdr, b);
      TakeIn(b);
      assert hdr == h1;
      ghost var m1 := mem[..];
      if hdr[b].size >= need + c.head + c.MinSize() {
        Split(b, need, b + c.head + need);
        assert Live() == live0[b := need] by { PutPut(live0, b, h1[b].size, need); }
      }
      KeptSub(c.head, live0, Live(), m1, mem[..]);
      KeptTrans(c.head, live0, m0, m1, mem[..]);
      SpanPut(c.head, live0, b, hdr[b].size);
      RoundedFits(c, hdr[b].size, size);
      used := used + hdr[b].size + c.head;
      ptr := Some(b + c.head);
    }

    /** `k_mm_free` */
    method Free(ptr: Option<nat>)
      requires Valid() && (ptr.Some? ==> Holds(ptr.value))
      modifies this`hdr, this`lists, this`bitmap, this`top, this`used, mem
      ensures Valid()
      ensures ptr.None? ==> hdr == old(hdr) && Live() == old(Live()) && mem[..] == old(mem[..])
      ensures ptr.Some? ==> Live() == old(Live()) - {ptr.value - c.head}
      ensures ptr.Some? ==> Available(Frees(hdr), old(Live())[ptr.value - c.head])
      ensures Kept(c.head, Live(), old(mem[..]), mem[..])
    {
      hide Tiling, Indexed, Used, Frees, InMemory, Take, Join, Release, Covers;
      if ptr.None? { return; }
      hide Kept;
      ghost var live0, m0 := Live(), mem[..];
      var b := ptr.value - c.head;
      UsedAt(hdr, fixed, b);
      SpanTake(c.head, live0, b);
      var size := hdr[b].size;
      used := RemoveSize(used, size + c.head);
      HasNext(c, hdr, top, fixed, b);
      var n := Next(c, hdr, b);
      if hdr[n].free {
        Absorb(b, n, size + c.head + hdr[n].size);
      } else {
        KeptSelf(c.head, live0, m0);
      }
      ghost var m1 := mem[..];
      MergeLeft(b);
      assert Live() == live0 - {b};
      KeptSub(c.head, Live(), live0, m0, m1);
      KeptTrans(c.head, Live(), m0, m1, mem[..]);
    }

    /** The second half of `k_mm_free`: merge with a free left neighbour, then insert. */
    method MergeLeft(b: nat)
      requires Shape() && InUse(hdr, fixed, b) && Next(c, hdr, b) in hdr && !hdr[Next(c, hdr, b)].free
      modifies this`hdr, this`lists, this`bitmap, this`top, mem
      ensures Shape() && Live() == old(Live()) - {b}
      ensures Available(Frees(hdr), old(hdr[b].size))
      ensures Kept(c.head, Live(), old(mem[..]), mem[..])
    {
      hide Tiling, Indexed, Used, Frees, InMemory, Take, Join, Release, Covers, Kept;
      ghost var live0, m0, h0 := Live(), mem[..], hdr;
      var f := b;
      if hdr[b].prevFree {
        PrevFacts(c, hdr, top, fixed, b);
        f := hdr[b].prev;
        ghost var size := hdr[f].size + c.head + hdr[b].size;
        AbsorbLeft(c, hdr, top, fixed, f, b, size);
        ghost var h1 := Take(c, hdr, f);
        TakeIn(f);
        assert hdr == h1;
        ghost var m1 := mem[..];
        JoinNext(f);
        KeptSub(c.head, live0, Used(h1, fixed), m1, mem[..]);
        KeptTrans(c.head, live0, m0, m1, mem[..]);
        DropPut(live0, b, f, size);
      } else {
        KeptSelf(c.head, live0, m0);
      }
      ghost var m2, h2 := mem[..], hdr;
      GiveBack(f);
      ReleaseMaps(c, h2, fixed, f);
      assert Live() == live0 - {b};
      KeptSub(c.head, Live(), live0, m0, m2);
      KeptTrans(c.head, Live(), m0, m2, mem[..]);
      assert f in Frees(hdr) && Frees(hdr)[f] >= h0[b].size;
    }

    /** Resizing `b` where it is: `k_mm_realloc` with or without the free right neighbour `n`. */
    method Resize(b: nat, n: nat, need: nat, merge: bool)
      requires Valid() && InUse(hdr, fixed, b) && n == Next(c, hdr, b) && n in hdr && (hdr[n].free <==> merge)
      requires Aligned(need) && c.MinSize() <= need
      requires need <= if merge then hdr[b].size + c.head + hdr[n].size else hdr[b].size
      modifies this`hdr, this`lists, this`bitmap, this`top, this`used, mem
      ensures Valid() && InUse(hdr, fixed, b)
      ensures Live() == old(Live())[b := hdr[b].size] && need <= hdr[b].size < need + c.head + c.MinSize()
      ensures Kept(c.head, old(Live())[b := Min(need, old(hdr[b].size))], old(mem[..]), mem[..])
    {
      hide Tiling, Indexed, Used, Frees, InMemory, Kept;
      ghost var live0, m0 := Live(), mem[..];
      UsedAt(hdr, fixed, b);
      SpanTake(c.head, live0, b);
      var size := hdr[b].size;
      ghost var keep := Min(need, size);
      used := RemoveSize(used, size + c.head);
      if merge {
        Absorb(b, n, size + c.head + hdr[n].size);
      } else {
        KeptSelf(c.head, live0, m0);
      }
      ghost var m1, s1 := mem[..], hdr[b].size;
      assert Live() == live0[b := s1];
      if hdr[b].size >= need + c.head + c.MinSize() {
        HasNext(c, hdr, top, fixed, b);
        Split(b, need, b + c.head + need);
        PutPut(live0, b, s1, need);
      } else {
        KeptSelf(c.head, Live(), m1);
      }
      KeptSub(c.head, live0[b := keep], live0, m0, m1);
      KeptSub(c.head, live0[b := keep], Live(), m1, mem[..]);
      KeptTrans(c.head, live0[b := keep], m0, m1, mem[..]);
      SpanReplace(c.head, live0, b, hdr[b].size);
      used := used + hdr[b].size + c.head;
    }

    /** Neither the block nor the block with its right neighbour is large enough. */
    ghost predicate Tight(b: nat, need: nat)
      reads this
    {
      && CanTake(c, hdr, b)
      && var n := Next(c, hdr, b);
      && need > hdr[b].size
      && (hdr[n].free ==> need > hdr[b].size + c.head + hdr[n].size)
    }

    /** When `k_mm_realloc` fails: no room where the block is, and none elsewhere. */
    ghost predicate NoRoom(b: nat, need: nat)
      requires c.Ok()
      reads this
    {
      Tight(b, need) && (Level(c, need).None? || !Available(Frees(hdr), need))
    }

    /** Rounding moves no block that has the bytes asked for. */
    lemma TightIff(b: nat, size: Size)
      requires Shape() && InUse(hdr, fixed, b)
      ensures Tight(b, Rounded(c, size)) <==> Tight(b, Asked(c, size))
    {
      hide Tiling, Indexed, InMemory, Rounded;
      HasNext(c, hdr, top, fixed, b);
      var n := Next(c, hdr, b);
      RoundedLeast(c, size, Rounded(c, size));
      RoundedLeast(c, size, hdr[b].size);
      if hdr[n].free {
        AlignedSum(hdr[b].size + c.head, hdr[n].size);
        RoundedLeast(c, size, hdr[b].size + c.head + hdr[n].size);
      }
    }

    /** `memcpy` between payloads that do not overlap. */
    method MemCopy(to: nat, from: nat, n: nat)
      requires to + n <= mem.Length && from + n <= mem.Length && (to + n <= from || from + n <= to)
      modifies mem
      ensures Copied(old(mem[..]), from, mem[..], to, n) && OnlyIn(to, n, old(mem[..]), mem[..])
    {
      for k := 0 to n
        invariant forall j :: to <= j < to + k ==> mem[j] == old(mem[from + (j - to)])
        invariant forall j :: 0 <= j < mem.Length && !(to <= j < to + k) ==> mem[j] == old(mem[j])
      {
        mem[to + k] := mem[from + k];
      }
    }

    /** The last resort of `k_mm_realloc`: a new block, the bytes copied, the old block freed. */
    method Move(ptr: nat, need: Size) returns (r: Option<nat>)
      requires Valid() && Holds(ptr) && need > 0 && Rounded(c, need) == need
      modifies this`hdr, this`lists, this`bitmap, this`top, this`used, mem
      ensures Valid()
      ensures r.None? <==> Level(c, need).None? || !Available(old(Frees(hdr)), need)
      ensures r.None? ==> Live() == old(Live()) && Kept(c.head, old(Live()), old(mem[..]), mem[..])
      ensures r.Some? ==> Reallocated(c, old(Live()), old(mem[..]), Live(), mem[..], ptr, r.value, need)
    {
      hide Tiling, Indexed, Used, Frees, InMemory, Kept, Rounded, Level, BitLen, Available, Copied, OnlyIn;
      ghost var live0, m0 := Live(), mem[..];
      var b := ptr - c.head;
      r := Alloc(need);
      if r.None? { return; }
      ghost var live1, m1, nb := Live(), mem[..], r.value - c.head;
      UsedAt(hdr, fixed, b);
      PayloadsApart(c, hdr, top, fixed, mem.Length, nb, b);
      PayloadsApart(c, hdr, top, fixed, mem.Length, b, nb);
      var n := Min(need, hdr[b].size);
      MemCopy(r.value, ptr, n);
      ghost var m2 := mem[..];
      PayloadSpare(c, hdr, top, fixed, nb, n, m1, m2);
      Free(Some(ptr));
      MovedIs(c, live0, live1, m0, m1, m2, mem[..], b, nb, ptr, r.value, n, need);
    }

    lemma HoldsNext(ptr: nat, b: nat)
      requires Valid() && Holds(ptr) && b == ptr - c.head
      ensures InUse(hdr, fixed, b)
      ensures CanTake(c, hdr, b) && Next(c, hdr, b) <= mem.Length
    {
      hide Used, Frees, Tiling, Indexed, InMemory;
      UsedAt(hdr, fixed, b);
      HasNext(c, hdr, top, fixed, b);
      FitsMemory(c, hdr, mem.Length, b);
    }

    /** `k_mm_realloc` where the block, or the block and its right neighbour, is large enough. */
    method InPlace(ptr: nat, need: Size) returns (ok: bool)
      requires Valid() && Holds(ptr) && Rounded(c, need) == need
      modifies this`hdr, this`lists, this`bitmap, this`top, this`used, mem
      ensures Valid() && (ok <==> !old(Tight(ptr - c.head, need)))
      ensures ok ==> Reallocated(c, old(Live()), old(mem[..]), Live(), mem[..], ptr, ptr, need)
      ensures !ok ==> hdr == old(hdr) && Live() == old(Live()) && mem[..] == old(mem[..])
    {
      hide Tiling, Indexed, Used, Frees, InMemory, Kept, Rounded, Level, BitLen, Reallocated;
      var b := ptr - c.head;
      HoldsNext(ptr, b);
      UsedAt(hdr, fixed, b);
      var n := Next(c, hdr, b);
      ok := need <= hdr[b].size || (hdr[n].free && need <= hdr[b].size + c.head + hdr[n].size);
      if ok {
        Fit(ptr, b, n, need);
      }
    }

    /** ... resized. */
    method Fit(ptr: nat, b: nat, n: nat, need: Size)
      requires Valid() && Holds(ptr) && b == ptr - c.head && CanTake(c, hdr, b) && n == Next(c, hdr, b) && Rounded(c, need) == need
      requires need <= hdr[b].size || (hdr[n].free && need <= hdr[b].size + c.head + hdr[n].size)
      modifies this`hdr, this`lists, this`bitmap, this`top, this`used, mem
      ensures Valid() && Reallocated(c, old(Live()), old(mem[..]), Live(), mem[..], ptr, ptr, need)
    {
      hide Tiling, Indexed, Used, Frees, InMemory, Kept, Rounded, Level, BitLen, Reallocated;
      ghost var live0, m0 := Live(), mem[..];
      HoldsNext(ptr, b);
      UsedAt(hdr, fixed, b);
      ghost var keep := Min(need, hdr[b].size);
      if need <= hdr[b].size && hdr[n].free { ShrinkSplits(c, hdr, top, fixed, b, need); }
      Resize(b, n, need, hdr[n].free);
      ResizedIs(c, live0, m0, Live(), mem[..], ptr, b, keep, need);
    }

    /** ... of a block, to a size that is not zero. */
    method ReallocBlock(ptr: nat, size: Size, ghost noRoom: bool) returns (r: Option<nat>)
      requires Valid() && Holds(ptr) && size > 0
      requires noRoom == NoRoom(ptr - c.head, Rounded(c, size))
      modifies this`hdr, this`lists, this`bitmap, this`top, this`used, mem
      ensures Valid()
      ensures ReallocOutcome(c, noRoom, old(Live()), old(mem[..]), Live(), mem[..], ptr, r, Rounded(c, size))
      ensures Rounded(c, size) <= old(Live())[ptr - c.head] ==> r == Some(ptr)
      ensures r.None? <==> old(Tight(ptr - c.head, Asked(c, size)) && !Available(Frees(hdr), Asked(c, size)))
      ensures r.Some? ==> r.value >= c.head && r.value - c.head in Live() && FitsClosely(c, Live()[r.value - c.head], size)
    {
      hide Tiling, Indexed, Used, Frees, InMemory, Kept, Rounded, Level, BitLen, Available, Reallocated, Asked, FitsClosely;
      ghost var live0, m0 := Live(), mem[..];
      var need := Rounded(c, size);
      ServedIff(c, hdr, top, fixed, size);
      RoundedTwice(c, size);
      UsedAt(hdr, fixed, ptr - c.head);
      TightIff(ptr - c.head, size);
      var ok := InPlace(ptr, need);
      if ok {
        ReallocFits(c, live0, m0, Live(), mem[..], ptr, ptr, size);
        return Some(ptr);
      }
      r := Move(ptr, need);
      if r.Some? { ReallocFits(c, live0, m0, Live(), mem[..], ptr, r.value, size); }
    }

    /** `k_mm_realloc` */
    method Realloc(ptr: Option<nat>, size: Size) returns (r: Option<nat>)
      requires Valid() && (ptr.Some? ==> Holds(ptr.value))
      modifies this`hdr, this`lists, this`bitmap, this`top, this`used, mem
      ensures Valid()
      ensures ptr.None? ==> AllocOutcome(c, old(Frees(hdr)), old(Live()), old(mem[..]), Live(), mem[..], size, r)
      ensures ptr.Some? && size == 0 ==>
                r.None? && Live() == old(Live()) - {ptr.value - c.head} && Kept(c.head, Live(), old(mem[..]), mem[..])
      ensures ptr.Some? && size > 0 ==>
                ReallocOutcome(c, old(NoRoom(ptr.value - c.head, Rounded(c, size))), old(Live()), old(mem[..]),
                               Live(), mem[..], ptr.value, r, Rounded(c, size))
      ensures r.None? <==>
                || size == 0
                || (!old(Available(Frees(hdr), Asked(c, size))) && (ptr.Some? ==> old(Tight(ptr.value - c.head, Asked(c, size)))))
      ensures r.Some? ==> r.value >= c.head && r.value - c.head in Live() && FitsClosely(c, Live()[r.value - c.head], size)
    {
      hide Tiling, Indexed, Used, Frees, InMemory, Kept, Rounded, Level, BitLen, Available, NoRoom, Asked, FitsClosely, Tight;
      hide AllocOutcome, ReallocOutcome;
      if ptr.None? {
        if size > 0 {
          r := Alloc(size);
        } else {
          AllocNothing(c, Frees(hdr), Live(), mem[..], 0);
          r := None;
        }
      } else if size == 0 {
        Free(ptr);
        r := None;
      } else {
        r := ReallocBlock(ptr.value, size, NoRoom(ptr.value - c.head, Rounded(c, size)));
      }
    }

    /** `krhino_add_mm_region`: refused iff too small; live blocks and `used_size` stay. */
    method AddRegion(addr: Size, len: Size) returns (ok: bool)
      requires Valid()
      requires var a, l := RegionStart(addr), RegionLen(addr, len);
               l >= REGION_INFO + 3 * c.head + c.MinSize() ==> CanAdd(c, hdr, a, l) && a + l <= mem.Length
      modifies this`hdr, this`lists, this`bitmap, this`top, this`fixed, this`used, mem
      ensures Valid() && used == old(used) && Live() == old(Live())
      ensures ok <==> RegionLen(addr, len) >= REGION_INFO + 3 * c.head + c.MinSize()
      ensures ok ==> var a, l := RegionStart(addr), RegionLen(addr, len);
                var mid, last := a + c.head + REGION_INFO, a + l - c.head;
                && fixed == old(fixed) + {a, last}
                && Frees(hdr) == old(Frees(hdr))[mid := FreshSize(c, l)]
                && a in top && top[a] == last
      ensures Kept(c.head, Live(), old(mem[..]), mem[..])
    {
      hide Tiling, Indexed, Used, Frees, InMemory, Kept, OnlyIn, OnlyLinks, Level, Fresh, CanAdd, RegionLen;
      var a, l := RegionStart(addr), RegionLen(addr, len);
      ghost var m0, live0 := mem[..], Live();
      KeptSelf(c.head, live0, m0);
      if l < REGION_INFO + 3 * c.head + c.MinSize() { return false; }
      var mid, last, size := a + c.head + REGION_INFO, a + l - c.head, FreshSize(c, l);
      ghost var frees0 := Frees(hdr);
      FreshFacts(c, hdr, top, fixed, mem.Length, a, l, mid, last, size);
      Scribble(a, l);
      ghost var m1 := mem[..];
      RegionSpare(c, hdr, fixed, a, l, m0, m1);
      hdr := Fresh(c, hdr, a, mid, last, size);
      top := top[a := last][mid := last][last := last];
      fixed := fixed + {a, last};
      used := used + size + c.head;
      used := RemoveSize(used, size + c.head);
      FreshMid(c, old(hdr), a, mid, last, size);
      FreelistInsert(mid, frees0);
      LinksSpareBut(c, hdr, top, fixed, frees0, mid, m1, mem[..]);
      KeptTrans(c.head, live0, m0, m1, mem[..]);
      ok := true;
    }

    /** A heap without regions yet; `used_size` starts at the heap's own overhead. */
    constructor (c: Config, quick: bool, mem: array<int>, overhead: nat)
      requires c.Ok() && overhead > 0
      ensures Valid() && this.c == c && this.quick == quick && this.mem == mem
      ensures hdr == map[] && Live() == map[] && used == overhead
    {
      this.c, this.quick, this.mem := c, quick, mem;
      hdr, top, fixed := map[], map[], {};
      lists := seq(c.Levels(), _ => []);
      bitmap, used, base := 0, overhead, overhead;
      new;
      forall i: nat ensures !Bit(0, i) { ZeroBits(i); }
    }
  }
}
