/** The free index of the heap: one list per size level, and a bitmap of the non-empty ones. */
module HeapIndex {
  import opened Bits
  import opened Lists
  import opened HeapTiles

  datatype Option<+T> = None | Some(value: T)

  /** `size_to_level` */
  function Level(c: Config, size: nat): Option<nat>
    requires c.Ok()
  {
    var cnt := BitLen(size);
    if cnt < c.minBit then Some(0)
    else if cnt > c.maxBit then None
    else Some(cnt - c.minBit)
  }

  /** A block has a level, and so can be indexed, iff it is smaller than `MM_MAX_SIZE`. */
  lemma LevelSome(c: Config, size: nat)
    requires c.Ok()
    ensures Level(c, size).Some? <==> size < Pow2(c.maxBit)
    ensures Level(c, size).Some? ==> Level(c, size).value < c.Levels() - 1
  {
    BitLenIff(size, c.maxBit);
  }

  /** Level `l` has the sizes from one power of two to the next; level 0 also has all smaller ones. */
  lemma LevelIff(c: Config, size: nat, l: nat)
    requires c.Ok()
    ensures Level(c, size) == Some(l) <==>
              l + c.minBit <= c.maxBit && (l == 0 || Pow2(l + c.minBit - 1) <= size) && size < Pow2(l + c.minBit)
  {
    BitLenIff(size, l + c.minBit - 1);
    BitLenIff(size, l + c.minBit);
  }

  lemma LevelMono(c: Config, a: nat, b: nat)
    requires c.Ok() && a <= b && Level(c, b).Some?
    ensures Level(c, a).Some? && Level(c, a).value <= Level(c, b).value
  {
    BitLenMono(a, b);
  }

  /** A block of a higher level is large enough without looking at its size. */
  lemma HigherFits(c: Config, size: nat, b: nat)
    requires c.Ok() && Level(c, size).Some? && Level(c, b).Some? && Level(c, size).value < Level(c, b).value
    ensures size < b
  {
    if b <= size { LevelMono(c, b, size); }
  }

  /** The lists hold exactly the free blocks, each at its level; a bit is set iff its list is not empty. */
  ghost predicate Indexed(c: Config, frees: map<nat, nat>, lists: seq<seq<nat>>, bitmap: nat)
    requires c.Ok()
  {
    && |lists| == c.Levels()
    && (forall i: nat :: Bit(bitmap, i) <==> i < |lists| && lists[i] != [])
    && (forall l :: 0 <= l < |lists| ==> NoDup(lists[l]))
    && (forall l, b {:trigger b in lists[l]} :: 0 <= l < |lists| ==>
         (b in lists[l] <==> b in frees && Level(c, frees[b]) == Some(l)))
  }

  /** `k_mm_freelist_insert`, at a valid level. */
  lemma InsertIndexed(c: Config, frees: map<nat, nat>, lists: seq<seq<nat>>, bitmap: nat, b: nat, size: nat)
    requires c.Ok() && Indexed(c, frees, lists, bitmap) && b !in frees && Level(c, size).Some?
    ensures Level(c, size).value < |lists|
    ensures var l := Level(c, size).value;
            Indexed(c, frees[b := size], lists[l := [b] + lists[l]], SetBit(bitmap, l))
  {
    LevelSome(c, size);
    var l := Level(c, size).value;
    forall i: nat ensures Bit(SetBit(bitmap, l), i) <==> (i == l || Bit(bitmap, i)) {
      SetBitAt(bitmap, l, i);
    }
    NoDupCons(b, lists[l]);
  }

  /** `k_mm_freelist_delete` */
  lemma DeleteIndexed(c: Config, frees: map<nat, nat>, lists: seq<seq<nat>>, bitmap: nat, b: nat)
    requires c.Ok() && Indexed(c, frees, lists, bitmap) && b in frees && Level(c, frees[b]).Some?
    ensures Level(c, frees[b]).value < |lists|
    ensures var l := Level(c, frees[b]).value; var rest := Without(lists[l], b);
            Indexed(c, frees - {b}, lists[l := rest], if rest == [] then ClearBit(bitmap, l) else bitmap)
  {
    LevelSome(c, frees[b]);
    var l := Level(c, frees[b]).value;
    var rest := Without(lists[l], b);
    assert b in lists[l];
    WithoutNoDup(lists[l], b);
    forall i: nat ensures Bit(ClearBit(bitmap, l), i) <==> (i != l && Bit(bitmap, i)) {
      ClearBitAt(bitmap, l, i);
    }
  }

  /** Some free block is large enough for `size`. */
  ghost predicate Available(frees: map<nat, nat>, size: nat) {
    exists b :: b in frees && frees[b] >= size
  }

  /** If the level of `size` offers nothing large enough and all higher lists are empty, nothing is available. */
  lemma SearchComplete(c: Config, frees: map<nat, nat>, lists: seq<seq<nat>>, bitmap: nat, size: nat, l: nat)
    requires c.Ok() && Indexed(c, frees, lists, bitmap) && Level(c, size) == Some(l) && l < |lists|
    requires forall b :: b in frees ==> Level(c, frees[b]).Some?
    requires forall b :: b in lists[l] && b in frees ==> frees[b] < size
    requires forall k :: l < k < |lists| ==> lists[k] == []
    ensures !Available(frees, size)
  {
    forall b | b in frees ensures frees[b] < size {
      var k := Level(c, frees[b]).value;
      LevelSome(c, frees[b]);
      assert b in lists[k];
      if frees[b] >= size { LevelMono(c, size, frees[b]); }
    }
  }
}
