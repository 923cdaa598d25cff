/** Searching a block of flash whatever it holds, for kv.c: what becomes of an item with an empty key, and
    of the items behind it. */
module KvSeek {
  import opened KvFlash
  import opened KvLog

  /** `kv_item_t`, as far as it is used: what `kv_item_search` has found. */
  datatype Found = Missing | Found(pos: nat, val: Bytes)

  /** `kv_item_traverse` with `__item_find_cb`, from `pos` on. What is no item is skipped in steps of a
      header; reading beyond the device fails. */
  function Seek(f: Bytes, pos: nat, end: nat, key: Bytes): (r: Found)
    requires end <= |f|
    ensures r.Found? ==> pos <= r.pos < end
    decreases if pos < end then end - pos else 0
  {
    if end <= pos + ITEM_HDR then Missing
    else
      var h := ReadHdr(f[pos..pos + ITEM_HDR]);
      if h.magic != ITEM_MAGIC && h.Blank() then Missing
      else if !h.Readable() then Seek(f, pos + ITEM_HDR, end, key)
      else
        var at, n := pos + ITEM_HDR, h.keyLen + h.valLen;
        if h.state != NORMAL || h.keyLen != |key| then Seek(f, pos + Align(ITEM_HDR + n), end, key)
        else if at + n > |f| then Missing
        else if f[at..at + |key|] == key then Found(pos, f[at + |key|..at + n])
        else Seek(f, pos + Align(ITEM_HDR + n), end, key)
  }

  // ------------------------------------------------------------------ well-formed logs

  /** An item is found if it is live and has the key, and passed over if not. */
  lemma SeekItem(f: Bytes, pos: nat, end: nat, it: Item, key: Bytes)
    requires ItemAt(f, pos, it) && pos + Size(it) <= end <= |f|
    ensures Seek(f, pos, end, key) == if it.live && it.key == key then Found(pos, it.val) else Seek(f, pos + Size(it), end, key)
  {
    hide Encode, Crc8, BytesAt, Align;
    ItemRead(f, pos, it);
    var at, n := pos + ITEM_HDR, |it.key| + |it.val|;
    SubSlice(f, at, at + n, 0, |it.key|);
    SubSlice(f, at, at + n, |it.key|, n);
    assert (it.key + it.val)[0..|it.key|] == it.key && (it.key + it.val)[|it.key|..n] == it.val;
  }

  /** A log without a live item of the key is passed over. */
  lemma {:induction false} SeekLog(f: Bytes, pos: nat, end: nat, items: seq<Item>, key: Bytes)
    requires LogAt(f, pos, items) && pos + LogSize(items) <= end <= |f| && forall k :: !Lives(items, k, key)
    ensures Seek(f, pos, end, key) == Seek(f, pos + LogSize(items), end, key)
  {
    hide Seek, ItemAt, Size;
    if items != [] {
      var n := |items| - 1;
      forall k ensures !Lives(items[..n], k, key) { assert !Lives(items, k, key); }
      SeekLog(f, pos, end, items[..n], key);
      assert !Lives(items, n, key);
      SeekItem(f, pos + LogSize(items[..n]), end, items[n], key);
    }
  }

  lemma SeekBlank(f: Bytes, pos: nat, end: nat, key: Bytes)
    requires BlankFrom(f, pos, end)
    ensures Seek(f, pos, end, key) == Missing
  {}

  /** In a block with a log the search finds the first live item of the key, and nothing if there is none. */
  lemma SeekBlock(f: Bytes, b: nat, st: Byte, items: seq<Item>, key: Bytes, i: nat)
    requires BlockIs(f, b, st, items) && i <= |items| && (i < |items| ==> Lives(items, i, key))
    requires forall k :: k < i ==> !Lives(items, k, key)
    ensures Seek(f, Start(b) + BLOCK_HDR, Start(b) + BLOCK, key) == if i < |items| then Found(End(b, items[..i]), items[i].val) else Missing
  {
    hide Seek, ItemAt, LogAt, Size;
    var pos, end := Start(b) + BLOCK_HDR, Start(b) + BLOCK;
    forall k ensures !Lives(items[..i], k, key) { assert k < i ==> !Lives(items, k, key); }
    if i < |items| {
      LogIndex(f, pos, items, i);
      assert items == items[..i] + items[i..];
      LogSplit(f, pos, items[..i], items[i..]);
      SeekLog(f, pos, end, items[..i], key);
      SeekItem(f, pos + LogSize(items[..i]), end, items[i], key);
    } else {
      assert items[..i] == items;
      SeekLog(f, pos, end, items, key);
      SeekBlank(f, End(b, items), end, key);
    }
  }

  // ----------------------------------------------------------------------- empty keys

  /** Whatever the flash holds, an empty key is never found. */
  lemma {:induction false} EmptyNever(f: Bytes, pos: nat, end: nat)
    requires end <= |f|
    ensures Seek(f, pos, end, []) == Missing
    decreases if pos < end then end - pos else 0
  {
    if end > pos + ITEM_HDR {
      var h := ReadHdr(f[pos..pos + ITEM_HDR]);
      EmptyNever(f, pos + if h.Readable() then Align(ITEM_HDR + h.keyLen + h.valLen) else ITEM_HDR, end);
    }
  }

  /** What has been stored is found again iff its key is not empty. */
  lemma StoredFoundIff(f: Bytes, b: nat, st: Byte, items: seq<Item>, it: Item)
    requires BlockIs(f, b, st, items) && it.Storable() && it.live && End(b, items) + Size(it) < Start(b) + BLOCK
    requires forall k :: !Lives(items, k, it.key)
    ensures Seek(Overwritten(f, End(b, items), Encode(it)), Start(b) + BLOCK_HDR, Start(b) + BLOCK, it.key) == Found(End(b, items), it.val)
            <==> it.key != []
  {
    hide Seek, BlockIs, LogSize, Encode, Size;
    BlockFits(f, b, st, items);
    var f' := Overwritten(f, End(b, items), Encode(it));
    if it.key == [] {
      EmptyNever(f', Start(b) + BLOCK_HDR, Start(b) + BLOCK);
    } else {
      var n, log := |items|, items + [it];
      BlockStore(f, b, st, items, it);
      forall k | k < n ensures !Lives(log, k, it.key) { assert !Lives(items, k, it.key); }
      assert log[..n] == items;
      SeekBlock(f', b, st, log, it.key, n);
    }
  }

  lemma BlockFits(f: Bytes, b: nat, st: Byte, items: seq<Item>)
    requires BlockIs(f, b, st, items)
    ensures Start(b) + BLOCK <= |f| && End(b, items) < Start(b) + BLOCK
  {}

  // -------------------------------------------------------- the items behind an empty key

  /** Where the search, in steps of a header from the front of the value, reads the first byte of a
      header, there is neither the mark of an item nor that of erased flash. */
  ghost predicate Inert(val: Bytes) {
    forall k :: 0 <= k < |val| && k % ITEM_HDR == 0 ==> val[k] != ITEM_MAGIC && val[k] != ERASED
  }

  /** The first step not below `n` bytes. */
  function Steps(n: nat): nat { (n + ITEM_HDR - 1) / ITEM_HDR * ITEM_HDR }

  /** An item with an empty key and such a value is passed over in steps of a header. */
  lemma {:induction false} SkipEmpty(f: Bytes, pos: nat, end: nat, it: Item, key: Bytes, k: nat)
    requires BytesAt(f, pos, it) && it.key == [] && Inert(it.val) && pos + Size(it) + ITEM_HDR <= end <= |f|
    requires k % ITEM_HDR == 0 && k <= Steps(Size(it))
    ensures Seek(f, pos + k, end, key) == Seek(f, pos + Steps(Size(it)), end, key)
    decreases Steps(Size(it)) - k
  {
    hide Seek, BytesAt, Inert, Size, Steps;
    StepInside(Size(it), k);
    if k < Steps(Size(it)) {
      SkipStep(f, pos, end, it, key, k);
      SkipEmpty(f, pos, end, it, key, k + ITEM_HDR);
    }
  }

  lemma StepInside(n: nat, k: nat)
    requires k % ITEM_HDR == 0 && k <= Steps(n)
    ensures k < Steps(n) ==> k < n && (k + ITEM_HDR) % ITEM_HDR == 0 && k + ITEM_HDR <= Steps(n)
  {}

  lemma SkipStep(f: Bytes, pos: nat, end: nat, it: Item, key: Bytes, k: nat)
    requires BytesAt(f, pos, it) && it.key == [] && Inert(it.val) && pos + Size(it) + ITEM_HDR <= end <= |f|
    requires k % ITEM_HDR == 0 && k < Size(it)
    ensures Seek(f, pos + k, end, key) == Seek(f, pos + k + ITEM_HDR, end, key)
  {
    hide Seek, Crc8, BytesAt, Inert, Encode, Size;
    if k == 0 {
      ItemRead(f, pos, it);
      SeekOver(f, pos, end, key);
    } else {
      EncodedAt(f, pos, it, k);
      InertAt(it.val, k - ITEM_HDR);
      SeekOver(f, pos + k, end, key);
    }
  }

  lemma SeekOver(f: Bytes, pos: nat, end: nat, key: Bytes)
    requires pos + ITEM_HDR < end <= |f|
    requires var h := ReadHdr(f[pos..pos + ITEM_HDR]); !h.Readable() && (h.magic == ITEM_MAGIC || h.magic != ERASED)
    ensures Seek(f, pos, end, key) == Seek(f, pos + ITEM_HDR, end, key)
  {}

  lemma InertAt(val: Bytes, k: nat)
    requires Inert(val) && k % ITEM_HDR == 0
    ensures k < |val| ==> val[k] != ITEM_MAGIC && val[k] != ERASED
  {}

  /** A byte of such an item: of its value, or of what fills it up. */
  lemma EncodedAt(f: Bytes, pos: nat, it: Item, k: nat)
    requires BytesAt(f, pos, it) && it.key == [] && ITEM_HDR <= k < Size(it) && pos + k + ITEM_HDR <= |f|
    ensures pos + k < |f| && f[pos + k] == if k - ITEM_HDR < |it.val| then it.val[k - ITEM_HDR] else 0
    ensures ReadHdr(f[pos + k..pos + k + ITEM_HDR]).magic == f[pos + k]
  {
    hide Header, Size;
    assert f[pos..pos + Size(it)][k] == Encode(it)[k];
  }

  /** The next item, of another key, is found where it lies iff the item with the empty key takes a whole
      number of steps. */
  lemma BehindEmptyIff(f: Bytes, b: nat, st: Byte, items: seq<Item>, e: Item, it: Item)
    requires BlockIs(f, b, st, items) && e.Storable() && e.key == [] && Inert(e.val) && it.Ok() && it.live
    requires End(b, items) + Size(e) + Size(it) < Start(b) + BLOCK && forall k :: !Lives(items, k, it.key)
    ensures var p := End(b, items);
            var f' := Overwritten(Overwritten(f, p, Encode(e)), p + Size(e), Encode(it));
            Seek(f', Start(b) + BLOCK_HDR, Start(b) + BLOCK, it.key) == Found(p + Size(e), it.val) <==> Size(e) % ITEM_HDR == 0
  {
    hide Seek, LogSize, Encode, Inert;
    var p, pos, end := End(b, items), Start(b) + BLOCK_HDR, Start(b) + BLOCK;
    var f' := Overwritten(Overwritten(f, p, Encode(e)), p + Size(e), Encode(it));
    LogKept(f, f', pos, items);
    assert f'[p..p + Size(e)] == Encode(e);
    assert f'[p + Size(e)..p + Size(e) + Size(it)] == Encode(it);
    SeekLog(f', pos, end, items, it.key);
    SkipEmpty(f', p, end, e, it.key, 0);
    if Size(e) % ITEM_HDR == 0 {
      SeekItem(f', p + Size(e), end, it, it.key);
    }
  }

  /** A lost item: after `"" -> 01 02 03 04` the search steps over the header of `"k" -> 07`, and into
      the erased flash behind it. */
  lemma LostKey(f: Bytes, b: nat, st: Byte)
    requires BlockIs(f, b, st, [])
    ensures var e, it, p := Item(true, [], [1, 2, 3, 4], 0), Item(true, [0x6B], [7], 0), End(b, []);
            && e.Storable() && it.Ok() && Size(e) == Size(it) == 12
            && var f' := Overwritten(Overwritten(f, p, Encode(e)), p + 12, Encode(it));
               Seek(f', Start(b) + BLOCK_HDR, Start(b) + BLOCK, it.key) == Missing
  {
    hide Seek, Crc8, Encode, Inert, BytesAt, Size;
    var e, it, p, end := Item(true, [], [1, 2, 3, 4], 0), Item(true, [0x6B], [7], 0), End(b, []), Start(b) + BLOCK;
    Sizes();
    var f' := Overwritten(Overwritten(f, p, Encode(e)), p + 12, Encode(it));
    Both(f, p, e, it);
    SkipEmpty(f', p, end, e, it.key, 0);
    SeekOver(f', p + 16, end, it.key);
    assert BlankFrom(f', p + 24, end);
    SeekBlank(f', p + 24, end, it.key);
  }

  lemma Sizes()
    ensures Size(Item(true, [], [1, 2, 3, 4], 0)) == Size(Item(true, [0x6B], [7], 0)) == 12 && Steps(12) == 16
    ensures Inert([1, 2, 3, 4])
  {}

  lemma Both(f: Bytes, p: nat, e: Item, it: Item)
    requires e == Item(true, [], [1, 2, 3, 4], 0) && it == Item(true, [0x6B], [7], 0) && p + 24 <= |f| && Size(e) == Size(it) == 12
    ensures var f' := Overwritten(Overwritten(f, p, Encode(e)), p + 12, Encode(it));
            BytesAt(f', p, e) && ReadHdr(f'[p + 16..p + 24]).magic == 1
  {
    hide Crc8;
    var f' := Overwritten(Overwritten(f, p, Encode(e)), p + 12, Encode(it));
    assert f'[p..p + 12] == Encode(e);
    assert Header(it)[4] == 1 && Encode(it)[4] == 1 && f'[p + 16] == 1;
  }
}
