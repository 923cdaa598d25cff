/** The layout of the key-value store in flash, for kv.c: items one after the other in a block. */
module KvLog {
  import opened KvFlash

  const BLOCK: nat := 4096
  const BLOCKS: nat := 2
  const BLOCK_HDR: nat := 4
  const ITEM_HDR: nat := 8
  const MAX_KEY: nat := 128
  const MAX_VAL: nat := 512
  const ITEM_MAX: nat := ITEM_HDR + MAX_KEY + MAX_VAL
  const RESERVED: nat := 1

  const BLOCK_MAGIC: Byte := 0x4B
  const ITEM_MAGIC: Byte := 0x49
  const USED: Byte := 0xCC
  const CLEAN: Byte := 0xEE
  const DIRTY: Byte := 0x44
  const NORMAL: Byte := 0xEE
  const DELETED: Byte := 0x00

  /** The state codes are reached from each other by clearing bits only, and there is no way back. */
  lemma StatesOnlyClear()
    ensures And(CLEAN, USED) == USED && And(USED, DIRTY) == DIRTY && And(NORMAL, DELETED) == DELETED
    ensures And(USED, CLEAN) != CLEAN && And(DIRTY, USED) != USED && And(DELETED, NORMAL) != NORMAL
  {
    CleanToUsed();
    UsedToDirty();
    hide And;
    AndNone(NORMAL);
  }

  lemma CleanToUsed()
    ensures And(CLEAN, USED) == USED && And(USED, CLEAN) == USED
  {
    assert And(1, 1) == 1 && And(3, 3) == 3 && And(7, 6) == 6 && And(14, 12) == 12;
    assert And(29, 25) == 25 && And(59, 51) == 51 && And(119, 102) == 102 && And(238, 204) == 204;
    assert And(1, 1) == 1 && And(3, 3) == 3 && And(6, 7) == 6 && And(12, 14) == 12;
    assert And(25, 29) == 25 && And(51, 59) == 51 && And(102, 119) == 102 && And(204, 238) == 204;
  }

  lemma UsedToDirty()
    ensures And(USED, DIRTY) == DIRTY && And(DIRTY, USED) == DIRTY
  {
    assert And(1, 0) == 0 && And(3, 1) == 1 && And(6, 2) == 2 && And(12, 4) == 4;
    assert And(25, 8) == 8 && And(51, 17) == 17 && And(102, 34) == 34 && And(204, 68) == 68;
    assert And(0, 1) == 0 && And(1, 3) == 1 && And(2, 6) == 2 && And(4, 12) == 4;
    assert And(8, 25) == 8 && And(17, 51) == 17 && And(34, 102) == 34 && And(68, 204) == 68;
  }

  lemma AndNone(a: nat)
    ensures And(a, 0) == 0 && And(0, a) == 0
  {}

  type Bytes = seq<Byte>

  /** `KV_ALIGN`, with pointers of four bytes. */
  function Align(x: nat): nat { (x + 3) / 4 * 4 }

  /** An item: a key with its value, or what is left of one. */
  datatype Item = Item(live: bool, key: Bytes, val: Bytes, origin: nat)
  {
    /** What `kv_item_set` lets through. */
    predicate Storable() { |key| <= MAX_KEY && 0 < |val| <= MAX_VAL && origin < 0x1_0000 }

    /** ... and `kv_item_traverse` takes for an item again. */
    predicate Ok() { Storable() && key != [] }

    function Dead(): Item { this.(live := false) }
  }

  function Size(it: Item): (n: nat)
    ensures it.Storable() ==> ITEM_HDR + 4 <= n <= ITEM_MAX
  {
    Align(ITEM_HDR + |it.key| + |it.val|)
  }

  function Xor(a: nat, b: nat): nat {
    if a == 0 && b == 0 then 0 else 2 * Xor(a / 2, b / 2) + (if a % 2 != b % 2 then 1 else 0)
  }

  lemma {:induction false} XorBound(a: nat, b: nat, n: nat, half: nat)
    requires a < n && b < n && n == 2 * half
    ensures half == 1 ==> Xor(a, b) < n
    ensures half == 2 || half == 4 || half == 8 || half == 16 || half == 32 || half == 64 || half == 128 ==> Xor(a, b) < n
  {
    if half == 1 {
      assert Xor(a / 2, b / 2) == 0;
    } else if half % 2 == 0 {
      XorBound(a / 2, b / 2, half, half / 2);
    }
  }

  /** One bit of the CRC with polynomial 0x31. */
  function Round(c: Byte): Byte {
    XorBound((2 * c) % 0x100, 0x31, 0x100, 128);
    if c >= 0x80 then Xor((2 * c) % 0x100, 0x31) else (2 * c) % 0x100
  }

  function Rounds(c: Byte, n: nat): Byte {
    if n == 0 then c else Round(Rounds(c, n - 1))
  }

  function Crc8(s: Bytes): Byte {
    if s == [] then 0
    else
      var n := |s| - 1;
      XorBound(Crc8(s[..n]), s[n], 0x100, 128);
      Rounds(Xor(Crc8(s[..n]), s[n]), 8)
  }

  /** `calc_crc8` */
  method CalcCrc8(buf: Bytes) returns (crc: Byte)
    ensures crc == Crc8(buf)
  {
    crc := 0;
    var k := 0;
    while k < |buf|
      invariant 0 <= k <= |buf| && crc == Crc8(buf[..k])
    {
      XorBound(crc, buf[k], 0x100, 128);
      crc := Xor(crc, buf[k]);
      ghost var c0 := crc;
      var i := 8;
      while i > 0
        invariant 0 <= i <= 8 && crc == Rounds(c0, 8 - i)
      {
        crc := Round(crc);
        i := i - 1;
      }
      assert buf[..k + 1][..k] == buf[..k];
      k := k + 1;
    }
    assert buf[..k] == buf;
  }

  function State(live: bool): Byte { if live then NORMAL else DELETED }

  function Header(it: Item): (h: Bytes)
    requires it.Storable()
    ensures |h| == ITEM_HDR
  {
    [ITEM_MAGIC, State(it.live), Crc8(it.key + it.val), |it.key|, |it.val| % 0x100, |it.val| / 0x100, it.origin % 0x100, it.origin / 0x100]
  }

  /** The bytes of an item. */
  function Encode(it: Item): (r: Bytes)
    requires it.Storable()
    ensures |r| == Size(it)
  {
    Header(it) + it.key + it.val + seq(Size(it) - ITEM_HDR - |it.key| - |it.val|, _ => 0)
  }

  // --------------------------------------------------------------- reading it back

  datatype Hdr = Hdr(magic: Byte, state: Byte, crc: Byte, keyLen: nat, valLen: nat, origin: nat)
  {
    /** What `kv_item_traverse` takes for an item. */
    predicate Readable() {
      magic == ITEM_MAGIC && 0 < keyLen <= MAX_KEY && 0 < valLen <= MAX_VAL
    }

    predicate Blank() { magic == 0xFF && state == 0xFF }
  }

  function Word(lo: nat, hi: nat): nat { lo + 0x100 * hi }

  function ReadHdr(h: Bytes): Hdr
    requires |h| == ITEM_HDR
  {
    Hdr(h[0], h[1], h[2], h[3], Word(h[4], h[5]), Word(h[6], h[7]))
  }

  /** The bytes of the item lie at `pos`. */
  ghost predicate BytesAt(f: Bytes, pos: nat, it: Item) {
    it.Storable() && pos + Size(it) <= |f| && f[pos..pos + Size(it)] == Encode(it)
  }

  ghost predicate ItemAt(f: Bytes, pos: nat, it: Item) {
    it.Ok() && BytesAt(f, pos, it)
  }

  /** Reading an item gives its fields back. */
  lemma ItemRead(f: Bytes, pos: nat, it: Item)
    requires BytesAt(f, pos, it)
    ensures pos + Size(it) <= |f| && ITEM_HDR + |it.key| + |it.val| <= Size(it)
    ensures ReadHdr(f[pos..pos + ITEM_HDR]) == Hdr(ITEM_MAGIC, State(it.live), Crc8(it.key + it.val), |it.key|, |it.val|, it.origin)
    ensures f[pos + ITEM_HDR..pos + ITEM_HDR + |it.key| + |it.val|] == it.key + it.val
  {
    var e, n := Encode(it), ITEM_HDR + |it.key| + |it.val|;
    SubSlice(f, pos, pos + Size(it), 0, ITEM_HDR);
    SubSlice(f, pos, pos + Size(it), ITEM_HDR, n);
    assert e[0..ITEM_HDR] == Header(it);
    assert e[ITEM_HDR..n] == it.key + it.val;
  }

  lemma SubSlice(f: Bytes, a: nat, b: nat, c: nat, d: nat)
    requires a <= b <= |f| && c <= d <= b - a
    ensures f[a..b][c..d] == f[a + c..a + d]
  {
    var l, r := f[a..b][c..d], f[a + c..a + d];
    forall i | 0 <= i < d - c ensures l[i] == r[i] {}
    assert l == r;
  }

  // -------------------------------------------------------------------- the log

  function LogSize(items: seq<Item>): nat {
    if items == [] then 0 else LogSize(items[..|items| - 1]) + Size(items[|items| - 1])
  }

  /** The items lie one after the other from `pos` on. */
  ghost predicate LogAt(f: Bytes, pos: nat, items: seq<Item>) {
    items == [] ||
    (var n := |items| - 1; LogAt(f, pos, items[..n]) && ItemAt(f, pos + LogSize(items[..n]), items[n]))
  }

  lemma {:induction false} LogIndex(f: Bytes, pos: nat, items: seq<Item>, i: nat)
    requires LogAt(f, pos, items) && i < |items|
    ensures ItemAt(f, pos + LogSize(items[..i]), items[i])
    ensures LogSize(items[..i]) + Size(items[i]) == LogSize(items[..i + 1]) <= LogSize(items)
  {
    hide ItemAt, Size;
    var n, upto := |items| - 1, items[..i + 1];
    assert upto[..i] == items[..i] && upto[i] == items[i];
    if i < n {
      var rest := items[..n];
      LogIndex(f, pos, rest, i);
      assert rest[..i] == items[..i] && rest[..i + 1] == upto;
    } else {
      assert upto == items;
    }
  }

  lemma {:induction false} LogKept(f: Bytes, f': Bytes, pos: nat, items: seq<Item>)
    requires LogAt(f, pos, items) && |f'| == |f|
    requires forall k :: pos <= k < pos + LogSize(items) && k < |f| ==> f'[k] == f[k]
    ensures LogAt(f', pos, items)
  {
    hide Encode, Size;
    if items != [] {
      var n := |items| - 1;
      LogKept(f, f', pos, items[..n]);
      var p := pos + LogSize(items[..n]);
      assert f'[p..p + Size(items[n])] == f[p..p + Size(items[n])];
    }
  }

  lemma LogAppend(f: Bytes, pos: nat, items: seq<Item>, it: Item)
    ensures LogSize(items + [it]) == LogSize(items) + Size(it)
    ensures LogAt(f, pos, items + [it]) <==> LogAt(f, pos, items) && ItemAt(f, pos + LogSize(items), it)
  {
    assert (items + [it])[..|items|] == items;
  }

  lemma LogNone(f: Bytes, pos: nat)
    ensures LogSize([]) == 0 && LogAt(f, pos, [])
  {}

  /** A log is its parts, one behind the other. */
  lemma {:induction false} LogSplit(f: Bytes, pos: nat, a: seq<Item>, b: seq<Item>)
    ensures LogSize(a + b) == LogSize(a) + LogSize(b)
    ensures LogAt(f, pos, a + b) <==> LogAt(f, pos, a) && LogAt(f, pos + LogSize(a), b)
  {
    hide LogAt, LogSize, ItemAt, Size;
    if b == [] {
      assert a + b == a;
      LogNone(f, pos + LogSize(a));
    } else {
      var b0, x := b[..|b| - 1], b[|b| - 1];
      assert b == b0 + [x] && a + b == (a + b0) + [x];
      LogSplit(f, pos, a, b0);
      LogAppend(f, pos, a + b0, x);
      LogAppend(f, pos + LogSize(a), b0, x);
    }
  }

  /** Deleting an item: one byte of its header. */
  lemma LogKill(f: Bytes, pos: nat, a: seq<Item>, it: Item, b: seq<Item>, p: nat)
    requires LogAt(f, pos, a + [it] + b) && p == pos + LogSize(a)
    ensures p + 2 <= |f| && p + 2 <= pos + LogSize(a + [it] + b)
    ensures LogSize(a + [it.Dead()] + b) == LogSize(a + [it] + b)
    ensures LogAt(Overwritten(f, p + 1, [DELETED]), pos, a + [it.Dead()] + b)
  {
    ItemFits(f, p, it);
    hide LogAt, LogSize, ItemAt, Size;
    LogSplit(f, pos, a + [it], b);
    LogAppend(f, pos, a, it);
    ItemKilled(f, p, it);
    var f' := Overwritten(f, p + 1, [DELETED]);
    LogKept(f, f', pos, a);
    LogKept(f, f', p + Size(it), b);
    LogAppend(f', pos, a, it.Dead());
    LogSplit(f', pos, a + [it.Dead()], b);
  }

  lemma ItemFits(f: Bytes, pos: nat, it: Item)
    ensures ItemAt(f, pos, it) ==> Size(it) >= 12 && pos + Size(it) <= |f|
    ensures Size(it.Dead()) == Size(it)
  {}

  lemma ItemKilled(f: Bytes, pos: nat, it: Item)
    requires ItemAt(f, pos, it)
    ensures pos + 2 <= |f| && ItemAt(Overwritten(f, pos + 1, [DELETED]), pos, it.Dead())
  {
    var f', n := Overwritten(f, pos + 1, [DELETED]), Size(it);
    KillEncoded(it);
    hide Encode;
    assert f'[pos..pos + n] == f[pos..pos + n][1 := DELETED];
  }

  lemma KillEncoded(it: Item)
    requires it.Ok()
    ensures it.Dead().Ok() && Size(it.Dead()) == Size(it) && Encode(it)[1 := DELETED] == Encode(it.Dead())
  {
    assert Header(it)[1 := DELETED] == Header(it.Dead());
  }

  // ------------------------------------------------------------------------ a block

  function Start(b: nat): nat { b * BLOCK }

  function End(b: nat, items: seq<Item>): nat { Start(b) + BLOCK_HDR + LogSize(items) }

  ghost predicate BlankFrom(f: Bytes, from: nat, to: nat) {
    to <= |f| && forall k :: from <= k < to ==> f[k] == ERASED
  }

  function BlockHeader(st: Byte): Bytes { [BLOCK_MAGIC, st, 0, 0] }

  /** Block `b` has the state and the items, and erased flash behind them: at least one byte. */
  ghost predicate BlockIs(f: Bytes, b: nat, st: Byte, items: seq<Item>) {
    && Start(b) + BLOCK <= |f| && f[Start(b)..Start(b) + BLOCK_HDR] == BlockHeader(st)
    && LogAt(f, Start(b) + BLOCK_HDR, items)
    && End(b, items) < Start(b) + BLOCK && BlankFrom(f, End(b, items), Start(b) + BLOCK)
  }

  /** What happens in one block does not matter to the other. */
  lemma BlockElsewhere(f: Bytes, f': Bytes, b: nat, st: Byte, items: seq<Item>)
    requires BlockIs(f, b, st, items) && |f'| == |f| && forall k :: Start(b) <= k < Start(b) + BLOCK ==> f'[k] == f[k]
    ensures BlockIs(f', b, st, items)
  {
    LogKept(f, f', Start(b) + BLOCK_HDR, items);
  }

  /** The erased flash behind the log takes the bytes of an item. */
  lemma BlockTakes(f: Bytes, b: nat, st: Byte, items: seq<Item>, it: Item)
    requires BlockIs(f, b, st, items) && it.Storable() && End(b, items) + Size(it) < Start(b) + BLOCK
    ensures OnlyClears(f, End(b, items), Encode(it)) && End(b, items + [it]) == End(b, items) + Size(it)
  {
    var pos, e := End(b, items), Encode(it);
    hide Encode, LogAt;
    forall i | 0 <= i < |e| ensures And(f[pos + i], e[i]) == e[i] { AndErased(e[i]); }
    LogAppend(f, pos, items, it);
  }

  /** Programming an item at the end of the log appends it. */
  lemma BlockStore(f: Bytes, b: nat, st: Byte, items: seq<Item>, it: Item)
    requires BlockIs(f, b, st, items) && it.Ok() && End(b, items) + Size(it) < Start(b) + BLOCK
    ensures BlockIs(Overwritten(f, End(b, items), Encode(it)), b, st, items + [it])
  {
    var pos, e := End(b, items), Encode(it);
    var f' := Overwritten(f, pos, e);
    LogKept(f, f', Start(b) + BLOCK_HDR, items);
    assert f'[pos..pos + Size(it)] == e;
    LogAppend(f', Start(b) + BLOCK_HDR, items, it);
    assert f'[Start(b)..Start(b) + BLOCK_HDR] == f[Start(b)..Start(b) + BLOCK_HDR];
  }

  lemma BlockKill(f: Bytes, b: nat, st: Byte, items: seq<Item>, i: nat, p: nat)
    requires BlockIs(f, b, st, items) && i < |items| && p == End(b, items[..i])
    ensures p + 1 < Start(b) + BLOCK && OnlyClears(f, p + 1, [DELETED])
    ensures BlockIs(Overwritten(f, p + 1, [DELETED]), b, st, items[i := items[i].Dead()])
    ensures End(b, items[i := items[i].Dead()]) == End(b, items)
  {
    var a, z, it := items[..i], items[i + 1..], items[i];
    assert items == a + [it] + z && items[i := it.Dead()] == a + [it.Dead()] + z;
    hide BlockIs, Overwritten, OnlyClears;
    BlockKillAt(f, b, st, a, it, z, items, items[i := it.Dead()], p);
  }

  lemma BlockKillAt(f: Bytes, b: nat, st: Byte, a: seq<Item>, it: Item, z: seq<Item>, items: seq<Item>, items': seq<Item>, p: nat)
    requires BlockIs(f, b, st, items) && items == a + [it] + z && items' == a + [it.Dead()] + z && p == End(b, a)
    ensures p + 1 < Start(b) + BLOCK && OnlyClears(f, p + 1, [DELETED])
    ensures BlockIs(Overwritten(f, p + 1, [DELETED]), b, st, items') && End(b, items') == End(b, items)
  {
    hide LogAt, LogSize, Start, And;
    LogKill(f, Start(b) + BLOCK_HDR, a, it, z, p);
    AndNone(f[p + 1]);
    HeaderKept(f, Overwritten(f, p + 1, [DELETED]), Start(b));
  }

  lemma HeaderKept(f: Bytes, f': Bytes, start: nat)
    requires start + BLOCK_HDR <= |f| == |f'| && forall k :: start <= k < start + BLOCK_HDR ==> f'[k] == f[k]
    ensures f'[start..start + BLOCK_HDR] == f[start..start + BLOCK_HDR]
  {}

  lemma BlockStated(f: Bytes, b: nat, st: Byte, items: seq<Item>, st': Byte)
    requires BlockIs(f, b, st, items) && And(st, st') == st'
    ensures OnlyClears(f, Start(b) + 1, [st']) && BlockIs(Overwritten(f, Start(b) + 1, [st']), b, st', items)
  {
    var f' := Overwritten(f, Start(b) + 1, [st']);
    LogKept(f, f', Start(b) + BLOCK_HDR, items);
    assert f[Start(b) + 1] == f[Start(b)..Start(b) + BLOCK_HDR][1];
    assert f'[Start(b)..Start(b) + BLOCK_HDR] == f[Start(b)..Start(b) + BLOCK_HDR][1 := st'];
  }

  lemma BlockFormatted(f: Bytes, b: nat)
    requires Start(b) + BLOCK <= |f|
    ensures OnlyClears(Erased(f, Start(b), BLOCK), Start(b), BlockHeader(CLEAN))
    ensures BlockIs(Overwritten(Erased(f, Start(b), BLOCK), Start(b), BlockHeader(CLEAN)), b, CLEAN, [])
  {
    var h := BlockHeader(CLEAN);
    forall i | 0 <= i < |h| ensures And(ERASED, h[i]) == h[i] { AndErased(h[i]); }
    var f' := Overwritten(Erased(f, Start(b), BLOCK), Start(b), h);
    assert f'[Start(b)..Start(b) + BLOCK_HDR] == h;
  }

  // ------------------------------------------------------------- the meaning of the log

  /** The live items, as a map. */
  function Contents(items: seq<Item>): map<Bytes, Bytes> {
    if items == [] then map[]
    else
      var m, it := Contents(items[..|items| - 1]), items[|items| - 1];
      if it.live then m[it.key := it.val] else m
  }

  /** No key has two live items. */
  ghost predicate OneEach(items: seq<Item>) {
    forall i, j :: 0 <= i < j < |items| && items[i].live && items[j].live ==> items[i].key != items[j].key
  }

  ghost predicate Lives(items: seq<Item>, i: int, key: Bytes) {
    0 <= i < |items| && items[i].live && items[i].key == key
  }

  /** A key is in the map iff it has a live item. */
  lemma {:induction false} ContentsIff(items: seq<Item>, key: Bytes)
    ensures key in Contents(items) <==> exists i :: Lives(items, i, key)
  {
    if items != [] {
      var n := |items| - 1;
      ContentsIff(items[..n], key);
      if i :| Lives(items[..n], i, key) { assert Lives(items, i, key); }
      if i :| Lives(items, i, key) && i < n { assert Lives(items[..n], i, key); }
      if items[n].live && items[n].key == key { assert Lives(items, n, key); }
    }
  }

  lemma {:induction false} ContentsAt(items: seq<Item>, i: nat)
    requires OneEach(items) && i < |items| && items[i].live
    ensures items[i].key in Contents(items) && Contents(items)[items[i].key] == items[i].val
  {
    var n := |items| - 1;
    if i < n { ContentsAt(items[..n], i); }
  }

  lemma ContentsAppend(items: seq<Item>, it: Item)
    requires it.live
    ensures Contents(items + [it]) == Contents(items)[it.key := it.val]
  {
    assert (items + [it])[..|items|] == items;
  }

  lemma KillOneEach(items: seq<Item>, i: nat)
    requires i < |items| && OneEach(items)
    ensures OneEach(items[i := items[i].Dead()])
  {}

  lemma {:induction false} KillContents(items: seq<Item>, i: nat)
    requires OneEach(items) && i < |items| && items[i].live
    ensures Contents(items[i := items[i].Dead()]) == Contents(items) - {items[i].key}
  {
    var n, items' := |items| - 1, items[i := items[i].Dead()];
    if i < n {
      KillContents(items[..n], i);
      assert items'[..n] == items[..n][i := items[i].Dead()];
    } else {
      assert items'[..n] == items[..n];
      ContentsIff(items[..n], items[n].key);
    }
  }

  /** An update stores the new item behind the old one, and then deletes the old one. */
  lemma UpdateContents(items: seq<Item>, i: nat, it: Item)
    requires OneEach(items) && Lives(items, i, it.key) && it.live
    ensures var items' := (items + [it])[i := items[i].Dead()];
            OneEach(items') && Contents(items') == Contents(items)[it.key := it.val]
  {
    var items' := (items + [it])[i := items[i].Dead()];
    assert items' == items[i := items[i].Dead()] + [it];
    KillContents(items, i);
    ContentsAppend(items[i := items[i].Dead()], it);
  }

  /** What compaction keeps. */
  function LiveOnly(items: seq<Item>): (r: seq<Item>)
    ensures |r| <= |items| && forall i :: 0 <= i < |r| ==> r[i].live
  {
    if items == [] then []
    else
      var r, it := LiveOnly(items[..|items| - 1]), items[|items| - 1];
      if it.live then r + [it] else r
  }

  /** Compaction does not change the map, and does not need more space. */
  lemma {:induction false} LiveOnlyKeeps(items: seq<Item>)
    ensures Contents(LiveOnly(items)) == Contents(items) && LogSize(LiveOnly(items)) <= LogSize(items)
  {
    if items != [] {
      var n := |items| - 1;
      var r := LiveOnly(items[..n]);
      LiveOnlyKeeps(items[..n]);
      if items[n].live { assert (r + [items[n]])[..|r|] == r; }
    }
  }

  /** ... and leaves one item for each key. */
  lemma {:induction false} LiveOnlyOneEach(items: seq<Item>)
    requires OneEach(items)
    ensures OneEach(LiveOnly(items)) && forall i :: 0 <= i < |LiveOnly(items)| ==> LiveOnly(items)[i] in items
  {
    if items != [] {
      var n := |items| - 1;
      var r := LiveOnly(items[..n]);
      LiveOnlyOneEach(items[..n]);
      assert forall i :: 0 <= i < |r| ==> r[i] in items;
      if items[n].live {
        forall i | 0 <= i < |r| ensures r[i].key != items[n].key {
          var j :| 0 <= j < n && items[j] == r[i];
        }
      }
    }
  }

  predicate HasPrefix(s: Bytes, p: Bytes) { |p| <= |s| && s[..|p|] == p }

  /** `items'` is `items` with the live items with the prefix deleted, up to item `n`. */
  ghost predicate Pruned(items: seq<Item>, items': seq<Item>, p: Bytes, n: nat) {
    && |items'| == |items|
    && forall i :: 0 <= i < |items| ==>
         items'[i] == if i < n && items[i].live && HasPrefix(items[i].key, p) then items[i].Dead() else items[i]
  }

  lemma {:induction false} PrunedContents(items: seq<Item>, items': seq<Item>, p: Bytes)
    requires Pruned(items, items', p, |items|) && OneEach(items)
    ensures OneEach(items')
    ensures forall k :: k in Contents(items') <==> k in Contents(items) && !HasPrefix(k, p)
    ensures forall k :: k in Contents(items') ==> Contents(items')[k] == Contents(items)[k]
  {
    if items != [] {
      var n := |items| - 1;
      PrunedContents(items[..n], items'[..n], p);
      ContentsIff(items[..n], items[n].key);
    }
  }
}
