/** The key-value store of kv.c on two blocks of NOR flash, refined to a map. */
module KvStore {
  import opened KvFlash
  import opened KvLog
  import opened KvSeek
  import opened KvMap

  datatype Res = Ok | NoSpace | InvalidParam | NotFound

  /** `block_info_t` */
  datatype Info = Info(state: Byte, space: nat)

  function TakenFrom(info: seq<Info>, b: nat, len: nat): seq<Info>
    requires b < |info| && info[b].space >= len
  {
    info[b := info[b].(space := info[b].space - len)]
  }

  /** `g_kv_mgr` */
  class Kv {
    const flash: Flash
    var info: seq<Info>
    var writePos: nat
    var cleanBlocks: nat
    var gcTrigger: bool
    /** The block in use, and its log. */
    ghost var active: nat
    ghost var items: seq<Item>

    /** The flash and the record of its blocks agree with the log. */
    ghost predicate Laid()
      reads this, flash.cells
    {
      && active < BLOCKS && |info| == BLOCKS && flash.cells.Length == BLOCKS * BLOCK
      && info[active].state in {USED, DIRTY} && info[1 - active] == Info(CLEAN, BLOCK - BLOCK_HDR) && cleanBlocks == 1
      && BlockIs(flash.Bytes(), active, info[active].state, items) && BlockIs(flash.Bytes(), 1 - active, CLEAN, [])
      && writePos == End(active, items) && info[active].space == Start(active) + BLOCK - writePos
      && (info[active].state == USED ==> AllLive(items))
    }

    /** ... and no key has two live items. */
    ghost predicate Valid()
      reads this, flash.cells
    {
      Laid() && OneEach(items)
    }

    /** What the store holds. */
    ghost function Map(): map<Bytes, Bytes>
      reads this
    {
      Contents(items)
    }

    // ------------------------------------------------------------------- the primitives

    /** `kv_set_block_state` */
    method SetBlockState(b: nat, st: Byte, ghost log: seq<Item>)
      requires b < BLOCKS && |info| == BLOCKS && BlockIs(flash.Bytes(), b, info[b].state, log) && And(info[b].state, st) == st
      modifies this`info, flash.cells
      ensures flash.Bytes() == Overwritten(old(flash.Bytes()), Start(b) + 1, [st]) && BlockIs(flash.Bytes(), b, st, log)
      ensures info == old(info)[b := old(info)[b].(state := st)]
    {
      hide BlockIs, Flash.Bytes, And;
      BlockStated(flash.Bytes(), b, info[b].state, log, st);
      flash.Program(b * BLOCK + 1, [st]);
      info := info[b := info[b].(state := st)];
    }

    /** `kv_block_format` */
    method Format(b: nat)
      requires b < BLOCKS && |info| == BLOCKS && flash.cells.Length == BLOCKS * BLOCK
      modifies this`info, this`cleanBlocks, flash.cells
      ensures forall k :: 0 <= k < BLOCKS * BLOCK && !(Start(b) <= k < Start(b) + BLOCK) ==> flash.Bytes()[k] == old(flash.Bytes())[k]
      ensures BlockIs(flash.Bytes(), b, CLEAN, [])
      ensures info == old(info)[b := Info(CLEAN, BLOCK - BLOCK_HDR)] && cleanBlocks == old(cleanBlocks) + 1
    {
      hide BlockIs, Flash.Bytes, OnlyClears;
      BlockFormatted(flash.Bytes(), b);
      flash.Erase(b * BLOCK, BLOCK);
      flash.Program(b * BLOCK, [BLOCK_MAGIC, CLEAN, 0, 0]);
      info := info[b := Info(CLEAN, BLOCK - BLOCK_HDR)];
      cleanBlocks := cleanBlocks + 1;
    }

    /** `kv_item_del` of an item of the log. */
    method Kill(pos: nat, ghost i: nat)
      requires Laid() && i < |items| && pos == End(active, items[..i])
      modifies this`info, this`items, flash.cells
      ensures Laid() && items == old(items)[i := old(items)[i].Dead()]
      ensures info[active].space == old(info)[active].space
    {
      hide BlockIs, Flash.Bytes, And, OnlyClears;
      ghost var f0 := flash.Bytes();
      BlockKill(f0, active, info[active].state, items, i, pos);
      flash.Program(pos + 1, [DELETED]);
      BlockElsewhere(f0, flash.Bytes(), 1 - active, CLEAN, []);
      items := items[i := items[i].Dead()];
      var b := pos / BLOCK;
      assert b == active;
      if info[b].state == USED {
        StatesOnlyClear();
        ghost var f1 := flash.Bytes();
        SetBlockState(b, DIRTY, items);
        BlockElsewhere(f1, flash.Bytes(), 1 - active, CLEAN, []);
      }
    }

    /** A manager that has yet to be initialised. */
    constructor (f: Flash)
      ensures flash == f && cleanBlocks == 0 && |info| == BLOCKS && !gcTrigger
    {
      flash, info, writePos, cleanBlocks, gcTrigger, active, items := f, [Info(0, 0), Info(0, 0)], 0, 0, false, 0, [];
    }

    /** `kv_init_internal` on a new device. */
    method Init()
      requires cleanBlocks == 0 && |info| == BLOCKS && flash.cells.Length == BLOCKS * BLOCK && BlankFrom(flash.Bytes(), 0, BLOCKS * BLOCK)
      modifies this, flash.cells
      ensures Valid() && Map() == map[] && gcTrigger == old(gcTrigger)
    {
      hide BlockIs, Flash.Bytes, And;
      var i := 0;
      while i < BLOCKS
        invariant i <= BLOCKS && |info| == BLOCKS && cleanBlocks == i && gcTrigger == old(gcTrigger)
        invariant forall b :: 0 <= b < i ==> info[b] == Info(CLEAN, BLOCK - BLOCK_HDR) && BlockIs(flash.Bytes(), b, CLEAN, [])
        invariant BlankFrom(flash.Bytes(), i * BLOCK, BLOCKS * BLOCK)
      {
        InitBlock(i);
        i := i + 1;
      }
      active, items := 0, [];
      writePos := BLOCK_HDR;
      StatesOnlyClear();
      ghost var f1 := flash.Bytes();
      SetBlockState(0, USED, []);
      BlockElsewhere(f1, flash.Bytes(), 1, CLEAN, []);
      cleanBlocks := cleanBlocks - 1;
    }

    /** A block of a new device has no header yet. */
    method InitBlock(i: nat)
      requires i < BLOCKS && |info| == BLOCKS && flash.cells.Length == BLOCKS * BLOCK && BlankFrom(flash.Bytes(), i * BLOCK, BLOCKS * BLOCK)
      requires forall b :: 0 <= b < i ==> BlockIs(flash.Bytes(), b, CLEAN, [])
      modifies this`info, this`cleanBlocks, flash.cells
      ensures info == old(info)[i := Info(CLEAN, BLOCK - BLOCK_HDR)] && cleanBlocks == old(cleanBlocks) + 1
      ensures forall b :: 0 <= b <= i ==> BlockIs(flash.Bytes(), b, CLEAN, [])
      ensures BlankFrom(flash.Bytes(), (i + 1) * BLOCK, BLOCKS * BLOCK)
    {
      hide BlockIs, Flash.Bytes;
      ghost var f0 := flash.Bytes();
      var h := flash.Read(i * BLOCK, BLOCK_HDR);
      assert h[0] == f0[i * BLOCK];
      if h[0] == BLOCK_MAGIC {
        assert false;
      } else {
        Format(i);
      }
      forall b | 0 <= b < i ensures BlockIs(flash.Bytes(), b, CLEAN, []) { BlockElsewhere(f0, flash.Bytes(), b, CLEAN, []); }
    }

    // -------------------------------------------------------------------- traversing

    /** One turn of `kv_item_traverse`: the item at `pos`, or none any more. Nothing malformed is ever met. */
    method Peek(pos: nat, ghost b: nat, ghost st: Byte, ghost log: seq<Item>, ghost j: nat) returns (blank: bool, h: Hdr)
      requires BlockIs(flash.Bytes(), b, st, log) && j <= |log| && pos == End(b, log[..j]) && Start(b) + BLOCK > pos + ITEM_HDR
      ensures blank <==> j == |log|
      ensures j < |log| ==> h == HeaderOf(log[j])
    {
      PeekItem(flash.Bytes(), b, st, log, j);
      var bytes := flash.Read(pos, ITEM_HDR);
      h := ReadHdr(bytes);
      hide BlockIs, Flash.Bytes;
      if h.magic != ITEM_MAGIC {
        if h.Blank() {
          return true, h;
        }
        assert false;
      }
      if !h.Readable() {
        assert false;
      }
      blank := false;
    }

    /** The end of `kv_item_traverse`: the room that is left is recorded. */
    method Traversed(b: nat, pos: nat)
      requires b < |info| && pos < Start(b) + BLOCK && info[b].space == Start(b) + BLOCK - pos
      modifies this`info
      ensures info == old(info)
    {
      var end := b * BLOCK + BLOCK;
      if end > pos {
        info := info[b := info[b].(space := end - pos)];
      } else {
        assert false;
      }
    }

    /** `__item_find_cb` */
    method FindCb(pos: nat, h: Hdr, key: Bytes, ghost it: Item) returns (hit: bool, val: Bytes)
      requires h == HeaderOf(it) && pos + ITEM_HDR + |it.key| + |it.val| <= flash.cells.Length
      requires flash.Bytes()[pos + ITEM_HDR..pos + ITEM_HDR + |it.key| + |it.val|] == it.key + it.val
      ensures hit <==> it.key == key
      ensures hit ==> val == it.val
    {
      if h.keyLen != |key| {
        return false, [];
      }
      var store := flash.Read(pos + ITEM_HDR, h.keyLen + h.valLen);
      hit, val := store[..h.keyLen] == key, store[h.keyLen..];
    }

    /** `kv_item_traverse` with `__item_find_cb` */
    method Find(b: nat, key: Bytes) returns (r: Found, ghost j: nat)
      requires Laid() && b == active
      modifies this`info
      ensures info == old(info)
      ensures r.Found? ==> Lives(items, j, key) && r.pos == End(active, items[..j]) && r.val == items[j].val
      ensures r.Missing? ==> forall k :: !Lives(items, k, key)
      ensures r == Seek(flash.Bytes(), Start(b) + BLOCK_HDR, Start(b) + BLOCK, key)
    {
      hide BlockIs, Flash.Bytes, Align, Crc8, Seek;
      ghost var f, st := flash.Bytes(), info[b].state;
      var pos, end := b * BLOCK + BLOCK_HDR, b * BLOCK + BLOCK;
      j := 0;
      while end > pos + ITEM_HDR
        invariant info == old(info) && j <= |items| && pos == End(active, items[..j])
        invariant forall k :: k < j ==> !Lives(items, k, key)
        decreases |items| - j
      {
        var blank, h := Peek(pos, b, st, items, j);
        if blank { break; }
        NextItem(f, b, st, items, j);
        if h.state == NORMAL {
          var hit, val := FindCb(pos, h, key, items[j]);
          if hit {
            SeekBlock(f, b, st, items, key, j);
            return Found(pos, val), j;
          }
        } else if info[b].state == USED {
          assert false;
        }
        pos, j := pos + Align(ITEM_HDR + h.keyLen + h.valLen), j + 1;
      }
      AtEnd(f, b, st, items, j);
      SeekBlock(f, b, st, items, key, j);
      Traversed(b, pos);
      r := Missing;
    }

    /** `kv_item_search` */
    method Search(key: Bytes) returns (r: Found, ghost j: nat)
      requires Laid()
      modifies this`info
      ensures info == old(info)
      ensures r.Found? ==> Lives(items, j, key) && r.pos == End(active, items[..j]) && r.val == items[j].val
      ensures r.Missing? ==> forall k :: !Lives(items, k, key)
    {
      hide BlockIs, Flash.Bytes;
      j := 0;
      var i := 0;
      while i < BLOCKS
        invariant i <= BLOCKS && info == old(info) && (i > active ==> forall k :: !Lives(items, k, key))
      {
        if info[i].state != CLEAN {
          r, j := Find(i, key);
          if r.Found? { return; }
        }
        i := i + 1;
      }
      r := Missing;
    }

    // --------------------------------------------------------------------------- storing

    /** `kv_trigger_gc`: the task will run once the lock is free. */
    method TriggerGc()
      modifies this`gcTrigger
      ensures gcTrigger
    {
      if gcTrigger { return; }
      gcTrigger := true;
    }

    /** `kv_calc_position`: the write position, or 0. */
    method CalcPosition(len: nat) returns (pos: nat)
      requires Laid()
      modifies this`gcTrigger
      ensures pos == if info[active].space > len then writePos else 0
      ensures gcTrigger == (old(gcTrigger) || info[active].space < len + ITEM_MAX)
    {
      var b := writePos / BLOCK;
      if info[b].space > len {
        if info[b].space - len < ITEM_MAX && cleanBlocks <= RESERVED {
          TriggerGc();
        }
        return writePos;
      }
      if cleanBlocks <= RESERVED {
        TriggerGc();
        if info[writePos / BLOCK].space >= len + ITEM_MAX {
          assert false;
        }
      }
      TriggerGc();
      pos := 0;
    }

    /** `kv_item_store`: the item goes to the end of the log if the room there is more than its size. */
    method Store(key: Bytes, val: Bytes, origin: nat) returns (res: Res)
      requires Laid() && Item(true, key, val, origin).Storable()
      modifies this`info, this`writePos, this`gcTrigger, this`items, flash.cells
      ensures (key != [] || res != Res.Ok ==> Laid()) && (old(gcTrigger) ==> gcTrigger)
      ensures res == if old(info[active].space) > Size(Item(true, key, val, origin)) then Res.Ok else NoSpace
      ensures res == Res.Ok ==> items == if key != [] then old(items) + [Item(true, key, val, origin)] else old(items)
      ensures res == Res.Ok ==> Written(old(flash.Bytes()), old(writePos), Item(true, key, val, origin), flash.Bytes())
      ensures res == NoSpace ==> items == old(items) && flash.Bytes() == old(flash.Bytes()) && writePos == old(writePos) && gcTrigger
    {
      hide BlockIs, Flash.Bytes, OnlyClears, LogSize, Contents, Encode, Align, AllLive;
      ghost var it := Item(true, key, val, origin);
      var p := Pack(key, val, origin);
      var pos := CalcPosition(|p|);
      if pos > 0 {
        Append(p, active, info[active].state, items, it, CLEAN, []);
        AllLiveMore(items, it);
        if key != [] {
          items := items + [it];
        }
        res := Res.Ok;
      } else {
        res := NoSpace;
      }
    }

    /** An item is written behind the log of block `b`. */
    method Append(p: Bytes, ghost b: nat, ghost st: Byte, ghost log: seq<Item>, ghost it: Item, ghost st': Byte, ghost log': seq<Item>)
      requires b < BLOCKS && |info| == BLOCKS && it.Storable() && p == Encode(it) && writePos == End(b, log)
      requires BlockIs(flash.Bytes(), b, st, log) && BlockIs(flash.Bytes(), 1 - b, st', log')
      requires info[b].space == Start(b) + BLOCK - writePos && info[b].space > |p|
      modifies this`info, this`writePos, flash.cells
      ensures Written(old(flash.Bytes()), old(writePos), it, flash.Bytes()) && BlockIs(flash.Bytes(), 1 - b, st', log')
      ensures it.Ok() ==> BlockIs(flash.Bytes(), b, st, log + [it])
      ensures writePos == End(b, log + [it]) && old(writePos) + |p| == writePos
      ensures info == TakenFrom(old(info), b, |p|)
    {
      StoredBehind(flash.Bytes(), b, st, log, it, st', log');
      hide BlockIs, Flash.Bytes, OnlyClears, Encode, LogSize;
      flash.Program(writePos, p);
      writePos := writePos + |p|;
      var i := writePos / BLOCK;
      assert i == b;
      info := TakenFrom(info, i, |p|);
    }

    /** The bytes that `kv_item_store` builds. */
    method Pack(key: Bytes, val: Bytes, origin: nat) returns (p: Bytes)
      requires Item(true, key, val, origin).Storable()
      ensures p == Encode(Item(true, key, val, origin))
    {
      var crc := CalcCrc8(key + val);
      var len := Align(ITEM_HDR + |key| + |val|);
      p := [ITEM_MAGIC, NORMAL, crc, |key|, |val| % 0x100, |val| / 0x100, origin % 0x100, origin / 0x100] + key + val
           + seq(len - ITEM_HDR - |key| - |val|, _ => 0);
    }

    /** `kv_item_update` */
    method Update(pos: nat, old': Bytes, key: Bytes, val: Bytes, ghost i: nat) returns (res: Res)
      requires Valid() && Lives(items, i, key) && pos == End(active, items[..i]) && old' == items[i].val
      requires Item(true, key, val, 0).Ok()
      modifies this`info, this`writePos, this`gcTrigger, this`items, flash.cells
      ensures Valid() && (old(gcTrigger) ==> gcTrigger)
      ensures res == if old' == val || old(info[active].space) > Size(Item(true, key, val, 0)) then Res.Ok else NoSpace
      ensures res == Res.Ok ==> Map() == old(Map())[key := val]
      ensures res != Res.Ok ==> items == old(items) && gcTrigger && flash.Bytes() == old(flash.Bytes())
    {
      hide BlockIs, Flash.Bytes, OneEach, Contents, Align;
      ContentsAt(items, i);
      if |old'| == |val| {
        if old' == val {
          return Res.Ok;
        }
      }
      PosFits(flash.Bytes(), active, info[active].state, items, i);
      ghost var it, items0 := Item(true, key, val, pos), items;
      res := Store(key, val, pos);
      if res != Res.Ok { return; }
      assert items[..i] == items0[..i];
      UpdateContents(items0, i, it);
      Kill(pos, i);
    }

    // --------------------------------------------------------------------- the interface

    /** `kv_item_set`: a successful call changes the map at the key, and nothing else; a failed one
        changes nothing. It fails exactly for want of room behind the log. An empty key is let through:
        its item is written, and nothing that the store promises holds any more. */
    method Set(key: Bytes, val: Bytes) returns (res: Res)
      requires Valid()
      modifies this`info, this`writePos, this`gcTrigger, this`items, flash.cells
      ensures old(gcTrigger) ==> gcTrigger
      ensures key != [] || res != Res.Ok ==> Valid() && Step(old(Map()), if res == Res.Ok then Put(key, val) else Refused, Map())
      ensures key == [] && res == Res.Ok ==> Written(old(flash.Bytes()), old(writePos), Item(true, key, val, 0), flash.Bytes())
      ensures res == InvalidParam <==> |key| > MAX_KEY || |val| == 0 || |val| > MAX_VAL
      ensures res != Res.Ok ==> items == old(items) && flash.Bytes() == old(flash.Bytes())
      ensures res == NoSpace ==> gcTrigger
      ensures res == NoSpace <==>
                && 0 < |val| <= MAX_VAL && |key| <= MAX_KEY && !(key in old(Map()) && old(Map())[key] == val)
                && old(info[active].space) <= Align(ITEM_HDR + |key| + |val|)
    {
      hide BlockIs, Flash.Bytes, OneEach, Contents, Align;
      if |val| == 0 || |key| > MAX_KEY || |val| > MAX_VAL {
        return InvalidParam;
      }
      ghost var j, items0;
      var item;
      item, j := Search(key);
      items0 := items;
      ContentsIff(items0, key);
      if item.Found? {
        ItemOf(flash.Bytes(), active, info[active].state, items0, j);
        ContentsAt(items0, j);
        res := Update(item.pos, item.val, key, val, j);
      } else {
        res := Store(key, val, 0);
        if key == [] { return; }
        ContentsAppend(items0, Item(true, key, val, 0));
        NewOneEach(items0, Item(true, key, val, 0));
      }
    }

    /** `kv_item_get`: the value if the buffer is long enough for it, else its length. */
    method Get(key: Bytes, bufLen: int) returns (res: Res, val: Bytes, len: nat)
      requires Valid()
      modifies this`info
      ensures info == old(info)
      ensures res == InvalidParam <==> bufLen <= 0
      ensures res == NotFound <==> bufLen > 0 && key !in Map()
      ensures res == NoSpace <==> bufLen > 0 && key in Map() && |Map()[key]| > bufLen
      ensures key in Map() && bufLen > 0 ==> len == |Map()[key]|
      ensures res == Res.Ok ==> key in Map() && val == Map()[key]
    {
      hide BlockIs, Flash.Bytes, OneEach, Contents;
      val, len := [], 0;
      if bufLen <= 0 {
        return InvalidParam, val, len;
      }
      ghost var j;
      var item;
      item, j := Search(key);
      ContentsIff(items, key);
      if item.Missing? {
        return NotFound, val, len;
      }
      ContentsAt(items, j);
      len := |item.val|;
      if bufLen < len {
        return NoSpace, val, len;
      }
      res, val := Res.Ok, item.val;
    }

    /** `kv_item_delete` */
    method Delete(key: Bytes) returns (res: Res)
      requires Valid()
      modifies this`info, this`items, flash.cells
      ensures Valid() && res == (if key in old(Map()) then Res.Ok else NotFound) && Step(old(Map()), Drop(key), Map())
      ensures info[active].space == old(info[active].space)
    {
      hide BlockIs, Flash.Bytes, OneEach, Contents;
      ghost var j;
      var item;
      item, j := Search(key);
      ContentsIff(items, key);
      if item.Missing? {
        return NotFound;
      }
      KillContents(items, j);
      KillOneEach(items, j);
      Kill(item.pos, j);
      res := Res.Ok;
    }

    /** `__item_del_by_prefix_cb` */
    method DeletePrefixCb(pos: nat, h: Hdr, prefix: Bytes, ghost j: nat)
      requires Laid() && j < |items| && pos == End(active, items[..j]) && h == HeaderOf(items[j]) && items[j].live
      modifies this`info, this`items, flash.cells
      ensures Laid() && info[active].space == old(info[active].space)
      ensures items == if HasPrefix(old(items)[j].key, prefix) then old(items)[j := old(items)[j].Dead()] else old(items)
    {
      hide BlockIs, Flash.Bytes, Crc8, Encode, LogSize, Align;
      if h.keyLen < |prefix| { return; }
      NextItem(flash.Bytes(), active, info[active].state, items, j);
      var store := flash.Read(pos + ITEM_HDR, h.keyLen);
      SubSlice(flash.Bytes(), pos + ITEM_HDR, pos + ITEM_HDR + h.keyLen + h.valLen, 0, h.keyLen);
      assert store == items[j].key;
      if store[..|prefix|] == prefix {
        Kill(pos, j);
      }
    }

    /** One turn of the loop. */
    method PrefixTurn(b: nat, pos: nat, h: Hdr, prefix: Bytes, ghost log0: seq<Item>, ghost j: nat) returns (next: nat)
      requires Laid() && b == active && j < |items| && pos == End(b, items[..j]) && h == HeaderOf(items[j])
      requires Pruned(log0, items, prefix, j)
      modifies this`info, this`items, flash.cells
      ensures Laid() && info[active].space == old(info[active].space)
      ensures |items| == |old(items)| && next == End(b, items[..j + 1]) && Pruned(log0, items, prefix, j + 1)
    {
      hide BlockIs, Flash.Bytes, Crc8, LogSize;
      ghost var log := items;
      NextItem(flash.Bytes(), b, info[b].state, items, j);
      if h.state == NORMAL {
        DeletePrefixCb(pos, h, prefix, j);
      } else if info[b].state == USED {
        assert false;
      }
      PrunedStep(log0, log, items, prefix, j);
      next := pos + Align(ITEM_HDR + h.keyLen + h.valLen);
    }

    /** `kv_item_traverse` with `__item_del_by_prefix_cb`. A clean block has nothing to delete. */
    method DeletePrefixIn(b: nat, prefix: Bytes)
      requires Valid() && b < BLOCKS
      modifies this`info, this`items, flash.cells
      ensures Laid() && info[active].space == old(info[active].space)
      ensures if b == active then Pruned(old(items), items, prefix, |items|) else items == old(items)
    {
      hide BlockIs, Flash.Bytes, Align, Crc8;
      ghost var log0, j := items, 0;
      var pos, end := b * BLOCK + BLOCK_HDR, b * BLOCK + BLOCK;
      while end > pos + ITEM_HDR
        invariant Laid() && info[active].space == old(info[active].space)
        invariant if b == active then j <= |items| && pos == End(b, items[..j]) && Pruned(log0, items, prefix, j)
                  else items == log0 && j == 0 && pos == End(b, [])
        decreases |items| - j
      {
        ghost var log, st := if b == active then items else [], info[b].state;
        assert log[..j] == if b == active then items[..j] else [];
        var blank, h := Peek(pos, b, st, log, j);
        if blank { break; }
        pos := PrefixTurn(b, pos, h, prefix, log0, j);
        j := j + 1;
      }
      if b == active { AtEnd(flash.Bytes(), b, info[b].state, items, j); }
      Traversed(b, pos);
    }

    /** `kv_item_delete_by_prefix`: exactly the keys with the prefix are gone. */
    method DeleteByPrefix(prefix: Bytes)
      requires Valid()
      modifies this`info, this`items, flash.cells
      ensures Valid() && info[active].space == old(info[active].space)
      ensures Step(old(Map()), DropPrefix(prefix), Map())
    {
      hide BlockIs, Flash.Bytes, OneEach, Contents, HasPrefix;
      ghost var log0 := items;
      var i := 0;
      while i < BLOCKS
        invariant i <= BLOCKS && Laid() && info[active].space == old(info[active].space)
        invariant if i > active then Pruned(log0, items, prefix, |items|) && OneEach(items) else items == log0
      {
        DeletePrefixIn(i, prefix);
        if i == active { PrunedContents(log0, items, prefix); }
        i := i + 1;
      }
      PrunedContents(log0, items, prefix);
    }

    // ------------------------------------------------------------------------ compaction

    /** `__item_gc_cb`: the item is copied behind the others in block `g`. */
    method GcCb(pos: nat, h: Hdr, ghost g: nat, ghost j: nat)
      requires Copying(g, j) && j < |items| && items[j].live && h == HeaderOf(items[j]) && pos == End(active, items[..j])
      modifies this`info, this`writePos, flash.cells
      ensures Copying(g, j + 1) && info[active] == old(info[active])
    {
      hide BlockIs, Flash.Bytes, OnlyClears, LogSize, Encode, Crc8;
      ghost var it, log := items[j], LiveOnly(items[..j]);
      var len := Align(ITEM_HDR + h.keyLen + h.valLen);
      NextItem(flash.Bytes(), active, info[active].state, items, j);
      CopyFits(items, j);
      hide LiveOnly, Align;
      var p := flash.Read(pos, len);
      Append(p, g, CLEAN, log, it, info[active].state, items);
    }

    /** One turn of the loop. */
    method CopyTurn(b: nat, pos: nat, h: Hdr, ghost g: nat, ghost j: nat) returns (next: nat)
      requires Copying(g, j) && b == active && info[b].state != USED
      requires j < |items| && pos == End(b, items[..j]) && h == HeaderOf(items[j])
      modifies this`info, this`writePos, flash.cells
      ensures Copying(g, j + 1) && info[b] == old(info[b]) && next == End(b, items[..j + 1])
    {
      hide BlockIs, Flash.Bytes, Align, Crc8, LogSize;
      NextItem(flash.Bytes(), b, info[b].state, items, j);
      SkipDead(items, j);
      if h.state == NORMAL {
        GcCb(pos, h, g, j);
      } else if info[b].state == USED {
        assert false;
      }
      next := pos + Align(ITEM_HDR + h.keyLen + h.valLen);
    }

    /** `kv_item_traverse` with `__item_gc_cb` */
    method CopyLive(b: nat, ghost g: nat)
      requires Copying(g, 0) && b == active && info[b].state != USED && info[b].space == Start(b) + BLOCK - End(b, items)
      modifies this`info, this`writePos, flash.cells
      ensures Copying(g, |items|) && info[b] == old(info[b])
    {
      hide BlockIs, Flash.Bytes, Align, Crc8, LogSize, Copying, LiveOnly;
      CopyingFacts(g, 0);
      NoLog(items);
      var pos, end := b * BLOCK + BLOCK_HDR, b * BLOCK + BLOCK;
      ghost var j := 0;
      while end > pos + ITEM_HDR
        invariant j <= |items| && pos == End(b, items[..j]) && Copying(g, j)
        invariant |info| == BLOCKS && info[b] == old(info[b]) && BlockIs(flash.Bytes(), b, info[b].state, items)
        decreases |items| - j
      {
        var blank, h := Peek(pos, b, info[b].state, items, j);
        if blank { break; }
        pos := CopyTurn(b, pos, h, g, j);
        j := j + 1;
        CopyingFacts(g, j);
      }
      AtEnd(flash.Bytes(), b, info[b].state, items, j);
      Traversed(b, pos);
    }

    lemma CopyingFacts(g: nat, j: nat)
      requires Copying(g, j)
      ensures |info| == BLOCKS && active < BLOCKS && BlockIs(flash.Bytes(), active, info[active].state, items)
    {}

    /** `kv_gc_task`: the live items of a dirty block move to the clean one. The map stays what it is,
        and the room behind the log is all that the live items do not need. */
    method Gc()
      requires Valid()
      modifies this, flash.cells
      ensures Valid() && Step(old(Map()), Compact, Map()) && !gcTrigger
      ensures items == LiveOnly(old(items)) && info[active].space == BLOCK - BLOCK_HDR - LogSize(items)
      ensures old(info[active].state) == DIRTY ==> info[active].state == USED && active == 1 - old(active)
      ensures old(info[active].state) == USED ==> flash.Bytes() == old(flash.Bytes()) && items == old(items)
    {
      hide BlockIs, Flash.Bytes, OneEach, Contents, LogSize, LiveOnly;
      Fits(flash.Bytes(), active, info[active].state, items);
      LiveOnlyKeeps(items);
      LiveOnlyOneEach(items);
      AllLiveOnly(items);
      var origin := writePos;
      assert origin / BLOCK == active;
      if cleanBlocks == 0 {
        assert false;
      }
      var g := 0;
      while g < BLOCKS && info[g].state != CLEAN
        invariant g <= 1 - active
      {
        g := g + 1;
      }
      writePos := g * BLOCK + BLOCK_HDR;
      var copied := Collect(origin, g);
      if !copied {
        writePos := origin;
      }
      gcTrigger := false;
    }

    /** The search of `kv_gc_task` for a dirty block, which starts behind the one in use. */
    method Collect(origin: nat, g: nat) returns (copied: bool)
      requires Laid0(items, active, g) && origin / BLOCK == active && writePos == Start(g) + BLOCK_HDR
      modifies this`info, this`writePos, this`cleanBlocks, this`active, this`items, flash.cells
      ensures copied == (old(info[active].state) == DIRTY)
      ensures copied ==> Laid() && active == g && items == LiveOnly(old(items)) && info[g].state == USED
      ensures !copied ==> info == old(info) && items == old(items) && active == old(active) && cleanBlocks == old(cleanBlocks)
      ensures !copied ==> flash.Bytes() == old(flash.Bytes())
    {
      hide BlockIs, Flash.Bytes, LogSize, LiveOnly;
      var i := origin / BLOCK + 1;
      ghost var turns := 2;
      copied := false;
      while true
        invariant 0 < turns <= 2 && i == active + 3 - turns - (if turns == 1 && active == 1 then BLOCKS else 0)
        invariant Laid0(items, active, g) && writePos == Start(g) + BLOCK_HDR && !copied
        invariant info == old(info) && flash.Bytes() == old(flash.Bytes()) && items == old(items) && active == old(active)
        decreases turns
      {
        if i == BLOCKS { i := 0; }
        if info[i].state == DIRTY {
          Move(i, g);
          return true;
        }
        if i == origin / BLOCK { return; }
        i := i + 1;
        turns := turns - 1;
      }
    }

    /** Compaction of block `b` into block `g`. */
    method Move(b: nat, g: nat)
      requires Laid0(items, b, g) && b == active && writePos == Start(g) + BLOCK_HDR && info[b].state == DIRTY
      modifies this`info, this`writePos, this`cleanBlocks, this`active, this`items, flash.cells
      ensures Laid() && active == g && items == LiveOnly(old(items)) && info[g].state == USED
    {
      hide BlockIs, Flash.Bytes, LogSize, LiveOnly;
      NoLog(items);
      CopyLive(b, g);
      Swap(b, g, LiveOnly(items));
      cleanBlocks := cleanBlocks - 1;
      AllLiveIn(items);
      active, items := g, LiveOnly(items);
    }

    /** The old block is erased, and the new one is in use. */
    method Swap(b: nat, g: nat, ghost log: seq<Item>)
      requires b < BLOCKS && g == 1 - b && |info| == BLOCKS && flash.cells.Length == BLOCKS * BLOCK
      requires BlockIs(flash.Bytes(), g, CLEAN, log) && info[g].state == CLEAN
      modifies this`info, this`cleanBlocks, flash.cells
      ensures BlockIs(flash.Bytes(), g, USED, log) && BlockIs(flash.Bytes(), b, CLEAN, [])
      ensures info == old(info)[b := Info(CLEAN, BLOCK - BLOCK_HDR)][g := old(info)[g].(state := USED)]
      ensures cleanBlocks == old(cleanBlocks) + 1
    {
      hide BlockIs, Flash.Bytes, And;
      ghost var f0 := flash.Bytes();
      Format(b);
      BlockElsewhere(f0, flash.Bytes(), g, CLEAN, log);
      StatesOnlyClear();
      ghost var f1 := flash.Bytes();
      SetBlockState(g, USED, log);
      BlockElsewhere(f1, flash.Bytes(), b, CLEAN, []);
    }

    /** As `Laid`, but for the write position. */
    ghost predicate Laid0(log: seq<Item>, b: nat, g: nat)
      reads this, flash.cells
    {
      && b < BLOCKS && g == 1 - b && |info| == BLOCKS && flash.cells.Length == BLOCKS * BLOCK
      && info[b].state in {USED, DIRTY} && info[g] == Info(CLEAN, BLOCK - BLOCK_HDR) && cleanBlocks == 1
      && BlockIs(flash.Bytes(), b, info[b].state, log) && BlockIs(flash.Bytes(), g, CLEAN, [])
      && info[b].space == Start(b) + BLOCK - End(b, log)
    }

    /** Block `g` has the live ones of the first `j` items. */
    ghost predicate Copying(g: nat, j: nat)
      reads this, flash.cells
    {
      && active < BLOCKS && |info| == BLOCKS && flash.cells.Length == BLOCKS * BLOCK && g == 1 - active && j <= |items|
      && BlockIs(flash.Bytes(), active, info[active].state, items) && BlockIs(flash.Bytes(), g, CLEAN, LiveOnly(items[..j]))
      && writePos == End(g, LiveOnly(items[..j])) && info[g] == Info(CLEAN, Start(g) + BLOCK - writePos)
    }
  }

  /** A block that is only used has nothing deleted. */
  ghost predicate AllLive(items: seq<Item>) {
    forall i :: 0 <= i < |items| ==> items[i].live
  }

  function HeaderOf(it: Item): Hdr {
    Hdr(ITEM_MAGIC, State(it.live), Crc8(it.key + it.val), |it.key|, |it.val|, it.origin)
  }

  lemma PeekItem(f: Bytes, b: nat, st: Byte, items: seq<Item>, j: nat)
    requires BlockIs(f, b, st, items) && j <= |items| && Start(b) + BLOCK > End(b, items[..j]) + ITEM_HDR
    ensures var pos := End(b, items[..j]);
            && pos + ITEM_HDR <= |f|
            && var h := ReadHdr(f[pos..pos + ITEM_HDR]);
               if j == |items| then h.magic == ERASED && h.Blank() else h == HeaderOf(items[j]) && h.Readable()
  {
    hide LogAt, LogSize, BytesAt, Encode, Crc8;
    var pos := End(b, items[..j]);
    if j == |items| {
      assert items[..j] == items;
      assert f[pos] == ERASED && f[pos + 1] == ERASED;
    } else {
      ItemOf(f, b, st, items, j);
      ItemRead(f, pos, items[j]);
    }
  }

  lemma NextItem(f: Bytes, b: nat, st: Byte, items: seq<Item>, j: nat)
    requires BlockIs(f, b, st, items) && j < |items|
    ensures var pos, it := End(b, items[..j]), items[j];
            && it.Ok() && Size(it) >= ITEM_HDR + |it.key| + |it.val| && pos + Size(it) == End(b, items[..j + 1]) < Start(b) + BLOCK <= |f|
            && f[pos + ITEM_HDR..pos + ITEM_HDR + |it.key| + |it.val|] == it.key + it.val && f[pos..pos + Size(it)] == Encode(it)
  {
    hide BlockIs, LogAt, LogSize, Header;
    ItemOf(f, b, st, items, j);
    ItemRead(f, End(b, items[..j]), items[j]);
  }

  lemma ItemOf(f: Bytes, b: nat, st: Byte, items: seq<Item>, j: nat)
    requires BlockIs(f, b, st, items) && j < |items|
    ensures ItemAt(f, End(b, items[..j]), items[j])
    ensures End(b, items[..j]) + Size(items[j]) == End(b, items[..j + 1]) < Start(b) + BLOCK <= |f|
  {
    hide LogAt, LogSize, ItemAt, Size;
    LogIndex(f, Start(b) + BLOCK_HDR, items, j);
  }

  /** The loop of `kv_item_traverse` does not end before the last item. */
  lemma AtEnd(f: Bytes, b: nat, st: Byte, items: seq<Item>, j: nat)
    requires BlockIs(f, b, st, items) && j <= |items| && (j < |items| ==> Start(b) + BLOCK <= End(b, items[..j]) + ITEM_HDR)
    ensures j == |items| && items[..j] == items && End(b, items) < Start(b) + BLOCK
  {
    if j < |items| { NextItem(f, b, st, items, j); }
  }

  /** An item behind the log of one block leaves the other alone. */
  lemma StoredBehind(f: Bytes, b: nat, st: Byte, log: seq<Item>, it: Item, st': Byte, log': seq<Item>)
    requires b < BLOCKS && it.Storable() && BlockIs(f, b, st, log) && BlockIs(f, 1 - b, st', log')
    requires End(b, log) + Size(it) < Start(b) + BLOCK
    ensures OnlyClears(f, End(b, log), Encode(it)) && End(b, log + [it]) == End(b, log) + Size(it)
    ensures var f' := Overwritten(f, End(b, log), Encode(it)); (it.Ok() ==> BlockIs(f', b, st, log + [it])) && BlockIs(f', 1 - b, st', log')
  {
    var f' := Overwritten(f, End(b, log), Encode(it));
    BlockElsewhere(f, f', 1 - b, st', log');
    hide BlockIs, Flash.Bytes, Encode, LogSize;
    BlockTakes(f, b, st, log, it);
    if it.Ok() { BlockStore(f, b, st, log, it); }
  }

  /** Programming the item changes the flash to this. */
  ghost predicate Written(f: Bytes, pos: nat, it: Item, f': Bytes) {
    it.Storable() && pos + Size(it) <= |f| && f' == Overwritten(f, pos, Encode(it))
  }

  lemma Fits(f: Bytes, b: nat, st: Byte, items: seq<Item>)
    requires BlockIs(f, b, st, items)
    ensures End(b, items) < Start(b) + BLOCK
  {}

  lemma NoLog(items: seq<Item>)
    ensures items[..0] == [] && LogSize([]) == 0 && LiveOnly([]) == [] && items[..|items|] == items
  {}

  /** Where an item lies fits into its `origin_off`. */
  lemma PosFits(f: Bytes, b: nat, st: Byte, items: seq<Item>, i: nat)
    requires BlockIs(f, b, st, items) && i < |items| && b < BLOCKS
    ensures End(b, items[..i]) < 0x1_0000
  {
    NextItem(f, b, st, items, i);
  }

  lemma NewOneEach(items: seq<Item>, it: Item)
    requires OneEach(items) && forall k :: !Lives(items, k, it.key)
    ensures OneEach(items + [it])
  {
    forall i | 0 <= i < |items| && items[i].live ensures items[i].key != it.key { assert !Lives(items, i, it.key); }
  }

  /** One turn of the deletion. */
  lemma PrunedStep(log0: seq<Item>, log: seq<Item>, items: seq<Item>, p: Bytes, j: nat)
    requires Pruned(log0, log, p, j) && j < |log|
    requires items == if log[j].live && HasPrefix(log[j].key, p) then log[j := log[j].Dead()] else log
    ensures Pruned(log0, items, p, j + 1) && LogSize(items[..j + 1]) == LogSize(log[..j + 1])
  {
    assert items[..j + 1][..j] == log[..j] == log[..j + 1][..j];
  }

  /** What is copied has room, as it had in its own block. */
  lemma CopyFits(items: seq<Item>, j: nat)
    requires j < |items| && items[j].live
    ensures LiveOnly(items[..j + 1]) == LiveOnly(items[..j]) + [items[j]]
    ensures LogSize(LiveOnly(items[..j])) <= LogSize(items[..j])
  {
    assert items[..j + 1][..j] == items[..j];
    LiveOnlyKeeps(items[..j]);
  }

  /** A deleted item is not copied. */
  lemma SkipDead(items: seq<Item>, j: nat)
    requires j < |items|
    ensures items[j].live || LiveOnly(items[..j + 1]) == LiveOnly(items[..j])
  {
    assert items[..j + 1][..j] == items[..j];
  }

  lemma {:induction false} AllLiveOnly(items: seq<Item>)
    ensures AllLive(items) ==> LiveOnly(items) == items
  {
    if items != [] {
      AllLiveOnly(items[..|items| - 1]);
      if AllLive(items) { assert items[|items| - 1].live; }
    }
  }

  lemma AllLiveMore(items: seq<Item>, it: Item)
    requires it.live
    ensures AllLive(items) ==> AllLive(items + [it])
  {}

  lemma AllLiveIn(items: seq<Item>)
    ensures AllLive(LiveOnly(items))
  {}
}
