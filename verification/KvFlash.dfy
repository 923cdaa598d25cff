/** NOR flash, for kv.c: programming can only clear bits, and erasing sets them all. */
module KvFlash {

  type Byte = n: nat | n < 0x100

  const ERASED: Byte := 0xFF

  /** Bitwise and: what a cell holds after `b` has been programmed into it. */
  function And(a: nat, b: nat): (r: nat)
    ensures r <= a
  {
    if a == 0 then 0 else 2 * And(a / 2, b / 2) + (if a % 2 == 1 && b % 2 == 1 then 1 else 0)
  }

  /** An erased cell takes any byte. */
  lemma AndErased(b: Byte)
    ensures And(ERASED, b) == b
  {
    var b1, b2, b3, b4, b5, b6, b7 := b / 2, b / 2 / 2, b / 2 / 2 / 2, b / 2 / 2 / 2 / 2, b / 2 / 2 / 2 / 2 / 2, b / 2 / 2 / 2 / 2 / 2 / 2, b / 2 / 2 / 2 / 2 / 2 / 2 / 2;
    assert b7 < 2;
    assert And(1, b7) == b7;
    assert And(3, b6) == b6;
    assert And(7, b5) == b5;
    assert And(15, b4) == b4;
    assert And(31, b3) == b3;
    assert And(63, b2) == b2;
    assert And(127, b1) == b1;
  }

  /** The cells can still take these bytes: no bit has to be set. */
  ghost predicate OnlyClears(f: seq<Byte>, pos: nat, data: seq<Byte>) {
    pos + |data| <= |f| && forall i :: 0 <= i < |data| ==> And(f[pos + i], data[i]) == data[i]
  }

  function Overwritten(f: seq<Byte>, pos: nat, data: seq<Byte>): (r: seq<Byte>)
    requires pos + |data| <= |f|
    ensures |r| == |f|
    ensures forall k :: 0 <= k < |f| ==> r[k] == if pos <= k < pos + |data| then data[k - pos] else f[k]
  {
    f[..pos] + data + f[pos + |data|..]
  }

  function Erased(f: seq<Byte>, pos: nat, n: nat): (r: seq<Byte>)
    requires pos + n <= |f|
    ensures |r| == |f|
    ensures forall k :: 0 <= k < |f| ==> r[k] == if pos <= k < pos + n then ERASED else f[k]
  {
    f[..pos] + seq(n, _ => ERASED) + f[pos + n..]
  }

  class Flash {
    const cells: array<Byte>

    ghost function Bytes(): (s: seq<Byte>)
      reads cells
      ensures |s| == cells.Length
    {
      cells[..]
    }

    /** A new device. */
    constructor (size: nat)
      ensures fresh(cells) && Bytes() == seq(size, _ => ERASED)
    {
      cells := new Byte[size](_ => ERASED);
    }

    /** `kv_flash_read` */
    method Read(pos: nat, n: nat) returns (data: seq<Byte>)
      requires pos + n <= cells.Length
      ensures data == Bytes()[pos..pos + n]
    {
      data := cells[pos..pos + n];
    }

    /** `kv_flash_write`: the cells get the bytes because they only lose bits. */
    method Program(pos: nat, data: seq<Byte>)
      requires OnlyClears(Bytes(), pos, data)
      modifies cells
      ensures Bytes() == Overwritten(old(Bytes()), pos, data)
    {
      var i := 0;
      while i < |data|
        invariant 0 <= i <= |data|
        invariant forall k :: 0 <= k < cells.Length ==> cells[k] == if pos <= k < pos + i then data[k - pos] else old(cells[k])
      {
        assert old(Bytes())[pos + i] == cells[pos + i];
        cells[pos + i] := And(cells[pos + i], data[i]);
        i := i + 1;
      }
    }

    /** `kv_flash_erase` */
    method Erase(pos: nat, n: nat)
      requires pos + n <= cells.Length
      modifies cells
      ensures Bytes() == Erased(old(Bytes()), pos, n)
    {
      var i := 0;
      while i < n
        invariant 0 <= i <= n
        invariant forall k :: 0 <= k < cells.Length ==> cells[k] == if pos <= k < pos + i then ERASED else old(cells[k])
      {
        cells[pos + i] := ERASED;
        i := i + 1;
      }
    }
  }
}
