/** The dynamic ring buffer of k_ringbuf.c: length-prefixed messages that may split anywhere at the
    end of the buffer, refined to a queue of byte strings. */
module RingBuf {

  const WORD: nat := 0x1_0000_0000
  type Byte = n: nat | n < 0x100

  /** `RING_BUF_LEN`: the length prefix, a 32-bit `size_t`. */
  const PREFIX: nat := 4

  /** The bytes of a length, and the length back. */
  function Encode(n: nat): (r: seq<Byte>)
    requires n < WORD
    ensures |r| == PREFIX
  {
    [n % 0x100, n / 0x100 % 0x100, n / 0x10000 % 0x100, n / 0x1000000]
  }

  function Decode(s: seq<Byte>): nat
    requires |s| == PREFIX
  {
    var a: nat, b: nat, c: nat, d: nat := s[0], s[1], s[2], s[3];
    a + 0x100 * b + 0x10000 * c + 0x1000000 * d
  }

  lemma DecodeEncode(n: nat)
    requires n < WORD
    ensures Decode(Encode(n)) == n
  {
    assert n / 0x10000 == n / 0x100 / 0x100 && n / 0x1000000 == n / 0x10000 / 0x100;
  }

  /** The test of `ringbuf_push` for room, in 32-bit arithmetic. */
  predicate TooBig(free: nat, len: nat) {
    free < (PREFIX + len) % WORD
  }

  /** The test is exact, whatever is free, iff the length with its prefix does not wrap. */
  lemma TooBigIff(len: nat)
    requires len < WORD
    ensures (forall free: nat :: free < WORD ==> (TooBig(free, len) <==> free < PREFIX + len)) <==> len < WORD - PREFIX
  {
    if len >= WORD - PREFIX {
      var free: nat := len + PREFIX - WORD;
      assert !TooBig(free, len);
      assert free < PREFIX + len;
    }
  }

  /** What the messages look like in the buffer. */
  function Flat(msgs: seq<seq<Byte>>): seq<Byte>
    requires forall m :: m in msgs ==> |m| < WORD
  {
    if msgs == [] then [] else Encode(|msgs[0]|) + msgs[0] + Flat(msgs[1..])
  }

  lemma {:induction false} FlatAppend(msgs: seq<seq<Byte>>, m: seq<Byte>)
    requires |m| < WORD && forall x :: x in msgs ==> |x| < WORD
    ensures Flat(msgs + [m]) == Flat(msgs) + Encode(|m|) + m
  {
    if msgs == [] {
      assert [m][1..] == [];
      assert msgs + [m] == [m];
    } else {
      FlatAppend(msgs[1..], m);
      assert (msgs + [m])[1..] == msgs[1..] + [m];
    }
  }

  /** A position in a buffer of `n` bytes, after going round. */
  function Wrap(n: nat, p: nat): nat {
    if p < n then p else if p < 2 * n then p - n else p - 2 * n
  }

  /** The `k` bytes from position `h` on, going round. */
  ghost function Cyclic(s: seq<Byte>, h: nat, k: nat): (r: seq<Byte>)
    requires h <= |s| && k <= |s|
    ensures |r| == k
  {
    seq(k, (i: nat) requires i < k => s[Wrap(|s|, h + i)])
  }

  /** Where the stored bytes end: `used` bytes after `head`. */
  predicate EndsAt(n: nat, head: nat, used: nat, tail: nat) {
    head <= n && used <= n && tail <= n && Wrap(n, tail) == Wrap(n, head + used)
  }

  lemma PutCyclic(s0: seq<Byte>, s1: seq<Byte>, head: nat, used: nat, tail: nat, data: seq<Byte>)
    requires |s1| == |s0| && EndsAt(|s0|, head, used, tail) && tail + |data| <= |s0| && used + |data| <= |s0|
    requires forall i :: 0 <= i < |s0| ==> s1[i] == if tail <= i < tail + |data| then data[i - tail] else s0[i]
    ensures EndsAt(|s0|, head, used + |data|, tail + |data|)
    ensures Cyclic(s1, head, used + |data|) == Cyclic(s0, head, used) + data
  {
    var n, r := |s0|, Cyclic(s1, head, used + |data|);
    forall i | 0 <= i < used + |data| ensures r[i] == (Cyclic(s0, head, used) + data)[i] {
      if i < used {
        assert !(tail <= Wrap(n, head + i) < tail + |data|);
      } else {
        assert Wrap(n, head + i) == tail + (i - used);
      }
    }
  }

  lemma GetCyclic(s: seq<Byte>, head: nat, used: nat, tail: nat, k: nat)
    requires EndsAt(|s|, head, used, tail) && head + k <= |s| && k <= used
    ensures EndsAt(|s|, head + k, used - k, tail)
    ensures s[head..head + k] == Cyclic(s, head, used)[..k] && Cyclic(s, head + k, used - k) == Cyclic(s, head, used)[k..]
  {
    var n := |s|;
    forall i | 0 <= i < k ensures s[head..head + k][i] == Cyclic(s, head, used)[i] {
      assert Wrap(n, head + i) == head + i;
    }
    forall i | 0 <= i < used - k ensures Cyclic(s, head + k, used - k)[i] == Cyclic(s, head, used)[k..][i] {
      assert Wrap(n, head + k + i) == Wrap(n, head + (k + i));
    }
  }

  /** A position at the end may as well be at the start. */
  lemma WrapEnds(s: seq<Byte>, head: nat, used: nat, tail: nat)
    requires EndsAt(|s|, head, used, tail)
    ensures tail == |s| ==> EndsAt(|s|, head, used, 0)
    ensures head == |s| ==> EndsAt(|s|, 0, used, tail) && Cyclic(s, 0, used) == Cyclic(s, head, used)
  {
    if head == |s| {
      forall i | 0 <= i < used ensures Cyclic(s, 0, used)[i] == Cyclic(s, head, used)[i] {
        assert Wrap(|s|, i) == Wrap(|s|, |s| + i);
      }
    }
  }

  class RingBuf {
    const buf: array<Byte>
    var head: nat
    var tail: nat
    var free: nat
    ghost var msgs: seq<seq<Byte>>

    /** The positions agree: `tail` is where the stored bytes end. */
    ghost predicate Shape()
      reads this
    {
      0 < buf.Length < WORD && free <= buf.Length && EndsAt(buf.Length, head, buf.Length - free, tail)
    }

    /** The stored bytes. */
    ghost function Stored(): (r: seq<Byte>)
      requires Shape()
      reads this, buf
      ensures |r| == buf.Length - free
    {
      Cyclic(buf[..], head, buf.Length - free)
    }

    ghost predicate Valid()
      reads this, buf
    {
      && Shape() && (forall m :: m in msgs ==> 0 < |m| < WORD - PREFIX)
      && Stored() == Flat(msgs)
    }

    /** `memcpy` to the tail of bytes that do not reach past the end. */
    method Put(data: seq<Byte>)
      requires Shape() && tail + |data| <= buf.Length && |data| <= free
      modifies this`tail, this`free, buf
      ensures Shape() && tail == old(tail) + |data| && free == old(free) - |data|
      ensures Stored() == old(Stored()) + data
    {
      ghost var s0 := buf[..];
      var at := tail;
      for k := 0 to |data|
        modifies buf
        invariant forall i :: 0 <= i < buf.Length ==> buf[i] == if at <= i < at + k then data[i - at] else s0[i]
      {
        buf[at + k] := data[k];
      }
      PutCyclic(s0, buf[..], head, buf.Length - free, tail, data);
      tail, free := tail + |data|, free - |data|;
    }

    /** `memcpy` from the head of bytes that do not reach past the end. */
    method Get(k: nat) returns (data: seq<Byte>)
      requires Shape() && head + k <= buf.Length && k <= buf.Length - free
      modifies this`head, this`free
      ensures Shape() && head == old(head) + k && free == old(free) + k
      ensures data == old(Stored())[..k] && Stored() == old(Stored())[k..]
    {
      GetCyclic(buf[..], head, buf.Length - free, tail, k);
      data := buf[head..head + k];
      head, free := head + k, free + k;
    }

    /** A tail at the end goes back to the start. */
    method WrapTail()
      requires Shape()
      modifies this`tail
      ensures Shape() && Stored() == old(Stored())
      ensures tail == if old(tail) == buf.Length then 0 else old(tail)
    {
      WrapEnds(buf[..], head, buf.Length - free, tail);
      if tail == buf.Length { tail := 0; }
    }

    method WrapHead()
      requires Shape()
      modifies this`head
      ensures Shape() && Stored() == old(Stored())
      ensures head == if old(head) == buf.Length then 0 else old(head)
    {
      WrapEnds(buf[..], head, buf.Length - free, tail);
      if head == buf.Length { head := 0; }
    }

    /** The length bytes of `ringbuf_push`, split at the end of the buffer if need be. */
    method PushPrefix(prefix: seq<Byte>)
      requires Shape() && |prefix| == PREFIX && free > PREFIX
      modifies this`tail, this`free, buf
      ensures Shape() && Stored() == old(Stored()) + prefix && free == old(free) - PREFIX
    {
      hide Cyclic;
      ghost var s0 := Stored();
      WrapTail();
      var split := buf.Length - tail;
      if tail >= head && split < PREFIX && split > 0 {
        Put(prefix[..split]);
        WrapTail();
      } else {
        split := 0;
      }
      if PREFIX - split > 0 {
        Put(prefix[split..]);
      }
      assert s0 + prefix[..split] + prefix[split..] == s0 + prefix;
    }

    /** The data bytes of `ringbuf_push`, split likewise. */
    method PushData(data: seq<Byte>)
      requires Shape() && 0 < |data| <= free < buf.Length
      modifies this`tail, this`free, buf
      ensures Shape() && Stored() == old(Stored()) + data && free == old(free) - |data|
    {
      hide Cyclic;
      ghost var s0 := Stored();
      WrapTail();
      var rest := data;
      var split := buf.Length - tail;
      if tail >= head && split < |rest| && split > 0 {
        Put(rest[..split]);
        rest := rest[split..];
        WrapTail();
        assert s0 + data[..split] + rest == s0 + data;
      }
      Put(rest);
    }

    /** `ringbuf_push`, dynamic, unless the room test fails to notice that there is no room (`TooBigIff`). */
    method Push(data: seq<Byte>) returns (status: Status)
      requires Valid() && (|data| < WORD - PREFIX || |data| >= WORD - 1 || TooBig(free, |data|))
      modifies this, buf
      ensures Valid()
      ensures status == if data == [] || |data| >= WORD - 1 then InvalidParam else if old(free) < PREFIX + |data| then Full else Success
      ensures status == Success ==> msgs == old(msgs) + [data] && free == old(free) - PREFIX - |data|
      ensures status != Success ==> msgs == old(msgs) && free == old(free) && head == old(head) && tail == old(tail) && buf[..] == old(buf[..])
    {
      hide Cyclic, EndsAt, Encode;
      if |data| == 0 || |data| >= WORD - 1 { return InvalidParam; }
      if TooBig(free, |data|) { return Full; }
      FlatAppend(msgs, data);
      PushPrefix(Encode(|data|));
      PushData(data);
      msgs := msgs + [data];
      status := Success;
    }

    /** The length bytes of `ringbuf_pop`. */
    method PopPrefix() returns (prefix: seq<Byte>)
      requires Shape() && buf.Length - free > PREFIX
      modifies this`head, this`free
      ensures Shape() && prefix + Stored() == old(Stored()) && |prefix| == PREFIX && free == old(free) + PREFIX
    {
      hide Cyclic;
      WrapHead();
      var split := buf.Length - head;
      prefix := [];
      if split < PREFIX && split > 0 {
        prefix := Get(split);
        WrapHead();
      } else {
        split := 0;
      }
      if PREFIX - split > 0 {
        var more := Get(PREFIX - split);
        prefix := prefix + more;
      }
    }

    /** The data bytes of `ringbuf_pop`. */
    method PopData(len: nat) returns (data: seq<Byte>)
      requires Shape() && 0 < len <= buf.Length - free < buf.Length
      modifies this`head, this`free
      ensures Shape() && data + Stored() == old(Stored()) && |data| == len && free == old(free) + len
    {
      hide Cyclic;
      WrapHead();
      var split, rest := buf.Length - head, len;
      data := [];
      if head > tail && split < rest {
        data := Get(split);
        rest := rest - split;
        WrapHead();
      }
      var more := Get(rest);
      data := data + more;
    }

    /** `ringbuf_pop`, dynamic, of a buffer that is not empty. */
    method Pop() returns (data: seq<Byte>)
      requires Valid() && msgs != []
      modifies this
      ensures Valid() && [data] + msgs == old(msgs) && free == old(free) + PREFIX + |data|
      ensures buf[..] == old(buf[..])
    {
      hide Cyclic, EndsAt, Encode, Decode;
      ghost var m, rest := msgs[0], Flat(msgs[1..]);
      DecodeEncode(|m|);
      assert Stored() == Encode(|m|) + m + rest;
      var prefix := PopPrefix();
      SplitSame(prefix, Stored(), Encode(|m|), m + rest);
      assert Encode(|m|) + m + rest == Encode(|m|) + (m + rest);
      data := PopData(Decode(prefix));
      SplitSame(data, Stored(), m, rest);
      msgs := msgs[1..];
    }

    /** `ringbuf_is_full`: not even a message of one byte fits. */
    method IsFull() returns (full: bool)
      requires Valid()
      ensures full <==> forall m: seq<Byte> :: |m| > 0 ==> free < PREFIX + |m|
    {
      full := free < PREFIX + 1;
      assert |[0 as Byte]| == 1;
    }

    /** `ringbuf_is_empty` */
    method IsEmpty() returns (empty: bool)
      requires Valid()
      ensures empty <==> msgs == []
    {
      empty := free == buf.Length;
    }

    /** `ringbuf_reset` */
    method Reset()
      requires Valid()
      modifies this
      ensures Valid() && msgs == [] && free == buf.Length && buf[..] == old(buf[..])
    {
      head, tail, free := 0, 0, buf.Length;
      msgs := [];
    }

    /** `ringbuf_init` */
    constructor (buf: array<Byte>)
      requires 0 < buf.Length < WORD
      ensures Valid() && this.buf == buf && msgs == [] && free == buf.Length
    {
      this.buf := buf;
      head, tail, free := 0, 0, buf.Length;
      msgs := [];
    }
  }

  lemma SplitSame(a: seq<Byte>, b: seq<Byte>, c: seq<Byte>, d: seq<Byte>)
    requires |a| == |c| && a + b == c + d
    ensures a == c && b == d
  {
    assert (a + b)[..|a|] == a && (a + b)[|a|..] == b;
    assert (c + d)[..|c|] == c && (c + d)[|c|..] == d;
  }

  datatype Status = Success | Full | InvalidParam
}
