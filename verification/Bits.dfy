/** Bit arithmetic of k_bitmap.h on 32-bit words, taken as natural numbers. */
module Bits {

  function Pow2(n: nat): (r: nat)
    ensures r > 0
  {
    if n == 0 then 1 else 2 * Pow2(n - 1)
  }

  lemma {:induction false} Pow2Mono(a: nat, b: nat)
    requires a <= b
    ensures Pow2(a) <= Pow2(b)
    decreases b
  {
    if a < b { Pow2Mono(a, b - 1); }
  }

  /** The number of significant bits. */
  function BitLen(n: nat): nat {
    if n == 0 then 0 else 1 + BitLen(n / 2)
  }

  /** A positive number with `c` significant bits lies between the two powers of two. */
  lemma {:induction false} BitLenBounds(n: nat)
    requires n > 0
    ensures BitLen(n) > 0 && Pow2(BitLen(n) - 1) <= n < Pow2(BitLen(n))
  {
    if n > 1 { BitLenBounds(n / 2); }
  }

  lemma {:induction false} BitLenMono(a: nat, b: nat)
    requires a <= b
    ensures BitLen(a) <= BitLen(b)
  {
    if a > 0 { BitLenMono(a / 2, b / 2); }
  }

  /** `n` has at most `k` significant bits iff it is below `2^k`. */
  lemma {:induction false} BitLenIff(n: nat, k: nat)
    ensures BitLen(n) <= k <==> n < Pow2(k)
    decreases k
  {
    if k > 0 { BitLenIff(n / 2, k - 1); }
  }

  predicate Bit(b: nat, i: nat) {
    if i == 0 then b % 2 == 1 else Bit(b / 2, i - 1)
  }

  /** `b | (1 << l)` */
  function SetBit(b: nat, l: nat): nat {
    if l == 0 then b / 2 * 2 + 1 else 2 * SetBit(b / 2, l - 1) + b % 2
  }

  /** `b & ~(1 << l)` */
  function ClearBit(b: nat, l: nat): nat {
    if l == 0 then b / 2 * 2 else 2 * ClearBit(b / 2, l - 1) + b % 2
  }

  /** `b & (0xffffffff << l)` */
  function MaskFrom(b: nat, l: nat): nat {
    if l == 0 then b else 2 * MaskFrom(b / 2, l - 1)
  }

  lemma {:induction false} SetBitAt(b: nat, l: nat, i: nat)
    ensures Bit(SetBit(b, l), i) <==> (i == l || Bit(b, i))
  {
    if l > 0 && i > 0 {
      SetBitAt(b / 2, l - 1, i - 1);
      assert SetBit(b, l) / 2 == SetBit(b / 2, l - 1);
    } else if l == 0 && i > 0 {
      assert SetBit(b, l) / 2 == b / 2;
    }
  }

  lemma {:induction false} ClearBitAt(b: nat, l: nat, i: nat)
    ensures Bit(ClearBit(b, l), i) <==> (i != l && Bit(b, i))
  {
    if l > 0 && i > 0 {
      ClearBitAt(b / 2, l - 1, i - 1);
      assert ClearBit(b, l) / 2 == ClearBit(b / 2, l - 1);
    } else if l == 0 && i > 0 {
      assert ClearBit(b, l) / 2 == b / 2;
    }
  }

  lemma {:induction false} MaskFromAt(b: nat, l: nat, i: nat)
    ensures Bit(MaskFrom(b, l), i) <==> (i >= l && Bit(b, i))
  {
    if l > 0 && i > 0 {
      MaskFromAt(b / 2, l - 1, i - 1);
      assert MaskFrom(b, l) / 2 == MaskFrom(b / 2, l - 1);
    }
  }

  /** The position of the lowest set bit. */
  function LowBit(b: nat): nat
    requires b > 0
  {
    if b % 2 == 1 then 0 else 1 + LowBit(b / 2)
  }

  lemma {:induction false} LowBitIs(b: nat, i: nat)
    requires b > 0
    ensures Bit(b, LowBit(b))
    ensures i < LowBit(b) ==> !Bit(b, i)
  {
    if b % 2 == 0 { LowBitIs(b / 2, if i == 0 then 0 else i - 1); }
  }

  /** `(x & (2^k - 1)) == 0` */
  predicate LowZero(x: nat, k: nat) {
    k == 0 || (x % 2 == 0 && LowZero(x / 2, k - 1))
  }

  /** `x >> k` */
  function Shift(x: nat, k: nat): nat {
    if k == 0 then x else Shift(x / 2, k - 1)
  }

  /** Shifting out `k` zero bits, when there are not `2k` of them. */
  lemma {:induction false} ShiftZeros(x: nat, k: nat, n: nat)
    requires x > 0 && LowZero(x, k) && !LowZero(x, k + n)
    ensures Shift(x, k) > 0 && LowBit(x) == k + LowBit(Shift(x, k)) && !LowZero(Shift(x, k), n)
    decreases k
  {
    if k > 0 { ShiftZeros(x / 2, k - 1, n); }
  }

  lemma {:induction false} NotAllZero(x: nat, k: nat)
    requires 0 < x < Pow2(k)
    ensures !LowZero(x, k)
    decreases k
  {
    if k > 0 && x / 2 > 0 { NotAllZero(x / 2, k - 1); }
  }

  lemma PowersOfTwo()
    ensures Pow2(1) == 2 && Pow2(2) == 4 && Pow2(4) == 0x10 && Pow2(8) == 0x100
    ensures Pow2(10) == 0x400 && Pow2(14) == 0x4000 && Pow2(16) == 0x10000
  {
    assert Pow2(3) == 8;
    assert Pow2(5) == 0x20 && Pow2(6) == 0x40 && Pow2(7) == 0x80;
    assert Pow2(9) == 0x200 && Pow2(10) == 0x400 && Pow2(11) == 0x800 && Pow2(12) == 0x1000;
    assert Pow2(13) == 0x2000 && Pow2(14) == 0x4000 && Pow2(15) == 0x8000;
  }

  /** `krhino_ctz32`: the number of trailing zeros, found by halving the range. */
  method Ctz32(x0: nat) returns (n: nat)
    requires x0 < Pow2(32)
    ensures x0 == 0 ==> n == 32
    ensures x0 > 0 ==> n == LowBit(x0)
  {
    hide LowZero, Shift, LowBit;
    var x := x0;
    n := 0;
    if x == 0 { return 32; }
    NotAllZero(x, 32);
    if LowZero(x, 16) { ShiftZeros(x, 16, 16); x := Shift(x, 16); n := n + 16; }
    if LowZero(x, 8) { ShiftZeros(x, 8, 8); x := Shift(x, 8); n := n + 8; }
    if LowZero(x, 4) { ShiftZeros(x, 4, 4); x := Shift(x, 4); n := n + 4; }
    if LowZero(x, 2) { ShiftZeros(x, 2, 2); x := Shift(x, 2); n := n + 2; }
    LowPair(x);
    if LowZero(x, 1) { n := n + 1; }
  }

  lemma LowPair(x: nat)
    requires x > 0 && !LowZero(x, 2)
    ensures LowBit(x) == if LowZero(x, 1) then 1 else 0
  {
    assert LowZero(x, 1) <==> x % 2 == 0;
    assert LowZero(x, 2) <==> x % 2 == 0 && LowZero(x / 2, 1);
  }

  /** Each factor of two adds a significant bit. */
  lemma BitLen4(x: nat)
    requires x > 0
    ensures BitLen(4 * x) == 2 + BitLen(x)
  {
    assert 4 * x / 2 == 2 * x && 2 * x / 2 == x;
    assert BitLen(2 * x) == 1 + BitLen(x);
  }

  lemma BitLen16(x: nat)
    requires x > 0
    ensures BitLen(0x10 * x) == 4 + BitLen(x)
  {
    hide BitLen;
    BitLen4(x);
    BitLen4(4 * x);
  }

  lemma BitLen256(x: nat)
    requires x > 0
    ensures BitLen(0x100 * x) == 8 + BitLen(x)
  {
    hide BitLen;
    BitLen16(x);
    BitLen16(0x10 * x);
  }

  lemma BitLen65536(x: nat)
    requires x > 0
    ensures BitLen(0x10000 * x) == 16 + BitLen(x)
  {
    hide BitLen;
    BitLen256(x);
    BitLen256(0x100 * x);
  }

  /** `krhino_clz32`: the number of leading zeros, found by halving the range. */
  method Clz32(x0: nat) returns (n: nat)
    requires x0 < 0x1_0000_0000
    ensures n + BitLen(x0) == 32
  {
    if x0 == 0 { return 32; }
    hide BitLen;
    var x := x0;
    n := 0;
    if x < 0x10000 { BitLen65536(x); x := 0x10000 * x; n := n + 16; }
    if x < 0x1000000 { BitLen256(x); x := 0x100 * x; n := n + 8; }
    if x < 0x10000000 { BitLen16(x); x := 0x10 * x; n := n + 4; }
    if x < 0x40000000 { BitLen4(x); x := 4 * x; n := n + 2; }
    if x < 0x80000000 { n := n + 1; }
    TopBits(x);
  }

  lemma TopBits(x: nat)
    requires 0x40000000 <= x < 0x1_0000_0000
    ensures BitLen(x) == if x < 0x80000000 then 31 else 32
  {
    hide BitLen;
    assert Pow2(30) == 0x40000000 by { PowersOfTwo(); PowAdd(16, 14); PowAdd(10, 4); }
    assert Pow2(31) == 2 * Pow2(30) && Pow2(32) == 2 * Pow2(31);
    BitLenIff(x, 30);
    BitLenIff(x, 31);
    BitLenIff(x, 32);
  }

  lemma {:induction false} PowAdd(a: nat, b: nat)
    ensures Pow2(a + b) == Pow2(a) * Pow2(b)
  {
    if b > 0 { PowAdd(a, b - 1); }
  }

  lemma {:induction false} ZeroBits(i: nat)
    ensures !Bit(0, i)
  {
    if i > 0 { ZeroBits(i - 1); }
  }

  /** A word whose bits all lie below `n` is below `2^n`. */
  lemma {:induction false} BitsBound(b: nat, n: nat)
    requires forall i: nat :: i >= n ==> !Bit(b, i)
    ensures b < Pow2(n)
    decreases b
  {
    if n == 0 {
      if b > 0 { LowBitIs(b, 0); }
    } else if b > 0 {
      forall i: nat | i >= n - 1 ensures !Bit(b / 2, i) {
        assert !Bit(b, i + 1);
      }
      BitsBound(b / 2, n - 1);
    }
  }

  lemma WordSize(b: nat, n: nat)
    requires n <= 32 && forall i: nat :: i >= n ==> !Bit(b, i)
    ensures b < Pow2(32)
  {
    BitsBound(b, n);
    Pow2Mono(n, 32);
  }
}
