/** The check byte of an item, `calc_crc8`: which damage it tells. */
module KvCrc {
  import opened KvFlash
  import opened KvLog

  lemma {:induction false} XorTwice(a: nat, b: nat)
    ensures Xor(Xor(a, b), b) == a
    decreases a + b
  {
    if a != 0 || b != 0 {
      XorTwice(a / 2, b / 2);
      var x := Xor(a, b);
      assert x / 2 == Xor(a / 2, b / 2) && x % 2 == (if a % 2 != b % 2 then 1 else 0);
    }
  }

  lemma {:induction false} XorParity(a: nat, b: nat)
    ensures Xor(a, b) % 2 == (a + b) % 2
  {
    if a != 0 || b != 0 {
      var half := Xor(a / 2, b / 2);
      assert Xor(a, b) == 2 * half + if a % 2 != b % 2 then 1 else 0;
      Odd(half, if a % 2 != b % 2 then 1 else 0);
      Odd(a / 2 + b / 2, a % 2 + b % 2);
    }
  }

  lemma Odd(h: nat, r: nat)
    requires r <= 2
    ensures (2 * h + r) % 2 == r % 2
  {}

  lemma {:induction false} XorSwap(a: nat, b: nat)
    ensures Xor(a, b) == Xor(b, a)
    decreases a + b
  {
    if a != 0 || b != 0 { XorSwap(a / 2, b / 2); }
  }

  lemma RoundIs(c: Byte)
    ensures Round(c) == if c >= 0x80 then Xor(2 * (c - 0x80), 0x31) else 2 * c
  {
    hide Xor;
    assert (2 * c) % 0x100 == if c >= 0x80 then 2 * (c - 0x80) else 2 * c;
  }

  /** One round loses nothing: the polynomial is odd. */
  lemma RoundInjective(c: Byte, d: Byte)
    requires Round(c) == Round(d)
    ensures c == d
  {
    hide Xor, Round;
    RoundIs(c);
    RoundIs(d);
    if c >= 0x80 {
      XorParity(2 * (c - 0x80), 0x31);
      XorTwice(2 * (c - 0x80), 0x31);
    }
    if d >= 0x80 {
      XorParity(2 * (d - 0x80), 0x31);
      XorTwice(2 * (d - 0x80), 0x31);
    }
  }

  lemma {:induction false} RoundsInjective(c: Byte, d: Byte, n: nat)
    requires Rounds(c, n) == Rounds(d, n)
    ensures c == d
  {
    if n > 0 {
      RoundInjective(Rounds(c, n - 1), Rounds(d, n - 1));
      RoundsInjective(c, d, n - 1);
    }
  }

  /** From different states, or with different bytes, one step leads to different states. */
  lemma StepInjective(c: Byte, d: Byte, x: Byte, y: Byte)
    requires (c == d && x != y) || (c != d && x == y)
    ensures Xor(c, x) < 0x100 && Xor(d, y) < 0x100 && Rounds(Xor(c, x), 8) != Rounds(Xor(d, y), 8)
  {
    hide Round, Rounds;
    XorBound(c, x, 0x100, 128);
    XorBound(d, y, 0x100, 128);
    XorTwice(c, x);
    XorTwice(d, y);
    XorSwap(c, x);
    XorSwap(d, y);
    XorTwice(x, c);
    XorTwice(y, d);
    if Rounds(Xor(c, x), 8) == Rounds(Xor(d, y), 8) { RoundsInjective(Xor(c, x), Xor(d, y), 8); }
  }

  /** Whatever happens to a single byte, the check byte tells. */
  lemma {:induction false} OneByteTold(s: Bytes, i: nat, x: Byte)
    requires i < |s| && x != s[i]
    ensures Crc8(s[i := x]) != Crc8(s)
    decreases |s|
  {
    hide Xor, Rounds;
    var n := |s| - 1;
    var t := s[i := x];
    if i == n {
      assert t[..n] == s[..n];
    } else {
      OneByteTold(s[..n], i, x);
      assert t[..n] == s[..n][i := x];
    }
    StepInjective(Crc8(s[..n]), Crc8(t[..n]), s[n], t[n]);
  }

  /** A message with its check byte behind it has the check byte zero. */
  lemma CheckIsZero(s: Bytes)
    ensures Crc8(s + [Crc8(s)]) == 0
  {
    hide Xor, Rounds;
    var c := Crc8(s);
    assert (s + [c])[..|s|] == s;
    XorSelf(c);
    ZeroRounds(8);
  }

  lemma {:induction false} XorSelf(a: nat)
    ensures Xor(a, a) == 0
  {
    if a != 0 { XorSelf(a / 2); }
  }

  lemma {:induction false} ZeroRounds(n: nat)
    ensures Rounds(0, n) == 0
  {
    if n > 0 { ZeroRounds(n - 1); }
  }

  /** The generator is x^8 + x^5 + x^4 + 1. */
  lemma Generator()
    ensures Crc8([1]) == 0x31
  {
    assert [1][..0] == [];
    assert Xor(0, 1) == 1;
    Doubles(7);
    assert Rounds(1, 7) == 0x80;
    XorZero(0x31);
    assert Round(0x80) == Xor(0, 0x31);
  }

  lemma {:induction false} Doubles(n: nat)
    requires n <= 7
    ensures Rounds(1, n) == match n case 0 => 1 case 1 => 2 case 2 => 4 case 3 => 8 case 4 => 16 case 5 => 32 case 6 => 64 case _ => 128
  {
    if n > 0 { Doubles(n - 1); }
  }

  lemma {:induction false} XorZero(b: nat)
    ensures Xor(0, b) == b
  {
    if b > 0 { XorZero(b / 2); }
  }
}
