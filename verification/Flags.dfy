/** Event flags: 32-bit masks, bit by bit. */
module Flags {

  /** The condition an event waiter waits for. */
  predicate Matches(flags: bv32, want: bv32, all: bool) {
    if all then flags & want == want else flags & want != 0
  }

  function ClearFlags(flags: bv32, f: bv32): bv32 { flags & !f }

  function KeepFlags(flags: bv32, f: bv32): bv32 { flags & f }

  function AddFlags(flags: bv32, f: bv32): bv32 { flags | f }

  /** A mask of one bit. */
  predicate Single(b: bv32) { b != 0 && b & (b - 1) == 0 }

  /** The bit is set. */
  predicate On(f: bv32, b: bv32) { f & b != 0 }

  lemma NoBit(b: bv32)
    ensures !On(0, b)
  {}

  // Masking commutes with the operations, and leaves of a mask of one bit all or nothing.

  lemma MaskAnd(f: bv32, g: bv32, b: bv32)
    ensures f & g & b == (f & b) & (g & b)
  {}

  lemma MaskOr(f: bv32, g: bv32, b: bv32)
    ensures (f | g) & b == (f & b) | (g & b)
  {}

  lemma MaskMinus(f: bv32, g: bv32, b: bv32)
    ensures f & !g & b == (f & b) & !(g & b)
  {}

  lemma AllOrNone(f: bv32, b: bv32)
    requires b != 0 && b & (b - 1) == 0
    ensures f & b == 0 || f & b == b
  {}

  lemma OrZero(x: bv32, y: bv32)
    ensures x | y == 0 <==> x == 0 && y == 0
  {}

  lemma Whole(b: bv32)
    ensures b & b == b && b & 0 == 0 && 0 & b == 0 && b & !b == 0 && b & !0 == b && 0 & !b == 0
  {}

  lemma MaskedAnd(f: bv32, g: bv32, b: bv32)
    requires b != 0 && b & (b - 1) == 0
    ensures (f & g & b != 0) <==> (f & b != 0 && g & b != 0)
  {
    MaskAnd(f, g, b);
    AllOrNone(f, b);
    AllOrNone(g, b);
    Whole(b);
  }

  lemma MaskedMinus(f: bv32, g: bv32, b: bv32)
    requires b != 0 && b & (b - 1) == 0
    ensures (f & !g & b != 0) <==> (f & b != 0 && g & b == 0)
  {
    MaskMinus(f, g, b);
    AllOrNone(f, b);
    AllOrNone(g, b);
    Whole(b);
  }

  lemma MaskedOr(f: bv32, g: bv32, b: bv32)
    ensures ((f | g) & b == 0) <==> (f & b == 0 && g & b == 0)
  {
    MaskOr(f, g, b);
    OrZero(f & b, g & b);
  }

  lemma AndBit(f: bv32, g: bv32, b: bv32)
    requires Single(b)
    ensures On(f & g, b) <==> On(f, b) && On(g, b)
  {
    MaskedAnd(f, g, b);
  }

  lemma MinusBit(f: bv32, g: bv32, b: bv32)
    requires Single(b)
    ensures On(f & !g, b) <==> On(f, b) && !On(g, b)
  {
    MaskedMinus(f, g, b);
  }

  lemma OrBit(f: bv32, g: bv32, b: bv32)
    ensures On(f | g, b) <==> On(f, b) || On(g, b)
  {
    MaskedOr(f, g, b);
  }

  lemma KeepBit(f: bv32, g: bv32, b: bv32)
    requires Single(b)
    ensures On(KeepFlags(f, g), b) <==> On(f, b) && On(g, b)
  {
    hide On, Single;
    AndBit(f, g, b);
  }

  lemma ClearBit(f: bv32, g: bv32, b: bv32)
    requires Single(b)
    ensures On(ClearFlags(f, g), b) <==> On(f, b) && !On(g, b)
  {
    hide On, Single;
    MinusBit(f, g, b);
  }

  lemma AddBit(f: bv32, g: bv32, b: bv32)
    ensures On(AddFlags(f, g), b) <==> On(f, b) || On(g, b)
  {
    hide On;
    OrBit(f, g, b);
  }

  /** What each change of the flags does to each bit. */
  lemma FlagBits(f: bv32, g: bv32)
    ensures forall c :: Single(c) ==> (On(AddFlags(f, g), c) <==> On(f, c) || On(g, c))
    ensures forall c :: Single(c) ==> (On(KeepFlags(f, g), c) <==> On(f, c) && On(g, c))
    ensures forall c :: Single(c) ==> (On(ClearFlags(f, g), c) <==> On(f, c) && !On(g, c))
  {
    hide *;
    forall c | Single(c)
      ensures On(AddFlags(f, g), c) <==> On(f, c) || On(g, c)
      ensures On(KeepFlags(f, g), c) <==> On(f, c) && On(g, c)
      ensures On(ClearFlags(f, g), c) <==> On(f, c) && !On(g, c)
    {
      AddBit(f, g, c);
      KeepBit(f, g, c);
      ClearBit(f, g, c);
    }
  }

  /** AND waits for every flag it asks for, OR for some flag it asks for. */
  lemma MatchesIff(flags: bv32, want: bv32)
    ensures Matches(flags, want, true) <==> forall b :: Single(b) && On(want, b) ==> On(flags, b)
    ensures Matches(flags, want, false) <==> exists b :: Single(b) && On(want, b) && On(flags, b)
  {
    hide *;
    if Matches(flags, want, true) {
      forall b | Single(b) && On(want, b) ensures On(flags, b) { AllBits(flags, want, b); }
    } else {
      var b := MissingBit(flags, want);
    }
    if Matches(flags, want, false) {
      var b := CommonBit(flags, want);
    } else {
      forall b | Single(b) ensures !(On(want, b) && On(flags, b)) { NoCommon(flags, want, b); }
    }
  }

  lemma AllBits(flags: bv32, want: bv32, b: bv32)
    requires Matches(flags, want, true) && Single(b) && On(want, b)
    ensures On(flags, b)
  {}

  lemma NoCommon(flags: bv32, want: bv32, b: bv32)
    requires !Matches(flags, want, false) && Single(b)
    ensures !(On(want, b) && On(flags, b))
  {}

  /** The lowest bit that is set. */
  function Lowest(f: bv32): bv32 { f & (0 - f) }

  lemma LowestBit(f: bv32)
    requires f != 0
    ensures Single(Lowest(f)) && On(f, Lowest(f))
  {}

  lemma MissingBit(flags: bv32, want: bv32) returns (b: bv32)
    requires !Matches(flags, want, true)
    ensures Single(b) && On(want, b) && !On(flags, b)
  {
    hide *;
    SomeMissing(flags, want);
    b := Lowest(ClearFlags(want, flags));
    LowestBit(ClearFlags(want, flags));
    ClearBit(want, flags, b);
  }

  lemma SomeMissing(flags: bv32, want: bv32)
    requires !Matches(flags, want, true)
    ensures ClearFlags(want, flags) != 0
  {}

  lemma CommonBit(flags: bv32, want: bv32) returns (b: bv32)
    requires Matches(flags, want, false)
    ensures Single(b) && On(want, b) && On(flags, b)
  {
    hide *;
    SomeCommon(flags, want);
    b := Lowest(KeepFlags(flags, want));
    LowestBit(KeepFlags(flags, want));
    KeepBit(flags, want, b);
  }

  lemma SomeCommon(flags: bv32, want: bv32)
    requires Matches(flags, want, false)
    ensures KeepFlags(flags, want) != 0
  {}

  /** What has been cleared is not there. */
  lemma ClearedNoMatch(f: bv32, flags: bv32, all: bool)
    requires flags != 0
    ensures !Matches(ClearFlags(f, flags), flags, all)
  {}
}
