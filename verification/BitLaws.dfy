/**
  Words bit by bit, and as the integers they stand for: the ground on which the
  meaning of every word operation of the machine is stated.
 */
module BitLaws {
  predicate Bit(w: bv32, i: bv5) { (w >> i) & 1 != 0 }

  function BitXor(a: bv32, b: bv32): bv32 { a ^ b }
  function BitOr(a: bv32, b: bv32): bv32 { a | b }
  function BitAnd(a: bv32, b: bv32): bv32 { a & b }

  lemma AndBit(a: bv32, b: bv32, i: bv5) ensures Bit(a & b, i) == (Bit(a, i) && Bit(b, i)) {}
  lemma OrBit(a: bv32, b: bv32, i: bv5) ensures Bit(a | b, i) == (Bit(a, i) || Bit(b, i)) {}
  lemma XorBit(a: bv32, b: bv32, i: bv5) ensures Bit(a ^ b, i) == (Bit(a, i) != Bit(b, i)) {}
  lemma LogicBits(x: bv32, y: bv32, i: bv5)
    ensures Bit(BitAnd(x, y), i) == (Bit(x, i) && Bit(y, i))
    ensures Bit(BitOr(x, y), i) == (Bit(x, i) || Bit(y, i))
    ensures Bit(BitXor(x, y), i) == (Bit(x, i) != Bit(y, i))
  {
    AndBit(x, y, i);
    OrBit(x, y, i);
    XorBit(x, y, i);
    hide Bit;
  }

  lemma NotBit(a: bv32, i: bv5) ensures Bit(!a, i) == !Bit(a, i) {}

  lemma RightBit(a: bv32, n: bv5, i: bv5)
    ensures Bit(a >> n, i) == (i <= 31 - n && Bit(a, i + n))
  {}

  lemma LeftBit(a: bv32, n: bv5, i: bv5)
    ensures Bit(a << n, i) == (n <= i && Bit(a, i - n))
  {}

  lemma LowBit(a: bv32) ensures Bit(a, 0) == (a & 1 != 0) {}
  lemma TopBit(a: bv32) ensures Bit(a, 31) == (a & 0x8000_0000 != 0) {}

  // ---------------------------------------------------------------------
  // Integers
  // ---------------------------------------------------------------------

  /** 2 to the i-th. */
  function Weight(i: bv5): nat
    decreases i as nat
  {
    if i == 0 then 1 else 2 * Weight(i - 1)
  }

  /** The number that bits 0 to i spell. */
  function UpTo(w: bv32, i: bv5): nat
    decreases i as nat
  {
    (if i == 0 then 0 else UpTo(w, i - 1)) + if Bit(w, i) then Weight(i) else 0
  }

  /** The unsigned and the signed integer of a word. */
  function Unsigned(w: bv32): nat { UpTo(w, 31) }
  function Signed(w: bv32): int { Unsigned(w) - if Bit(w, 31) then 0x1_0000_0000 else 0 }

  lemma UpToStep(w: bv32, i: bv5)
    ensures UpTo(w, i) == (if i == 0 then 0 else UpTo(w, i - 1)) + if Bit(w, i) then Weight(i) else 0
    ensures Weight(i) == if i == 0 then 1 else 2 * Weight(i - 1)
  {
    hide Bit;
  }

  lemma {:induction false} UpToBelow(w: bv32, i: bv5)
    ensures UpTo(w, i) < 2 * Weight(i)
    decreases i as nat
  {
    hide Bit;
    if i != 0 { UpToBelow(w, i - 1); }
  }

  lemma Weight31()
    ensures Weight(31) == 0x8000_0000
  {
    assert Weight(3) == 8;
    assert Weight(7) == 16 * Weight(3);
    assert Weight(11) == 16 * Weight(7);
    assert Weight(15) == 16 * Weight(11);
    assert Weight(19) == 16 * Weight(15);
    assert Weight(23) == 16 * Weight(19);
    assert Weight(27) == 16 * Weight(23);
    assert Weight(31) == 16 * Weight(27);
  }

  lemma UnsignedRange(w: bv32)
    ensures Unsigned(w) < 0x1_0000_0000
  {
    UpToBelow(w, 31);
    Weight31();
  }

  /** Bits above `k` that are clear do not count. */
  lemma {:induction false} ClearAbove(w: bv32, k: bv5, i: bv5)
    requires k <= i && forall j: bv5 :: k < j ==> !Bit(w, j)
    ensures UpTo(w, i) == UpTo(w, k)
    decreases i as nat
  {
    hide Bit;
    if i != k { ClearAbove(w, k, i - 1); }
  }

  lemma HighZero(w: bv32, k: bv5)
    requires forall j: bv5 :: k < j ==> !Bit(w, j)
    ensures Unsigned(w) == UpTo(w, k)
  {
    hide Bit, UpTo;
    ClearAbove(w, k, 31);
  }

  // ---------------------------------------------------------------------
  // Addition
  // ---------------------------------------------------------------------

  function Sum(a: bv32, b: bv32): bv32 { a + b }
  function Complement(a: bv32): bv32 { !a }

  /** A step back from an address. */
  function Minus(a: bv32, b: bv32): bv32 { a - b }

  lemma FourBack(a: bv32) ensures Sum(Minus(a, 4), 4) == a {}

  /** Subtraction adds the two's complement. */
  function Difference(a: bv32, b: bv32): bv32 { Sum(Sum(a, Complement(b)), 1) }

  predicate Majority(x: bool, y: bool, z: bool) { (x && y) || (x && z) || (y && z) }

  /** The carries into each bit of a + b. */
  function Carries(a: bv32, b: bv32): bv32 { a ^ b ^ Sum(a, b) }

  // The definitions as ground facts, and one bit of the adder at a time

  lemma SumIs(a: bv32, b: bv32) ensures Sum(a, b) == a + b {}
  lemma CarriesIs(a: bv32, b: bv32) ensures Carries(a, b) == a ^ b ^ Sum(a, b) {}

  lemma CarryRaw(a: bv32, b: bv32, s: bv32, c: bv32, i: bv5)
    requires s == a + b && c == a ^ b ^ s && i != 31
    ensures Bit(c, i + 1) == Majority(Bit(a, i), Bit(b, i), Bit(c, i))
  {}

  lemma SumRaw(a: bv32, b: bv32, s: bv32, c: bv32, i: bv5)
    requires s == a + b && c == a ^ b ^ s
    ensures Bit(s, i) == ((Bit(a, i) != Bit(b, i)) != Bit(c, i))
  {}

  lemma FirstRaw(a: bv32, b: bv32, s: bv32, c: bv32)
    requires s == a + b && c == a ^ b ^ s
    ensures !Bit(c, 0)
  {}

  lemma SumBit(a: bv32, b: bv32, i: bv5)
    ensures Bit(Sum(a, b), i) == ((Bit(a, i) != Bit(b, i)) != Bit(Carries(a, b), i))
  {
    hide Bit, Sum, Carries;
    SumIs(a, b);
    CarriesIs(a, b);
    SumRaw(a, b, Sum(a, b), Carries(a, b), i);
  }

  lemma FirstCarry(a: bv32, b: bv32)
    ensures !Bit(Carries(a, b), 0)
  {
    hide Bit, Sum, Carries;
    SumIs(a, b);
    CarriesIs(a, b);
    FirstRaw(a, b, Sum(a, b), Carries(a, b));
  }

  lemma NextCarry(a: bv32, b: bv32, i: bv5)
    requires i != 31
    ensures var c := Carries(a, b); Bit(c, i + 1) == Majority(Bit(a, i), Bit(b, i), Bit(c, i))
  {
    hide Bit, Sum, Carries;
    SumIs(a, b);
    CarriesIs(a, b);
    CarryRaw(a, b, Sum(a, b), Carries(a, b), i);
  }

  /** Whether bit i of a + b carries. */
  predicate CarryOut(a: bv32, b: bv32, i: bv5) { Majority(Bit(a, i), Bit(b, i), Bit(Carries(a, b), i)) }

  lemma {:induction false} SumUpTo(a: bv32, b: bv32, i: bv5)
    ensures UpTo(a, i) + UpTo(b, i) == UpTo(Sum(a, b), i) + if CarryOut(a, b, i) then 2 * Weight(i) else 0
    decreases i as nat
  {
    hide Bit, Carries, Sum, UpTo, Weight;
    SumBit(a, b, i);
    UpToStep(a, i);
    UpToStep(b, i);
    UpToStep(Sum(a, b), i);
    if i == 0 {
      FirstCarry(a, b);
    } else {
      NextCarry(a, b, i - 1);
      SumUpTo(a, b, i - 1);
    }
  }

  lemma SumOrWrap(a: bv32, b: bv32)
    ensures Unsigned(a) + Unsigned(b) == Unsigned(Sum(a, b)) + if CarryOut(a, b, 31) then 0x1_0000_0000 else 0
  {
    hide UpTo, CarryOut, Sum;
    SumUpTo(a, b, 31);
    Weight31();
  }

  /** a + b is the sum modulo 2 to the 32nd. */
  lemma SumModulo(a: bv32, b: bv32)
    ensures Unsigned(Sum(a, b)) == (Unsigned(a) + Unsigned(b)) % 0x1_0000_0000
  {
    hide Unsigned, CarryOut, Sum;
    SumOrWrap(a, b);
    UnsignedRange(a);
    UnsignedRange(b);
    UnsignedRange(Sum(a, b));
  }

  lemma ComplementBit(a: bv32, i: bv5) ensures Bit(Complement(a), i) == !Bit(a, i) {}

  lemma {:induction false} ComplementUpTo(a: bv32, i: bv5)
    ensures UpTo(a, i) + UpTo(Complement(a), i) == 2 * Weight(i) - 1
    decreases i as nat
  {
    hide Bit, Complement;
    ComplementBit(a, i);
    if i != 0 { ComplementUpTo(a, i - 1); }
  }

  lemma {:induction false} ZeroUpTo(i: bv5)
    ensures UpTo(0, i) == 0
    decreases i as nat
  {
    if i != 0 { ZeroUpTo(i - 1); }
  }

  lemma {:induction false} OneUpTo(i: bv5)
    ensures UpTo(1, i) == 1
    decreases i as nat
  {
    if i != 0 { OneUpTo(i - 1); }
  }

  /** a - b is the difference modulo 2 to the 32nd. */
  lemma DifferenceModulo(a: bv32, b: bv32)
    ensures Unsigned(Difference(a, b)) == (Unsigned(a) - Unsigned(b)) % 0x1_0000_0000
  {
    OneUpTo(31);
    ComplementUpTo(b, 31);
    Weight31();
    hide UpTo, CarryOut, Sum, Complement;
    SumOrWrap(a, Complement(b));
    SumOrWrap(Sum(a, Complement(b)), 1);
    UnsignedRange(a);
    UnsignedRange(b);
    UnsignedRange(Difference(a, b));
  }

  // ---------------------------------------------------------------------
  // Order
  // ---------------------------------------------------------------------

  predicate Less(a: bv32, b: bv32) { a < b }

  /** The bits from `i` up, as a word and as a number. */
  function From(w: bv32, i: bv5): bv32 { w >> i }

  function Top(w: bv32, i: bv5): nat
    decreases 31 - i as nat
  {
    (if i == 31 then 0 else 2 * Top(w, i + 1)) + if Bit(w, i) then 1 else 0
  }

  function Half(x: bv32): bv32 { x >> 1 }
  predicate Odd(x: bv32) { x & 1 != 0 }

  // One bit of a comparison

  lemma LessAbove(x: bv32, y: bv32) requires Less(Half(x), Half(y)) ensures Less(x, y) {}
  lemma LessHere(x: bv32, y: bv32) requires !Odd(x) && Odd(y) && Half(x) == Half(y) ensures Less(x, y) {}
  lemma EqualHere(x: bv32, y: bv32) requires Odd(x) == Odd(y) && Half(x) == Half(y) ensures x == y {}
  lemma LessIsStrict(x: bv32, y: bv32) requires Less(x, y) ensures !Less(y, x) && x != y {}

  lemma HalfCompares(x: bv32, y: bv32)
    requires Less(Half(x), Half(y)) || Less(Half(y), Half(x)) || Half(x) == Half(y)
    ensures Less(x, y) <==> Less(Half(x), Half(y)) || (Half(x) == Half(y) && !Odd(x) && Odd(y))
    ensures x == y <==> Half(x) == Half(y) && Odd(x) == Odd(y)
  {
    hide Less, Half, Odd;
    if Less(Half(x), Half(y)) {
      LessAbove(x, y);
      LessIsStrict(x, y);
      LessIsStrict(Half(x), Half(y));
    } else if Less(Half(y), Half(x)) {
      LessAbove(y, x);
      LessIsStrict(y, x);
      LessIsStrict(Half(y), Half(x));
    } else if Odd(x) == Odd(y) {
      EqualHere(x, y);
      if Less(x, y) { LessIsStrict(x, y); }
    } else if Odd(y) {
      LessHere(x, y);
      LessIsStrict(x, y);
    } else {
      LessHere(y, x);
      LessIsStrict(y, x);
    }
  }

  lemma FromNext(w: bv32, i: bv5) requires i != 31 ensures Half(From(w, i)) == From(w, i + 1) {}
  lemma FromLast(w: bv32) ensures Half(From(w, 31)) == 0 {}
  lemma FromOdd(w: bv32, i: bv5) ensures Odd(From(w, i)) == Bit(w, i) {}

  /** A word from bit `i` up compares as the number does. */
  lemma {:induction false} FromCompares(a: bv32, b: bv32, i: bv5)
    ensures Less(From(a, i), From(b, i)) <==> Top(a, i) < Top(b, i)
    ensures From(a, i) == From(b, i) <==> Top(a, i) == Top(b, i)
    decreases 31 - i as nat
  {
    hide Bit, From, Less, Half, Odd;
    FromOdd(a, i);
    FromOdd(b, i);
    if i != 31 {
      FromNext(a, i);
      FromNext(b, i);
      FromCompares(a, b, i + 1);
      FromCompares(b, a, i + 1);
    } else {
      FromLast(a);
      FromLast(b);
      ZeroNotLess();
    }
    HalfCompares(From(a, i), From(b, i));
  }

  lemma ZeroNotLess() ensures !Less(0, 0) {}

  /** Both ways of reading the number agree. */
  lemma {:induction false} TopIsUnsigned(w: bv32, i: bv5)
    ensures Unsigned(w) == (if i == 0 then 0 else UpTo(w, i - 1)) + Weight(i) * Top(w, i)
    decreases 31 - i as nat
  {
    hide Bit, UpTo, Weight, Top;
    UpToStep(w, i);
    TopStep(w, i);
    if i != 31 {
      UpToStep(w, i + 1);
      TopIsUnsigned(w, i + 1);
      Distribute(Weight(i), Top(w, i + 1), if Bit(w, i) then 1 else 0);
    }
  }

  lemma TopStep(w: bv32, i: bv5)
    ensures Top(w, i) == (if i == 31 then 0 else 2 * Top(w, i + 1)) + if Bit(w, i) then 1 else 0
  {
    hide Bit;
  }

  lemma Distribute(weight: nat, above: nat, bit: nat)
    ensures weight * (2 * above + bit) == (2 * weight) * above + weight * bit
  {}

  lemma FromAll(w: bv32) ensures From(w, 0) == w {}

  /** Words compare as the numbers they stand for. */
  lemma LessIsUnsigned(a: bv32, b: bv32)
    ensures Less(a, b) <==> Unsigned(a) < Unsigned(b)
    ensures a == b <==> Unsigned(a) == Unsigned(b)
  {
    hide Less, From, Unsigned, Top;
    FromCompares(a, b, 0);
    FromAll(a);
    FromAll(b);
    TopIsUnsigned(a, 0);
    TopIsUnsigned(b, 0);
  }

  // ---------------------------------------------------------------------
  // Signed order
  // ---------------------------------------------------------------------

  function Flip(w: bv32): bv32 { w ^ 0x8000_0000 }

  lemma FlipBit(w: bv32, i: bv5) ensures Bit(Flip(w), i) == (Bit(w, i) != (i == 31)) {}

  lemma {:induction false} FlipUpTo(w: bv32, i: bv5)
    requires i != 31
    ensures UpTo(Flip(w), i) == UpTo(w, i)
    decreases i as nat
  {
    hide Bit, Flip;
    FlipBit(w, i);
    if i != 0 { FlipUpTo(w, i - 1); }
  }

  lemma FlipIsShifted(w: bv32)
    ensures Unsigned(Flip(w)) == Signed(w) + 0x8000_0000
  {
    hide Bit, Flip;
    FlipBit(w, 31);
    FlipUpTo(w, 30);
    Weight31();
  }

  /** Flipping the top bits turns the unsigned comparison into the signed one. */
  lemma LessIsSigned(a: bv32, b: bv32)
    ensures Less(Flip(a), Flip(b)) <==> Signed(a) < Signed(b)
  {
    hide Less, Flip, Unsigned, Signed;
    LessIsUnsigned(Flip(a), Flip(b));
    FlipIsShifted(a);
    FlipIsShifted(b);
  }

  lemma {:induction false} SameUpTo(a: bv32, b: bv32, i: bv5)
    requires forall j: bv5 :: Bit(a, j) == Bit(b, j)
    ensures UpTo(a, i) == UpTo(b, i)
    decreases i as nat
  {
    hide Bit;
    if i != 0 { SameUpTo(a, b, i - 1); }
  }

  /** A word is its bits. */
  lemma SameBits(a: bv32, b: bv32)
    requires forall j: bv5 :: Bit(a, j) == Bit(b, j)
    ensures a == b
  {
    hide Bit, UpTo, Less;
    SameUpTo(a, b, 31);
    LessIsUnsigned(a, b);
  }
}
