/**
  The multiply and divide instructions: src/extension/m_extension.c, dispatched
  by the table of src/exec.c. Words are the integers below 2^32, so that every
  conversion and wrap-around of the source is written out.
 */
module MulDiv {
  import opened Arithmetic

  const TWO31: int := 0x8000_0000
  const TWO32: int := 0x1_0000_0000
  const TWO63: int := 0x8000_0000_0000_0000
  const TWO64: int := 0x1_0000_0000_0000_0000

  type U32 = x: int | 0 <= x < 0x1_0000_0000

  /** (int32_t) of a word */
  function Signed(w: U32): (r: int)
    ensures -TWO31 <= r < TWO31
  {
    if w < TWO31 then w else w - TWO32
  }

  /** (uint32_t) of an integer */
  function Wrap(x: int): U32 { x % TWO32 }

  /** (uint64_t) of an integer, and the (int64_t) of that */
  function Wrap64(x: int): int { x % TWO64 }
  function Signed64(x: int): int { if x < TWO63 then x else x - TWO64 }

  /** An arithmetic shift right by 32. */
  function High(x: int): int { x / TWO32 }

  // ---------------------------------------------------------------------
  // C division
  // ---------------------------------------------------------------------

  function Abs(x: int): (r: int)
    ensures r >= 0
  {
    if x < 0 then -x else x
  }

  // Division of naturals

  function Whole(m: int, n: int): int requires m >= 0 && n > 0 { m / n }
  function Rest(m: int, n: int): int requires m >= 0 && n > 0 { m % n }

  lemma WholeAndRest(m: int, n: int)
    requires m >= 0 && n > 0
    ensures m == n * Whole(m, n) + Rest(m, n) && 0 <= Rest(m, n) < n && 0 <= Whole(m, n)
  {}

  /** The `/` of C: toward zero. */
  function Quotient(x: int, y: int): int
    requires y != 0
  {
    if (x < 0) == (y < 0) then Whole(Abs(x), Abs(y)) else -Whole(Abs(x), Abs(y))
  }

  /** The `%` of C: with the sign of the dividend. */
  function Remainder(x: int, y: int): int
    requires y != 0
  {
    if x < 0 then -Rest(Abs(x), Abs(y)) else Rest(Abs(x), Abs(y))
  }

  /** Truncating division, declaratively. */
  predicate Truncates(x: int, y: int, q: int, r: int) {
    && x == y * q + r
    && Abs(r) < Abs(y)
    && (r < 0 ==> x < 0)
    && (r > 0 ==> x > 0)
  }

  // ---------------------------------------------------------------------
  // The instructions
  // ---------------------------------------------------------------------

  function Mul(a: U32, b: U32): U32 { Wrap(Signed(a) * Signed(b)) }
  function Mulh(a: U32, b: U32): U32 { Wrap(High(Signed(a) * Signed(b))) }

  /** The signed operand is converted to 64 unsigned bits before the product wraps. */
  function Mulhsu(a: U32, b: U32): U32 { Wrap(High(Signed64(Wrap64(Wrap64(Signed(a)) * b)))) }

  function Mulhu(a: U32, b: U32): U32 { Wrap(High(Wrap64(a * b))) }

  /** INT32_MIN / -1 */
  predicate Overflows(a: U32, b: U32) { a == TWO31 && b == TWO32 - 1 }

  function Div(a: U32, b: U32): U32 {
    if b == 0 then 0xFFFF_FFFF
    else if Overflows(a, b) then TWO31
    else Wrap(Quotient(Signed(a), Signed(b)))
  }

  function Divu(a: U32, b: U32): U32 { if b == 0 then 0xFFFF_FFFF else Wrap(a / b) }

  function Rem(a: U32, b: U32): U32 {
    if b == 0 then a
    else if Overflows(a, b) then 0
    else Wrap(Remainder(Signed(a), Signed(b)))
  }

  function Remu(a: U32, b: U32): U32 { if b == 0 then a else a % b }

  // ---------------------------------------------------------------------
  // Arithmetic modulo a power of two
  // ---------------------------------------------------------------------

  lemma SplitWord(x: int)
    ensures TWO32 * High(x) + Wrap(x) == x
  {}

  lemma WrapShift(x: int, k: int)
    ensures Wrap(x + TWO32 * k) == Wrap(x)
  {
    SplitWord(x);
    ModUnique(x + TWO32 * k, TWO32, High(x) + k, Wrap(x));
  }

  lemma SignedWraps(w: U32)
    ensures Wrap(Signed(w)) == w
  {
    if w >= TWO31 { WrapShift(w - TWO32, 1); }
  }

  lemma WrapSigns(x: int)
    requires -TWO31 <= x < TWO31
    ensures Signed(Wrap(x)) == x
  {
    if x < 0 { WrapShift(x, 1); }
  }

  lemma SignedDiffers(w: U32) returns (k: int)
    ensures Signed(w) == w + TWO32 * k
  {
    k := if w < TWO31 then 0 else -1;
  }

  /** The low word of a product does not depend on how its operands are read. */
  lemma LowWord(a: U32, b: U32)
    ensures Mul(a, b) == Wrap(a * b) == Wrap(Signed(a) * b)
  {
    var k := SignedDiffers(a);
    var l := SignedDiffers(b);
    var x := Signed(a);
    assert x * b == a * b + TWO32 * (k * b) by { assert (a + TWO32 * k) * b == a * b + TWO32 * (k * b); }
    WrapShift(a * b, k * b);
    assert x * Signed(b) == x * b + TWO32 * (x * l) by { assert x * (b + TWO32 * l) == x * b + TWO32 * (x * l); }
    WrapShift(x * b, x * l);
  }

  lemma ProductBound(x: int, y: int, m: int, n: int)
    requires -m <= x <= m && -n <= y <= n
    ensures -(m * n) <= x * y <= m * n
  {
    assert (m - x) * (n + y) >= 0 && (m + x) * (n - y) >= 0;
    assert (m - x) * (n - y) >= 0 && (m + x) * (n + y) >= 0;
  }

  lemma NaturalBound(x: int, y: int, m: int, n: int)
    requires 0 <= x <= m && 0 <= y <= n
    ensures 0 <= x * y <= m * n
  {
    ProductBound(x, y, m, n);
  }

  /** The 64-bit product of a signed and an unsigned word is exact. */
  lemma MixedProductExact(a: U32, b: U32)
    ensures Signed64(Wrap64(Wrap64(Signed(a)) * b)) == Signed(a) * b
  {
    var x := Signed(a);
    var p := x * b;
    ProductBound(x, b, TWO31, TWO32 - 1);
    var k := if x < 0 then 1 else 0;
    assert Wrap64(x) == x + TWO64 * k by { ModUnique(x, TWO64, -k, x + TWO64 * k); }
    assert Wrap64(x) * b == p + TWO64 * (k * b) by { assert (x + TWO64 * k) * b == x * b + TWO64 * (k * b); }
    var l := if p < 0 then 1 else 0;
    ModUnique(Wrap64(x) * b, TWO64, k * b - l, p + TWO64 * l);
  }

  lemma UnsignedProductExact(a: U32, b: U32)
    ensures 0 <= a * b < TWO64 && Wrap64(a * b) == a * b
  {
    NaturalBound(a, b, TWO32 - 1, TWO32 - 1);
    assert (TWO32 - 1) * (TWO32 - 1) < TWO64;
    SmallMod(a * b, TWO64);
  }

  lemma SmallMod(x: int, m: int)
    requires 0 <= x < m
    ensures x % m == x
  {}

  lemma HighFits(x: int)
    requires -TWO63 <= x < TWO63
    ensures Signed(Wrap(High(x))) == High(x)
  {
    WrapSigns(High(x));
  }

  /** mul and mulh are the two words of the signed product. */
  lemma SignedHalves(a: U32, b: U32)
    ensures TWO32 * Signed(Mulh(a, b)) + Mul(a, b) == Signed(a) * Signed(b)
  {
    ProductBound(Signed(a), Signed(b), TWO31, TWO31);
    SplitWord(Signed(a) * Signed(b));
    HighFits(Signed(a) * Signed(b));
  }

  /** mul and mulhsu are the two words of the signed-by-unsigned product. */
  lemma MixedHalves(a: U32, b: U32)
    ensures TWO32 * Signed(Mulhsu(a, b)) + Mul(a, b) == Signed(a) * b
  {
    ProductBound(Signed(a), b, TWO31, TWO32 - 1);
    MixedProductExact(a, b);
    LowWord(a, b);
    SplitWord(Signed(a) * b);
    HighFits(Signed(a) * b);
  }

  /** mul and mulhu are the two words of the unsigned product. */
  lemma UnsignedHalves(a: U32, b: U32)
    ensures TWO32 * Mulhu(a, b) + Mul(a, b) == a * b
  {
    UnsignedProductExact(a, b);
    LowWord(a, b);
    SplitWord(a * b);
    SmallMod(High(a * b), TWO32);
  }

  // ---------------------------------------------------------------------
  // Division
  // ---------------------------------------------------------------------

  lemma TruncatesC(x: int, y: int)
    requires y != 0
    ensures Truncates(x, y, Quotient(x, y), Remainder(x, y))
  {
    hide Whole, Rest;
    var q := Whole(Abs(x), Abs(y));
    WholeAndRest(Abs(x), Abs(y));
    NegatedProduct(y, q);
  }

  lemma NegatedProduct(n: int, q: int)
    ensures n * -q == -(n * q) == -n * q
  {}

  /** There is one truncated quotient and remainder. */
  lemma TruncatesUnique(x: int, y: int, q: int, r: int, q': int, r': int)
    requires Truncates(x, y, q, r) && Truncates(x, y, q', r')
    ensures q == q' && r == r'
  {
    assert y * (q - q') == r' - r;
    assert Abs(r' - r) < Abs(y);
    if q != q' { ProductAtLeast(y, q - q'); }
  }

  lemma ProductAtLeast(y: int, d: int)
    requires d != 0
    ensures Abs(y * d) >= Abs(y)
  {
    if y > 0 { MulGrows(y, d); }
    if y < 0 { MulGrows(-y, d); NegatedProduct(y, d); }
  }

  lemma SignedZero(b: U32)
    ensures Signed(b) == 0 <==> b == 0
  {}

  lemma WholeBound(m: int, n: int)
    requires m >= 0 && n > 0
    ensures 0 <= Whole(m, n) <= m
    ensures n >= 2 && m > 0 ==> Whole(m, n) < m
    ensures n == 1 ==> Whole(m, n) == m
  {
    hide Whole, Rest;
    WholeAndRest(m, n);
    var q := Whole(m, n);
    assert n * q == q + (n - 1) * q;
    if q > 0 { MulGrows(q, n - 1); }
  }

  /** Except for INT32_MIN / -1 the quotient of two signed words is a signed word. */
  lemma QuotientFits(a: U32, b: U32)
    requires b != 0
    ensures -TWO31 <= Quotient(Signed(a), Signed(b)) <= TWO31
    ensures Quotient(Signed(a), Signed(b)) == TWO31 <==> Overflows(a, b)
  {
    SignedZero(b);
    var x, y := Signed(a), Signed(b);
    hide Whole;
    WholeBound(Abs(x), Abs(y));
  }

  /**
    div and rem are the truncated quotient and remainder of the signed words,
    exactly when the divisor is not zero and the quotient is a signed word.
   */
  lemma DivTruncates(a: U32, b: U32)
    ensures Truncates(Signed(a), Signed(b), Signed(Div(a, b)), Signed(Rem(a, b))) <==> b != 0 && !Overflows(a, b)
    ensures b != 0 ==> Abs(Signed(Rem(a, b))) < Abs(Signed(b))
    ensures b != 0 ==> (Signed(Rem(a, b)) < 0 ==> Signed(a) < 0) && (Signed(Rem(a, b)) > 0 ==> Signed(a) > 0)
  {
    SignedZero(b);
    if b != 0 && !Overflows(a, b) {
      var x, y := Signed(a), Signed(b);
      TruncatesC(x, y);
      QuotientFits(a, b);
      WrapSigns(Quotient(x, y));
      assert Abs(Remainder(x, y)) < TWO31;
      WrapSigns(Remainder(x, y));
    }
  }

  /** divu and remu are the quotient and remainder of the unsigned words, exactly when the divisor is not zero. */
  lemma DivuTruncates(a: U32, b: U32)
    ensures Truncates(a, b, Divu(a, b), Remu(a, b)) <==> b != 0
  {
    if b != 0 {
      WholeAndRest(a, b);
      WholeBound(a, b);
      SmallMod(Whole(a, b), TWO32);
    }
  }

  lemma WrapOfSum(x: int, y: int, w: U32, v: U32)
    requires Wrap(x) == Wrap(y * Signed(w) + Signed(v))
    ensures Wrap(x) == Wrap(y * w + v)
  {
    var k := SignedDiffers(w);
    var l := SignedDiffers(v);
    assert y * Signed(w) == y * w + TWO32 * (y * k) by { assert y * (w + TWO32 * k) == y * w + TWO32 * (y * k); }
    assert y * Signed(w) + Signed(v) == y * w + v + TWO32 * (y * k + l);
    WrapShift(y * w + v, y * k + l);
  }

  /** dividend = divisor * quotient + remainder modulo 2^32, for every pair of signed words. */
  lemma DividesModulo(a: U32, b: U32)
    ensures Wrap(b * Div(a, b) + Rem(a, b)) == a
  {
    var q, r := Div(a, b), Rem(a, b);
    if b == 0 {
      SmallMod(a, TWO32);
    } else if Overflows(a, b) {
      assert b * q + r == a + TWO32 * (TWO31 - 1);
      WrapShift(a, TWO31 - 1);
    } else {
      DivTruncates(a, b);
      FromSigned(a, b, q, r);
    }
  }

  lemma FromSigned(a: U32, b: U32, q: U32, r: U32)
    requires Signed(a) == Signed(b) * Signed(q) + Signed(r)
    ensures Wrap(b * q + r) == a
  {
    SignedWraps(a);
    WrapOfSum(Signed(a), Signed(b), q, r);
    var k := SignedDiffers(b);
    assert Signed(b) * q == b * q + TWO32 * (k * q) by { assert (b + TWO32 * k) * q == b * q + TWO32 * (k * q); }
    WrapShift(b * q + r, k * q);
  }

  /** The same for unsigned words. */
  lemma DividesModuloUnsigned(a: U32, b: U32)
    ensures Wrap(b * Divu(a, b) + Remu(a, b)) == a
  {
    DivuTruncates(a, b);
    SmallMod(a, TWO32);
  }

  // ---------------------------------------------------------------------
  // Execution
  // ---------------------------------------------------------------------

  /** What the table entry for `funct3` computes from rs1 and rs2. */
  function Result(funct3: nat, v1: U32, v2: U32): U32
    requires funct3 < 8
  {
    match funct3
    case 0 => Mul(v1, v2)
    case 1 => Mulh(v1, v2)
    case 2 => Mulhsu(v1, v2)
    case 3 => Mulhu(v1, v2)
    case 4 => Div(v1, v2)
    case 5 => Divu(v1, v2)
    case 6 => Rem(v1, v2)
    case _ => Remu(v1, v2)
  }

  /** Entries 1 to 3 give the upper word of the product their operand types say; entry 0 gives the lower. */
  lemma TableHalves(funct3: nat, a: U32, b: U32)
    requires 1 <= funct3 <= 3
    ensures var hi, lo := Result(funct3, a, b), Result(0, a, b);
      TWO32 * (if funct3 == 3 then hi else Signed(hi)) + lo
      == (if funct3 == 3 then a else Signed(a)) * (if funct3 == 1 then Signed(b) else b)
  {
    SignedHalves(a, b);
    MixedHalves(a, b);
    UnsignedHalves(a, b);
  }

  /** Entries 4 and 6, and 5 and 7, are a quotient and its remainder. */
  lemma TableDivides(funct3: nat, a: U32, b: U32, q: int, r: int)
    requires funct3 == 4 || funct3 == 5
    ensures Wrap(b * Result(funct3, a, b) + Result(funct3 + 2, a, b)) == a
    ensures funct3 == 4 && !Overflows(a, b) && Truncates(Signed(a), Signed(b), q, r)
            ==> q == Signed(Result(4, a, b)) && r == Signed(Result(6, a, b))
    ensures funct3 == 5 && Truncates(a, b, q, r) ==> q == Result(5, a, b) && r == Result(7, a, b)
  {
    hide Div, Rem, Divu, Remu;
    DividesModulo(a, b);
    DividesModuloUnsigned(a, b);
    DivTruncates(a, b);
    DivuTruncates(a, b);
    if funct3 == 4 && !Overflows(a, b) && Truncates(Signed(a), Signed(b), q, r) {
      TruncatesUnique(Signed(a), Signed(b), q, r, Signed(Result(4, a, b)), Signed(Result(6, a, b)));
    }
    if funct3 == 5 && Truncates(a, b, q, r) {
      TruncatesUnique(a, b, q, r, Result(5, a, b), Result(7, a, b));
    }
  }

  class Registers {
    var gpr: array<U32>

    /** Register 0 is hard-wired to zero. */
    ghost predicate Valid() reads this, gpr { gpr.Length == 32 && gpr[0] == 0 }

    /** One instruction of the extension: only rd changes, and never x0. */
    method Execute(funct3: nat, rs2: nat, rs1: nat, rd: nat)
      requires Valid() && funct3 < 8 && rs1 < 32 && rs2 < 32 && rd < 32
      modifies gpr
      ensures Valid()
      ensures gpr[..] == if rd == 0 then old(gpr[..]) else old(gpr[..])[rd := old(Result(funct3, gpr[rs1], gpr[rs2]))]
    {
      var v1, v2 := gpr[rs1], gpr[rs2];
      var r := Result(funct3, v1, v2);
      if rd != 0 { gpr[rd] := r; }
    }
  }
}
