/**
  Two views of a 32-bit word: `Word` where it indexes a map (the reservation
  table, the memory image), and `Bits` where the code consults it bit by bit.
 */
module Words {
  import opened BitLaws

  datatype Word = Word(bits: bv32)

  /** The aligned word that covers the byte at `a`. */
  function KeyOf(a: bv32): Word { Word(a & 0xFFFF_FFFC) }

  /** A word as its bits, least significant first. */
  type Bits = s: seq<bool> | |s| == 32 witness seq(32, _ => false)

  predicate Has(w: bv32, mask: bv32) { w & mask != 0 }

  function BitPlace(k: nat): bv5
    requires k < 32
  {
    k as bv5
  }

  function ToBits(w: bv32): Bits {
    seq(32, k requires 0 <= k < 32 => Bit(w, BitPlace(k)))
  }

  function Zero(): Bits { seq(32, i => false) }

  /** Bitwise and. */
  function And(a: Bits, b: Bits): Bits {
    seq(32, i requires 0 <= i < 32 => a[i] && b[i])
  }

  /** `a` on the bits of `mask`, `b` elsewhere: (b & ~mask) | (a & mask). */
  function Merge(mask: set<nat>, a: Bits, b: Bits): Bits {
    seq(32, i requires 0 <= i < 32 => if i in mask then a[i] else b[i])
  }

  /** a & mask. */
  function Masked(mask: set<nat>, a: Bits): Bits {
    Merge(mask, a, Zero())
  }

  /** The word whose bits these are. */
  function FromBits(b: Bits): bv32 { FromBitsUpTo(b, 32) }

  function FromBitsUpTo(b: Bits, n: nat): bv32
    requires n <= 32
  {
    if n == 0 then 0
    else BitOr(FromBitsUpTo(b, n - 1), if b[n - 1] then Single(BitPlace(n - 1)) else 0)
  }

  function Single(i: bv5): bv32 { 1 << i }

  lemma SingleBit(i: bv5, j: bv5) ensures Bit(Single(i), j) == (i == j) {}
  lemma ZeroBit(j: bv5) ensures !Bit(0, j) {}
  lemma BitPlaceIs(k: nat) requires k < 32 ensures BitPlace(k) as nat == k {}

  lemma BitPlaceBack(i: bv5) ensures BitPlace(i as nat) == i {}

  lemma {:induction false} FromBitsBit(b: Bits, n: nat, i: bv5)
    requires n <= 32
    ensures Bit(FromBitsUpTo(b, n), i) == ((i as nat) < n && b[i as nat])
  {
    hide Bit, BitOr, Single;
    ZeroBit(i);
    if n > 0 {
      FromBitsBit(b, n - 1, i);
      BitPlaceIs(n - 1);
      LogicBits(FromBitsUpTo(b, n - 1), if b[n - 1] then Single(BitPlace(n - 1)) else 0, i);
      SingleBit(BitPlace(n - 1), i);
    }
  }

  /** The two views convert into each other. */
  lemma ToFromBits(b: Bits)
    ensures ToBits(FromBits(b)) == b
  {
    forall k: nat | k < 32 ensures ToBits(FromBits(b))[k] == b[k] {
      BitPlaceIs(k);
      FromBitsBit(b, 32, BitPlace(k));
    }
  }

  lemma FromToBits(w: bv32)
    ensures FromBits(ToBits(w)) == w
  {
    hide Bit, BitPlace;
    forall i: bv5 ensures Bit(FromBits(ToBits(w)), i) == Bit(w, i) {
      FromBitsBit(ToBits(w), 32, i);
      BitPlaceBack(i);
    }
    SameBits(FromBits(ToBits(w)), w);
  }

  /** The address `i` bytes after `a`. */
  function Offset(a: bv32, i: bv2): bv32 { a + (i as bv32) }

  /** Four bytes, least significant first. */
  function Gather(b0: bv8, b1: bv8, b2: bv8, b3: bv8): bv32 {
    (b0 as bv32) | ((b1 as bv32) << 8) | ((b2 as bv32) << 16) | ((b3 as bv32) << 24)
  }

  /** Byte `k` of a word. */
  function ByteOf(w: bv32, k: nat): bv8
    requires k < 4
  {
    match k
    case 0 => (w & 0xFF) as bv8
    case 1 => ((w >> 8) & 0xFF) as bv8
    case 2 => ((w >> 16) & 0xFF) as bv8
    case _ => ((w >> 24) & 0xFF) as bv8
  }

  lemma GatherBytes(w: bv32)
    ensures Gather(ByteOf(w, 0), ByteOf(w, 1), ByteOf(w, 2), ByteOf(w, 3)) == w
  {}
}
