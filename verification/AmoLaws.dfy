/**
  What the atomic memory operations and the stores do to main memory, in
  integers, bits and bytes.
 */
module AmoLaws {
  import opened Words
  import opened Addresses
  import opened BitLaws
  import opened Machine
  import opened Memory
  import opened Mmu
  import opened MmuAccess
  import opened LrSc

  // ---------------------------------------------------------------------
  // The nine operations
  // ---------------------------------------------------------------------

  /** `r` is what `op` makes of the old word `o` and the operand `v`. */
  ghost predicate Means(op: AmoOp, o: bv32, v: bv32, r: bv32) {
    match op
    case Swap => r == v
    case Add => Unsigned(r) == (Unsigned(o) + Unsigned(v)) % 0x1_0000_0000
    case And => forall i: bv5 :: Bit(r, i) == (Bit(o, i) && Bit(v, i))
    case Or => forall i: bv5 :: Bit(r, i) == (Bit(o, i) || Bit(v, i))
    case Xor => forall i: bv5 :: Bit(r, i) == (Bit(o, i) != Bit(v, i))
    case Max => (r == o || r == v) && Signed(r) >= Signed(o) && Signed(r) >= Signed(v)
    case Min => (r == o || r == v) && Signed(r) <= Signed(o) && Signed(r) <= Signed(v)
    case Maxu => (r == o || r == v) && Unsigned(r) >= Unsigned(o) && Unsigned(r) >= Unsigned(v)
    case Minu => (r == o || r == v) && Unsigned(r) <= Unsigned(o) && Unsigned(r) <= Unsigned(v)
  }

  lemma LogicMeans(op: AmoOp, o: bv32, v: bv32)
    requires op.And? || op.Or? || op.Xor?
    ensures Means(op, o, v, AmoResult(op, o, v))
  {
    hide Bit, BitAnd, BitOr, BitXor;
    forall i: bv5
      ensures Bit(BitAnd(o, v), i) == (Bit(o, i) && Bit(v, i))
      ensures Bit(BitOr(o, v), i) == (Bit(o, i) || Bit(v, i))
      ensures Bit(BitXor(o, v), i) == (Bit(o, i) != Bit(v, i))
    {
      LogicBits(o, v, i);
    }
  }

  lemma ResultMeans(op: AmoOp, o: bv32, v: bv32)
    ensures Means(op, o, v, AmoResult(op, o, v))
  {
    hide Unsigned, Signed, Less, Flip, Sum, Bit;
    SumModulo(o, v);
    LessIsUnsigned(o, v);
    LessIsUnsigned(v, o);
    LessIsSigned(o, v);
    LessIsSigned(v, o);
    if op.And? || op.Or? || op.Xor? { LogicMeans(op, o, v); }
  }

  // ---------------------------------------------------------------------
  // The instructions, on an aligned word of main memory
  // ---------------------------------------------------------------------

  lemma ReadsRam(s: State, a: bv32)
    requires s.Valid() && Identity(s) && WordAligned(a) && InRam(a)
    ensures MmuRead32(s, a) == (s, RamWord(s.ram, a))
  {
    hide Identity, RamWord, Gather, WordAligned, InClint, InUart, InPlic, AboveRam, PastRam, MmuRead32;
    ReadUnderIdentity(s, a);
    WordFitsRam(a);
  }

  lemma WritesRam(s: State, a: bv32, w: bv32)
    requires s.Valid() && Identity(s) && WordAligned(a) && InRam(a)
    ensures var t := MmuWrite32(s, a, w);
      && t == s.(flags := s.flags - {KeyOf(a)}, ram := RamStoreWord(s.ram, a, w))
      && RamWord(t.ram, a) == w
  {
    hide Identity, RamWord, RamStoreWord, WordAligned, InClint, InUart, InPlic, AboveRam, PastRam, MmuWrite32, KeyOf;
    WriteUnderIdentity(s, a, w);
    WordFitsRam(a);
    StoredWord(s.ram, a, w);
  }

  /**
    An AMO puts the old word into rd and what it means into memory, and touches
    nothing else but the reservation of the word.
   */
  lemma AmoEffect(s: State, op: AmoOp, rs1: bv5, rs2: bv5, rd: bv5)
    requires s.Valid() && Identity(s) && WordAligned(RegRead(s, rs1)) && InRam(RegRead(s, rs1))
    ensures var a := RegRead(s, rs1);
      var t := AmoW(s, op, rs1, rs2, rd);
      && Means(op, RamWord(s.ram, a), RegRead(s, rs2), RamWord(t.ram, a))
      && (rd != 0 ==> RegRead(t, rd) == RamWord(s.ram, a))
      && (forall r: bv5 :: r != rd ==> RegRead(t, r) == RegRead(s, r))
      && t == s.(gpr := t.gpr, ram := t.ram, flags := s.flags - {KeyOf(a)})
  {
    hide Means, AmoResult, RamWord, RamStoreWord, Identity, WordAligned, InRam, MmuRead32, MmuWrite32, KeyOf;
    var a := RegRead(s, rs1);
    ReadsRam(s, a);
    var r := AmoResult(op, RamWord(s.ram, a), RegRead(s, rs2));
    ResultMeans(op, RamWord(s.ram, a), RegRead(s, rs2));
    WritesRam(s, a, r);
  }

  /** An address fits a halfword when bit 0 is clear and a word when bits 0 and 1 are. */
  lemma MisfitBits(a: bv32, w: Width)
    ensures Misfits(a, w) <==> (w.Half? && Bit(a, 0)) || (w.Full? && (Bit(a, 0) || Bit(a, 1)))
  {}

  /** Stores go to the sum of register and offset. */
  lemma StoreAddressIs(s: State, imm: bv32, rs1: bv5)
    requires s.Valid()
    ensures Unsigned(StoreAddress(s, imm, rs1)) == (Unsigned(RegRead(s, rs1)) + Unsigned(imm)) % 0x1_0000_0000
  {
    SumModulo(RegRead(s, rs1), imm);
    hide Unsigned, Sum;
  }
}
