/**
  What the instructions of `Isa` do, without naming the functions that `Isa` and
  the decoders compute with: bit by bit, and as integers.
 */
module IsaLaws {
  import opened Words
  import opened BitLaws
  import opened Machine
  import opened Trap
  import opened Isa

  // ---------------------------------------------------------------------
  // Word operations
  // ---------------------------------------------------------------------

  lemma SllBit(x: bv32, n: bv5, i: bv5)
    ensures Bit(Sll(x, n), i) == (n <= i && Bit(x, i - n))
  {
    LeftBit(x, n, i);
    hide Bit;
  }

  lemma SrlBit(x: bv32, n: bv5, i: bv5)
    ensures Bit(Srl(x, n), i) == (i <= 31 - n && Bit(x, i + n))
  {
    RightBit(x, n, i);
    hide Bit;
  }

  /** An arithmetic shift fills with the sign. */
  lemma SraBit(x: bv32, n: bv5, i: bv5)
    ensures Bit(Sra(x, n), i) == if i <= 31 - n then Bit(x, i + n) else Bit(x, 31)
  {
    TopBit(x);
    hide Bit, Srl, Complement;
    SrlBit(x, n, i);
    SrlBit(Complement(x), n, i);
    ComplementBit(Srl(Complement(x), n), i);
    ComplementBit(x, i + n);
    ComplementBit(x, 31);
  }

  // ---------------------------------------------------------------------
  // Registers
  // ---------------------------------------------------------------------

  /** A write reaches one register and never x0; nothing but the register file changes. */
  lemma WriteReads(s: State, rd: bv5, v: bv32, r: bv5)
    requires s.Valid()
    ensures RegRead(RegWrite(s, rd, v), r) == if r == 0 then 0 else if r == rd then v else RegRead(s, r)
    ensures RegWrite(s, rd, v) == s.(gpr := RegWrite(s, rd, v).gpr)
  {}

  // ---------------------------------------------------------------------
  // Register instructions
  // ---------------------------------------------------------------------

  predicate IsShift(inst: Inst) { inst.Slli? || inst.Srli? || inst.Srai? }
  predicate IsLogic(inst: Inst) { inst.Andi? || inst.And? || inst.Or? || inst.Xor? }
  predicate IsSum(inst: Inst) { inst.Addi? || inst.Add? || inst.Sub? }

  /** `r` is the result of the register instruction `inst` in `s`. */
  ghost predicate Results(inst: Inst, s: State, r: bv32)
    requires s.Valid() && (IsShift(inst) || IsLogic(inst) || IsSum(inst))
  {
    var x := RegRead(s, inst.rs1);
    match inst
    case Slli(_, _, n) => forall i: bv5 :: Bit(r, i) == (n <= i && Bit(x, i - n))
    case Srli(_, _, n) => forall i: bv5 :: Bit(r, i) == (i <= 31 - n && Bit(x, i + n))
    case Srai(_, _, n) => forall i: bv5 :: Bit(r, i) == if i <= 31 - n then Bit(x, i + n) else Bit(x, 31)
    case Andi(_, _, imm) => forall i: bv5 :: Bit(r, i) == (Bit(x, i) && Bit(Sext12(imm), i))
    case And(_, _, rs2) => forall i: bv5 :: Bit(r, i) == (Bit(x, i) && Bit(RegRead(s, rs2), i))
    case Or(_, _, rs2) => forall i: bv5 :: Bit(r, i) == (Bit(x, i) || Bit(RegRead(s, rs2), i))
    case Xor(_, _, rs2) => forall i: bv5 :: Bit(r, i) == (Bit(x, i) != Bit(RegRead(s, rs2), i))
    case Addi(_, _, imm) => Unsigned(r) == (Unsigned(x) + Unsigned(Sext12(imm))) % 0x1_0000_0000
    case Add(_, _, rs2) => Unsigned(r) == (Unsigned(x) + Unsigned(RegRead(s, rs2))) % 0x1_0000_0000
    case Sub(_, _, rs2) => Unsigned(r) == (Unsigned(x) - Unsigned(RegRead(s, rs2))) % 0x1_0000_0000
  }

  /** The destination holds the result, every other register, the memory and the control registers stay, and the pc falls through. */
  ghost predicate Lands(inst: Inst, s: State, o: Outcome, len: bv32)
    requires s.Valid() && (IsShift(inst) || IsLogic(inst) || IsSum(inst))
  {
    && !o.trapped && |o.st.gpr| == 32
    && (inst.rd != 0 ==> Results(inst, s, RegRead(o.st, inst.rd)))
    && (forall r: bv5 :: r != inst.rd ==> RegRead(o.st, r) == RegRead(s, r))
    && o.st == s.(gpr := o.st.gpr, pc := Sum(s.pc, len))
  }

  lemma WriteLands(inst: Inst, s: State, len: bv32, v: bv32)
    requires s.Valid() && (IsShift(inst) || IsLogic(inst) || IsSum(inst))
    requires Results(inst, s, v)
    ensures Lands(inst, s, WriteNext(s, inst.rd, v, len), len)
  {
    hide Results, Sum;
  }

  lemma SlliEffect(inst: Inst, s: State, len: bv32, fires: bool)
    requires s.Valid() && inst.Slli?
    ensures Lands(inst, s, Sem(inst, s, len, fires), len)
  {
    hide Bit, Sll, Lands, WriteNext, RegRead;
    var x, n := RegRead(s, inst.rs1), inst.shamt;
    forall i: bv5 ensures Bit(Sll(x, n), i) == (n <= i && Bit(x, i - n)) { SllBit(x, n, i); }
    WriteLands(inst, s, len, Sll(x, n));
  }

  lemma SrliEffect(inst: Inst, s: State, len: bv32, fires: bool)
    requires s.Valid() && inst.Srli?
    ensures Lands(inst, s, Sem(inst, s, len, fires), len)
  {
    hide Bit, Srl, Lands, WriteNext, RegRead;
    var x, n := RegRead(s, inst.rs1), inst.shamt;
    forall i: bv5 ensures Bit(Srl(x, n), i) == (i <= 31 - n && Bit(x, i + n)) { SrlBit(x, n, i); }
    WriteLands(inst, s, len, Srl(x, n));
  }

  lemma SraiEffect(inst: Inst, s: State, len: bv32, fires: bool)
    requires s.Valid() && inst.Srai?
    ensures Lands(inst, s, Sem(inst, s, len, fires), len)
  {
    hide Bit, Sra, Lands, WriteNext, RegRead;
    var x, n := RegRead(s, inst.rs1), inst.shamt;
    forall i: bv5 ensures Bit(Sra(x, n), i) == (if i <= 31 - n then Bit(x, i + n) else Bit(x, 31)) { SraBit(x, n, i); }
    WriteLands(inst, s, len, Sra(x, n));
  }

  /** Shifts move every bit; an arithmetic one repeats the sign. */
  lemma ShiftEffect(inst: Inst, s: State, len: bv32, fires: bool)
    requires s.Valid() && IsShift(inst)
    ensures Lands(inst, s, Sem(inst, s, len, fires), len)
  {
    hide Lands, Sem;
    match inst
    case Slli(_, _, _) => SlliEffect(inst, s, len, fires);
    case Srli(_, _, _) => SrliEffect(inst, s, len, fires);
    case Srai(_, _, _) => SraiEffect(inst, s, len, fires);
  }

  lemma LogicWords(x: bv32, y: bv32)
    ensures forall i: bv5 :: Bit(BitAnd(x, y), i) == (Bit(x, i) && Bit(y, i))
    ensures forall i: bv5 :: Bit(BitOr(x, y), i) == (Bit(x, i) || Bit(y, i))
    ensures forall i: bv5 :: Bit(BitXor(x, y), i) == (Bit(x, i) != Bit(y, i))
  {
    hide Bit, BitAnd, BitOr, BitXor;
    forall i: bv5
      ensures Bit(BitAnd(x, y), i) == (Bit(x, i) && Bit(y, i))
      ensures Bit(BitOr(x, y), i) == (Bit(x, i) || Bit(y, i))
      ensures Bit(BitXor(x, y), i) == (Bit(x, i) != Bit(y, i))
    {
      LogicBits(x, y, i);
    }
  }

  lemma AndEffect(inst: Inst, s: State, len: bv32, fires: bool)
    requires s.Valid() && (inst.Andi? || inst.And?)
    ensures Lands(inst, s, Sem(inst, s, len, fires), len)
  {
    hide Bit, BitAnd, BitOr, BitXor, Lands, WriteNext, RegRead, Sext12;
    var x := RegRead(s, inst.rs1);
    var y := if inst.Andi? then Sext12(inst.imm) else RegRead(s, inst.rs2);
    LogicWords(x, y);
    WriteLands(inst, s, len, BitAnd(x, y));
  }

  lemma OrXorEffect(inst: Inst, s: State, len: bv32, fires: bool)
    requires s.Valid() && (inst.Or? || inst.Xor?)
    ensures Lands(inst, s, Sem(inst, s, len, fires), len)
  {
    hide Bit, BitAnd, BitOr, BitXor, Lands, WriteNext, RegRead;
    var x, y := RegRead(s, inst.rs1), RegRead(s, inst.rs2);
    LogicWords(x, y);
    WriteLands(inst, s, len, if inst.Or? then BitOr(x, y) else BitXor(x, y));
  }

  /** The logical instructions work on each bit by itself. */
  lemma LogicEffect(inst: Inst, s: State, len: bv32, fires: bool)
    requires s.Valid() && IsLogic(inst)
    ensures Lands(inst, s, Sem(inst, s, len, fires), len)
  {
    hide Lands, Sem;
    if inst.Andi? || inst.And? { AndEffect(inst, s, len, fires); } else { OrXorEffect(inst, s, len, fires); }
  }

  /** Sums and differences are taken modulo 2 to the 32nd. */
  lemma SumEffect(inst: Inst, s: State, len: bv32, fires: bool)
    requires s.Valid() && IsSum(inst)
    ensures Lands(inst, s, Sem(inst, s, len, fires), len)
  {
    hide Unsigned, Sum, Difference, Lands, WriteNext, RegRead, Sext12;
    var x := RegRead(s, inst.rs1);
    var y := if inst.Addi? then Sext12(inst.imm) else RegRead(s, inst.rs2);
    SumModulo(x, y);
    DifferenceModulo(x, y);
    WriteLands(inst, s, len, if inst.Sub? then Difference(x, y) else Sum(x, y));
  }

  // ---------------------------------------------------------------------
  // Jumps
  // ---------------------------------------------------------------------

  lemma EvenBit(x: bv32, i: bv5)
    ensures Bit(Even(x), i) == (i != 0 && Bit(x, i))
  {}

  /** The link holds the next address, and nothing but it and the pc changes. */
  ghost predicate Links(inst: Inst, s: State, o: Outcome, len: bv32)
    requires s.Valid() && (inst.Jal? || inst.Jalr?)
  {
    && !o.trapped && |o.st.gpr| == 32
    && (inst.rd != 0 ==> Unsigned(RegRead(o.st, inst.rd)) == (Unsigned(s.pc) + Unsigned(len)) % 0x1_0000_0000)
    && (forall r: bv5 :: r != inst.rd ==> RegRead(o.st, r) == RegRead(s, r))
    && o.st == s.(gpr := o.st.gpr, pc := o.st.pc)
  }

  lemma JumpLinks(inst: Inst, s: State, target: bv32, len: bv32)
    requires s.Valid() && (inst.Jal? || inst.Jalr?)
    ensures Links(inst, s, Jump(s, inst.rd, target, len), len)
    ensures Jump(s, inst.rd, target, len).st.pc == target
  {
    hide Unsigned, Sum;
    SumModulo(s.pc, len);
  }

  /** jal jumps by its offset. */
  lemma JalEffect(inst: Inst, s: State, len: bv32, fires: bool)
    requires s.Valid() && inst.Jal?
    ensures var o := Sem(inst, s, len, fires);
      && Links(inst, s, o, len)
      && Unsigned(o.st.pc) == (Unsigned(s.pc) + Unsigned(Sext21(inst.off))) % 0x1_0000_0000
  {
    hide Unsigned, Sum, Links, Jump, Sext21;
    SumModulo(s.pc, Sext21(inst.off));
    JumpLinks(inst, s, Sum(s.pc, Sext21(inst.off)), len);
  }

  /** jalr jumps to the sum of register and offset with bit 0 cleared. */
  lemma JalrEffect(inst: Inst, s: State, len: bv32, fires: bool)
    requires s.Valid() && inst.Jalr?
    ensures var o := Sem(inst, s, len, fires);
      && Links(inst, s, o, len)
      && exists t ::
           && Unsigned(t) == (Unsigned(RegRead(s, inst.rs1)) + Unsigned(Sext12(inst.imm))) % 0x1_0000_0000
           && forall i: bv5 :: Bit(o.st.pc, i) == (i != 0 && Bit(t, i))
  {
    hide Unsigned, Sum, Links, Jump, Sext12, Even, Bit, RegRead;
    var t := Sum(RegRead(s, inst.rs1), Sext12(inst.imm));
    SumModulo(RegRead(s, inst.rs1), Sext12(inst.imm));
    JumpLinks(inst, s, Even(t), len);
    forall i: bv5 ensures Bit(Even(t), i) == (i != 0 && Bit(t, i)) { EvenBit(t, i); }
  }

  /** beq and bne jump exactly when their registers are equal, or differ. */
  lemma BranchEffect(inst: Inst, s: State, len: bv32, fires: bool)
    requires s.Valid() && (inst.Beq? || inst.Bne?)
    ensures var o := Sem(inst, s, len, fires);
      var taken := (RegRead(s, inst.rs1) == RegRead(s, inst.rs2)) == inst.Beq?;
      && !o.trapped && o.st == s.(pc := o.st.pc)
      && Unsigned(o.st.pc) == (Unsigned(s.pc) + Unsigned(if taken then Sext13(inst.dist) else len)) % 0x1_0000_0000
  {
    hide Unsigned, Sum, Sext13, RegRead;
    SumModulo(s.pc, len);
    SumModulo(s.pc, Sext13(inst.dist));
  }
}
