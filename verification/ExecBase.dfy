/**
  The decoder of src/exec.c and the instruction bodies of
  include/basic_instructions.h, for the base instructions that compressed
  instructions expand to, proved against their meaning in `Isa`.
 */
module ExecBase {
  import opened BitLaws
  import opened Machine
  import opened Memory
  import opened Trap
  import opened Mmu
  import opened Isa

  // ---------------------------------------------------------------------
  // Field extraction as the source writes it
  // ---------------------------------------------------------------------

  function Opcode(ins: bv32): bv7 { (ins & 0x7F) as bv7 }
  function Rd(ins: bv32): bv5 { ((ins >> 7) & 0x1F) as bv5 }
  function Funct3(ins: bv32): bv3 { ((ins >> 12) & 0x7) as bv3 }
  function Rs1(ins: bv32): bv5 { ((ins >> 15) & 0x1F) as bv5 }
  function Rs2(ins: bv32): bv5 { ((ins >> 20) & 0x1F) as bv5 }
  function Funct7(ins: bv32): bv7 { ((ins >> 25) & 0x7F) as bv7 }

  function SignExtend12(imm: bv32): bv32 { if imm & 0x800 != 0 then imm | 0xFFFF_F000 else imm }
  function SignExtend13(imm: bv32): bv32 { if imm & 0x1000 != 0 then imm | 0xFFFF_E000 else imm }
  function SignExtend21(imm: bv32): bv32 { if imm & 0x10_0000 != 0 then imm | 0xFFE0_0000 else imm }

  function ImmI(ins: bv32): bv32 { SignExtend12((ins >> 20) & 0xFFF) }

  function ImmS(ins: bv32): bv32 { SignExtend12((((ins >> 25) & 0x7F) << 5) | ((ins >> 7) & 0x1F)) }

  function ImmB(ins: bv32): bv32 {
    SignExtend13((((ins >> 31) & 1) << 12) | (((ins >> 25) & 0x3F) << 5) | (((ins >> 8) & 0xF) << 1)
                 | (((ins >> 7) & 1) << 11))
  }

  function ImmU(ins: bv32): bv32 { ins & 0xFFFF_F000 }

  function RawJ(ins: bv32): bv32 {
    (((ins >> 31) & 1) << 20) | (((ins >> 21) & 0x3FF) << 1) | (((ins >> 20) & 1) << 11)
    | (((ins >> 12) & 0xFF) << 12)
  }

  function ImmJ(ins: bv32): bv32 { SignExtend21(RawJ(ins)) }

  // Every field comes back from every format

  lemma ROpcode(f7: bv7, rs2: bv5, rs1: bv5, f3: bv3, rd: bv5, op: bv7)
    ensures Opcode(RType(f7, rs2, rs1, f3, rd, op)) == op
  {}

  lemma RRd(f7: bv7, rs2: bv5, rs1: bv5, f3: bv3, rd: bv5, op: bv7)
    ensures Rd(RType(f7, rs2, rs1, f3, rd, op)) == rd
  {}

  lemma RFunct3(f7: bv7, rs2: bv5, rs1: bv5, f3: bv3, rd: bv5, op: bv7)
    ensures Funct3(RType(f7, rs2, rs1, f3, rd, op)) == f3
  {}

  lemma RRs1(f7: bv7, rs2: bv5, rs1: bv5, f3: bv3, rd: bv5, op: bv7)
    ensures Rs1(RType(f7, rs2, rs1, f3, rd, op)) == rs1
  {}

  lemma RRs2(f7: bv7, rs2: bv5, rs1: bv5, f3: bv3, rd: bv5, op: bv7)
    ensures Rs2(RType(f7, rs2, rs1, f3, rd, op)) == rs2
  {}

  lemma RFunct7(f7: bv7, rs2: bv5, rs1: bv5, f3: bv3, rd: bv5, op: bv7)
    ensures Funct7(RType(f7, rs2, rs1, f3, rd, op)) == f7
  {}

  lemma RFields(f7: bv7, rs2: bv5, rs1: bv5, f3: bv3, rd: bv5, op: bv7)
    ensures Opcode(RType(f7, rs2, rs1, f3, rd, op)) == op
    ensures Rd(RType(f7, rs2, rs1, f3, rd, op)) == rd
    ensures Funct3(RType(f7, rs2, rs1, f3, rd, op)) == f3
    ensures Rs1(RType(f7, rs2, rs1, f3, rd, op)) == rs1
    ensures Rs2(RType(f7, rs2, rs1, f3, rd, op)) == rs2
    ensures Funct7(RType(f7, rs2, rs1, f3, rd, op)) == f7
  {
    hide RType, Opcode, Rd, Funct3, Rs1, Rs2, Funct7;
    ROpcode(f7, rs2, rs1, f3, rd, op);
    RRd(f7, rs2, rs1, f3, rd, op);
    RFunct3(f7, rs2, rs1, f3, rd, op);
    RRs1(f7, rs2, rs1, f3, rd, op);
    RRs2(f7, rs2, rs1, f3, rd, op);
    RFunct7(f7, rs2, rs1, f3, rd, op);
  }

  lemma IOpcode(imm: bv12, rs1: bv5, f3: bv3, rd: bv5, op: bv7)
    ensures Opcode(IType(imm, rs1, f3, rd, op)) == op
  {}

  lemma IRd(imm: bv12, rs1: bv5, f3: bv3, rd: bv5, op: bv7)
    ensures Rd(IType(imm, rs1, f3, rd, op)) == rd
  {}

  lemma IFunct3(imm: bv12, rs1: bv5, f3: bv3, rd: bv5, op: bv7)
    ensures Funct3(IType(imm, rs1, f3, rd, op)) == f3
  {}

  lemma IRs1(imm: bv12, rs1: bv5, f3: bv3, rd: bv5, op: bv7)
    ensures Rs1(IType(imm, rs1, f3, rd, op)) == rs1
  {}

  lemma IFields(imm: bv12, rs1: bv5, f3: bv3, rd: bv5, op: bv7)
    ensures Opcode(IType(imm, rs1, f3, rd, op)) == op
    ensures Rd(IType(imm, rs1, f3, rd, op)) == rd
    ensures Funct3(IType(imm, rs1, f3, rd, op)) == f3
    ensures Rs1(IType(imm, rs1, f3, rd, op)) == rs1
  {
    hide IType, Opcode, Rd, Funct3, Rs1;
    IOpcode(imm, rs1, f3, rd, op);
    IRd(imm, rs1, f3, rd, op);
    IFunct3(imm, rs1, f3, rd, op);
    IRs1(imm, rs1, f3, rd, op);
  }

  lemma SOpcode(imm: bv12, rs2: bv5, rs1: bv5, f3: bv3, op: bv7)
    ensures Opcode(SType(imm, rs2, rs1, f3, op)) == op
  {}

  lemma SFunct3(imm: bv12, rs2: bv5, rs1: bv5, f3: bv3, op: bv7)
    ensures Funct3(SType(imm, rs2, rs1, f3, op)) == f3
  {}

  lemma SRs1(imm: bv12, rs2: bv5, rs1: bv5, f3: bv3, op: bv7)
    ensures Rs1(SType(imm, rs2, rs1, f3, op)) == rs1
  {}

  lemma SRs2(imm: bv12, rs2: bv5, rs1: bv5, f3: bv3, op: bv7)
    ensures Rs2(SType(imm, rs2, rs1, f3, op)) == rs2
  {}

  lemma SFields(imm: bv12, rs2: bv5, rs1: bv5, f3: bv3, op: bv7)
    ensures Opcode(SType(imm, rs2, rs1, f3, op)) == op
    ensures Funct3(SType(imm, rs2, rs1, f3, op)) == f3
    ensures Rs1(SType(imm, rs2, rs1, f3, op)) == rs1
    ensures Rs2(SType(imm, rs2, rs1, f3, op)) == rs2
  {
    hide SType, Opcode, Funct3, Rs1, Rs2;
    SOpcode(imm, rs2, rs1, f3, op);
    SFunct3(imm, rs2, rs1, f3, op);
    SRs1(imm, rs2, rs1, f3, op);
    SRs2(imm, rs2, rs1, f3, op);
  }

  lemma BOpcode(imm: bv13, rs2: bv5, rs1: bv5, f3: bv3, op: bv7)
    ensures Opcode(BType(imm, rs2, rs1, f3, op)) == op
  {}

  lemma BFunct3(imm: bv13, rs2: bv5, rs1: bv5, f3: bv3, op: bv7)
    ensures Funct3(BType(imm, rs2, rs1, f3, op)) == f3
  {}

  lemma BRs1(imm: bv13, rs2: bv5, rs1: bv5, f3: bv3, op: bv7)
    ensures Rs1(BType(imm, rs2, rs1, f3, op)) == rs1
  {}

  lemma BRs2(imm: bv13, rs2: bv5, rs1: bv5, f3: bv3, op: bv7)
    ensures Rs2(BType(imm, rs2, rs1, f3, op)) == rs2
  {}

  lemma BFields(imm: bv13, rs2: bv5, rs1: bv5, f3: bv3, op: bv7)
    ensures Opcode(BType(imm, rs2, rs1, f3, op)) == op
    ensures Funct3(BType(imm, rs2, rs1, f3, op)) == f3
    ensures Rs1(BType(imm, rs2, rs1, f3, op)) == rs1
    ensures Rs2(BType(imm, rs2, rs1, f3, op)) == rs2
  {
    hide BType, Opcode, Funct3, Rs1, Rs2;
    BOpcode(imm, rs2, rs1, f3, op);
    BFunct3(imm, rs2, rs1, f3, op);
    BRs1(imm, rs2, rs1, f3, op);
    BRs2(imm, rs2, rs1, f3, op);
  }

  lemma UOpcode(upper: bv20, rd: bv5, op: bv7)
    ensures Opcode(UType(upper, rd, op)) == op
  {}

  lemma URd(upper: bv20, rd: bv5, op: bv7)
    ensures Rd(UType(upper, rd, op)) == rd
  {}

  lemma UFields(upper: bv20, rd: bv5, op: bv7)
    ensures Opcode(UType(upper, rd, op)) == op
    ensures Rd(UType(upper, rd, op)) == rd
  {
    hide UType, Opcode, Rd;
    UOpcode(upper, rd, op);
    URd(upper, rd, op);
  }

  lemma JOpcode(imm: bv21, rd: bv5, op: bv7)
    ensures Opcode(JType(imm, rd, op)) == op
  {}

  lemma JRd(imm: bv21, rd: bv5, op: bv7)
    ensures Rd(JType(imm, rd, op)) == rd
  {}

  lemma JFields(imm: bv21, rd: bv5, op: bv7)
    ensures Opcode(JType(imm, rd, op)) == op
    ensures Rd(JType(imm, rd, op)) == rd
  {
    hide JType, Opcode, Rd;
    JOpcode(imm, rd, op);
    JRd(imm, rd, op);
  }

  lemma IImmediate(imm: bv12, rs1: bv5, f3: bv3, rd: bv5, op: bv7)
    ensures ImmI(IType(imm, rs1, f3, rd, op)) == Sext12(imm)
  {}

  lemma SImmediate(imm: bv12, rs2: bv5, rs1: bv5, f3: bv3, op: bv7)
    ensures ImmS(SType(imm, rs2, rs1, f3, op)) == Sext12(imm)
  {}

  lemma BImmediate(imm: bv13, rs2: bv5, rs1: bv5, f3: bv3, op: bv7)
    requires imm & 1 == 0
    ensures ImmB(BType(imm, rs2, rs1, f3, op)) == Sext13(imm)
  {}

  lemma JRaw(imm: bv21, rd: bv5, op: bv7)
    requires imm & 1 == 0
    ensures RawJ(JType(imm, rd, op)) == imm as bv32
  {}

  lemma SignExtendsAlike(imm: bv21)
    ensures SignExtend21(imm as bv32) == Sext21(imm)
  {}

  lemma JImmediate(imm: bv21, rd: bv5, op: bv7)
    requires imm & 1 == 0
    ensures ImmJ(JType(imm, rd, op)) == Sext21(imm)
  {
    hide RawJ, JType, Sext21, SignExtend21;
    JRaw(imm, rd, op);
    SignExtendsAlike(imm);
  }

  lemma UImmediate(upper: bv20, rd: bv5, op: bv7)
    ensures ImmU(UType(upper, rd, op)) == (upper as bv32) << 12
  {}

  lemma ShiftAmount(f7: bv7, rs2: bv5, rs1: bv5, f3: bv3, rd: bv5, op: bv7)
    ensures ((ImmI(RType(f7, rs2, rs1, f3, rd, op)) & 0x1F) as bv5) == rs2
  {}

  // ---------------------------------------------------------------------
  // Which instruction a word is
  // ---------------------------------------------------------------------

  /** Branch and jump distances are even; the encodings have no bit for it. */
  predicate WellFormed(inst: Inst) {
    (inst.Jal? ==> inst.off & 1 == 0) && (inst.Beq? || inst.Bne? ==> inst.dist & 1 == 0)
  }

  function OpcodeOf(inst: Inst): bv7 {
    if inst.Addi? || inst.Andi? || inst.Slli? || inst.Srli? || inst.Srai? then OP_IMM
    else if inst.Lw? then LOAD
    else if inst.Sw? then STORE
    else if inst.Beq? || inst.Bne? then BRANCH
    else if inst.Jal? then JAL
    else if inst.Jalr? then JALR
    else if inst.Lui? then LUI
    else if inst.Ebreak? then SYSTEM
    else OP
  }

  lemma DecodesRegisterOpcode(inst: Inst)
    requires OpcodeOf(inst) == OP || OpcodeOf(inst) == OP_IMM
    ensures Opcode(Encode(inst)) == OpcodeOf(inst)
  {
    hide Opcode, RType, IType;
    match inst
    case Addi(rd, rs1, imm) => IOpcode(imm, rs1, 0, rd, OP_IMM);
    case Andi(rd, rs1, imm) => IOpcode(imm, rs1, 7, rd, OP_IMM);
    case Slli(rd, rs1, n) => ROpcode(0, n, rs1, 1, rd, OP_IMM);
    case Srli(rd, rs1, n) => ROpcode(0, n, rs1, 5, rd, OP_IMM);
    case Srai(rd, rs1, n) => ROpcode(0x20, n, rs1, 5, rd, OP_IMM);
    case Add(rd, rs1, rs2) => ROpcode(0, rs2, rs1, 0, rd, OP);
    case Sub(rd, rs1, rs2) => ROpcode(0x20, rs2, rs1, 0, rd, OP);
    case Xor(rd, rs1, rs2) => ROpcode(0, rs2, rs1, 4, rd, OP);
    case Or(rd, rs1, rs2) => ROpcode(0, rs2, rs1, 6, rd, OP);
    case And(rd, rs1, rs2) => ROpcode(0, rs2, rs1, 7, rd, OP);
    case _ =>
  }

  lemma DecodesOpcode(inst: Inst)
    ensures Opcode(Encode(inst)) == OpcodeOf(inst)
  {
    hide Opcode, RType, IType, SType, BType, UType, JType;
    match inst
    case Lui(rd, upper) => UOpcode(upper, rd, LUI);
    case Lw(rd, rs1, imm) => IOpcode(imm, rs1, 2, rd, LOAD);
    case Sw(rs2, rs1, imm) => SOpcode(imm, rs2, rs1, 2, STORE);
    case Jal(rd, off) => JOpcode(off, rd, JAL);
    case Jalr(rd, rs1, imm) => IOpcode(imm, rs1, 0, rd, JALR);
    case Beq(rs1, rs2, dist) => BOpcode(dist, rs2, rs1, 0, BRANCH);
    case Bne(rs1, rs2, dist) => BOpcode(dist, rs2, rs1, 1, BRANCH);
    case Ebreak => IOpcode(1, 0, 0, 0, SYSTEM);
    case _ => DecodesRegisterOpcode(inst);
  }

  /** The major opcodes of chapter 24 of the Unprivileged ISA 20191213. */
  lemma OpcodeNumbers(inst: Inst)
    ensures Encode(inst) & 0x7F ==
      (if inst.Addi? || inst.Andi? || inst.Slli? || inst.Srli? || inst.Srai? then 0x13
       else if inst.Lw? then 0x03 else if inst.Sw? then 0x23 else if inst.Beq? || inst.Bne? then 0x63
       else if inst.Jal? then 0x6F else if inst.Jalr? then 0x67 else if inst.Lui? then 0x37
       else if inst.Ebreak? then 0x73 else 0x33)
  {
    DecodesOpcode(inst);
    LowSeven(Encode(inst));
    hide Opcode, Encode;
  }

  lemma LowSeven(w: bv32) ensures w & 0x7F == Opcode(w) as bv32 {}

  // ---------------------------------------------------------------------
  // Execution
  // ---------------------------------------------------------------------

  lemma EvenSum(x: bv32, y: bv32)
    requires x & 1 == 0 && y & 1 == 0
    ensures Sum(x, y) & 1 == 0
  {}

  lemma EvenSext21(off: bv21)
    requires off & 1 == 0
    ensures Sext21(off) & 1 == 0
  {}

  lemma EvenSext13(dist: bv13)
    requires dist & 1 == 0
    ensures Sext13(dist) & 1 == 0
  {}

  lemma BackAndForth(target: bv32)
    ensures Sum(Minus(target, 4), 4) == target
  {}

  lemma EvenMask(x: bv32)
    ensures Even(x) & 1 == 0
  {}

  /** `t` after the loop's step is what `inst` makes of `s`. */
  ghost predicate Does(t: State, inst: Inst, s: State, fires: bool)
    requires s.Valid()
  {
    Advance(t) == Sem(inst, s, 4, fires).st
  }

  class Hart {
    var st: State

    constructor (s: State)
      ensures st == s
    {
      st := s;
    }

    /** raise_if_misaligned_fetch with compressed instructions enabled */
    method RaiseIfMisaligned(target: bv32) returns (trap: bool)
      requires st.Valid()
      modifies this
      ensures trap <==> target & 1 != 0
      ensures st == if trap then Take(old(st), Exception(0, target), old(st).pc) else old(st)
    {
      trap := target & 1 != 0;
      if trap { st := Take(st, Exception(0, target), st.pc); }
    }

    /** Register-register operations. */
    method ExecOp(ins: bv32, ghost inst: Inst, ghost fires: bool)
      requires st.Valid() && ins == Encode(inst) && OpcodeOf(inst) == OP
      modifies this
      ensures Does(st, inst, old(st), fires)
    {
      hide Funct3, Funct7, Rd, Rs1, Rs2, RType, RegRead, Sum, Minus, Difference, BitXor, BitOr, BitAnd;
      RFields(if inst.Sub? then 0x20 else 0, inst.rs2, inst.rs1,
              if inst.Xor? then 4 else if inst.Or? then 6 else if inst.And? then 7 else 0, inst.rd, OP);
      var v1, v2 := RegRead(st, Rs1(ins)), RegRead(st, Rs2(ins));
      var r;
      match Funct3(ins) {
        case 0 => r := if Funct7(ins) == 0 then Sum(v1, v2) else Difference(v1, v2);
        case 4 => r := BitXor(v1, v2);
        case 6 => r := BitOr(v1, v2);
        case _ => r := BitAnd(v1, v2);
      }
      st := RegWrite(st, Rd(ins), r);
    }

    /** Register-immediate operations. */
    method ExecOpImm(ins: bv32, ghost inst: Inst, ghost fires: bool)
      requires st.Valid() && ins == Encode(inst) && OpcodeOf(inst) == OP_IMM
      modifies this
      ensures Does(st, inst, old(st), fires)
    {
      hide Funct3, Funct7, Rd, Rs1, Rs2, RType, IType, RegRead, Sum, BitAnd, Sll, Srl, Sra, ImmI, Sext12;
      if inst.Addi? || inst.Andi? {
        IFields(inst.imm, inst.rs1, if inst.Addi? then 0 else 7, inst.rd, OP_IMM);
        IImmediate(inst.imm, inst.rs1, if inst.Addi? then 0 else 7, inst.rd, OP_IMM);
      } else {
        RFields(if inst.Srai? then 0x20 else 0, inst.shamt, inst.rs1, if inst.Slli? then 1 else 5, inst.rd, OP_IMM);
        ShiftAmount(if inst.Srai? then 0x20 else 0, inst.shamt, inst.rs1, if inst.Slli? then 1 else 5, inst.rd, OP_IMM);
      }
      var imm := ImmI(ins);
      var shamt := (imm & 0x1F) as bv5;
      var v1 := RegRead(st, Rs1(ins));
      var r;
      match Funct3(ins) {
        case 0 => r := Sum(v1, imm);
        case 1 => r := Sll(v1, shamt);
        case 5 => r := if Funct7(ins) == 0 then Srl(v1, shamt) else Sra(v1, shamt);
        case _ => r := BitAnd(v1, imm);
      }
      st := RegWrite(st, Rd(ins), r);
    }

    /** LW and SW: the trap has already moved the pc to the vector less four. */
    method ExecMemory(ins: bv32, ghost inst: Inst, fires: bool)
      requires st.Valid() && ins == Encode(inst) && (inst.Lw? || inst.Sw?)
      modifies this
      ensures Does(st, inst, old(st), fires)
    {
      hide Funct3, Rd, Rs1, Rs2, IType, SType, RegRead, Sum, ImmI, ImmS, Sext12, LoadWord, StoreWord, Opcode;
      DecodesOpcode(inst);
      if Opcode(ins) == LOAD {
        IFields(inst.imm, inst.rs1, 2, inst.rd, LOAD);
        IImmediate(inst.imm, inst.rs1, 2, inst.rd, LOAD);
        var a := Sum(RegRead(st, Rs1(ins)), ImmI(ins));
        LoadKeepsPc(st, a, Rd(ins), fires);
        st := LoadWord(st, a, Rd(ins), fires).st;
      } else {
        SFields(inst.imm, inst.rs2, inst.rs1, 2, STORE);
        SImmediate(inst.imm, inst.rs2, inst.rs1, 2, STORE);
        var a := Sum(RegRead(st, Rs1(ins)), ImmS(ins));
        var v := RegRead(st, Rs2(ins));
        StoreKeepsPc(st, a, v, fires);
        st := StoreWord(st, a, v, fires).st;
      }
    }

    /** BEQ and BNE */
    method ExecBranch(ins: bv32, ghost inst: Inst, ghost fires: bool)
      requires st.Valid() && ins == Encode(inst) && (inst.Beq? || inst.Bne?)
      requires WellFormed(inst) && st.pc & 1 == 0
      modifies this
      ensures Does(st, inst, old(st), fires)
    {
      hide Funct3, Rs1, Rs2, BType, RegRead, Sum, Minus, ImmB, Sext13;
      BFields(inst.dist, inst.rs2, inst.rs1, if inst.Beq? then 0 else 1, BRANCH);
      BImmediate(inst.dist, inst.rs2, inst.rs1, if inst.Beq? then 0 else 1, BRANCH);
      EvenSext13(inst.dist);
      EvenSum(st.pc, Sext13(inst.dist));
      var v1, v2 := RegRead(st, Rs1(ins)), RegRead(st, Rs2(ins));
      var target := Sum(st.pc, ImmB(ins));
      BackAndForth(target);
      if (if Funct3(ins) == 0 then v1 == v2 else v1 != v2) {
        var trap := RaiseIfMisaligned(target);
        if !trap { st := st.(pc := Minus(target, 4)); }
      }
    }

    /** JAL and JALR */
    method ExecJump(ins: bv32, ghost inst: Inst, ghost fires: bool)
      requires st.Valid() && ins == Encode(inst) && (inst.Jal? || inst.Jalr?)
      requires WellFormed(inst) && st.pc & 1 == 0
      modifies this
      ensures Does(st, inst, old(st), fires)
    {
      hide Rd, Rs1, Funct3, JType, IType, RegRead, Sum, Minus, ImmJ, ImmI, Sext21, Sext12, Even, Opcode;
      DecodesOpcode(inst);
      var target, rd;
      if Opcode(ins) == JAL {
        JFields(inst.off, inst.rd, JAL);
        JImmediate(inst.off, inst.rd, JAL);
        EvenSext21(inst.off);
        EvenSum(st.pc, Sext21(inst.off));
        target := Sum(st.pc, ImmJ(ins));
      } else {
        IFields(inst.imm, inst.rs1, 0, inst.rd, JALR);
        IImmediate(inst.imm, inst.rs1, 0, inst.rd, JALR);
        target := Even(Sum(RegRead(st, Rs1(ins)), ImmI(ins)));
        EvenMask(Sum(RegRead(st, Rs1(ins)), ImmI(ins)));
      }
      BackAndForth(target);
      rd := Rd(ins);
      var trap := RaiseIfMisaligned(target);
      if !trap {
        st := RegWrite(st, rd, Sum(st.pc, 4));
        st := st.(pc := Minus(target, 4));
      }
    }

    /**
      exec on the word that encodes `inst`, followed by the loop's pc += 4, does
      what `inst` means. At an odd pc it takes the misaligned-fetch exception
      instead, on behalf of the instruction fetched before, at `prev`.
     */
    method Exec(ins: bv32, ghost inst: Inst, fires: bool, prev: bv32)
      requires st.Valid() && ins == Encode(inst) && WellFormed(inst)
      modifies this
      ensures old(st).pc & 1 == 0 ==> Does(st, inst, old(st), fires)
      ensures old(st).pc & 1 != 0 ==> st == Take(old(st), Exception(0, old(st).pc), prev)
    {
      hide Opcode, Does, Encode, WellFormed, Take;
      if st.pc & 1 != 0 {
        st := Take(st, Exception(0, st.pc), prev);
        return;
      }
      DecodesOpcode(inst);
      var opcode := Opcode(ins);
      if opcode == OP { ExecOp(ins, inst, fires); }
      else if opcode == OP_IMM { ExecOpImm(ins, inst, fires); }
      else if opcode == LOAD || opcode == STORE { ExecMemory(ins, inst, fires); }
      else if opcode == BRANCH { ExecBranch(ins, inst, fires); }
      else if opcode == JAL || opcode == JALR { ExecJump(ins, inst, fires); }
      else if opcode == LUI { ExecLui(ins, inst, fires); }
      else { ExecEbreak(inst, fires); }
    }

    method ExecLui(ins: bv32, ghost inst: Inst, ghost fires: bool)
      requires st.Valid() && ins == Encode(inst) && inst.Lui?
      modifies this
      ensures Does(st, inst, old(st), fires)
    {
      hide Rd, UType, ImmU, Sum;
      UFields(inst.upper, inst.rd, LUI);
      UImmediate(inst.upper, inst.rd, LUI);
      st := RegWrite(st, Rd(ins), ImmU(ins));
    }

    method ExecEbreak(ghost inst: Inst, ghost fires: bool)
      requires st.Valid() && inst.Ebreak?
      modifies this
      ensures Does(st, inst, old(st), fires)
    {
      hide Take, Sum;
      st := Take(st, Exception(3, 0), st.pc);
    }
  }

  lemma LoadKeepsPc(s: State, a: bv32, rd: bv5, fires: bool)
    requires s.Valid()
    ensures var o := LoadWord(s, a, rd, fires); !o.trapped ==> o.st.pc == s.pc
  {
    hide Translate, Take, MemRead32;
  }

  lemma StoreKeepsPc(s: State, a: bv32, v: bv32, fires: bool)
    requires s.Valid()
    ensures var o := StoreWord(s, a, v, fires); !o.trapped ==> o.st.pc == s.pc
  {
    hide Translate, Take, MemWrite32;
  }
}
