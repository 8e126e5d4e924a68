/**
  Compressed instructions: the executor of src/extension/c_extension.c against
  the expansions of chapter 16 of the RISC-V Unprivileged ISA 20191213.
 */
module Rvc {
  import opened BitLaws
  import opened Wrappers
  import opened Machine
  import opened Memory
  import opened Trap
  import opened Mmu
  import opened Isa
  import opened ExecBase

  // ---------------------------------------------------------------------
  // Fields
  // ---------------------------------------------------------------------

  function Quadrant(c: bv16): bv2 { (c & 3) as bv2 }
  function F3(c: bv16): bv3 { ((c >> 13) & 7) as bv3 }
  function RdField(c: bv16): bv5 { ((c >> 7) & 0x1F) as bv5 }
  function Rs2Field(c: bv16): bv5 { ((c >> 2) & 0x1F) as bv5 }
  /** The registers x8 to x15, named by c[9:7] and by c[4:2]. */
  function RegHigh(c: bv16): bv5 { (8 | ((c >> 7) & 7)) as bv5 }
  function RegLow(c: bv16): bv5 { (8 | ((c >> 2) & 7)) as bv5 }
  predicate Bit12(c: bv16) { (c >> 12) & 1 != 0 }
  function F2(c: bv16): bv2 { ((c >> 10) & 3) as bv2 }
  function AluField(c: bv16): bv2 { ((c >> 5) & 3) as bv2 }

  /** A compressed word is its fields, and the short registers and sub-codes lie in the long ones. */
  lemma WordIsItsFields(c: bv16)
    ensures c == ((F3(c) as bv16) << 13) | ((if Bit12(c) then 1 else 0) << 12) | ((RdField(c) as bv16) << 7)
                 | ((Rs2Field(c) as bv16) << 2) | (Quadrant(c) as bv16)
    ensures RegHigh(c) == 8 + (RdField(c) & 7) && RegLow(c) == 8 + (Rs2Field(c) & 7)
    ensures F2(c) as bv5 == RdField(c) >> 3 && AluField(c) as bv5 == Rs2Field(c) >> 3 && Sh(c) == Rs2Field(c)
  {}

  // ---------------------------------------------------------------------
  // Immediates as the architecture lays them out, in the width of the
  // expanded instruction's field; every signed one has its sign in c[12]
  // ---------------------------------------------------------------------

  /** nzuimm[5:4|9:6|2|3] = c[12:5] */
  function Nzuimm(c: bv16): bv12 {
    ((((c >> 11) & 3) as bv12) << 4) | ((((c >> 7) & 0xF) as bv12) << 6)
    | ((((c >> 6) & 1) as bv12) << 2) | ((((c >> 5) & 1) as bv12) << 3)
  }

  /** uimm[5:3] = c[12:10], uimm[2|6] = c[6:5] */
  function UimmLs(c: bv16): bv12 {
    ((((c >> 10) & 7) as bv12) << 3) | ((((c >> 6) & 1) as bv12) << 2) | ((((c >> 5) & 1) as bv12) << 6)
  }

  /** uimm[5] = c[12], uimm[4:2|7:6] = c[6:2] */
  function UimmLwsp(c: bv16): bv12 {
    ((((c >> 12) & 1) as bv12) << 5) | ((((c >> 4) & 7) as bv12) << 2) | ((((c >> 2) & 3) as bv12) << 6)
  }

  /** uimm[5:2|7:6] = c[12:7] */
  function UimmSwsp(c: bv16): bv12 {
    ((((c >> 9) & 0xF) as bv12) << 2) | ((((c >> 7) & 3) as bv12) << 6)
  }

  /** imm[5] = c[12], imm[4:0] = c[6:2] */
  function Imm6(c: bv16): bv12 {
    (if Bit12(c) then 0xFE0 else 0) | (((c >> 2) & 0x1F) as bv12)
  }

  /** nzimm[9] = c[12], nzimm[4|6|8:7|5] = c[6:2] */
  function Imm16sp(c: bv16): bv12 {
    (if Bit12(c) then 0xE00 else 0) | ((((c >> 6) & 1) as bv12) << 4) | ((((c >> 5) & 1) as bv12) << 6)
    | ((((c >> 3) & 3) as bv12) << 7) | ((((c >> 2) & 1) as bv12) << 5)
  }

  /** nzimm[17] = c[12], nzimm[16:12] = c[6:2] */
  function Upper(c: bv16): bv20 {
    (if Bit12(c) then 0xF_FFE0 else 0) | (((c >> 2) & 0x1F) as bv20)
  }

  /** offset[11|4|9:8|10|6|7|3:1|5] = c[12:2] */
  function OffJ(c: bv16): bv21 {
    (if Bit12(c) then 0x1F_F800 else 0)
    | ((((c >> 11) & 1) as bv21) << 4) | ((((c >> 9) & 3) as bv21) << 8) | ((((c >> 8) & 1) as bv21) << 10)
    | ((((c >> 7) & 1) as bv21) << 6) | ((((c >> 6) & 1) as bv21) << 7) | ((((c >> 3) & 7) as bv21) << 1)
    | ((((c >> 2) & 1) as bv21) << 5)
  }

  /** offset[8|4:3] = c[12:10], offset[7:6|2:1|5] = c[6:2] */
  function OffB(c: bv16): bv13 {
    (if Bit12(c) then 0x1F00 else 0)
    | ((((c >> 10) & 3) as bv13) << 3) | ((((c >> 5) & 3) as bv13) << 6)
    | ((((c >> 3) & 3) as bv13) << 1) | ((((c >> 2) & 1) as bv13) << 5)
  }

  function Sh(c: bv16): bv5 { ((c >> 2) & 0x1F) as bv5 }

  /**
    The expansion of every integer encoding that is neither reserved nor a
    hint on RV32.
   */
  function Expand(c: bv16): Option<Inst> {
    if Quadrant(c) == 0 then Expand0(c)
    else if Quadrant(c) == 1 then (if F3(c) == 4 then ExpandAlu(c) else Expand1(c))
    else if Quadrant(c) == 2 then (if F3(c) == 4 then ExpandReg(c) else Expand2(c))
    else None
  }

  function Expand0(c: bv16): Option<Inst> {
    match F3(c)
    case 0 => if Nzuimm(c) != 0 then Some(Addi(RegLow(c), 2, Nzuimm(c))) else None
    case 2 => Some(Lw(RegLow(c), RegHigh(c), UimmLs(c)))
    case 6 => Some(Sw(RegLow(c), RegHigh(c), UimmLs(c)))
    case _ => None
  }

  function Expand1(c: bv16): Option<Inst> {
    match F3(c)
    case 0 =>
      if (RdField(c) == 0) == (Imm6(c) == 0) then Some(Addi(RdField(c), RdField(c), Imm6(c))) else None
    case 1 => Some(Jal(1, OffJ(c)))
    case 2 => if RdField(c) != 0 then Some(Addi(RdField(c), 0, Imm6(c))) else None
    case 3 =>
      if RdField(c) == 2 then (if Imm16sp(c) != 0 then Some(Addi(2, 2, Imm16sp(c))) else None)
      else if RdField(c) != 0 && Imm6(c) != 0 then Some(Lui(RdField(c), Upper(c)))
      else None
    case 5 => Some(Jal(0, OffJ(c)))
    case 6 => Some(Beq(RegHigh(c), 0, OffB(c)))
    case 7 => Some(Bne(RegHigh(c), 0, OffB(c)))
    case _ => None
  }

  function ExpandAlu(c: bv16): Option<Inst> {
    var r := RegHigh(c);
    match F2(c)
    case 0 => if !Bit12(c) && Sh(c) != 0 then Some(Srli(r, r, Sh(c))) else None
    case 1 => if !Bit12(c) && Sh(c) != 0 then Some(Srai(r, r, Sh(c))) else None
    case 2 => Some(Andi(r, r, Imm6(c)))
    case _ =>
      if Bit12(c) then None
      else match AluField(c)
        case 0 => Some(Sub(r, r, RegLow(c)))
        case 1 => Some(Xor(r, r, RegLow(c)))
        case 2 => Some(Or(r, r, RegLow(c)))
        case _ => Some(And(r, r, RegLow(c)))
  }

  function Expand2(c: bv16): Option<Inst> {
    var rd := RdField(c);
    match F3(c)
    case 0 => if rd != 0 && !Bit12(c) && Sh(c) != 0 then Some(Slli(rd, rd, Sh(c))) else None
    case 2 => if rd != 0 then Some(Lw(rd, 2, UimmLwsp(c))) else None
    case 6 => Some(Sw(Rs2Field(c), 2, UimmSwsp(c)))
    case _ => None
  }

  function ExpandReg(c: bv16): Option<Inst> {
    var rd, rs2 := RdField(c), Rs2Field(c);
    if rd == 0 then (if Bit12(c) && rs2 == 0 then Some(Ebreak) else None)
    else if rs2 == 0 then Some(Jalr(if Bit12(c) then 1 else 0, rd, 0))
    else Some(Add(rd, if Bit12(c) then rd else 0, rs2))
  }

  // ---------------------------------------------------------------------
  // Immediates as the code computes them
  // ---------------------------------------------------------------------

  function Sext6(v: bv32): bv32 { var x := v & 0x3F; if x >= 0x20 then x - 0x40 else x }
  function Sext10(v: bv32): bv32 { var x := v & 0x3FF; if x >= 0x200 then x - 0x400 else x }

  function CodeAddi4spn(c: bv32): bv32 {
    (((c >> 11) & 0x3) << 4) | (((c >> 7) & 0xF) << 6) | (((c >> 6) & 0x1) << 2) | (((c >> 5) & 0x1) << 3)
  }

  function CodeLs(c: bv32): bv32 {
    (((c >> 5) & 0x1) << 6) | (((c >> 10) & 0x7) << 3) | (((c >> 6) & 0x1) << 2)
  }

  function CodeLwsp(c: bv32): bv32 {
    (((c >> 2) & 0x3) << 6) | (((c >> 12) & 0x1) << 5) | (((c >> 4) & 0x7) << 2)
  }

  function CodeSwsp(c: bv32): bv32 { (((c >> 7) & 0x3) << 6) | (((c >> 9) & 0xF) << 2) }

  function CodeAddi16sp(c: bv32): bv32 {
    Sext10((((c >> 12) & 0x1) << 9) | (((c >> 4) & 0x1) << 8) | (((c >> 3) & 0x1) << 7)
           | (((c >> 5) & 0x1) << 6) | (((c >> 2) & 0x1) << 5) | (((c >> 6) & 0x1) << 4))
  }

  function RawJal(c: bv32): bv32 {
    (((c >> 12) & 0x1) << 11) | (((c >> 11) & 0x1) << 4) | (((c >> 9) & 0x3) << 8)
    | (((c >> 8) & 0x1) << 10) | (((c >> 7) & 0x1) << 6) | (((c >> 6) & 0x1) << 7)
    | (((c >> 2) & 0x1) << 5) | (((c >> 3) & 0x7) << 1)
  }

  function CodeJal(c: bv32): bv32 {
    var imm := RawJal(c);
    if imm & 0x800 != 0 then imm - 0x1000 else imm
  }

  function RawBranch(c: bv32): bv32 {
    (((c >> 12) & 0x1) << 8) | (((c >> 6) & 0x1) << 7) | (((c >> 5) & 0x1) << 6)
    | (((c >> 2) & 0x1) << 5) | (((c >> 11) & 0x1) << 4) | (((c >> 10) & 0x1) << 3)
    | (((c >> 4) & 0x1) << 2) | (((c >> 3) & 0x1) << 1)
  }

  function CodeBranch(c: bv32): bv32 {
    var imm := RawBranch(c);
    if imm & 0x100 != 0 then imm - 0x200 else imm
  }

  function CodeShamt(c: bv32): bv32 { (((c >> 12) & 0x1) << 5) | ((c >> 2) & 0x1F) }
  function CodeImm6(c: bv32): bv32 { Sext6(CodeShamt(c)) }
  function CodeLui(c: bv32): bv32 { CodeImm6(c) << 12 }

  // Each agrees with the architecture's

  lemma Addi4spnImm(c: bv16) ensures CodeAddi4spn(c as bv32) == Sext12(Nzuimm(c)) {}
  lemma Addi4spnZero(c: bv16) ensures CodeAddi4spn(c as bv32) == 0 <==> Nzuimm(c) == 0 {}
  lemma LsImm(c: bv16) ensures CodeLs(c as bv32) == Sext12(UimmLs(c)) {}
  lemma LwspImm(c: bv16) ensures CodeLwsp(c as bv32) == Sext12(UimmLwsp(c)) {}
  lemma SwspImm(c: bv16) ensures CodeSwsp(c as bv32) == Sext12(UimmSwsp(c)) {}
  lemma Imm6Code(c: bv16) ensures CodeImm6(c as bv32) == Sext12(Imm6(c)) {}
  lemma Addi16spImm(c: bv16) ensures CodeAddi16sp(c as bv32) == Sext12(Imm16sp(c)) {}
  lemma LuiImm(c: bv16) ensures CodeLui(c as bv32) == UpperImmediate(Upper(c)) {}
  lemma JalImm(c: bv16) ensures CodeJal(c as bv32) == Sext21(OffJ(c)) {}
  lemma BranchImm(c: bv16) ensures CodeBranch(c as bv32) == Sext13(OffB(c)) {}
  lemma ShamtCode(c: bv16) ensures ((CodeShamt(c as bv32) & 0x1F) as bv5) == Sh(c) {}
  lemma ShamtZero(c: bv16) ensures CodeShamt(c as bv32) == 0 <==> !Bit12(c) && Sh(c) == 0 {}

  // ---------------------------------------------------------------------
  // When the two decoders agree
  // ---------------------------------------------------------------------

  lemma EvenOffJ(c: bv16) ensures OffJ(c) & 1 == 0 {}
  lemma EvenOffB(c: bv16) ensures OffB(c) & 1 == 0 {}

  /** Expansions are instructions that the 32-bit encodings can hold. */
  lemma ExpansionWellFormed(c: bv16)
    ensures Expand(c).Some? ==> WellFormed(Expand(c).value)
  {
    hide Quadrant, F3, RdField, Rs2Field, RegHigh, RegLow, Bit12, F2, AluField, Sh;
    hide Nzuimm, UimmLs, UimmLwsp, UimmSwsp, Imm6, Imm16sp, Upper, OffJ, OffB;
    EvenOffJ(c);
    EvenOffB(c);
  }

  /** Where the handler of exception `code` starts. */
  function HandlerBase(s: State, code: bv5): bv32 {
    VectorBase(if Delegated(s, Exception(code, 0)) then s.csr.stvec else s.csr.mtvec)
  }

  /** The exception a word access at `a` raises. */
  function AccessFault(s: State, a: bv32, access: Access, fires: bool): Option<bv5>
    requires s.Valid()
  {
    if fires then Some(3)
    else if a & 3 != 0 then Some(if access == Load then 4 else 6)
    else if Translate(s, a, access).None? then Some(FaultCode(access))
    else None
  }

  /** A load or store raises no exception, or one whose handler is not at pc + 4. */
  predicate HandlerElsewhere(s: State, a: bv32, access: Access, fires: bool)
    requires s.Valid()
  {
    match AccessFault(s, a, access, fires)
    case None => true
    case Some(code) => HandlerBase(s, code) != Sum(s.pc, 4)
  }

  /** What the compressed executor needs of the state to do what `inst` means. */
  predicate Faithful(inst: Inst, s: State, fires: bool)
    requires s.Valid()
  {
    match inst
    case Jalr(rd, rs1, _) =>
      RegRead(s, rs1) & 1 == 0 && (rd == 1 && rs1 == 1 ==> RegRead(s, 1) == Sum(s.pc, 2))
    case Lw(_, rs1, imm) => HandlerElsewhere(s, Sum(RegRead(s, rs1), Sext12(imm)), Load, fires)
    case Sw(_, rs1, imm) => HandlerElsewhere(s, Sum(RegRead(s, rs1), Sext12(imm)), Store, fires)
    case _ => true
  }

  /** `t`, once the loop has added 4, and the trap taken are those of the two-byte `inst` in `s`. */
  ghost predicate Matches(t: State, trapped: bool, inst: Inst, s: State, fires: bool)
    requires s.Valid()
  {
    Outcome(Advance(t), trapped) == Sem(inst, s, 2, fires)
  }

  // The three ways not to be, each with an encoding that shows it

  /** c.jalr x1 jumps to its own link. */
  lemma LinkClobbersTarget(s: State, fires: bool)
    requires s.Valid() && s.pc == 0x8000 && RegRead(s, 1) == 0x100
    ensures Expand(0x9082) == Some(Jalr(1, 1, 0)) && !Faithful(Jalr(1, 1, 0), s, fires)
  {
    assert Quadrant(0x9082) == 2 && F3(0x9082) == 4 && RdField(0x9082) == 1 && Rs2Field(0x9082) == 0 && Bit12(0x9082);
  }

  /** c.jr x5 traps on an odd target that jalr would have rounded down. */
  lemma OddTargetTraps(s: State, fires: bool)
    requires s.Valid() && RegRead(s, 5) == 0x101
    ensures Expand(0x8282) == Some(Jalr(0, 5, 0)) && !Faithful(Jalr(0, 5, 0), s, fires)
  {
    assert Quadrant(0x8282) == 2 && F3(0x8282) == 4 && RdField(0x8282) == 5 && Rs2Field(0x8282) == 0 && !Bit12(0x8282);
  }

  /** c.lw x8, 0(x8): a trap to pc + 4 is taken for none and lands two bytes early. */
  lemma HandlerAtNextWord(s: State)
    requires s.Valid() && RegRead(s, 8) == 1 && s.pc == 0x8000 && s.csr.mtvec == 0x8004 && s.priv == Privilege.Machine
    ensures Expand(0x4000) == Some(Lw(8, 8, 0)) && !Faithful(Lw(8, 8, 0), s, false)
  {
    assert Quadrant(0x4000) == 0 && F3(0x4000) == 2 && RegLow(0x4000) == 8 && RegHigh(0x4000) == 8 && UimmLs(0x4000) == 0;
  }

  // Steps of the pc

  lemma StepTwo(pc: bv32) ensures Sum(Minus(pc, 2), 4) == Sum(pc, 2) {}
  lemma StepTwoMoves(pc: bv32) ensures Minus(pc, 2) != pc {}
  lemma StepTwoIsNotFour(pc: bv32) ensures Sum(pc, 2) != Sum(pc, 4) {}
  lemma ForthAndBack(pc: bv32) ensures Minus(Sum(pc, 4), 4) == pc {}
  lemma FromZero(x: bv32) ensures Sum(0, x) == x {}
  lemma ZeroDisplacement(x: bv32) ensures x & 1 == 0 ==> Even(Sum(x, Sext12(0))) == x {}

  lemma ZeroReads(s: State) requires s.Valid() ensures RegRead(s, 0) == 0 {}

  lemma FourApart(base: bv32, pc: bv32)
    ensures Minus(base, 4) == pc <==> base == Sum(pc, 4)
  {
    hide Sum, Minus;
    ForthAndBack(pc);
    BackAndForth(base);
  }

  lemma EntryPc(s: State, c: Cause, epc: bv32)
    ensures EnterMachine(s, c, epc).pc == Vector(s.csr.mtvec, c)
    ensures EnterSupervisor(s, c, epc).pc == Vector(s.csr.stvec, c)
  {
    hide Vector, PushMachine, PushSupervisor, CauseWord;
  }

  lemma ValueDoesNotDelegate(s: State, code: bv5, tval: bv32)
    ensures Delegated(s, Exception(code, tval)) == Delegated(s.(flags := map[]), Exception(code, 0)) == Delegated(s, Exception(code, 0))
  {}

  lemma HandlerPc(s: State, code: bv5, tval: bv32)
    ensures Take(s, Exception(code, tval), s.pc).pc == Minus(HandlerBase(s, code), 4)
  {
    hide Minus, VectorBase, EnterMachine, EnterSupervisor, Delegated;
    EntryPc(s.(flags := map[]), Exception(code, tval), s.pc);
    ValueDoesNotDelegate(s, code, tval);
  }

  lemma LoadOutcome(s: State, a: bv32, rd: bv5, fires: bool)
    requires s.Valid()
    ensures var o, f := LoadWord(s, a, rd, fires), AccessFault(s, a, Load, fires);
      && (o.trapped <==> f.Some?)
      && o.st.pc == if f.Some? then Minus(HandlerBase(s, f.value), 4) else s.pc
  {
    hide Translate, Take, MemRead32, Minus, HandlerBase;
    LoadKeepsPc(s, a, rd, fires);
    HandlerPc(s, 3, a);
    HandlerPc(s, 4, a);
    HandlerPc(s, FaultCode(Load), a);
  }

  lemma StoreOutcome(s: State, a: bv32, v: bv32, fires: bool)
    requires s.Valid()
    ensures var o, f := StoreWord(s, a, v, fires), AccessFault(s, a, Store, fires);
      && (o.trapped <==> f.Some?)
      && o.st.pc == if f.Some? then Minus(HandlerBase(s, f.value), 4) else s.pc
  {
    hide Translate, Take, MemWrite32, Minus, HandlerBase;
    StoreKeepsPc(s, a, v, fires);
    HandlerPc(s, 3, a);
    HandlerPc(s, 6, a);
    HandlerPc(s, FaultCode(Store), a);
  }

  /** The test `pc == saved` after an access tells a trap from none unless the handler is at pc + 4. */
  lemma SavedPcTest(s: State, a: bv32, access: Access, fires: bool, o: Outcome)
    requires s.Valid()
    requires var f := AccessFault(s, a, access, fires);
      (o.trapped <==> f.Some?) && o.st.pc == if f.Some? then Minus(HandlerBase(s, f.value), 4) else s.pc
    ensures var t := if o.st.pc == s.pc then o.st.(pc := Minus(o.st.pc, 2)) else o.st;
      Advance(t) == Finish(o, 2).st <==> HandlerElsewhere(s, a, access, fires)
  {
    hide AccessFault, HandlerBase, Sum, Minus;
    StepTwo(s.pc);
    StepTwoIsNotFour(s.pc);
    var f := AccessFault(s, a, access, fires);
    if f.Some? { FourApart(HandlerBase(s, f.value), s.pc); }
  }

  // ---------------------------------------------------------------------
  // The executor
  // ---------------------------------------------------------------------

  /** Register numbers as the code computes them. */
  function CodeHigh(c: bv16): bv5 { (8 + (((c as bv32) >> 7) & 7)) as bv5 }
  function CodeLow(c: bv16): bv5 { (8 + (((c as bv32) >> 2) & 7)) as bv5 }
  lemma HighCode(c: bv16) ensures CodeHigh(c) == RegHigh(c) {}
  lemma LowCode(c: bv16) ensures CodeLow(c) == RegLow(c) {}

  /**
    The contract of every part of the executor. `ret` is the value exec_c_insn
    returns; it tells whether a trap was taken except after a load or store,
    where it is 1 always.
   */
  ghost predicate Executes(t: State, ret: bool, trapped: bool, c: bv16, s: State, fires: bool)
    requires s.Valid()
  {
    match Expand(c)
    case None => true
    case Some(inst) =>
      && (Matches(t, trapped, inst, s, fires) <==> Faithful(inst, s, fires))
      && (ret <==> trapped || inst.Lw? || inst.Sw?)
  }

  /** What a register instruction other than an addition writes to its destination. */
  function AluValue(inst: Inst, s: State): bv32
    requires s.Valid() && (inst.Andi? || inst.Srli? || inst.Srai? || inst.Sub? || inst.Xor? || inst.Or? || inst.And?)
  {
    var v := RegRead(s, inst.rs1);
    match inst
    case Andi(_, _, imm) => BitAnd(v, Sext12(imm))
    case Srli(_, _, n) => Srl(v, n)
    case Srai(_, _, n) => Sra(v, n)
    case Sub(_, _, rs2) => Difference(v, RegRead(s, rs2))
    case Xor(_, _, rs2) => BitXor(v, RegRead(s, rs2))
    case Or(_, _, rs2) => BitOr(v, RegRead(s, rs2))
    case And(_, _, rs2) => BitAnd(v, RegRead(s, rs2))
  }

  lemma AluMeans(t: State, inst: Inst, s: State, fires: bool)
    requires s.Valid() && (inst.Andi? || inst.Srli? || inst.Srai? || inst.Sub? || inst.Xor? || inst.Or? || inst.And?)
    requires Advance(t) == WriteNext(s, inst.rd, AluValue(inst, s), 2).st
    ensures Matches(t, false, inst, s, fires) && Faithful(inst, s, fires)
  {
    hide RegRead, Sum, Minus, Difference, BitAnd, BitOr, BitXor, Sll, Srl, Sra, Sext12;
  }

  /** The code's choice among c.andi, c.sub, c.xor, c.or and c.and. */
  function CodeAlu(c: bv16, v1: bv32, v2: bv32): bv32 {
    if F2(c) == 2 then BitAnd(v1, CodeImm6(c as bv32))
    else if AluField(c) == 0 then Difference(v1, v2)
    else if AluField(c) == 1 then BitXor(v1, v2)
    else if AluField(c) == 2 then BitOr(v1, v2)
    else BitAnd(v1, v2)
  }

  lemma AluExpansion(c: bv16, s: State)
    requires s.Valid() && F2(c) != 0 && F2(c) != 1 && ExpandAlu(c).Some?
    ensures var inst := ExpandAlu(c).value;
      && (inst.Andi? || inst.Sub? || inst.Xor? || inst.Or? || inst.And?)
      && inst.rd == RegHigh(c)
      && AluValue(inst, s) == CodeAlu(c, RegRead(s, RegHigh(c)), RegRead(s, RegLow(c)))
  {
    hide F2, AluField, Bit12, RegHigh, RegLow, RegRead, Imm6, CodeImm6, Sext12, BitAnd, BitOr, BitXor, Minus, Sh;
    Imm6Code(c);
  }

  class Core {
    var st: State

    constructor (s: State)
      ensures st == s
    {
      st := s;
    }

    method RaiseIllegal(c: bv16)
      requires st.Valid()
      modifies this
      ensures st == Take(old(st), Exception(2, c as bv32), old(st).pc)
    {
      st := Take(st, Exception(2, c as bv32), st.pc);
    }

    /** c.lw and c.lwsp */
    method LoadAndStep(a: bv32, rd: bv5, fires: bool) returns (ret: bool, ghost trapped: bool)
      requires st.Valid()
      modifies this
      ensures ret && trapped == LoadWord(old(st), a, rd, fires).trapped
      ensures Advance(st) == Finish(LoadWord(old(st), a, rd, fires), 2).st
              <==> HandlerElsewhere(old(st), a, Load, fires)
    {
      hide LoadWord, AccessFault, HandlerElsewhere, HandlerBase, Sum, Minus, Finish;
      var saved := st.pc;
      ghost var o := LoadWord(st, a, rd, fires);
      trapped := o.trapped;
      LoadOutcome(st, a, rd, fires);
      SavedPcTest(st, a, Load, fires, o);
      StepTwoMoves(saved);
      st := LoadWord(st, a, rd, fires).st;
      if st.pc == saved { st := st.(pc := Minus(st.pc, 2)); }
      ret := st.pc != saved;
    }

    /** c.sw and c.swsp */
    method StoreAndStep(a: bv32, v: bv32, fires: bool) returns (ret: bool, ghost trapped: bool)
      requires st.Valid()
      modifies this
      ensures ret && trapped == StoreWord(old(st), a, v, fires).trapped
      ensures Advance(st) == Finish(StoreWord(old(st), a, v, fires), 2).st
              <==> HandlerElsewhere(old(st), a, Store, fires)
    {
      hide StoreWord, AccessFault, HandlerElsewhere, HandlerBase, Sum, Minus, Finish;
      var saved := st.pc;
      ghost var o := StoreWord(st, a, v, fires);
      trapped := o.trapped;
      StoreOutcome(st, a, v, fires);
      SavedPcTest(st, a, Store, fires, o);
      StepTwoMoves(saved);
      st := StoreWord(st, a, v, fires).st;
      if st.pc == saved { st := st.(pc := Minus(st.pc, 2)); }
      ret := st.pc != saved;
    }

    /** Writes a register and falls through. */
    method WriteAndStep(rd: bv5, v: bv32)
      requires st.Valid()
      modifies this
      ensures Advance(st) == WriteNext(old(st), rd, v, 2).st
    {
      hide Sum, Minus;
      StepTwo(st.pc);
      st := RegWrite(st, rd, v);
      st := st.(pc := Minus(st.pc, 2));
    }

    /** Quadrant 0 */
    method ExecQuadrant0(c: bv16, fires: bool) returns (ret: bool, ghost trapped: bool)
      requires st.Valid() && Quadrant(c) == 0 && F3(c) & 1 == 0
      modifies this
      ensures Executes(st, ret, trapped, c, old(st), fires)
    {
      hide Quadrant, RegHigh, RegLow, CodeHigh, CodeLow, RegRead, Sum, Minus, Sext12, LoadWord, StoreWord;
      hide Nzuimm, UimmLs, CodeAddi4spn, CodeLs, HandlerElsewhere, Expand1, Expand2, ExpandAlu, ExpandReg, Advance;
      HighCode(c);
      LowCode(c);
      var rs1, rd := CodeHigh(c), CodeLow(c);
      if F3(c) == 0 {
        var nzuimm := CodeAddi4spn(c as bv32);
        Addi4spnImm(c);
        Addi4spnZero(c);
        if nzuimm == 0 {
          RaiseIllegal(c);
          return true, true;
        }
        WriteAndStep(rd, Sum(RegRead(st, 2), nzuimm));
        return false, false;
      } else if F3(c) == 2 {
        LsImm(c);
        ret, trapped := LoadAndStep(Sum(RegRead(st, rs1), CodeLs(c as bv32)), rd, fires);
      } else if F3(c) == 6 {
        LsImm(c);
        ret, trapped := StoreAndStep(Sum(RegRead(st, rs1), CodeLs(c as bv32)), RegRead(st, rd), fires);
      } else {
        RaiseIllegal(c);
        return true, true;
      }
    }

    /** c.j, c.jal, c.beqz and c.bnez when taken */
    method JumpBy(off: bv32)
      modifies this
      ensures Advance(st) == old(st).(pc := Sum(old(st).pc, off))
    {
      hide Sum, Minus;
      var target := Sum(st.pc, off);
      BackAndForth(target);
      st := st.(pc := Minus(target, 4));
    }

    /** c.jal and c.j */
    method ExecJumps(c: bv16, ghost fires: bool) returns (ret: bool, ghost trapped: bool)
      requires st.Valid() && Quadrant(c) == 1 && (F3(c) == 1 || F3(c) == 5)
      modifies this
      ensures Executes(st, ret, trapped, c, old(st), fires)
    {
      hide Quadrant, Sum, Minus, Sext21, OffJ, OffB, CodeJal, RegHigh;
      hide Expand0, Expand2, ExpandAlu, ExpandReg, RdField;
      JalImm(c);
      if F3(c) == 1 {
        st := RegWrite(st, 1, Sum(st.pc, 2));
      }
      JumpBy(CodeJal(c as bv32));
      return false, false;
    }

    /** c.beqz and c.bnez */
    method ExecBranches(c: bv16, ghost fires: bool) returns (ret: bool, ghost trapped: bool)
      requires st.Valid() && Quadrant(c) == 1 && (F3(c) == 6 || F3(c) == 7)
      modifies this
      ensures Executes(st, ret, trapped, c, old(st), fires)
    {
      hide Quadrant, RegHigh, CodeHigh, RegRead, Sum, Minus, Sext13, OffJ, OffB, CodeBranch;
      hide Expand0, Expand2, ExpandAlu, ExpandReg, RdField;
      BranchImm(c);
      HighCode(c);
      ZeroReads(st);
      StepTwo(st.pc);
      var v := RegRead(st, CodeHigh(c));
      if (F3(c) == 6 && v == 0) || (F3(c) == 7 && v != 0) {
        JumpBy(CodeBranch(c as bv32));
      } else {
        st := st.(pc := Minus(st.pc, 2));
      }
      return false, false;
    }

    /** c.addi, c.li, c.addi16sp, c.lui */
    method ExecImmediates(c: bv16, ghost fires: bool) returns (ret: bool, ghost trapped: bool)
      requires st.Valid() && Quadrant(c) == 1 && (F3(c) == 0 || F3(c) == 2 || F3(c) == 3)
      modifies this
      ensures Executes(st, ret, trapped, c, old(st), fires)
    {
      hide Quadrant, RdField, RegRead, Sum, Minus, Sext12, Imm6, Imm16sp, Upper, UpperImmediate;
      hide CodeImm6, CodeAddi16sp, CodeLui, Expand0, Expand2, ExpandAlu, ExpandReg, Advance;
      var rd := RdField(c);
      ghost var s := st;
      ZeroReads(s);
      Imm6Code(c);
      Addi16spImm(c);
      LuiImm(c);
      FromZero(Sext12(Imm6(c)));
      if F3(c) == 0 {
        WriteAndStep(rd, Sum(RegRead(st, rd), CodeImm6(c as bv32)));
      } else if F3(c) == 2 {
        WriteAndStep(rd, CodeImm6(c as bv32));
      } else if rd == 2 {
        WriteAndStep(2, Sum(RegRead(st, 2), CodeAddi16sp(c as bv32)));
      } else if rd != 0 {
        WriteAndStep(rd, CodeLui(c as bv32));
      } else {
        RaiseIllegal(c);
        return true, true;
      }
      return false, false;
    }

    /** c.srli and c.srai */
    method ExecShift(c: bv16, ghost fires: bool) returns (ret: bool, ghost trapped: bool)
      requires st.Valid() && Quadrant(c) == 1 && F3(c) == 4 && (F2(c) == 0 || F2(c) == 1)
      modifies this
      ensures Executes(st, ret, trapped, c, old(st), fires)
    {
      hide Quadrant, F3, F2, AluField, Bit12, Sh, CodeShamt, RegHigh, CodeHigh, RegRead, Srl, Sra, BitAnd, Minus;
      hide Expand0, Expand1, Expand2, ExpandReg, Advance, Matches, Faithful, WriteNext;
      HighCode(c);
      ShamtCode(c);
      ShamtZero(c);
      var rd := CodeHigh(c);
      var shamt := CodeShamt(c as bv32);
      var val := RegRead(st, rd);
      if shamt == 0 {
        RaiseIllegal(c);
        return true, true;
      }
      var n := (shamt & 0x1F) as bv5;
      ghost var s := st;
      WriteAndStep(rd, if F2(c) == 0 then Srl(val, n) else Sra(val, n));
      if Expand(c).Some? { AluMeans(st, Expand(c).value, s, fires); }
      return false, false;
    }

    /** c.andi, c.sub, c.xor, c.or and c.and */
    method ExecAlu(c: bv16, ghost fires: bool) returns (ret: bool, ghost trapped: bool)
      requires st.Valid() && Quadrant(c) == 1 && F3(c) == 4 && (F2(c) == 2 || F2(c) == 3)
      modifies this
      ensures Executes(st, ret, trapped, c, old(st), fires)
    {
      hide Quadrant, F3, F2, CodeAlu, RegHigh, RegLow, CodeHigh, CodeLow, RegRead;
      hide Expand0, Expand1, ExpandAlu, Expand2, ExpandReg, AluValue, Advance, Matches, Faithful, WriteNext;
      HighCode(c);
      LowCode(c);
      ghost var s := st;
      var rd := CodeHigh(c);
      WriteAndStep(rd, CodeAlu(c, RegRead(st, rd), RegRead(st, CodeLow(c))));
      if Expand(c).Some? {
        AluExpansion(c, s);
        AluMeans(st, Expand(c).value, s, fires);
      }
      return false, false;
    }

    /** c.slli, c.lwsp, c.swsp, and the encodings of quadrant 2 the executor refuses */
    method ExecStack(c: bv16, fires: bool) returns (ret: bool, ghost trapped: bool)
      requires st.Valid() && Quadrant(c) == 2 && F3(c) != 4
      modifies this
      ensures Executes(st, ret, trapped, c, old(st), fires)
    {
      hide Quadrant, RdField, Rs2Field, Bit12, Sh, CodeShamt, RegRead, Sll, Sum, Minus, Sext12;
      hide UimmLwsp, UimmSwsp, CodeLwsp, CodeSwsp, LoadWord, StoreWord, HandlerElsewhere;
      hide Expand0, Expand1, ExpandAlu, ExpandReg, Advance;
      var rd := RdField(c);
      if F3(c) == 0 {
        ShamtCode(c);
        ShamtZero(c);
        var shamt := CodeShamt(c as bv32);
        if shamt == 0 {
          RaiseIllegal(c);
          return true, true;
        }
        WriteAndStep(rd, Sll(RegRead(st, rd), (shamt & 0x1F) as bv5));
        return false, false;
      } else if F3(c) == 2 && rd != 0 {
        LwspImm(c);
        ret, trapped := LoadAndStep(Sum(RegRead(st, 2), CodeLwsp(c as bv32)), rd, fires);
      } else if F3(c) == 6 {
        SwspImm(c);
        ret, trapped := StoreAndStep(Sum(RegRead(st, 2), CodeSwsp(c as bv32)), RegRead(st, Rs2Field(c)), fires);
      } else {
        RaiseIllegal(c);
        return true, true;
      }
    }

    /** The register jumps: a link written to x1 is what a jump through x1 then reads. */
    method JumpToRegister(rs1: bv5, link: bool, ghost fires: bool) returns (ret: bool, ghost trapped: bool)
      requires st.Valid() && rs1 != 0
      modifies this
      ensures var inst := Jalr(if link then 1 else 0, rs1, 0);
        Matches(st, trapped, inst, old(st), fires) <==> Faithful(inst, old(st), fires)
      ensures ret == trapped
    {
      hide Sum, Minus, Take, Even, Sext12;
      ZeroDisplacement(RegRead(st, rs1));
      if RegRead(st, rs1) & 1 != 0 {
        st := Take(st, Exception(0, RegRead(st, rs1)), st.pc);
        return true, true;
      }
      if link { st := RegWrite(st, 1, Sum(st.pc, 2)); }
      var target := RegRead(st, rs1);
      BackAndForth(target);
      st := st.(pc := Minus(target, 4));
      return false, false;
    }

    /** c.jr, c.mv, c.ebreak, c.jalr and c.add */
    method ExecRegister(c: bv16, ghost fires: bool) returns (ret: bool, ghost trapped: bool)
      requires st.Valid() && Quadrant(c) == 2 && F3(c) == 4
      modifies this
      ensures Executes(st, ret, trapped, c, old(st), fires)
    {
      hide Quadrant, F3, RdField, Rs2Field, Bit12, RegRead, Sum, Minus, Take, Even, Sext12;
      hide Expand0, Expand1, Expand2, ExpandAlu;
      var rs1, rs2 := RdField(c), Rs2Field(c);
      ZeroReads(st);
      FromZero(RegRead(st, rs2));
      if !Bit12(c) && rs2 == 0 && rs1 == 0 {
        st := st.(pc := Minus(st.pc, 2));
        return false, false;
      }
      if Bit12(c) && rs1 == 0 {
        st := Take(st, Exception(3, 0), st.pc);
        return true, true;
      }
      if rs2 == 0 {
        ret, trapped := JumpToRegister(rs1, Bit12(c), fires);
        return;
      }
      WriteAndStep(rs1, if Bit12(c) then Sum(RegRead(st, rs1), RegRead(st, rs2)) else RegRead(st, rs2));
      return false, false;
    }

    /**
      exec_c_insn on an integer encoding, followed by the loop's pc += 4, does
      what the expansion of the encoding means, with 2 for the distance to the
      next instruction, exactly when the state is `Faithful` to it.
     */
    method ExecCompressed(c: bv16, fires: bool) returns (ret: bool, ghost trapped: bool)
      requires st.Valid() && Quadrant(c) != 3
      requires Quadrant(c) == 0 ==> F3(c) & 1 == 0
      modifies this
      ensures Executes(st, ret, trapped, c, old(st), fires)
    {
      hide Executes;
      if Quadrant(c) == 0 { ret, trapped := ExecQuadrant0(c, fires); }
      else if Quadrant(c) == 1 {
        match F3(c) {
          case 1 | 5 => ret, trapped := ExecJumps(c, fires);
          case 6 | 7 => ret, trapped := ExecBranches(c, fires);
          case 4 =>
            if F2(c) == 0 || F2(c) == 1 { ret, trapped := ExecShift(c, fires); }
            else { ret, trapped := ExecAlu(c, fires); }
          case _ => ret, trapped := ExecImmediates(c, fires);
        }
      }
      else if F3(c) == 4 { ret, trapped := ExecRegister(c, fires); }
      else { ret, trapped := ExecStack(c, fires); }
    }
  }

  // ---------------------------------------------------------------------
  // The two decoders side by side
  // ---------------------------------------------------------------------

  /** The same, with 2 against 4 for the distance to the next instruction: in the pc, or in the link. */
  ghost predicate SameButLength(short: Outcome, long: Outcome, inst: Inst, s: State)
    requires s.Valid()
  {
    && short.trapped == long.trapped
    && short.st.Valid()
    && if short.trapped then short.st == long.st
       else if inst.Jal? || inst.Jalr? then
         && long.st == RegWrite(short.st, inst.rd, Sum(s.pc, 4))
         && (inst.rd != 0 ==> RegRead(short.st, inst.rd) == Sum(s.pc, 2))
       else if (inst.Beq? || inst.Bne?) && short.st == long.st then true
       else short.st.pc == Sum(s.pc, 2) && long.st == short.st.(pc := Sum(s.pc, 4))
  }

  lemma LengthOfAccess(inst: Inst, s: State, fires: bool)
    requires s.Valid() && (inst.Lw? || inst.Sw?)
    ensures SameButLength(Sem(inst, s, 2, fires), Sem(inst, s, 4, fires), inst, s)
  {
    hide RegRead, RegWrite, Sum, Sext12, LoadWord, StoreWord;
    var a := Sum(RegRead(s, inst.rs1), Sext12(inst.imm));
    if inst.Lw? { LoadKeepsPc(s, a, inst.rd, fires); }
    else { StoreKeepsPc(s, a, RegRead(s, inst.rs2), fires); }
  }

  lemma Relink(s: State, rd: bv5, v: bv32, w: bv32, target: bv32)
    requires s.Valid()
    ensures var t := RegWrite(s, rd, v).(pc := target);
      t.Valid() && RegWrite(t, rd, w) == RegWrite(s, rd, w).(pc := target) && (rd != 0 ==> RegRead(t, rd) == v)
  {}

  lemma LengthOfJump(inst: Inst, s: State, fires: bool)
    requires s.Valid() && (inst.Jal? || inst.Jalr?)
    ensures SameButLength(Sem(inst, s, 2, fires), Sem(inst, s, 4, fires), inst, s)
  {
    hide RegRead, RegWrite, Sum, Sext12, Sext21, Even;
    var target := if inst.Jal? then Sum(s.pc, Sext21(inst.off)) else Even(Sum(RegRead(s, inst.rs1), Sext12(inst.imm)));
    Relink(s, inst.rd, Sum(s.pc, 2), Sum(s.pc, 4), target);
  }

  lemma LengthOfBranch(inst: Inst, s: State, fires: bool)
    requires s.Valid() && (inst.Beq? || inst.Bne? || inst.Ebreak?)
    ensures SameButLength(Sem(inst, s, 2, fires), Sem(inst, s, 4, fires), inst, s)
  {
    hide RegRead, RegWrite, Sum, Sext13, Take;
  }

  lemma LengthOnly(inst: Inst, s: State, fires: bool)
    requires s.Valid()
    ensures SameButLength(Sem(inst, s, 2, fires), Sem(inst, s, 4, fires), inst, s)
    ensures Sem(inst, s, 2, fires).trapped == Sem(inst, s, 4, fires).trapped
  {
    hide RegRead, Sum, Minus, Difference, BitAnd, BitOr, BitXor, Sll, Srl, Sra, Even, UpperImmediate, Sext12, Sext13, Sext21;
    hide LoadWord, StoreWord, Take;
    if inst.Lw? || inst.Sw? { LengthOfAccess(inst, s, fires); }
    else if inst.Jal? || inst.Jalr? { LengthOfJump(inst, s, fires); }
    else if inst.Beq? || inst.Bne? || inst.Ebreak? { LengthOfBranch(inst, s, fires); }
  }

  /**
    From one state, exec_c_insn on an encoding and exec on the word its
    expansion encodes to: the same registers, memory, control registers and
    traps after the loop's step, but for the length.
   */
  method BothDecoders(c: bv16, s: State, fires: bool) returns (short: State, long: State)
    requires s.Valid() && s.pc & 1 == 0 && Expand(c).Some? && Faithful(Expand(c).value, s, fires)
    ensures var inst := Expand(c).value;
      var trapped := Sem(inst, s, 4, fires).trapped;
      SameButLength(Outcome(Advance(short), trapped), Outcome(Advance(long), trapped), inst, s)
  {
    hide Sem, SameButLength, Faithful, Advance, Encode, WellFormed;
    ghost var inst := Expand(c).value;
    IntegerEncoding(c);
    ExpansionWellFormed(c);
    var core := new Core(s);
    var hart := new Hart(s);
    var ret;
    ghost var trapped;
    ret, trapped := core.ExecCompressed(c, fires);
    hart.Exec(Encode(Expand(c).value), inst, fires, s.pc);
    LengthOnly(inst, s, fires);
    short, long := core.st, hart.st;
  }

  lemma IntegerEncoding(c: bv16)
    requires Expand(c).Some?
    ensures Quadrant(c) != 3 && (Quadrant(c) == 0 ==> F3(c) & 1 == 0)
  {
    hide Quadrant, Expand1, Expand2, ExpandAlu, ExpandReg;
  }
}
