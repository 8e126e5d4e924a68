/**
  The base instructions that compressed instructions expand to: their encodings
  (chapters 2 and 24 of the RISC-V Unprivileged ISA 20191213) and what one of
  them does to the machine, including the run loop's step to the next
  instruction.
 */
module Isa {
  import opened BitLaws
  import opened Machine
  import opened Trap
  import opened Mmu
  import opened MmuAccess

  datatype Inst =
    | Addi(rd: bv5, rs1: bv5, imm: bv12)
    | Andi(rd: bv5, rs1: bv5, imm: bv12)
    | Slli(rd: bv5, rs1: bv5, shamt: bv5)
    | Srli(rd: bv5, rs1: bv5, shamt: bv5)
    | Srai(rd: bv5, rs1: bv5, shamt: bv5)
    | Add(rd: bv5, rs1: bv5, rs2: bv5)
    | Sub(rd: bv5, rs1: bv5, rs2: bv5)
    | Xor(rd: bv5, rs1: bv5, rs2: bv5)
    | Or(rd: bv5, rs1: bv5, rs2: bv5)
    | And(rd: bv5, rs1: bv5, rs2: bv5)
    | Lui(rd: bv5, upper: bv20)
    | Lw(rd: bv5, rs1: bv5, imm: bv12)
    | Sw(rs2: bv5, rs1: bv5, imm: bv12)
    | Jal(rd: bv5, off: bv21)
    | Jalr(rd: bv5, rs1: bv5, imm: bv12)
    | Beq(rs1: bv5, rs2: bv5, dist: bv13)
    | Bne(rs1: bv5, rs2: bv5, dist: bv13)
    | Ebreak

  function Sext12(x: bv12): bv32 { if x & 0x800 != 0 then (x as bv32) | 0xFFFF_F000 else x as bv32 }
  function Sext13(x: bv13): bv32 { if x & 0x1000 != 0 then (x as bv32) | 0xFFFF_E000 else x as bv32 }
  function Sext21(x: bv21): bv32 { if x & 0x10_0000 != 0 then (x as bv32) | 0xFFE0_0000 else x as bv32 }

  // Word operations

  function Sll(a: bv32, n: bv5): bv32 { a << n }
  function Srl(a: bv32, n: bv5): bv32 { a >> n }
  function Even(a: bv32): bv32 { a & 0xFFFF_FFFE }
  function UpperImmediate(x: bv20): bv32 { (x as bv32) << 12 }

  /** Arithmetic right shift. */
  function Sra(x: bv32, n: bv5): bv32 {
    if x & 0x8000_0000 != 0 then Complement(Srl(Complement(x), n)) else Srl(x, n)
  }

  // ---------------------------------------------------------------------
  // Meaning
  // ---------------------------------------------------------------------

  /** The machine at the next fetch, and whether the instruction trapped. */
  datatype Outcome = Outcome(st: State, trapped: bool)

  /** The run loop's unconditional pc += 4. */
  function Advance(s: State): State { s.(pc := Sum(s.pc, 4)) }

  function Raise(s: State, code: bv5, tval: bv32): (o: Outcome)
    requires s.Valid()
    ensures o.st.Valid()
  {
    Outcome(Take(s, Exception(code, tval), s.pc), true)
  }

  /**
    insi_i_lw before the loop's step; a faulting load still writes zero to rd.
    `fires` says whether a debug trigger matches the access.
   */
  function LoadWord(s: State, a: bv32, rd: bv5, fires: bool): (o: Outcome)
    requires s.Valid()
    ensures o.st.Valid()
  {
    if fires then Raise(s, 3, a)
    else if a & 3 != 0 then Raise(s, 4, a)
    else
      var (s1, v) := MmuRead32(s, a);
      Outcome(RegWrite(s1, rd, v), Translate(s, a, Load).None?)
  }

  /** insi_s_sw before the loop's step */
  function StoreWord(s: State, a: bv32, v: bv32, fires: bool): (o: Outcome)
    requires s.Valid()
    ensures o.st.Valid()
  {
    if fires then Raise(s, 3, a)
    else if a & 3 != 0 then Raise(s, 6, a)
    else Outcome(MmuWrite32(s, a, v), Translate(s, a, Store).None?)
  }

  /** Falls through to the instruction `len` bytes on. */
  function Next(s: State, len: bv32): Outcome { Outcome(s.(pc := Sum(s.pc, len)), false) }

  function WriteNext(s: State, rd: bv5, v: bv32, len: bv32): Outcome
    requires s.Valid()
  {
    Next(RegWrite(s, rd, v), len)
  }

  /** Links and jumps. */
  function Jump(s: State, rd: bv5, target: bv32, len: bv32): Outcome
    requires s.Valid()
  {
    Outcome(RegWrite(s, rd, Sum(s.pc, len)).(pc := target), false)
  }

  function Branch(s: State, taken: bool, target: bv32, len: bv32): Outcome {
    if taken then Outcome(s.(pc := target), false) else Next(s, len)
  }

  /** A memory instruction: the trap handler, or the next instruction. */
  function Finish(o: Outcome, len: bv32): Outcome {
    if o.trapped then Outcome(Advance(o.st), true) else Next(o.st, len)
  }

  /** What `inst` of `len` bytes does. */
  function Sem(inst: Inst, s: State, len: bv32, fires: bool): Outcome
    requires s.Valid()
  {
    match inst
    case Addi(rd, rs1, imm) => WriteNext(s, rd, Sum(RegRead(s, rs1), Sext12(imm)), len)
    case Andi(rd, rs1, imm) => WriteNext(s, rd, BitAnd(RegRead(s, rs1), Sext12(imm)), len)
    case Slli(rd, rs1, n) => WriteNext(s, rd, Sll(RegRead(s, rs1), n), len)
    case Srli(rd, rs1, n) => WriteNext(s, rd, Srl(RegRead(s, rs1), n), len)
    case Srai(rd, rs1, n) => WriteNext(s, rd, Sra(RegRead(s, rs1), n), len)
    case Add(rd, rs1, rs2) => WriteNext(s, rd, Sum(RegRead(s, rs1), RegRead(s, rs2)), len)
    case Sub(rd, rs1, rs2) => WriteNext(s, rd, Difference(RegRead(s, rs1), RegRead(s, rs2)), len)
    case Xor(rd, rs1, rs2) => WriteNext(s, rd, BitXor(RegRead(s, rs1), RegRead(s, rs2)), len)
    case Or(rd, rs1, rs2) => WriteNext(s, rd, BitOr(RegRead(s, rs1), RegRead(s, rs2)), len)
    case And(rd, rs1, rs2) => WriteNext(s, rd, BitAnd(RegRead(s, rs1), RegRead(s, rs2)), len)
    case Lui(rd, upper) => WriteNext(s, rd, UpperImmediate(upper), len)
    case Lw(rd, rs1, imm) => Finish(LoadWord(s, Sum(RegRead(s, rs1), Sext12(imm)), rd, fires), len)
    case Sw(rs2, rs1, imm) => Finish(StoreWord(s, Sum(RegRead(s, rs1), Sext12(imm)), RegRead(s, rs2), fires), len)
    case Jal(rd, off) => Jump(s, rd, Sum(s.pc, Sext21(off)), len)
    case Jalr(rd, rs1, imm) => Jump(s, rd, Even(Sum(RegRead(s, rs1), Sext12(imm))), len)
    case Beq(rs1, rs2, dist) => Branch(s, RegRead(s, rs1) == RegRead(s, rs2), Sum(s.pc, Sext13(dist)), len)
    case Bne(rs1, rs2, dist) => Branch(s, RegRead(s, rs1) != RegRead(s, rs2), Sum(s.pc, Sext13(dist)), len)
    case Ebreak => var o := Raise(s, 3, 0); Outcome(Advance(o.st), true)
  }

  // ---------------------------------------------------------------------
  // Encoding
  // ---------------------------------------------------------------------

  function RType(f7: bv7, rs2: bv5, rs1: bv5, f3: bv3, rd: bv5, op: bv7): bv32 {
    ((f7 as bv32) << 25) | ((rs2 as bv32) << 20) | ((rs1 as bv32) << 15) | ((f3 as bv32) << 12)
    | ((rd as bv32) << 7) | (op as bv32)
  }

  function IType(imm: bv12, rs1: bv5, f3: bv3, rd: bv5, op: bv7): bv32 {
    ((imm as bv32) << 20) | ((rs1 as bv32) << 15) | ((f3 as bv32) << 12) | ((rd as bv32) << 7) | (op as bv32)
  }

  function SType(imm: bv12, rs2: bv5, rs1: bv5, f3: bv3, op: bv7): bv32 {
    var i := imm as bv32;
    ((i >> 5) << 25) | ((rs2 as bv32) << 20) | ((rs1 as bv32) << 15) | ((f3 as bv32) << 12)
    | ((i & 0x1F) << 7) | (op as bv32)
  }

  function BType(imm: bv13, rs2: bv5, rs1: bv5, f3: bv3, op: bv7): bv32 {
    var i := imm as bv32;
    (((i >> 12) & 1) << 31) | (((i >> 5) & 0x3F) << 25) | ((rs2 as bv32) << 20) | ((rs1 as bv32) << 15)
    | ((f3 as bv32) << 12) | (((i >> 1) & 0xF) << 8) | (((i >> 11) & 1) << 7) | (op as bv32)
  }

  function UType(upper: bv20, rd: bv5, op: bv7): bv32 {
    ((upper as bv32) << 12) | ((rd as bv32) << 7) | (op as bv32)
  }

  function JType(imm: bv21, rd: bv5, op: bv7): bv32 {
    var i := imm as bv32;
    (((i >> 20) & 1) << 31) | (((i >> 1) & 0x3FF) << 21) | (((i >> 11) & 1) << 20)
    | (((i >> 12) & 0xFF) << 12) | ((rd as bv32) << 7) | (op as bv32)
  }

  const OP: bv7 := 0x33
  const OP_IMM: bv7 := 0x13
  const LOAD: bv7 := 0x03
  const STORE: bv7 := 0x23
  const BRANCH: bv7 := 0x63
  const JAL: bv7 := 0x6F
  const JALR: bv7 := 0x67
  const LUI: bv7 := 0x37
  const SYSTEM: bv7 := 0x73

  function Encode(inst: Inst): bv32 {
    match inst
    case Addi(rd, rs1, imm) => IType(imm, rs1, 0, rd, OP_IMM)
    case Andi(rd, rs1, imm) => IType(imm, rs1, 7, rd, OP_IMM)
    case Slli(rd, rs1, n) => RType(0, n, rs1, 1, rd, OP_IMM)
    case Srli(rd, rs1, n) => RType(0, n, rs1, 5, rd, OP_IMM)
    case Srai(rd, rs1, n) => RType(0x20, n, rs1, 5, rd, OP_IMM)
    case Add(rd, rs1, rs2) => RType(0, rs2, rs1, 0, rd, OP)
    case Sub(rd, rs1, rs2) => RType(0x20, rs2, rs1, 0, rd, OP)
    case Xor(rd, rs1, rs2) => RType(0, rs2, rs1, 4, rd, OP)
    case Or(rd, rs1, rs2) => RType(0, rs2, rs1, 6, rd, OP)
    case And(rd, rs1, rs2) => RType(0, rs2, rs1, 7, rd, OP)
    case Lui(rd, upper) => UType(upper, rd, LUI)
    case Lw(rd, rs1, imm) => IType(imm, rs1, 2, rd, LOAD)
    case Sw(rs2, rs1, imm) => SType(imm, rs2, rs1, 2, STORE)
    case Jal(rd, off) => JType(off, rd, JAL)
    case Jalr(rd, rs1, imm) => IType(imm, rs1, 0, rd, JALR)
    case Beq(rs1, rs2, dist) => BType(dist, rs2, rs1, 0, BRANCH)
    case Bne(rs1, rs2, dist) => BType(dist, rs2, rs1, 1, BRANCH)
    case Ebreak => IType(1, 0, 0, 0, SYSTEM)
  }
}
