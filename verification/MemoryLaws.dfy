/**
  Loads, stores, page faults, the timer's registers and the register map of the
  interrupt controller, as a program sees them: in bytes, words and addresses.
 */
module MemoryLaws {
  import opened Wrappers
  import opened Words
  import opened Addresses
  import opened BitLaws
  import opened Machine
  import opened Memory
  import opened Trap
  import opened TrapLaws
  import opened Mmu
  import opened MmuAccess
  import opened Isa
  import opened IsaLaws
  import opened LrSc
  import opened AmoLaws
  import opened Csr
  import Plic
  import Uart

  // ---------------------------------------------------------------------
  // Faults
  // ---------------------------------------------------------------------

  /** A page fault is cause 12 for a fetch, 13 for a load and 15 for a store, with the address as its value. */
  lemma PageFaultRecorded(s: State, va: bv32, access: Access)
    requires s.Valid()
    ensures var t := Fault(s, va, access);
      var code: bv5 := if access == Fetch then 12 else if access == Load then 13 else 15;
      var delegated := (s.priv == User || s.priv == Supervisor) && s.csr.medeleg[code as nat];
      var cause := if delegated then t.csr.scause else t.csr.mcause;
      && !Bit(cause, 31) && cause & 0x7FFF_FFFF == code as bv32
      && (if delegated then t.csr.stval else t.csr.mtval) == va
      && (if delegated then t.csr.sepc else t.csr.mepc) == s.pc
      && t.priv == if delegated then Supervisor else Privilege.Machine
  {
    ExceptionRecorded(s, FaultCode(access), va, s.pc);
    hide Take, Bit;
  }

  /** What a word access that cannot be made does: breakpoint 3, misaligned load 4 or store 6, or the page fault. */
  lemma AccessTraps(s: State, a: bv32, rd: bv5, v: bv32, fires: bool)
    requires s.Valid()
    ensures fires ==>
      && LoadWord(s, a, rd, fires) == Outcome(Take(s, Exception(3, a), s.pc), true)
      && StoreWord(s, a, v, fires) == Outcome(Take(s, Exception(3, a), s.pc), true)
    ensures !fires && !WordAligned(a) ==>
      && LoadWord(s, a, rd, fires) == Outcome(Take(s, Exception(4, a), s.pc), true)
      && StoreWord(s, a, v, fires) == Outcome(Take(s, Exception(6, a), s.pc), true)
    ensures !fires && WordAligned(a) && Translate(s, a, Load).None? ==>
      LoadWord(s, a, rd, fires) == Outcome(RegWrite(Take(s, Exception(13, a), s.pc), rd, 0), true)
    ensures !fires && WordAligned(a) && Translate(s, a, Store).None? ==>
      StoreWord(s, a, v, fires) == Outcome(Take(s, Exception(15, a), s.pc), true)
  {
    hide Take, Translate, RegWrite;
  }

  // ---------------------------------------------------------------------
  // Words in main memory
  // ---------------------------------------------------------------------

  /** lw puts the word at the sum of register and offset into rd and changes nothing else. */
  lemma LwEffect(s: State, inst: Inst, len: bv32)
    requires s.Valid() && Identity(s) && inst.Lw?
    requires var a := Sum(RegRead(s, inst.rs1), Sext12(inst.imm)); WordAligned(a) && InRam(a)
    ensures var a := Sum(RegRead(s, inst.rs1), Sext12(inst.imm));
      var o := Sem(inst, s, len, false);
      && !o.trapped && |o.st.gpr| == 32
      && (inst.rd != 0 ==> RegRead(o.st, inst.rd) == RamWord(s.ram, a))
      && (forall r: bv5 :: r != inst.rd ==> RegRead(o.st, r) == RegRead(s, r))
      && o.st == s.(gpr := o.st.gpr, pc := Sum(s.pc, len))
  {
    hide Sum, Sext12, Identity, RamWord, InRam, LoadWord, RegRead, RegWrite;
    var a := Sum(RegRead(s, inst.rs1), Sext12(inst.imm));
    var v := RamWord(s.ram, a);
    LoadsRam(s, a, inst.rd);
    WriteReads(s, inst.rd, v, inst.rd);
    var t := RegWrite(s, inst.rd, v);
    forall r: bv5 | r != inst.rd ensures RegRead(t.(pc := Sum(s.pc, len)), r) == RegRead(s, r) {
      WriteReads(s, inst.rd, v, r);
      SameRegisters(t, Sum(s.pc, len), r);
      if r == 0 { ZeroReads(s, r); }
    }
    SameRegisters(t, Sum(s.pc, len), inst.rd);
  }

  lemma SameRegisters(t: State, pc: bv32, r: bv5)
    requires |t.gpr| == 32
    ensures RegRead(t.(pc := pc), r) == RegRead(t, r)
  {}

  lemma ZeroReads(s: State, r: bv5)
    requires |s.gpr| == 32 && r == 0
    ensures RegRead(s, r) == 0
  {}

  lemma LoadsRam(s: State, a: bv32, rd: bv5)
    requires s.Valid() && Identity(s) && WordAligned(a) && InRam(a)
    ensures LoadWord(s, a, rd, false) == Outcome(RegWrite(s, rd, RamWord(s.ram, a)), false)
  {
    ReadsRam(s, a);
    IdentityTranslates(s, a, Load);
    hide Identity, RamWord, InRam, MmuRead32, Translate, RegWrite;
  }

  lemma StoresRam(s: State, a: bv32, v: bv32)
    requires s.Valid() && Identity(s) && WordAligned(a) && InRam(a)
    ensures StoreWord(s, a, v, false) == Outcome(MmuWrite32(s, a, v), false)
  {
    IdentityTranslates(s, a, Store);
    hide Identity, InRam, MmuWrite32, Translate;
  }

  /** sw puts rs2 into the word at the sum, every other byte stays, and the reservation of the word goes. */
  lemma SwEffect(s: State, inst: Inst, len: bv32, x: bv32)
    requires s.Valid() && Identity(s) && inst.Sw?
    requires var a := Sum(RegRead(s, inst.rs1), Sext12(inst.imm)); WordAligned(a) && InRam(a)
    ensures var a := Sum(RegRead(s, inst.rs1), Sext12(inst.imm));
      var o := Sem(inst, s, len, false);
      && !o.trapped && RamWord(o.st.ram, a) == RegRead(s, inst.rs2)
      && ((forall i: bv2 :: x != Offset(a, i)) ==> RamByte(o.st.ram, x) == RamByte(s.ram, x))
      && o.st == s.(ram := o.st.ram, flags := s.flags - {KeyOf(a)}, pc := Sum(s.pc, len))
  {
    hide Sum, Sext12, Identity, RamWord, RamByte, RamStoreWord, InRam, MmuWrite32, KeyOf, Offset, RegRead, StoreWord;
    var a := Sum(RegRead(s, inst.rs1), Sext12(inst.imm));
    var v := RegRead(s, inst.rs2);
    StoresRam(s, a, v);
    WritesRam(s, a, v);
    if forall i: bv2 :: x != Offset(a, i) { OtherBytes(s.ram, a, v, x); }
  }

  // ---------------------------------------------------------------------
  // Bytes and halfwords in main memory
  // ---------------------------------------------------------------------

  lemma ByteReadsBack(s: State, a: bv32, v: bv8, x: bv32)
    requires s.Valid() && InRam(a)
    ensures var t := MemWrite8(s, a, v);
      && (InRam(x) ==> MemRead8(t, x).1 == if x == a then v else MemRead8(s, x).1)
      && t.devices == s.devices && t.clint == s.clint
  {
    hide InClint, InUart, InPlic, InPlicBytes, AboveRam, KeyOf;
    WindowsDisjoint(a);
    WindowsDisjoint(x);
  }

  lemma HalfInRam(a: bv32)
    requires a & 1 == 0 && InRam(a)
    ensures !AtLeast(a, 0xFFFF_EFFF) && Offset(a, 1) != a
  {}

  /** A halfword in main memory is its low byte and then its high byte. */
  lemma HalfReadsBack(s: State, a: bv32, v: bv16, x: bv32)
    requires s.Valid() && a & 1 == 0 && InRam(a)
    ensures var t := MemWrite16(s, a, v);
      && (InRam(x) && x == a ==> MemRead8(t, x).1 == (v & 0xFF) as bv8)
      && (InRam(x) && x == Offset(a, 1) ==> MemRead8(t, x).1 == (v >> 8) as bv8)
      && (InRam(x) && x != a && x != Offset(a, 1) ==> MemRead8(t, x).1 == MemRead8(s, x).1)
      && t.devices == s.devices && t.clint == s.clint
  {
    HalfInRam(a);
    FirstByte(a);
    HighByte(v);
    HalfWritten(s, a, v);
    hide InRam, Offset, MemRead8, MemWrite16;
    if InRam(x) {
      ReadsByte(s, x);
      ReadsByte(MemWrite16(s, a, v), x);
    }
  }

  lemma ReadsByte(s: State, x: bv32)
    requires s.Valid() && InRam(x)
    ensures MemRead8(s, x) == (s, RamByte(s.ram, x))
  {
    hide InClint, InUart, InPlic, InPlicBytes, AboveRam, RamByte;
    WindowsDisjoint(x);
  }

  lemma HalfWritten(s: State, a: bv32, v: bv16)
    requires s.Valid() && InRam(a) && !AtLeast(a, 0xFFFF_EFFF)
    ensures var t := MemWrite16(s, a, v);
      && t.ram == s.ram[Word(Offset(a, 0)) := (v & 0xFF) as bv8][Word(Offset(a, 1)) := ((v >> 8) & 0xFF) as bv8]
      && t.devices == s.devices && t.clint == s.clint
  {
    hide InClint, InUart, InPlic, AboveRam, AtLeast, KeyOf, Offset;
  }

  lemma HighByte(v: bv16) ensures ((v >> 8) & 0xFF) as bv8 == (v >> 8) as bv8 {}

  lemma ByteStored(s: State, a: bv32, v: bv32)
    requires s.Valid() && Identity(s) && InRam(a)
    ensures MemRead8(StoreAt(s, Byte, a, v), a).1 == (v & 0xFF) as bv8
  {
    hide Identity, InRam, MmuWrite8, MemRead8, MemWrite8;
    Write8UnderIdentity(s, a, (v & 0xFF) as bv8);
    ByteReadsBack(s, a, (v & 0xFF) as bv8, a);
  }

  lemma HalfStored(s: State, a: bv32, v: bv32)
    requires s.Valid() && Identity(s) && InRam(a) && !Misfits(a, Half)
    ensures var t := StoreAt(s, Half, a, v);
      && MemRead8(t, a).1 == (v & 0xFF) as bv8
      && MemRead8(t, Offset(a, 1)).1 == ((v >> 8) & 0xFF) as bv8
  {
    var h := (v & 0xFFFF) as bv16;
    SecondInRam(a);
    HalfInRam(a);
    HalfBytes(v);
    hide Identity, InRam, MmuWrite16, MemRead8, MemWrite16, Offset;
    Write16UnderIdentity(s, a, h);
    HalfReadsBack(s, a, h, a);
    HalfReadsBack(s, a, h, Offset(a, 1));
  }

  /** A store of any width that does not fit its address is cause 6; one that does stores the low bytes of rs2. */
  lemma StoreEffect(s: State, width: Width, imm: bv32, rs2: bv5, rs1: bv5)
    requires s.Valid() && Identity(s) && InRam(StoreAddress(s, imm, rs1))
    ensures var a := StoreAddress(s, imm, rs1);
      var v := RegRead(s, rs2);
      var t := StoreW(s, width, imm, rs2, rs1);
      if Misfits(a, width) then t == Take(s, Exception(6, a), s.pc)
      else match width
        case Byte => MemRead8(t, a).1 == (v & 0xFF) as bv8
        case Half => MemRead8(t, a).1 == (v & 0xFF) as bv8 && MemRead8(t, Offset(a, 1)).1 == ((v >> 8) & 0xFF) as bv8
        case Full => RamWord(t.ram, a) == v
  {
    hide StoreAddress, RegRead, Take, Identity, InRam, MemRead8, RamWord, Offset;
    var a, v := StoreAddress(s, imm, rs1), RegRead(s, rs2);
    if Misfits(a, width) {
      MisfitTraps(s, width, a, v);
    } else {
      hide MmuWrite8, MmuWrite16, MmuWrite32;
      match width
      case Byte => ByteStored(s, a, v);
      case Half => HalfStored(s, a, v);
      case Full => WritesRam(s, a, v);
    }
  }

  lemma MisfitTraps(s: State, width: Width, a: bv32, v: bv32)
    requires s.Valid() && Misfits(a, width)
    ensures StoreAt(s, width, a, v) == Take(s, Exception(6, a), s.pc)
  {
    hide Take;
  }

  lemma SecondInRam(a: bv32)
    requires a & 1 == 0 && InRam(a)
    ensures InRam(Offset(a, 1))
  {
    HalfInWord(a);
    hide WordIndex, Offset, ClintIndex, UartIndex, PlicIndex, HighIndex;
  }

  lemma HalfBytes(v: bv32)
    ensures (((v & 0xFFFF) as bv16) & 0xFF) as bv8 == (v & 0xFF) as bv8
    ensures (((v & 0xFFFF) as bv16) >> 8) as bv8 == ((v >> 8) & 0xFF) as bv8
  {}
}
