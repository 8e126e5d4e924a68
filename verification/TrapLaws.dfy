/**
  What a trap leaves behind and which interrupt is taken, in bit positions and
  numbers, without the functions that the trap unit computes with.
 */
module TrapLaws {
  import opened Wrappers
  import opened Words
  import opened BitLaws
  import opened Machine
  import opened Csr
  import opened Trap

  // ---------------------------------------------------------------------
  // Cause, value and address
  // ---------------------------------------------------------------------

  lemma ExceptionWord(code: bv5, tval: bv32)
    ensures var w := CauseWord(Exception(code, tval)); !Bit(w, 31) && w & 0x7FFF_FFFF == code as bv32
  {}

  lemma InterruptWord(irq: bv5)
    ensures var w := CauseWord(Interrupt(irq)); Bit(w, 31) && w & 0x7FFF_FFFF == irq as bv32
  {}

  lemma MachineRecords(s: State, c: Cause, epc: bv32)
    ensures var t := EnterMachine(s, c, epc);
      && t.priv == Privilege.Machine && t.csr.mepc == epc && t.csr.mcause == CauseWord(c)
      && t.csr.mtval == (if c.Exception? then c.tval else 0)
      && t.csr.sepc == s.csr.sepc && t.csr.scause == s.csr.scause && t.csr.stval == s.csr.stval
  {
    hide CauseWord, PushMachine, Vector;
  }

  lemma SupervisorRecords(s: State, c: Cause, epc: bv32)
    ensures var t := EnterSupervisor(s, c, epc);
      && t.priv == Supervisor && t.csr.sepc == epc && t.csr.scause == CauseWord(c)
      && t.csr.stval == (if c.Exception? then c.tval else 0)
      && t.csr.mepc == s.csr.mepc && t.csr.mcause == s.csr.mcause && t.csr.mtval == s.csr.mtval
  {
    hide CauseWord, PushSupervisor, Vector;
  }

  /** An exception is recorded at the level it is taken to, S exactly if medeleg says so and it came from U or S. */
  lemma ExceptionRecorded(s: State, code: bv5, tval: bv32, epc: bv32)
    ensures var t := Take(s, Exception(code, tval), epc);
      if (s.priv == User || s.priv == Supervisor) && s.csr.medeleg[code as int] then
        && t.priv == Supervisor && t.csr.sepc == epc && t.csr.stval == tval
        && !Bit(t.csr.scause, 31) && t.csr.scause & 0x7FFF_FFFF == code as bv32
        && t.csr.mepc == s.csr.mepc && t.csr.mcause == s.csr.mcause && t.csr.mtval == s.csr.mtval
      else
        && t.priv == Privilege.Machine && t.csr.mepc == epc && t.csr.mtval == tval
        && !Bit(t.csr.mcause, 31) && t.csr.mcause & 0x7FFF_FFFF == code as bv32
        && t.csr.sepc == s.csr.sepc && t.csr.scause == s.csr.scause && t.csr.stval == s.csr.stval
  {
    ExceptionWord(code, tval);
    hide Bit, CauseWord, EnterMachine, EnterSupervisor;
    MachineRecords(s.(flags := map[]), Exception(code, tval), epc);
    SupervisorRecords(s.(flags := map[]), Exception(code, tval), epc);
  }

  /** An interrupt likewise, by mideleg, with bit 31 set, no value, and the interrupted pc. */
  lemma InterruptRecorded(s: State, irq: bv5)
    ensures var t := Take(s, Interrupt(irq), s.pc);
      if (s.priv == User || s.priv == Supervisor) && s.csr.mideleg[irq as int] then
        && t.priv == Supervisor && t.csr.sepc == s.pc && t.csr.stval == 0
        && Bit(t.csr.scause, 31) && t.csr.scause & 0x7FFF_FFFF == irq as bv32
        && t.csr.mepc == s.csr.mepc && t.csr.mcause == s.csr.mcause && t.csr.mtval == s.csr.mtval
      else
        && t.priv == Privilege.Machine && t.csr.mepc == s.pc && t.csr.mtval == 0
        && Bit(t.csr.mcause, 31) && t.csr.mcause & 0x7FFF_FFFF == irq as bv32
        && t.csr.sepc == s.csr.sepc && t.csr.scause == s.csr.scause && t.csr.stval == s.csr.stval
  {
    InterruptWord(irq);
    hide Bit, CauseWord, EnterMachine, EnterSupervisor;
    MachineRecords(s.(flags := map[]), Interrupt(irq), s.pc);
    SupervisorRecords(s.(flags := map[]), Interrupt(irq), s.pc);
  }

  /** The base of a vector register is its address without the mode bits. */
  lemma BaseBit(tvec: bv32, i: bv5)
    ensures Bit(VectorBase(tvec), i) == (i >= 2 && Bit(tvec, i))
  {}

  lemma Slots()
    ensures Slot(1) == 4 && Slot(3) == 12 && Slot(5) == 20 && Slot(7) == 28 && Slot(9) == 36 && Slot(11) == 44
  {}

  /** Four times the number of each interrupt that is ever taken. */
  lemma SlotIsFourfold(irq: bv5)
    requires Rank(irq) < 6
    ensures Unsigned(Slot(irq)) == 4 * (irq as nat)
  {
    Slots();
    SmallWords();
    hide Unsigned, Slot;
  }

  lemma SmallWords()
    ensures Unsigned(4) == 4 && Unsigned(12) == 12 && Unsigned(20) == 20
    ensures Unsigned(28) == 28 && Unsigned(36) == 36 && Unsigned(44) == 44
  {
    FirstSlots();
    LastSlots();
    hide Unsigned;
  }

  lemma FirstSlots()
    ensures Unsigned(4) == 4 && Unsigned(12) == 12 && Unsigned(20) == 20
  {
    HighZero(4, 4);
    HighZero(12, 4);
    HighZero(20, 4);
  }

  lemma LastSlots()
    ensures Unsigned(28) == 28 && Unsigned(36) == 36 && Unsigned(44) == 44
  {
    HighZero(28, 5);
    HighZero(36, 5);
    HighZero(44, 5);
  }

  /**
    Where a trap goes: an exception four bytes before its handler, for the run
    loop to add; an interrupt to the base, or four times its number past it in
    vectored mode.
   */
  lemma EntersAtVector(s: State, c: Cause)
    requires c.Interrupt? ==> Rank(c.irq) < 6
    ensures var t := Take(s, c, s.pc);
      var tvec := if t.priv == Supervisor then s.csr.stvec else s.csr.mtvec;
      var base := VectorBase(tvec);
      && (c.Exception? ==> Sum(t.pc, 4) == base)
      && (c.Interrupt? && !Bit(tvec, 0) ==> t.pc == base)
      && (c.Interrupt? && Bit(tvec, 0) ==>
            Unsigned(t.pc) == (Unsigned(base) + 4 * (c.irq as nat)) % 0x1_0000_0000)
  {
    var t := Take(s, c, s.pc);
    var tvec := if t.priv == Supervisor then s.csr.stvec else s.csr.mtvec;
    var base := VectorBase(tvec);
    PcIsVector(s, c);
    LowBit(tvec);
    hide Take, Bit, VectorBase, Slot, Sum, Minus, Unsigned, Rank;
    FourBack(base);
    if c.Interrupt? {
      SlotIsFourfold(c.irq);
      SumModulo(base, Slot(c.irq));
    }
  }

  lemma PcIsVector(s: State, c: Cause)
    ensures var t := Take(s, c, s.pc);
      t.pc == Vector(if t.priv == Supervisor then s.csr.stvec else s.csr.mtvec, c)
  {
    hide Vector, PushMachine, PushSupervisor, CauseWord, Delegated;
  }

  // ---------------------------------------------------------------------
  // The status word
  // ---------------------------------------------------------------------

  /** Bits 0, 1, 3 to 5, 7, 8 and 11 to 22 of mstatus can be written. */
  predicate Writable(i: nat) { i <= 1 || 3 <= i <= 5 || i == 7 || i == 8 || 11 <= i <= 22 }

  lemma StatusWrites(v: Bits, i: nat)
    requires i < 32
    ensures MstatusWrite(v)[i] == (v[i] && (i in {0, 1, 3, 4, 5, 7, 8} || 11 <= i <= 22))
    ensures SstatusRead(v)[i] == (v[i] && (i in {0, 1, 4, 5, 8, 18, 19} || 13 <= i <= 16))
    ensures ReadSie(v)[i] == (v[i] && i in {1, 5, 9})
  {}

  /** Machine-level entry: MPP (12:11) takes the privilege, MPIE (7) takes MIE (3), MIE clears. */
  lemma MachineEntryBits(m: Bits, p: Privilege, i: nat)
    requires i < 32
    ensures PushMachine(m, p)[i] ==
      if i == 3 then false
      else if i == 7 then m[3]
      else if i == 11 then p == Supervisor || p == Privilege.Machine
      else if i == 12 then p == Hypervisor || p == Privilege.Machine
      else m[i] && (i in {0, 1, 4, 5, 8} || 13 <= i <= 22)
  {
    StatusWrites(WithMpp(m, p)[MPIE := m[MIE]][MIE := false], i);
    hide MstatusWrite;
  }

  /** Supervisor-level entry: SPP (8), SPIE (5), SIE (1). */
  lemma SupervisorEntryBits(m: Bits, p: Privilege, i: nat)
    requires i < 32
    ensures PushSupervisor(m, p)[i] ==
      if i == 1 then false else if i == 5 then m[1] else if i == 8 then p == Supervisor else m[i]
  {}

  lemma MachineReturnBits(m: Bits, i: nat)
    requires i < 32
    ensures PopMachine(m)[i] ==
      if i == 3 then m[7] else if i == 7 then true else if i == 11 || i == 12 then false else m[i]
  {}

  lemma SupervisorReturnBits(m: Bits, i: nat)
    requires i < 32
    ensures PopSupervisor(m)[i] ==
      if i == 1 then m[5] else if i == 5 then true else if i == 8 then false else m[i]
  {}

  /** mret and sret: the privilege saved, and four bytes before the saved pc. */
  lemma Returns(s: State)
    ensures Mret(s).pc == s.csr.mepc - 4
    ensures Mret(s).priv == if s.csr.mstatus[12] then (if s.csr.mstatus[11] then Privilege.Machine else Hypervisor)
                            else if s.csr.mstatus[11] then Supervisor else User
    ensures s.priv != Supervisor || !s.csr.mstatus[22] ==>
      Sret(s).pc == s.csr.sepc - 4 && Sret(s).priv == if s.csr.mstatus[8] then Supervisor else User
    ensures s.priv == Supervisor && s.csr.mstatus[22] ==> Sret(s) == Take(s, Exception(2, 0x1020_0073), s.pc)
  {
    hide Take, PopMachine, PopSupervisor;
  }

  // ---------------------------------------------------------------------
  // Which interrupt
  // ---------------------------------------------------------------------

  /** The order of the source: MEI, MSI, MTI, SEI, SSI, STI. */
  function Rank(irq: bv5): nat {
    if irq == 11 then 0 else if irq == 3 then 1 else if irq == 7 then 2
    else if irq == 9 then 3 else if irq == 1 then 4 else if irq == 5 then 5 else 6
  }

  /** Pending in sip, enabled and delegated. */
  predicate SupervisorSees(s: State, l: Lines, i: nat)
    requires i < 32
  {
    i in {1, 5, 9} && ReadSip(s.csr.mip, l)[i] && s.csr.mie[i] && s.csr.mideleg[i]
  }

  /** May be taken through the supervisor's gate: SIE at S, UIE at U and at the unused level. */
  predicate SupervisorTakes(s: State, l: Lines, i: nat)
    requires i < 32
  {
    && s.priv != Privilege.Machine
    && s.csr.mstatus[if s.priv == Supervisor then 1 else 0]
    && SupervisorSees(s, l, i)
  }

  /** May be taken through MIE: pending in mip and enabled, and below machine level not the supervisor's. */
  predicate MachineTakes(s: State, l: Lines, i: nat)
    requires i < 32
  {
    && s.csr.mstatus[3]
    && ReadMip(s.csr.mip, l)[i] && s.csr.mie[i]
    && (s.priv != Privilege.Machine ==> !SupervisorSees(s, l, i))
  }

  /** Nothing, or the first of the lines in `p`, in the order of the source. */
  predicate IsFirst(choice: Option<bv5>, p: Bits) {
    match choice
    case None => !p[11] && !p[3] && !p[7] && !p[9] && !p[1] && !p[5]
    case Some(irq) =>
      && Rank(irq) < 6 && p[irq as nat]
      && (Rank(irq) > 0 ==> !p[11]) && (Rank(irq) > 1 ==> !p[3]) && (Rank(irq) > 2 ==> !p[7])
      && (Rank(irq) > 3 ==> !p[9]) && (Rank(irq) > 4 ==> !p[1])
  }

  lemma FirstForSupervisor(p: Bits)
    requires !p[11] && !p[3] && !p[7]
    ensures IsFirst(PickSupervisor(p), p)
  {}

  lemma FirstForMachine(p: Bits)
    ensures IsFirst(PickMachine(p), p)
  {}

  lemma SupervisorPool(s: State, l: Lines, i: nat)
    requires i < 32
    ensures ForSupervisor(s, l)[i] == SupervisorSees(s, l, i)
  {
    hide ReadSip;
  }

  lemma MachinePool(s: State, l: Lines, i: nat)
    requires i < 32 && s.csr.mstatus[3]
    ensures s.priv != Privilege.Machine ==> ForMachine(s, l)[i] == MachineTakes(s, l, i)
    ensures s.priv == Privilege.Machine ==> And(ReadMip(s.csr.mip, l), s.csr.mie)[i] == MachineTakes(s, l, i)
  {
    SupervisorPool(s, l, i);
    hide ReadMip, ForSupervisor, SupervisorSees;
  }

  function ThroughSupervisor(s: State, l: Lines): Bits {
    seq(32, i requires 0 <= i < 32 => SupervisorTakes(s, l, i))
  }

  function ThroughMachine(s: State, l: Lines): Bits {
    seq(32, i requires 0 <= i < 32 => MachineTakes(s, l, i))
  }

  lemma SupervisorChoice(s: State, l: Lines)
    requires s.priv != Privilege.Machine
    ensures var gate := s.csr.mstatus[if s.priv == Supervisor then 1 else 0];
      IsFirst(if gate then PickSupervisor(ForSupervisor(s, l)) else None, ThroughSupervisor(s, l))
  {
    hide PickSupervisor, PickMachine, ForSupervisor, ReadSip, IsFirst;
    var p := ThroughSupervisor(s, l);
    if s.csr.mstatus[if s.priv == Supervisor then 1 else 0] {
      forall i: nat | i < 32 ensures ForSupervisor(s, l)[i] == p[i] { SupervisorPool(s, l, i); }
      assert ForSupervisor(s, l) == p;
      FirstForSupervisor(p);
    } else {
      NoneIsFirst(p);
    }
  }

  lemma NoneIsFirst(p: Bits)
    requires forall i :: 0 <= i < 32 ==> !p[i]
    ensures IsFirst(None, p)
  {}

  lemma MachineChoice(s: State, l: Lines)
    ensures var pool := if s.priv == Privilege.Machine then And(ReadMip(s.csr.mip, l), s.csr.mie) else ForMachine(s, l);
      IsFirst(if s.csr.mstatus[3] then PickMachine(pool) else None, ThroughMachine(s, l))
  {
    hide PickMachine, ForMachine, ReadMip, And, SupervisorSees, IsFirst;
    var p := ThroughMachine(s, l);
    var pool := if s.priv == Privilege.Machine then And(ReadMip(s.csr.mip, l), s.csr.mie) else ForMachine(s, l);
    if s.csr.mstatus[3] {
      forall i: nat | i < 32 ensures pool[i] == p[i] { MachinePool(s, l, i); }
      assert pool == p;
      FirstForMachine(p);
    } else {
      NoneIsFirst(p);
    }
  }

  /**
    The interrupt chosen is the first in the order MEI, MSI, MTI, SEI, SSI, STI
    that may be taken: below machine level through the supervisor's gate, or
    when that lets nothing pass, through MIE.
   */
  lemma ChoiceIsFirst(s: State, l: Lines)
    ensures var sup, mach := ThroughSupervisor(s, l), ThroughMachine(s, l);
      || (Chosen(s, l).Some? && IsFirst(Chosen(s, l), sup))
      || (IsFirst(None, sup) && IsFirst(Chosen(s, l), mach))
  {
    if s.priv == Privilege.Machine { NoneIsFirst(ThroughSupervisor(s, l)); } else { SupervisorChoice(s, l); }
    MachineChoice(s, l);
    hide PickSupervisor, PickMachine, ForSupervisor, ForMachine, ReadMip, And, IsFirst, ThroughSupervisor, ThroughMachine;
  }

  /**
    A dispatch that takes an interrupt takes a line that is enabled and that mip
    or sip shows pending, and records its number with bit 31 set and no value, in
    the supervisor's registers exactly if the line is delegated and the interrupt
    came from U or S.
   */
  lemma DispatchRecorded(s: State, l: Lines)
    requires Chosen(s, l).Some?
    ensures var irq := Chosen(s, l).value;
      var t := Dispatch(s, l);
      var delegated := (s.priv == User || s.priv == Supervisor) && s.csr.mideleg[irq as nat];
      var cause := if delegated then t.csr.scause else t.csr.mcause;
      && (irq == 1 || irq == 3 || irq == 5 || irq == 7 || irq == 9 || irq == 11)
      && s.csr.mie[irq as nat]
      && (ReadMip(s.csr.mip, l)[irq as nat] || ReadSip(s.csr.mip, l)[irq as nat])
      && Bit(cause, 31) && cause & 0x7FFF_FFFF == irq as bv32
      && (if delegated then t.csr.stval else t.csr.mtval) == 0
      && (if delegated then t.csr.sepc else t.csr.mepc) == s.pc
      && t.priv == if delegated then Supervisor else Privilege.Machine
  {
    var irq := Chosen(s, l).value;
    ChosenIsPending(s, l);
    InterruptRecorded(s, irq);
    hide Take, Bit, Chosen, ReadMip, ReadSip;
  }

  lemma ChosenIsPending(s: State, l: Lines)
    requires Chosen(s, l).Some?
    ensures var irq := Chosen(s, l).value;
      && (irq == 1 || irq == 3 || irq == 5 || irq == 7 || irq == 9 || irq == 11)
      && s.csr.mie[irq as nat]
      && (ReadMip(s.csr.mip, l)[irq as nat] || ReadSip(s.csr.mip, l)[irq as nat])
  {
    ChoiceIsFirst(s, l);
    hide Chosen, ReadMip, ReadSip;
  }
}
