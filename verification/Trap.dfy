/**
  Traps: src/extension/system.c. Entry into machine and supervisor level,
  delegation, the returns, and the dispatch of pending interrupts.
 */
module Trap {
  import opened Wrappers
  import opened Words
  import opened BitLaws
  import opened Machine
  import opened Csr

  // ---------------------------------------------------------------------
  // Specification
  // ---------------------------------------------------------------------

  function PrivilegeOf(m: Bits): Privilege {
    if m[12] then (if m[11] then Privilege.Machine else Hypervisor)
    else (if m[11] then Supervisor else User)
  }

  /** mstatus with `p` in the MPP field. */
  function WithMpp(m: Bits, p: Privilege): Bits {
    m[11 := p == Supervisor || p == Privilege.Machine][12 := p == Hypervisor || p == Privilege.Machine]
  }

  datatype Cause = Exception(code: bv5, tval: bv32) | Interrupt(irq: bv5)

  function CauseWord(c: Cause): bv32 {
    if c.Exception? then c.code as bv32 else (c.irq as bv32) | 0x8000_0000
  }

  function VectorBase(tvec: bv32): bv32 { tvec & !3 }

  /** The distance of a vectored interrupt's entry. */
  function Slot(irq: bv5): bv32 { ((irq as bv32) & 0xF) << 2 }

  /** Exceptions leave 4 for the run loop to add; interrupts enter directly and may be vectored. */
  function Vector(tvec: bv32, c: Cause): bv32
  {
    if c.Exception? then Minus(VectorBase(tvec), 4)
    else if tvec & 1 != 0 then Sum(VectorBase(tvec), Slot(c.irq))
    else VectorBase(tvec)
  }

  /** Traps from machine level (and from the unused level 2) are never delegated. */
  predicate Delegated(s: State, c: Cause)
  {
    (s.priv == User || s.priv == Supervisor)
    && (if c.Exception? then s.csr.medeleg[c.code as int] else s.csr.mideleg[c.irq as int])
  }

  /** The machine level of the status stack: MPP and MPIE save, MIE clears. */
  function PushMachine(m: Bits, p: Privilege): Bits {
    MstatusWrite(WithMpp(m, p)[MPIE := m[MIE]][MIE := false])
  }

  /** The supervisor level of the status stack. */
  function PushSupervisor(m: Bits, p: Privilege): Bits {
    m[SPP := p == Supervisor][SPIE := m[SIE]][SIE := false]
  }

  function PopMachine(m: Bits): Bits {
    WithMpp(m[MIE := m[MPIE]][MPIE := true], User)
  }

  function PopSupervisor(m: Bits): Bits {
    m[SIE := m[SPIE]][SPIE := true][SPP := false]
  }

  function EnterMachine(s: State, c: Cause, epc: bv32): State
  {
    s.(csr := s.csr.(mstatus := PushMachine(s.csr.mstatus, s.priv),
                     mcause := CauseWord(c),
                     mtval := if c.Exception? then c.tval else 0,
                     mepc := epc),
       priv := Privilege.Machine, justTrapped := true, pc := Vector(s.csr.mtvec, c))
  }

  function EnterSupervisor(s: State, c: Cause, epc: bv32): State
  {
    s.(csr := s.csr.(mstatus := PushSupervisor(s.csr.mstatus, s.priv),
                     scause := CauseWord(c),
                     stval := if c.Exception? then c.tval else 0,
                     sepc := epc),
       priv := Supervisor, pc := Vector(s.csr.stvec, c))
  }

  /** Any trap: reservations go, then the delegated or the machine entry. */
  function Take(s: State, c: Cause, epc: bv32): (t: State)
    ensures t.flags == map[]
    ensures t.gpr == s.gpr && t.ram == s.ram && t.devices == s.devices && t.clint == s.clint
    ensures t.csr.satp == s.csr.satp
  {
    var s1 := s.(flags := map[]);
    if Delegated(s, c) then EnterSupervisor(s1, c, epc) else EnterMachine(s1, c, epc)
  }

  function Mret(s: State): State {
    s.(csr := s.csr.(mstatus := PopMachine(s.csr.mstatus)),
       priv := PrivilegeOf(s.csr.mstatus), pc := s.csr.mepc - 4)
  }

  const SRET_WORD: bv32 := 0x10200073

  function Sret(s: State): State {
    if s.priv == Supervisor && s.csr.mstatus[TSR] then Take(s, Exception(2, SRET_WORD), s.pc)
    else s.(csr := s.csr.(mstatus := PopSupervisor(s.csr.mstatus)),
            priv := if s.csr.mstatus[SPP] then Supervisor else User, pc := s.csr.sepc - 4)
  }

  // ---------------------------------------------------------------------
  // Which interrupt is taken
  // ---------------------------------------------------------------------

  function PickMachine(p: Bits): Option<bv5> {
    if p[MEIP] then Some(11) else if p[MSIP] then Some(3) else if p[MTIP] then Some(7)
    else if p[SEIP] then Some(9) else if p[SSIP] then Some(1) else if p[STIP] then Some(5)
    else None
  }

  function PickSupervisor(p: Bits): Option<bv5> {
    if p[SEIP] then Some(9) else if p[SSIP] then Some(1) else if p[STIP] then Some(5) else None
  }

  /** Pending, enabled and delegated, as the supervisor sees it. */
  function ForSupervisor(s: State, l: Lines): Bits {
    And(And(ReadSip(s.csr.mip, l), ReadSie(s.csr.mie)), s.csr.mideleg)
  }

  /** What is left for machine level while running below it. */
  function ForMachine(s: State, l: Lines): Bits {
    var mip, sp := ReadMip(s.csr.mip, l), ForSupervisor(s, l);
    seq(32, i requires 0 <= i < 32 => mip[i] && s.csr.mie[i] && !sp[i])
  }

  /** The interrupt check_and_handle_interrupts takes with the device lines at `l`. */
  function Chosen(s: State, l: Lines): Option<bv5> {
    var m := s.csr.mstatus;
    if s.priv == Privilege.Machine then
      if m[MIE] then PickMachine(And(ReadMip(s.csr.mip, l), s.csr.mie)) else None
    else
      var global := if s.priv == Supervisor then m[SIE] else m[UIE];
      var sup := if global then PickSupervisor(ForSupervisor(s, l)) else None;
      if sup.Some? then sup
      else if m[MIE] then PickMachine(ForMachine(s, l))
      else None
  }

  function Dispatch(s: State, l: Lines): State {
    match Chosen(s, l)
    case None => s
    case Some(irq) => Take(s, Interrupt(irq), s.pc)
  }

  /** Trap entry through the view is trap entry on the whole word. */
  lemma PushView(m: Bits, p: Privilege)
    ensures var v := SstatusRead(m);
      && v[SPP := p == Supervisor][SPIE := v[SPP := p == Supervisor][SIE]][SIE := false]
         == SstatusRead(PushSupervisor(m, p))
      && WithSstatus(m, SstatusRead(PushSupervisor(m, p))) == PushSupervisor(m, p)
  {
    ThroughSstatus(m, PushSupervisor(m, p));
  }

  lemma PopView(m: Bits)
    ensures var v := SstatusRead(m);
      && v[SIE := v[SPIE]][SPIE := true][SPP := false] == SstatusRead(PopSupervisor(m))
      && WithSstatus(m, SstatusRead(PopSupervisor(m))) == PopSupervisor(m)
  {
    ThroughSstatus(m, PopSupervisor(m));
  }

  // ---------------------------------------------------------------------
  // The code
  // ---------------------------------------------------------------------

  /** The supervisor entry's change of mstatus, made through sstatus. */
  method StatusOnEntry(m: Bits, p: Privilege) returns (r: Bits)
    ensures r == PushSupervisor(m, p)
  {
    hide SstatusRead, WithSstatus, PushSupervisor;
    var sstatus := AssembleSstatus(m);
    sstatus := sstatus[SPP := p == Supervisor];
    sstatus := sstatus[SPIE := sstatus[SIE]];
    sstatus := sstatus[SIE := false];
    PushView(m, p);
    r := UpdateSstatus(m, sstatus);
  }

  /** sret's change of mstatus, made through sstatus. */
  method StatusOnReturn(m: Bits) returns (r: Bits)
    ensures r == PopSupervisor(m)
  {
    hide SstatusRead, WithSstatus, PopSupervisor;
    var sstatus := AssembleSstatus(m);
    sstatus := sstatus[SIE := sstatus[SPIE]];
    sstatus := sstatus[SPIE := true][SPP := false];
    PopView(m);
    r := UpdateSstatus(m, sstatus);
  }

  class Unit {
    var st: State

    /** raise_machine_exception and raise_machine_interrupt */
    method MachineEntry(c: Cause, epc: bv32)
      modifies this
      ensures st == EnterMachine(old(st), c, epc)
    {
      hide MstatusWrite, Vector, CauseWord;
      var s := st;
      var mstatus: Bits := s.csr.mstatus;
      mstatus := WithMpp(mstatus, s.priv);
      mstatus := mstatus[MPIE := mstatus[MIE]];
      mstatus := mstatus[MIE := false];
      s := s.(csr := s.csr.(mstatus := MstatusWrite(mstatus)));
      s := s.(csr := s.csr.(mcause := CauseWord(c), mtval := if c.Exception? then c.tval else 0, mepc := epc));
      s := s.(priv := Privilege.Machine, justTrapped := true);
      s := s.(pc := Vector(s.csr.mtvec, c));
      st := s;
    }

    /** raise_supervisor_exception and raise_supervisor_interrupt_internal; sstatus is read and written whole */
    method SupervisorEntry(c: Cause, epc: bv32)
      modifies this
      ensures st == EnterSupervisor(old(st), c, epc)
    {
      hide PushSupervisor, Vector, CauseWord;
      var s := st;
      var mstatus := StatusOnEntry(s.csr.mstatus, s.priv);
      s := s.(csr := s.csr.(mstatus := mstatus));
      s := s.(csr := s.csr.(scause := CauseWord(c)));
      s := s.(csr := s.csr.(stval := if c.Exception? then c.tval else 0));
      s := s.(csr := s.csr.(sepc := epc));
      s := s.(priv := Supervisor);
      s := s.(pc := Vector(s.csr.stvec, c));
      st := s;
    }

    /** A trap drops every outstanding reservation. */
    method DropReservations()
      modifies this
      ensures st == old(st).(flags := map[])
    {
      if |st.flags| > 0 { st := st.(flags := map[]); }
      assert st.flags == map[];
    }

    /** raise_exception_pc */
    method RaiseException(code: bv5, tval: bv32, epc: bv32)
      modifies this
      ensures st == Take(old(st), Exception(code, tval), epc)
    {
      hide EnterMachine, EnterSupervisor;
      var current := st.priv;
      DropReservations();
      var delegate := false;
      if current == User {
        delegate := st.csr.medeleg[code as int];
      } else if current == Supervisor {
        delegate := st.csr.medeleg[code as int];
      }
      if delegate {
        SupervisorEntry(Exception(code, tval), epc);
      } else {
        MachineEntry(Exception(code, tval), epc);
      }
    }

    /** raise_interrupt */
    method RaiseInterrupt(irq: bv5)
      modifies this
      ensures st == Take(old(st), Interrupt(irq), old(st).pc)
    {
      hide EnterMachine, EnterSupervisor;
      var current, pc := st.priv, st.pc;
      DropReservations();
      var delegate := false;
      if current == User {
        delegate := st.csr.mideleg[irq as int];
      } else if current == Supervisor {
        delegate := st.csr.mideleg[irq as int];
      }
      if delegate {
        SupervisorEntry(Interrupt(irq), pc);
      } else {
        MachineEntry(Interrupt(irq), pc);
      }
    }

    /** ins_mret */
    method ReturnFromMachine()
      modifies this
      ensures st == Mret(old(st))
    {
      var s := st;
      var mstatus: Bits := s.csr.mstatus;
      var mpp := PrivilegeOf(mstatus);
      mstatus := mstatus[MIE := mstatus[MPIE]];
      mstatus := mstatus[MPIE := true];
      mstatus := WithMpp(mstatus, User);
      s := s.(csr := s.csr.(mstatus := mstatus));
      s := s.(priv := mpp);
      s := s.(pc := s.csr.mepc - 4);
      st := s;
    }

    /** The successful path of ins_sret. */
    method LeaveSupervisor()
      modifies this
      ensures st == old(st).(csr := old(st).csr.(mstatus := PopSupervisor(old(st).csr.mstatus)),
                             priv := if old(st).csr.mstatus[SPP] then Supervisor else User,
                             pc := old(st).csr.sepc - 4)
    {
      hide PopSupervisor;
      var s := st;
      var spp := s.csr.mstatus[SPP];
      var mstatus := StatusOnReturn(s.csr.mstatus);
      s := s.(csr := s.csr.(mstatus := mstatus));
      s := s.(priv := if spp then Supervisor else User);
      s := s.(pc := s.csr.sepc - 4);
      st := s;
    }

    /** ins_sret */
    method ReturnFromSupervisor()
      modifies this
      ensures st == Sret(old(st))
    {
      hide Take, PopSupervisor;
      if st.priv == Supervisor && st.csr.mstatus[TSR] {
        RaiseException(2, SRET_WORD, st.pc);
      } else {
        LeaveSupervisor();
      }
    }

    /** The choice among `p` in machine order; -1 in the source is None here. */
    static method PickIrq(p: Bits) returns (irq: Option<bv5>)
      ensures irq == PickMachine(p)
    {
      irq := None;
      if p[MEIP] { irq := Some(11); }
      else if p[MSIP] { irq := Some(3); }
      else if p[MTIP] { irq := Some(7); }
      else if p[SEIP] { irq := Some(9); }
      else if p[SSIP] { irq := Some(1); }
      else if p[STIP] { irq := Some(5); }
    }

    /** check_and_handle_interrupts */
    method CheckAndHandleInterrupts()
      requires st.Valid()
      modifies this
      ensures st == Dispatch(old(st), LinesOf(old(st)))
    {
      hide Take, ReadMip, ReadSip, ReadSie, PickMachine, LinesOf, ForMachine, And;
      var l := LinesOf(st);
      var mip := ReadMip(st.csr.mip, l);
      if st.priv == Privilege.Machine {
        if !st.csr.mstatus[MIE] { return; }
        var irq := PickIrq(And(mip, st.csr.mie));
        if irq.Some? { RaiseInterrupt(irq.value); }
        return;
      }
      var globalEnable := if st.priv == Supervisor then st.csr.mstatus[SIE] else st.csr.mstatus[UIE];
      var sp := And(And(ReadSip(st.csr.mip, l), ReadSie(st.csr.mie)), st.csr.mideleg);
      if globalEnable {
        var irq: Option<bv5> := None;
        if sp[SEIP] { irq := Some(9); }
        else if sp[SSIP] { irq := Some(1); }
        else if sp[STIP] { irq := Some(5); }
        if irq.Some? {
          RaiseInterrupt(irq.value);
          return;
        }
      }
      if st.csr.mstatus[MIE] {
        var irq := PickIrq(ForMachine(st, l));
        if irq.Some? { RaiseInterrupt(irq.value); }
      }
    }
  }
}
