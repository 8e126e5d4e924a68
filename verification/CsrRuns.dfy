/**
  Whole runs of the machine as far as the status and interrupt registers matter:
  CSR instructions, interrupt dispatch, traps and returns, any computation on
  registers between them, and devices that change as they please. The MTIP, MEIP
  and SEIP bits stored in mip have no influence on any of it.
 */
module CsrRuns {
  import opened Words
  import opened Machine
  import opened Csr
  import opened CsrTable
  import opened Trap
  import Uart

  type Registers = g: seq<bv32> | |g| == 32 witness seq(32, _ => 0)

  datatype Operand = Register(rs1: bv5) | Immediate(uimm: bv5)

  datatype Event =
    | Instruction(op: Op, reg: Csr.Register, operand: Operand, rd: bv5, ins: bv32)
    | Compute(f: (Registers, bv32) -> (Registers, bv32))
    | Poll
    | Raised(cause: Cause, epc: bv32)
    | ReturnMachine
    | ReturnSupervisor
    | World(clint: Clint, devices: Uart.Devices)

  function StoreOf(s: State): Stored { Stored(s.csr.mstatus, s.csr.mie, s.csr.mip) }

  function WithStore(s: State, c: Stored): State {
    s.(csr := s.csr.(mstatus := c.mstatus, mie := c.mie, mip := c.mip))
  }

  function Value(s: State, o: Operand): bv32
    requires s.Valid()
  {
    match o case Register(rs1) => RegRead(s, rs1) case Immediate(uimm) => uimm as bv32
  }

  predicate IsNone(o: Operand) { match o case Register(rs1) => rs1 == 0 case Immediate(uimm) => uimm == 0 }

  function AccessOf(s: State, e: Event): Access
    requires s.Valid() && e.Instruction?
  {
    Access(e.op, e.reg, ToBits(Value(s, e.operand)), IsNone(e.operand), s.priv, LinesOf(s))
  }

  /** check_csr_access: a refused access raises, and the instruction goes on all the same. */
  function Checked(s: State, e: Event): (t: State)
    requires s.Valid() && e.Instruction?
    ensures t.Valid()
  {
    if s.priv.Rank() < Required(e.reg) then Take(s, Exception(2, e.ins), s.pc) else s
  }

  /** The value the instruction reads, and the machine after it. */
  function Answer(s: State, e: Event): Bits
    requires s.Valid() && e.Instruction?
  {
    var t := Checked(s, e);
    Read(StoreOf(t), e.reg, LinesOf(t))
  }

  function Executed(s: State, e: Event): (t: State)
    requires s.Valid() && e.Instruction?
    ensures t.Valid()
  {
    var c := Checked(s, e);
    RegWrite(WithStore(c, Perform(StoreOf(c), AccessOf(c, e))), e.rd, FromBits(Answer(s, e)))
  }

  predicate EventOk(e: Event) { e.World? ==> e.devices.plic.Valid() }

  function Step(s: State, e: Event): (t: State)
    requires s.Valid() && EventOk(e)
    ensures t.Valid()
  {
    match e
    case Instruction(_, _, _, _, _) => Executed(s, e)
    case Compute(f) => var (g, pc) := f(s.gpr, s.pc); s.(gpr := g, pc := pc)
    case Poll => Dispatch(s, LinesOf(s))
    case Raised(cause, epc) => Take(s, cause, epc)
    case ReturnMachine => Mret(s)
    case ReturnSupervisor => Sret(s)
    case World(clint, devices) => s.(clint := clint, devices := devices)
  }

  function Run(s: State, es: seq<Event>): (t: State)
    requires s.Valid() && forall i :: 0 <= i < |es| ==> EventOk(es[i])
    ensures t.Valid()
    decreases |es|
  {
    if es == [] then s else Step(Run(s, es[..|es| - 1]), es[|es| - 1])
  }

  // ---------------------------------------------------------------------
  // One instruction
  // ---------------------------------------------------------------------

  /** mstatus, mie and mip belong to machine level, their views to supervisor level and above; a refusal is cause 2. */
  lemma RefusedExactly(s: State, e: Event)
    requires s.Valid() && e.Instruction?
    ensures Checked(s, e) ==
      if s.priv == User || ((s.priv == Supervisor || s.priv == Hypervisor) && (e.reg == Mstatus || e.reg == Mie || e.reg == Mip))
      then Take(s, Exception(2, e.ins), s.pc) else s
  {
    hide Take;
  }

  /** rd receives the value read, bit for bit, and no other register changes. */
  lemma AnswerReturned(s: State, e: Event)
    requires s.Valid() && e.Instruction?
    ensures e.rd != 0 ==> ToBits(RegRead(Executed(s, e), e.rd)) == Answer(s, e)
    ensures forall r: bv5 :: r != e.rd ==> RegRead(Executed(s, e), r) == RegRead(s, r)
  {
    ToFromBits(Answer(s, e));
    var c := Checked(s, e);
    assert c.gpr == s.gpr;
    hide ToBits, FromBits, Answer, Checked, Perform;
  }

  /** The operand is rs1, or the five-bit immediate; x0 and zero write nothing with csrrs and csrrc. */
  lemma OperandIs(s: State, e: Event)
    requires s.Valid() && e.Instruction?
    ensures var a := AccessOf(s, e);
      && (e.operand.Register? ==> FromBits(a.operand) == RegRead(s, e.operand.rs1))
      && (e.operand.Immediate? ==> FromBits(a.operand) == e.operand.uimm as bv32)
      && (a.none <==> e.operand == Register(0) || e.operand == Immediate(0))
  {
    FromToBits(Value(s, e.operand));
    hide ToBits, FromBits, LinesOf;
  }

  // ---------------------------------------------------------------------
  // Stored live bits are inert
  // ---------------------------------------------------------------------

  /** Equal but for the live bits stored in mip. */
  ghost predicate Alike(s: State, t: State) {
    t == s.(csr := s.csr.(mip := t.csr.mip)) && SameOutside(LIVE, s.csr.mip, t.csr.mip)
  }

  /** Nothing shows the difference: not a read of any register, not the interrupt chosen. */
  lemma NothingShows(s: State, t: State, reg: Csr.Register, l: Lines)
    requires s.Valid() && Alike(s, t)
    ensures Read(StoreOf(s), reg, l) == Read(StoreOf(t), reg, l)
    ensures Chosen(s, l) == Chosen(t, l)
    ensures LinesOf(s) == LinesOf(t)
  {
    assert ReadMip(s.csr.mip, l) == ReadMip(t.csr.mip, l);
  }

  lemma MachineEntryAlike(s: State, t: State, c: Cause, epc: bv32)
    requires Alike(s, t)
    ensures Alike(EnterMachine(s, c, epc), EnterMachine(t, c, epc))
  {
    hide Vector, PushMachine, CauseWord;
  }

  lemma SupervisorEntryAlike(s: State, t: State, c: Cause, epc: bv32)
    requires Alike(s, t)
    ensures Alike(EnterSupervisor(s, c, epc), EnterSupervisor(t, c, epc))
  {
    hide Vector, PushSupervisor, CauseWord;
  }

  lemma DelegatedAlike(s: State, t: State, c: Cause)
    requires Alike(s, t)
    ensures Delegated(s, c) == Delegated(t, c)
  {}

  lemma TakeAlike(s: State, t: State, c: Cause, epc: bv32)
    requires s.Valid() && Alike(s, t)
    ensures Alike(Take(s, c, epc), Take(t, c, epc))
  {
    var s1, t1 := s.(flags := map[]), t.(flags := map[]);
    assert Alike(s1, t1);
    DelegatedAlike(s, t, c);
    hide EnterMachine, EnterSupervisor, Delegated, Alike;
    MachineEntryAlike(s1, t1, c, epc);
    SupervisorEntryAlike(s1, t1, c, epc);
  }

  lemma ReturnsAlike(s: State, t: State)
    requires Alike(s, t)
    ensures Alike(Mret(s), Mret(t))
    ensures !(s.priv == Supervisor && s.csr.mstatus[TSR]) ==> Alike(Sret(s), Sret(t))
  {
    hide PopMachine, PopSupervisor, Take;
  }

  lemma PerformAlike(c: Stored, d: Stored, a: Access)
    requires c.mstatus == d.mstatus && c.mie == d.mie && SameOutside(LIVE, c.mip, d.mip)
    ensures var x, y := Perform(c, a), Perform(d, a);
      x.mstatus == y.mstatus && x.mie == y.mie && SameOutside(LIVE, x.mip, y.mip)
  {
    assert ReadMip(c.mip, a.lines) == ReadMip(d.mip, a.lines);
  }

  lemma ExecutedAlike(s: State, t: State, e: Event)
    requires s.Valid() && Alike(s, t) && e.Instruction?
    ensures Answer(s, e) == Answer(t, e)
    ensures Alike(Executed(s, e), Executed(t, e))
  {
    hide Take, Perform, Read, Chosen, LinesOf, ToBits, FromBits;
    TakeAlike(s, t, Exception(2, e.ins), s.pc);
    var c, d := Checked(s, e), Checked(t, e);
    NothingShows(c, d, e.reg, LinesOf(c));
    assert AccessOf(c, e) == AccessOf(d, e);
    PerformAlike(StoreOf(c), StoreOf(d), AccessOf(c, e));
  }

  lemma StepAlike(s: State, t: State, e: Event)
    requires s.Valid() && Alike(s, t) && EventOk(e)
    ensures Alike(Step(s, e), Step(t, e))
  {
    hide Take, Executed, Chosen, LinesOf, Mret;
    ReturnsAlike(s, t);
    match e
    case Instruction(_, _, _, _, _) => ExecutedAlike(s, t, e);
    case Poll =>
      var l := LinesOf(s);
      NothingShows(s, t, Mip, l);
      if Chosen(s, l).Some? { TakeAlike(s, t, Interrupt(Chosen(s, l).value), s.pc); }
    case Raised(cause, epc) => TakeAlike(s, t, cause, epc);
    case ReturnSupervisor => TakeAlike(s, t, Exception(2, SRET_WORD), s.pc);
    case _ =>
  }

  /**
    Two runs of the same events from machines that differ only in the MTIP, MEIP
    and SEIP bits stored in mip read the same value at every CSR instruction,
    choose the same interrupt at every point, and still differ only there.
   */
  lemma {:induction false} LiveBitsInert(s: State, t: State, es: seq<Event>, n: nat)
    requires s.Valid() && t.Valid() && Alike(s, t) && n <= |es|
    requires forall i :: 0 <= i < |es| ==> EventOk(es[i])
    ensures var x, y := Run(s, es[..n]), Run(t, es[..n]);
      && Alike(x, y)
      && Chosen(x, LinesOf(x)) == Chosen(y, LinesOf(y))
      && (n < |es| && es[n].Instruction? ==> Answer(x, es[n]) == Answer(y, es[n]))
    decreases n
  {
    hide Step, Chosen, LinesOf, Answer, Alike;
    if n > 0 {
      LiveBitsInert(s, t, es, n - 1);
      assert es[..n][..n - 1] == es[..n - 1];
      StepAlike(Run(s, es[..n - 1]), Run(t, es[..n - 1]), es[n - 1]);
    }
    var x, y := Run(s, es[..n]), Run(t, es[..n]);
    NothingShows(x, y, Mip, LinesOf(x));
    if n < |es| && es[n].Instruction? { ExecutedAlike(x, y, es[n]); }
  }
}
