/**
  The atomic instructions as the source executes them, with the reservations in
  the hash table itself. Every method leaves the table standing for the
  reservations of the model state, so what `LrSc` proves of runs holds of runs
  on the table.
 */
module AtomicUnit {
  import opened Wrappers
  import opened Addresses
  import opened Machine
  import opened Memory
  import opened Trap
  import opened Mmu
  import opened MmuAccess
  import opened Reservations
  import opened LrSc
  import opened Bus
  import opened HashMapU32

  class Core {
    /** Registers, control registers, memory, devices, and the reservation table. */
    const bus: Bus

    ghost predicate Valid()
      reads this, bus, bus.reservations, bus.reservations.table, bus.reservations.table.entries
    {
      bus.Valid()
    }

    /** The slots are those of `was`, or were allocated since. */
    twostate predicate OldOrFresh(was: array<Entry>)
      reads bus.reservations.table
    {
      bus.reservations.table.entries == was || fresh(bus.reservations.table.entries)
    }

    constructor (s: State)
      requires s.Valid() && s.flags == map[]
      ensures Valid() && bus.st == s
      ensures fresh(bus) && fresh(bus.reservations.table) && fresh(bus.reservations.table.entries)
    {
      bus := new Bus(s);
    }

    /** Trap entry: the table is emptied, then the state moves to the handler. */
    method RaiseException(code: bv5, tval: bv32)
      requires Valid()
      modifies bus, bus.reservations.table, bus.reservations.table.entries
      ensures Valid() && bus.reservations.table.entries == old(bus.reservations.table.entries)
      ensures bus.st == Take(old(bus.st), Exception(code, tval), old(bus.st).pc)
    {
      bus.reservations.ClearOnTrap();
      bus.st := Take(bus.st, Exception(code, tval), bus.st.pc);
    }

    /** mmu_translate: an address, or the page fault taken. */
    method TranslateOrFault(va: bv32, access: Access) returns (fault: bool, pa: bv32)
      requires Valid()
      modifies bus, bus.reservations.table, bus.reservations.table.entries
      ensures Valid() && bus.reservations.table.entries == old(bus.reservations.table.entries)
      ensures fault <==> Translate(old(bus.st), va, access).None?
      ensures if fault then bus.st == Fault(old(bus.st), va, access)
              else bus.st == old(bus.st) && Translate(old(bus.st), va, access) == Some(pa)
    {
      hide Translate, Take;
      match Translate(bus.st, va, access) {
        case None =>
          RaiseException(FaultCode(access), va);
          fault, pa := true, 0;
        case Some(p) =>
          fault, pa := false, p;
      }
    }

    /** mmu_read32_unsigned */
    method Read32(va: bv32) returns (v: bv32)
      requires Valid()
      modifies bus, bus.reservations.table, bus.reservations.table.entries
      ensures Valid() && bus.reservations.table.entries == old(bus.reservations.table.entries)
      ensures (bus.st, v) == MmuRead32(old(bus.st), va)
    {
      hide Translate, MemRead32, Fault;
      var fault, pa := TranslateOrFault(va, Load);
      if fault { return 0; }
      v := bus.Load32(pa);
    }

    /** mmu_write32: the physical store drops the reservation of its word. */
    method Write32(va: bv32, v: bv32)
      requires Valid()
      modifies bus, bus.reservations.table, bus.reservations.table.entries
      ensures Valid() && bus.reservations.table.entries == old(bus.reservations.table.entries)
      ensures bus.st == MmuWrite32(old(bus.st), va, v)
    {
      hide Translate, MemWrite32, Fault;
      var fault, pa := TranslateOrFault(va, Store);
      if !fault { bus.Store32(pa, v); }
    }

    // A misaligned address is fatal: the run ends there.

    /** insa_r_lr_w */
    method Lr(rs1: bv5, rd: bv5) returns (running: bool)
      requires Valid()
      modifies bus, bus.reservations.table, bus.reservations.table.entries
      ensures Valid() && OldOrFresh(old(bus.reservations.table.entries))
      ensures running <==> WordAligned(old(RegRead(bus.st, rs1)))
      ensures bus.st == if running then LrW(old(bus.st), rs1, rd) else old(bus.st)
    {
      hide MmuRead32, Reserve, RegRead, WordAligned;
      var a := RegRead(bus.st, rs1);
      if !WordAligned(a) { return false; }
      var v := Read32(a);
      bus.st := RegWrite(bus.st, rd, v);
      bus.reservations.SetReserveStatus(a);
      bus.st := bus.st.(flags := Reserve(bus.st.flags, a));
      return true;
    }

    /** insa_r_sc_w */
    method Sc(rs1: bv5, rs2: bv5, rd: bv5) returns (running: bool)
      requires Valid()
      modifies bus, bus.reservations.table, bus.reservations.table.entries
      ensures Valid() && OldOrFresh(old(bus.reservations.table.entries))
      ensures running <==> WordAligned(old(RegRead(bus.st, rs1)))
      ensures bus.st == if running then ScW(old(bus.st), rs1, rs2, rd) else old(bus.st)
    {
      hide MmuWrite32, Unreserve, IsReserved, RegRead, WordAligned;
      var a, v := RegRead(bus.st, rs1), RegRead(bus.st, rs2);
      if !WordAligned(a) { return false; }
      var reserved := bus.reservations.GetReserveStatus(a);
      if reserved {
        ScStore(a, v, rd);
      } else {
        bus.st := RegWrite(bus.st, rd, 1);
      }
      return true;
    }

    /** The successful branch of insa_r_sc_w */
    method ScStore(a: bv32, v: bv32, rd: bv5)
      requires Valid()
      modifies bus, bus.reservations.table, bus.reservations.table.entries
      ensures Valid() && OldOrFresh(old(bus.reservations.table.entries))
      ensures var s := RegWrite(MmuWrite32(old(bus.st), a, v), rd, 0);
        bus.st == s.(flags := Unreserve(s.flags, a))
    {
      hide MmuWrite32, Unreserve;
      Write32(a, v);
      bus.st := RegWrite(bus.st, rd, 0);
      bus.reservations.ClearReserveStatus(a);
      bus.st := bus.st.(flags := Unreserve(bus.st.flags, a));
    }

    /** insa_r_amo*_w */
    method Amo(op: AmoOp, rs1: bv5, rs2: bv5, rd: bv5) returns (running: bool)
      requires Valid()
      modifies bus, bus.reservations.table, bus.reservations.table.entries
      ensures Valid() && OldOrFresh(old(bus.reservations.table.entries))
      ensures running <==> WordAligned(old(RegRead(bus.st, rs1)))
      ensures bus.st == if running then AmoW(old(bus.st), op, rs1, rs2, rd) else old(bus.st)
    {
      hide MmuRead32, MmuWrite32, AmoResult, RegRead, WordAligned;
      var a, v := RegRead(bus.st, rs1), RegRead(bus.st, rs2);
      if !WordAligned(a) { return false; }
      var w := Read32(a);
      Write32(a, AmoResult(op, w, v));
      bus.st := RegWrite(bus.st, rd, w);
      return true;
    }

    /** mmu_write8 */
    method Write8(va: bv32, v: bv8)
      requires Valid()
      modifies bus, bus.reservations.table, bus.reservations.table.entries
      ensures Valid() && bus.reservations.table.entries == old(bus.reservations.table.entries)
      ensures bus.st == MmuWrite8(old(bus.st), va, v)
    {
      hide Translate, MemWrite8, Fault;
      var fault, pa := TranslateOrFault(va, Store);
      if !fault { bus.Store8(pa, v); }
    }

    /** mmu_write16 */
    method Write16(va: bv32, v: bv16)
      requires Valid()
      modifies bus, bus.reservations.table, bus.reservations.table.entries
      ensures Valid() && bus.reservations.table.entries == old(bus.reservations.table.entries)
      ensures bus.st == MmuWrite16(old(bus.st), va, v)
    {
      hide Translate, MemWrite16, Fault;
      var fault, pa := TranslateOrFault(va, Store);
      if !fault { bus.Store16(pa, v); }
    }

    /** insi_s_sb, insi_s_sh and insi_s_sw */
    method StoreRegister(width: Width, imm: bv32, rs2: bv5, rs1: bv5)
      requires Valid()
      modifies bus, bus.reservations.table, bus.reservations.table.entries
      ensures Valid() && bus.reservations.table.entries == old(bus.reservations.table.entries)
      ensures bus.st == StoreW(old(bus.st), width, imm, rs2, rs1)
    {
      hide StoreAt, RegRead, StoreAddress;
      var a, v := StoreAddress(bus.st, imm, rs1), RegRead(bus.st, rs2);
      match width {
        case Byte => StoreByte(a, v);
        case Half => StoreHalf(a, v);
        case Full => StoreWord(a, v);
      }
    }

    method StoreByte(a: bv32, v: bv32)
      requires Valid()
      modifies bus, bus.reservations.table, bus.reservations.table.entries
      ensures Valid() && bus.reservations.table.entries == old(bus.reservations.table.entries)
      ensures bus.st == StoreAt(old(bus.st), Byte, a, v)
    {
      hide MmuWrite8, Take;
      Write8(a, (v & 0xFF) as bv8);
    }

    method StoreHalf(a: bv32, v: bv32)
      requires Valid()
      modifies bus, bus.reservations.table, bus.reservations.table.entries
      ensures Valid() && bus.reservations.table.entries == old(bus.reservations.table.entries)
      ensures bus.st == StoreAt(old(bus.st), Half, a, v)
    {
      hide MmuWrite16, Take, Misfits;
      if Misfits(a, Half) { RaiseException(6, a); } else { Write16(a, (v & 0xFFFF) as bv16); }
    }

    method StoreWord(a: bv32, v: bv32)
      requires Valid()
      modifies bus, bus.reservations.table, bus.reservations.table.entries
      ensures Valid() && bus.reservations.table.entries == old(bus.reservations.table.entries)
      ensures bus.st == StoreAt(old(bus.st), Full, a, v)
    {
      hide MmuWrite32, Take, Misfits;
      if Misfits(a, Full) { RaiseException(6, a); } else { Write32(a, v); }
    }

    /** Any trap: the table is emptied first. */
    method EnterTrap(cause: Cause, epc: bv32)
      requires Valid()
      modifies bus, bus.reservations.table, bus.reservations.table.entries
      ensures Valid() && bus.reservations.table.entries == old(bus.reservations.table.entries)
      ensures bus.st == Take(old(bus.st), cause, epc)
    {
      bus.reservations.ClearOnTrap();
      bus.st := Take(bus.st, cause, epc);
    }

    /** One event on the table is the event of the model. */
    method Execute(e: Event) returns (running: bool)
      requires Valid() && (e.Compute? ==> |e.gpr| == 32)
      modifies bus, bus.reservations.table, bus.reservations.table.entries
      ensures Valid() && OldOrFresh(old(bus.reservations.table.entries))
      ensures running <==> Proceeds(old(bus.st), e)
      ensures bus.st == if running then Step(old(bus.st), e) else old(bus.st)
    {
      hide LrW, ScW, AmoW, StoreW, Take, RegRead, WordAligned, StoreAddress;
      running := true;
      match e {
        case Lr(rs1, rd) => running := Lr(rs1, rd);
        case Sc(rs1, rs2, rd) => running := Sc(rs1, rs2, rd);
        case Amo(op, rs1, rs2, rd) => running := Amo(op, rs1, rs2, rd);
        case StoreTo(width, imm, rs2, rs1) => StoreRegister(width, imm, rs2, rs1);
        case Trapped(cause, epc) => EnterTrap(cause, epc);
        case Compute(gpr, pc) => bus.st := bus.st.(gpr := gpr, pc := pc);
      }
    }
  }

  /** The states so far are joined by steps of the model. */
  ghost predicate Steps(states: seq<State>, events: seq<Event>) {
    && |states| <= |events| + 1
    && (forall i :: 0 <= i < |states| ==> states[i].Valid())
    && forall i :: 0 <= i < |states| - 1 ==>
         Proceeds(states[i], events[i]) && states[i + 1] == Step(states[i], events[i])
  }

  lemma NoSteps(s: State, events: seq<Event>)
    requires s.Valid()
    ensures Steps([s], events)
  {}

  lemma OneMore(states: seq<State>, events: seq<Event>, t: State)
    requires 0 < |states| <= |events| && Steps(states, events)
    requires var s, e := states[|states| - 1], events[|states| - 1]; Proceeds(s, e) && t == Step(s, e)
    ensures Steps(states + [t], events)
  {
    hide Proceeds, Step;
  }

  lemma StepsMakeRun(states: seq<State>, events: seq<Event>)
    requires |states| >= 1 && Steps(states, events) && states[0].flags == map[]
    requires forall i :: 0 <= i < |states| - 1 ==> Identity(states[i])
    ensures IsRun(states, events[..|states| - 1])
  {
    hide Proceeds, Step, Identity;
  }

  /**
    A whole run on the hash table, up to the first misaligned atomic. As long
    as data accesses are not translated it is a run of the model, so every
    theorem of `LrSc` about runs is one about the table.
   */
  method RunOnTable(s: State, events: seq<Event>) returns (states: seq<State>)
    requires s.Valid() && s.flags == map[]
    requires forall i :: 0 <= i < |events| && events[i].Compute? ==> |events[i].gpr| == 32
    ensures |states| >= 1 && states[0] == s && Steps(states, events)
    ensures |states| <= |events| ==> !Proceeds(states[|states| - 1], events[|states| - 1])
    ensures (forall i :: 0 <= i < |states| - 1 ==> Identity(states[i])) ==> IsRun(states, events[..|states| - 1])
  {
    hide Proceeds, Step, Identity, Steps, IsRun;
    var core := new Core(s);
    states := [s];
    NoSteps(s, events);
    var running := true;
    while |states| <= |events| && running
      invariant core.Valid()
      invariant fresh(core.bus) && fresh(core.bus.reservations.table) && fresh(core.bus.reservations.table.entries)
      invariant 1 <= |states| <= |events| + 1 && states[0] == s && states[|states| - 1] == core.bus.st
      invariant Steps(states, events)
      invariant !running ==> |states| <= |events| && !Proceeds(states[|states| - 1], events[|states| - 1])
      decreases |events| + 1 - |states|, running
    {
      running := core.Execute(events[|states| - 1]);
      if running {
        OneMore(states, events, core.bus.st);
        states := states + [core.bus.st];
      }
    }
    if forall i :: 0 <= i < |states| - 1 ==> Identity(states[i]) { StepsMakeRun(states, events); }
  }
}
