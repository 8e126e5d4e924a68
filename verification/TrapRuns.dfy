/**
  Whole runs of traps and returns: a supervisor trap survives any number of
  machine detours (section 3.1.6.1 of the RISC-V Privileged Architecture
  20211203).
 */
module TrapRuns {
  import opened Wrappers
  import opened Words
  import opened Machine
  import opened Csr
  import opened Trap

  /** Code that leaves the privilege, the status word and both return addresses alone. */
  ghost predicate Handler(a: State, b: State) {
    && b.priv == a.priv
    && b.csr.mstatus == a.csr.mstatus
    && b.csr.mepc == a.csr.mepc
    && b.csr.sepc == a.csr.sepc
  }

  /** A machine trap taken in state `before`, whose handler ends with mret in state `after`. */
  datatype Detour = Detour(before: State, cause: Cause, after: State)

  ghost predicate IsDetour(s: State, d: Detour) {
    && Handler(s, d.before)
    && !Delegated(d.before, d.cause)
    && Handler(Take(d.before, d.cause, d.before.pc), d.after)
  }

  /** Where a chain of detours that started in `s` has come back to. */
  ghost function End(s: State, ds: seq<Detour>): State {
    if ds == [] then s else Mret(ds[|ds| - 1].after)
  }

  ghost predicate Detours(s: State, ds: seq<Detour>) {
    ds != [] ==>
      var n := |ds| - 1;
      Detours(s, ds[..n]) && IsDetour(End(s, ds[..n]), ds[n])
  }

  /** The bits a machine trap and its return leave as they were. */
  ghost predicate SameStack(a: Bits, b: Bits) {
    a[MIE] == b[MIE] && a[SIE] == b[SIE] && a[SPIE] == b[SPIE] && a[SPP] == b[SPP] && a[TSR] == b[TSR]
  }

  lemma MachineStackRoundTrip(m: Bits, p: Privilege)
    ensures PrivilegeOf(PushMachine(m, p)) == p
    ensures SameStack(PopMachine(PushMachine(m, p)), m)
  {
    var w: Bits := WithMpp(m, p)[MPIE := m[MIE]][MIE := false];
    var x := MstatusWrite(w);
    assert x[11] == w[11] && x[12] == w[12] && x[MPIE] == m[MIE];
    assert x[SIE] == m[SIE] && x[SPIE] == m[SPIE] && x[SPP] == m[SPP] && x[TSR] == m[TSR];
  }

  lemma SupervisorStackRoundTrip(m: Bits, p: Privilege)
    requires p == User || p == Supervisor
    ensures PushSupervisor(m, p)[SPP] == (p == Supervisor)
    ensures PushSupervisor(m, p)[MIE] == m[MIE] && PushSupervisor(m, p)[TSR] == m[TSR]
    ensures PushSupervisor(m, p)[SPIE] == m[SIE]
    ensures forall x: Bits :: SameStack(x, PushSupervisor(m, p)) ==>
              PopSupervisor(x)[SIE] == m[SIE] && PopSupervisor(x)[MIE] == m[MIE]
  {}

  /** Every machine trap closed by mret resumes where it was taken and disturbs no supervisor state. */
  lemma DetourReturns(s: State, d: Detour)
    requires IsDetour(s, d)
    ensures var e := Mret(d.after);
      && e.priv == s.priv
      && e.pc + 4 == d.before.pc
      && e.csr.sepc == s.csr.sepc
      && SameStack(e.csr.mstatus, s.csr.mstatus)
  {
    MachineStackRoundTrip(d.before.csr.mstatus, d.before.priv);
    hide PushMachine, PopMachine, PrivilegeOf, SameStack, Vector, CauseWord;
  }

  lemma SameStackTransitive(a: Bits, b: Bits, c: Bits)
    requires SameStack(a, b) && SameStack(b, c)
    ensures SameStack(a, c)
  {}

  lemma {:induction false} DetoursReturn(s: State, ds: seq<Detour>)
    requires Detours(s, ds)
    ensures var e := End(s, ds);
      && e.priv == s.priv
      && e.csr.sepc == s.csr.sepc
      && SameStack(e.csr.mstatus, s.csr.mstatus)
  {
    if ds != [] {
      var n := |ds| - 1;
      DetoursReturn(s, ds[..n]);
      DetourReturns(End(s, ds[..n]), ds[n]);
      SameStackTransitive(End(s, ds).csr.mstatus, End(s, ds[..n]).csr.mstatus, s.csr.mstatus);
    }
  }

  /**
    A trap into supervisor level from U or S, any number of machine detours,
    and sret: the run resumes at the trapped instruction with the privilege,
    SIE and MIE it had.
   */
  lemma SupervisorTrapRestored(s: State, c: Cause, ds: seq<Detour>, r: State)
    requires Delegated(s, c) && !s.csr.mstatus[TSR]
    requires Detours(Take(s, c, s.pc), ds)
    requires Handler(End(Take(s, c, s.pc), ds), r)
    ensures var e := Sret(r);
      && e.priv == s.priv
      && e.pc + 4 == s.pc
      && e.csr.mstatus[SIE] == s.csr.mstatus[SIE]
      && e.csr.mstatus[MIE] == s.csr.mstatus[MIE]
  {
    var t := Take(s, c, s.pc);
    DetoursReturn(t, ds);
    SupervisorStackRoundTrip(s.csr.mstatus, s.priv);
    hide PushSupervisor, PopSupervisor, Vector, CauseWord;
  }

  /** No trap entry lowers the privilege, and delegation decides the level entered. */
  lemma TrapsNeverLowerPrivilege(s: State, c: Cause, epc: bv32)
    ensures Take(s, c, epc).priv.Rank() >= s.priv.Rank()
    ensures Take(s, c, epc).priv == if Delegated(s, c) then Supervisor else Privilege.Machine
  {
    hide PushMachine, PushSupervisor, Vector, CauseWord;
    var t := Take(s, c, epc);
    assert Delegated(s, c) ==> s.priv == User || s.priv == Supervisor;
    hide Delegated;
    assert t.priv == if Delegated(s, c) then Supervisor else Privilege.Machine;
  }

  // ---------------------------------------------------------------------
  // Back-to-back interrupt dispatch
  // ---------------------------------------------------------------------

  datatype Taken = Taken(irq: bv5, from: Privilege, into: Privilege)

  /**
    The interrupts taken by one dispatch after another with no instruction in
    between; `ls` are the device lines each dispatch finds.
   */
  function Polls(s: State, ls: seq<Lines>): seq<Taken>
    decreases |ls|
  {
    if ls == [] then []
    else match Chosen(s, ls[0])
      case None => Polls(s, ls[1..])
      case Some(irq) =>
        var t := Take(s, Interrupt(irq), s.pc);
        [Taken(irq, s.priv, t.priv)] + Polls(t, ls[1..])
  }

  /** Only supervisor lines are delegated, as far as the dispatch can tell. */
  predicate NoMachineDelegation(mideleg: Bits) { !mideleg[MSIP] && !mideleg[MTIP] && !mideleg[MEIP] }

  lemma {:induction false} MachineMaskedIsQuiet(s: State, ls: seq<Lines>)
    requires s.priv == Privilege.Machine && !s.csr.mstatus[MIE]
    ensures Polls(s, ls) == []
  {
    if ls != [] { MachineMaskedIsQuiet(s, ls[1..]); }
  }

  /** A line left for machine level is not delegated. */
  lemma MachineChoiceNotDelegated(s: State, l: Lines, irq: bv5)
    requires NoMachineDelegation(s.csr.mideleg)
    requires PickMachine(ForMachine(s, l)) == Some(irq)
    ensures !Delegated(s, Interrupt(irq))
  {
    var mip := ReadMip(s.csr.mip, l);
    forall i | i in S_BITS && ForMachine(s, l)[i] ensures !s.csr.mideleg[i] {
      assert mip[i] && s.csr.mie[i] && !ForSupervisor(s, l)[i];
      assert ReadSip(s.csr.mip, l)[i] && ReadSie(s.csr.mie)[i];
    }
  }

  lemma MachineEntryMasks(s: State, irq: bv5)
    requires !Delegated(s, Interrupt(irq))
    ensures var t := Take(s, Interrupt(irq), s.pc); t.priv == Privilege.Machine && !t.csr.mstatus[MIE]
  {
    hide Vector, CauseWord;
    var w: Bits := WithMpp(s.csr.mstatus, s.priv)[MPIE := s.csr.mstatus[MIE]][MIE := false];
    assert !MstatusWrite(w)[MIE];
  }

  lemma SupervisorEntryMasks(s: State, irq: bv5)
    requires Delegated(s, Interrupt(irq))
    ensures var t := Take(s, Interrupt(irq), s.pc);
      t.priv == Supervisor && !t.csr.mstatus[SIE] && t.csr.mideleg == s.csr.mideleg
  {
    hide Vector, CauseWord;
  }

  /** From supervisor level with SIE clear, only one machine interrupt can follow. */
  lemma {:induction false} OneMoreIntoMachine(s: State, ls: seq<Lines>)
    requires s.priv == Supervisor && !s.csr.mstatus[SIE] && NoMachineDelegation(s.csr.mideleg)
    ensures Polls(s, ls) == [] || exists irq :: Polls(s, ls) == [Taken(irq, Supervisor, Privilege.Machine)]
  {
    hide Take, PickMachine, ForMachine, ForSupervisor;
    if ls != [] {
      match Chosen(s, ls[0])
      case None => OneMoreIntoMachine(s, ls[1..]);
      case Some(irq) =>
        MachineChoiceNotDelegated(s, ls[0], irq);
        MachineEntryMasks(s, irq);
        MachineMaskedIsQuiet(Take(s, Interrupt(irq), s.pc), ls[1..]);
        assert Polls(s, ls) == [Taken(irq, Supervisor, Privilege.Machine)];
    }
  }

  /** One interrupt into S, then one into M, or fewer. */
  ghost predicate ShortBurst(ts: seq<Taken>) {
    |ts| <= 1 || (|ts| == 2 && ts[0].into == Supervisor && ts[1].from == Supervisor && ts[1].into == Privilege.Machine)
  }

  lemma {:induction false} AtMostTwo(s: State, ls: seq<Lines>)
    requires NoMachineDelegation(s.csr.mideleg)
    ensures ShortBurst(Polls(s, ls))
  {
    hide Take, Chosen;
    if ls != [] {
      match Chosen(s, ls[0])
      case None => AtMostTwo(s, ls[1..]);
      case Some(irq) =>
        var t := Take(s, Interrupt(irq), s.pc);
        if Delegated(s, Interrupt(irq)) {
          SupervisorEntryMasks(s, irq);
          OneMoreIntoMachine(t, ls[1..]);
        } else {
          MachineEntryMasks(s, irq);
          MachineMaskedIsQuiet(t, ls[1..]);
        }
    }
  }

  /** Every interrupt taken goes to S exactly when its line is delegated and it came from U or S. */
  lemma {:induction false} TakenByDelegation(s: State, ls: seq<Lines>, i: nat)
    requires i < |Polls(s, ls)|
    ensures var t := Polls(s, ls)[i];
      && (t.into == Supervisor || t.into == Privilege.Machine)
      && (t.into == Supervisor <==> s.csr.mideleg[t.irq as int] && (t.from == User || t.from == Supervisor))
      && t.into.Rank() >= t.from.Rank()
    decreases |ls|
  {
    hide Chosen, PushMachine, PushSupervisor, Vector, CauseWord;
    match Chosen(s, ls[0])
    case None => TakenByDelegation(s, ls[1..], i);
    case Some(irq) =>
      if i > 0 {
        TakenByDelegation(Take(s, Interrupt(irq), s.pc), ls[1..], i - 1);
      } else {
        TrapsNeverLowerPrivilege(s, Interrupt(irq), s.pc);
      }
  }

  // ---------------------------------------------------------------------
  // A delegated machine line makes the dispatch run away
  // ---------------------------------------------------------------------

  /** Supervisor level, SIE clear, MIE set, and only the delegated machine line `b` enabled and pending. */
  ghost predicate RunsAway(s: State, b: nat, irq: bv5) {
    && b in {MSIP, MTIP, MEIP} && irq as int == b
    && s.priv == Supervisor && !s.csr.mstatus[SIE] && s.csr.mstatus[MIE]
    && s.csr.mideleg[b]
    && s.csr.mie[b] && (forall i :: 0 <= i < 32 && i != b ==> !s.csr.mie[i])
    && s.csr.mip[MSIP]
  }

  lemma RunsAwayStep(s: State, b: nat, irq: bv5, l: Lines)
    requires RunsAway(s, b, irq) && l.timer && l.machine
    ensures Chosen(s, l) == Some(irq)
    ensures RunsAway(Take(s, Interrupt(irq), s.pc), b, irq)
  {
    hide Vector, CauseWord;
    var p := ForMachine(s, l);
    assert ReadMip(s.csr.mip, l)[b];
    assert forall i :: 0 <= i < 32 && i != b ==> !p[i];
    assert !ForSupervisor(s, l)[b] by { assert !ReadSie(s.csr.mie)[b]; }
    assert p[b];
    assert PickMachine(p).Some? && PickMachine(p).value as int == b;
  }

  lemma {:induction false} RunsAwayForEver(s: State, b: nat, irq: bv5, ls: seq<Lines>)
    requires RunsAway(s, b, irq) && forall i :: 0 <= i < |ls| ==> ls[i].timer && ls[i].machine
    ensures |Polls(s, ls)| == |ls|
    decreases |ls|
  {
    hide Take, Chosen, RunsAway;
    if ls != [] {
      RunsAwayStep(s, b, irq, ls[0]);
      RunsAwayForEver(Take(s, Interrupt(irq), s.pc), b, irq, ls[1..]);
    }
  }

  /**
    Exactly when no machine line is delegated does every burst of dispatches,
    from every state and whatever the devices do, take at most two interrupts.
   */
  lemma BurstsBoundedExactly(mideleg: Bits, model: State)
    ensures NoMachineDelegation(mideleg) <==>
              forall s: State, ls :: s.csr.mideleg == mideleg ==> ShortBurst(Polls(s, ls))
  {
    if NoMachineDelegation(mideleg) {
      forall s: State, ls | s.csr.mideleg == mideleg ensures ShortBurst(Polls(s, ls)) {
        AtMostTwo(s, ls);
      }
    } else {
      var b, irq: bv5 := if mideleg[MSIP] then MSIP else if mideleg[MTIP] then MTIP else MEIP,
                         if mideleg[MSIP] then 3 else if mideleg[MTIP] then 7 else 11;
      var s := model.(priv := Supervisor,
                      csr := model.csr.(mideleg := mideleg, mstatus := Zero()[MIE := true],
                                        mie := Zero()[b := true], mip := Zero()[MSIP := true]));
      var l := Lines(true, true, false);
      RunsAwayForEver(s, b, irq, [l, l, l]);
      assert |Polls(s, [l, l, l])| == 3;
    }
  }
}
