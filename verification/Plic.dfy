/**
  The platform-level interrupt controller of src/device/plic.c: ten level
  sensitive sources, two contexts (0 = machine, 1 = supervisor), and the
  claim/complete handshake.
 */
module Plic {
  import opened Words

  /** Source numbers; 0 stands for "none". */
  type Id = nat

  const PLIC_NDEV: Id := 10

  predicate IsSource(id: Id) { 1 <= id <= PLIC_NDEV }

  datatype Context = Machine | Supervisor

  const NO_BITS: Bits := [
    false, false, false, false, false, false, false, false,
    false, false, false, false, false, false, false, false,
    false, false, false, false, false, false, false, false,
    false, false, false, false, false, false, false, false]

  /** What the controller keeps for one context; `claimed[id]` marks a source in service. */
  datatype Port = Port(enable: Bits, threshold: bv3, claimed: seq<bool>)

  datatype State = State(priority: seq<bv3>, pending: Bits, machine: Port, supervisor: Port) {
    function At(c: Context): Port { if c.Machine? then machine else supervisor }

    function With(c: Context, p: Port): State {
      if c.Machine? then this.(machine := p) else this.(supervisor := p)
    }

    predicate Valid() {
      |priority| == 11 && |machine.claimed| == 11 && |supervisor.claimed| == 11
    }
  }

  const QUIET := Port(NO_BITS, 0, [false, false, false, false, false, false, false, false, false, false, false])

  const RESET := State([0, 0, 0, 0, 0, 0, 0, 0, 0, 0, 0], NO_BITS, QUIET, QUIET)

  // ---------------------------------------------------------------------
  // Which source a context would be given
  // ---------------------------------------------------------------------

  function PriorityOf(p: State, id: Id): bv3
    requires p.Valid()
  {
    if IsSource(id) then p.priority[id] else 0
  }

  /** Asserted, not in service here, enabled, and above the threshold. */
  predicate Eligible(p: State, c: Context, id: Id)
    requires p.Valid()
  {
    && IsSource(id)
    && p.pending[id]
    && !p.At(c).claimed[id]
    && p.At(c).enable[id]
    && PriorityOf(p, id) > p.At(c).threshold
  }

  ghost function EligibleSet(p: State, c: Context): set<Id>
    requires p.Valid()
  {
    set id | 1 <= id <= PLIC_NDEV && Eligible(p, c, id)
  }

  /** Claim order: higher priority first, and the higher id among equals. */
  predicate Before(p: State, a: Id, b: Id)
    requires p.Valid()
  {
    PriorityOf(p, a) > PriorityOf(p, b) || (PriorityOf(p, a) == PriorityOf(p, b) && a > b)
  }

  /** `r` is the source to serve, or 0 when there is none. */
  ghost predicate IsBest(p: State, c: Context, r: Id)
    requires p.Valid()
  {
    if r == 0 then EligibleSet(p, c) == {}
    else r in EligibleSet(p, c) && forall id :: id in EligibleSet(p, c) && id != r ==> Before(p, r, id)
  }

  /** The best among the first `n` sources, by the running comparison of plic_best_source. */
  function BestUpTo(p: State, c: Context, n: Id): Id
    requires p.Valid() && n <= PLIC_NDEV
  {
    if n == 0 then 0
    else
      var best := BestUpTo(p, c, n - 1);
      if Eligible(p, c, n) && PriorityOf(p, n) >= PriorityOf(p, best) then n else best
  }

  function Best(p: State, c: Context): Id
    requires p.Valid()
  {
    BestUpTo(p, c, PLIC_NDEV)
  }

  lemma {:induction false} BestUpToIsBest(p: State, c: Context, n: Id)
    requires p.Valid() && n <= PLIC_NDEV
    ensures BestUpTo(p, c, n) <= n
    ensures BestUpTo(p, c, n) != 0 ==> Eligible(p, c, BestUpTo(p, c, n))
    ensures forall id: Id :: id <= n && Eligible(p, c, id) && id != BestUpTo(p, c, n) ==>
              BestUpTo(p, c, n) != 0 && Before(p, BestUpTo(p, c, n), id)
  {
    if n > 0 { BestUpToIsBest(p, c, n - 1); }
  }

  /** The loop of plic_best_source finds the first source in claim order. */
  lemma BestIsBest(p: State, c: Context)
    requires p.Valid()
    ensures IsBest(p, c, Best(p, c))
  {
    hide PriorityOf;
    BestUpToIsBest(p, c, PLIC_NDEV);
  }

  lemma BestIsUnique(p: State, c: Context, r: Id, q: Id)
    requires p.Valid() && IsBest(p, c, r) && IsBest(p, c, q)
    ensures r == q
  {
    hide PriorityOf, EligibleSet;
  }

  // ---------------------------------------------------------------------
  // Registers
  // ---------------------------------------------------------------------

  datatype Reg =
    | Priority(id: Id)
    | Pending
    | Enable(context: Context)
    | Threshold(context: Context)
    | Claim(context: Context)
    | Unmapped

  /** The register map, by address. */
  function RegAt(off: nat): (r: Reg)
    ensures r.Priority? ==> IsSource(r.id)
  {
    if 0x4 <= off < 0x2C then Priority(off / 4)
    else if 0x1000 <= off < 0x1004 then Pending
    else if 0x2000 <= off < 0x2004 then Enable(Machine)
    else if 0x2080 <= off < 0x2084 then Enable(Supervisor)
    else if off == 0x20_0000 then Threshold(Machine)
    else if off == 0x20_0004 then Claim(Machine)
    else if off == 0x20_1000 then Threshold(Supervisor)
    else if off == 0x20_1004 then Claim(Supervisor)
    else Unmapped
  }

  /** The source a completion names. */
  function Completed(val: bv32): Id { ((val & 0x1F) as bv5) as nat }

  /** Puts a source in service in one context. */
  function SetClaimed(p: State, c: Context, id: Id, flag: bool): (r: State)
    requires p.Valid() && IsSource(id)
    ensures r.Valid()
  {
    p.With(c, p.At(c).(claimed := p.At(c).claimed[id := flag]))
  }

  /** A claim: the best source, now in service in this context. */
  function ClaimBest(p: State, c: Context): (r: (State, Id))
    requires p.Valid()
    ensures r.0.Valid()
  {
    BestIsBest(p, c);
    var id := Best(p, c);
    if id == 0 then (p, 0) else (SetClaimed(p, c, id, true), id)
  }

  /** A register's contents: a number, or a word of 32 lines. */
  datatype Data = Number(n: nat) | Lines(bits: Bits)

  const ZERO := Number(0)

  function ReadReg(p: State, reg: Reg): (r: (State, Data))
    requires p.Valid() && (reg.Priority? ==> IsSource(reg.id))
    ensures r.0.Valid()
  {
    match reg
    case Priority(id) => (p, Number(PriorityOf(p, id) as nat))
    case Pending => (p, Lines(p.pending))
    case Enable(c) => (p, Lines(p.At(c).enable))
    case Threshold(c) => (p, Number(p.At(c).threshold as nat))
    case Claim(c) => var (q, id) := ClaimBest(p, c); (q, Number(id))
    case Unmapped => (p, Number(0))
  }

  function WriteReg(p: State, reg: Reg, val: bv32): (r: State)
    requires p.Valid() && (reg.Priority? ==> IsSource(reg.id))
    ensures r.Valid()
  {
    match reg
    case Priority(id) => p.(priority := p.priority[id := (val & 0x7) as bv3])
    case Enable(c) => p.With(c, p.At(c).(enable := ToBits(val)))
    case Threshold(c) => p.With(c, p.At(c).(threshold := (val & 0x7) as bv3))
    case Claim(c) =>
      var id := Completed(val);
      if IsSource(id) then SetClaimed(p, c, id, false) else p
    case _ => p
  }

  /** plic_set_irq: the live level of a device line. */
  function SetLine(p: State, id: Id, level: bool): (r: State)
    requires p.Valid()
    ensures r.Valid()
  {
    if id < 1 || id > PLIC_NDEV then p
    else if level then p.(pending := p.pending[id := true])
    else p.(pending := p.pending[id := false])
  }

  // ---------------------------------------------------------------------
  // The controller
  // ---------------------------------------------------------------------

  class Controller {
    var st: State

    constructor ()
      ensures st == RESET && st.Valid()
    {
      st := RESET;
    }

    /** plic_best_source */
    method BestSource(c: Context) returns (best: Id)
      requires st.Valid()
      ensures best == Best(st, c) && IsBest(st, c, best)
    {
      hide IsBest;
      best := 0;
      var bestPri: bv3 := 0;
      var id := 1;
      while id <= PLIC_NDEV
        invariant 1 <= id <= PLIC_NDEV + 1
        invariant best == BestUpTo(st, c, id - 1) && bestPri == PriorityOf(st, best)
      {
        var i := id;
        id := id + 1;
        if !st.pending[i] { continue; }
        if st.At(c).claimed[i] { continue; }
        if !st.At(c).enable[i] { continue; }
        if st.priority[i] <= st.At(c).threshold { continue; }
        if st.priority[i] >= bestPri {
          bestPri := st.priority[i];
          best := i;
        }
      }
      BestIsBest(st, c);
    }

    static function ContextOf(n: nat): Context { if n == 0 then Machine else Supervisor }

    /** plic_read32: a claim read changes the controller. */
    method Read32(off: nat) returns (val: Data)
      requires st.Valid()
      modifies this
      ensures st.Valid() && (st, val) == ReadReg(old(st), RegAt(off))
    {
      if off >= 0x4 && off < 0x2C {
        var id := off / 4;
        if id >= 1 && id <= PLIC_NDEV { return Number(st.priority[id] as nat); }
        return ZERO;
      }
      if off >= 0x1000 && off < 0x1004 { return Lines(st.pending); }
      if off >= 0x2000 && off < 0x2100 {
        var c := ContextOf((off - 0x2000) / 0x80);
        var word := ((off - 0x2000) % 0x80) / 4;
        return if word == 0 then Lines(st.At(c).enable) else ZERO;
      }
      if off >= 0x20_0000 && off < 0x20_2000 {
        var c := ContextOf((off - 0x20_0000) / 0x1000);
        var sub := (off - 0x20_0000) % 0x1000;
        if sub == 0 { return Number(st.At(c).threshold as nat); }
        if sub == 4 {
          var id := BestSource(c);
          if id >= 1 && id <= PLIC_NDEV {
            st := SetClaimed(st, c, id, true);
            return Number(id);
          }
          return ZERO;
        }
        return ZERO;
      }
      return ZERO;
    }

    /** plic_write32 */
    method Write32(off: nat, val: bv32)
      requires st.Valid()
      modifies this
      ensures st.Valid() && st == WriteReg(old(st), RegAt(off), val)
    {
      if off >= 0x4 && off < 0x2C {
        var id := off / 4;
        if id >= 1 && id <= PLIC_NDEV { st := st.(priority := st.priority[id := (val & 0x7) as bv3]); }
        return;
      }
      if off >= 0x2000 && off < 0x2100 {
        var c := ContextOf((off - 0x2000) / 0x80);
        var word := ((off - 0x2000) % 0x80) / 4;
        if word == 0 { st := st.With(c, st.At(c).(enable := ToBits(val))); }
        return;
      }
      if off >= 0x20_0000 && off < 0x20_2000 {
        var c := ContextOf((off - 0x20_0000) / 0x1000);
        var sub := (off - 0x20_0000) % 0x1000;
        if sub == 0 {
          st := st.With(c, st.At(c).(threshold := (val & 0x7) as bv3));
          return;
        }
        if sub == 4 {
          var id := Completed(val);
          if id >= 1 && id <= PLIC_NDEV { st := SetClaimed(st, c, id, false); }
        }
      }
    }
  }

  // ---------------------------------------------------------------------
  // Repeated claims
  // ---------------------------------------------------------------------

  /** The answers to `n` claims in a row. */
  function Claims(p: State, c: Context, n: nat): (r: seq<Id>)
    requires p.Valid()
    ensures |r| == n
    decreases n
  {
    if n == 0 then [] else [ClaimBest(p, c).1] + Claims(ClaimBest(p, c).0, c, n - 1)
  }

  /** A claim takes the first eligible source out of the running and changes nothing else. */
  lemma ClaimShrinks(p: State, c: Context)
    requires p.Valid()
    ensures var (q, id) := ClaimBest(p, c);
      && IsBest(p, c, id)
      && EligibleSet(q, c) == EligibleSet(p, c) - {id}
      && q.priority == p.priority
  {
    BestIsBest(p, c);
    var id := Best(p, c);
    hide Best, PriorityOf;
    var q := ClaimBest(p, c).0;
    forall j: Id | IsSource(j) ensures Eligible(q, c, j) <==> Eligible(p, c, j) && j != id {
      assert PriorityOf(q, j) == PriorityOf(p, j) by { SamePriority(p, q, j); }
    }
  }

  lemma SamePriority(p: State, q: State, id: Id)
    requires p.Valid() && q.Valid() && p.priority == q.priority
    ensures PriorityOf(p, id) == PriorityOf(q, id)
  {}

  /** `r` hands out each of `e` exactly once, in claim order, and then only 0. */
  ghost predicate HandsOut(p: State, r: seq<Id>, e: set<Id>)
    requires p.Valid()
  {
    && (forall i :: 0 <= i < |r| ==> (r[i] != 0 <==> i < |e|))
    && (forall i :: 0 <= i < |r| && i < |e| ==> r[i] in e)
    && (forall i, j :: 0 <= i < j < |r| && j < |e| ==> Before(p, r[i], r[j]) && r[i] != r[j])
    && (|r| >= |e| ==> forall id :: id in e ==> id in r)
  }

  lemma HandsOutFirst(p: State, id: Id, rest: seq<Id>, e: set<Id>)
    requires p.Valid() && id != 0 && id in e
    requires forall j :: j in e && j != id ==> Before(p, id, j)
    requires HandsOut(p, rest, e - {id})
    ensures HandsOut(p, [id] + rest, e)
  {
    hide Before;
    var r := [id] + rest;
    assert |e - {id}| == |e| - 1;
    assert forall i :: 0 < i < |r| ==> r[i] == rest[i - 1];
    forall j | j in e && |r| >= |e| ensures j in r {
      if j == id { assert r[0] == id; } else { assert j in rest; }
    }
  }

  lemma HandsOutSame(p: State, q: State, r: seq<Id>, e: set<Id>)
    requires p.Valid() && q.Valid() && p.priority == q.priority
    requires HandsOut(q, r, e)
    ensures HandsOut(p, r, e)
  {
    forall a: Id, b: Id ensures Before(q, a, b) == Before(p, a, b) {
      SamePriority(p, q, a);
      SamePriority(p, q, b);
    }
    hide Before;
  }

  lemma {:induction false} HandsOutNothing(p: State, n: nat, c: Context)
    requires p.Valid() && EligibleSet(p, c) == {}
    ensures HandsOut(p, Claims(p, c, n), {})
  {
    hide EligibleSet, Best, Before;
    if n > 0 {
      BestIsBest(p, c);
      HandsOutNothing(p, n - 1, c);
    }
  }

  /**
    With everything else fixed, claims in a row hand out each eligible source
    exactly once, in claim order, and then 0 for ever.
   */
  lemma {:induction false} ClaimsInOrder(p: State, c: Context, n: nat)
    requires p.Valid()
    ensures HandsOut(p, Claims(p, c, n), EligibleSet(p, c))
    decreases n
  {
    hide PriorityOf, Best, Eligible, EligibleSet, Before;
    var (q, id) := ClaimBest(p, c);
    ClaimShrinks(p, c);
    if id == 0 {
      HandsOutNothing(p, n, c);
    } else if n > 0 {
      ClaimsInOrder(q, c, n - 1);
      HandsOutSame(p, q, Claims(q, c, n - 1), EligibleSet(q, c));
      HandsOutFirst(p, id, Claims(q, c, n - 1), EligibleSet(p, c));
    }
  }

  // ---------------------------------------------------------------------
  // Whole runs
  // ---------------------------------------------------------------------

  /** Register accesses by the hart and level changes by devices. */
  datatype Op = Read(off: nat) | Write(off: nat, val: bv32) | Line(id: Id, level: bool)

  function Step(p: State, op: Op): (q: State)
    requires p.Valid()
    ensures q.Valid()
  {
    match op
    case Read(off) => ReadReg(p, RegAt(off)).0
    case Write(off, val) => WriteReg(p, RegAt(off), val)
    case Line(id, level) => SetLine(p, id, level)
  }

  ghost predicate IsRun(states: seq<State>, ops: seq<Op>) {
    && |states| == |ops| + 1
    && (forall i :: 0 <= i < |states| ==> states[i].Valid())
    && forall i :: 0 <= i < |ops| ==> states[i + 1] == Step(states[i], ops[i])
  }

  /** Operation `op` in state `p` is a claim by `c` that returns source `id`. */
  ghost predicate ClaimsSource(p: State, op: Op, c: Context, id: Id)
    requires p.Valid()
  {
    IsSource(id) && op.Read? && RegAt(op.off) == Claim(c) && ClaimBest(p, c).1 == id
  }

  ghost predicate Completes(op: Op, c: Context, id: Id) {
    op.Write? && RegAt(op.off) == Claim(c) && Completed(op.val) == id
  }

  /** Only a completion by the same context takes a source out of service. */
  lemma StaysInService(p: State, op: Op, c: Context, id: Id)
    requires p.Valid() && IsSource(id) && p.At(c).claimed[id] && !Completes(op, c, id)
    ensures Step(p, op).At(c).claimed[id]
  {}

  lemma {:induction false} InServiceUntil(states: seq<State>, ops: seq<Op>, c: Context, id: Id, i: nat, j: nat)
    requires IsRun(states, ops) && IsSource(id) && i <= j <= |ops|
    requires states[i].At(c).claimed[id]
    requires forall k :: i <= k < j ==> !Completes(ops[k], c, id)
    ensures states[j].At(c).claimed[id]
  {
    if i < j {
      InServiceUntil(states, ops, c, id, i, j - 1);
      StaysInService(states[j - 1], ops[j - 1], c, id);
    }
  }

  /** In every run a context completes a source between two claims of it. */
  lemma CompletedBetweenClaims(states: seq<State>, ops: seq<Op>, c: Context, id: Id, i: nat, j: nat)
    requires IsRun(states, ops) && i < j < |ops|
    requires ClaimsSource(states[i], ops[i], c, id) && ClaimsSource(states[j], ops[j], c, id)
    ensures exists k :: i < k < j && Completes(ops[k], c, id)
  {
    BestIsBest(states[i], c);
    BestIsBest(states[j], c);
    assert Eligible(states[j], c, id);
    assert states[i + 1].At(c).claimed[id];
    if forall k :: i + 1 <= k < j ==> !Completes(ops[k], c, id) {
      InServiceUntil(states, ops, c, id, i + 1, j);
    }
  }

  // ---------------------------------------------------------------------
  // Completion, by address and value
  // ---------------------------------------------------------------------

  /** The claim registers lie at 0x20_0004 and 0x20_1004. */
  predicate IsClaimAddress(off: nat, c: Context) { off == if c.Machine? then 0x20_0004 else 0x20_1004 }

  lemma ClaimAddress(off: nat, c: Context)
    ensures RegAt(off) == Claim(c) <==> IsClaimAddress(off, c)
  {}

  /** The low five bits of the word written name the source. */
  lemma CompletedIs(val: bv32, id: bv5)
    ensures Completed(val) == id as nat <==> val & 0x1F == id as bv32
  {}

  lemma SourceNumbers(id: bv5)
    ensures IsSource(id as nat) <==> 1 <= id <= 10
  {}

  /** Writing a source's number to a context's claim register takes it out of service there and does nothing else. */
  lemma CompletionClears(p: State, c: Context, id: bv5, off: nat)
    requires p.Valid() && 1 <= id <= 10 && IsClaimAddress(off, c)
    ensures var q := Step(p, Write(off, id as bv32));
      && q == (if c.Machine? then p.(machine := q.machine) else p.(supervisor := q.supervisor))
      && q.At(c) == p.At(c).(claimed := p.At(c).claimed[id as nat := false])
  {
    hide Completed;
    ClaimAddress(off, c);
    SourceNumbers(id);
    LowFive(id);
    CompletedIs(id as bv32, id);
  }

  lemma LowFive(id: bv5) ensures (id as bv32) & 0x1F == id as bv32 {}

  /** Once completed, a source can be claimed again exactly when its line, enable and priority allow it. */
  lemma EligibleAfterCompletion(p: State, c: Context, id: bv5, off: nat)
    requires p.Valid() && 1 <= id <= 10 && IsClaimAddress(off, c)
    ensures var q := Step(p, Write(off, id as bv32));
      Eligible(q, c, id as nat) <==>
        p.pending[id as nat] && p.At(c).enable[id as nat] && p.priority[id as nat] > p.At(c).threshold
  {
    CompletionClears(p, c, id, off);
    SourceNumbers(id);
    hide Step;
  }

  /** The word written completes source `id` in context `c`. */
  predicate Finishes(op: Op, c: Context, id: bv5) {
    op.Write? && IsClaimAddress(op.off, c) && op.val & 0x1F == id as bv32
  }

  lemma FinishesCompletes(op: Op, c: Context, id: bv5)
    ensures Finishes(op, c, id) <==> Completes(op, c, id as nat)
  {
    hide Completed, RegAt, IsClaimAddress;
    if op.Write? {
      ClaimAddress(op.off, c);
      CompletedIs(op.val, id);
    }
  }

  /** A claim of `id` by `c` is a read of its claim register that returns `id`. */
  ghost predicate Takes(p: State, op: Op, c: Context, id: bv5)
    requires p.Valid()
  {
    op.Read? && IsClaimAddress(op.off, c) && ReadReg(p, RegAt(op.off)).1 == Number(id as nat)
  }

  lemma ReadService(p: State, reg: Reg, c: Context, id: Id)
    requires p.Valid() && IsSource(id) && (reg.Priority? ==> IsSource(reg.id))
    ensures ReadReg(p, reg).0.At(c).claimed[id] <==>
      (reg == Claim(c) && ReadReg(p, reg).1 == Number(id)) || p.At(c).claimed[id]
  {
    BestIsBest(p, c);
    hide Best, IsBest;
  }

  lemma WriteService(p: State, reg: Reg, val: bv32, c: Context, id: Id)
    requires p.Valid() && IsSource(id) && (reg.Priority? ==> IsSource(reg.id))
    ensures WriteReg(p, reg, val).At(c).claimed[id] <==>
      p.At(c).claimed[id] && !(reg == Claim(c) && Completed(val) == id)
  {
    hide Completed, ToBits;
  }

  lemma ServiceStep(p: State, op: Op, c: Context, id: bv5)
    requires p.Valid() && 1 <= id <= 10
    ensures Step(p, op).At(c).claimed[id as nat] <==>
      Takes(p, op, c, id) || (p.At(c).claimed[id as nat] && !Finishes(op, c, id))
  {
    hide Completed, Finishes, ReadReg, WriteReg, RegAt, IsClaimAddress;
    FinishesCompletes(op, c, id);
    SourceNumbers(id);
    match op
    case Read(off) =>
      ClaimAddress(off, c);
      ReadService(p, RegAt(off), c, id as nat);
    case Write(off, val) =>
      ClaimAddress(off, c);
      WriteService(p, RegAt(off), val, c, id as nat);
    case Line(_, _) =>
  }

  /** `id` was claimed in step `j` and not completed before step `n`. */
  ghost predicate InService(states: seq<State>, ops: seq<Op>, c: Context, id: bv5, j: nat, n: nat)
    requires IsRun(states, ops) && n <= |ops|
  {
    j < n && Takes(states[j], ops[j], c, id) && forall k :: j < k < n ==> !Finishes(ops[k], c, id)
  }

  /**
    In every run from reset a source is in service in a context exactly when a
    read of that context's claim register returned it and no word that names it
    was written there since.
   */
  lemma {:induction false} ServiceIff(states: seq<State>, ops: seq<Op>, c: Context, id: bv5, n: nat)
    requires IsRun(states, ops) && states[0] == RESET && n <= |ops| && 1 <= id <= 10
    ensures states[n].At(c).claimed[id as nat] <==> exists j: nat :: InService(states, ops, c, id, j, n)
  {
    hide Takes, Finishes, Step;
    if n == 0 {
      SourceNumbers(id);
    } else {
      ServiceIff(states, ops, c, id, n - 1);
      ServiceStep(states[n - 1], ops[n - 1], c, id);
      if states[n].At(c).claimed[id as nat] {
        if Takes(states[n - 1], ops[n - 1], c, id) {
          assert InService(states, ops, c, id, n - 1, n);
        } else {
          var j: nat :| InService(states, ops, c, id, j, n - 1);
          assert InService(states, ops, c, id, j, n);
        }
      }
      if j: nat :| InService(states, ops, c, id, j, n) {
        assert j < n - 1 ==> InService(states, ops, c, id, j, n - 1);
      }
    }
  }

  lemma TakesClaims(p: State, op: Op, c: Context, id: bv5)
    requires p.Valid() && 1 <= id <= 10 && Takes(p, op, c, id)
    ensures ClaimsSource(p, op, c, id as nat)
  {
    ClaimAddress(op.off, c);
    SourceNumbers(id);
    hide Best;
  }

  /**
    In every run, between two reads of a context's claim register that return
    the same source, a word that names the source was written there.
   */
  lemma FinishedBetweenClaims(states: seq<State>, ops: seq<Op>, c: Context, id: bv5, i: nat, j: nat)
    requires IsRun(states, ops) && i < j < |ops| && 1 <= id <= 10
    requires Takes(states[i], ops[i], c, id) && Takes(states[j], ops[j], c, id)
    ensures exists k :: i < k < j && Finishes(ops[k], c, id)
  {
    TakesClaims(states[i], ops[i], c, id);
    TakesClaims(states[j], ops[j], c, id);
    CompletedBetweenClaims(states, ops, c, id as nat, i, j);
    var k :| i < k < j && Completes(ops[k], c, id as nat);
    FinishesCompletes(ops[k], c, id);
    hide Finishes;
  }

  /** Claims and completions of one context leave the other's whole future of claims as it was. */
  lemma ContextsIndependent(p: State, op: Op, c: Context, other: Context, n: nat)
    requires p.Valid() && c != other
    requires !op.Line? && RegAt(op.off) == Claim(c)
    ensures EligibleSet(Step(p, op), other) == EligibleSet(p, other)
    ensures Claims(Step(p, op), other, n) == Claims(p, other, n)
  {
    var q := Step(p, op);
    SamePort(p, q, other, n);
  }

  lemma SameBest(p: State, q: State, c: Context)
    requires p.Valid() && q.Valid()
    requires p.priority == q.priority && p.pending == q.pending && p.At(c) == q.At(c)
    ensures EligibleSet(p, c) == EligibleSet(q, c) && Best(p, c) == Best(q, c)
  {
    forall id: Id ensures Eligible(p, c, id) == Eligible(q, c, id) && PriorityOf(p, id) == PriorityOf(q, id) {}
    hide Best, PriorityOf, Eligible;
    BestIsBest(p, c);
    BestIsBest(q, c);
    assert EligibleSet(p, c) == EligibleSet(q, c);
    assert IsBest(p, c, Best(q, c));
    BestIsUnique(p, c, Best(p, c), Best(q, c));
  }

  lemma {:induction false} SamePort(p: State, q: State, c: Context, n: nat)
    requires p.Valid() && q.Valid()
    requires p.priority == q.priority && p.pending == q.pending && p.At(c) == q.At(c)
    ensures EligibleSet(p, c) == EligibleSet(q, c)
    ensures Claims(p, c, n) == Claims(q, c, n)
    decreases n
  {
    hide Best, EligibleSet;
    SameBest(p, q, c);
    BestIsBest(p, c);
    if n > 0 { SamePort(ClaimBest(p, c).0, ClaimBest(q, c).0, c, n - 1); }
  }

  // ---------------------------------------------------------------------
  // A context as if the other never claimed
  // ---------------------------------------------------------------------

  /** A claim or completion of `c`. */
  predicate Handshake(op: Op, c: Context) { !op.Line? && RegAt(op.off) == Claim(c) }

  /** The run without the claims and completions of `c`. */
  function Without(ops: seq<Op>, c: Context): seq<Op> {
    if ops == [] then []
    else if Handshake(ops[0], c) then Without(ops[1..], c)
    else [ops[0]] + Without(ops[1..], c)
  }

  /** What the reads of a run return, apart from the claims of `c`. */
  function Answers(p: State, ops: seq<Op>, c: Context): seq<Data>
    requires p.Valid()
    decreases |ops|
  {
    if ops == [] then []
    else
      var rest := Answers(Step(p, ops[0]), ops[1..], c);
      if ops[0].Read? && !Handshake(ops[0], c) then [ReadReg(p, RegAt(ops[0].off)).1] + rest else rest
  }

  /** Equal but for what `c` has in service. */
  ghost predicate SameButService(p: State, q: State, c: Context) {
    p.Valid() && q.Valid() && q == p.With(c, p.At(c).(claimed := q.At(c).claimed))
  }

  lemma HandshakeHidden(p: State, q: State, op: Op, c: Context)
    requires SameButService(p, q, c) && Handshake(op, c)
    ensures SameButService(Step(p, op), q, c)
  {
    hide Best;
  }

  lemma OtherReadSame(p: State, q: State, reg: Reg, c: Context)
    requires SameButService(p, q, c) && reg != Claim(c) && (reg.Priority? ==> IsSource(reg.id))
    ensures SameButService(ReadReg(p, reg).0, ReadReg(q, reg).0, c)
    ensures ReadReg(p, reg).1 == ReadReg(q, reg).1
  {
    if reg.Claim? {
      SameBest(p, q, reg.context);
      hide Best, EligibleSet;
      BestIsBest(p, reg.context);
    }
  }

  lemma OtherWriteSame(p: State, q: State, reg: Reg, val: bv32, c: Context)
    requires SameButService(p, q, c) && reg != Claim(c) && (reg.Priority? ==> IsSource(reg.id))
    ensures SameButService(WriteReg(p, reg, val), WriteReg(q, reg, val), c)
  {
    hide ToBits, Completed;
  }

  lemma OtherStepSame(p: State, q: State, op: Op, c: Context)
    requires SameButService(p, q, c) && !Handshake(op, c)
    ensures SameButService(Step(p, op), Step(q, op), c)
    ensures op.Read? ==> ReadReg(p, RegAt(op.off)).1 == ReadReg(q, RegAt(op.off)).1
  {
    match op
    case Read(off) =>
      hide ReadReg, RegAt;
      OtherReadSame(p, q, RegAt(off), c);
    case Write(off, val) =>
      hide WriteReg, RegAt;
      OtherWriteSame(p, q, RegAt(off), val, c);
    case Line(_, _) =>
  }

  lemma {:induction false} AnswersSame(p: State, q: State, ops: seq<Op>, c: Context)
    requires SameButService(p, q, c)
    ensures Answers(p, ops, c) == Answers(q, Without(ops, c), c)
    decreases |ops|
  {
    hide ReadReg, RegAt, Step;
    if ops != [] {
      if Handshake(ops[0], c) {
        HandshakeHidden(p, q, ops[0], c);
        AnswersSame(Step(p, ops[0]), q, ops[1..], c);
      } else {
        OtherStepSame(p, q, ops[0], c);
        AnswersSame(Step(p, ops[0]), Step(q, ops[0]), ops[1..], c);
        assert ([ops[0]] + Without(ops[1..], c))[1..] == Without(ops[1..], c);
      }
    }
  }

  /**
    Deleting every claim and completion of one context from any run changes no
    answer that any other read of the run returns.
   */
  lemma HandshakesInvisible(p: State, ops: seq<Op>, c: Context)
    requires p.Valid()
    ensures Answers(p, ops, c) == Answers(p, Without(ops, c), c)
  {
    AnswersSame(p, p, ops, c);
  }
}
