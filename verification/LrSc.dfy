/**
  Load-reserved and store-conditional (include/extension/a_extension.h) among
  atomics, stores (include/basic_instructions.h, include/mem.h) and traps.
 */
module LrSc {
  import opened Wrappers
  import opened Words
  import opened BitLaws
  import opened Addresses
  import opened Machine
  import opened Memory
  import opened Trap
  import opened Mmu
  import opened MmuAccess
  import opened Reservations

  datatype AmoOp = Swap | Add | And | Or | Xor | Max | Min | Maxu | Minu

  /** Signed comparison of two words. */
  predicate SignedLess(a: bv32, b: bv32) { Less(Flip(a), Flip(b)) }

  function AmoResult(op: AmoOp, old_: bv32, v: bv32): bv32 {
    match op
    case Swap => v
    case Add => Sum(old_, v)
    case And => BitAnd(old_, v)
    case Or => BitOr(old_, v)
    case Xor => BitXor(old_, v)
    case Max => if SignedLess(v, old_) then old_ else v
    case Min => if SignedLess(old_, v) then old_ else v
    case Maxu => if Less(v, old_) then old_ else v
    case Minu => if Less(old_, v) then old_ else v
  }

  /** insa_r_lr_w at an aligned address */
  function LrW(s: State, rs1: bv5, rd: bv5): (t: State)
    requires s.Valid()
    ensures t.Valid()
  {
    var a := RegRead(s, rs1);
    var (s1, v) := MmuRead32(s, a);
    var s2 := RegWrite(s1, rd, v);
    s2.(flags := Reserve(s2.flags, a))
  }

  /** insa_r_sc_w at an aligned address */
  function ScW(s: State, rs1: bv5, rs2: bv5, rd: bv5): (t: State)
    requires s.Valid()
    ensures t.Valid()
  {
    var a, v := RegRead(s, rs1), RegRead(s, rs2);
    if IsReserved(s.flags, a) then
      var s1 := RegWrite(MmuWrite32(s, a, v), rd, 0);
      s1.(flags := Unreserve(s1.flags, a))
    else RegWrite(s, rd, 1)
  }

  /** insa_r_amo*_w at an aligned address */
  function AmoW(s: State, op: AmoOp, rs1: bv5, rs2: bv5, rd: bv5): (t: State)
    requires s.Valid()
    ensures t.Valid()
  {
    var a, v := RegRead(s, rs1), RegRead(s, rs2);
    var (s1, w) := MmuRead32(s, a);
    RegWrite(MmuWrite32(s1, a, AmoResult(op, w, v)), rd, w)
  }

  datatype Width = Byte | Half | Full

  predicate Misfits(a: bv32, w: Width) {
    (w.Half? && a & 1 != 0) || (w.Full? && a & 3 != 0)
  }

  /** The store of each width once the address is known. */
  function StoreAt(s: State, width: Width, a: bv32, v: bv32): (t: State)
    requires s.Valid()
    ensures t.Valid()
  {
    if Misfits(a, width) then Take(s, Exception(6, a), s.pc)
    else match width
      case Byte => MmuWrite8(s, a, (v & 0xFF) as bv8)
      case Half => MmuWrite16(s, a, (v & 0xFFFF) as bv16)
      case Full => MmuWrite32(s, a, v)
  }

  function StoreAddress(s: State, imm: bv32, rs1: bv5): bv32
    requires |s.gpr| == 32
  {
    Sum(RegRead(s, rs1), imm)
  }

  /** insi_s_sb, insi_s_sh and insi_s_sw; no trigger fires. */
  function StoreW(s: State, width: Width, imm: bv32, rs2: bv5, rs1: bv5): (t: State)
    requires s.Valid()
    ensures t.Valid()
  {
    StoreAt(s, width, StoreAddress(s, imm, rs1), RegRead(s, rs2))
  }

  function MmuWrite16(s: State, va: bv32, v: bv16): (t: State)
    requires s.Valid()
    ensures t.Valid()
  {
    match Translate(s, va, Store)
    case None => Fault(s, va, Store)
    case Some(pa) => MemWrite16(s, pa, v)
  }

  // ---------------------------------------------------------------------
  // Runs
  // ---------------------------------------------------------------------

  /** One step of a run; `Compute` stands for any instruction that only touches registers and the pc. */
  datatype Event =
    | Lr(rs1: bv5, rd: bv5)
    | Sc(rs1: bv5, rs2: bv5, rd: bv5)
    | Amo(op: AmoOp, rs1: bv5, rs2: bv5, rd: bv5)
    | StoreTo(width: Width, imm: bv32, rs2: bv5, rs1: bv5)
    | Trapped(cause: Cause, epc: bv32)
    | Compute(gpr: seq<bv32>, pc: bv32)

  /** The address an event accesses. */
  function Target(s: State, e: Event): bv32
    requires s.Valid() && !e.Trapped? && !e.Compute?
  {
    if e.StoreTo? then StoreAddress(s, e.imm, e.rs1) else RegRead(s, e.rs1)
  }

  /** A misaligned LR, SC or AMO ends the emulation (`fatal`), so runs have none. */
  predicate Proceeds(s: State, e: Event)
    requires s.Valid()
  {
    && (e.Lr? || e.Sc? || e.Amo? ==> WordAligned(Target(s, e)))
    && (e.Compute? ==> |e.gpr| == 32)
  }

  function Step(s: State, e: Event): (t: State)
    requires s.Valid() && Proceeds(s, e)
    ensures t.Valid()
  {
    match e
    case Lr(rs1, rd) => LrW(s, rs1, rd)
    case Sc(rs1, rs2, rd) => ScW(s, rs1, rs2, rd)
    case Amo(op, rs1, rs2, rd) => AmoW(s, op, rs1, rs2, rd)
    case StoreTo(width, imm, rs2, rs1) => StoreW(s, width, imm, rs2, rs1)
    case Trapped(cause, epc) => Take(s, cause, epc)
    case Compute(gpr, pc) => s.(gpr := gpr, pc := pc)
  }

  /** Data accesses are not translated. */
  predicate Identity(s: State) { !VmActive(s, EffectivePrivilege(s, Load)) }

  ghost predicate IsRun(states: seq<State>, events: seq<Event>) {
    && |states| == |events| + 1
    && states[0].flags == map[]
    && (forall i :: 0 <= i < |states| ==> states[i].Valid())
    && (forall i :: 0 <= i < |events| ==> Identity(states[i]) && Proceeds(states[i], events[i]))
    && forall i :: 0 <= i < |events| ==> states[i + 1] == Step(states[i], events[i])
  }

  /** Event `e` is an LR.W on the word `k`. */
  predicate Reserves(s: State, e: Event, k: Word)
    requires s.Valid()
  {
    e.Lr? && KeyOf(Target(s, e)) == k
  }

  /** Event `e` is a trap, or a store, AMO or successful SC to the word `k`. */
  predicate Kills(s: State, e: Event, k: Word)
    requires s.Valid()
  {
    match e
    case Trapped(_, _) => true
    case StoreTo(width, _, _, _) => Misfits(Target(s, e), width) || KeyOf(Target(s, e)) == k
    case Amo(_, _, _, _) => KeyOf(Target(s, e)) == k
    case Sc(_, _, _) => KeyOf(Target(s, e)) == k && IsReserved(s.flags, Target(s, e))
    case _ => false
  }

  // ---------------------------------------------------------------------
  // One step
  // ---------------------------------------------------------------------

  /** Reservations are entries with value 1; the table holds nothing else. */
  ghost predicate Ones(m: map<Word, bv32>) { forall k :: k in m ==> m[k] == 1 }

  lemma IdentityTranslates(s: State, va: bv32, access: Access)
    requires s.Valid() && Identity(s) && !access.Fetch?
    ensures Translate(s, va, access) == Some(va)
  {
    hide VmActive, Peek;
  }

  lemma ReadUnderIdentity(s: State, a: bv32)
    requires s.Valid() && Identity(s)
    ensures MmuRead32(s, a) == MemRead32(s, a)
    ensures var t := MmuRead32(s, a).0; t == s.(devices := t.devices) && Identity(t)
  {
    hide MemRead32, Has, Translate;
    IdentityTranslates(s, a, Load);
  }

  lemma WriteUnderIdentity(s: State, a: bv32, v: bv32)
    requires s.Valid() && Identity(s)
    ensures MmuWrite32(s, a, v) == MemWrite32(s, a, v)
  {
    hide MemWrite32, VmActive, Translate;
    IdentityTranslates(s, a, Store);
  }

  lemma Write8UnderIdentity(s: State, a: bv32, v: bv8)
    requires s.Valid() && Identity(s)
    ensures MmuWrite8(s, a, v) == MemWrite8(s, a, v)
  {
    hide MemWrite8, VmActive, Translate;
    IdentityTranslates(s, a, Store);
  }

  lemma Write16UnderIdentity(s: State, a: bv32, v: bv16)
    requires s.Valid() && Identity(s)
    ensures MmuWrite16(s, a, v) == MemWrite16(s, a, v)
  {
    hide MemWrite16, VmActive, Translate;
    IdentityTranslates(s, a, Store);
  }

  lemma UnreserveAbsent(m: map<Word, bv32>, a: bv32)
    requires KeyOf(a) !in m
    ensures Unreserve(m, a) == m
  {}

  /** What each event does to the reservations. */
  function FlagsAfter(s: State, e: Event): map<Word, bv32>
    requires s.Valid()
  {
    match e
    case Lr(_, _) => s.flags[KeyOf(Target(s, e)) := 1]
    case Sc(_, _, _) => if IsReserved(s.flags, Target(s, e)) then s.flags - {KeyOf(Target(s, e))} else s.flags
    case Amo(_, _, _, _) => s.flags - {KeyOf(Target(s, e))}
    case StoreTo(width, _, _, _) => if Misfits(Target(s, e), width) then map[] else s.flags - {KeyOf(Target(s, e))}
    case Trapped(_, _) => map[]
    case Compute(_, _) => s.flags
  }

  lemma LrFlags(s: State, e: Event)
    requires s.Valid() && Identity(s) && Ones(s.flags) && e.Lr? && Proceeds(s, e)
    ensures Step(s, e).flags == FlagsAfter(s, e)
  {
    hide MemRead32, MmuRead32, Identity, RegRead, KeyOf, WordAligned;
    ReadUnderIdentity(s, RegRead(s, e.rs1));
    assert (0 as bv32) | 1 == 1 && (1 as bv32) | 1 == 1;
  }

  lemma ScFlags(s: State, e: Event)
    requires s.Valid() && Identity(s) && e.Sc? && Proceeds(s, e)
    ensures Step(s, e).flags == FlagsAfter(s, e)
  {
    hide Identity, RegRead, KeyOf, IsReserved, WordAligned, ScW;
    if IsReserved(s.flags, RegRead(s, e.rs1)) {
      ScStores(s, e.rs1, e.rs2, e.rd);
    } else {
      ScRefuses(s, e.rs1, e.rs2, e.rd);
    }
  }

  lemma ScStores(s: State, rs1: bv5, rs2: bv5, rd: bv5)
    requires s.Valid() && Identity(s) && IsReserved(s.flags, RegRead(s, rs1))
    ensures ScW(s, rs1, rs2, rd).flags == s.flags - {KeyOf(RegRead(s, rs1))}
  {
    hide MemWrite32, MmuWrite32, Identity, RegRead, KeyOf, IsReserved, Unreserve;
    var a, v := RegRead(s, rs1), RegRead(s, rs2);
    WriteUnderIdentity(s, a, v);
    UnreserveAbsent(MmuWrite32(s, a, v).flags, a);
  }

  lemma ScRefuses(s: State, rs1: bv5, rs2: bv5, rd: bv5)
    requires s.Valid() && !IsReserved(s.flags, RegRead(s, rs1))
    ensures ScW(s, rs1, rs2, rd).flags == s.flags
  {
    hide MmuWrite32, RegRead, IsReserved, Unreserve;
  }

  lemma AmoFlags(s: State, e: Event)
    requires s.Valid() && Identity(s) && e.Amo? && Proceeds(s, e)
    ensures Step(s, e).flags == FlagsAfter(s, e)
  {
    hide MemWrite32, MemRead32, MmuWrite32, MmuRead32, Identity, RegRead, KeyOf, AmoResult, WordAligned;
    var a := RegRead(s, e.rs1);
    ReadUnderIdentity(s, a);
    var (s1, w) := MmuRead32(s, a);
    WriteUnderIdentity(s1, a, AmoResult(e.op, w, RegRead(s, e.rs2)));
  }

  lemma StoreAtFlags(s: State, width: Width, a: bv32, v: bv32)
    requires s.Valid() && Identity(s)
    ensures StoreAt(s, width, a, v).flags == if Misfits(a, width) then map[] else s.flags - {KeyOf(a)}
  {
    hide MemWrite32, MemWrite16, MemWrite8, MmuWrite32, MmuWrite16, MmuWrite8, Identity, KeyOf, Misfits, Take;
    match width
    case Byte => Write8UnderIdentity(s, a, (v & 0xFF) as bv8);
    case Half => Write16UnderIdentity(s, a, (v & 0xFFFF) as bv16);
    case Full => WriteUnderIdentity(s, a, v);
  }

  lemma StoreFlags(s: State, e: Event)
    requires s.Valid() && Identity(s) && e.StoreTo? && Proceeds(s, e)
    ensures Step(s, e).flags == FlagsAfter(s, e)
  {
    hide StoreAt, StoreAddress, RegRead, KeyOf, Misfits, Identity;
    StoreAtFlags(s, e.width, Target(s, e), RegRead(s, e.rs2));
  }

  lemma StepFlags(s: State, e: Event)
    requires s.Valid() && Identity(s) && Proceeds(s, e) && Ones(s.flags)
    ensures Step(s, e).flags == FlagsAfter(s, e)
  {
    if e.Trapped? || e.Compute? {
      hide Take;
    } else {
      hide Step, FlagsAfter, Identity, Proceeds, Ones;
      if e.Lr? { LrFlags(s, e); }
      else if e.Sc? { ScFlags(s, e); }
      else if e.Amo? { AmoFlags(s, e); }
      else { StoreFlags(s, e); }
    }
  }

  lemma OnesAfter(s: State, e: Event)
    requires s.Valid() && Ones(s.flags)
    ensures Ones(FlagsAfter(s, e))
  {
    hide Target, KeyOf, IsReserved, Misfits;
  }

  // ---------------------------------------------------------------------
  // Whole runs
  // ---------------------------------------------------------------------

  lemma NoOnes()
    ensures Ones(map[])
  {}

  lemma {:induction false} RunKeepsOnes(states: seq<State>, events: seq<Event>, n: nat)
    requires IsRun(states, events) && n <= |events|
    ensures Ones(states[n].flags)
  {
    hide Step, Identity, Proceeds, Ones, FlagsAfter;
    if n == 0 {
      NoOnes();
    } else {
      RunKeepsOnes(states, events, n - 1);
      StepFlags(states[n - 1], events[n - 1]);
      OnesAfter(states[n - 1], events[n - 1]);
    }
  }

  /** An LR.W on `k` before step `n` with nothing in between that ends the reservation. */
  ghost predicate Outstanding(states: seq<State>, events: seq<Event>, n: nat, k: Word, j: nat)
    requires IsRun(states, events) && n <= |events|
  {
    && j < n
    && Reserves(states[j], events[j], k)
    && forall i :: j < i < n ==> !Kills(states[i], events[i], k)
  }

  /** The table holds `k` exactly when an LR.W on it is outstanding. */
  lemma {:induction false} ReservedIffOutstanding(states: seq<State>, events: seq<Event>, n: nat, k: Word)
    requires IsRun(states, events) && n <= |events|
    ensures k in states[n].flags <==> exists j :: Outstanding(states, events, n, k, j)
  {
    hide Step, Identity, Proceeds, Target, KeyOf, Misfits;
    if n > 0 {
      var s, e := states[n - 1], events[n - 1];
      ReservedIffOutstanding(states, events, n - 1, k);
      RunKeepsOnes(states, events, n - 1);
      StepFlags(s, e);
      assert k in states[n].flags <==> Reserves(s, e, k) || (k in s.flags && !Kills(s, e, k)) by {
        ReservedStep(s, e, k);
      }
      if k in states[n].flags {
        if Reserves(s, e, k) {
          assert Outstanding(states, events, n, k, n - 1);
        } else {
          var j :| Outstanding(states, events, n - 1, k, j);
          assert Outstanding(states, events, n, k, j);
        }
      }
      forall j: nat | Outstanding(states, events, n, k, j) ensures k in states[n].flags {
        if j < n - 1 { assert Outstanding(states, events, n - 1, k, j); }
      }
    }
  }

  lemma ReservedStep(s: State, e: Event, k: Word)
    requires s.Valid() && Ones(s.flags)
    ensures k in FlagsAfter(s, e) <==> Reserves(s, e, k) || (k in s.flags && !Kills(s, e, k))
  {
    hide KeyOf, Misfits, Target;
    assert (1 as bv32) & 1 == 1;
  }

  /**
    In every run, SC.W succeeds (stores and writes 0 to rd) exactly when an
    LR.W on its word came after the last store, AMO or successful SC to that
    word and after the last trap; otherwise it writes 1 and stores nothing.
   */
  lemma ScSucceedsIff(states: seq<State>, events: seq<Event>, n: nat)
    requires IsRun(states, events) && n < |events| && events[n].Sc?
    ensures var s, t, e := states[n], states[n + 1], events[n];
      var a := Target(s, e);
      var success := exists j :: Outstanding(states, events, n, KeyOf(a), j);
      && (success ==> t == RegWrite(MemWrite32(s, a, RegRead(s, e.rs2)), e.rd, 0))
      && (!success ==> t == RegWrite(s, e.rd, 1))
  {
    hide Identity, Proceeds, KeyOf, MemWrite32, MmuWrite32, RegRead, Outstanding;
    var s, e := states[n], events[n];
    var a := Target(s, e);
    ReservedIffOutstanding(states, events, n, KeyOf(a));
    RunKeepsOnes(states, events, n);
    assert IsReserved(s.flags, a) <==> KeyOf(a) in s.flags by { assert (1 as bv32) & 1 == 1; }
    WriteUnderIdentity(s, a, RegRead(s, e.rs2));
    var t := MmuWrite32(s, a, RegRead(s, e.rs2));
    assert Unreserve(t.flags, a) == t.flags;
  }

  // ---------------------------------------------------------------------
  // The reserved value is still there
  // ---------------------------------------------------------------------

  /** `k` names an aligned RAM word. */
  predicate RamKey(k: Word) { WordAligned(k.bits) && InRam(k.bits) }

  function FromIndex(w: bv30): bv32 { (w as bv32) << 2 }

  lemma KeyFromIndex(a: bv32)
    ensures a & 0xFFFF_FFFC == FromIndex(WordIndex(a))
  {}

  lemma AlignedIsKey(a: bv32)
    requires WordAligned(a)
    ensures a & 0xFFFF_FFFC == a
  {}

  lemma OtherKey(a: bv32, k: Word)
    requires WordAligned(k.bits) && KeyOf(a) != k
    ensures WordIndex(a) != WordIndex(k.bits)
  {
    hide FromIndex, WordIndex, WordAligned;
    KeyFromIndex(a);
    KeyFromIndex(k.bits);
    AlignedIsKey(k.bits);
  }

  /** A byte stored in another word leaves the word alone. */
  lemma ByteElsewhere(ram: map<Word, bv8>, x: bv32, v: bv8, a: bv32)
    requires WordAligned(a) && WordIndex(x) != WordIndex(a)
    ensures RamWord(ram[Word(x) := v], a) == RamWord(ram, a)
  {
    hide Gather, WordIndex, Offset, WordAligned, ByteAt;
    forall j: bv2 ensures Offset(a, j) != x {
      AddIsOr(a, j);
      SameIndex(a, j);
    }
  }

  lemma HalfInWord(a: bv32)
    requires a & 1 == 0
    ensures WordIndex(Offset(a, 1)) == WordIndex(a)
  {}

  lemma FirstByte(a: bv32)
    ensures Offset(a, 0) == a
  {}

  /** Stores of every width to another word leave the word alone. */
  lemma StoreElsewhere8(s: State, x: bv32, v: bv8, k: Word)
    requires s.Valid() && RamKey(k) && KeyOf(x) != k
    ensures RamWord(MemWrite8(s, x, v).ram, k.bits) == RamWord(s.ram, k.bits)
  {
    OtherKey(x, k);
    hide RamWord, WordIndex, KeyOf, WordAligned, DevicesAfter8, ClintStore;
    ByteElsewhere(s.ram, x, v, k.bits);
  }

  lemma StoreElsewhere16(s: State, x: bv32, v: bv16, k: Word)
    requires s.Valid() && RamKey(k) && KeyOf(x) != k && x & 1 == 0
    ensures RamWord(MemWrite16(s, x, v).ram, k.bits) == RamWord(s.ram, k.bits)
  {
    OtherKey(x, k);
    HalfInWord(x);
    FirstByte(x);
    hide RamWord, WordIndex, KeyOf, WordAligned, Offset, ClintAfter16, InClint;
    var lo, hi := (v & 0xFF) as bv8, ((v >> 8) & 0xFF) as bv8;
    ByteElsewhere(s.ram, Offset(x, 0), lo, k.bits);
    ByteElsewhere(s.ram[Word(Offset(x, 0)) := lo], Offset(x, 1), hi, k.bits);
  }

  lemma WordElsewhere(ram: map<Word, bv8>, x: bv32, w: bv32, a: bv32)
    requires WordAligned(a) && WordAligned(x) && WordIndex(x) != WordIndex(a)
    ensures RamWord(RamStoreWord(ram, x, w), a) == RamWord(ram, a)
  {
    hide RamWord, WordIndex, Offset, WordAligned, ByteOf, ByteAt;
    forall j: bv2 ensures WordIndex(Offset(x, j)) != WordIndex(a) {
      AddIsOr(x, j);
      SameIndex(x, j);
    }
    var r0 := ram[Word(Offset(x, 0)) := ByteOf(w, 0)];
    var r1 := r0[Word(Offset(x, 1)) := ByteOf(w, 1)];
    var r2 := r1[Word(Offset(x, 2)) := ByteOf(w, 2)];
    ByteElsewhere(ram, Offset(x, 0), ByteOf(w, 0), a);
    ByteElsewhere(r0, Offset(x, 1), ByteOf(w, 1), a);
    ByteElsewhere(r1, Offset(x, 2), ByteOf(w, 2), a);
    ByteElsewhere(r2, Offset(x, 3), ByteOf(w, 3), a);
  }

  lemma StoreElsewhere32(s: State, x: bv32, w: bv32, k: Word)
    requires s.Valid() && RamKey(k) && KeyOf(x) != k && WordAligned(x)
    ensures RamWord(MemWrite32(s, x, w).ram, k.bits) == RamWord(s.ram, k.bits)
  {
    OtherKey(x, k);
    hide RamWord, WordIndex, KeyOf, WordAligned, DevicesAfter32, ClintStoreWord, RamStoreWord, InClint, InUart, InPlic, PastRam;
    WordElsewhere(s.ram, x, w, k.bits);
  }

  lemma StoreAtElsewhere(s: State, width: Width, a: bv32, v: bv32, k: Word)
    requires s.Valid() && Identity(s) && RamKey(k) && !Misfits(a, width) && KeyOf(a) != k
    ensures RamWord(StoreAt(s, width, a, v).ram, k.bits) == RamWord(s.ram, k.bits)
  {
    match width
    case Byte =>
      Write8UnderIdentity(s, a, (v & 0xFF) as bv8);
      StoreElsewhere8(s, a, (v & 0xFF) as bv8, k);
    case Half =>
      Write16UnderIdentity(s, a, (v & 0xFFFF) as bv16);
      StoreElsewhere16(s, a, (v & 0xFFFF) as bv16, k);
    case Full =>
      WriteUnderIdentity(s, a, v);
      StoreElsewhere32(s, a, v, k);
  }

  lemma ScKeepsWord(s: State, e: Event, k: Word)
    requires s.Valid() && Identity(s) && e.Sc? && Proceeds(s, e) && RamKey(k) && !Kills(s, e, k)
    ensures RamWord(Step(s, e).ram, k.bits) == RamWord(s.ram, k.bits)
  {
    hide RegRead, KeyOf, Identity, RamWord, RamKey, MmuWrite32, MemWrite32, IsReserved, Unreserve, WordAligned;
    var a, v := RegRead(s, e.rs1), RegRead(s, e.rs2);
    WriteUnderIdentity(s, a, v);
    if IsReserved(s.flags, a) { StoreElsewhere32(s, a, v, k); }
  }

  lemma AmoKeepsWord(s: State, e: Event, k: Word)
    requires s.Valid() && Identity(s) && e.Amo? && Proceeds(s, e) && RamKey(k) && !Kills(s, e, k)
    ensures RamWord(Step(s, e).ram, k.bits) == RamWord(s.ram, k.bits)
  {
    hide RegRead, KeyOf, Identity, RamWord, RamKey, AmoResult, MmuRead32, MmuWrite32, MemRead32, MemWrite32, WordAligned;
    var a := RegRead(s, e.rs1);
    ReadUnderIdentity(s, a);
    var (s1, w) := MmuRead32(s, a);
    var v := AmoResult(e.op, w, RegRead(s, e.rs2));
    WriteUnderIdentity(s1, a, v);
    StoreElsewhere32(s1, a, v, k);
  }

  lemma StoreKeepsWord(s: State, e: Event, k: Word)
    requires s.Valid() && Identity(s) && e.StoreTo? && Proceeds(s, e) && RamKey(k) && !Kills(s, e, k)
    ensures RamWord(Step(s, e).ram, k.bits) == RamWord(s.ram, k.bits)
  {
    hide StoreAt, StoreAddress, RegRead, KeyOf, Misfits, Identity, RamWord, RamKey;
    StoreAtElsewhere(s, e.width, Target(s, e), RegRead(s, e.rs2), k);
  }

  lemma LrKeepsWord(s: State, e: Event, k: Word)
    requires s.Valid() && Identity(s) && e.Lr? && Proceeds(s, e)
    ensures RamWord(Step(s, e).ram, k.bits) == RamWord(s.ram, k.bits)
  {
    hide RegRead, KeyOf, Identity, RamWord, MmuRead32, MemRead32, WordAligned, Reserve;
    ReadUnderIdentity(s, RegRead(s, e.rs1));
  }

  /** A step that does not end the reservation of a RAM word leaves the word alone. */
  lemma StepKeepsWord(s: State, e: Event, k: Word)
    requires s.Valid() && Identity(s) && Proceeds(s, e) && RamKey(k)
    requires !Kills(s, e, k)
    ensures RamWord(Step(s, e).ram, k.bits) == RamWord(s.ram, k.bits)
  {
    if e.Trapped? || e.Compute? {
      hide Take, RamWord;
    } else {
      hide Step, Identity, Proceeds, RamWord, RamKey, Kills;
      if e.Lr? { LrKeepsWord(s, e, k); }
      else if e.Sc? { ScKeepsWord(s, e, k); }
      else if e.Amo? { AmoKeepsWord(s, e, k); }
      else { StoreKeepsWord(s, e, k); }
    }
  }

  lemma {:induction false} WordKept(states: seq<State>, events: seq<Event>, j: nat, n: nat, k: Word)
    requires IsRun(states, events) && j <= n <= |events| && RamKey(k)
    requires forall i :: j <= i < n ==> !Kills(states[i], events[i], k)
    ensures RamWord(states[n].ram, k.bits) == RamWord(states[j].ram, k.bits)
  {
    hide Step, Identity, Proceeds, Kills, RamWord, RamKey;
    if j < n {
      WordKept(states, events, j, n - 1, k);
      StepKeepsWord(states[n - 1], events[n - 1], k);
    }
  }

  /** What LR.W loads from a RAM word. */
  lemma LrLoadsWord(s: State, rs1: bv5, rd: bv5)
    requires s.Valid() && Identity(s) && RamKey(Word(RegRead(s, rs1)))
    ensures rd != 0 ==> RegRead(LrW(s, rs1, rd), rd) == RamWord(s.ram, RegRead(s, rs1))
    ensures LrW(s, rs1, rd).ram == s.ram
  {
    var a := RegRead(s, rs1);
    ReadUnderIdentity(s, a);
    WordFitsRam(a);
    assert MemRead32(s, a).1 == RamWord(s.ram, a) by {
      hide InClint, InUart, InPlic, PastRam, RamWord, AboveRam, WordAligned;
    }
    hide MemRead32, MmuRead32, RamWord, RamKey, KeyOf, Reserve, Identity;
  }

  /**
    In every run, an SC.W that succeeds on a RAM word finds in it the value
    that the outstanding LR.W loaded.
   */
  lemma SuccessfulScSeesLrValue(states: seq<State>, events: seq<Event>, n: nat, j: nat)
    requires IsRun(states, events) && n < |events| && events[n].Sc?
    requires RamKey(Word(Target(states[n], events[n])))
    requires Outstanding(states, events, n, KeyOf(Target(states[n], events[n])), j)
    ensures var k := Target(states[n], events[n]);
      && RamWord(states[n].ram, k) == RamWord(states[j].ram, k)
      && (events[j].rd != 0 ==> RegRead(states[j + 1], events[j].rd) == RamWord(states[n].ram, k))
  {
    hide Identity, RamWord, KeyOf, RegRead, LrW, Kills, Step;
    var a, b := Target(states[n], events[n]), Target(states[j], events[j]);
    SameTarget(a, b);
    assert states[j + 1] == LrW(states[j], events[j].rs1, events[j].rd) by {
      LrStep(states[j], events[j]);
    }
    LrLoadsWord(states[j], events[j].rs1, events[j].rd);
    WordKept(states, events, j + 1, n, KeyOf(a));
  }

  lemma LrStep(s: State, e: Event)
    requires s.Valid() && Proceeds(s, e) && e.Lr?
    ensures Step(s, e) == LrW(s, e.rs1, e.rd)
  {}

  lemma SameTarget(a: bv32, b: bv32)
    requires WordAligned(a) && WordAligned(b) && KeyOf(a) == KeyOf(b)
    ensures a == b && KeyOf(a) == Word(a)
  {
    hide WordAligned;
    AlignedIsKey(a);
    AlignedIsKey(b);
  }
}
