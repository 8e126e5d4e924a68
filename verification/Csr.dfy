/**
  Status and interrupt registers: src/extension/system.c (mstatus, sstatus) and
  src/extension/zicsr_extension.c (mie/sie, mip/sip), with the timer of
  src/device/clint.c and the interrupt controller seen through mip.
 */
module Csr {
  import opened Words
  import opened Machine
  import Plic

  // Bit positions of mstatus
  const UIE: nat := 0
  const SIE: nat := 1
  const MIE: nat := 3
  const UPIE: nat := 4
  const SPIE: nat := 5
  const MPIE: nat := 7
  const SPP: nat := 8
  const MPP: nat := 11
  const MPRV: nat := 17
  const SUM: nat := 18
  const MXR: nat := 19
  const TVM: nat := 20
  const TSR: nat := 22

  // Bit positions of mip and mie, which are also the interrupt numbers
  const SSIP: nat := 1
  const MSIP: nat := 3
  const STIP: nat := 5
  const MTIP: nat := 7
  const SEIP: nat := 9
  const MEIP: nat := 11

  /** The bits mstatus_write keeps; FS is 13-14, XS is 15-16, TW is 21. */
  const WRITABLE: set<nat> := {UIE, SIE, MIE, UPIE, SPIE, MPIE, SPP, 11, 12, 13, 14, 15, 16, MPRV, SUM, MXR, TVM, 21, TSR}

  /** The bits of mstatus that sstatus shows. */
  const SSTATUS: set<nat> := {UIE, SIE, UPIE, SPIE, SPP, 13, 14, 15, 16, SUM, MXR}

  /** The supervisor lines of mie and mip. */
  const S_BITS: set<nat> := {SSIP, STIP, SEIP}

  /** The bits of mip that show device state. */
  const LIVE: set<nat> := {MTIP, MEIP, SEIP}

  // ---------------------------------------------------------------------
  // Status
  // ---------------------------------------------------------------------

  function MstatusWrite(val: Bits): Bits { Masked(WRITABLE, val) }

  function SstatusRead(m: Bits): Bits { Masked(SSTATUS, m) }

  /** What writing sstatus leaves in mstatus. */
  function WithSstatus(m: Bits, val: Bits): Bits { Merge(SSTATUS, val, m) }

  /** sstatus_read, field by field. */
  method AssembleSstatus(m: Bits) returns (r: Bits)
    ensures r == SstatusRead(m)
  {
    r := Zero();
    r := r[0 := m[UIE]][1 := m[SIE]][4 := m[UPIE]][5 := m[SPIE]][8 := m[SPP]];
    r := r[13 := m[13]][14 := m[14]][15 := m[15]][16 := m[16]];
    r := r[18 := m[SUM]][19 := m[MXR]];
  }

  /** Ors one more field of `val` into the cleared view. */
  method FillField(m: Bits, base: Bits, val: Bits, ghost done: set<nat>, bit: nat) returns (r: Bits)
    requires bit < 32 && bit !in done && !base[bit] && m == Merge(done, val, base)
    ensures r == Merge(done + {bit}, val, base)
  {
    r := if val[bit] then m[bit := true] else m;
  }

  /** The interrupt-enable stack and SPP. */
  method FillStack(base: Bits, val: Bits) returns (r: Bits)
    requires forall i :: i in SSTATUS ==> !base[i]
    ensures r == Merge({UIE, SIE, UPIE, SPIE, SPP}, val, base)
  {
    assert base == Merge({}, val, base);
    hide Merge;
    ghost var done: set<nat> := {};
    r := base;
    r := FillField(r, base, val, done, 0);
    done := done + {0};
    r := FillField(r, base, val, done, 1);
    done := done + {1};
    r := FillField(r, base, val, done, 4);
    done := done + {4};
    r := FillField(r, base, val, done, 5);
    done := done + {5};
    r := FillField(r, base, val, done, 8);
    done := done + {8};
    assert done == {UIE, SIE, UPIE, SPIE, SPP};
  }

  /** FS, XS, SUM and MXR. */
  method FillRest(m: Bits, base: Bits, val: Bits, ghost done: set<nat>) returns (r: Bits)
    requires done == {UIE, SIE, UPIE, SPIE, SPP}
    requires (forall i :: i in SSTATUS ==> !base[i]) && m == Merge(done, val, base)
    ensures r == Merge(SSTATUS, val, base)
  {
    hide Merge;
    ghost var filled := done;
    r := FillField(m, base, val, filled, 13);
    filled := filled + {13};
    r := FillField(r, base, val, filled, 14);
    filled := filled + {14};
    r := FillField(r, base, val, filled, 15);
    filled := filled + {15};
    r := FillField(r, base, val, filled, 16);
    filled := filled + {16};
    r := FillField(r, base, val, filled, 18);
    filled := filled + {18};
    r := FillField(r, base, val, filled, 19);
    filled := filled + {19};
    assert filled == SSTATUS;
  }

  /** sstatus_write: the view is cleared, then filled field by field. */
  method UpdateSstatus(mstatus: Bits, val: Bits) returns (r: Bits)
    ensures r == WithSstatus(mstatus, val)
  {
    var base: Bits := Merge(SSTATUS, Zero(), mstatus);
    assert forall i :: i in SSTATUS ==> !base[i];
    hide Merge, WithSstatus;
    r := FillStack(base, val);
    r := FillRest(r, base, val, {UIE, SIE, UPIE, SPIE, SPP});
    FillDone(mstatus, val);
  }

  lemma FillDone(mstatus: Bits, val: Bits)
    ensures Merge(SSTATUS, val, Merge(SSTATUS, Zero(), mstatus)) == WithSstatus(mstatus, val)
  {}

  /** Writing back a whole status word through its view. */
  lemma ThroughSstatus(m: Bits, x: Bits)
    requires forall i :: 0 <= i < 32 && i !in SSTATUS ==> x[i] == m[i]
    ensures WithSstatus(m, SstatusRead(x)) == x
  {}

  // ---------------------------------------------------------------------
  // Interrupt pending and enable
  // ---------------------------------------------------------------------

  predicate Reached(now: bv64, at: bv64) { now >= at }

  predicate TimerPending(c: Clint) { c.mtimecmp != 0 && Reached(c.mtime, c.mtimecmp) }

  /** What the devices show the hart. */
  datatype Lines = Lines(timer: bool, machine: bool, supervisor: bool)

  function LinesOf(s: State): Lines
    requires s.devices.plic.Valid()
  {
    Lines(TimerPending(s.clint),
          Plic.Best(s.devices.plic, Plic.Machine) != 0,
          Plic.Best(s.devices.plic, Plic.Supervisor) != 0)
  }

  /** get_mip: three bits are replaced by device state. */
  function ReadMip(stored: Bits, l: Lines): Bits {
    stored[MTIP := l.timer][MEIP := l.machine][SEIP := l.supervisor]
  }

  function ReadSie(mie: Bits): Bits { Masked(S_BITS, mie) }

  function WithSie(mie: Bits, val: Bits): Bits { Merge(S_BITS, val, mie) }

  /** get_sip: the timer also shows as STIP. */
  function ReadSip(stored: Bits, l: Lines): Bits {
    var sip := Masked(S_BITS, ReadMip(stored, l));
    if l.timer then sip[STIP := true] else sip
  }

  /** set_sip stores the live bits it read along with the bits it was given. */
  function WithSip(stored: Bits, l: Lines, val: Bits): Bits { Merge(S_BITS, val, ReadMip(stored, l)) }

  /**
    sip is the masked view of mip exactly when the timer is not pending or
    STIP was already set in mip.
   */
  lemma SipIsMaskOfMip(stored: Bits, l: Lines)
    ensures ReadSip(stored, l) == Masked(S_BITS, ReadMip(stored, l)) <==> (!l.timer || stored[STIP])
  {
    assert ReadMip(stored, l)[STIP] == stored[STIP];
    if !(!l.timer || stored[STIP]) {
      assert ReadSip(stored, l)[STIP] && !Masked(S_BITS, ReadMip(stored, l))[STIP];
    }
  }

  /**
    A csrrs of any bits to sip while the timer is pending latches STIP in mip,
    where it stays after the timer is re-armed.
   */
  lemma TimerLatchesStip(stored: Bits, l: Lines, val: Bits, later: Lines)
    requires l.timer && forall i :: 0 <= i < 32 && ReadSip(stored, l)[i] ==> val[i]
    ensures ReadSip(WithSip(stored, l, val), later)[STIP]
  {
    assert ReadSip(stored, l)[STIP];
    assert WithSip(stored, l, val)[STIP];
  }

  // ---------------------------------------------------------------------
  // Histories of writes
  // ---------------------------------------------------------------------

  datatype Register = Mstatus | Sstatus | Mie | Sie | Mip | Sip

  /** A write, with the lines as the devices drive them at that moment. */
  datatype Write = Write(priv: Privilege, reg: Register, val: Bits, lines: Lines)

  datatype Stored = Stored(mstatus: Bits, mie: Bits, mip: Bits)

  /** check_csr_access: the privilege each register asks for. */
  predicate Allowed(w: Write) { w.priv.Rank() >= Required(w.reg) }

  function Required(reg: Register): nat {
    match reg
    case Mstatus => 3 case Mie => 3 case Mip => 3
    case _ => 1
  }

  function Apply(c: Stored, w: Write): Stored {
    match w.reg
    case Mstatus => c.(mstatus := MstatusWrite(w.val))
    case Sstatus => c.(mstatus := WithSstatus(c.mstatus, w.val))
    case Mie => c.(mie := w.val)
    case Sie => c.(mie := WithSie(c.mie, w.val))
    case Mip => c.(mip := w.val)
    case Sip => c.(mip := WithSip(c.mip, w.lines, w.val))
  }

  function After(c: Stored, ws: seq<Write>): Stored {
    if ws == [] then c else Apply(After(c, ws[..|ws| - 1]), ws[|ws| - 1])
  }

  /** `a` and `b` agree outside `mask`. */
  ghost predicate SameOutside(mask: set<nat>, a: Bits, b: Bits) {
    forall i :: 0 <= i < 32 && i !in mask ==> a[i] == b[i]
  }

  /** After every history mstatus holds only its writable bits. */
  lemma {:induction false} StatusStaysWritable(c: Stored, ws: seq<Write>)
    requires SameOutside(WRITABLE, c.mstatus, Zero())
    ensures SameOutside(WRITABLE, After(c, ws).mstatus, Zero())
  {
    if ws != [] { StatusStaysWritable(c, ws[..|ws| - 1]); }
  }

  /**
    After every history of accepted writes from below machine level, the bits
    that only the machine may write are as they were: in the stored words, and
    for mip, whose live bits are no storage, in every value read.
   */
  lemma {:induction false} SupervisorWritesConfined(c: Stored, ws: seq<Write>)
    requires forall i :: 0 <= i < |ws| ==> Allowed(ws[i]) && ws[i].priv != Privilege.Machine
    ensures SameOutside(SSTATUS, After(c, ws).mstatus, c.mstatus)
    ensures SameOutside(S_BITS, After(c, ws).mie, c.mie)
    ensures SameOutside(S_BITS + LIVE, After(c, ws).mip, c.mip)
    ensures forall l :: SameOutside(S_BITS, ReadMip(After(c, ws).mip, l), ReadMip(c.mip, l))
  {
    if ws != [] { SupervisorWritesConfined(c, ws[..|ws| - 1]); }
  }

  // ---------------------------------------------------------------------
  // What a read shows
  // ---------------------------------------------------------------------

  /** The value each register's read callback gives. */
  function Read(c: Stored, reg: Register, l: Lines): Bits {
    match reg
    case Mstatus => c.mstatus
    case Sstatus => SstatusRead(c.mstatus)
    case Mie => c.mie
    case Sie => ReadSie(c.mie)
    case Mip => ReadMip(c.mip, l)
    case Sip => ReadSip(c.mip, l)
  }

  /** The machine register that a register is, or is a view of. */
  function Backing(reg: Register): Register {
    match reg
    case Sstatus => Mstatus
    case Sie => Mie
    case Sip => Mip
    case _ => reg
  }

  /** The bits a register shows and writes. */
  predicate Exposes(reg: Register, i: nat) {
    match reg
    case Mstatus => i in WRITABLE
    case Sstatus => i in SSTATUS
    case Sie => i in S_BITS
    case Sip => i in S_BITS
    case _ => true
  }

  /** The bit that the last write to expose bit `i` of the register gave it; `init` if there was none. */
  function LastWritten(init: bool, ws: seq<Write>, reg: Register, i: nat): bool
    requires i < 32
  {
    if ws == [] then init
    else
      var w := ws[|ws| - 1];
      if Backing(w.reg) == Backing(reg) && Exposes(w.reg, i) then w.val[i]
      else LastWritten(init, ws[..|ws| - 1], reg, i)
  }

  function StoredWord(c: Stored, reg: Register): Bits {
    match Backing(reg) case Mstatus => c.mstatus case Mie => c.mie case _ => c.mip
  }

  /** Storage holds the last bit written, except where mip shows a device. */
  lemma {:induction false} StoresLastWritten(c: Stored, ws: seq<Write>, reg: Register, i: nat)
    requires i < 32 && (Backing(reg) == Mip ==> i !in LIVE) && (Backing(reg) == Mstatus ==> i in WRITABLE)
    ensures StoredWord(After(c, ws), reg)[i] == LastWritten(StoredWord(c, reg)[i], ws, reg, i)
  {
    if ws != [] { StoresLastWritten(c, ws[..|ws| - 1], reg, i); }
  }

  /** The line that drives a live bit. */
  function Line(l: Lines, i: nat): bool {
    if i == MTIP then l.timer else if i == MEIP then l.machine else l.supervisor
  }

  /**
    What bit `i` of a register shows after the writes `ws`: clear if the
    register does not expose it, its device's line if it is live, and otherwise
    the bit last written to it through either of the two registers that share
    it, with the timer shown as STIP besides in sip.
   */
  predicate Shows(c: Stored, ws: seq<Write>, reg: Register, l: Lines, i: nat)
    requires i < 32
  {
    && Exposes(reg, i)
    && if Backing(reg) == Mip && i in LIVE then Line(l, i)
       else LastWritten(StoredWord(c, reg)[i], ws, reg, i) || (reg == Sip && i == STIP && l.timer)
  }

  /** Every bit read from every register is known from the history of writes through all six. */
  lemma ReadsLastWritten(c: Stored, ws: seq<Write>, reg: Register, l: Lines, i: nat)
    requires i < 32 && SameOutside(WRITABLE, c.mstatus, Zero())
    ensures Read(After(c, ws), reg, l)[i] == Shows(c, ws, reg, l, i)
  {
    StatusStaysWritable(c, ws);
    if (Backing(reg) == Mip ==> i !in LIVE) && (Backing(reg) == Mstatus ==> i in WRITABLE) {
      StoresLastWritten(c, ws, reg, i);
    }
  }

  /** A supervisor write reads back, through both registers, on the bits of the view. */
  lemma WriteThenRead(c: Stored, w: Write)
    ensures w.reg == Sstatus ==> SstatusRead(Apply(c, w).mstatus) == Masked(SSTATUS, w.val)
    ensures w.reg == Mstatus ==> SstatusRead(Apply(c, w).mstatus) == Masked(SSTATUS, w.val)
    ensures w.reg == Sie ==> ReadSie(Apply(c, w).mie) == Masked(S_BITS, w.val)
  {}
}
