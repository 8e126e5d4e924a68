/**
  The timer, the interrupt controller and the serial port behind their addresses.
 */
module DeviceLaws {
  import opened Words
  import opened Addresses
  import opened BitLaws
  import opened Machine
  import opened Memory
  import opened Csr
  import Plic
  import Uart

  // ---------------------------------------------------------------------
  // 64-bit registers
  // ---------------------------------------------------------------------

  function Hi(x: bv64): bv32 { (x >> 32) as bv32 }
  function Lo(x: bv64): bv32 { (x & 0xFFFF_FFFF) as bv32 }

  /** The number a 64-bit register holds. */
  function Unsigned64(x: bv64): nat { 0x1_0000_0000 * Unsigned(Hi(x)) + Unsigned(Lo(x)) }

  predicate Less64(a: bv64, b: bv64) { a < b }

  lemma LessByHigh(a: bv64, b: bv64) requires Less(Hi(a), Hi(b)) ensures Less64(a, b) {}
  lemma LessByLow(a: bv64, b: bv64) requires Hi(a) == Hi(b) && Less(Lo(a), Lo(b)) ensures Less64(a, b) {}
  lemma EqualHalves(a: bv64, b: bv64) requires Hi(a) == Hi(b) && Lo(a) == Lo(b) ensures a == b {}
  lemma Strict64(a: bv64, b: bv64) requires Less64(a, b) ensures !Less64(b, a) && a != b {}
  lemma ReachedIs(a: bv64, b: bv64) ensures Reached(a, b) <==> !Less64(a, b) {}

  lemma Compares64(a: bv64, b: bv64)
    ensures Less64(a, b) <==> Unsigned64(a) < Unsigned64(b)
    ensures a == b <==> Unsigned64(a) == Unsigned64(b)
  {
    hide Less, Less64, Hi, Lo, Unsigned;
    LessIsUnsigned(Hi(a), Hi(b));
    LessIsUnsigned(Hi(b), Hi(a));
    LessIsUnsigned(Lo(a), Lo(b));
    LessIsUnsigned(Lo(b), Lo(a));
    UnsignedRange(Lo(a));
    UnsignedRange(Lo(b));
    if Less(Hi(a), Hi(b)) {
      LessByHigh(a, b);
      Strict64(a, b);
    } else if Less(Hi(b), Hi(a)) {
      LessByHigh(b, a);
      Strict64(b, a);
    } else if Less(Lo(a), Lo(b)) {
      LessByLow(a, b);
      Strict64(a, b);
    } else if Less(Lo(b), Lo(a)) {
      LessByLow(b, a);
      Strict64(b, a);
    } else {
      EqualHalves(a, b);
      if Less64(a, b) { Strict64(a, b); }
    }
  }

  lemma Zero64()
    ensures Unsigned64(0) == 0
  {
    ZeroUpTo(31);
  }

  // ---------------------------------------------------------------------
  // The timer
  // ---------------------------------------------------------------------

  /** The timer is pending when the comparison is on and mtime has reached it, as numbers. */
  lemma PendingIsReached(c: Clint)
    ensures TimerPending(c) <==> Unsigned64(c.mtimecmp) != 0 && Unsigned64(c.mtime) >= Unsigned64(c.mtimecmp)
  {
    hide Unsigned64, Less64, Reached;
    Zero64();
    Compares64(c.mtimecmp, 0);
    Compares64(c.mtime, c.mtimecmp);
    ReachedIs(c.mtime, c.mtimecmp);
  }

  predicate InCompare(a: bv32) { a & 0xFFFF_FFF8 == 0x0200_4000 }

  lemma StoredByte(c: Clint, a: bv32, v: bv8)
    requires InCompare(a)
    ensures ClintByte(ClintStore(c, a, v), a) == v
  {}

  lemma OtherByte(c: Clint, a: bv32, v: bv8, b: bv32)
    requires InCompare(a) && InCompare(b) && a != b
    ensures ClintByte(ClintStore(c, a, v), b) == ClintByte(c, b)
  {}

  lemma LowHalf(c: Clint)
    ensures Lo(c.mtimecmp) == Gather(ClintByte(c, 0x0200_4000), ClintByte(c, 0x0200_4001),
                                     ClintByte(c, 0x0200_4002), ClintByte(c, 0x0200_4003))
  {}

  lemma HighHalf(c: Clint)
    ensures Hi(c.mtimecmp) == Gather(ClintByte(c, 0x0200_4004), ClintByte(c, 0x0200_4005),
                                     ClintByte(c, 0x0200_4006), ClintByte(c, 0x0200_4007))
  {}

  lemma StoreChanges(c: Clint, a: bv32, v: bv8)
    requires InCompare(a)
    ensures var d := ClintStore(c, a, v);
      && ClintByte(d, a) == v
      && (forall b: bv32 :: InCompare(b) && b != a ==> ClintByte(d, b) == ClintByte(c, b))
      && d.mtime == c.mtime
  {
    StoredByte(c, a, v);
    TimeKept(c, a, v);
    hide ClintByte, ClintStore, InCompare;
    forall b: bv32 | InCompare(b) && b != a ensures ClintByte(ClintStore(c, a, v), b) == ClintByte(c, b) {
      OtherByte(c, a, v, b);
    }
  }

  lemma TimeKept(c: Clint, a: bv32, v: bv8) ensures ClintStore(c, a, v).mtime == c.mtime {}

  lemma LowOffsets()
    ensures Offset(0x0200_4000, 0) == 0x0200_4000 && Offset(0x0200_4000, 1) == 0x0200_4001
    ensures Offset(0x0200_4000, 2) == 0x0200_4002 && Offset(0x0200_4000, 3) == 0x0200_4003
    ensures InCompare(0x0200_4000) && InCompare(0x0200_4001) && InCompare(0x0200_4002) && InCompare(0x0200_4003)
  {}

  lemma HighOffsets()
    ensures Offset(0x0200_4004, 0) == 0x0200_4004 && Offset(0x0200_4004, 1) == 0x0200_4005
    ensures Offset(0x0200_4004, 2) == 0x0200_4006 && Offset(0x0200_4004, 3) == 0x0200_4007
    ensures InCompare(0x0200_4004) && InCompare(0x0200_4005) && InCompare(0x0200_4006) && InCompare(0x0200_4007)
  {}

  /** A word written to the low half of mtimecmp, and to the high half. */
  lemma LowStored(c: Clint, w: bv32)
    ensures var d := ClintStoreWord(c, 0x0200_4000, w);
      Lo(d.mtimecmp) == w && Hi(d.mtimecmp) == Hi(c.mtimecmp) && d.mtime == c.mtime
  {
    hide ClintByte, ClintStore, InCompare, ByteOf, Offset, Lo, Hi, Gather;
    LowOffsets();
    HighOffsets();
    var c1 := ClintStore(c, 0x0200_4000, ByteOf(w, 0));
    var c2 := ClintStore(c1, 0x0200_4001, ByteOf(w, 1));
    var c3 := ClintStore(c2, 0x0200_4002, ByteOf(w, 2));
    StoreChanges(c, 0x0200_4000, ByteOf(w, 0));
    StoreChanges(c1, 0x0200_4001, ByteOf(w, 1));
    StoreChanges(c2, 0x0200_4002, ByteOf(w, 2));
    StoreChanges(c3, 0x0200_4003, ByteOf(w, 3));
    LowHalf(ClintStoreWord(c, 0x0200_4000, w));
    HighHalf(ClintStoreWord(c, 0x0200_4000, w));
    HighHalf(c);
    GatherBytes(w);
  }

  lemma HighStored(c: Clint, w: bv32)
    ensures var d := ClintStoreWord(c, 0x0200_4004, w);
      Hi(d.mtimecmp) == w && Lo(d.mtimecmp) == Lo(c.mtimecmp) && d.mtime == c.mtime
  {
    hide ClintByte, ClintStore, InCompare, ByteOf, Offset, Lo, Hi, Gather;
    LowOffsets();
    HighOffsets();
    var c1 := ClintStore(c, 0x0200_4004, ByteOf(w, 0));
    var c2 := ClintStore(c1, 0x0200_4005, ByteOf(w, 1));
    var c3 := ClintStore(c2, 0x0200_4006, ByteOf(w, 2));
    StoreChanges(c, 0x0200_4004, ByteOf(w, 0));
    StoreChanges(c1, 0x0200_4005, ByteOf(w, 1));
    StoreChanges(c2, 0x0200_4006, ByteOf(w, 2));
    StoreChanges(c3, 0x0200_4007, ByteOf(w, 3));
    LowHalf(c);
    LowHalf(ClintStoreWord(c, 0x0200_4004, w));
    HighHalf(ClintStoreWord(c, 0x0200_4004, w));
    GatherBytes(w);
  }

  lemma CompareInWindow()
    ensures InClint(0x0200_4000) && InClint(0x0200_4004) && InClint(0x0200_BFF8) && InClint(0x0200_BFFC)
  {}

  /** A word read from the timer: either half of either register. */
  lemma TimerReads(s: State)
    requires s.Valid()
    ensures MemRead32(s, 0x0200_4000) == (s, Lo(s.clint.mtimecmp))
    ensures MemRead32(s, 0x0200_4004) == (s, Hi(s.clint.mtimecmp))
  {
    hide ClintByte, Offset, Lo, Hi, Gather, InClint;
    CompareInWindow();
    LowOffsets();
    HighOffsets();
    LowHalf(s.clint);
    HighHalf(s.clint);
  }

  lemma TimeOffsets()
    ensures Offset(0x0200_BFF8, 0) == 0x0200_BFF8 && Offset(0x0200_BFF8, 1) == 0x0200_BFF9
    ensures Offset(0x0200_BFF8, 2) == 0x0200_BFFA && Offset(0x0200_BFF8, 3) == 0x0200_BFFB
    ensures Offset(0x0200_BFFC, 0) == 0x0200_BFFC && Offset(0x0200_BFFC, 1) == 0x0200_BFFD
    ensures Offset(0x0200_BFFC, 2) == 0x0200_BFFE && Offset(0x0200_BFFC, 3) == 0x0200_BFFF
  {}

  lemma LowTime(c: Clint)
    ensures Lo(c.mtime) == Gather(ClintByte(c, 0x0200_BFF8), ClintByte(c, 0x0200_BFF9),
                                  ClintByte(c, 0x0200_BFFA), ClintByte(c, 0x0200_BFFB))
  {}

  lemma HighTime(c: Clint)
    ensures Hi(c.mtime) == Gather(ClintByte(c, 0x0200_BFFC), ClintByte(c, 0x0200_BFFD),
                                  ClintByte(c, 0x0200_BFFE), ClintByte(c, 0x0200_BFFF))
  {}

  /** mtime at 0x0200_BFF8, low half first. */
  lemma TimeReads(s: State)
    requires s.Valid()
    ensures MemRead32(s, 0x0200_BFF8) == (s, Lo(s.clint.mtime))
    ensures MemRead32(s, 0x0200_BFFC) == (s, Hi(s.clint.mtime))
  {
    hide ClintByte, Offset, Lo, Hi, Gather, InClint;
    CompareInWindow();
    TimeOffsets();
    LowTime(s.clint);
    HighTime(s.clint);
  }

  /** Two word stores make mtimecmp the number they spell, and it reads back. */
  lemma CompareWritten(s: State, lo: bv32, hi: bv32)
    requires s.Valid()
    ensures var t := MemWrite32(MemWrite32(s, 0x0200_4000, lo), 0x0200_4004, hi);
      && Unsigned64(t.clint.mtimecmp) == 0x1_0000_0000 * Unsigned(hi) + Unsigned(lo)
      && t.clint.mtime == s.clint.mtime && t.ram == s.ram
      && MemRead32(t, 0x0200_4000).1 == lo && MemRead32(t, 0x0200_4004).1 == hi
  {
    hide ClintStoreWord, Lo, Hi, InClint, MemRead32, Unsigned, InUart, InPlic, KeyOf;
    CompareInWindow();
    var t1 := MemWrite32(s, 0x0200_4000, lo);
    LowStored(s.clint, lo);
    HighStored(t1.clint, hi);
    NoDevice();
    TimerReads(MemWrite32(t1, 0x0200_4004, hi));
  }

  lemma NoDevice()
    ensures !InUart(0x0200_4000) && !InPlic(0x0200_4000) && !InUart(0x0200_4004) && !InPlic(0x0200_4004)
  {}

  // ---------------------------------------------------------------------
  // The interrupt controller
  // ---------------------------------------------------------------------

  // Which addresses in the controller's window reach which register

  lemma ClaimAddresses(a: bv32)
    requires InPlic(a)
    ensures Plic.RegAt(PlicOffset(a)) == Plic.Claim(Plic.Machine) <==> a == 0x0C20_0004
    ensures Plic.RegAt(PlicOffset(a)) == Plic.Claim(Plic.Supervisor) <==> a == 0x0C20_1004
  {}

  lemma ThresholdAddresses(a: bv32)
    requires InPlic(a)
    ensures Plic.RegAt(PlicOffset(a)) == Plic.Threshold(Plic.Machine) <==> a == 0x0C20_0000
    ensures Plic.RegAt(PlicOffset(a)) == Plic.Threshold(Plic.Supervisor) <==> a == 0x0C20_1000
  {}

  lemma EnableAddresses(a: bv32)
    requires InPlic(a)
    ensures Plic.RegAt(PlicOffset(a)) == Plic.Enable(Plic.Machine) <==> a & 0xFFFF_FFFC == 0x0C00_2000
    ensures Plic.RegAt(PlicOffset(a)) == Plic.Enable(Plic.Supervisor) <==> a & 0xFFFF_FFFC == 0x0C00_2080
  {}

  lemma PriorityAddresses(a: bv32, id: bv5)
    requires InPlic(a) && 1 <= id <= 10
    ensures Plic.RegAt(PlicOffset(a)) == Plic.Priority(id as nat) <==>
      a & 0xFFFF_FFFC == 0x0C00_0000 | ((id as bv32) << 2)
  {}

  lemma PendingAddresses(a: bv32)
    requires InPlic(a)
    ensures Plic.RegAt(PlicOffset(a)) == Plic.Pending <==> a & 0xFFFF_FFFC == 0x0C00_1000
  {}

  lemma OctetIsByte(w: bv32, a: bv32, i: bv2)
    requires WordAligned(a)
    ensures Octet(w, ByteAt(a, i)) == ByteOf(w, i as nat)
  {}

  lemma OctetReplaced(w: bv32, a: bv32, v: bv8)
    ensures Octet(WithOctet(w, a, v), a) == v
  {}

  lemma OctetKept(w: bv32, a: bv32, v: bv8, b: bv32)
    requires a & 3 != b & 3
    ensures Octet(WithOctet(w, a, v), b) == Octet(w, b)
  {}

  /** What a byte read of a controller register gives, and what a byte written to the enable words leaves. */
  lemma ControllerBytes(s: State, a: bv32)
    requires s.Valid() && InPlicBytes(a) && !InClint(a) && !InUart(a)
    ensures var (p, d) := Plic.ReadReg(s.devices.plic, Plic.RegAt(PlicOffset(a)));
      MemRead8(s, a) == (s.(devices := s.devices.(plic := p)), Octet(PlicWord(d), a))
  {
    hide InClint, InUart, InPlicBytes, Octet, PlicOffset, PlicWord;
  }

  lemma EnableOffsets(i: bv2)
    ensures var a := ByteAt(0x0C00_2080, i);
      && PlicOffset(a & 0xFFFF_FFFC) == 0x2080
      && InPlicBytes(a) && !InClint(a) && !InUart(a)
  {}

  lemma EnableMerged(p: Plic.State, a: bv32, v: bv8)
    requires p.Valid() && PlicOffset(a & 0xFFFF_FFFC) == 0x2080
    ensures PlicMerge(p, a, v) ==
      p.(supervisor := p.supervisor.(enable := ToBits(WithOctet(FromBits(p.supervisor.enable), a, v))))
  {
    hide WithOctet, PlicOffset, ToBits, FromBits;
  }

  lemma MergeStored(s: State, a: bv32, v: bv8)
    requires s.Valid() && InPlicBytes(a) && !InClint(a) && !InUart(a)
    ensures MemWrite8(s, a, v).devices == s.devices.(plic := PlicMerge(s.devices.plic, a, v))
  {
    hide InClint, InUart, InPlicBytes, PlicMerge, ClintStore, KeyOf;
  }

  lemma OctetOfWord(w: bv32, i: bv2, v: bv8, j: bv2)
    ensures var r := WithOctet(w, ByteAt(0x0C00_2080, i), v);
      ByteOf(r, j as nat) == if j == i then v else ByteOf(w, j as nat)
  {
    hide Octet, WithOctet, ByteOf, ByteAt;
    var a := ByteAt(0x0C00_2080, i);
    var r := WithOctet(w, a, v);
    EnableAligned();
    OctetIsByte(r, 0x0C00_2080, j);
    OctetIsByte(w, 0x0C00_2080, j);
    OctetReplaced(w, a, v);
    if j != i {
      EnableApart(i, j);
      OctetKept(w, a, v, ByteAt(0x0C00_2080, j));
    }
  }

  /** A byte written to the supervisor's enable word replaces that byte alone. */
  lemma EnableByte(s: State, i: bv2, v: bv8, j: bv2)
    requires s.Valid()
    ensures var t := MemWrite8(s, ByteAt(0x0C00_2080, i), v);
      var was, now := FromBits(s.devices.plic.supervisor.enable), FromBits(t.devices.plic.supervisor.enable);
      && ByteOf(now, j as nat) == (if j == i then v else ByteOf(was, j as nat))
      && t.devices.plic == s.devices.plic.(supervisor := s.devices.plic.supervisor.(enable := ToBits(now)))
  {
    hide InClint, InUart, InPlicBytes, WithOctet, PlicOffset, ToBits, FromBits, ByteOf, ByteAt, PlicMerge, MemWrite8;
    var a := ByteAt(0x0C00_2080, i);
    var was := FromBits(s.devices.plic.supervisor.enable);
    EnableOffsets(i);
    MergeStored(s, a, v);
    EnableMerged(s.devices.plic, a, v);
    FromToBits(WithOctet(was, a, v));
    OctetOfWord(was, i, v, j);
  }

  lemma EnableAligned() ensures WordAligned(0x0C00_2080) {}

  lemma EnableApart(i: bv2, j: bv2)
    requires i != j
    ensures ByteAt(0x0C00_2080, i) & 3 != ByteAt(0x0C00_2080, j) & 3
  {}

  /** The lines the hart sees: the timer's condition, and whether the controller has anything to hand out. */
  lemma LinesShow(s: State)
    requires s.Valid()
    ensures var l := LinesOf(s);
      && (l.timer <==> Unsigned64(s.clint.mtimecmp) != 0 && Unsigned64(s.clint.mtime) >= Unsigned64(s.clint.mtimecmp))
      && (l.machine <==> Plic.EligibleSet(s.devices.plic, Plic.Machine) != {})
      && (l.supervisor <==> Plic.EligibleSet(s.devices.plic, Plic.Supervisor) != {})
  {
    PendingIsReached(s.clint);
    Plic.BestIsBest(s.devices.plic, Plic.Machine);
    Plic.BestIsBest(s.devices.plic, Plic.Supervisor);
    hide TimerPending, Unsigned64, Plic.Best, Plic.EligibleSet;
  }

  // ---------------------------------------------------------------------
  // The serial port
  // ---------------------------------------------------------------------

  lemma PortOffset(i: bv3)
    ensures UartOffset(0x1000_0000 | (i as bv32)) == i as nat
  {}
}
