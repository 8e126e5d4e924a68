/**
  Physical memory: include/mem.h over RAM, the timer of src/device/clint.c, the
  serial port and the interrupt controller. Every store drops the reservation
  of the word it touches.
 */
module Memory {
  import opened Words
  import opened Addresses
  import opened Machine
  import Plic
  import Uart

  // Every window is a whole number of words, so it is told from the word number.
  // `ClintWindow` and its siblings relate them to the range tests of the source.

  predicate ClintIndex(w: bv30) { w & 0x3FFF_C000 == 0x0080_0000 }
  predicate UartIndex(w: bv30) { w & 0x3FFF_FFFE == 0x0400_0000 }
  predicate PlicByteIndex(w: bv30) { w & 0x3FFF_C000 == 0x0300_0000 }
  predicate PlicIndex(w: bv30) { w & 0x3F00_0000 == 0x0300_0000 }
  predicate HighIndex(w: bv30) { w & 0x3FFF_FC00 == 0x3FFF_FC00 }

  predicate InClint(a: bv32) { ClintIndex(WordIndex(a)) }
  predicate InUart(a: bv32) { UartIndex(WordIndex(a)) }
  predicate InPlicBytes(a: bv32) { PlicByteIndex(WordIndex(a)) }
  predicate InPlic(a: bv32) { PlicIndex(WordIndex(a)) }
  /** At or above MEM_SIZE, the last page of the address space. */
  predicate AboveRam(a: bv32) { HighIndex(WordIndex(a)) }
  /** A word here would run past main memory: a >= MEM_SIZE - 3. */
  predicate PastRam(a: bv32) { a >= 0xFFFF_EFFD }

  /** The range tests of the source. */
  predicate Within(a: bv32, lo: bv32, hi: bv32) { a >= lo && a < hi }
  predicate AtLeast(a: bv32, lo: bv32) { a >= lo }

  lemma ClintWindow(a: bv32)
    ensures InClint(a) <==> Within(a, 0x0200_0000, 0x0201_0000)
  {}

  lemma UartWindow(a: bv32)
    ensures InUart(a) <==> Within(a, 0x1000_0000, 0x1000_0008)
  {}

  lemma PlicByteWindow(a: bv32)
    ensures InPlicBytes(a) <==> Within(a, 0x0C00_0000, 0x0C01_0000)
  {}

  lemma PlicWindow(a: bv32)
    ensures InPlic(a) <==> Within(a, 0x0C00_0000, 0x1000_0000)
  {}

  lemma TopPage(a: bv32)
    ensures AboveRam(a) <==> AtLeast(a, 0xFFFF_F000)
  {}

  /** An address at which accesses of every width reach main memory. */
  predicate InRam(a: bv32) { !InClint(a) && !InUart(a) && !InPlic(a) && !AboveRam(a) }

  // ---------------------------------------------------------------------
  // The timer
  // ---------------------------------------------------------------------

  function Shift(a: bv32): bv64 { ((a & 7) as bv64) << 3 }

  /** clint_read within the window; other registers read as zero. */
  function ClintByte(c: Clint, a: bv32): bv8 {
    if a & 0xFFFF_FFF8 == 0x0200_4000 then ((c.mtimecmp >> Shift(a)) & 0xFF) as bv8
    else if a & 0xFFFF_FFF8 == 0x0200_BFF8 then ((c.mtime >> Shift(a)) & 0xFF) as bv8
    else 0
  }

  /** clint_store: only mtimecmp is writable. */
  function ClintStore(c: Clint, a: bv32, v: bv8): Clint {
    if a & 0xFFFF_FFF8 == 0x0200_4000
    then c.(mtimecmp := (c.mtimecmp & !(0xFF << Shift(a))) | ((v as bv64) << Shift(a)))
    else c
  }

  // ---------------------------------------------------------------------
  // Reads
  // ---------------------------------------------------------------------

  function RamByte(ram: map<Word, bv8>, a: bv32): bv8 {
    if Word(a) in ram then ram[Word(a)] else 0
  }

  function RamWord(ram: map<Word, bv8>, a: bv32): bv32 {
    Gather(RamByte(ram, Offset(a, 0)), RamByte(ram, Offset(a, 1)), RamByte(ram, Offset(a, 2)), RamByte(ram, Offset(a, 3)))
  }

  function PlicWord(d: Plic.Data): bv32 {
    match d
    case Number(n) => (n % 0x1_0000_0000) as bv32
    case Lines(b) => FromBits(b)
  }

  function PlicOffset(a: bv32): nat { (a & 0x03FF_FFFF) as nat }

  /** The byte of a word that address `a` names, and the word with that byte replaced. */
  function Octet(w: bv32, a: bv32): bv8 { ((w >> ((a & 3) << 3)) & 0xFF) as bv8 }

  function WithOctet(w: bv32, a: bv32, v: bv8): bv32 {
    (w & !(0xFF << ((a & 3) << 3))) | ((v as bv32) << ((a & 3) << 3))
  }

  /** A byte of the controller register at `a`. */
  function PlicByte(p: Plic.State, a: bv32): (r: (Plic.State, bv8))
    requires p.Valid()
    ensures r.0.Valid()
  {
    var (q, v) := Plic.ReadReg(p, Plic.RegAt(PlicOffset(a)));
    (q, Octet(PlicWord(v), a))
  }

  /** mem_write8 merges the byte into the word it reads at the aligned offset. */
  function PlicMerge(p: Plic.State, a: bv32, v: bv8): (r: Plic.State)
    requires p.Valid()
    ensures r.Valid()
  {
    var reg := Plic.RegAt(PlicOffset(a & 0xFFFF_FFFC));
    var (q, d) := Plic.ReadReg(p, reg);
    Plic.WriteReg(q, reg, WithOctet(PlicWord(d), a, v))
  }

  function UartOffset(a: bv32): (off: nat)
    ensures off < 8
  {
    ((a & 7) as bv3) as nat
  }

  /** mem_read8_unsigned; reads of the serial port and of a claim register have effects. */
  function MemRead8(s: State, a: bv32): (r: (State, bv8))
    requires s.Valid()
    ensures r.0.Valid()
  {
    if InClint(a) then (s, ClintByte(s.clint, a))
    else if InUart(a) then
      var (d, v) := Uart.Accessed(s.devices, UartOffset(a));
      (s.(devices := d), v)
    else if InPlicBytes(a) then
      var (p, v) := PlicByte(s.devices.plic, a);
      (s.(devices := s.devices.(plic := p)), v)
    else if AboveRam(a) then (s, 0)
    else (s, RamByte(s.ram, a))
  }

  /** (uint32_t)b << (k * 8) */
  function InPlace(b: bv8, k: nat): bv32
    requires k < 4
  {
    match k
    case 0 => b as bv32
    case 1 => (b as bv32) << 8
    case 2 => (b as bv32) << 16
    case _ => (b as bv32) << 24
  }

  function Join(v: bv32, w: bv32): bv32 { v | w }

  /** Up to four port registers from `off` on, as mem_read32_unsigned reads them. */
  function UartWord(d: Uart.Devices, off: nat, k: nat): (r: (Uart.Devices, bv32))
    requires d.plic.Valid() && k <= 4
    ensures r.0.plic.Valid()
    decreases 4 - k
  {
    if k == 4 || off + k >= 8 then (d, 0)
    else
      var (e, v) := Uart.Accessed(d, off + k);
      var (f, w) := UartWord(e, off, k + 1);
      (f, Join(InPlace(v, k), w))
  }

  /** The devices and the value after a word read. */
  function Read32(d: Uart.Devices, c: Clint, ram: map<Word, bv8>, a: bv32): (r: (Uart.Devices, bv32))
    requires d.plic.Valid()
    ensures r.0.plic.Valid()
  {
    hide InClint, InUart, InPlic, PastRam, ClintByte, RamWord, Gather, Offset, PlicWord;
    if InClint(a) then
      (d, Gather(ClintByte(c, Offset(a, 0)), ClintByte(c, Offset(a, 1)),
                 ClintByte(c, Offset(a, 2)), ClintByte(c, Offset(a, 3))))
    else if InUart(a) then UartWord(d, UartOffset(a), 0)
    else if InPlic(a) then
      var (p, v) := Plic.ReadReg(d.plic, Plic.RegAt(PlicOffset(a)));
      (d.(plic := p), PlicWord(v))
    else if PastRam(a) then (d, 0)
    else (d, RamWord(ram, a))
  }

  /** mem_read32_unsigned */
  function MemRead32(s: State, a: bv32): (r: (State, bv32))
    requires s.Valid()
    ensures r.0.Valid()
    ensures r.0 == s.(devices := r.0.devices)
  {
    hide Read32;
    var (d, v) := Read32(s.devices, s.clint, s.ram, a);
    (s.(devices := d), v)
  }

  // ---------------------------------------------------------------------
  // Writes
  // ---------------------------------------------------------------------

  /** What a store of any width leaves alone; mem_clear_reservation drops the reservation of its word. */
  ghost predicate StoreFrame(s: State, t: State, a: bv32) {
    && t.Valid()
    && t.flags == s.flags - {KeyOf(a)}
    && t.gpr == s.gpr && t.pc == s.pc && t.priv == s.priv && t.csr == s.csr && t.justTrapped == s.justTrapped
  }

  function DevicesAfter8(d: Uart.Devices, a: bv32, v: bv8): (e: Uart.Devices)
    requires d.plic.Valid()
    ensures e.plic.Valid()
  {
    hide InUart, InPlicBytes, PlicMerge, UartOffset;
    if InUart(a) then Uart.Written(d, UartOffset(a), v)
    else if InPlicBytes(a) then d.(plic := PlicMerge(d.plic, a, v))
    else d
  }

  function RamAfter8(ram: map<Word, bv8>, a: bv32, v: bv8): map<Word, bv8> {
    if InClint(a) || InUart(a) || InPlicBytes(a) || AboveRam(a) then ram else ram[Word(a) := v]
  }

  function MemWrite8(s: State, a: bv32, v: bv8): (t: State)
    requires s.Valid()
    ensures StoreFrame(s, t, a)
  {
    hide DevicesAfter8, RamAfter8, ClintStore, InClint;
    s.(flags := s.flags - {KeyOf(a)},
       clint := if InClint(a) then ClintStore(s.clint, a, v) else s.clint,
       devices := DevicesAfter8(s.devices, a, v),
       ram := RamAfter8(s.ram, a, v))
  }

  function RamAfter16(ram: map<Word, bv8>, a: bv32, v: bv16): map<Word, bv8> {
    if InClint(a) || AtLeast(a, 0xFFFF_EFFF) then ram
    else ram[Word(Offset(a, 0)) := (v & 0xFF) as bv8][Word(Offset(a, 1)) := ((v >> 8) & 0xFF) as bv8]
  }

  function ClintAfter16(c: Clint, a: bv32, v: bv16): Clint {
    if InClint(a)
    then ClintStore(ClintStore(c, Offset(a, 0), (v & 0xFF) as bv8), Offset(a, 1), ((v >> 8) & 0xFF) as bv8)
    else c
  }

  /** mem_write16 knows only the timer window; the other windows lie in main memory for it. */
  function MemWrite16(s: State, a: bv32, v: bv16): (t: State)
    requires s.Valid()
    ensures StoreFrame(s, t, a)
  {
    hide RamAfter16, ClintAfter16;
    s.(flags := s.flags - {KeyOf(a)}, clint := ClintAfter16(s.clint, a, v), ram := RamAfter16(s.ram, a, v))
  }

  /** Up to four port registers from `off` on, as mem_write32 writes them. */
  function UartStore(d: Uart.Devices, off: nat, w: bv32, k: nat): (e: Uart.Devices)
    requires d.plic.Valid() && k <= 4
    ensures e.plic.Valid()
    decreases 4 - k
  {
    if k == 4 || off + k >= 8 then d
    else UartStore(Uart.Written(d, off + k, ByteOf(w, k)), off, w, k + 1)
  }

  function ClintStoreWord(c: Clint, a: bv32, w: bv32): Clint {
    ClintStore(ClintStore(ClintStore(ClintStore(c, Offset(a, 0), ByteOf(w, 0)), Offset(a, 1), ByteOf(w, 1)),
                          Offset(a, 2), ByteOf(w, 2)), Offset(a, 3), ByteOf(w, 3))
  }

  function RamStoreWord(ram: map<Word, bv8>, a: bv32, w: bv32): map<Word, bv8> {
    ram[Word(Offset(a, 0)) := ByteOf(w, 0)][Word(Offset(a, 1)) := ByteOf(w, 1)]
       [Word(Offset(a, 2)) := ByteOf(w, 2)][Word(Offset(a, 3)) := ByteOf(w, 3)]
  }

  function DevicesAfter32(d: Uart.Devices, a: bv32, w: bv32): (e: Uart.Devices)
    requires d.plic.Valid()
    ensures e.plic.Valid()
  {
    hide InUart, InPlic, UartOffset, PlicOffset;
    if InUart(a) then UartStore(d, UartOffset(a), w, 0)
    else if InPlic(a) then d.(plic := Plic.WriteReg(d.plic, Plic.RegAt(PlicOffset(a)), w))
    else d
  }

  function RamAfter32(ram: map<Word, bv8>, a: bv32, w: bv32): map<Word, bv8> {
    if InClint(a) || InUart(a) || InPlic(a) || PastRam(a) then ram else RamStoreWord(ram, a, w)
  }

  function MemWrite32(s: State, a: bv32, w: bv32): (t: State)
    requires s.Valid()
    ensures StoreFrame(s, t, a)
  {
    hide DevicesAfter32, RamAfter32, ClintStoreWord, InClint;
    s.(flags := s.flags - {KeyOf(a)},
       clint := if InClint(a) then ClintStoreWord(s.clint, a, w) else s.clint,
       devices := DevicesAfter32(s.devices, a, w),
       ram := RamAfter32(s.ram, a, w))
  }

  /** The four bytes of a stored word. */
  lemma StoredBytes(ram: map<Word, bv8>, a: bv32, w: bv32)
    ensures var r := RamStoreWord(ram, a, w);
      && RamByte(r, Offset(a, 0)) == ByteOf(w, 0) && RamByte(r, Offset(a, 1)) == ByteOf(w, 1)
      && RamByte(r, Offset(a, 2)) == ByteOf(w, 2) && RamByte(r, Offset(a, 3)) == ByteOf(w, 3)
  {
    hide Offset, ByteOf;
    OffsetsDiffer(a, 0, 1);
    OffsetsDiffer(a, 0, 2);
    OffsetsDiffer(a, 0, 3);
    OffsetsDiffer(a, 1, 2);
    OffsetsDiffer(a, 1, 3);
    OffsetsDiffer(a, 2, 3);
  }

  lemma StoredWord(ram: map<Word, bv8>, a: bv32, w: bv32)
    ensures RamWord(RamStoreWord(ram, a, w), a) == w
  {
    hide RamStoreWord, RamByte, Gather, ByteOf, Offset;
    StoredBytes(ram, a, w);
    GatherBytes(w);
  }

  lemma OtherBytes(ram: map<Word, bv8>, a: bv32, w: bv32, x: bv32)
    requires forall i: bv2 :: x != Offset(a, i)
    ensures RamByte(RamStoreWord(ram, a, w), x) == RamByte(ram, x)
  {
    hide Offset, ByteOf;
    assert x != Offset(a, 0) && x != Offset(a, 1) && x != Offset(a, 2) && x != Offset(a, 3);
  }

  /** A word stored in main memory is read back, and every other byte is as it was. */
  lemma StoreReadsBack(s: State, a: bv32, w: bv32, x: bv32)
    requires s.Valid() && InRam(a) && !PastRam(a)
    ensures var t := MemWrite32(s, a, w);
      && MemRead32(t, a) == (t, w)
      && ((forall i: bv2 :: x != Offset(a, i)) ==> RamByte(t.ram, x) == RamByte(s.ram, x))
      && t.clint == s.clint && t.devices == s.devices
  {
    hide Offset, RamByte, RamWord, RamStoreWord, InClint, InUart, InPlic, AboveRam, PastRam;
    StoredWord(s.ram, a, w);
    if forall i: bv2 :: x != Offset(a, i) { OtherBytes(s.ram, a, w, x); }
  }
}
