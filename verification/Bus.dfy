/**
  The accessors of include/mem.h as the source writes them: range tests, byte
  loops over the timer and the serial port, and the reservation table itself.
  Each is proved against its function in `Memory`.
 */
module Bus {
  import opened Words
  import opened Machine
  import opened Memory
  import opened Reservations
  import Plic
  import Uart

  lemma BytesGather(b0: bv8, b1: bv8, b2: bv8, b3: bv8)
    ensures Join(Join(Join(Join(0, InPlace(b0, 0)), InPlace(b1, 1)), InPlace(b2, 2)), InPlace(b3, 3))
            == Gather(b0, b1, b2, b3)
  {}

  function Index(i: nat): bv2
    requires i < 4
  {
    match i case 0 => 0 case 1 => 1 case 2 => 2 case _ => 3
  }

  /** The first `n` bytes of the timer from `a` on. */
  function ClintBytes(c: Clint, a: bv32, n: nat): bv32
    requires n <= 4
  {
    if n == 0 then 0 else Join(ClintBytes(c, a, n - 1), InPlace(ClintByte(c, Offset(a, Index(n - 1))), n - 1))
  }

  lemma ClintBytesGather(c: Clint, a: bv32)
    ensures ClintBytes(c, a, 4) == Gather(ClintByte(c, Offset(a, 0)), ClintByte(c, Offset(a, 1)),
                                          ClintByte(c, Offset(a, 2)), ClintByte(c, Offset(a, 3)))
  {
    hide ClintByte, Offset, InPlace, Join, Gather;
    assert ClintBytes(c, a, 1) == Join(0, InPlace(ClintByte(c, Offset(a, 0)), 0));
    assert ClintBytes(c, a, 2) == Join(ClintBytes(c, a, 1), InPlace(ClintByte(c, Offset(a, 1)), 1));
    assert ClintBytes(c, a, 3) == Join(ClintBytes(c, a, 2), InPlace(ClintByte(c, Offset(a, 2)), 2));
    assert ClintBytes(c, a, 4) == Join(ClintBytes(c, a, 3), InPlace(ClintByte(c, Offset(a, 3)), 3));
    BytesGather(ClintByte(c, Offset(a, 0)), ClintByte(c, Offset(a, 1)),
                ClintByte(c, Offset(a, 2)), ClintByte(c, Offset(a, 3)));
  }

  /** The timer after the first `n` bytes of `w` are stored from `a` on. */
  function ClintStored(c: Clint, a: bv32, w: bv32, n: nat): Clint
    requires n <= 4
  {
    if n == 0 then c else ClintStore(ClintStored(c, a, w, n - 1), Offset(a, Index(n - 1)), ByteOf(w, n - 1))
  }

  lemma ClintStoredWord(c: Clint, a: bv32, w: bv32)
    ensures ClintStored(c, a, w, 4) == ClintStoreWord(c, a, w)
  {
    hide ClintStore, Offset, ByteOf;
    assert ClintStored(c, a, w, 2) == ClintStore(ClintStored(c, a, w, 1), Offset(a, 1), ByteOf(w, 1));
  }

  lemma JoinAssociates(a: bv32, b: bv32, c: bv32)
    ensures Join(a, Join(b, c)) == Join(Join(a, b), c)
  {}

  lemma JoinZero(a: bv32)
    ensures Join(0, a) == a == Join(a, 0)
  {}

  class Bus {
    var st: State
    /** g_state.mmu_flags */
    const reservations: ReservationTable

    ghost predicate Valid()
      reads this, reservations, reservations.table, reservations.table.entries
    {
      && st.Valid()
      && reservations.Valid()
      && reservations.table.contents == st.flags
    }

    constructor (s: State)
      requires s.Valid() && s.flags == map[]
      ensures Valid() && st == s
      ensures fresh(reservations.table) && fresh(reservations.table.entries)
    {
      st := s;
      reservations := new ReservationTable();
    }

    /** The byte loop over the timer. */
    method ReadClint(a: bv32) returns (v: bv32)
      ensures v == Gather(ClintByte(st.clint, Offset(a, 0)), ClintByte(st.clint, Offset(a, 1)),
                          ClintByte(st.clint, Offset(a, 2)), ClintByte(st.clint, Offset(a, 3)))
    {
      hide ClintByte, Offset, InPlace, Join, Gather;
      v := 0;
      for i: nat := 0 to 4
        invariant v == ClintBytes(st.clint, a, i)
      {
        v := Join(v, InPlace(ClintByte(st.clint, Offset(a, Index(i))), i));
      }
      ClintBytesGather(st.clint, a);
    }

    method WriteClint(a: bv32, w: bv32)
      modifies this`st
      ensures st == old(st).(clint := ClintStoreWord(old(st).clint, a, w))
    {
      hide ClintStore, Offset, ByteOf, ClintStoreWord;
      var c := st.clint;
      for i: nat := 0 to 4
        invariant c == ClintStored(st.clint, a, w, i)
      {
        c := ClintStore(c, Offset(a, Index(i)), ByteOf(w, i));
      }
      ClintStoredWord(st.clint, a, w);
      st := st.(clint := c);
    }

    /** The byte loop over the serial port, which ends with the port's last register. */
    method ReadUart(off: nat) returns (v: bv32)
      requires st.Valid() && off < 8
      modifies this`st
      ensures var r := UartWord(old(st).devices, off, 0); st == old(st).(devices := r.0) && v == r.1
    {
      hide Uart.Accessed, Join, InPlace;
      var d, k: nat := st.devices, 0;
      ghost var r := UartWord(d, off, 0);
      v := 0;
      JoinZero(r.1);
      while k < 4 && off + k < 8
        invariant k <= 4 && d.plic.Valid()
        invariant st == old(st) && r.0 == UartWord(d, off, k).0 && r.1 == Join(v, UartWord(d, off, k).1)
      {
        var (e, b) := Uart.Accessed(d, off + k);
        ghost var rest := UartWord(e, off, k + 1);
        JoinAssociates(v, InPlace(b, k), rest.1);
        v := Join(v, InPlace(b, k));
        d, k := e, k + 1;
      }
      JoinZero(v);
      assert UartWord(d, off, k) == (d, 0);
      st := st.(devices := d);
    }

    method WriteUart(off: nat, w: bv32)
      requires st.Valid() && off < 8
      modifies this`st
      ensures st == old(st).(devices := UartStore(old(st).devices, off, w, 0))
    {
      hide Uart.Written, ByteOf;
      var d, k: nat := st.devices, 0;
      ghost var d0 := d;
      while k < 4 && off + k < 8
        invariant k <= 4 && d.plic.Valid()
        invariant UartStore(d, off, w, k) == UartStore(d0, off, w, 0)
      {
        d, k := Uart.Written(d, off + k, ByteOf(w, k)), k + 1;
      }
      st := st.(devices := d);
    }

    /** mem_read32_unsigned */
    method Load32(a: bv32) returns (v: bv32)
      requires Valid()
      modifies this`st
      ensures Valid() && (st, v) == MemRead32(old(st), a)
    {
      hide Within, AtLeast, InClint, InUart, InPlic, PastRam, RamWord, UartOffset, PlicOffset, UartWord, PlicWord;
      hide Gather, ClintByte, Offset;
      ClintWindow(a);
      UartWindow(a);
      PlicWindow(a);
      LastWord(a);
      if Within(a, 0x0200_0000, 0x0201_0000) { v := ReadClint(a); }
      else if Within(a, 0x1000_0000, 0x1000_0008) { v := ReadUart(UartOffset(a)); }
      else if Within(a, 0x0C00_0000, 0x1000_0000) {
        var (p, d) := Plic.ReadReg(st.devices.plic, Plic.RegAt(PlicOffset(a)));
        st := st.(devices := st.devices.(plic := p));
        v := PlicWord(d);
      }
      else if AtLeast(a, 0xFFFF_EFFD) { v := 0; }
      else { v := RamWord(st.ram, a); }
    }

    /** mem_write32: the reservation goes first, whatever the address. */
    method Store32(a: bv32, w: bv32)
      requires Valid()
      modifies this`st, reservations.table, reservations.table.entries
      ensures Valid() && reservations.table.entries == old(reservations.table.entries)
      ensures st == MemWrite32(old(st), a, w)
    {
      reservations.ClearOnStore(a);
      st := st.(flags := st.flags - {KeyOf(a)});
      Route32(a, w);
    }

    /** The rest of mem_write32. */
    method Route32(a: bv32, w: bv32)
      requires st.Valid()
      modifies this`st
      ensures st.flags == old(st).flags && st.Valid()
      ensures KeyOf(a) !in old(st).flags ==> st == MemWrite32(old(st), a, w)
    {
      hide Within, AtLeast, InClint, InUart, InPlic, PastRam, RamStoreWord, UartOffset, PlicOffset, UartStore;
      hide ClintStoreWord, KeyOf;
      ClintWindow(a);
      UartWindow(a);
      PlicWindow(a);
      LastWord(a);
      WindowsApart(a);
      assert KeyOf(a) !in st.flags ==> st.flags - {KeyOf(a)} == st.flags;
      if Within(a, 0x0200_0000, 0x0201_0000) { WriteClint(a, w); }
      else if Within(a, 0x1000_0000, 0x1000_0008) { WriteUart(UartOffset(a), w); }
      else if Within(a, 0x0C00_0000, 0x1000_0000) {
        st := st.(devices := st.devices.(plic := Plic.WriteReg(st.devices.plic, Plic.RegAt(PlicOffset(a)), w)));
      }
      else if AtLeast(a, 0xFFFF_EFFD) {}
      else { st := st.(ram := RamStoreWord(st.ram, a, w)); }
    }

    /** mem_read8_unsigned */
    method Load8(a: bv32) returns (v: bv8)
      requires Valid()
      modifies this`st
      ensures Valid() && (st, v) == MemRead8(old(st), a)
    {
      hide Within, AtLeast, InClint, InUart, InPlicBytes, AboveRam, RamByte, UartOffset, PlicByte, ClintByte;
      hide Uart.Accessed;
      ClintWindow(a);
      UartWindow(a);
      PlicByteWindow(a);
      TopPage(a);
      if Within(a, 0x0200_0000, 0x0201_0000) { v := ClintByte(st.clint, a); }
      else if Within(a, 0x1000_0000, 0x1000_0008) {
        var (d, b) := Uart.Accessed(st.devices, UartOffset(a));
        st := st.(devices := d);
        v := b;
      }
      else if Within(a, 0x0C00_0000, 0x0C01_0000) {
        var (p, b) := PlicByte(st.devices.plic, a);
        st := st.(devices := st.devices.(plic := p));
        v := b;
      }
      else if AtLeast(a, 0xFFFF_F000) { v := 0; }
      else { v := RamByte(st.ram, a); }
    }

    /** mem_write8 */
    method Store8(a: bv32, v: bv8)
      requires Valid()
      modifies this`st, reservations.table, reservations.table.entries
      ensures Valid() && reservations.table.entries == old(reservations.table.entries)
      ensures st == MemWrite8(old(st), a, v)
    {
      reservations.ClearOnStore(a);
      st := st.(flags := st.flags - {KeyOf(a)});
      Route8(a, v);
    }

    method Route8(a: bv32, v: bv8)
      requires st.Valid()
      modifies this`st
      ensures st.flags == old(st).flags && st.Valid()
      ensures KeyOf(a) !in old(st).flags ==> st == MemWrite8(old(st), a, v)
    {
      hide Within, AtLeast, InClint, InUart, InPlicBytes, AboveRam, UartOffset, PlicMerge, ClintStore, KeyOf;
      hide Uart.Written;
      ClintWindow(a);
      UartWindow(a);
      PlicByteWindow(a);
      TopPage(a);
      ByteWindowsApart(a);
      assert KeyOf(a) !in st.flags ==> st.flags - {KeyOf(a)} == st.flags;
      if Within(a, 0x0200_0000, 0x0201_0000) { st := st.(clint := ClintStore(st.clint, a, v)); }
      else if Within(a, 0x1000_0000, 0x1000_0008) { st := st.(devices := Uart.Written(st.devices, UartOffset(a), v)); }
      else if Within(a, 0x0C00_0000, 0x0C01_0000) {
        st := st.(devices := st.devices.(plic := PlicMerge(st.devices.plic, a, v)));
      }
      else if AtLeast(a, 0xFFFF_F000) {}
      else { st := st.(ram := st.ram[Word(a) := v]); }
    }

    /** mem_write16, which tests for the timer window alone */
    method Store16(a: bv32, v: bv16)
      requires Valid()
      modifies this`st, reservations.table, reservations.table.entries
      ensures Valid() && reservations.table.entries == old(reservations.table.entries)
      ensures st == MemWrite16(old(st), a, v)
    {
      reservations.ClearOnStore(a);
      st := st.(flags := st.flags - {KeyOf(a)});
      Route16(a, v);
    }

    method Route16(a: bv32, v: bv16)
      requires st.Valid()
      modifies this`st
      ensures st.flags == old(st).flags && st.Valid()
      ensures KeyOf(a) !in old(st).flags ==> st == MemWrite16(old(st), a, v)
    {
      hide Within, AtLeast, InClint, ClintStore, KeyOf, Offset;
      ClintWindow(a);
      assert KeyOf(a) !in st.flags ==> st.flags - {KeyOf(a)} == st.flags;
      var lo, hi := (v & 0xFF) as bv8, ((v >> 8) & 0xFF) as bv8;
      if Within(a, 0x0200_0000, 0x0201_0000) {
        var c := st.clint;
        for i: nat := 0 to 2
          invariant i == 0 ==> c == st.clint
          invariant i == 1 ==> c == ClintStore(st.clint, Offset(a, 0), lo)
          invariant i == 2 ==> c == ClintStore(ClintStore(st.clint, Offset(a, 0), lo), Offset(a, 1), hi)
        {
          c := ClintStore(c, Offset(a, Index(i)), if i == 0 then lo else hi);
        }
        st := st.(clint := c);
      }
      else if AtLeast(a, 0xFFFF_EFFF) {}
      else { st := st.(ram := st.ram[Word(Offset(a, 0)) := lo][Word(Offset(a, 1)) := hi]); }
    }
  }

  lemma LastWord(a: bv32)
    ensures PastRam(a) <==> AtLeast(a, 0xFFFF_EFFD)
  {}

  lemma WindowsApart(a: bv32)
    ensures InClint(a) ==> !InUart(a) && !InPlic(a)
  {}

  lemma ByteWindowsApart(a: bv32)
    ensures InClint(a) ==> !InUart(a) && !InPlicBytes(a)
  {}
}
