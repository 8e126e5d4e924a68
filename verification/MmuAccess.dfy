/**
  Loads and stores through the MMU (include/mmu.h:228-385): an aligned wide
  access against the byte-wise helpers, which translate every byte.
 */
module MmuAccess {
  import opened Wrappers
  import opened Words
  import opened Addresses
  import opened Machine
  import opened Memory
  import opened Trap
  import opened Mmu

  /** The page fault mmu_translate raises. */
  function Fault(s: State, va: bv32, access: Access): (t: State)
    requires s.Valid()
    ensures t.Valid()
  {
    Take(s, Exception(FaultCode(access), va), s.pc)
  }

  function MmuRead8(s: State, va: bv32): (r: (State, bv8))
    requires s.Valid()
    ensures r.0.Valid()
  {
    match Translate(s, va, Load)
    case None => (Fault(s, va, Load), 0)
    case Some(pa) => MemRead8(s, pa)
  }

  function MmuRead32(s: State, va: bv32): (r: (State, bv32))
    requires s.Valid()
    ensures r.0.Valid()
  {
    match Translate(s, va, Load)
    case None => (Fault(s, va, Load), 0)
    case Some(pa) => MemRead32(s, pa)
  }

  function MmuWrite8(s: State, va: bv32, v: bv8): (t: State)
    requires s.Valid()
    ensures t.Valid()
  {
    match Translate(s, va, Store)
    case None => Fault(s, va, Store)
    case Some(pa) => MemWrite8(s, pa, v)
  }

  function MmuWrite32(s: State, va: bv32, w: bv32): (t: State)
    requires s.Valid()
    ensures t.Valid()
  {
    match Translate(s, va, Store)
    case None => Fault(s, va, Store)
    case Some(pa) => MemWrite32(s, pa, w)
  }

  lemma SameEntries(s: State, pte: bv32, va: bv32, i: bv2)
    ensures Entry1(s, ByteAt(va, i)) == Entry1(s, va)
    ensures Entry2(pte, ByteAt(va, i)) == Entry2(pte, va)
  {
    SameIndices(va, i);
    hide ByteAt;
  }

  /** The bytes of an aligned word translate alike. */
  lemma BytesTranslateAlike(s: State, va: bv32, i: bv2, access: Access)
    requires s.Valid() && WordAligned(va)
    ensures match Translate(s, va, access)
      case None => Translate(s, ByteAt(va, i), access) == None
      case Some(pa) => WordAligned(pa) && Translate(s, ByteAt(va, i), access) == Some(ByteAt(pa, i))
  {
    hide Peek, Entry1, Entry2, VmActive, EffectivePrivilege, WordAligned, ByteAt, Resolve, Place;
    var pte1 := Peek(s, Entry1(s, va));
    var pte2 := Peek(s, Entry2(pte1, va));
    SameEntries(s, pte1, va, i);
    BytesPlacedAlike(Resolve(s.csr.mstatus, pte1, pte2, EffectivePrivilege(s, access), access), pte1, pte2, va, i);
  }

  lemma BytesPlacedAlike(g: Grant, pte1: bv32, pte2: bv32, va: bv32, i: bv2)
    requires WordAligned(va)
    ensures match Place(g, pte1, pte2, va)
      case None => Place(g, pte1, pte2, ByteAt(va, i)) == None
      case Some(pa) => WordAligned(pa) && Place(g, pte1, pte2, ByteAt(va, i)) == Some(ByteAt(pa, i))
  {
    hide SuperpageAddress, PageAddress, WordAligned, ByteAt;
    AddressesAligned(pte1, va);
    AddressesAligned(pte2, va);
    SameOffsets(pte1, va, i);
    SameOffsets(pte2, va, i);
  }

  // ---------------------------------------------------------------------
  // Wide reads
  // ---------------------------------------------------------------------

  /** RAM or the timer: the places where reads have no effect. */
  predicate Quiet(a: bv32) { InClint(a) || InRam(a) }

  lemma SameWindow(a: bv32, i: bv2)
    ensures InClint(ByteAt(a, i)) == InClint(a)
    ensures InUart(ByteAt(a, i)) == InUart(a)
    ensures InPlicBytes(ByteAt(a, i)) == InPlicBytes(a)
    ensures InPlic(ByteAt(a, i)) == InPlic(a)
    ensures AboveRam(ByteAt(a, i)) == AboveRam(a)
  {
    hide ClintIndex, UartIndex, PlicByteIndex, PlicIndex, HighIndex, WordIndex, ByteAt;
    SameIndex(a, i);
  }

  lemma WindowsDisjoint(a: bv32)
    ensures InPlicBytes(a) ==> InPlic(a)
    ensures InClint(a) ==> !InUart(a) && !InPlic(a) && !AboveRam(a)
  {
    hide WordIndex;
  }

  lemma WordFitsRam(a: bv32)
    requires WordAligned(a) && !AboveRam(a)
    ensures !PastRam(a)
  {}

  /** A byte read without effects. */
  function QuietByte(s: State, a: bv32): bv8 {
    if InClint(a) then ClintByte(s.clint, a) else RamByte(s.ram, a)
  }

  lemma QuietRead8(s: State, pa: bv32, i: bv2)
    requires s.Valid() && Quiet(pa)
    ensures MemRead8(s, ByteAt(pa, i)) == (s, QuietByte(s, ByteAt(pa, i)))
    ensures InClint(ByteAt(pa, i)) == InClint(pa)
  {
    hide InClint, InUart, InPlicBytes, InPlic, AboveRam, ClintByte, RamByte, ByteAt;
    SameWindow(pa, i);
    WindowsDisjoint(pa);
  }

  function QuietWord(s: State, pa: bv32): bv32 {
    Gather(QuietByte(s, ByteAt(pa, 0)), QuietByte(s, ByteAt(pa, 1)),
           QuietByte(s, ByteAt(pa, 2)), QuietByte(s, ByteAt(pa, 3)))
  }

  lemma QuietRead32(s: State, pa: bv32)
    requires s.Valid() && WordAligned(pa) && Quiet(pa)
    ensures MemRead32(s, pa) == (s, QuietWord(s, pa))
  {
    hide ClintByte, RamByte, Gather, InUart, InPlic, AboveRam, PastRam, InClint, ByteAt, Offset, WordAligned;
    AddIsOr(pa, 0);
    AddIsOr(pa, 1);
    AddIsOr(pa, 2);
    AddIsOr(pa, 3);
    SameWindow(pa, 0);
    SameWindow(pa, 1);
    SameWindow(pa, 2);
    SameWindow(pa, 3);
    if !InClint(pa) { WordFitsRam(pa); }
  }

  /** Four byte loads of mmu_misaligned_load32, each translated on its own. */
  function ByteLoads(s: State, va: bv32): bv32
    requires s.Valid()
  {
    Gather(MmuRead8(s, ByteAt(va, 0)).1, MmuRead8(s, ByteAt(va, 1)).1,
           MmuRead8(s, ByteAt(va, 2)).1, MmuRead8(s, ByteAt(va, 3)).1)
  }

  lemma ByteLoad(s: State, va: bv32, pa: bv32, i: bv2)
    requires s.Valid() && WordAligned(va)
    requires Translate(s, va, Load) == Some(pa) && Quiet(pa)
    ensures MmuRead8(s, ByteAt(va, i)) == (s, QuietByte(s, ByteAt(pa, i)))
  {
    hide Translate, MemRead8, QuietByte, Quiet, WordAligned, ByteAt;
    BytesTranslateAlike(s, va, i, Load);
    QuietRead8(s, pa, i);
  }

  /**
    An aligned wide load from RAM or the timer equals the little-endian gather
    of four separately translated byte loads, and none of them changes the
    machine.
   */
  lemma WideReadIsGather(s: State, va: bv32, pa: bv32)
    requires s.Valid() && WordAligned(va)
    requires Translate(s, va, Load) == Some(pa) && Quiet(pa)
    ensures MmuRead32(s, va) == (s, ByteLoads(s, va))
    ensures forall i: bv2 :: MmuRead8(s, ByteAt(va, i)).0 == s
  {
    hide Translate, MmuRead8, MemRead32, QuietByte, Gather, Quiet, WordAligned, ByteAt;
    forall i: bv2 ensures MmuRead8(s, ByteAt(va, i)) == (s, QuietByte(s, ByteAt(pa, i))) {
      ByteLoad(s, va, pa, i);
    }
    BytesTranslateAlike(s, va, 0, Load);
    QuietRead32(s, pa);
  }

  // ---------------------------------------------------------------------
  // Wide stores
  // ---------------------------------------------------------------------

  lemma SameKey(a: bv32, i: bv2)
    ensures KeyOf(ByteAt(a, i)) == KeyOf(a)
  {}

  lemma OtherWord(a: bv32, i: bv2, b: bv32, j: bv2)
    requires WordIndex(a) != WordIndex(b)
    ensures ByteAt(a, i) != ByteAt(b, j)
  {
    SameIndex(a, i);
    SameIndex(b, j);
    hide WordIndex, ByteAt;
  }

  /** One byte of a quiet store. */
  function QuietStore(s: State, a: bv32, v: bv8): State {
    if InClint(a) then s.(flags := s.flags - {KeyOf(a)}, clint := ClintStore(s.clint, a, v))
    else s.(flags := s.flags - {KeyOf(a)}, ram := s.ram[Word(a) := v])
  }

  lemma QuietWrite8(s: State, pa: bv32, i: bv2, v: bv8)
    requires s.Valid() && Quiet(pa)
    ensures MemWrite8(s, ByteAt(pa, i), v) == QuietStore(s, ByteAt(pa, i), v)
  {
    hide InClint, InUart, InPlicBytes, InPlic, AboveRam, ByteAt, ClintStore;
    SameWindow(pa, i);
    WindowsDisjoint(pa);
  }

  /** The page-table entries the walk for a store at `va` reads. */
  ghost predicate EntryOfWalk(s: State, va: bv32, e: bv32)
    requires s.Valid()
  {
    var pte1 := Peek(s, Entry1(s, va));
    && VmActive(s, EffectivePrivilege(s, Store))
    && (e == Entry1(s, va) || (FlagsOf(pte1).v && !IsLeaf(pte1) && e == Entry2(pte1, va)))
  }

  /** Every entry of the walk is an aligned RAM word other than the one at `pa`. */
  ghost predicate WalkAvoids(s: State, va: bv32, pa: bv32)
    requires s.Valid()
  {
    forall e :: EntryOfWalk(s, va, e) ==> WordAligned(e) && InRam(e) && WordIndex(e) != WordIndex(pa)
  }

  /** A quiet byte store elsewhere leaves a RAM word as it was. */
  lemma StoreElsewhere(s: State, t: State, e: bv32, pa: bv32, i: bv2, v: bv8)
    requires s.Valid() && t.Valid() && WordAligned(e) && InRam(e) && WordIndex(e) != WordIndex(pa)
    requires t == QuietStore(s, ByteAt(pa, i), v)
    ensures Peek(t, e) == Peek(s, e)
  {
    hide WordIndex, ByteAt, Gather, InClint, InUart, InPlic, AboveRam, WordAligned, ClintByte, MemRead32, ClintStore, KeyOf;
    QuietRead32(s, e);
    QuietRead32(t, e);
    forall j: bv2 ensures QuietByte(t, ByteAt(e, j)) == QuietByte(s, ByteAt(e, j)) {
      OtherWord(e, j, pa, i);
      SameWindow(e, j);
    }
  }

  lemma SameRoots(s: State, t: State, va: bv32, access: Access)
    requires t.csr == s.csr && t.priv == s.priv
    ensures Entry1(t, va) == Entry1(s, va)
    ensures EffectivePrivilege(t, access) == EffectivePrivilege(s, access)
    ensures VmActive(t, EffectivePrivilege(t, access)) == VmActive(s, EffectivePrivilege(s, access))
  {
    hide Has;
  }

  /** So the walk reads the same entries again. */
  lemma EntriesKept(s: State, t: State, va: bv32, pa: bv32, i: bv2, v: bv8)
    requires s.Valid() && t.Valid() && WalkAvoids(s, va, pa)
    requires t == QuietStore(s, ByteAt(pa, i), v)
    ensures forall e :: EntryOfWalk(s, va, e) ==> Peek(t, e) == Peek(s, e)
  {
    hide WordIndex, ByteAt, InRam, WordAligned, EntryOfWalk, QuietStore, Peek;
    forall e | EntryOfWalk(s, va, e) ensures Peek(t, e) == Peek(s, e) {
      StoreElsewhere(s, t, e, pa, i, v);
    }
  }

  /** Both walks start alike and read the same entries. */
  ghost predicate SameWalk(s: State, t: State, va: bv32)
    requires s.Valid() && t.Valid()
  {
    && t.csr == s.csr && t.priv == s.priv
    && forall e :: EntryOfWalk(s, va, e) ==> Peek(t, e) == Peek(s, e)
  }

  lemma SameEntriesRead(s: State, t: State, va: bv32)
    requires s.Valid() && t.Valid() && SameWalk(s, t, va)
    requires VmActive(s, EffectivePrivilege(s, Store))
    ensures var pte1 := Peek(s, Entry1(s, va));
      && Peek(t, Entry1(t, va)) == pte1
      && (FlagsOf(pte1).v && !IsLeaf(pte1) ==> Peek(t, Entry2(pte1, va)) == Peek(s, Entry2(pte1, va)))
  {
    hide Entry1, Entry2, VmActive, EffectivePrivilege, Peek, FlagsOf, IsLeaf;
    SameRoots(s, t, va, Store);
    var pte1 := Peek(s, Entry1(s, va));
    assert EntryOfWalk(s, va, Entry1(s, va));
    assert FlagsOf(pte1).v && !IsLeaf(pte1) ==> EntryOfWalk(s, va, Entry2(pte1, va));
  }

  lemma TranslateKept(s: State, t: State, va: bv32)
    requires s.Valid() && t.Valid() && SameWalk(s, t, va)
    ensures Translate(t, va, Store) == Translate(s, va, Store)
  {
    hide Entry1, Entry2, VmActive, EffectivePrivilege, EntryOfWalk, SameWalk;
    hide Peek, FlagsOf, IsLeaf, Misaligned, CheckPte, SuperpageAddress, PageAddress;
    SameWalkRoots(s, t, va);
    SameRoots(s, t, va, Store);
    if VmActive(s, EffectivePrivilege(s, Store)) { SameEntriesRead(s, t, va); }
  }

  lemma SameWalkRoots(s: State, t: State, va: bv32)
    requires s.Valid() && t.Valid() && SameWalk(s, t, va)
    ensures t.csr == s.csr && t.priv == s.priv
  {}

  lemma AvoidsKept(s: State, t: State, va: bv32, pa: bv32)
    requires s.Valid() && t.Valid() && SameWalk(s, t, va) && WalkAvoids(s, va, pa)
    ensures WalkAvoids(t, va, pa)
  {
    hide Entry1, Entry2, VmActive, EffectivePrivilege, SameWalk, Peek, FlagsOf, IsLeaf, WordIndex, InRam, WordAligned;
    SameWalkRoots(s, t, va);
    SameRoots(s, t, va, Store);
    if VmActive(s, EffectivePrivilege(s, Store)) { SameEntriesRead(s, t, va); }
    assert forall e :: EntryOfWalk(t, va, e) ==> EntryOfWalk(s, va, e);
  }

  /** The next byte of the word still translates as before. */
  lemma TranslationKept(s: State, t: State, va: bv32, pa: bv32, i: bv2, v: bv8)
    requires s.Valid() && t.Valid() && WalkAvoids(s, va, pa)
    requires t == QuietStore(s, ByteAt(pa, i), v)
    ensures Translate(t, va, Store) == Translate(s, va, Store)
    ensures WalkAvoids(t, va, pa)
  {
    assert t.csr == s.csr && t.priv == s.priv by {
      hide ByteAt, InClint, ClintStore, KeyOf, Peek, WalkAvoids, Translate, EntryOfWalk;
    }
    hide ByteAt, QuietStore, Peek, WalkAvoids, Translate, EntryOfWalk;
    EntriesKept(s, t, va, pa, i, v);
    TranslateKept(s, t, va);
    AvoidsKept(s, t, va, pa);
  }

  /** mmu_misaligned_store32: four byte stores, each translated on its own. */
  function ByteStores(s: State, va: bv32, w: bv32): (t: State)
    requires s.Valid()
    ensures t.Valid()
  {
    var t0 := MmuWrite8(s, ByteAt(va, 0), ByteOf(w, 0));
    var t1 := MmuWrite8(t0, ByteAt(va, 1), ByteOf(w, 1));
    var t2 := MmuWrite8(t1, ByteAt(va, 2), ByteOf(w, 2));
    MmuWrite8(t2, ByteAt(va, 3), ByteOf(w, 3))
  }

  /** One byte store of the four. */
  lemma ByteStoreStep(s: State, va: bv32, pa: bv32, i: bv2, v: bv8)
    requires s.Valid() && WordAligned(va) && Quiet(pa)
    requires Translate(s, va, Store) == Some(pa) && WalkAvoids(s, va, pa)
    ensures var t := MmuWrite8(s, ByteAt(va, i), v);
      t == QuietStore(s, ByteAt(pa, i), v) && Translate(t, va, Store) == Some(pa) && WalkAvoids(t, va, pa)
  {
    hide Translate, MemWrite8, QuietStore, Quiet, WordAligned, ByteAt, WalkAvoids;
    BytesTranslateAlike(s, va, i, Store);
    QuietWrite8(s, pa, i, v);
    TranslationKept(s, MmuWrite8(s, ByteAt(va, i), v), va, pa, i, v);
  }

  /** Four quiet byte stores in a row. */
  function QuietStores(s: State, pa: bv32, w: bv32): State {
    QuietStore(QuietStore(QuietStore(QuietStore(s, ByteAt(pa, 0), ByteOf(w, 0)), ByteAt(pa, 1), ByteOf(w, 1)),
                          ByteAt(pa, 2), ByteOf(w, 2)), ByteAt(pa, 3), ByteOf(w, 3))
  }

  /** What a quiet store of the word at `pa` comes to, in either window. */
  function QuietResult(s: State, pa: bv32, w: bv32): State {
    s.(flags := s.flags - {KeyOf(pa)},
       clint := if InClint(pa) then ClintStoreWord(s.clint, pa, w) else s.clint,
       ram := if InClint(pa) then s.ram else RamStoreWord(s.ram, pa, w))
  }

  lemma QuietWhole(s: State, pa: bv32, w: bv32)
    requires s.Valid() && WordAligned(pa) && Quiet(pa)
    ensures MemWrite32(s, pa, w) == QuietResult(s, pa, w)
  {
    hide InUart, InPlic, AboveRam, PastRam, InClint, WordAligned, ClintStoreWord, RamStoreWord, KeyOf;
    WindowsDisjoint(pa);
    if !InClint(pa) { WordFitsRam(pa); }
  }

  lemma QuietByByte(s: State, pa: bv32, w: bv32)
    requires WordAligned(pa)
    ensures QuietStores(s, pa, w) == QuietResult(s, pa, w)
  {
    hide InClint, ByteAt, Offset, WordAligned, ClintStore, ByteOf, KeyOf;
    AddIsOr(pa, 0);
    AddIsOr(pa, 1);
    AddIsOr(pa, 2);
    AddIsOr(pa, 3);
    forall i: bv2 ensures InClint(ByteAt(pa, i)) == InClint(pa) && KeyOf(ByteAt(pa, i)) == KeyOf(pa) {
      SameWindow(pa, i);
      SameKey(pa, i);
    }
    assert s.flags - {KeyOf(pa)} - {KeyOf(pa)} == s.flags - {KeyOf(pa)};
  }

  lemma QuietWrite32(s: State, pa: bv32, w: bv32)
    requires s.Valid() && WordAligned(pa) && Quiet(pa)
    ensures MemWrite32(s, pa, w) == QuietStores(s, pa, w)
  {
    hide MemWrite32, QuietStores, QuietResult, WordAligned, Quiet;
    QuietWhole(s, pa, w);
    QuietByByte(s, pa, w);
  }

  /**
    An aligned wide store to RAM or the timer equals four separately
    translated byte stores, when the word stored to is not an entry of the
    page walk.
   */
  lemma WideStoreIsBytes(s: State, va: bv32, pa: bv32, w: bv32)
    requires s.Valid() && WordAligned(va)
    requires Translate(s, va, Store) == Some(pa) && Quiet(pa)
    requires WalkAvoids(s, va, pa)
    ensures MmuWrite32(s, va, w) == ByteStores(s, va, w)
  {
    hide Translate, MmuWrite8, MemWrite32, QuietStore, Quiet, WordAligned, ByteAt, WalkAvoids, ByteOf;
    BytesTranslateAlike(s, va, 0, Store);
    QuietWrite32(s, pa, w);
    ByteStoreStep(s, va, pa, 0, ByteOf(w, 0));
    var t0 := MmuWrite8(s, ByteAt(va, 0), ByteOf(w, 0));
    ByteStoreStep(t0, va, pa, 1, ByteOf(w, 1));
    var t1 := MmuWrite8(t0, ByteAt(va, 1), ByteOf(w, 1));
    ByteStoreStep(t1, va, pa, 2, ByteOf(w, 2));
    var t2 := MmuWrite8(t1, ByteAt(va, 2), ByteOf(w, 2));
    ByteStoreStep(t2, va, pa, 3, ByteOf(w, 3));
  }
}
