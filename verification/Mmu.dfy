/**
  Sv32 translation and the accesses made through it: include/mmu.h, against the
  walk of section 4.3.2 of the RISC-V Privileged Architecture 20211203.
 */
module Mmu {
  import opened Wrappers
  import opened Words
  import opened BitLaws
  import opened Addresses
  import opened Machine
  import opened Csr
  import opened Memory
  import opened Trap
  import Plic
  import Uart

  datatype Access = Fetch | Load | Store

  const SATP_MODE: bv32 := 0x8000_0000
  const SATP_PPN: bv32 := 0x003F_FFFF

  const PTE_V: bv32 := 0x01
  const PTE_R: bv32 := 0x02
  const PTE_W: bv32 := 0x04
  const PTE_X: bv32 := 0x08
  const PTE_U: bv32 := 0x10
  const PTE_A: bv32 := 0x40
  const PTE_D: bv32 := 0x80

  /** The flag bits of an entry. */
  datatype Flags = Flags(v: bool, r: bool, w: bool, x: bool, u: bool, a: bool, d: bool)

  function FlagsOf(pte: bv32): Flags {
    Flags(Has(pte, PTE_V), Has(pte, PTE_R), Has(pte, PTE_W), Has(pte, PTE_X),
          Has(pte, PTE_U), Has(pte, PTE_A), Has(pte, PTE_D))
  }

  // ---------------------------------------------------------------------
  // The code
  // ---------------------------------------------------------------------

  /** mmu_effective_dpriv for data, the current privilege for fetches. */
  function EffectivePrivilege(s: State, access: Access): Privilege {
    if access.Fetch? then s.priv
    else if s.csr.mstatus[MPRV] then PrivilegeOf(s.csr.mstatus)
    else s.priv
  }

  predicate VmActive(s: State, p: Privilege) {
    p != Privilege.Machine && Has(s.csr.satp, SATP_MODE)
  }

  /** mmu_check_pte */
  predicate CheckPte(m: Bits, f: Flags, p: Privilege, access: Access) {
    if p == Privilege.Machine then true
    else if !f.a then false
    else if access.Store? && !f.w then false
    else if access.Store? && !f.d then false
    else if access.Fetch? && !f.x then false
    else if access.Load? && !f.r && !f.x then false
    else if access.Load? && !f.r && f.x && !m[MXR] then false
    else if p == Supervisor && f.u && !m[SUM] then false
    else if p == User && !f.u then false
    else true
  }

  /** The value of a page-table read. */
  function Peek(s: State, a: bv32): bv32
    requires s.Valid()
  {
    MemRead32(s, a).1
  }

  function Entry1(s: State, va: bv32): bv32 {
    ((s.csr.satp & SATP_PPN) << 12) + ((va >> 22) & 0x3FF) * 4
  }

  function Entry2(pte1: bv32, va: bv32): bv32 {
    ((pte1 >> 10) << 12) + ((va >> 12) & 0x3FF) * 4
  }

  /** Entries with any of R, W and X are leaves to the code. */
  predicate IsLeaf(pte: bv32) { Has(pte, PTE_R | PTE_W | PTE_X) }

  predicate Misaligned(pte: bv32) { Has(pte >> 10, 0x3FF) }

  /** The leaf through which an access is granted. */
  datatype Grant = Refused | Superpage | Page

  /** What the walk makes of the two entries; the second counts only below a pointer. */
  function Resolve(m: Bits, pte1: bv32, pte2: bv32, p: Privilege, access: Access): Grant {
    if !FlagsOf(pte1).v then Refused
    else if IsLeaf(pte1) then
      if Misaligned(pte1) then Refused
      else if !CheckPte(m, FlagsOf(pte1), p, access) then Refused
      else Superpage
    else if !FlagsOf(pte2).v then Refused
    else if !IsLeaf(pte2) then Refused
    else if !CheckPte(m, FlagsOf(pte2), p, access) then Refused
    else Page
  }

  /** The physical address granted. */
  function Place(g: Grant, pte1: bv32, pte2: bv32, va: bv32): Option<bv32> {
    match g
    case Refused => None
    case Superpage => Some(SuperpageAddress(pte1, va))
    case Page => Some(PageAddress(pte2, va))
  }

  /** mmu_translate, apart from the exception it raises; None is a page fault. */
  function Translate(s: State, va: bv32, access: Access): Option<bv32>
    requires s.Valid()
  {
    var p := EffectivePrivilege(s, access);
    if !VmActive(s, p) then Some(va)
    else
      var pte1 := Peek(s, Entry1(s, va));
      var pte2 := Peek(s, Entry2(pte1, va));
      Place(Resolve(s.csr.mstatus, pte1, pte2, p, access), pte1, pte2, va)
  }

  function FaultCode(access: Access): bv5 {
    match access case Fetch => 12 case Load => 13 case Store => 15
  }

  // ---------------------------------------------------------------------
  // The architecture
  // ---------------------------------------------------------------------

  /** A 34-bit physical address: page number and offset. */
  datatype Physical = Physical(ppn: bv22, offset: bv12)

  datatype Walk = PageFault | Reached(pa: Physical)

  function Vpn(va: bv32, level: nat): bv10 {
    if level == 1 then ((va >> 22) & 0x3FF) as bv10 else ((va >> 12) & 0x3FF) as bv10
  }

  function Ppn(pte: bv32): bv22 { ((pte >> 10) & 0x3F_FFFF) as bv22 }

  /** The page-table entry at index `k` of the page `ppn`; four bytes each. */
  function EntryAt(s: State, ppn: bv22, k: bv10): bv32
    requires s.Valid()
  {
    Peek(s, ((ppn as bv32) << 12) | ((k as bv32) << 2))
  }

  /** Step 5: the permission the access needs, with MXR and SUM; step 7: A and D. */
  predicate Permits(m: Bits, f: Flags, p: Privilege, access: Access) {
    && (match access
        case Fetch => f.x
        case Load => f.r || (m[MXR] && f.x)
        case Store => f.w)
    && (if p == User then f.u else !f.u || (m[SUM] && !access.Fetch?))
    && f.a
    && (access.Store? ==> f.d)
  }

  /** Step 6: the page number of a superpage. */
  predicate Aligned(ppn: bv22) { ppn & 0x3FF == 0 }

  /** Step 8: a superpage takes the low page number from the virtual address. */
  function LeafAddress(pte: bv32, va: bv32, level: nat): Physical {
    Physical(if level == 1 then (Ppn(pte) & 0x3F_FC00) | (Vpn(va, 0) as bv22) else Ppn(pte),
             (va & 0xFFF) as bv12)
  }

  /**
    Section 4.3.2, steps 2 to 8, from the table in page `table` at `level`. The
    bits U, A and D of a pointer to the next table are reserved (section 4.3.1).
   */
  function SpecWalk(s: State, va: bv32, p: Privilege, access: Access, level: nat, table: bv22): Walk
    requires s.Valid() && level <= 1
    decreases level
  {
    var pte := EntryAt(s, table, Vpn(va, level));
    var f := FlagsOf(pte);
    if !f.v || (!f.r && f.w) then PageFault
    else if !f.r && !f.x then
      if level == 0 || f.u || f.a || f.d then PageFault else SpecWalk(s, va, p, access, level - 1, Ppn(pte))
    else if !Permits(s.csr.mstatus, f, p, access) then PageFault
    else if level == 1 && !Aligned(Ppn(pte)) then PageFault
    else Reached(LeafAddress(pte, va, level))
  }

  function RootPpn(s: State): bv22 { (s.csr.satp & SATP_PPN) as bv22 }

  function SpecTranslate(s: State, va: bv32, access: Access): Walk
    requires s.Valid()
  {
    SpecWalk(s, va, EffectivePrivilege(s, access), access, 1, RootPpn(s))
  }

  // ---------------------------------------------------------------------
  // Agreement
  // ---------------------------------------------------------------------

  /** The physical address space of the emulator ends at 4 GiB, so two bits of a page number are lost. */
  predicate Low(pte: bv32) { pte & 0xC000_0000 == 0 }

  predicate LowRoot(s: State) { s.csr.satp & 0x0030_0000 == 0 }

  /** Every page number the walk uses names a page below 4 GiB. */
  predicate LowPages(s: State, va: bv32)
    requires s.Valid()
  {
    var pte1 := Peek(s, Entry1(s, va));
    var pte2 := Peek(s, Entry2(pte1, va));
    && LowRoot(s)
    && (FlagsOf(pte1).v ==> Low(pte1))
    && (FlagsOf(pte1).v && !IsLeaf(pte1) && FlagsOf(pte2).v ==> Low(pte2))
  }

  /** The two rules of the architecture that the code does not apply to a leaf. */
  predicate Unchecked(f: Flags, p: Privilege, access: Access) {
    (f.w && !f.r) || (access.Fetch? && p == Supervisor && f.u)
  }

  /** A pointer with one of its reserved bits set. */
  predicate ReservedPointer(f: Flags) { f.u || f.a || f.d }

  /**
    The entries, status and privilege with which the code grants an access that
    the architecture refuses: it passes every test the code makes, but the leaf
    or the pointer breaks a rule the code does not apply.
   */
  predicate Departs(m: Bits, pte1: bv32, pte2: bv32, p: Privilege, access: Access) {
    var f1, f2 := FlagsOf(pte1), FlagsOf(pte2);
    f1.v &&
    if IsLeaf(pte1) then !Misaligned(pte1) && CheckPte(m, f1, p, access) && Unchecked(f1, p, access)
    else
      && f2.v && IsLeaf(pte2) && CheckPte(m, f2, p, access)
      && (Unchecked(f2, p, access) || ReservedPointer(f1))
  }

  ghost predicate Agrees(code: Option<bv32>, spec: Walk) {
    match spec
    case PageFault => code == None
    case Reached(pa) => code == Some(Flat(pa))
  }

  /** The physical address as the emulator holds it. */
  function Flat(pa: Physical): bv32 { ((pa.ppn as bv32) << 12) | (pa.offset as bv32) }

  // Where the bits lie

  /** V, R, W, X, U, A and D are bits 0, 1, 2, 3, 4, 6 and 7 of an entry. */
  lemma FlagPositions(pte: bv32)
    ensures FlagsOf(pte) ==
      Flags(Bit(pte, 0), Bit(pte, 1), Bit(pte, 2), Bit(pte, 3), Bit(pte, 4), Bit(pte, 6), Bit(pte, 7))
  {
    FlagBit(pte, 0, 0x01);
    FlagBit(pte, 1, 0x02);
    FlagBit(pte, 2, 0x04);
    FlagBit(pte, 3, 0x08);
    FlagBit(pte, 4, 0x10);
    FlagBit(pte, 6, 0x40);
    FlagBit(pte, 7, 0x80);
    hide Has, Bit;
  }

  lemma FlagBit(w: bv32, i: bv5, mask: bv32)
    requires mask == 1 << i
    ensures Has(w, mask) == Bit(w, i)
  {}

  /** Translation is on below machine level with bit 31 of satp, whose low 22 bits are the root page. */
  lemma SatpFields(s: State, p: Privilege)
    ensures VmActive(s, p) <==> p != Privilege.Machine && Bit(s.csr.satp, 31)
    ensures RootPpn(s) as bv32 == s.csr.satp & 0x003F_FFFF
  {}

  /** Fetches use the current level; loads and stores use MPP, bits 12 and 11, under MPRV, bit 17. */
  lemma AccessLevel(s: State, access: Access)
    ensures var m := s.csr.mstatus;
      EffectivePrivilege(s, access) ==
        if access == Fetch || !m[17] then s.priv
        else if m[12] then (if m[11] then Privilege.Machine else Hypervisor)
        else if m[11] then Supervisor else User
  {}

  /** A leaf for each access, with SUM at bit 18 and MXR at bit 19. */
  lemma CheckBits(m: Bits, f: Flags, p: Privilege, access: Access)
    requires p == User || p == Supervisor
    ensures CheckPte(m, f, p, access) <==>
      && f.a
      && (access == Store ==> f.w && f.d)
      && (access == Fetch ==> f.x)
      && (access == Load ==> f.r || (f.x && m[19]))
      && (p == Supervisor ==> f.u ==> m[18])
      && (p == User ==> f.u)
  {}

  // The bit arithmetic, one fact at a time

  lemma Entry1Address(satp: bv32, va: bv32)
    requires satp & 0x0030_0000 == 0
    ensures ((satp & SATP_PPN) << 12) + ((va >> 22) & 0x3FF) * 4 ==
            ((((satp & SATP_PPN) as bv22) as bv32) << 12) | ((Vpn(va, 1) as bv32) << 2)
  {}

  lemma Entry2Address(pte1: bv32, va: bv32)
    requires Low(pte1)
    ensures Entry2(pte1, va) == ((Ppn(pte1) as bv32) << 12) | ((Vpn(va, 0) as bv32) << 2)
  {}

  lemma Entry1Same(s: State, va: bv32)
    requires s.Valid() && LowRoot(s)
    ensures EntryAt(s, RootPpn(s), Vpn(va, 1)) == Peek(s, Entry1(s, va))
  {
    hide Peek, Vpn;
    Entry1Address(s.csr.satp, va);
  }

  lemma Entry2Same(s: State, pte1: bv32, va: bv32)
    requires s.Valid() && Low(pte1)
    ensures EntryAt(s, Ppn(pte1), Vpn(va, 0)) == Peek(s, Entry2(pte1, va))
  {
    hide Peek, Vpn, Ppn, Entry2;
    Entry2Address(pte1, va);
  }

  lemma SuperpageLeafAddress(pte: bv32, va: bv32)
    requires Low(pte) && !Misaligned(pte)
    ensures SuperpageAddress(pte, va) == Flat(LeafAddress(pte, va, 1))
  {}

  lemma PageLeafAddress(pte: bv32, va: bv32)
    requires Low(pte)
    ensures PageAddress(pte, va) == Flat(LeafAddress(pte, va, 0))
  {}

  lemma LeafAddresses(pte: bv32, va: bv32)
    requires Low(pte)
    ensures !Misaligned(pte) ==> SuperpageAddress(pte, va) == Flat(LeafAddress(pte, va, 1))
    ensures PageAddress(pte, va) == Flat(LeafAddress(pte, va, 0))
  {
    hide Low, Misaligned, SuperpageAddress, PageAddress, Flat, LeafAddress;
    if !Misaligned(pte) { SuperpageLeafAddress(pte, va); }
    PageLeafAddress(pte, va);
  }

  lemma LeafBits(pte: bv32)
    ensures IsLeaf(pte) <==> FlagsOf(pte).r || FlagsOf(pte).w || FlagsOf(pte).x
    ensures Misaligned(pte) <==> !Aligned(Ppn(pte))
  {}

  /** On a leaf the code grants what the architecture permits, except under the two unchecked rules. */
  lemma ChecksAgree(m: Bits, f: Flags, p: Privilege, access: Access)
    requires p == User || p == Supervisor
    ensures Permits(m, f, p, access) <==>
              CheckPte(m, f, p, access) && !(access.Fetch? && p == Supervisor && f.u)
  {}

  /** What the code and the architecture make of a leaf. */
  lemma LeafAgrees(m: Bits, pte: bv32, p: Privilege, access: Access, va: bv32, level: nat)
    requires p == User || p == Supervisor
    requires Low(pte) && IsLeaf(pte) && level <= 1
    ensures var f := FlagsOf(pte);
      var granted := f.v && CheckPte(m, f, p, access) && !(level == 1 && Misaligned(pte));
      var permitted := f.v && !(!f.r && f.w) && Permits(m, f, p, access) && !(level == 1 && !Aligned(Ppn(pte)));
      && (permitted <==> granted && !Unchecked(f, p, access))
      && (granted ==> (if level == 1 then SuperpageAddress(pte, va) else PageAddress(pte, va))
                      == Flat(LeafAddress(pte, va, level)))
  {
    hide FlagsOf, SuperpageAddress, PageAddress, Flat, LeafAddress, CheckPte, Permits, Ppn, Misaligned, IsLeaf, Low, Aligned;
    LeafBits(pte);
    LeafAddresses(pte, va);
    ChecksAgree(m, FlagsOf(pte), p, access);
  }

  /** Translation by U or S, with page numbers the emulator can hold. */
  ghost predicate Translating(s: State, va: bv32, access: Access)
    requires s.Valid()
  {
    var p := EffectivePrivilege(s, access);
    VmActive(s, p) && (p == User || p == Supervisor) && LowPages(s, va)
  }

  /** The code and the architecture part ways exactly where the entries make them. */
  ghost predicate AgreesUnlessDeparts(s: State, va: bv32, access: Access)
    requires s.Valid()
  {
    var pte1 := Peek(s, Entry1(s, va));
    var pte2 := Peek(s, Entry2(pte1, va));
    Agrees(Translate(s, va, access), SpecTranslate(s, va, access)) <==>
      !Departs(s.csr.mstatus, pte1, pte2, EffectivePrivilege(s, access), access)
  }

  lemma SuperpageAgrees(s: State, va: bv32, access: Access)
    requires s.Valid() && Translating(s, va, access) && IsLeaf(Peek(s, Entry1(s, va)))
    ensures AgreesUnlessDeparts(s, va, access)
  {
    hide FlagsOf, SuperpageAddress, PageAddress, Flat, LeafAddress, CheckPte, Permits, Ppn, Vpn, Misaligned;
    hide Peek, EntryAt, Entry1, Entry2, Low, LowRoot, IsLeaf, VmActive, EffectivePrivilege, Unchecked, Aligned, RootPpn;
    var pte := Peek(s, Entry1(s, va));
    Entry1Same(s, va);
    LeafBits(pte);
    if FlagsOf(pte).v { LeafAgrees(s.csr.mstatus, pte, EffectivePrivilege(s, access), access, va, 1); }
  }

  /** The architecture's walk stops at the first entry, or goes on to the second. */
  lemma SpecAtPointer(s: State, va: bv32, access: Access)
    requires s.Valid() && Translating(s, va, access) && !IsLeaf(Peek(s, Entry1(s, va)))
    ensures var pte1 := Peek(s, Entry1(s, va));
      var p := EffectivePrivilege(s, access);
      SpecTranslate(s, va, access) ==
        if !FlagsOf(pte1).v || ReservedPointer(FlagsOf(pte1)) then PageFault
        else SpecWalk(s, va, p, access, 0, Ppn(pte1))
  {
    hide FlagsOf, LeafAddress, Permits, Ppn, Vpn, Peek, EntryAt, Entry1, Entry2, Low, LowRoot, IsLeaf, VmActive;
    hide EffectivePrivilege, Aligned, RootPpn, Misaligned;
    Entry1Same(s, va);
    LeafBits(Peek(s, Entry1(s, va)));
  }

  /** The architecture's second step, on the entry that the code reads. */
  lemma SpecAtTable(s: State, pte1: bv32, va: bv32, p: Privilege, access: Access)
    requires s.Valid() && Low(pte1)
    ensures var pte2 := Peek(s, Entry2(pte1, va));
      var f := FlagsOf(pte2);
      SpecWalk(s, va, p, access, 0, Ppn(pte1)) ==
        if f.v && IsLeaf(pte2) && !(!f.r && f.w) && Permits(s.csr.mstatus, f, p, access)
        then Reached(LeafAddress(pte2, va, 0)) else PageFault
  {
    hide FlagsOf, LeafAddress, Permits, Ppn, Vpn, Peek, EntryAt, Entry2, Low, IsLeaf, Aligned, Misaligned;
    Entry2Same(s, pte1, va);
    LeafBits(Peek(s, Entry2(pte1, va)));
  }

  lemma TableRefuses(s: State, va: bv32, access: Access)
    requires s.Valid() && Translating(s, va, access) && !IsLeaf(Peek(s, Entry1(s, va)))
    requires var pte1 := Peek(s, Entry1(s, va));
      var pte2 := Peek(s, Entry2(pte1, va));
      !(FlagsOf(pte1).v && FlagsOf(pte2).v && IsLeaf(pte2))
    ensures AgreesUnlessDeparts(s, va, access)
  {
    hide FlagsOf, SuperpageAddress, PageAddress, Flat, LeafAddress, CheckPte, Permits, Ppn, Misaligned, Aligned;
    hide Peek, Entry1, Entry2, Low, LowRoot, IsLeaf, VmActive, EffectivePrivilege, Unchecked, SpecTranslate, SpecWalk;
    var pte1 := Peek(s, Entry1(s, va));
    SpecAtPointer(s, va, access);
    if FlagsOf(pte1).v { SpecAtTable(s, pte1, va, EffectivePrivilege(s, access), access); }
  }

  lemma TableAgrees(s: State, va: bv32, access: Access)
    requires s.Valid() && Translating(s, va, access) && !IsLeaf(Peek(s, Entry1(s, va)))
    ensures AgreesUnlessDeparts(s, va, access)
  {
    hide FlagsOf, SuperpageAddress, PageAddress, Flat, LeafAddress, CheckPte, Permits, Ppn, Misaligned, Aligned;
    hide Peek, Entry1, Entry2, Low, LowRoot, IsLeaf, VmActive, EffectivePrivilege, Unchecked, SpecTranslate, SpecWalk;
    var p := EffectivePrivilege(s, access);
    var pte1 := Peek(s, Entry1(s, va));
    var pte2 := Peek(s, Entry2(pte1, va));
    if FlagsOf(pte1).v && FlagsOf(pte2).v && IsLeaf(pte2) {
      SpecAtPointer(s, va, access);
      SpecAtTable(s, pte1, va, p, access);
      LeafAgrees(s.csr.mstatus, pte2, p, access, va, 0);
    } else {
      hide AgreesUnlessDeparts;
      TableRefuses(s, va, access);
    }
  }

  /**
    For every page table with pages below 4 GiB, address, access and U or S
    privilege: the code and the architecture give the same fault or the same
    physical address exactly when the two entries do not depart.
   */
  lemma TranslationAgrees(s: State, va: bv32, access: Access)
    requires s.Valid() && Translating(s, va, access)
    ensures AgreesUnlessDeparts(s, va, access)
  {
    hide AgreesUnlessDeparts, Translating, Peek;
    if IsLeaf(Peek(s, Entry1(s, va))) {
      SuperpageAgrees(s, va, access);
    } else {
      TableAgrees(s, va, access);
    }
  }

  // ---------------------------------------------------------------------
  // The departures, each at a state and an address
  // ---------------------------------------------------------------------

  /** Supervisor level with SUM set and the root table at 0x8000_0000, over the memory `ram`. */
  function Paging(ram: map<Word, bv8>): (s: State)
    ensures s.Valid()
  {
    var none := Zero();
    State(seq(32, _ => 0), 0, Supervisor,
          Csrs(none[SUM := true], none, none, none, none, 0, 0, 0, 0, 0, 0, 0, 0, 0x8008_0000),
          ram, map[], Clint(0, 0), Uart.Devices(Uart.RESET, Plic.RESET), false)
  }

  lemma ReadsPage(ram: map<Word, bv8>, a: bv32)
    requires InRam(a) && !PastRam(a)
    ensures Peek(Paging(ram), a) == RamWord(ram, a)
  {}

  /** A superpage that is writable and not readable takes a store. */
  lemma WriteOnlyGranted()
    ensures var s := Paging(map[Word(0x8000_0000) := 0xC5]);
      Translate(s, 0, Store) == Some(0) && SpecTranslate(s, 0, Store) == PageFault
  {
    var ram := map[Word(0x8000_0000) := 0xC5 as bv8];
    var s := Paging(ram);
    ReadsPage(ram, 0x8000_0000);
    assert RamWord(ram, 0x8000_0000) == 0xC5;
    assert Entry1(s, 0) == 0x8000_0000;
  }

  /** The supervisor fetches from a user page of code under SUM. */
  lemma UserFetchGranted()
    ensures var s := Paging(map[Word(0x8000_0000) := 0x59]);
      Translate(s, 0, Fetch) == Some(0) && SpecTranslate(s, 0, Fetch) == PageFault
  {
    var ram := map[Word(0x8000_0000) := 0x59 as bv8];
    var s := Paging(ram);
    ReadsPage(ram, 0x8000_0000);
    assert RamWord(ram, 0x8000_0000) == 0x59;
    assert Entry1(s, 0) == 0x8000_0000;
  }

  /** The memory of a pointer with U, A and D set to a table at 0x8000_1000 whose first leaf is ordinary. */
  function PointerMemory(): map<Word, bv8> {
    map[Word(0x8000_0000) := 0xD1, Word(0x8000_0001) := 0x04, Word(0x8000_0003) := 0x20, Word(0x8000_1000) := 0xCF]
  }

  lemma PointerEntries()
    ensures RamWord(PointerMemory(), 0x8000_0000) == 0x2000_04D1
    ensures RamWord(PointerMemory(), 0x8000_1000) == 0xCF
  {}

  /** The walk goes through a pointer with its reserved bits set. */
  lemma ReservedPointerGranted()
    ensures var s := Paging(PointerMemory());
      Translate(s, 0, Load) == Some(0) && SpecTranslate(s, 0, Load) == PageFault
  {
    hide PointerMemory, RamWord;
    var s := Paging(PointerMemory());
    PointerEntries();
    ReadsPage(PointerMemory(), 0x8000_0000);
    ReadsPage(PointerMemory(), 0x8000_1000);
    assert Entry1(s, 0) == 0x8000_0000;
    assert Entry2(0x2000_04D1, 0) == 0x8000_1000;
  }

  // ---------------------------------------------------------------------
  // Superpages
  // ---------------------------------------------------------------------

  /**
    `t` maps the 4 MiB around `va` through a table of 1024 leaves where `s`
    maps it by one aligned superpage leaf with the same flags.
   */
  ghost predicate SplitsSuperpage(s: State, t: State, va: bv32)
    requires s.Valid() && t.Valid()
  {
    var pte := Peek(s, Entry1(s, va));
    var pointer := Peek(t, Entry1(t, va));
    && t.csr == s.csr && t.priv == s.priv
    && FlagsOf(pte).v && IsLeaf(pte) && !Misaligned(pte)
    && FlagsOf(pointer).v && !IsLeaf(pointer)
    && forall w: bv32 :: (w >> 22) == (va >> 22) ==>
         Peek(t, Entry2(pointer, w)) == SplitPte(pte, w)
  }

  /** The leaf of the second-level table for the page of `va`. */
  function SplitPte(pte: bv32, va: bv32): bv32 { pte | (((va >> 12) & 0x3FF) << 10) }

  lemma SplitFlags(pte: bv32, va: bv32, mask: bv32)
    requires mask & 0xFFFF_FC00 == 0
    ensures Has(SplitPte(pte, va), mask) == Has(pte, mask)
  {
    assert SplitPte(pte, va) & mask == pte & mask;
  }

  lemma SplitAddress(pte: bv32, va: bv32)
    requires !Misaligned(pte)
    ensures PageAddress(SplitPte(pte, va), va) == SuperpageAddress(pte, va)
  {}

  lemma SplitLeaf(pte: bv32, va: bv32)
    ensures FlagsOf(SplitPte(pte, va)) == FlagsOf(pte)
    ensures IsLeaf(SplitPte(pte, va)) == IsLeaf(pte)
  {
    hide Has, SplitPte;
    SplitFlags(pte, va, PTE_V);
    SplitFlags(pte, va, PTE_R);
    SplitFlags(pte, va, PTE_W);
    SplitFlags(pte, va, PTE_X);
    SplitFlags(pte, va, PTE_U);
    SplitFlags(pte, va, PTE_A);
    SplitFlags(pte, va, PTE_D);
    SplitFlags(pte, va, PTE_R | PTE_W | PTE_X);
  }

  /** The entries that both walks read for `va`. */
  lemma SplitEntries(s: State, t: State, va: bv32)
    requires s.Valid() && t.Valid() && SplitsSuperpage(s, t, va)
    ensures var pte := Peek(s, Entry1(s, va));
      var pointer := Peek(t, Entry1(t, va));
      && t.csr == s.csr && t.priv == s.priv
      && FlagsOf(pte).v && IsLeaf(pte) && !Misaligned(pte)
      && FlagsOf(pointer).v && !IsLeaf(pointer)
      && Peek(t, Entry2(pointer, va)) == SplitPte(pte, va)
  {
    hide FlagsOf, Misaligned, Peek, Entry1, Entry2, IsLeaf, SplitPte;
  }

  lemma SameControl(s: State, t: State, access: Access)
    requires t.csr == s.csr && t.priv == s.priv
    ensures EffectivePrivilege(t, access) == EffectivePrivilege(s, access)
    ensures VmActive(t, EffectivePrivilege(t, access)) == VmActive(s, EffectivePrivilege(s, access))
  {
    hide Has;
  }

  /** Every address and access gets the same fault or physical address from both mappings. */
  lemma SuperpageEqualsTable(s: State, t: State, va: bv32, access: Access)
    requires s.Valid() && t.Valid() && SplitsSuperpage(s, t, va)
    ensures Translate(s, va, access) == Translate(t, va, access)
  {
    hide FlagsOf, SuperpageAddress, PageAddress, CheckPte, Misaligned, Peek, Entry1, Entry2, IsLeaf, SplitPte;
    hide SplitsSuperpage, VmActive, EffectivePrivilege;
    var pte := Peek(s, Entry1(s, va));
    SplitEntries(s, t, va);
    SameControl(s, t, access);
    SplitLeaf(pte, va);
    SplitAddress(pte, va);
  }
}
