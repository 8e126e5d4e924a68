# RISCVemu in Dafny

A model of the hard core of RISCVemu, an RV32 emulator written in C, and proofs
of what it keeps over every input, every reachable state and every run. The
model is the default build: debugger off, misaligned accesses trapped, every
extension on.

Verify with `dafny verify dfyconfig.toml`.

| file | subject |
|---|---|
| `HashMapU32.dfy` | the open-addressing hash table as a mathematical map |
| `FdtFormat.dfy`, `FdtBuilder.dfy` | the flattened device tree: reader, encoder, and the imperative writer |
| `Isa.dfy`, `ExecBase.dfy`, `Rvc.dfy` | instruction meanings, the 32-bit decoder, the compressed executor |
| `Reservations.dfy`, `LrSc.dfy`, `AtomicUnit.dfy` | LR/SC as a protocol over runs, and on the hash table |
| `Memory.dfy`, `Bus.dfy`, `Mmu.dfy`, `MmuAccess.dfy` | physical memory, Sv32 translation, wide against byte access |
| `Csr.dfy`, `CsrTable.dfy`, `CsrRuns.dfy` | status and interrupt registers: views, the register table, whole runs |
| `Trap.dfy`, `TrapRuns.dfy` | trap entry and return, delegation, interrupt dispatch |
| `Plic.dfy`, `Uart.dfy` | interrupt controller and serial port |
| `BitLaws.dfy` | words as bits and as integers: carries, order, sign |
| `IsaLaws.dfy`, `MemoryLaws.dfy`, `AmoLaws.dfy`, `TrapLaws.dfy`, `DeviceLaws.dfy` | what instructions, traps and devices do, in bits, numbers and addresses |
| `MulDiv.dfy`, `Spin.dfy` | multiply and divide, the spin detector |
| `Words.dfy`, `Addresses.dfy`, `Machine.dfy`, `Arithmetic.dfy`, `Wrappers.dfy` | words, bits and addresses, the machine state, modular arithmetic, options |

Code that changes state is a class or a method proved against a function of the
old state; the theorems are lemmas about those functions and about runs of them.
Where code and specification share a function, what it computes is stated apart
from both, in bits, integers and addresses (the files named Laws).
Registers and addresses are bit-vectors, so wrap-around is that of the C code;
words that the code consults bit by bit are sequences of 32 booleans. A debug
trigger that matches a load or store is the parameter `fires`.

## Where the code departs from its own comments or the architecture

- exec_c_insn is documented to return 1 if a trap was raised and 0 otherwise
  (src/extension/c_extension.c:171). After c.lw, c.sw, c.lwsp and c.swsp it
  always returns 1, because the pc is compared after it was moved
  (`Rvc.Executes`). Its caller ignores the value.
- Three kinds of state make the compressed executor differ from the expansion:
  `Rvc.Faithful` is the exact condition and `LinkClobbersTarget`,
  `OddTargetTraps` and `HandlerAtNextWord` show each.
- The walk grants an access that passes its tests although the leaf is writable
  and not readable, or is a user page the supervisor fetches from under SUM, or
  lies below a pointer with U, A or D set. `Mmu.Departs` is the exact condition
  on the two entries; `WriteOnlyGranted`, `UserFetchGranted` and
  `ReservedPointerGranted` give a state and an address for each.
- fdt_serialize does not check that the structure fits its window:
  `FdtBuilder.Build` and `UncheckedWindow`.
- A refused CSR access raises its exception and is then carried out all the
  same (src/extension/zicsr_extension.c:500-507), as modelled in
  `CsrRuns.Checked`.
- sip shows STIP while the timer is pending although mip does not, and a
  read-modify-write then stores it: `Csr.SipIsMaskOfMip`, `Csr.TimerLatchesStip`.
- A machine line set in mideleg can make the dispatcher take one interrupt
  after another for ever, with no instruction between: `TrapRuns.BurstsBoundedExactly`.
- Equal priorities in the interrupt controller go to the highest id
  (src/device/plic.c:79), as modelled in `Plic.Before`.

## Model

| member | source | states |
|---|---|---|
| HashMapU32.Run | src/hashmap_u32.c:126-226 | **Main.** For every sequence of put, get, remove, clear and size on a new table, each answer is the one a mathematical map gives after the operations before it, across tombstone reuse, wrap-around and rehash |
| HashMapU32.Perform | src/hashmap_u32.c:149-220 | one operation answers as the map does and leaves the table sound for the map after the operation |
| HashMapU32.HashMap.constructor | src/hashmap_u32.c:126-134 | a new table is sound and stands for the empty map |
| HashMapU32.HashMap.Probe | src/hashmap_u32.c:42-83 | the search stops at the live slot of the key, or at the first slot on its path that is not live (the first tombstone if one comes before the first empty slot); the fall-through return is never reached because a sound table has an empty slot |
| HashMapU32.HashMap.Rehash | src/hashmap_u32.c:85-124 | every live entry moves to the new table and nothing else does: same map, same size, no tombstones; the capacity is the requested one or 128 if that is more |
| HashMapU32.HashMap.Put | src/hashmap_u32.c:149-178 | soundness is kept and the map gains or overwrites exactly this key |
| HashMapU32.HashMap.Get | src/hashmap_u32.c:180-191 | found exactly when the map holds the key, with its value |
| HashMapU32.HashMap.Remove | src/hashmap_u32.c:193-206 | reports whether the key was there and removes exactly it |
| HashMapU32.HashMap.Clear | src/hashmap_u32.c:208-214 | empties the map in place |
| HashMapU32.HashMap.Place | src/hashmap_u32.c:166-177 | filling the slot the probe gave keeps all invariants; a reused tombstone leaves the tombstone count |
| HashMapU32.InsertKeepsSound | src/hashmap_u32.c:152-177 | counters equal the actual live and tombstone counts, live keys stay unique, every slot from a live key's home to its position stays occupied, and at most three quarters of the slots are in use |
| HashMapU32.RemoveKeepsSound | src/hashmap_u32.c:194-206 | the same invariants survive turning a live slot into a tombstone |
| HashMapU32.OverwriteKeepsTable | src/hashmap_u32.c:162-165 | the same for overwriting a value |
| HashMapU32.ProbeDecides | src/hashmap_u32.c:49-82 | in a sound table the probe finds a key exactly when the map holds it, with the map's value |
| HashMapU32.ProbeReachedEmpty | src/hashmap_u32.c:54-63 | an empty slot on a key's path proves the key absent from the whole table |
| HashMapU32.RepresentsIsFunctional | src/hashmap_u32.c:42-83 | a table stands for one map only |
| HashMapU32.WrapIsModulo | src/hashmap_u32.c:49-52 | the step along the ring is the source's addition modulo capacity |
| HashMapU32.CountFull | src/hashmap_u32.c:49-82 | a table without an empty slot has counters that add up to its capacity, which the load bound excludes |
| FdtBuilder.Build | src/device/fdt.c:171-394 | **Main.** For every sequence of builder calls: a blob results exactly when every call was accepted, all nodes were closed and the total fits 16 KiB; if the structure fits its window, a reader of the Devicetree Specification v0.4 (sections 5.2 to 5.5) recovers exactly the node names, property names, values and order described; if it runs past the last string, no reader accepts the blob |
| FdtBuilder.OverflowRefused | src/device/fdt.c:355-377 | a header whose structure is longer than the blob is refused |
| FdtBuilder.UncheckedWindow | src/device/fdt.c:342-365 | one accepted property of 5000 bytes makes such a blob |
| FdtBuilder.Builder.constructor | src/device/fdt.c:171-188 | an empty root node is open and the buffer encodes it |
| FdtBuilder.Builder.NodePush | src/device/fdt.c:191-201 | refused exactly for an empty name or after an error; otherwise the buffer encodes the tree with one more open node |
| FdtBuilder.Builder.NodePop | src/device/fdt.c:204-213 | refused exactly at the root or after an error; otherwise the innermost node becomes the last child of its parent |
| FdtBuilder.Builder.PropBegin | src/device/fdt.c:219-227 | interns the name and writes token, length and name offset, in the order of the source whether or not the regions overlap |
| FdtBuilder.Builder.PropBytes | src/device/fdt.c:314-323 | adds the property as the last item of the innermost open node |
| FdtBuilder.Builder.PropStr | src/device/fdt.c:293-302 | adds the string with its terminator |
| FdtBuilder.Builder.PropEmpty | src/device/fdt.c:305-311 | adds a property without value |
| FdtBuilder.Builder.PropCells | src/device/fdt.c:253-268 | adds the cells as big-endian words, refused outside 1 to 4 cells |
| FdtBuilder.Builder.Serialize | src/device/fdt.c:342-394 | zero exactly after an error, with open nodes or over 16 KiB; otherwise the returned prefix of the buffer reads back as the tree, or as nothing if the structure ran past the strings |
| FdtBuilder.Builder.StructAlign | src/device/fdt.c:131-139 | appends zero bytes up to the next multiple of four and touches nothing else |
| FdtBuilder.Builder.StructString | src/device/fdt.c:142-151 | appends the string, its terminator and the padding |
| FdtBuilder.Builder.StringsIntern | src/device/fdt.c:156-164 | appends the name to the strings region and returns its offset there |
| FdtBuilder.Builder.PutWord | src/device/fdt.c:81-87 | writes the four bytes of the word, most significant first |
| FdtBuilder.Builder.WriteHeader | src/device/fdt.c:367-377 | the ten header words of section 5.2 |
| FdtBuilder.ImageAppend | src/device/fdt.c:117-164 | writing one token behind both cursors extends the encoding by that token, though the two regions share the buffer |
| FdtBuilder.SerializedReads | src/device/fdt.c:342-394 | a header over the encoded blocks of a tree makes a blob that reads as the tree |
| FdtBuilder.HeaderIs | src/device/fdt.c:367-384 | the ten header words and the empty reserve map, number by number |
| FdtBuilder.RefusedForever | src/device/fdt.c:191-213 | a refused call is never made good by later calls |
| FdtFormat.ReadEncoded | src/device/fdt.c:117-164 | reading an encoded structure block and its strings gives the tree back |
| FdtFormat.ReadAll | src/device/fdt.c:117-164 | the token reader inverts the token writer for every token sequence, with names looked up in the strings block |
| FdtFormat.ReadItemsRoundTrip | src/device/fdt.c:191-213 | the parser of nested items inverts flattening, for every tree |
| FdtFormat.CStringRoundTrip | src/device/fdt.c:142-164 | a terminated name reads back up to its first zero byte |
| FdtFormat.PadIsLeast | src/device/fdt.c:131-139 | padding is the least up to a multiple of four |
| FdtFormat.WordRoundTrip | src/device/fdt.c:81-87 | a big-endian word reads back |
| Rvc.Core.ExecCompressed | src/extension/c_extension.c:174-480 | **Main.** For every state and every integer encoding with an expansion: the executor followed by the loop's pc += 4 has the effect and the trap of the two-byte expansion **if and only if** a register jump's target is even and not x1 overwritten by its own link, and a faulting load or store has its handler elsewhere than at pc + 4. Its return value tells a trap, except after a load or store, where it is always 1 |
| Rvc.BothDecoders | src/extension/c_extension.c:174-480 | **Main.** Under that condition the executor on an encoding and `exec` on the word its expansion encodes to leave the same registers, memory, control registers and traps, with 2 against 4 in the fall-through pc and the link |
| Rvc.Core.ExecQuadrant0 | src/extension/c_extension.c:180-272 | the same equivalence for quadrant 0 (c.addi4spn, c.lw, c.sw) |
| Rvc.Core.ExecImmediates | src/extension/c_extension.c:278-308 | the same equivalence for c.addi, c.li, c.addi16sp, c.lui |
| Rvc.Core.ExecJumps | src/extension/c_extension.c:284-288 | the same equivalence for c.jal, and c.j at lines 353-356 |
| Rvc.Core.ExecBranches | src/extension/c_extension.c:357-373 | the same equivalence for c.beqz and c.bnez |
| Rvc.Core.ExecShift | src/extension/c_extension.c:309-331 | the same equivalence for c.srli and c.srai |
| Rvc.Core.ExecAlu | src/extension/c_extension.c:332-352 | the same equivalence for c.andi, c.sub, c.xor, c.or, c.and |
| Rvc.Core.ExecStack | src/extension/c_extension.c:384-408 | the same equivalence for c.slli, c.lwsp, and c.swsp at lines 464-471 |
| Rvc.Core.ExecRegister | src/extension/c_extension.c:409-463 | the same equivalence for c.jr, c.mv, c.ebreak, c.jalr, c.add |
| Rvc.Core.JumpToRegister | src/extension/c_extension.c:415-455 | a register jump is faithful exactly when the target is even and, for c.jalr x1, equal to the link |
| Rvc.Core.LoadAndStep | src/extension/c_extension.c:226-235 | comparing the pc with the saved one tells a trap from none exactly when the handler is not at pc + 4 |
| Rvc.Core.StoreAndStep | src/extension/c_extension.c:236-243 | the same for stores |
| Rvc.SavedPcTest | src/extension/c_extension.c:226-243 | the condition on the handler, both directions |
| Rvc.LinkClobbersTarget | src/extension/c_extension.c:444-455 | c.jalr x1 shows the first departure |
| Rvc.OddTargetTraps | src/extension/c_extension.c:415-430 | c.jr with an odd target shows the second |
| Rvc.HandlerAtNextWord | src/extension/c_extension.c:226-235 | c.lw with its handler at pc + 4 shows the third |
| Rvc.LengthOnly | src/exec.c:127-736 | the meanings of the two-byte and the four-byte instruction differ in the length alone |
| Rvc.ExpansionWellFormed | src/extension/c_extension.c:110-137 | every jump and branch distance is even |
| Rvc.Addi4spnImm | src/extension/c_extension.c:62-69 | the computed immediate of c.addi4spn is the one chapter 16 of the Unprivileged ISA 20191213 lays out |
| Rvc.LsImm | src/extension/c_extension.c:72-78 | the computed immediate of c.lw and c.sw is the one chapter 16 of the Unprivileged ISA 20191213 lays out |
| Rvc.LwspImm | src/extension/c_extension.c:81-87 | the computed immediate of c.lwsp is the one chapter 16 of the Unprivileged ISA 20191213 lays out |
| Rvc.SwspImm | src/extension/c_extension.c:90-95 | the computed immediate of c.swsp is the one chapter 16 of the Unprivileged ISA 20191213 lays out |
| Rvc.Addi16spImm | src/extension/c_extension.c:98-107 | the computed immediate of c.addi16sp is the one chapter 16 of the Unprivileged ISA 20191213 lays out |
| Rvc.JalImm | src/extension/c_extension.c:110-122 | the computed immediate of c.j and c.jal is the one chapter 16 of the Unprivileged ISA 20191213 lays out |
| Rvc.BranchImm | src/extension/c_extension.c:125-137 | the computed immediate of c.beqz and c.bnez is the one chapter 16 of the Unprivileged ISA 20191213 lays out |
| Rvc.LuiImm | src/extension/c_extension.c:139-145 | the computed immediate of c.lui is the one chapter 16 of the Unprivileged ISA 20191213 lays out |
| Rvc.Imm6Code | src/extension/c_extension.c:147-151 | the computed immediate of c.addi, c.li and c.andi is the one chapter 16 of the Unprivileged ISA 20191213 lays out |
| Rvc.ShamtCode | src/extension/c_extension.c:153-157 | the computed immediate of the shifts is the one chapter 16 of the Unprivileged ISA 20191213 lays out |
| Rvc.WordIsItsFields | src/extension/c_extension.c:174-180 | every compressed word is exactly its fields, with the short registers and sub-codes inside the long ones |
| ExecBase.Hart.Exec | src/exec.c:90-736 | **Main.** For every instruction that encodings expand to and every state: `exec` on its 32-bit word followed by the loop's pc += 4 does what the instruction means, and at an odd pc takes the misaligned-fetch exception on behalf of the previous instruction |
| ExecBase.Hart.ExecOp | include/basic_instructions.h:39-77 | decoding and body have the meaning of add, sub, xor, or, and |
| ExecBase.Hart.ExecOpImm | include/basic_instructions.h:119-169 | decoding and body have the meaning of addi, andi, slli, srli, srai |
| ExecBase.Hart.ExecMemory | include/basic_instructions.h:223-246 | decoding and body have the meaning of lw (and sw, lines 339-361), with triggers, misalignment and page faults |
| ExecBase.Hart.ExecBranch | include/basic_instructions.h:364-398 | decoding and body have the meaning of beq and bne |
| ExecBase.Hart.ExecJump | include/basic_instructions.h:284-301 | decoding and body have the meaning of jalr (and jal, lines 484-496) |
| ExecBase.DecodesOpcode | src/exec.c:91-98 | the opcode field of every encoded instruction selects its case |
| ExecBase.RFields | src/exec.c:91-98 | every field of an R-type word comes back from its bits |
| ExecBase.JImmediate | src/exec.c:559-570 | the scattered jump distance comes back sign-extended |
| ExecBase.BImmediate | src/exec.c:518-527 | the scattered branch distance comes back sign-extended |
| ExecBase.OpcodeNumbers | src/exec.c:127-736 | the low seven bits of every encoded instruction are its architectural opcode |
| IsaLaws.ShiftEffect | include/basic_instructions.h:147-169 | **Main.** slli, srli and srai move every bit of rs1 by the shift amount, srai repeating bit 31, into rd alone; with `Rvc.BothDecoders` and `ExecBase.Hart.Exec` this is what both decoders do |
| IsaLaws.LogicEffect | include/basic_instructions.h:55-77 | and, or, xor and andi work on each bit by itself |
| IsaLaws.SumEffect | include/basic_instructions.h:39-53 | add, addi and sub are the sum and the difference of the unsigned operands modulo 2^32 |
| IsaLaws.JalEffect | include/basic_instructions.h:484-496 | the link and the target as integers modulo 2^32 |
| IsaLaws.JalrEffect | include/basic_instructions.h:284-301 | the same, with bit 0 of the target cleared |
| IsaLaws.BranchEffect | include/basic_instructions.h:364-398 | the pc moves by the distance exactly when the registers are equal (beq) or differ (bne) |
| IsaLaws.WriteReads | include/basic_instructions.h:39-45 | a register write reaches one register and never x0 |
| BitLaws.SumModulo | include/basic_instructions.h:39-45 | word addition is addition of the unsigned integers modulo 2^32, proved through its carries |
| BitLaws.LessIsSigned | include/extension/a_extension.h:218-257 | comparing words with their top bits flipped compares the signed integers |
| MemoryLaws.LwEffect | include/basic_instructions.h:223-246 | lw loads the RAM word at the sum of register and offset and changes nothing else |
| MemoryLaws.SwEffect | include/basic_instructions.h:339-361 | sw stores rs2 there, leaves every other byte, and drops the reservation of the word |
| MemoryLaws.AccessTraps | include/basic_instructions.h:223-246 | a triggered, misaligned or untranslatable load or store is cause 3, 4 or 6, 13 or 15 with the address as its value (stores at lines 339-361) |
| MemoryLaws.StoreEffect | include/basic_instructions.h:303-361 | sb, sh and sw store the low bytes of rs2 little-endian, or trap with cause 6 |
| LrSc.ScSucceedsIff | include/extension/a_extension.h:36-126 | **Main.** In every run under identity translation of LR, SC, AMO, stores and traps, SC.W stores and returns 0 exactly when an LR.W of its word came after the last store, AMO or successful SC to it and after the last trap; otherwise it returns 1 and changes nothing else |
| LrSc.SuccessfulScSeesLrValue | include/extension/a_extension.h:87-126 | **Main.** On RAM the word a successful SC finds holds the value it held at its LR, which is what the LR loaded |
| LrSc.ReservedIffOutstanding | include/extension/a_extension.h:42-84 | the table holds a word exactly when a reservation of it is outstanding in the history |
| LrSc.RunKeepsOnes | include/extension/a_extension.h:54-84 | every entry is the bare reservation bit |
| LrSc.StepFlags | include/mem.h:34-43 | how each kind of step changes the table |
| LrSc.WordKept | include/mem.h:95-228 | a RAM word changes only by a step that kills its reservation |
| LrSc.LrLoadsWord | include/extension/a_extension.h:87-101 | LR.W loads the RAM word and leaves memory alone |
| AmoLaws.AmoEffect | include/extension/a_extension.h:128-296 | **Main.** On a RAM word every AMO puts the old word into rd and leaves the operand, the sum modulo 2^32, the bitwise and, or or xor, or the one of the two words that is the signed or unsigned maximum or minimum, and touches nothing else but the reservation |
| AmoLaws.ResultMeans | include/extension/a_extension.h:128-296 | the nine operations as integers and bits |
| AmoLaws.StoreAddressIs | include/basic_instructions.h:303-361 | a store address is the sum of register and offset modulo 2^32 |
| AmoLaws.MisfitBits | include/basic_instructions.h:314-361 | a halfword needs bit 0 of its address clear, a word bits 0 and 1 |
| AtomicUnit.RunOnTable | include/extension/a_extension.h:36-296 | **Main.** A whole run executed on the hash table, up to the first misaligned atomic, is a run of the model as long as data accesses are not translated; so the theorems above hold of the table |
| AtomicUnit.Core.Execute | include/extension/a_extension.h:36-296 | each event on the table is the event of the model, and the table goes on standing for the model's reservations |
| AtomicUnit.Core.StoreRegister | include/basic_instructions.h:303-361 | sb, sh and sw, with the misaligned store trap |
| AtomicUnit.Core.EnterTrap | src/extension/system.c:200-253 | any trap empties the table |
| AtomicUnit.Core.Lr | include/extension/a_extension.h:87-101 | the instruction on the hash table itself equals the model's; a misaligned address ends the run |
| AtomicUnit.Core.Sc | include/extension/a_extension.h:103-126 | the same for SC.W |
| AtomicUnit.Core.Amo | include/extension/a_extension.h:128-296 | the same for the nine AMOs |
| AtomicUnit.Core.TranslateOrFault | include/mmu.h:164-213 | a physical address, or the page fault taken with the table emptied |
| AtomicUnit.Core.Read32 | include/mmu.h:260-266 | translated word read |
| AtomicUnit.Core.Write32 | include/mmu.h:300-306 | translated word store, which drops the reservation |
| Reservations.ReservationTable.GetReserveStatus | include/extension/a_extension.h:42-52 | bit 0 of the entry of the aligned word |
| Reservations.ReservationTable.SetReserveStatus | include/extension/a_extension.h:54-65 | sets that bit and keeps the others |
| Reservations.ReservationTable.ClearReserveStatus | include/extension/a_extension.h:67-84 | clears it, and removes an entry left without bits |
| Reservations.ReservationTable.ClearOnStore | include/mem.h:34-43 | drops the word; skipping an empty table changes nothing |
| Reservations.ReservationTable.ClearOnTrap | src/extension/system.c:210-215 | drops everything |
| Mmu.TranslationAgrees | include/mmu.h:86-213 | **Main.** The walk agrees with a declarative Sv32 walk (section 4.3.2 of the Privileged Architecture 20211203, page-fault option for A and D) **if and only if** the two entries do not depart: they pass every test of the code, and the leaf is writable without being readable, or a user page fetched from by the supervisor, or lies below a pointer with U, A or D set |
| Mmu.WriteOnlyGranted | include/mmu.h:114-160 | a state and an address where a leaf that is writable and not readable takes a store that the architecture faults on |
| Mmu.UserFetchGranted | include/mmu.h:114-160 | a state and an address where the supervisor fetches from a user page under SUM |
| Mmu.ReservedPointerGranted | include/mmu.h:183-205 | a state and an address where the walk goes through a pointer with its reserved U, A and D bits set |
| Mmu.LeafAgrees | include/mmu.h:114-160 | the permission check at a leaf against the architecture's, with the same address |
| Mmu.FlagPositions | include/mmu.h:114-160 | V, R, W, X, U, A and D are bits 0 to 4, 6 and 7 of an entry |
| Mmu.CheckBits | include/mmu.h:114-160 | the permission check as one condition, with SUM at bit 18 and MXR at bit 19 of mstatus |
| Mmu.AccessLevel | include/mmu.h:86-96 | the level an access is made at, with MPRV at bit 17 and MPP at bits 12 and 11 |
| Mmu.SatpFields | include/mmu.h:77-110 | translation is on with bit 31 of satp; the low 22 bits are the root page |
| MemoryLaws.PageFaultRecorded | include/mmu.h:206-213 | **Main.** A page fault leaves cause 12, 13 or 15 for fetch, load or store, the address as its value, the pc, and the level medeleg says |
| Mmu.SuperpageEqualsTable | include/mmu.h:186-202 | **Main.** An aligned 4 MiB leaf and a table of 1024 leaves with its flags and consecutive page numbers translate every address alike, faults included |
| MmuAccess.BytesTranslateAlike | include/mmu.h:164-213 | the four bytes of an aligned word fault together or map to the four bytes of one aligned word |
| MmuAccess.WideReadIsGather | include/mmu.h:228-266 | **Main.** An aligned word read is the little-endian gather of four translated byte reads, on RAM and timer |
| MmuAccess.WideStoreIsBytes | include/mmu.h:284-306 | **Main.** An aligned word store is four translated byte stores when the word is not an entry of the walk |
| Bus.Bus.Load32 | include/mem.h:163-193 | range tests and byte loops give the value and the device effects of the specification |
| Bus.Bus.Store32 | include/mem.h:201-228 | the same, with the reservation dropped in the hash table first |
| Bus.Bus.Load8 | include/mem.h:57-80 | byte reads |
| Bus.Bus.Store8 | include/mem.h:95-127 | byte stores, merged into a word for the interrupt controller |
| Bus.Bus.Store16 | include/mem.h:149-161 | halfword stores |
| Bus.Bus.ReadClint | include/mem.h:166-172 | the four-byte loop is the little-endian gather of the timer's bytes |
| Bus.Bus.WriteClint | src/device/clint.c:57-69 | the four-byte loop stores into mtimecmp alone |
| Memory.ClintWindow | include/mem.h:60-64 | the timer window |
| Memory.UartWindow | include/mem.h:66-69 | the serial port's window |
| Memory.PlicWindow | include/mem.h:183-189 | the interrupt controller's window for words |
| Memory.StoreReadsBack | include/mem.h:163-228 | a word stored in main memory is read back, every other byte keeps its value, and the devices are untouched |
| MemoryLaws.HalfReadsBack | include/mem.h:149-161 | a halfword stored in RAM reads back as its low and its high byte, and every other byte keeps its value |
| MemoryLaws.ByteReadsBack | include/mem.h:95-127 | the same for a byte |
| DeviceLaws.CompareWritten | src/device/clint.c:57-69 | **Main.** Two word stores to 0x0200_4000 and 0x0200_4004 make mtimecmp the 64-bit number they spell, which reads back; mtime and RAM stay |
| DeviceLaws.TimeReads | src/device/clint.c:71-92 | mtime reads at 0x0200_BFF8, low half first |
| DeviceLaws.PendingIsReached | src/device/clint.c:50-55 | the timer is pending exactly when mtimecmp is not zero and mtime has reached it, as integers |
| DeviceLaws.LinesShow | src/extension/zicsr_extension.c:132-166 | the lines seen in mip: the timer condition, and whether each context has an eligible source |
| DeviceLaws.ClaimAddresses | src/device/plic.c:88-133 | in the controller window exactly 0x0C20_0004 and 0x0C20_1004 reach the claim registers |
| DeviceLaws.ThresholdAddresses | src/device/plic.c:88-133 | exactly 0x0C20_0000 and 0x0C20_1000 reach the thresholds |
| DeviceLaws.EnableAddresses | src/device/plic.c:88-133 | exactly the words at 0x0C00_2000 and 0x0C00_2080 reach the enables |
| DeviceLaws.PriorityAddresses | src/device/plic.c:88-133 | exactly the word at 0x0C00_0000 + 4 * id reaches the priority of a source |
| DeviceLaws.PendingAddresses | src/device/plic.c:88-133 | exactly the word at 0x0C00_1000 reaches the pending lines |
| DeviceLaws.PortOffset | include/mem.h:66-69 | the eight port registers lie at 0x1000_0000 and on |
| DeviceLaws.EnableByte | include/mem.h:109-123 | a byte written to an enable word replaces that byte alone |
| TrapRuns.SupervisorTrapRestored | src/extension/system.c:93-148 | **Main.** A supervisor-level trap from U or S, any number of machine-level traps each closed by mret, then sret: privilege, pc, SIE and MIE are the original ones (section 3.1.6.1 of the Privileged Architecture 20211203) |
| TrapRuns.DetoursReturn | src/extension/system.c:255-283 | machine-level trap and return pairs never disturb SPP, SPIE, SIE or sepc |
| TrapRuns.MachineStackRoundTrip | src/extension/system.c:255-283 | the machine level of the status stack pops what was pushed |
| TrapRuns.SupervisorStackRoundTrip | src/extension/system.c:285-318 | the supervisor level does, under any machine-level change that keeps the stack |
| TrapRuns.AtMostTwo | src/extension/system.c:320-457 | **Main.** With only supervisor lines delegated, dispatches with no instruction between take at most one interrupt into S and then one into M, whatever the devices do |
| TrapRuns.BurstsBoundedExactly | src/extension/system.c:320-457 | **Main.** That bound holds of a delegation register **if and only if** it holds no machine line |
| TrapRuns.RunsAwayForEver | src/extension/system.c:361-411 | with a machine line delegated, every dispatch takes another interrupt |
| TrapRuns.TakenByDelegation | src/extension/system.c:413-457 | every interrupt taken goes to S exactly when its line is delegated and it came from U or S |
| TrapRuns.TrapsNeverLowerPrivilege | src/extension/system.c:200-253 | no trap entry lowers the privilege |
| TrapRuns.MachineMaskedIsQuiet | src/extension/system.c:361-386 | with MIE clear at machine level no dispatch takes anything |
| TrapLaws.DispatchRecorded | src/extension/system.c:320-544 | **Main.** A dispatch that takes an interrupt takes an enabled line that mip or sip shows pending, and leaves its number with bit 31 set, no value and the interrupted pc in the registers of the level it enters, S exactly if the line is delegated and it came from U or S |
| TrapLaws.ChoiceIsFirst | src/extension/system.c:320-411 | **Main.** The line taken is the first in the order MEI, MSI, MTI, SEI, SSI, STI that may be taken: through the gate of the supervisor, or when that lets nothing pass, through MIE |
| TrapLaws.ExceptionRecorded | src/extension/system.c:200-318 | **Main.** An exception leaves its code with bit 31 clear, its value and its pc in the registers of the level medeleg says, and the other level's as they were |
| TrapLaws.EntersAtVector | src/extension/system.c:255-318 | an exception enters at the base, a vectored interrupt four times its number past it (interrupts at lines 459-544) |
| TrapLaws.MachineEntryBits | src/extension/system.c:255-283 | machine-level entry bit by bit: MPP, MPIE, MIE |
| TrapLaws.SupervisorEntryBits | src/extension/system.c:285-318 | supervisor-level entry bit by bit: SPP, SPIE, SIE |
| TrapLaws.MachineReturnBits | src/extension/system.c:93-114 | mret bit by bit |
| TrapLaws.SupervisorReturnBits | src/extension/system.c:116-148 | sret bit by bit |
| TrapLaws.Returns | src/extension/system.c:93-148 | the privilege and pc after mret and sret; a trapped sret is cause 2 with the instruction word |
| TrapLaws.StatusWrites | src/extension/system.c:48-91 | which bits of mstatus can be written, sstatus shows and sie shows, by position |
| Trap.Unit.RaiseException | src/extension/system.c:200-253 | delegation, reservation drop and entry are the specified trap |
| Trap.Unit.RaiseInterrupt | src/extension/system.c:413-457 | the same for interrupts |
| Trap.Unit.MachineEntry | src/extension/system.c:255-283 | mstatus stack, mcause, mtval, mepc, vector (interrupts at lines 459-500) |
| Trap.Unit.SupervisorEntry | src/extension/system.c:285-318 | the supervisor stack, changed through the sstatus view (interrupts at lines 502-544) |
| Trap.StatusOnEntry | src/extension/system.c:285-318 | the change made through the view is the change of the whole word |
| Trap.StatusOnReturn | src/extension/system.c:116-148 | the same for sret |
| Trap.Unit.ReturnFromMachine | src/extension/system.c:93-114 | mret |
| Trap.Unit.ReturnFromSupervisor | src/extension/system.c:116-148 | sret, illegal under TSR |
| Trap.Unit.CheckAndHandleInterrupts | src/extension/system.c:320-411 | the chain of tests takes the chosen interrupt, or none |
| Csr.ReadsLastWritten | src/extension/zicsr_extension.c:132-301 | **Main.** After every history of writes through mstatus, sstatus, mie, sie, mip and sip, each bit read from each of the six is known from the history: clear if the register does not expose it, the device line if it is MTIP, MEIP or SEIP, and otherwise the bit last written through either of the two registers that share it, with the timer shown besides as STIP in sip |
| CsrTable.Run | src/extension/zicsr_extension.c:497-586 | **Main.** Any run of csrrw, csrrs and csrrc on the table, from any values in its six slots and with the devices changing meanwhile, answers every bit as that history shows, so the slots of sstatus, sie and sip never reach a read; and the next access to the same register answers, on every bit no device drives, the operand after csrrw, old or operand after csrrs, old and not operand after csrrc |
| CsrTable.PerformedByHistory | src/extension/zicsr_extension.c:497-586 | accesses that write values computed from what they read amount to a history of writes |
| CsrTable.Table.CsrRead | include/extension/zicsr_extension.h:133-138 | the read callback of each register gives the specified view of the three backing slots |
| CsrTable.Table.CsrWrite | include/extension/zicsr_extension.h:140-156 | the write callback of each register updates its backing slot as specified and leaves the slots of the views alone |
| CsrTable.Table.Execute | src/extension/zicsr_extension.c:497-586 | the old value is returned, and csrrs and csrrc of nothing do not write |
| CsrRuns.LiveBitsInert | src/extension/zicsr_extension.c:132-301 | **Main.** Two runs of the same CSR instructions, interrupt dispatches, traps, returns, computations and device changes, from machines that differ only in the MTIP, MEIP and SEIP bits stored in mip, read the same value at every CSR instruction, choose the same interrupt at every point, and still differ only there |
| CsrRuns.StepAlike | src/extension/zicsr_extension.c:497-586 | one event keeps the difference confined to those bits, though set_sip stores live bits and a refused access goes on after its trap |
| CsrRuns.RefusedExactly | include/extension/zicsr_extension.h:158-180 | an access is refused with cause 2 from U, and below machine level for mstatus, mie and mip |
| CsrRuns.AnswerReturned | src/extension/zicsr_extension.c:497-508 | rd receives the value read, bit for bit, and no other register changes |
| CsrRuns.OperandIs | src/extension/zicsr_extension.c:510-586 | the operand is rs1 or the five-bit immediate |
| Csr.SupervisorWritesConfined | src/extension/zicsr_extension.c:264-301 | **Main.** Writes permitted below machine level leave every machine-only bit of mstatus and mie as it was, and of mip every machine-only bit read, whatever the devices show; the stored MTIP and MEIP bits, which no read shows, may change |
| Csr.StatusStaysWritable | src/extension/system.c:48-57 | reserved bits of mstatus stay zero |
| Csr.WriteThenRead | src/extension/system.c:59-91 | what is written to sstatus, mstatus or sie is read back under the mask |
| Csr.SipIsMaskOfMip | src/extension/zicsr_extension.c:280-293 | sip is the masked mip **if and only if** the timer is quiet or STIP is stored |
| Csr.TimerLatchesStip | src/extension/zicsr_extension.c:295-301 | a read-modify-write of sip while the timer is pending stores STIP, and it stays |
| Csr.AssembleSstatus | src/extension/system.c:59-70 | the view field by field |
| Csr.UpdateSstatus | src/extension/system.c:72-91 | the update field by field |
| Plic.ClaimsInOrder | src/device/plic.c:65-133 | **Main.** Any number of claims in a context hands out each eligible source exactly once, in descending order of priority then id, and then zeros |
| Plic.FinishedBetweenClaims | src/device/plic.c:88-186 | **Main.** In every run of accesses and line changes, between two reads of a context's claim register that return the same source, a word naming the source was written there |
| Plic.ServiceIff | src/device/plic.c:88-186 | **Main.** In every run from reset a source is in service in a context exactly when a read of 0x20_0004 (machine) or 0x20_1004 (supervisor) returned it and no word with its number in the low five bits was written there since |
| Plic.CompletionClears | src/device/plic.c:153-171 | writing a source's number to a claim register takes that source out of service in that context and changes nothing else |
| Plic.EligibleAfterCompletion | src/device/plic.c:65-86 | a completed source can be claimed again exactly when its line, enable and priority allow it |
| Plic.HandshakesInvisible | src/device/plic.c:88-186 | **Main.** Deleting every claim and completion of one context from any run of accesses and line changes changes no answer of any other read, the other context's claims included |
| Plic.ContextsIndependent | src/device/plic.c:88-173 | a claim or completion in one context changes nothing that the other can claim |
| Plic.InServiceUntil | src/device/plic.c:135-173 | a claimed source stays in service until completed in its context |
| Plic.BestIsUnique | src/device/plic.c:65-86 | there is one best source |
| Plic.ClaimShrinks | src/device/plic.c:115-129 | a claim removes exactly the source it returns from the eligible ones |
| Plic.Controller.BestSource | src/device/plic.c:65-86 | the loop returns the best eligible source, 0 exactly if there is none |
| Plic.Controller.Read32 | src/device/plic.c:88-133 | register reads and claims |
| Plic.Controller.Write32 | src/device/plic.c:135-173 | register writes and completions |
| Uart.RunAgrees | src/device/uart.c:100-233 | **Main.** In every reachable state controller line 10 and irq_level agree with (receive queue nonempty and ERBI) or (transmitter idle and ETBEI); the queue holds at most 256 bytes, and a busy transmitter has 1 to 64 ticks left |
| Uart.IdentifyShowsLine | src/device/uart.c:183-186 | the identification register shows an interrupt exactly when the line is up |
| Uart.LineStatusBits | src/device/uart.c:191-193 | the data bit exactly with a nonempty queue, 0x60 exactly with an idle transmitter, and no other bit |
| Uart.QueueInOrder | src/device/uart.c:147-180 | **Main.** Over every run the accepted bytes are those handed out, in order, followed by those still queued |
| Uart.IdleAfterTicks | src/device/uart.c:125-136 | **Main.** A busy transmitter that is not loaded again becomes idle after exactly the ticks it had left |
| Uart.RingPush | src/device/uart.c:147-155 | storing at (head + count) mod 256 appends to the queue |
| Uart.RingPop | src/device/uart.c:170-180 | advancing the head removes its first byte |
| Uart.Port.constructor | src/device/uart.c:138-145 | the reset state agrees |
| Uart.Port.UpdateIrq | src/device/uart.c:100-120 | the line follows the condition; the controller is told of changes only |
| Uart.Port.TickOnce | src/device/uart.c:125-136 | one tick of the transmitter |
| Uart.Port.ReceiveByte | src/device/uart.c:147-155 | a byte is queued, or dropped when the queue is full |
| Uart.Port.ReadRegister | src/device/uart.c:159-199 | register reads; the receiver register takes a byte off the queue |
| Uart.Port.WriteRegister | src/device/uart.c:201-233 | register writes; the transmitter register starts 64 ticks |
| MulDiv.TableHalves | src/exec.c:59-86 | **Main.** For all operands entries 1, 2 and 3 of the table with entry 0 are the two words of the exact signed, mixed and unsigned product |
| MulDiv.TableDivides | src/exec.c:59-86 | **Main.** For all operands dividend = divisor * quotient + remainder modulo 2^32; without overflow the results are the only truncating quotient and remainder |
| MulDiv.SignedHalves | src/extension/m_extension.c:31-46 | mul and mulh |
| MulDiv.MixedHalves | src/extension/m_extension.c:48-55 | mul and mulhsu, whose 64-bit unsigned product wraps back to the exact one |
| MulDiv.UnsignedHalves | src/extension/m_extension.c:57-64 | mul and mulhu |
| MulDiv.DivTruncates | src/extension/m_extension.c:66-84 | div and rem are truncating exactly for a nonzero divisor without overflow; sign and magnitude of the remainder hold for every nonzero divisor |
| MulDiv.DivuTruncates | src/extension/m_extension.c:86-100 | divu and remu, exactly for a nonzero divisor |
| MulDiv.DividesModulo | src/extension/m_extension.c:102-120 | the congruence for signed words, zero divisor and INT32_MIN / -1 included |
| MulDiv.DividesModuloUnsigned | src/extension/m_extension.c:122-135 | the congruence for unsigned words |
| MulDiv.TruncatesUnique | src/extension/m_extension.c:66-84 | there is one truncating quotient and remainder |
| MulDiv.Registers.Execute | src/extension/m_extension.c:31-136 | only rd changes, to the table entry's result, and never x0 |
| Spin.Watch | src/emu.c:772-804 | **Main.** The run ends with the first turn whose fetches since the last trap end in 64 recent ones, and with no other |
| Spin.SpinEnds | src/emu.c:772-804 | **Main.** A loop of p at most 8 fetches entered at any time after a trap ends the run within p + 64 turns |
| Spin.ProgressNeverStops | src/emu.c:772-804 | **Main.** Nonzero addresses that never repeat within eight fetches never end the run, whatever traps occur |
| Spin.StreakMeans | src/emu.c:782-791 | a count of at least k is k recent fetches in a row |
| Spin.RingIsRecent | src/emu.c:782-790 | the ring holds exactly the last eight fetches, and zero before there are eight |
| Spin.Detector.Step | src/emu.c:772-804 | one turn keeps the ring and the count those of the history, and stops exactly when the history says so |
| Spin.Detector.Reset | src/emu.c:774-778 | arming clears the ring |
| Spin.Detector.Seen | src/emu.c:782-784 | the scan finds exactly the recent addresses |
| Spin.Detector.constructor | src/emu.c:569-574 | starts unarmed over a cleared ring |

## Left out

- HashMapU32.HashMap.Rehash: allocation always succeeds; the floating-point load test is modelled as 4 * (size + tombstones) >= 3 * capacity, which rounding could only make earlier.
- FdtBuilder.Build: the reader's recovery is claimed only while the structure fits its 4096-byte window, since beyond it the two regions overlap, and a blob whose structure reaches into the strings without passing their end may or may not read back; the builder is given a buffer large enough for every call sequence, where the source would write past its 16 KiB; names are free of zero bytes, as C strings are; null names and the four-cell wrapper fdt_prop_word, fdt_mark_enabled and fdt_prop_interrupt_parent add only special cases of the calls modelled.
- The machine description fdt_build_riscvemu (src/device/fdt.c:545-697): one concrete call sequence.
- Rvc.Core.ExecCompressed: the code runs on reserved encodings and hints too, but nothing is claimed of them; the floating-point loads and stores of quadrant 0 are outside its precondition.
- ExecBase.Hart.Exec: only the instructions that compressed ones expand to; the other base instructions, fence, ecall and the CSR instructions are further cases of the same shape. misa.C is taken as set.
- LrSc.ScSucceedsIff: identity translation only, since reservations are made by virtual and dropped by physical address; 64-bit stores are not part of the runs, since they drop only their first word; a misaligned atomic ends the process.
- Mmu.TranslationAgrees: physical pages below 2^20, which is all the emulator can hold, and effective privilege U or S.
- MmuAccess.WideReadIsGather: RAM and timer only; reads of the serial port and of claim registers have side effects. A page-table read inside those windows is modelled without its side effect.
- Sign-extending and 16-bit reads, and 64-bit accesses of include/mem.h: easy variants of those modelled.
- Precise exceptions: a faulting load still writes rd and an AMO still attempts its store, as in the code; no more is claimed.
- Uart.Port.ReceiveByte: host input (epoll, terminal, signals) is an arbitrary sequence of these calls, and output to the host is dropped.
- Spin.Watch: the registers a0 and a7 that the detector sets when it stops, and the mode in which it is off.
- Instruction counters, Sdtrig, Zicond, Zifencei, the plain CSRs, floating point, debugger, disassembler, logger, option parsing and image loading.
