/**
  The state of the emulated machine: `struct machine_state` of include/emu.h,
  the control registers of src/extension/zicsr_extension.c that traps and
  translation consult, and the devices.
 */
module Machine {
  import opened Words
  import Uart

  /** PRV_USER to PRV_MACHINE; the two bits of mstatus.MPP can hold each of them. */
  datatype Privilege = User | Supervisor | Hypervisor | Machine {
    function Rank(): nat { match this case User => 0 case Supervisor => 1 case Hypervisor => 2 case Machine => 3 }
  }

  /** The stored values of the control registers; those consulted bit by bit are `Bits`. */
  datatype Csrs = Csrs(
    mstatus: Bits, medeleg: Bits, mideleg: Bits, mie: Bits, mip: Bits,
    mtvec: bv32, mepc: bv32, mcause: bv32, mtval: bv32,
    stvec: bv32, sepc: bv32, scause: bv32, stval: bv32, satp: bv32)

  datatype Clint = Clint(mtime: bv64, mtimecmp: bv64)

  /**
    `ram` holds the bytes written so far; every other byte reads as zero, as
    `calloc` leaves it. `flags` is the reservation table as the map it stands
    for (module `HashMapU32` proves that it stands for one).
   */
  datatype State = State(
    gpr: seq<bv32>, pc: bv32, priv: Privilege, csr: Csrs,
    ram: map<Word, bv8>, flags: map<Word, bv32>,
    clint: Clint, devices: Uart.Devices, justTrapped: bool)
  {
    predicate Valid() { |gpr| == 32 && devices.plic.Valid() }
  }

  function RegRead(s: State, id: bv5): bv32
    requires |s.gpr| == 32
  {
    if id == 0 then 0 else s.gpr[id as int]
  }

  function RegWrite(s: State, id: bv5, d: bv32): (t: State)
    requires |s.gpr| == 32
    ensures |t.gpr| == 32
  {
    if id == 0 then s else s.(gpr := s.gpr[id as int := d])
  }
}
