/**
  The 16550 serial port of src/device/uart.c (lines 72-233): a 256-byte receive
  ring, a transmitter that is busy for 64 instructions per byte, and the level
  it drives on line 10 of the interrupt controller. Host input arrives as
  arbitrary `Receive` calls; the byte sent to the host is not modelled.
 */
module Uart {
  import Plic

  const RX_FIFO_SIZE: nat := 256
  const TX_SHIFT_TICKS: nat := 64
  const UART_IRQ: Plic.Id := 10

  const IER_ERBI: bv8 := 1
  const IER_ETBEI: bv8 := 2
  const LSR_DR: bv8 := 0x01
  const LSR_THRE: bv8 := 0x20
  const LSR_TEMT: bv8 := 0x40
  const IIR_NOPEND: bv8 := 1
  const IIR_THRE: bv8 := 2
  const IIR_RXDATA: bv8 := 4
  const LCR_DLAB: bv8 := 0x80

  /** The port with its receive ring read as a queue. */
  datatype State = State(rx: seq<bv8>, ier: bv8, lcr: bv8, mcr: bv8, scr: bv8,
                         irqLevel: bool, thrBusy: bool, thrTicks: nat) {
    predicate Dlab() { lcr & 0x80 != 0 }
  }

  const RESET := State([], 0, 0x03, 0, 0, false, false, 0)

  /** The port and the controller it is wired to. */
  datatype Devices = Devices(uart: State, plic: Plic.State)

  /** What the interrupt line should show. */
  predicate Wants(u: State) {
    (|u.rx| > 0 && u.ier & 1 != 0) || (!u.thrBusy && u.ier & 2 != 0)
  }

  /** uart_update_irq: the controller hears only of changes. */
  function Updated(u: State, p: Plic.State): (d: Devices)
    requires p.Valid()
    ensures d.plic.Valid()
    ensures d.uart == u.(irqLevel := Wants(u))
    ensures p.pending[UART_IRQ] == u.irqLevel ==> d.plic.pending[UART_IRQ] == Wants(u)
  {
    if Wants(u) != u.irqLevel
    then Devices(u.(irqLevel := Wants(u)), Plic.SetLine(p, UART_IRQ, Wants(u)))
    else Devices(u, p)
  }

  function Ticked(d: Devices): (e: Devices)
    requires d.plic.Valid() && (d.uart.thrBusy ==> d.uart.thrTicks > 0)
    ensures e.plic.Valid()
  {
    if !d.uart.thrBusy then d
    else
      var u := d.uart.(thrTicks := d.uart.thrTicks - 1);
      if u.thrTicks == 0 then Updated(u.(thrBusy := false), d.plic) else d.(uart := u)
  }

  function Received(d: Devices, c: bv8): (e: Devices)
    requires d.plic.Valid()
    ensures e.plic.Valid()
  {
    if |d.uart.rx| >= 256 then d else Updated(d.uart.(rx := d.uart.rx + [c]), d.plic)
  }

  /** The interrupt identification register. */
  function Identify(u: State): bv8 {
    if |u.rx| > 0 && u.ier & 1 != 0 then 4
    else if !u.thrBusy && u.ier & 2 != 0 then 2
    else 1
  }

  function LineStatus(u: State): bv8 {
    (if u.thrBusy then 0 else 0x60) | (if |u.rx| > 0 then 1 else 0)
  }

  function Accessed(d: Devices, off: nat): (r: (Devices, bv8))
    requires d.plic.Valid()
    ensures r.0.plic.Valid()
  {
    var u := d.uart;
    match off % 8
    case 0 =>
      if u.Dlab() || u.rx == [] then (d, 0)
      else (Updated(u.(rx := u.rx[1..]), d.plic), u.rx[0])
    case 1 => (d, if u.Dlab() then 0 else u.ier)
    case 2 => (d, Identify(u))
    case 3 => (d, u.lcr)
    case 4 => (d, u.mcr)
    case 5 => (d, LineStatus(u))
    case 6 => (d, 0)
    case _ => (d, u.scr)
  }

  function Written(d: Devices, off: nat, val: bv8): (e: Devices)
    requires d.plic.Valid()
    ensures e.plic.Valid() && e.uart.rx == d.uart.rx
  {
    var u := d.uart;
    match off % 8
    case 0 =>
      if u.Dlab() then d
      else Updated(u.(thrBusy := true, thrTicks := 64), d.plic)
    case 1 => Updated(u.(ier := val & 0x0F), d.plic)
    case 2 => Updated(u, d.plic)
    case 3 => d.(uart := u.(lcr := val))
    case 4 => d.(uart := u.(mcr := val))
    case _ => d.(uart := u.(scr := val))
  }

  // ---------------------------------------------------------------------
  // What every reachable state keeps
  // ---------------------------------------------------------------------

  /** Line 10, the latched level and the identification register all show the same thing. */
  ghost predicate Agree(d: Devices) {
    && d.plic.Valid()
    && d.plic.pending[10] == d.uart.irqLevel == Wants(d.uart)
    && |d.uart.rx| <= 256
    && (d.uart.thrBusy ==> 1 <= d.uart.thrTicks <= 64)
  }

  lemma IdentifyShowsLine(d: Devices)
    requires Agree(d)
    ensures Identify(d.uart) != 1 <==> d.plic.pending[10]
  {}

  /** Line status: the data bit exactly with a nonempty queue, 0x60 exactly with an idle transmitter, nothing else. */
  lemma LineStatusBits(u: State)
    ensures LineStatus(u) & 0x01 != 0 <==> |u.rx| > 0
    ensures LineStatus(u) & 0x60 == if u.thrBusy then 0 else 0x60
    ensures LineStatus(u) & 0x9E == 0
  {}

  /** Everything that can happen to the two devices; line 10 belongs to the port. */
  datatype Op =
    | Tick
    | Receive(c: bv8)
    | Read(off: nat)
    | Write(off: nat, val: bv8)
    | Bus(access: Plic.Op)

  predicate Permitted(op: Op) { op.Bus? && op.access.Line? ==> op.access.id != UART_IRQ }

  function Step(d: Devices, op: Op): (e: Devices)
    requires Agree(d)
    ensures e.plic.Valid()
  {
    match op
    case Tick => Ticked(d)
    case Receive(c) => Received(d, c)
    case Read(off) => Accessed(d, off).0
    case Write(off, val) => Written(d, off, val)
    case Bus(pop) => d.(plic := Plic.Step(d.plic, pop))
  }

  lemma ControllerKeepsLine(p: Plic.State, op: Plic.Op)
    requires p.Valid() && (op.Line? ==> op.id != UART_IRQ)
    ensures Plic.Step(p, op).pending[UART_IRQ] == p.pending[UART_IRQ]
  {}

  lemma UpdatedAgrees(u: State, p: Plic.State)
    requires p.Valid() && p.pending[UART_IRQ] == u.irqLevel && |u.rx| <= 256
    requires u.thrBusy ==> 1 <= u.thrTicks <= 64
    ensures Agree(Updated(u, p))
  {}

  lemma WriteKeepsAgree(d: Devices, off: nat, val: bv8)
    requires Agree(d)
    ensures Agree(Written(d, off, val))
  {
    hide Updated;
    if off % 8 == 0 {
      UpdatedAgrees(d.uart.(thrBusy := true, thrTicks := 64), d.plic);
    } else if off % 8 == 1 {
      UpdatedAgrees(d.uart.(ier := val & 0x0F), d.plic);
    } else if off % 8 == 2 {
      UpdatedAgrees(d.uart, d.plic);
    }
  }

  lemma ReadKeepsAgree(d: Devices, off: nat)
    requires Agree(d)
    ensures Agree(Accessed(d, off).0)
  {
    hide Updated, Identify, LineStatus;
    if off % 8 == 0 && |d.uart.rx| > 0 {
      UpdatedAgrees(d.uart.(rx := d.uart.rx[1..]), d.plic);
    }
  }

  /** What every operation keeps. */
  lemma StepKeepsAgree(d: Devices, op: Op)
    requires Agree(d) && Permitted(op)
    ensures Agree(Step(d, op))
  {
    hide Updated, Plic.Step, Written, Accessed;
    if op.Write? { WriteKeepsAgree(d, op.off, op.val); }
    if op.Read? { ReadKeepsAgree(d, op.off); }
    if op.Receive? && |d.uart.rx| < 256 {
      UpdatedAgrees(d.uart.(rx := d.uart.rx + [op.c]), d.plic);
    }
    if op.Tick? && d.uart.thrTicks == 1 {
      UpdatedAgrees(d.uart.(thrTicks := 0, thrBusy := false), d.plic);
    }
    if op.Bus? { ControllerKeepsLine(d.plic, op.access); }
  }

  /** The devices after each operation of a run from reset. */
  ghost predicate IsRun(ds: seq<Devices>, ops: seq<Op>) {
    && |ds| == |ops| + 1
    && ds[0] == Devices(RESET, Plic.RESET)
    && (forall i :: 0 <= i < |ops| ==> Permitted(ops[i]))
    && forall i :: 0 <= i < |ops| ==> Agree(ds[i]) ==> ds[i + 1] == Step(ds[i], ops[i])
  }

  lemma {:induction false} RunAgrees(ds: seq<Devices>, ops: seq<Op>, i: nat)
    requires IsRun(ds, ops) && i <= |ops|
    ensures Agree(ds[i])
  {
    if i > 0 {
      RunAgrees(ds, ops, i - 1);
      StepKeepsAgree(ds[i - 1], ops[i - 1]);
    }
  }

  // ---------------------------------------------------------------------
  // The queue delivers accepted bytes in order
  // ---------------------------------------------------------------------

  /** The byte an operation puts into the queue. */
  function TakenIn(d: Devices, op: Op): seq<bv8> {
    if op.Receive? && |d.uart.rx| < 256 then [op.c] else []
  }

  /** The byte an operation hands to the guest. */
  function HandedOut(d: Devices, op: Op): seq<bv8>
    requires d.plic.Valid()
  {
    if op.Read? && op.off % 8 == 0 && !d.uart.Dlab() && d.uart.rx != [] then [Accessed(d, op.off).1] else []
  }

  ghost function AllTaken(ds: seq<Devices>, ops: seq<Op>, n: nat): seq<bv8>
    requires IsRun(ds, ops) && n <= |ops|
  {
    if n == 0 then [] else AllTaken(ds, ops, n - 1) + TakenIn(ds[n - 1], ops[n - 1])
  }

  ghost function AllHandedOut(ds: seq<Devices>, ops: seq<Op>, n: nat): seq<bv8>
    requires IsRun(ds, ops) && n <= |ops|
  {
    if n == 0 then []
    else
      RunAgrees(ds, ops, n - 1);
      AllHandedOut(ds, ops, n - 1) + HandedOut(ds[n - 1], ops[n - 1])
  }

  lemma ReadMovesQueue(d: Devices, off: nat)
    requires Agree(d)
    ensures d.uart.rx == HandedOut(d, Read(off)) + Accessed(d, off).0.uart.rx
  {
    hide Updated, Wants, Identify, LineStatus;
  }

  lemma StepMovesQueue(d: Devices, op: Op)
    requires Agree(d)
    ensures d.uart.rx + TakenIn(d, op) == HandedOut(d, op) + Step(d, op).uart.rx
  {
    if op.Read? { ReadMovesQueue(d, op.off); }
    hide Updated, Written, Accessed, Plic.Step, Wants;
  }

  /** In every run the bytes accepted are the bytes delivered followed by those still queued. */
  lemma {:induction false} QueueInOrder(ds: seq<Devices>, ops: seq<Op>, n: nat)
    requires IsRun(ds, ops) && n <= |ops|
    ensures AllTaken(ds, ops, n) == AllHandedOut(ds, ops, n) + ds[n].uart.rx
  {
    hide Step, TakenIn, HandedOut;
    if n > 0 {
      QueueInOrder(ds, ops, n - 1);
      RunAgrees(ds, ops, n - 1);
      StepMovesQueue(ds[n - 1], ops[n - 1]);
      var before, d, op := AllHandedOut(ds, ops, n - 1), ds[n - 1], ops[n - 1];
      assert before + d.uart.rx + TakenIn(d, op) == before + (d.uart.rx + TakenIn(d, op));
      assert before + (HandedOut(d, op) + ds[n].uart.rx) == before + HandedOut(d, op) + ds[n].uart.rx;
    }
  }

  // ---------------------------------------------------------------------
  // Transmitter pacing
  // ---------------------------------------------------------------------

  predicate LoadsTransmitter(d: Devices, op: Op) {
    op.Write? && op.off % 8 == 0 && !d.uart.Dlab()
  }

  function CountTicks(ops: seq<Op>): nat {
    if ops == [] then 0 else CountTicks(ops[..|ops| - 1]) + if ops[|ops| - 1].Tick? then 1 else 0
  }

  /**
    Without a new byte, a transmitter with k ticks left is busy through k - 1
    more ticks and idle from the k-th on, whatever else happens meanwhile.
   */
  lemma {:induction false} IdleAfterTicks(ds: seq<Devices>, ops: seq<Op>, i: nat, j: nat)
    requires IsRun(ds, ops) && i <= j <= |ops|
    requires ds[i].uart.thrBusy
    requires forall k :: i <= k < j ==> !LoadsTransmitter(ds[k], ops[k])
    ensures var t, left := CountTicks(ops[i..j]), ds[i].uart.thrTicks;
      if t < left then ds[j].uart.thrBusy && ds[j].uart.thrTicks == left - t
      else !ds[j].uart.thrBusy
  {
    hide Step, LoadsTransmitter, IsRun;
    RunAgrees(ds, ops, i);
    if i < j {
      RunSteps(ds, ops, j - 1);
      IdleAfterTicks(ds, ops, i, j - 1);
      RunAgrees(ds, ops, j - 1);
      assert ops[i..j][..j - i - 1] == ops[i..j - 1];
      StepOnTransmitter(ds[j - 1], ops[j - 1]);
    }
  }

  lemma RunSteps(ds: seq<Devices>, ops: seq<Op>, n: nat)
    requires IsRun(ds, ops) && n < |ops|
    ensures |ds| == |ops| + 1 && Agree(ds[n]) && ds[n + 1] == Step(ds[n], ops[n])
  {
    RunAgrees(ds, ops, n);
  }

  lemma StepOnTransmitter(d: Devices, op: Op)
    requires Agree(d) && !LoadsTransmitter(d, op)
    ensures var u, v := d.uart, Step(d, op).uart;
      if !u.thrBusy then !v.thrBusy
      else if op.Tick? then v.thrTicks == u.thrTicks - 1 && v.thrBusy == (u.thrTicks > 1)
      else v.thrBusy && v.thrTicks == u.thrTicks
  {
    hide Updated, Plic.Step, Wants, Identify, LineStatus;
  }

  // ---------------------------------------------------------------------
  // The port itself
  // ---------------------------------------------------------------------

  /** The slot `i` places after `head`. */
  function Slot(head: nat, i: nat): (p: nat)
    requires head < RX_FIFO_SIZE && i <= RX_FIFO_SIZE
    ensures p == (head + i) % RX_FIFO_SIZE < RX_FIFO_SIZE
  {
    if head + i < RX_FIFO_SIZE then head + i else head + i - RX_FIFO_SIZE
  }

  /** The `count` bytes of the ring from `head` on. */
  function Ring(rx: seq<bv8>, head: nat, count: nat): (q: seq<bv8>)
    requires |rx| == RX_FIFO_SIZE && head < RX_FIFO_SIZE && count <= RX_FIFO_SIZE
    ensures |q| == count
  {
    seq(count, i requires 0 <= i < count => rx[Slot(head, i)])
  }

  lemma RingPush(rx: seq<bv8>, head: nat, count: nat, c: bv8)
    requires |rx| == RX_FIFO_SIZE && head < RX_FIFO_SIZE && count < RX_FIFO_SIZE
    ensures Ring(rx[(head + count) % RX_FIFO_SIZE := c], head, count + 1) == Ring(rx, head, count) + [c]
  {
    var p := Slot(head, count);
    assert forall i :: 0 <= i < count ==> Slot(head, i) != p;
  }

  lemma RingPop(rx: seq<bv8>, head: nat, count: nat)
    requires |rx| == RX_FIFO_SIZE && head < RX_FIFO_SIZE && 0 < count <= RX_FIFO_SIZE
    ensures Ring(rx, head, count)[0] == rx[head]
    ensures Ring(rx, (head + 1) % RX_FIFO_SIZE, count - 1) == Ring(rx, head, count)[1..]
  {
    var next := (head + 1) % RX_FIFO_SIZE;
    assert forall i :: 0 <= i < count - 1 ==> Slot(next, i) == Slot(head, i + 1);
  }

  class Port {
    const plic: Plic.Controller
    const rx: array<bv8>
    var rxHead: nat
    var rxCount: nat
    var ier: bv8
    var lcr: bv8
    var mcr: bv8
    var scr: bv8
    var irqLevel: bool
    var thrBusy: bool
    var thrTicks: nat

    ghost predicate Wired()
      reads this, rx, plic
    {
      && rx.Length == RX_FIFO_SIZE && rxHead < RX_FIFO_SIZE && rxCount <= RX_FIFO_SIZE
      && plic.st.Valid()
    }

    ghost function View(): Devices
      requires Wired()
      reads this, rx, plic
    {
      Devices(State(Ring(rx[..], rxHead, rxCount), ier, lcr, mcr, scr, irqLevel, thrBusy, thrTicks), plic.st)
    }

    /** uart_init, after plic_init */
    constructor (controller: Plic.Controller)
      requires controller.st == Plic.RESET
      ensures plic == controller && fresh(rx) && Wired()
      ensures View() == Devices(RESET, Plic.RESET) && Agree(View())
    {
      plic := controller;
      rx := new bv8[RX_FIFO_SIZE](_ => 0);
      rxHead, rxCount := 0, 0;
      ier, lcr, mcr, scr := 0, 0x03, 0, 0;
      irqLevel, thrBusy, thrTicks := false, false, 0;
      new;
    }

    /** uart_update_irq */
    method UpdateIrq()
      requires Wired()
      modifies this`irqLevel, plic
      ensures Wired()
      ensures View() == Updated(old(View()).uart, old(plic.st))
    {
      hide Ring, Plic.SetLine;
      var rxPend := rxCount > 0 && ier & IER_ERBI != 0;
      var txPend := !thrBusy && ier & IER_ETBEI != 0;
      var want := rxPend || txPend;
      if want != irqLevel {
        irqLevel := want;
        plic.st := Plic.SetLine(plic.st, UART_IRQ, want);
      }
    }

    /** uart_tick */
    method TickOnce()
      requires Wired() && Agree(View())
      modifies this`thrBusy, this`thrTicks, this`irqLevel, plic
      ensures Wired() && View() == Ticked(old(View())) && Agree(View())
    {
      hide Ring, Updated, Wants;
      ghost var d := View();
      StepKeepsAgree(d, Tick);
      if thrBusy {
        thrTicks := thrTicks - 1;
        if thrTicks == 0 {
          thrBusy := false;
          UpdateIrq();
        }
      }
    }

    /** uart_receive */
    method ReceiveByte(c: bv8)
      requires Wired() && Agree(View())
      modifies this`rxCount, this`irqLevel, rx, plic
      ensures Wired() && View() == Received(old(View()), c) && Agree(View())
    {
      hide Ring, Updated, Wants, Agree;
      ghost var d := View();
      StepKeepsAgree(d, Receive(c));
      if rxCount >= RX_FIFO_SIZE { return; }
      var pos := (rxHead + rxCount) % RX_FIFO_SIZE;
      RingPush(rx[..], rxHead, rxCount, c);
      ghost var ring := rx[..];
      rx[pos] := c;
      assert rx[..] == ring[pos := c];
      rxCount := rxCount + 1;
      UpdateIrq();
    }

    /** uart_read_impl */
    method ReadRegister(off: nat) returns (val: bv8)
      requires Wired() && Agree(View())
      modifies this`rxHead, this`rxCount, this`irqLevel, plic
      ensures Wired() && (View(), val) == Accessed(old(View()), off) && Agree(View())
    {
      hide Ring, Updated, Wants, Agree;
      ghost var d := View();
      StepKeepsAgree(d, Read(off));
      match off % 8 {
        case 0 =>
          if lcr & LCR_DLAB != 0 { return 0; }
          if rxCount > 0 {
            RingPop(rx[..], rxHead, rxCount);
            val := rx[rxHead];
            rxHead := (rxHead + 1) % RX_FIFO_SIZE;
            rxCount := rxCount - 1;
            UpdateIrq();
            return;
          }
          return 0;
        case 1 => return if lcr & LCR_DLAB != 0 then 0 else ier;
        case 2 =>
          if rxCount > 0 && ier & IER_ERBI != 0 { return IIR_RXDATA; }
          if !thrBusy && ier & IER_ETBEI != 0 { return IIR_THRE; }
          return IIR_NOPEND;
        case 3 => return lcr;
        case 4 => return mcr;
        case 5 => return (if thrBusy then 0 else LSR_THRE | LSR_TEMT) | (if rxCount > 0 then LSR_DR else 0);
        case 6 => return 0;
        case _ => return scr;
      }
    }

    /** uart_write */
    method WriteRegister(off: nat, val: bv8)
      requires Wired() && Agree(View())
      modifies this`thrBusy, this`thrTicks, this`irqLevel, this`ier, this`lcr, this`mcr, this`scr, plic
      ensures Wired() && View() == Written(old(View()), off, val) && Agree(View())
    {
      hide Ring, Updated, Wants, Agree;
      ghost var d := View();
      StepKeepsAgree(d, Write(off, val));
      match off % 8 {
        case 0 =>
          if lcr & LCR_DLAB == 0 {
            thrBusy, thrTicks := true, TX_SHIFT_TICKS;
            UpdateIrq();
          }
        case 1 =>
          ier := val & 0x0F;
          UpdateIrq();
        case 2 => UpdateIrq();
        case 3 => lcr := val;
        case 4 => mcr := val;
        case _ => scr := val;
      }
    }
  }
}
