/**
  The register table of src/extension/zicsr_extension.c: value slots behind read
  and write callbacks, and the instructions csrrw, csrrs and csrrc on the six
  status and interrupt registers.
 */
module CsrTable {
  import opened Words
  import opened Machine
  import opened Csr

  datatype Op = Rw | Rs | Rc

  /**
    One instruction: `operand` is the value of rs1 or the immediate, `none` says
    that it is x0 or zero, and `lines` is what the devices drive meanwhile.
   */
  datatype Access = Access(op: Op, reg: Register, operand: Bits, none: bool, priv: Privilege, lines: Lines)

  function Combine(op: Op, was: Bits, operand: Bits): Bits {
    match op
    case Rw => operand
    case Rs => seq(32, i requires 0 <= i < 32 => was[i] || operand[i])
    case Rc => seq(32, i requires 0 <= i < 32 => was[i] && !operand[i])
  }

  /** csrrs and csrrc of nothing do not write. */
  predicate Writes(a: Access) { a.op == Rw || !a.none }

  function WriteOf(c: Stored, a: Access): Write {
    Write(a.priv, a.reg, Combine(a.op, Read(c, a.reg, a.lines), a.operand), a.lines)
  }

  function Perform(c: Stored, a: Access): Stored { if Writes(a) then Apply(c, WriteOf(c, a)) else c }

  /** The store after `accs`, and the writes they amount to. */
  function Performed(c: Stored, accs: seq<Access>): Stored {
    if accs == [] then c else Perform(Performed(c, accs[..|accs| - 1]), accs[|accs| - 1])
  }

  function History(c: Stored, accs: seq<Access>): seq<Write> {
    if accs == [] then []
    else
      var before, a := accs[..|accs| - 1], accs[|accs| - 1];
      History(c, before) + if Writes(a) then [WriteOf(Performed(c, before), a)] else []
  }

  lemma {:induction false} PerformedByHistory(c: Stored, accs: seq<Access>)
    ensures Performed(c, accs) == After(c, History(c, accs))
  {
    if accs != [] {
      var before, a := accs[..|accs| - 1], accs[|accs| - 1];
      PerformedByHistory(c, before);
      if Writes(a) {
        var ws, w := History(c, before), WriteOf(Performed(c, before), a);
        assert (ws + [w])[..|ws|] == ws;
      } else {
        assert History(c, accs) == History(c, before);
      }
    }
  }

  class Table {
    /** The value slots at 0x300, 0x100, 0x304, 0x104, 0x344 and 0x144. */
    var value: map<Register, Bits>

    ghost predicate Valid()
      reads this
    {
      forall r: Register :: r in value
    }

    /** The three slots that the callbacks use. */
    ghost function View(): Stored
      reads this
      requires Valid()
    {
      Stored(value[Mstatus], value[Mie], value[Mip])
    }

    constructor (slots: map<Register, Bits>)
      requires forall r: Register :: r in slots
      ensures Valid() && value == slots
    {
      value := slots;
    }

    /** get_mip */
    method GetMip(l: Lines) returns (mip: Bits)
      requires Valid()
      ensures mip == ReadMip(value[Mip], l)
    {
      mip := value[Mip];
      if l.timer { mip := mip[MTIP := true]; } else { mip := mip[MTIP := false]; }
      if l.machine { mip := mip[MEIP := true]; } else { mip := mip[MEIP := false]; }
      if l.supervisor { mip := mip[SEIP := true]; } else { mip := mip[SEIP := false]; }
    }

    /** get_sip */
    method GetSip(l: Lines) returns (sip: Bits)
      requires Valid()
      ensures sip == ReadSip(value[Mip], l)
    {
      var mip := GetMip(l);
      sip := Masked(S_BITS, mip);
      if l.timer { sip := sip[STIP := true]; }
    }

    /** csr_read: the register's callback. */
    method CsrRead(reg: Register, l: Lines) returns (v: Bits)
      requires Valid()
      ensures v == Read(View(), reg, l)
    {
      match reg {
        case Mstatus => v := value[Mstatus];
        case Sstatus => v := AssembleSstatus(value[Mstatus]);
        case Mie => v := value[Mie];
        case Sie => v := Masked(S_BITS, value[Mie]);
        case Mip => v := GetMip(l);
        case Sip => v := GetSip(l);
      }
    }

    /** csr_write: the register's callback; no write reaches the slots of the views. */
    method CsrWrite(reg: Register, val: Bits, l: Lines, ghost priv: Privilege)
      requires Valid()
      modifies this
      ensures Valid() && View() == Apply(old(View()), Write(priv, reg, val, l))
      ensures forall r :: r in {Sstatus, Sie, Sip} ==> value[r] == old(value)[r]
    {
      hide WithSstatus, Merge, ReadMip;
      match reg {
        case Mstatus => value := value[Mstatus := MstatusWrite(val)];
        case Sstatus =>
          var m := UpdateSstatus(value[Mstatus], val);
          value := value[Mstatus := m];
        case Mie => value := value[Mie := val];
        case Sie => value := value[Mie := Merge(S_BITS, val, value[Mie])];
        case Mip => value := value[Mip := val];
        case Sip =>
          var mip := GetMip(l);
          value := value[Mip := Merge(S_BITS, val, mip)];
      }
    }

    /** ins_zicsr_csrrw, csrrs, csrrc and their immediate forms. */
    method Execute(a: Access) returns (was: Bits)
      requires Valid()
      modifies this
      ensures Valid() && was == Read(old(View()), a.reg, a.lines)
      ensures View() == Perform(old(View()), a)
      ensures forall r :: r in {Sstatus, Sie, Sip} ==> value[r] == old(value)[r]
    {
      hide Apply, Read;
      was := CsrRead(a.reg, a.lines);
      if a.op == Rw || !a.none {
        CsrWrite(a.reg, Combine(a.op, was, a.operand), a.lines, a.priv);
      }
    }
  }

  /**
    What an access does, seen by the next one to the same register, for a bit
    that the register exposes and that no device drives: the operand after csrrw,
    the old bit or the operand after csrrs, the old bit without the operand after
    csrrc.
   */
  ghost predicate Follows(a: Access, first: Bits, second: Bits, i: nat)
    requires i < 32
  {
    match a.op
    case Rw => second[i] == a.operand[i]
    case Rs => second[i] == (first[i] || a.operand[i])
    case Rc => second[i] == (first[i] && !a.operand[i])
  }

  /** Bits 7, 9 and 11 of mip and sip, and bit 5 of sip, show devices. */
  predicate Driven(reg: Register, i: nat) {
    (reg == Mip && (i == 7 || i == 9 || i == 11)) || (reg == Sip && (i == 5 || i == 9))
  }

  /** The bits of each register that a program can change. */
  predicate Changeable(reg: Register, i: nat) {
    match reg
    case Mstatus => i in {0, 1, 3, 4, 5, 7, 8} || 11 <= i <= 22
    case Sstatus => i in {0, 1, 4, 5, 8, 18, 19} || 13 <= i <= 16
    case Mie => i < 32
    case Mip => i < 32
    case _ => i in {1, 5, 9}
  }

  /** The second access shows what the first did to bit `i`; an operand of x0 or zero has no bits. */
  predicate Visible(a: Access, b: Access, i: nat) {
    a.reg == b.reg && (a.none ==> a.operand == Zero()) && Changeable(a.reg, i) && !Driven(a.reg, i)
  }

  lemma WriteShows(c: Stored, w: Write, l: Lines, i: nat)
    requires i < 32 && Changeable(w.reg, i) && !Driven(w.reg, i)
    ensures Read(Apply(c, w), w.reg, l)[i] == w.val[i]
  {}

  lemma NextAnswer(c: Stored, a: Access, l: Lines, i: nat)
    requires a.none ==> a.operand == Zero()
    requires i < 32 && Changeable(a.reg, i) && !Driven(a.reg, i)
    ensures Follows(a, Read(c, a.reg, a.lines), Read(Perform(c, a), a.reg, l), i)
  {
    WriteShows(c, WriteOf(c, a), l, i);
    SameUnlessDriven(c, a.reg, a.lines, l, i);
    hide Apply, Read;
  }

  lemma SameUnlessDriven(c: Stored, reg: Register, l: Lines, m: Lines, i: nat)
    requires i < 32 && !Driven(reg, i)
    ensures Read(c, reg, l)[i] == Read(c, reg, m)[i]
  {}

  /** Answer `n + 1` tells of bit `i` what access `n` did to it. */
  ghost predicate FollowsAt(accs: seq<Access>, answers: seq<Bits>, n: nat, i: nat)
    requires |answers| == |accs| && n + 1 < |accs| && i < 32
  {
    Visible(accs[n], accs[n + 1], i) ==> Follows(accs[n], answers[n], answers[n + 1], i)
  }

  /** Each answer reads the store as the accesses before it left it. */
  ghost predicate Answered(c: Stored, accs: seq<Access>, answers: seq<Bits>) {
    && |answers| <= |accs|
    && forall n :: 0 <= n < |answers| ==> answers[n] == Read(Performed(c, accs[..n]), accs[n].reg, accs[n].lines)
  }

  /**
    Any run of accesses on the table, from any values in the six slots: every
    bit of every answer is the one the history of writes shows, so the slots of
    sstatus, sie and sip never reach a read; and two accesses in a row to one
    register show the effect of the first.
   */
  method Run(slots: map<Register, Bits>, accs: seq<Access>) returns (answers: seq<Bits>)
    requires forall r: Register :: r in slots
    requires SameOutside(WRITABLE, slots[Mstatus], Zero())
    ensures |answers| == |accs|
    ensures var c := Stored(slots[Mstatus], slots[Mie], slots[Mip]);
      forall n, i: nat :: 0 <= n < |accs| && i < 32 ==>
        answers[n][i] == Shows(c, History(c, accs[..n]), accs[n].reg, accs[n].lines, i)
    ensures forall n, i: nat :: 0 <= n < |accs| - 1 && i < 32 ==> FollowsAt(accs, answers, n, i)
  {
    hide Shows, Read, Perform, FollowsAt, Answered;
    var table := new Table(slots);
    ghost var c := table.View();
    answers := [];
    NothingAnswered(c, accs);
    for n := 0 to |accs|
      invariant |answers| == n && table.Valid() && fresh(table)
      invariant table.View() == Performed(c, accs[..n])
      invariant Answered(c, accs, answers)
    {
      var was := table.Execute(accs[n]);
      OneMoreAnswer(c, accs, answers, was);
      answers := answers + [was];
      assert accs[..n + 1][..n] == accs[..n];
    }
    AnswersShown(c, accs, answers);
    AnswersFollow(c, accs, answers);
  }

  lemma NothingAnswered(c: Stored, accs: seq<Access>)
    ensures Answered(c, accs, [])
  {}

  lemma OneMoreAnswer(c: Stored, accs: seq<Access>, answers: seq<Bits>, was: Bits)
    requires Answered(c, accs, answers) && |answers| < |accs|
    requires var n := |answers|; was == Read(Performed(c, accs[..n]), accs[n].reg, accs[n].lines)
    ensures Answered(c, accs, answers + [was])
  {
    hide Read, Performed;
  }

  lemma AnswersFollow(c: Stored, accs: seq<Access>, answers: seq<Bits>)
    requires |answers| == |accs| && Answered(c, accs, answers)
    ensures forall n, i: nat :: 0 <= n < |accs| - 1 && i < 32 ==> FollowsAt(accs, answers, n, i)
  {
    hide Read, Perform, Follows;
    forall n, i: nat | 0 <= n < |accs| - 1 && i < 32 ensures FollowsAt(accs, answers, n, i) {
      assert accs[..n + 1][..n] == accs[..n];
      if Visible(accs[n], accs[n + 1], i) {
        NextAnswer(Performed(c, accs[..n]), accs[n], accs[n + 1].lines, i);
      }
    }
  }

  lemma AnswersShown(c: Stored, accs: seq<Access>, answers: seq<Bits>)
    requires |answers| == |accs| && Answered(c, accs, answers) && SameOutside(WRITABLE, c.mstatus, Zero())
    ensures forall n, i: nat :: 0 <= n < |accs| && i < 32 ==>
      answers[n][i] == Shows(c, History(c, accs[..n]), accs[n].reg, accs[n].lines, i)
  {
    hide Shows, Read;
    forall n, i: nat | 0 <= n < |accs| && i < 32
      ensures answers[n][i] == Shows(c, History(c, accs[..n]), accs[n].reg, accs[n].lines, i)
    {
      PerformedByHistory(c, accs[..n]);
      ReadsLastWritten(c, History(c, accs[..n]), accs[n].reg, accs[n].lines, i);
    }
  }
}
