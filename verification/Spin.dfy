/**
  The detector of src/emu.c that ends a run spinning in a short loop after a
  trap: a ring of the last eight fetch addresses and a count of fetches in a
  row that found their address in it.
 */
module Spin {
  /** One turn of the run loop: the address fetched, and whether it left a machine-level trap behind. */
  datatype Turn = Turn(pc: bv32, trapped: bool)

  const LIMIT: nat := 64

  // ---------------------------------------------------------------------
  // What the detector decides, from the addresses fetched since it was armed
  // ---------------------------------------------------------------------

  /** Among the last eight fetches; before there are eight, the cleared ring also holds address zero. */
  predicate Recent(h: seq<bv32>, pc: bv32) {
    (exists k: nat :: |h| - 8 <= k < |h| && h[k] == pc) || (|h| < 8 && pc == 0)
  }

  /** How many fetches in a row, the last included, were recent when made. */
  function Streak(h: seq<bv32>): nat {
    if h == [] then 0
    else
      var before, pc := h[..|h| - 1], h[|h| - 1];
      if Recent(before, pc) then Streak(before) + 1 else 0
  }

  /** The slots of the ring. */
  function Slot(h: seq<bv32>, i: nat): bv32 {
    if h == [] then 0
    else if (|h| - 1) % 8 == i then h[|h| - 1]
    else Slot(h[..|h| - 1], i)
  }

  /** The fetches from the last trap on; empty before the first. */
  function SinceTrap(turns: seq<Turn>): seq<bv32> {
    if turns == [] then []
    else
      var before, t := SinceTrap(turns[..|turns| - 1]), turns[|turns| - 1];
      if t.trapped then [t.pc] else if before == [] then [] else before + [t.pc]
  }

  predicate Stops(turns: seq<Turn>) { Streak(SinceTrap(turns)) >= 64 }

  // ---------------------------------------------------------------------
  // The ring holds the last eight
  // ---------------------------------------------------------------------

  lemma {:induction false} SlotAt(h: seq<bv32>, k: nat)
    requires |h| - 8 <= k < |h|
    ensures Slot(h, k % 8) == h[k]
    decreases |h|
  {
    if k < |h| - 1 {
      assert (|h| - 1) % 8 != k % 8;
      SlotAt(h[..|h| - 1], k);
    }
  }

  lemma {:induction false} SlotUnused(h: seq<bv32>, i: nat)
    requires |h| <= i < 8
    ensures Slot(h, i) == 0
    decreases |h|
  {
    if h != [] { SlotUnused(h[..|h| - 1], i); }
  }

  /** The fetch that slot `i` holds. */
  lemma SlotHolds(h: seq<bv32>, i: nat) returns (k: nat)
    requires i < 8 && i < |h|
    ensures |h| - 8 <= k < |h| && k % 8 == i && Slot(h, i) == h[k]
  {
    var n := |h| - 1;
    k := n - (n - i) % 8;
    SlotAt(h, k);
  }

  predicate InRing(h: seq<bv32>, pc: bv32) { exists i: nat | i < 8 :: Slot(h, i) == pc }

  /** An address is in the ring exactly when it is recent. */
  lemma RingIsRecent(h: seq<bv32>, pc: bv32)
    ensures InRing(h, pc) <==> Recent(h, pc)
  {
    if i: nat :| i < 8 && Slot(h, i) == pc {
      if i < |h| { var k := SlotHolds(h, i); } else { SlotUnused(h, i); }
    }
    if Recent(h, pc) {
      if k: nat :| |h| - 8 <= k < |h| && h[k] == pc {
        SlotAt(h, k);
        assert Slot(h, k % 8) == pc;
      } else {
        SlotUnused(h, 7);
      }
    }
  }

  // ---------------------------------------------------------------------
  // What stops and what does not
  // ---------------------------------------------------------------------

  /** A streak of `k` is `k` recent fetches in a row. */
  lemma {:induction false} StreakMeans(h: seq<bv32>, k: nat)
    ensures Streak(h) >= k <==> k <= |h| && forall j | |h| - k <= j < |h| :: Recent(h[..j], h[j])
    decreases |h|
  {
    if h != [] && k > 0 {
      var before := h[..|h| - 1];
      StreakMeans(before, k - 1);
      assert forall j | 0 <= j < |before| :: before[..j] == h[..j];
      assert h[..|h| - 1] == before;
    }
  }

  predicate Periodic(h: seq<bv32>, p: nat) { forall k: nat | k + p < |h| :: h[k + p] == h[k] }

  /** No address is zero or fetched again within eight fetches. */
  predicate Advancing(h: seq<bv32>) {
    && (forall j: nat | j < |h| :: h[j] != 0)
    && (forall i: nat, j: nat | i < j < |h| && j - i <= 8 :: h[i] != h[j])
  }

  lemma AdvancingStreak(h: seq<bv32>)
    requires Advancing(h)
    ensures Streak(h) == 0
  {
    if h != [] { assert !Recent(h[..|h| - 1], h[|h| - 1]); }
  }

  lemma {:induction false} SinceTrapIsSuffix(turns: seq<Turn>)
    ensures exists n: nat :: n <= |turns| && SinceTrap(turns) == Pcs(turns)[n..]
    decreases |turns|
  {
    if turns == [] {
      assert SinceTrap(turns) == Pcs(turns)[0..];
    } else {
      var init, t := turns[..|turns| - 1], turns[|turns| - 1];
      SinceTrapIsSuffix(init);
      var n: nat :| n <= |init| && SinceTrap(init) == Pcs(init)[n..];
      assert Pcs(turns) == Pcs(init) + [t.pc];
      var m := if t.trapped then |init| else if SinceTrap(init) == [] then |turns| else n;
      assert SinceTrap(turns) == Pcs(turns)[m..];
    }
  }

  /** A program that makes progress is never taken for a spin, whatever traps it takes. */
  lemma ProgressNeverStops(turns: seq<Turn>, n: nat)
    requires Advancing(Pcs(turns)) && n <= |turns|
    ensures !Stops(turns[..n])
  {
    var front := turns[..n];
    SinceTrapIsSuffix(front);
    var m: nat :| m <= |front| && SinceTrap(front) == Pcs(front)[m..];
    var h := SinceTrap(front);
    assert forall j: nat | j < |h| :: h[j] == Pcs(turns)[m + j];
    AdvancingStreak(h);
  }

  lemma {:induction false} SinceTrapExtends(armed: seq<Turn>, quiet: seq<Turn>)
    requires SinceTrap(armed) != [] && forall i | 0 <= i < |quiet| :: !quiet[i].trapped
    ensures SinceTrap(armed + quiet) == SinceTrap(armed) + Pcs(quiet)
    decreases |quiet|
  {
    if quiet == [] {
      assert armed + quiet == armed;
    } else {
      var init, t := quiet[..|quiet| - 1], quiet[|quiet| - 1];
      SinceTrapExtends(armed, init);
      assert (armed + quiet)[..|armed + quiet| - 1] == armed + init;
      assert Pcs(quiet) == Pcs(init) + [t.pc];
    }
  }

  function Pcs(turns: seq<Turn>): seq<bv32> { seq(|turns|, i requires 0 <= i < |turns| => turns[i].pc) }

  lemma RecentSuffix(g: seq<bv32>, h: seq<bv32>, pc: bv32)
    requires exists k: nat :: |h| - 8 <= k < |h| && h[k] == pc
    ensures Recent(g + h, pc)
  {
    var k: nat :| |h| - 8 <= k < |h| && h[k] == pc;
    assert (g + h)[|g| + k] == pc;
  }

  lemma {:induction false} LoopStreak(g: seq<bv32>, h: seq<bv32>, p: nat)
    requires 1 <= p <= 8 && Periodic(h, p)
    ensures Streak(g + h) >= |h| - p
    decreases |h|
  {
    if |h| > p {
      var before := h[..|h| - 1];
      assert Periodic(before, p) by {
        forall k: nat | k + p < |before| ensures before[k + p] == before[k] { assert h[k + p] == h[k]; }
      }
      LoopStreak(g, before, p);
      var k := |h| - 1 - p;
      assert h[k + p] == h[k];
      assert before[k] == h[|h| - 1];
      RecentSuffix(g, before, h[|h| - 1]);
      assert (g + h)[..|g + h| - 1] == g + before;
    }
  }

  /**
    Whenever after a trap the run falls into a loop of at most eight fetches
    without another trap, it ends within one lap and 64 fetches.
   */
  lemma SpinEnds(armed: seq<Turn>, loop: seq<Turn>, p: nat)
    requires SinceTrap(armed) != [] && forall i | 0 <= i < |loop| :: !loop[i].trapped
    requires 1 <= p <= 8 && |loop| == p + 64 && Periodic(Pcs(loop), p)
    ensures Stops(armed + loop)
  {
    SinceTrapExtends(armed, loop);
    LoopStreak(SinceTrap(armed), Pcs(loop), p);
  }

  // ---------------------------------------------------------------------
  // The code
  // ---------------------------------------------------------------------

  class Detector {
    const loopWindow: array<bv32>
    var pos: nat
    var spinCount: nat
    var armed: bool

    /** The ring and the count after fetching `h`. */
    ghost predicate Holds(h: seq<bv32>)
      reads this, loopWindow
    {
      && loopWindow.Length == 8
      && pos == |h| % 8
      && spinCount == Streak(h)
      && forall i: nat | i < 8 :: loopWindow[i] == Slot(h, i)
    }

    /** The detector after the turns `turns`. */
    ghost predicate Follows(turns: seq<Turn>)
      reads this, loopWindow
    {
      Holds(SinceTrap(turns)) && (armed <==> SinceTrap(turns) != [])
    }

    constructor ()
      ensures Follows([]) && fresh(loopWindow)
    {
      loopWindow := new bv32[8](_ => 0);
      pos, spinCount, armed := 0, 0, false;
    }

    /** The scan of the ring. */
    method Seen(pc: bv32, ghost h: seq<bv32>) returns (seen: bool)
      requires Holds(h)
      ensures seen <==> Recent(h, pc)
    {
      seen := false;
      for i: nat := 0 to 8
        invariant seen <==> exists j: nat | j < i :: loopWindow[j] == pc
      {
        if loopWindow[i] == pc { seen := true; }
      }
      assert seen <==> InRing(h, pc);
      RingIsRecent(h, pc);
    }

    /** Arming: a trap clears the ring. */
    method Reset()
      requires loopWindow.Length == 8
      modifies this, loopWindow
      ensures Holds([]) && armed
    {
      armed := true;
      for i: nat := 0 to 8
        invariant armed
        invariant forall j: nat | j < i :: loopWindow[j] == 0
      {
        loopWindow[i] := 0;
      }
      pos, spinCount := 0, 0;
    }

    /** Counts one fetch and enters it in the ring. */
    method Record(pc: bv32, ghost h: seq<bv32>)
      requires Holds(h)
      modifies this`pos, this`spinCount, loopWindow
      ensures Holds(h + [pc])
    {
      var seen := Seen(pc, h);
      spinCount := if seen then spinCount + 1 else 0;
      loopWindow[pos] := pc;
      pos := (pos + 1) % 8;
      ghost var g := h + [pc];
      assert g[..|g| - 1] == h;
    }

    /** One turn of the run loop with the detector on; `stop` ends the run. */
    method Step(t: Turn, ghost turns: seq<Turn>) returns (stop: bool)
      requires Follows(turns)
      modifies this, loopWindow
      ensures Follows(turns + [t])
      ensures stop <==> Stops(turns + [t])
    {
      ghost var after := turns + [t];
      assert after[..|after| - 1] == turns;
      ghost var h := SinceTrap(turns);
      if t.trapped {
        Reset();
        h := [];
      }
      if armed {
        Record(t.pc, h);
        assert SinceTrap(after) == h + [t.pc];
      }
      stop := armed && spinCount >= LIMIT;
    }
  }

  /** The run ends with the first turn after which it has stopped, and with none otherwise. */
  method Watch(turns: seq<Turn>) returns (n: nat, stopped: bool)
    ensures n <= |turns| && (!stopped ==> n == |turns|)
    ensures stopped <==> Stops(turns[..n])
    ensures forall m: nat | m < n :: !Stops(turns[..m])
  {
    var d := new Detector();
    n, stopped := 0, false;
    while n < |turns| && !stopped
      invariant n <= |turns| && fresh(d) && fresh(d.loopWindow)
      invariant d.Follows(turns[..n])
      invariant stopped <==> Stops(turns[..n])
      invariant forall m: nat | m < n :: !Stops(turns[..m])
    {
      assert turns[..n] + [turns[n]] == turns[..n + 1];
      stopped := d.Step(turns[n], turns[..n]);
      n := n + 1;
    }
  }
}
