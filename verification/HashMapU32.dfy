/**
  The open-addressing hash table of src/hashmap_u32.c: cyclic linear probing,
  tombstones, and doubling when live and deleted slots fill three quarters of
  the table.

  The table is proved for EVERY hash function: `hash` is a field that the
  constructor sets to `HashUint32`, and no proof below looks inside it.
 */
module HashMapU32 {
  import opened Words
  import opened Arithmetic

  type Key = Word
  type Value = bv32

  const INITIAL_CAPACITY: nat := 128
  const GROWTH_FACTOR: nat := 2

  /** One slot. `calloc` and `memset` produce `EMPTY`. */
  datatype Entry = Entry(key: Key, value: Value, occupied: bool, deleted: bool) {
    predicate Live() { occupied && !deleted }
  }

  const EMPTY := Entry(Word(0), 0, false, false)

  function HashUint32(key: Key): bv32 {
    var h1 := key.bits ^ (key.bits >> 16);
    var h2 := h1 * 0x85ebca6b;
    var h3 := h2 ^ (h2 >> 13);
    var h4 := h3 * 0xc2b2ae35;
    h4 ^ (h4 >> 16)
  }

  // ---------------------------------------------------------------------
  // Cyclic slot arithmetic
  // ---------------------------------------------------------------------

  /** The slot `d` steps after `home` in a ring of `cap` slots. */
  function At(home: nat, d: nat, cap: nat): (p: nat)
    requires home < cap && d < cap
    ensures p < cap
  {
    if home + d < cap then home + d else home + d - cap
  }

  /** How many steps after `home` slot `p` comes. */
  function Dist(home: nat, p: nat, cap: nat): (d: nat)
    requires home < cap && p < cap
    ensures d < cap && At(home, d, cap) == p
  {
    if home <= p then p - home else p + cap - home
  }

  lemma WrapIsModulo(home: nat, d: nat, cap: nat)
    requires home < cap && d < cap
    ensures (home + d) % cap == At(home, d, cap)
  {
    ModUnique(home + d, cap, if home + d < cap then 0 else 1, At(home, d, cap));
  }

  // ---------------------------------------------------------------------
  // Counting slots
  // ---------------------------------------------------------------------

  function CountLive(s: seq<Entry>): nat {
    if s == [] then 0 else CountLive(s[..|s| - 1]) + if s[|s| - 1].Live() then 1 else 0
  }

  function CountTomb(s: seq<Entry>): nat {
    if s == [] then 0
    else CountTomb(s[..|s| - 1]) + if s[|s| - 1].occupied && s[|s| - 1].deleted then 1 else 0
  }

  lemma {:induction false} CountUpdate(s: seq<Entry>, i: nat, e: Entry)
    requires i < |s|
    ensures CountLive(s[i := e]) ==
            CountLive(s) - (if s[i].Live() then 1 else 0) + (if e.Live() then 1 else 0)
    ensures CountTomb(s[i := e]) ==
            CountTomb(s) - (if s[i].occupied && s[i].deleted then 1 else 0)
                         + (if e.occupied && e.deleted then 1 else 0)
  {
    var t := s[i := e];
    var n := |s| - 1;
    if i == n {
      assert t[..n] == s[..n];
    } else {
      CountUpdate(s[..n], i, e);
      assert t[..n] == s[..n][i := e];
    }
  }

  lemma {:induction false} CountEmpty(s: seq<Entry>)
    requires forall i :: 0 <= i < |s| ==> s[i] == EMPTY
    ensures CountLive(s) == 0 && CountTomb(s) == 0
  {
    if s != [] { CountEmpty(s[..|s| - 1]); }
  }

  /** If every slot were in use the counters would add up to the capacity. */
  lemma {:induction false} CountFull(s: seq<Entry>)
    requires forall i :: 0 <= i < |s| ==> s[i].occupied
    ensures CountLive(s) + CountTomb(s) == |s|
  {
    if s != [] { CountFull(s[..|s| - 1]); }
  }

  lemma {:induction false} CountPrefix(s: seq<Entry>, n: nat)
    requires n <= |s|
    ensures CountLive(s[..n]) <= CountLive(s)
    decreases |s| - n
  {
    if n == |s| {
      assert s[..n] == s;
    } else {
      CountPrefix(s, n + 1);
      assert s[..n + 1][..n] == s[..n];
    }
  }

  // ---------------------------------------------------------------------
  // What a table means and what every table keeps
  // ---------------------------------------------------------------------

  /** `m` is exactly the set of live bindings of `s`. */
  ghost predicate Represents(s: seq<Entry>, m: map<Key, Value>) {
    && (forall i :: 0 <= i < |s| && s[i].Live() ==> s[i].key in m && m[s[i].key] == s[i].value)
    && (forall k :: k in m ==> exists i :: 0 <= i < |s| && s[i].Live() && s[i].key == k)
  }

  ghost predicate UniqueKeys(s: seq<Entry>) {
    forall i, j :: 0 <= i < |s| && 0 <= j < |s| && i != j && s[i].Live() && s[j].Live() ==> s[i].key != s[j].key
  }

  ghost predicate NoDeletedEmpty(s: seq<Entry>) {
    forall i :: 0 <= i < |s| && s[i].deleted ==> s[i].occupied
  }

  function Home(hash: Key -> bv32, key: Key, cap: nat): (h: nat)
    requires cap > 0
    ensures h < cap
  {
    (hash(key) as int) % cap
  }

  /** Every slot from a live key's home up to its position is in use. */
  ghost predicate Chained(hash: Key -> bv32, s: seq<Entry>) {
    |s| > 0 &&
    forall i, d: nat :: 0 <= i < |s| && s[i].Live() && d < Dist(Home(hash, s[i].key, |s|), i, |s|)
      ==> s[At(Home(hash, s[i].key, |s|), d, |s|)].occupied
  }

  ghost predicate Table(hash: Key -> bv32, s: seq<Entry>, m: map<Key, Value>) {
    Represents(s, m) && UniqueKeys(s) && NoDeletedEmpty(s) && Chained(hash, s)
  }

  /** The reachable states: the counters are exact and a quarter of the slots is spare. */
  ghost predicate Sound(hash: Key -> bv32, s: seq<Entry>, m: map<Key, Value>, size: nat, tombs: nat) {
    && |s| >= 128
    && |s| % 4 == 0
    && Table(hash, s, m)
    && size == CountLive(s) == |m|
    && tombs == CountTomb(s)
    && 4 * (size + tombs) <= 3 * |s|
  }

  /** A table stands for at most one map: its answers are determined. */
  lemma RepresentsIsFunctional(s: seq<Entry>, m: map<Key, Value>, n: map<Key, Value>)
    requires Represents(s, m) && Represents(s, n)
    ensures m == n
  {
    assert forall k :: k in m ==> k in n && m[k] == n[k];
    assert forall k :: k in n ==> k in m;
    assert m.Keys == n.Keys;
  }

  lemma EmptyTable(hash: Key -> bv32, s: seq<Entry>)
    requires |s| > 0 && forall i :: 0 <= i < |s| ==> s[i] == EMPTY
    ensures Table(hash, s, map[])
    ensures CountLive(s) == 0 && CountTomb(s) == 0
  {
    CountEmpty(s);
  }

  lemma NothingRepresented(s: seq<Entry>)
    requires s == []
    ensures Represents(s, map[])
  {}

  /**
    What `probe` promises about the slot it stops at: the key's own, or else the
    first slot on the key's path that is not live, be it a tombstone or empty.
   */
  ghost predicate ProbeStops(hash: Key -> bv32, s: seq<Entry>, key: Key, idx: nat, found: bool)
    requires |s| > 0
  {
    && idx < |s|
    && (found ==> s[idx].Live() && s[idx].key == key)
    && (!found ==>
          && !s[idx].Live()
          && (forall i :: 0 <= i < |s| && s[i].Live() ==> s[i].key != key)
          && (forall d: nat :: d < Dist(Home(hash, key, |s|), idx, |s|)
                ==> s[At(Home(hash, key, |s|), d, |s|)].Live()))
  }

  /** A probe that runs into an unused slot has seen every place the key could be. */
  lemma ProbeReachedEmpty(hash: Key -> bv32, s: seq<Entry>, key: Key, n: nat, i: int)
    requires Chained(hash, s)
    requires n < |s| && !s[At(Home(hash, key, |s|), n, |s|)].occupied
    requires forall d: nat :: d < n ==>
               var e := s[At(Home(hash, key, |s|), d, |s|)]; !(e.Live() && e.key == key)
    requires 0 <= i < |s| && s[i].Live()
    ensures s[i].key != key
  {
    var h := Home(hash, s[i].key, |s|);
    var d := Dist(h, i, |s|);
    assert s[At(h, d, |s|)] == s[i];
    assert n < d ==> s[At(h, n, |s|)].occupied;
  }

  /** Writing a fresh live entry where an unsuccessful probe stopped. */
  lemma InsertKeepsTable(hash: Key -> bv32, s: seq<Entry>, m: map<Key, Value>, idx: nat, key: Key, value: Value)
    requires Table(hash, s, m)
    requires ProbeStops(hash, s, key, idx, false)
    ensures key !in m
    ensures Table(hash, s[idx := Entry(key, value, true, false)], m[key := value])
  {
    var t := s[idx := Entry(key, value, true, false)];
    var n := m[key := value];
    assert key !in m;
    forall i | 0 <= i < |t| && t[i].Live() ensures t[i].key in n && n[t[i].key] == t[i].value {
      if i != idx { assert t[i] == s[i]; }
    }
    forall k | k in n
      ensures exists i :: 0 <= i < |t| && t[i].Live() && t[i].key == k
    {
      if k == key {
        assert t[idx].Live() && t[idx].key == key;
      } else {
        var i :| 0 <= i < |s| && s[i].Live() && s[i].key == k;
        assert t[i] == s[i];
      }
    }
  }

  /** `probe` answers membership in the map. */
  lemma ProbeDecides(hash: Key -> bv32, s: seq<Entry>, m: map<Key, Value>, key: Key, idx: nat, found: bool)
    requires |s| > 0 && Table(hash, s, m) && ProbeStops(hash, s, key, idx, found)
    ensures found <==> key in m
    ensures found ==> m[key] == s[idx].value
  {}

  lemma RemoveKeepsSound(hash: Key -> bv32, s: seq<Entry>, m: map<Key, Value>, size: nat, tombs: nat,
                         idx: nat, key: Key)
    requires Sound(hash, s, m, size, tombs)
    requires ProbeStops(hash, s, key, idx, true)
    ensures size > 0
    ensures Sound(hash, s[idx := s[idx].(deleted := true)], m - {key}, size - 1, tombs + 1)
  {
    RemoveKeepsTable(hash, s, m, idx, key);
    CountUpdate(s, idx, s[idx].(deleted := true));
  }

  lemma FoundIsMember(s: seq<Entry>, m: map<Key, Value>, idx: nat)
    requires Represents(s, m) && idx < |s| && s[idx].Live()
    ensures s[idx].key in m && m[s[idx].key] == s[idx].value
  {}

  lemma InsertKeepsSound(hash: Key -> bv32, s: seq<Entry>, m: map<Key, Value>, size: nat, tombs: nat,
                         idx: nat, key: Key, value: Value)
    requires Sound(hash, s, m, size, tombs) && 4 * (size + tombs) < 3 * |s|
    requires ProbeStops(hash, s, key, idx, false)
    ensures s[idx].deleted ==> tombs > 0
    ensures Sound(hash, s[idx := Entry(key, value, true, false)], m[key := value], size + 1,
                  if s[idx].deleted then tombs - 1 else tombs)
  {
    InsertKeepsTable(hash, s, m, idx, key, value);
    CountUpdate(s, idx, Entry(key, value, true, false));
  }

  /** Overwriting the value of the slot a successful probe found. */
  lemma OverwriteKeepsTable(hash: Key -> bv32, s: seq<Entry>, m: map<Key, Value>, idx: nat, key: Key, value: Value)
    requires Table(hash, s, m)
    requires ProbeStops(hash, s, key, idx, true)
    ensures key in m
    ensures Table(hash, s[idx := s[idx].(value := value)], m[key := value])
  {
    var t := s[idx := s[idx].(value := value)];
    var n := m[key := value];
    forall i | 0 <= i < |t| && t[i].Live() ensures t[i].key in n && n[t[i].key] == t[i].value {
      assert s[i].Live() && s[i].key == t[i].key;
    }
    forall k | k in n
      ensures exists i :: 0 <= i < |t| && t[i].Live() && t[i].key == k
    {
      var i :| 0 <= i < |s| && s[i].Live() && s[i].key == k;
      assert t[i].Live() && t[i].key == k;
    }
  }

  /** Turning the slot a successful probe found into a tombstone. */
  lemma RemoveKeepsTable(hash: Key -> bv32, s: seq<Entry>, m: map<Key, Value>, idx: nat, key: Key)
    requires Table(hash, s, m)
    requires ProbeStops(hash, s, key, idx, true)
    ensures key in m
    ensures Table(hash, s[idx := s[idx].(deleted := true)], m - {key})
  {
    var t := s[idx := s[idx].(deleted := true)];
    var n := m - {key};
    forall i | 0 <= i < |t| && t[i].Live() ensures t[i].key in n && n[t[i].key] == t[i].value {
      assert t[i] == s[i] && i != idx;
    }
    forall k | k in n
      ensures exists i :: 0 <= i < |t| && t[i].Live() && t[i].key == k
    {
      var i :| 0 <= i < |s| && s[i].Live() && s[i].key == k;
      assert t[i] == s[i];
    }
  }

  /** A table without tombstones has none at any slot. */
  lemma {:induction false} NoTombstone(s: seq<Entry>, i: nat)
    requires i < |s| && CountTomb(s) == 0
    ensures !(s[i].occupied && s[i].deleted)
  {
    if i < |s| - 1 { NoTombstone(s[..|s| - 1], i); }
  }

  /** `rehash` meets each live key once, so it is new to the bindings moved so far. */
  lemma ExtendRepresents(was: seq<Entry>, i: nat, moved: map<Key, Value>)
    requires i < |was| && was[i].Live() && UniqueKeys(was)
    requires Represents(was[..i], moved)
    ensures was[i].key !in moved
    ensures Represents(was[..i + 1], moved[was[i].key := was[i].value])
    ensures CountLive(was[..i + 1]) == CountLive(was[..i]) + 1
  {
    var t := was[..i + 1];
    var n := moved[was[i].key := was[i].value];
    assert t[..i] == was[..i];
    assert forall j :: 0 <= j < i ==> was[..i][j] == was[j] == t[j];
    assert was[i].key !in moved;
    forall k | k in n ensures exists j :: 0 <= j < |t| && t[j].Live() && t[j].key == k {
      if k == was[i].key {
        assert t[i].Live();
      } else {
        var j :| 0 <= j < i && was[..i][j].Live() && was[..i][j].key == k;
        assert t[j].Live() && t[j].key == k;
      }
    }
  }

  lemma SkipRepresents(was: seq<Entry>, i: nat, moved: map<Key, Value>)
    requires i < |was| && !was[i].Live()
    requires Represents(was[..i], moved)
    ensures Represents(was[..i + 1], moved)
    ensures CountLive(was[..i + 1]) == CountLive(was[..i])
  {
    var t := was[..i + 1];
    assert t[..i] == was[..i];
    assert forall j :: 0 <= j < i ==> was[..i][j] == was[j] == t[j];
    forall k | k in moved ensures exists j :: 0 <= j < |t| && t[j].Live() && t[j].key == k {
      var j :| 0 <= j < i && was[..i][j].Live() && was[..i][j].key == k;
      assert t[j].Live() && t[j].key == k;
    }
  }

  // ---------------------------------------------------------------------
  // The table itself
  // ---------------------------------------------------------------------

  /** A probe that ends at an empty slot without the key has shown it absent. */
  lemma KeyAbsent(hash: Key -> bv32, s: seq<Entry>, key: Key, n: nat)
    requires Chained(hash, s)
    requires n < |s| && !s[At(Home(hash, key, |s|), n, |s|)].occupied
    requires forall d: nat :: d < n ==>
      var e := s[At(Home(hash, key, |s|), d, |s|)]; !(e.Live() && e.key == key)
    ensures forall j :: 0 <= j < |s| && s[j].Live() ==> s[j].key != key
  {
    forall j | 0 <= j < |s| && s[j].Live() ensures s[j].key != key {
      ProbeReachedEmpty(hash, s, key, n, j);
    }
  }

  /** A whole turn of the ring without an empty slot means that there is none. */
  lemma RingFull(s: seq<Entry>, home: nat)
    requires home < |s| && forall d: nat :: d < |s| ==> s[At(home, d, |s|)].occupied
    ensures CountLive(s) + CountTomb(s) == |s|
  {
    forall p | 0 <= p < |s| ensures s[p].occupied {
      assert s[At(home, Dist(home, p, |s|), |s|)].occupied;
    }
    CountFull(s);
  }

  lemma SoundBounds(hash: Key -> bv32, s: seq<Entry>, m: map<Key, Value>, size: nat, tombs: nat)
    requires Sound(hash, s, m, size, tombs)
    ensures |s| >= 128 && |s| % 4 == 0 && 4 * (size + tombs) <= 3 * |s|
  {
    hide Table;
  }

  class HashMap {
    const hash: Key -> bv32
    var entries: array<Entry>
    var size: nat
    var tombstoneCount: nat
    /** The map this table stands for. */
    ghost var contents: map<Key, Value>

    ghost predicate Valid()
      reads this, entries
    {
      Sound(hash, entries[..], contents, size, tombstoneCount)
    }

    /** hashmap_init */
    constructor ()
      ensures Valid() && fresh(entries)
      ensures contents == map[]
    {
      hash := HashUint32;
      var es := new Entry[INITIAL_CAPACITY](_ => EMPTY);
      entries := es;
      size, tombstoneCount := 0, 0;
      contents := map[];
      new;
      EmptyTable(hash, entries[..]);
    }

    /** probe: the slot holding `key`, or else the slot where it belongs. */
    method Probe(key: Key) returns (idx: nat, found: bool)
      requires Valid()
      ensures ProbeStops(hash, entries[..], key, idx, found)
    {
      hide Represents, UniqueKeys, NoDeletedEmpty;
      ghost var s := entries[..];
      var cap := entries.Length;
      var home := Home(hash, key, cap);
      var firstDeleted: int := -1;
      var i := 0;
      while i < cap
        invariant 0 <= i <= cap
        invariant forall d: nat :: d < i ==> s[At(home, d, cap)].occupied
        invariant forall d: nat :: d < i ==> !(s[At(home, d, cap)].Live() && s[At(home, d, cap)].key == key)
        invariant firstDeleted == -1 || (0 <= firstDeleted < cap && s[firstDeleted].deleted
                                         && Dist(home, firstDeleted, cap) < i)
        invariant var seen := if firstDeleted == -1 then i else Dist(home, firstDeleted, cap);
          forall d: nat :: d < seen ==> s[At(home, d, cap)].Live()
      {
        WrapIsModulo(home, i, cap);
        var slot := (home + i) % cap;
        var entry := entries[slot];
        if !entry.occupied {
          found := false;
          idx := if firstDeleted != -1 then firstDeleted else slot;
          KeyAbsent(hash, s, key, i);
          return;
        }
        if entry.deleted {
          if firstDeleted == -1 { firstDeleted := slot; }
        } else if entry.key == key {
          return slot, true;
        }
        i := i + 1;
      }
      // The source returns slot 0 here; the spare slot rules it out.
      RingFull(s, home);
      assert false;
    }

    /** Fills the slot at which an unsuccessful probe stopped. */
    method Place(idx: nat, key: Key, value: Value)
      requires Valid() && 4 * (size + tombstoneCount) < 3 * entries.Length
      requires ProbeStops(hash, entries[..], key, idx, false)
      modifies this`size, this`tombstoneCount, this`contents, entries
      ensures Valid()
      ensures contents == old(contents)[key := value]
      ensures size == old(size) + 1 && tombstoneCount <= old(tombstoneCount)
    {
      ghost var s := entries[..];
      var entry := Entry(key, value, true, false);
      InsertKeepsSound(hash, s, contents, size, tombstoneCount, idx, key, value);
      if entries[idx].deleted { tombstoneCount := tombstoneCount - 1; }
      entries[idx] := entry;
      assert entries[..] == s[idx := entry];
      size := size + 1;
      contents := contents[key := value];
    }

    /** Replaces the value in the slot a successful probe found. */
    method Overwrite(idx: nat, key: Key, value: Value)
      requires Valid() && ProbeStops(hash, entries[..], key, idx, true)
      modifies this`contents, entries
      ensures Valid()
      ensures contents == old(contents)[key := value]
    {
      ghost var s := entries[..];
      OverwriteKeepsTable(hash, s, contents, idx, key, value);
      CountUpdate(s, idx, s[idx].(value := value));
      entries[idx] := entries[idx].(value := value);
      assert entries[..] == s[idx := s[idx].(value := value)];
      contents := contents[key := value];
    }

    /**
      Moves the live entries into a zeroed table. The source asserts that no
      key is found in the new table; `assert !found` is that assertion.
     */
    method Rehash(requested: nat)
      requires Valid()
      requires requested % 4 == 0 && 4 * size < 3 * requested
      modifies this
      ensures Valid() && fresh(entries) && contents == old(contents)
      ensures entries.Length == if requested < 128 then 128 else requested
      ensures tombstoneCount == 0 && size == old(size)
    {
      hide Represents, UniqueKeys, NoDeletedEmpty, Chained;
      var oldEntries := entries;
      ghost var was := oldEntries[..];
      entries := new Entry[if requested < INITIAL_CAPACITY then INITIAL_CAPACITY else requested](_ => EMPTY);
      size, tombstoneCount := 0, 0;
      contents := map[];
      EmptyTable(hash, entries[..]);
      NothingRepresented(was[..0]);
      var i := 0;
      while i < oldEntries.Length
        invariant 0 <= i <= oldEntries.Length
        invariant fresh(entries) && oldEntries[..] == was
        invariant entries.Length == if requested < INITIAL_CAPACITY then INITIAL_CAPACITY else requested
        invariant Valid() && tombstoneCount == 0
        invariant Represents(was[..i], contents) && size == CountLive(was[..i])
      {
        var entry := oldEntries[i];
        if entry.Live() {
          CountPrefix(was, i);
          var idx, found := Probe(entry.key);
          ExtendRepresents(was, i, contents);
          if found { FoundIsMember(entries[..], contents, idx); }
          assert !found;
          Place(idx, entry.key, entry.value);
        } else {
          SkipRepresents(was, i, contents);
        }
        i := i + 1;
      }
      assert was[..i] == was;
      RepresentsIsFunctional(was, contents, old(contents));
    }

    /** hashmap_put */
    method Put(key: Key, value: Value)
      requires Valid()
      modifies this, entries
      ensures Valid() && (entries == old(entries) || fresh(entries))
      ensures contents == old(contents)[key := value]
      ensures entries.Length ==
        if 4 * (old(size) + old(tombstoneCount)) >= 3 * old(entries.Length) then 2 * old(entries.Length)
        else old(entries.Length)
    {
      hide Sound, ProbeStops;
      SoundBounds(hash, entries[..], contents, size, tombstoneCount);
      if 4 * (size + tombstoneCount) >= 3 * entries.Length {
        Rehash(entries.Length * GROWTH_FACTOR);
      }
      var idx, found := Probe(key);
      if found {
        Overwrite(idx, key, value);
      } else {
        Place(idx, key, value);
      }
    }

    /** hashmap_get; `value` is meaningful only when the key is present, as in the source. */
    method Get(key: Key) returns (present: bool, value: Value)
      requires Valid()
      ensures present <==> key in contents
      ensures present ==> value == contents[key]
    {
      var idx, found := Probe(key);
      ProbeDecides(hash, entries[..], contents, key, idx, found);
      present := found;
      value := if found then entries[idx].value else 0;
    }

    /** hashmap_remove */
    method Remove(key: Key) returns (present: bool)
      requires Valid()
      modifies this, entries
      ensures Valid() && entries == old(entries)
      ensures present <==> key in old(contents)
      ensures contents == old(contents) - {key}
    {
      hide Table;
      var idx, found := Probe(key);
      ghost var s := entries[..];
      ProbeDecides(hash, s, contents, key, idx, found);
      present := found;
      if found {
        RemoveKeepsSound(hash, s, contents, size, tombstoneCount, idx, key);
        entries[idx] := entries[idx].(deleted := true);
        assert entries[..] == s[idx := s[idx].(deleted := true)];
        size, tombstoneCount := size - 1, tombstoneCount + 1;
        contents := contents - {key};
      } else {
        assert contents - {key} == contents;
      }
    }

    /** hashmap_clear */
    method Clear()
      requires Valid()
      modifies this, entries
      ensures Valid() && entries == old(entries)
      ensures contents == map[]
    {
      forall i | 0 <= i < entries.Length { entries[i] := EMPTY; }
      size, tombstoneCount := 0, 0;
      contents := map[];
      EmptyTable(hash, entries[..]);
    }
  }

  // ---------------------------------------------------------------------
  // Whole runs
  // ---------------------------------------------------------------------

  datatype Op = Put(key: Key, value: Value) | Get(key: Key) | Remove(key: Key) | Clear | Size

  datatype Answer = Done | Absent | Found(value: Value) | Removed(present: bool) | Count(n: nat)

  /** The mathematical map after one operation. */
  function Effect(m: map<Key, Value>, op: Op): map<Key, Value> {
    match op
    case Put(k, v) => m[k := v]
    case Remove(k) => m - {k}
    case Clear => map[]
    case _ => m
  }

  /** What a mathematical map answers. */
  function Reply(m: map<Key, Value>, op: Op): Answer {
    match op
    case Get(k) => if k in m then Found(m[k]) else Absent
    case Remove(k) => Removed(k in m)
    case Size => Count(|m|)
    case _ => Done
  }

  function Effects(ops: seq<Op>): map<Key, Value> {
    if ops == [] then map[] else Effect(Effects(ops[..|ops| - 1]), ops[|ops| - 1])
  }

  /** One operation on the table: the map's answer and the map's effect. */
  method Perform(table: HashMap, op: Op) returns (answer: Answer)
    requires table.Valid()
    modifies table, table.entries
    ensures table.Valid() && (table.entries == old(table.entries) || fresh(table.entries))
    ensures table.contents == Effect(old(table.contents), op)
    ensures answer == Reply(old(table.contents), op)
  {
    answer := Done;
    match op {
      case Put(k, v) =>
        table.Put(k, v);
      case Get(k) =>
        var present, value := table.Get(k);
        answer := if present then Found(value) else Absent;
      case Remove(k) =>
        var present := table.Remove(k);
        answer := Removed(present);
      case Clear =>
        table.Clear();
      case Size =>
        answer := Count(table.size);
    }
  }

  /**
    For every sequence of operations after initialisation, the table's answer
    to each is the answer of a mathematical map.
   */
  method Run(ops: seq<Op>) returns (answers: seq<Answer>)
    ensures |answers| == |ops|
    ensures forall i :: 0 <= i < |ops| ==> answers[i] == Reply(Effects(ops[..i]), ops[i])
  {
    hide Sound, Effect, Reply;
    var table := new HashMap();
    answers := [];
    for i := 0 to |ops|
      invariant table.Valid() && fresh(table) && fresh(table.entries)
      invariant table.contents == Effects(ops[..i])
      invariant |answers| == i
      invariant forall j :: 0 <= j < i ==> answers[j] == Reply(Effects(ops[..j]), ops[j])
    {
      assert ops[..i + 1][..i] == ops[..i];
      var answer := Perform(table, ops[i]);
      answers := answers + [answer];
    }
  }
}
