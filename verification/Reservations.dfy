/**
  The reservation helpers of include/extension/a_extension.h and include/mem.h,
  on the hash table that holds the reservations (`g_state.mmu_flags`) and on
  the map it stands for. `KeyOf` is get_reservation_key.
 */
module Reservations {
  import opened Words
  import opened HashMapU32

  /** get_reserve_status on the map: bit 0 of the entry. */
  predicate IsReserved(m: map<Word, bv32>, a: bv32) {
    KeyOf(a) in m && m[KeyOf(a)] & 1 != 0
  }

  /** set_reserve_status on the map. */
  function Reserve(m: map<Word, bv32>, a: bv32): map<Word, bv32> {
    m[KeyOf(a) := (if KeyOf(a) in m then m[KeyOf(a)] else 0) | 1]
  }

  /** clear_reserve_status on the map: an entry without flags is removed. */
  function Unreserve(m: map<Word, bv32>, a: bv32): map<Word, bv32> {
    if KeyOf(a) !in m then m
    else if m[KeyOf(a)] & 0xFFFF_FFFE == 0 then m - {KeyOf(a)}
    else m[KeyOf(a) := m[KeyOf(a)] & 0xFFFF_FFFE]
  }

  class ReservationTable {
    const table: HashMap

    ghost predicate Valid()
      reads this, table, table.entries
    {
      table.Valid()
    }

    constructor ()
      ensures Valid() && fresh(table) && fresh(table.entries) && table.contents == map[]
    {
      table := new HashMap();
    }

    method GetReserveStatus(a: bv32) returns (b: bool)
      requires Valid()
      ensures b == IsReserved(table.contents, a)
    {
      var present, value := table.Get(KeyOf(a));
      if !present { return false; }
      b := value & 1 != 0;
    }

    method SetReserveStatus(a: bv32)
      requires Valid()
      modifies table, table.entries
      ensures Valid() && (table.entries == old(table.entries) || fresh(table.entries))
      ensures table.contents == Reserve(old(table.contents), a)
    {
      hide Sound;
      var present, value := table.Get(KeyOf(a));
      if !present { value := 0; }
      value := value | 1;
      table.Put(KeyOf(a), value);
    }

    method ClearReserveStatus(a: bv32)
      requires Valid()
      modifies table, table.entries
      ensures Valid() && (table.entries == old(table.entries) || fresh(table.entries))
      ensures table.contents == Unreserve(old(table.contents), a)
    {
      hide Sound;
      var present, value := table.Get(KeyOf(a));
      if !present { return; }
      value := value & 0xFFFF_FFFE;
      if value == 0 {
        var removed := table.Remove(KeyOf(a));
      } else {
        table.Put(KeyOf(a), value);
      }
    }

    /** mem_clear_reservation: every store passes here. */
    method ClearOnStore(a: bv32)
      requires Valid()
      modifies table, table.entries
      ensures Valid() && table.entries == old(table.entries)
      ensures table.contents == old(table.contents) - {KeyOf(a)}
    {
      if table.size > 0 {
        var removed := table.Remove(KeyOf(a));
      } else {
        assert |table.contents| == 0;
        assert table.contents - {KeyOf(a)} == table.contents;
      }
    }

    /** Trap entry drops everything. */
    method ClearOnTrap()
      requires Valid()
      modifies table, table.entries
      ensures Valid() && table.entries == old(table.entries)
      ensures table.contents == map[]
    {
      if table.size > 0 {
        table.Clear();
      } else {
        assert |table.contents| == 0;
      }
    }
  }
}
