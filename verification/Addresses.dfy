/**
  Addresses as bit patterns: words and the bytes in them, and the physical
  addresses that include/mmu.h composes. The facts about them are proved here,
  apart from everything else.
 */
module Addresses {
  import opened Words

  /** The number of the word that holds the byte at `a`. */
  function WordIndex(a: bv32): bv30 { (a >> 2) as bv30 }

  predicate WordAligned(a: bv32) { a & 3 == 0 }

  /** Byte `i` of the word at `a`. */
  function ByteAt(a: bv32, i: bv2): bv32 { a | (i as bv32) }

  function Frame(pte: bv32): bv32 { (pte >> 10) << 12 }
  function Keep(va: bv32, mask: bv32): bv32 { va & mask }
  function Compose(frame: bv32, offset: bv32): bv32 { frame | offset }

  /** The physical address a leaf gives, at each level of the walk. */
  function SuperpageAddress(pte: bv32, va: bv32): bv32 { Compose(Frame(pte), Keep(va, 0x3F_FFFF)) }
  function PageAddress(pte: bv32, va: bv32): bv32 { Compose(Frame(pte), Keep(va, 0xFFF)) }

  lemma AddIsOr(a: bv32, i: bv2)
    requires WordAligned(a)
    ensures Offset(a, i) == ByteAt(a, i)
  {}

  lemma OffsetsDiffer(a: bv32, i: bv2, j: bv2)
    requires i != j
    ensures Offset(a, i) != Offset(a, j)
  {}

  lemma SameIndex(a: bv32, i: bv2)
    ensures WordIndex(ByteAt(a, i)) == WordIndex(a)
  {}

  lemma SameIndices(va: bv32, i: bv2)
    ensures (ByteAt(va, i) >> 22) & 0x3FF == (va >> 22) & 0x3FF
    ensures (ByteAt(va, i) >> 12) & 0x3FF == (va >> 12) & 0x3FF
  {}

  lemma KeepByte(va: bv32, i: bv2)
    ensures Keep(ByteAt(va, i), 0x3F_FFFF) == (va & 0x3F_FFFF) | (i as bv32)
  {}

  lemma ByteOfKept(va: bv32, i: bv2)
    ensures ByteAt(Keep(va, 0x3F_FFFF), i) == (va & 0x3F_FFFF) | (i as bv32)
  {}

  lemma ByteOfSuperpage(va: bv32, i: bv2)
    ensures Keep(ByteAt(va, i), 0x3F_FFFF) == ByteAt(Keep(va, 0x3F_FFFF), i)
  {
    hide Keep, ByteAt;
    KeepByte(va, i);
    ByteOfKept(va, i);
  }

  lemma ByteOfPage(va: bv32, i: bv2)
    ensures Keep(ByteAt(va, i), 0xFFF) == ByteAt(Keep(va, 0xFFF), i)
  {}

  lemma ComposeByte(frame: bv32, offset: bv32, i: bv2)
    ensures Compose(frame, ByteAt(offset, i)) == (frame | offset) | (i as bv32)
  {}

  lemma ByteOfComposed(frame: bv32, offset: bv32, i: bv2)
    ensures ByteAt(Compose(frame, offset), i) == (frame | offset) | (i as bv32)
  {}

  lemma ByteOfFrame(frame: bv32, offset: bv32, i: bv2)
    ensures Compose(frame, ByteAt(offset, i)) == ByteAt(Compose(frame, offset), i)
  {
    hide Compose, ByteAt;
    ComposeByte(frame, offset, i);
    ByteOfComposed(frame, offset, i);
  }

  lemma SameOffsets(pte: bv32, va: bv32, i: bv2)
    ensures SuperpageAddress(pte, ByteAt(va, i)) == ByteAt(SuperpageAddress(pte, va), i)
    ensures PageAddress(pte, ByteAt(va, i)) == ByteAt(PageAddress(pte, va), i)
  {
    hide ByteAt, Frame, Keep, Compose;
    ByteOfSuperpage(va, i);
    ByteOfPage(va, i);
    ByteOfFrame(Frame(pte), Keep(va, 0x3F_FFFF), i);
    ByteOfFrame(Frame(pte), Keep(va, 0xFFF), i);
  }

  lemma SuperpageAligned(pte: bv32, va: bv32)
    requires WordAligned(va)
    ensures WordAligned(SuperpageAddress(pte, va))
  {}

  lemma PageAligned(pte: bv32, va: bv32)
    requires WordAligned(va)
    ensures WordAligned(PageAddress(pte, va))
  {}

  lemma AddressesAligned(pte: bv32, va: bv32)
    requires WordAligned(va)
    ensures WordAligned(SuperpageAddress(pte, va)) && WordAligned(PageAddress(pte, va))
  {
    hide WordAligned, SuperpageAddress, PageAddress;
    SuperpageAligned(pte, va);
    PageAligned(pte, va);
  }
}
