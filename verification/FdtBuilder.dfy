/**
  The device tree writer of src/device/fdt.c: a builder that fills a structure
  window and a strings block of one buffer through two cursors, and closes them
  with a header. Every call is proved against the tree it describes, and
  `Build` closes the round trip with the reader of `FdtFormat`.
 */
module FdtBuilder {
  import opened Wrappers
  import opened FdtFormat

  const FDT_STRUCT_MAX: nat := 4096
  const FDT_MAX_CELLS: nat := 4
  const FDT_MAX_BUF: nat := 4 * FDT_STRUCT_MAX
  const FDT_HART_BASE: nat := 0

  /** After the header and one reserve-map terminator. */
  const STRUCT_BASE: nat := FDT_HEADER_SIZE + 16
  const STRINGS_BASE: nat := STRUCT_BASE + FDT_STRUCT_MAX

  // ---------------------------------------------------------------------
  // The tree a sequence of calls describes
  // ---------------------------------------------------------------------

  /** Adds an item to the innermost open node. */
  function AddItem(open: seq<Node>, item: Item): seq<Node>
    requires open != []
  {
    var top := open[|open| - 1];
    open[|open| - 1 := Node(top.name, top.items + [item])]
  }

  /** The tokens written while `open` are the open nodes, root first. */
  function OpenTokens(open: seq<Node>): seq<Token> {
    if open == [] then []
    else
      var top := open[|open| - 1];
      OpenTokens(open[..|open| - 1]) + [BeginNode(top.name)] + FlattenItems(top.items)
  }

  lemma PropTokens(open: seq<Node>, name: seq<byte>, value: seq<byte>)
    requires open != []
    ensures OpenTokens(AddItem(open, Property(name, value))) == OpenTokens(open) + [Prop(name, value)]
  {
    var n := |open| - 1;
    var added := AddItem(open, Property(name, value));
    assert added[..n] == open[..n];
    FlattenAppend(open[n].items, Property(name, value));
  }

  lemma PushTokens(open: seq<Node>, name: seq<byte>)
    ensures OpenTokens(open + [Node(name, [])]) == OpenTokens(open) + [BeginNode(name)]
  {
    assert (open + [Node(name, [])])[..|open|] == open;
  }

  lemma PopTokens(open: seq<Node>)
    requires |open| >= 2
    ensures OpenTokens(AddItem(open[..|open| - 1], Child(open[|open| - 1]))) == OpenTokens(open) + [EndNode]
  {
    var n := |open| - 1;
    var outer, inner := open[..n], open[n];
    var added := AddItem(outer, Child(inner));
    assert added[..n - 1] == outer[..n - 1];
    FlattenAppend(outer[n - 1].items, Child(inner));
  }

  lemma RootTokens(root: Node)
    ensures OpenTokens([root]) + [EndNode] == FlattenItem(Child(root))
  {
    assert [root][..0] == [];
    assert OpenTokens([root]) == [BeginNode(root.name)] + FlattenItems(root.items);
  }

  // ---------------------------------------------------------------------
  // The buffer
  // ---------------------------------------------------------------------

  /** `b` with `data` stored at `off`. */
  function Patch(b: seq<byte>, off: nat, data: seq<byte>): (r: seq<byte>)
    requires off + |data| <= |b|
    ensures |r| == |b|
  {
    b[..off] + data + b[off + |data|..]
  }

  lemma PatchTwice(b: seq<byte>, off: nat, d: seq<byte>, e: seq<byte>)
    requires off + |d| + |e| <= |b|
    ensures Patch(Patch(b, off, d), off + |d|, e) == Patch(b, off, d + e)
  {}

  lemma PatchNothing(b: seq<byte>, off: nat)
    requires off <= |b|
    ensures Patch(b, off, []) == b
  {}

  lemma PatchByte(b: seq<byte>, off: nat, x: byte)
    requires off < |b|
    ensures b[off := x] == Patch(b, off, [x])
  {}

  lemma PadFrom(off: nat, n: nat)
    requires off % 4 == 0
    ensures Pad(off + n) == Pad(n)
  {}

  /** One more zero byte after `n`. */
  lemma PatchZero(b: seq<byte>, off: nat, n: nat)
    requires off + n < |b|
    ensures Patch(b, off, Zeros(n))[off + n := 0] == Patch(b, off, Zeros(n + 1))
  {
    assert Zeros(n + 1) == Zeros(n) + [0];
  }

  lemma PadLeft(off: nat, n: nat)
    requires n <= Pad(off)
    ensures (off + n) % 4 == 0 <==> n == Pad(off)
  {}

  lemma PatchDisjoint(b: seq<byte>, lo: nat, d: seq<byte>, hi: nat, e: seq<byte>)
    requires lo + |d| <= hi && hi + |e| <= |b|
    ensures Patch(Patch(b, lo, d), hi, e) == Patch(Patch(b, hi, e), lo, d)
  {}

  lemma PatchExtends(b: seq<byte>, lo: nat, off: nat, d: seq<byte>)
    requires lo <= off && off + |d| <= |b|
    ensures Patch(b, off, d)[lo..off + |d|] == b[lo..off] + d
  {}

  lemma PatchElsewhere(b: seq<byte>, off: nat, d: seq<byte>, lo: nat, hi: nat)
    requires off + |d| <= |b| && lo <= hi <= |b|
    requires hi <= off || off + |d| <= lo
    ensures Patch(b, off, d)[lo..hi] == b[lo..hi]
  {}

  /**
    The buffer holds the encoding of `ts` behind both cursors. Nothing is
    claimed of the contents once the structure has run over its window.
   */
  ghost predicate Image(b: seq<byte>, structOff: nat, stringsOff: nat, ts: seq<Token>) {
    && |b| < U32
    && TokensOk(ts)
    && structOff == STRUCT_BASE + |EncodeTokens(ts)| <= |b|
    && stringsOff == STRINGS_BASE + |EncodeStrings(ts)| <= |b|
    && structOff % 4 == 0
    && (structOff <= STRINGS_BASE ==>
          && b[STRUCT_BASE..structOff] == EncodeTokens(ts)
          && b[STRINGS_BASE..stringsOff] == EncodeStrings(ts))
  }

  /** The strings bytes a token adds. */
  function NameBytes(t: Token): seq<byte> {
    if t.Prop? then t.name + [0] else []
  }

  /** Room for one more token behind both cursors. */
  ghost predicate Room(size: nat, structOff: nat, stringsOff: nat, t: Token) {
    structOff + TokenLength(t) <= size && stringsOff + |NameBytes(t)| <= size
  }

  /** Bytes appended to both regions leave what they held. */
  lemma RegionsAppend(b: seq<byte>, structOff: nat, stringsOff: nat, name: seq<byte>, enc: seq<byte>)
    requires STRUCT_BASE <= structOff && structOff + |enc| <= STRINGS_BASE <= stringsOff
    requires stringsOff + |name| <= |b|
    ensures var r := Patch(Patch(b, stringsOff, name), structOff, enc);
      && r[STRUCT_BASE..structOff + |enc|] == b[STRUCT_BASE..structOff] + enc
      && r[STRINGS_BASE..stringsOff + |name|] == b[STRINGS_BASE..stringsOff] + name
  {
    hide Patch;
    var named := Patch(b, stringsOff, name);
    PatchExtends(b, STRINGS_BASE, stringsOff, name);
    PatchElsewhere(b, stringsOff, name, STRUCT_BASE, structOff);
    PatchExtends(named, STRUCT_BASE, structOff, enc);
    PatchElsewhere(named, structOff, enc, STRINGS_BASE, stringsOff + |name|);
  }

  lemma ImageAppend(b: seq<byte>, structOff: nat, stringsOff: nat, ts: seq<Token>, t: Token, b': seq<byte>)
    requires Image(b, structOff, stringsOff, ts) && Room(|b|, structOff, stringsOff, t) && TokenOk(t)
    requires |b'| == |b|
    requires structOff + TokenLength(t) <= STRINGS_BASE ==>
               b' == Patch(Patch(b, stringsOff, NameBytes(t)), structOff, EncodeToken(t, stringsOff - STRINGS_BASE))
    ensures Image(b', structOff + TokenLength(t), stringsOff + |NameBytes(t)|, ts + [t])
  {
    hide TokenOk, EncodeToken, EncodeTokens, EncodeStrings, Patch, TokenLength;
    EncodeAppend(ts, t);
    LengthAligned(t);
    assert NameBytes(t) == if t.Prop? then t.name + [0] else [];
    hide NameBytes;
    if structOff + TokenLength(t) <= STRINGS_BASE {
      RegionsAppend(b, structOff, stringsOff, NameBytes(t), EncodeToken(t, stringsOff - STRINGS_BASE));
    }
  }

  /** Before anything is written. */
  lemma BlankImage(b: seq<byte>)
    requires STRINGS_BASE <= |b| < U32
    ensures Image(b, STRUCT_BASE, STRINGS_BASE, OpenTokens([]))
  {}

  lemma ImageBounds(b: seq<byte>, structOff: nat, stringsOff: nat, ts: seq<Token>)
    requires Image(b, structOff, stringsOff, ts)
    ensures |b| < U32 && structOff % 4 == 0
    ensures STRUCT_BASE <= structOff <= |b| && STRINGS_BASE <= stringsOff <= |b|
  {}

  /** The writes of fdt_builder_init, taken together. */
  lemma RootOpened(b: seq<byte>)
    requires STRINGS_BASE <= |b| < U32
    ensures STRUCT_BASE % 4 == 0 && Pad(1) == 3
    ensures Image(Patch(Patch(b, STRUCT_BASE, Be32(FDT_BEGIN_NODE)), STRUCT_BASE + 4, [] + [0] + Zeros(Pad(1))),
                  STRUCT_BASE + 8, STRINGS_BASE, OpenTokens([Node([], [])]))
  {
    hide Image, Patch, Be32, Zeros, OpenTokens;
    BlankImage(b);
    PushImage(b, STRUCT_BASE, STRINGS_BASE, [], []);
    assert [] + [Node([], [])] == [Node([], [])];
  }

  /** The writes of fdt_node_push, taken together. */
  lemma PushImage(b: seq<byte>, off: nat, soff: nat, open: seq<Node>, name: seq<byte>)
    requires Image(b, off, soff, OpenTokens(open)) && Room(|b|, off, soff, BeginNode(name)) && NulFree(name)
    ensures Image(Patch(Patch(b, off, Be32(FDT_BEGIN_NODE)), off + 4, name + [0] + Zeros(Pad(|name| + 1))),
                  off + TokenLength(BeginNode(name)), soff, OpenTokens(open + [Node(name, [])]))
  {
    hide Image, OpenTokens, Be32, Zeros, Patch;
    var t := BeginNode(name);
    ImageBounds(b, off, soff, OpenTokens(open));
    PatchTwice(b, off, Be32(FDT_BEGIN_NODE), name + [0] + Zeros(Pad(|name| + 1)));
    assert Be32(FDT_BEGIN_NODE) + (name + [0] + Zeros(Pad(|name| + 1))) == EncodeToken(t, soff - STRINGS_BASE);
    PatchNothing(b, soff);
    ImageAppend(b, off, soff, OpenTokens(open), t, Patch(b, off, EncodeToken(t, soff - STRINGS_BASE)));
    PushTokens(open, name);
  }

  /** The write of fdt_node_pop. */
  lemma PopImage(b: seq<byte>, off: nat, soff: nat, open: seq<Node>)
    requires |open| >= 2
    requires Image(b, off, soff, OpenTokens(open)) && Room(|b|, off, soff, EndNode)
    ensures Image(Patch(b, off, Be32(FDT_END_NODE)), off + 4, soff,
                  OpenTokens(AddItem(open[..|open| - 1], Child(open[|open| - 1]))))
  {
    hide Image, OpenTokens, Be32, Patch;
    ImageBounds(b, off, soff, OpenTokens(open));
    PatchNothing(b, soff);
    ImageAppend(b, off, soff, OpenTokens(open), EndNode, Patch(b, off, Be32(FDT_END_NODE)));
    PopTokens(open);
  }

  /** The bytes a property adds in front of its value. */
  function PropHead(len: nat, nameOff: nat): (b: seq<byte>)
    ensures |b| == 12
  {
    Be32(FDT_PROP) + Be32(len) + Be32(nameOff)
  }

  /** The writes of prop_begin and of the value, taken together. */
  lemma PropImage(b: seq<byte>, off: nat, soff: nat, open: seq<Node>, name: seq<byte>, value: seq<byte>, b': seq<byte>)
    requires open != [] && NulFree(name) && |value| < U32
    requires Image(b, off, soff, OpenTokens(open)) && Room(|b|, off, soff, Prop(name, value))
    requires |b'| == |b|
    requires off + TokenLength(Prop(name, value)) <= STRINGS_BASE ==>
               b' == Patch(Patch(Patch(b, soff, name + [0]), off, PropHead(|value|, soff - STRINGS_BASE)),
                           off + 12, value + Zeros(Pad(|value|)))
    ensures Image(b', off + TokenLength(Prop(name, value)), soff + |name| + 1,
                  OpenTokens(AddItem(open, Property(name, value))))
  {
    hide Image, OpenTokens, Be32, Zeros, Patch;
    var t := Prop(name, value);
    ImageBounds(b, off, soff, OpenTokens(open));
    var head, tail := PropHead(|value|, soff - STRINGS_BASE), value + Zeros(Pad(|value|));
    PatchTwice(Patch(b, soff, name + [0]), off, head, tail);
    assert EncodeToken(t, soff - STRINGS_BASE) == head + tail;
    ImageAppend(b, off, soff, OpenTokens(open), t, b');
    PropTokens(open, name, value);
  }

  lemma LengthAligned(t: Token)
    ensures TokenLength(t) % 4 == 0
  {}

  // ---------------------------------------------------------------------
  // The finished blob
  // ---------------------------------------------------------------------

  /** Ten header words and the {0,0} entry that ends the reserve map. */
  function HeaderWords(total: nat, structLen: nat, stringsLen: nat): (ws: seq<nat>)
    ensures |ws| == 14
  {
    [FDT_MAGIC, total, STRUCT_BASE, STRINGS_BASE, FDT_HEADER_SIZE, FDT_VERSION, FDT_LAST_COMP_VERSION,
     FDT_HART_BASE, stringsLen, structLen, 0, 0, 0, 0]
  }

  /** The header of section 5.2, field by field. */
  lemma HeaderIs(total: nat, structLen: nat, stringsLen: nat)
    ensures HeaderWords(total, structLen, stringsLen) ==
      [0xd00dfeed, total, 56, 4152, 40, 17, 16, 0, stringsLen, structLen, 0, 0, 0, 0]
  {}

  lemma HeaderReads(blob: seq<byte>, structLen: nat, stringsLen: nat)
    requires |blob| < U32 && structLen < U32 && stringsLen < U32
    requires EncodeWords(HeaderWords(|blob|, structLen, stringsLen)) <= blob
    ensures |blob| >= STRUCT_BASE
    ensures forall k :: 0 <= k < 14 ==> WordOf(blob[4 * k..]) == HeaderWords(|blob|, structLen, stringsLen)[k]
  {
    hide WordOf, EncodeWords;
    var ws := HeaderWords(|blob|, structLen, stringsLen);
    forall k | 0 <= k < 14 ensures WordOf(blob[4 * k..]) == ws[k] {
      EncodedWordAt(ws, k, blob);
    }
  }

  lemma NoReservations(blob: seq<byte>)
    requires |blob| >= STRUCT_BASE
    requires forall k :: 10 <= k < 14 ==> WordOf(blob[4 * k..]) == 0
    ensures ReadReservations(blob[FDT_HEADER_SIZE..]) == Some([])
  {
    hide WordOf;
    var b := blob[FDT_HEADER_SIZE..];
    assert b == blob[4 * 10..] && b[4..] == blob[4 * 11..];
    assert b[8..] == blob[4 * 12..] && b[12..] == blob[4 * 13..];
  }

  /** A header over the encoded blocks of a tree makes a blob that reads as the tree. */
  lemma SerializedReads(blob: seq<byte>, root: Node, structLen: nat)
    requires STRINGS_BASE <= |blob| < U32 && STRUCT_BASE + structLen <= STRINGS_BASE
    requires EncodeWords(HeaderWords(|blob|, structLen, |blob| - STRINGS_BASE)) <= blob
    requires TokensOk(FlattenItem(Child(root)))
    requires blob[STRUCT_BASE..STRUCT_BASE + structLen] ==
             EncodeTokens(FlattenItem(Child(root))) + Be32(FDT_END)
    requires blob[STRINGS_BASE..] == EncodeStrings(FlattenItem(Child(root)))
    ensures ReadDtb(blob) == Some(Dtb(FDT_HART_BASE, [], root))
  {
    hide WordOf, EncodeWords, Be32, EncodeTokens, EncodeStrings, ReadTokens, ReadRoot, ReadReservations, TokensOk;
    var stringsLen := |blob| - STRINGS_BASE;
    HeaderReads(blob, structLen, stringsLen);
    var ws := HeaderWords(|blob|, structLen, stringsLen);
    assert forall k :: 0 <= k < 10 ==> HeaderField(blob, k) == WordOf(blob[4 * k..]) == ws[k];
    assert forall k :: 10 <= k < 14 ==> ws[k] == 0;
    NoReservations(blob);
    ReadEncoded(root, blob[STRUCT_BASE..STRUCT_BASE + structLen], blob[STRINGS_BASE..]);
    assert blob[STRINGS_BASE..STRINGS_BASE + stringsLen] == blob[STRINGS_BASE..];
  }

  /** A structure longer than the blob that should hold it makes a header no reader accepts. */
  lemma OverflowRefused(blob: seq<byte>, structLen: nat, stringsLen: nat)
    requires |blob| < U32 && structLen < U32 && stringsLen < U32
    requires EncodeWords(HeaderWords(|blob|, structLen, stringsLen)) <= blob
    requires STRUCT_BASE + structLen > |blob|
    ensures ReadDtb(blob) == None
  {
    hide WordOf, EncodeWords, ReadTokens, ReadRoot, ReadReservations;
    HeaderReads(blob, structLen, stringsLen);
    var ws := HeaderWords(|blob|, structLen, stringsLen);
    assert forall k :: 0 <= k < 10 ==> HeaderField(blob, k) == WordOf(blob[4 * k..]) == ws[k];
  }

  class Builder {
    const buf: array<byte>
    var structOff: nat
    var stringsOff: nat
    var depth: nat
    var err: bool
    /** The nodes not yet closed, root first; everything closed hangs below them. */
    ghost var open: seq<Node>

    ghost predicate Valid()
      reads this, buf
    {
      && |open| == depth + 1
      && Image(buf[..], structOff, stringsOff, OpenTokens(open))
    }

    // ----- primitives ---------------------------------------------------

    method StructWord(w: nat)
      requires structOff + 4 <= buf.Length
      modifies buf, this`structOff
      ensures structOff == old(structOff) + 4
      ensures buf[..] == Patch(old(buf[..]), old(structOff), Be32(w))
    {
      PutWord(structOff, w);
      structOff := structOff + 4;
    }

    /** be32 */
    method PutWord(off: nat, w: nat)
      requires off + 4 <= buf.Length
      modifies buf
      ensures buf[..] == Patch(old(buf[..]), off, Be32(w))
    {
      buf[off] := (w / 0x100_0000) % 256;
      buf[off + 1] := (w / 0x1_0000) % 256;
      buf[off + 2] := (w / 0x100) % 256;
      buf[off + 3] := w % 256;
    }

    method StructBytes(data: seq<byte>)
      requires structOff + |data| <= buf.Length
      modifies buf, this`structOff
      ensures structOff == old(structOff) + |data|
      ensures buf[..] == Patch(old(buf[..]), old(structOff), data)
    {
      forall i | 0 <= i < |data| { buf[structOff + i] := data[i]; }
      structOff := structOff + |data|;
    }

    method StructAlign()
      requires structOff + Pad(structOff) <= buf.Length
      modifies buf, this`structOff
      ensures structOff == old(structOff) + Pad(old(structOff))
      ensures buf[..] == Patch(old(buf[..]), old(structOff), Zeros(Pad(old(structOff))))
    {
      hide Patch, Pad, Zeros;
      ghost var b, off, n := buf[..], structOff, 0;
      PatchNothing(b, off);
      PadLeft(off, 0);
      while structOff % 4 != 0
        invariant n <= Pad(off) && structOff == off + n
        invariant structOff % 4 == 0 <==> n == Pad(off)
        invariant buf[..] == Patch(b, off, Zeros(n))
        decreases Pad(off) - n
      {
        PatchZero(b, off, n);
        buf[structOff] := 0;
        structOff := structOff + 1;
        n := n + 1;
        PadLeft(off, n);
      }
    }

    method StructString(s: seq<byte>)
      requires structOff % 4 == 0
      requires structOff + |s| + 1 + Pad(|s| + 1) <= buf.Length
      modifies buf, this`structOff
      ensures structOff == old(structOff) + |s| + 1 + Pad(|s| + 1)
      ensures buf[..] == Patch(old(buf[..]), old(structOff), s + [0] + Zeros(Pad(|s| + 1)))
    {
      hide Patch, Pad, Zeros;
      ghost var b, off := buf[..], structOff;
      PadFrom(off, |s| + 1);
      PatchTwice(b, off, s, [0]);
      StructBytes(s);
      PatchByte(buf[..], structOff, 0);
      buf[structOff] := 0;
      structOff := structOff + 1;
      assert |s + [0]| == |s| + 1;
      StructAlign();
      PatchTwice(b, off, s + [0], Zeros(Pad(|s| + 1)));
    }

    method StringsIntern(name: seq<byte>) returns (rel: nat)
      requires STRINGS_BASE <= stringsOff && stringsOff + |name| + 1 <= buf.Length
      modifies buf, this`stringsOff
      ensures rel == old(stringsOff) - STRINGS_BASE
      ensures stringsOff == old(stringsOff) + |name| + 1
      ensures buf[..] == Patch(old(buf[..]), old(stringsOff), name + [0])
    {
      rel := stringsOff - STRINGS_BASE;
      var data := name + [0];
      forall i | 0 <= i < |data| { buf[stringsOff + i] := data[i]; }
      stringsOff := stringsOff + |data|;
    }

    // ----- public API ---------------------------------------------------

    /** fdt_builder_init: opens the root node, whose name is empty. */
    constructor (buffer: array<byte>)
      requires STRINGS_BASE <= buffer.Length < U32
      modifies buffer
      ensures buf == buffer && Valid() && !err
      ensures open == [Node([], [])]
      ensures structOff == STRUCT_BASE + 8 && stringsOff == STRINGS_BASE
    {
      buf := buffer;
      structOff, stringsOff := STRUCT_BASE, STRINGS_BASE;
      depth, err := 0, false;
      open := [Node([], [])];
      new;
      hide Image, Patch, Be32, Zeros, OpenTokens;
      ghost var b := buf[..];
      RootOpened(b);
      StructWord(FDT_BEGIN_NODE);
      StructString([]);
    }

    /** fdt_node_push: a nameless child is refused. */
    method NodePush(name: seq<byte>) returns (ok: bool)
      requires Valid() && NulFree(name)
      requires Room(buf.Length, structOff, stringsOff, BeginNode(name))
      modifies buf, this`structOff, this`depth, this`open
      ensures Valid()
      ensures ok <==> name != [] && !err
      ensures open == if ok then old(open) + [Node(name, [])] else old(open)
      ensures structOff == old(structOff) + if ok then TokenLength(BeginNode(name)) else 0
    {
      hide Image, Patch, Be32, Zeros, OpenTokens;
      if name == [] || err { return false; }
      ghost var b, off := buf[..], structOff;
      ImageBounds(b, off, stringsOff, OpenTokens(open));
      StructWord(FDT_BEGIN_NODE);
      StructString(name);
      depth := depth + 1;
      PushImage(b, off, stringsOff, open, name);
      open := open + [Node(name, [])];
      ok := true;
    }

    /** fdt_node_pop: the root is never closed here. */
    method NodePop() returns (ok: bool)
      requires Valid()
      requires Room(buf.Length, structOff, stringsOff, EndNode)
      modifies buf, this`structOff, this`depth, this`open
      ensures Valid()
      ensures ok <==> old(depth) > 0 && !err
      ensures ok ==> var n := |old(open)| - 1; open == AddItem(old(open)[..n], Child(old(open)[n]))
      ensures !ok ==> open == old(open)
      ensures structOff == old(structOff) + if ok then 4 else 0
    {
      hide Image, Patch, Be32, OpenTokens;
      if err || depth == 0 { return false; }
      ghost var b, off := buf[..], structOff;
      StructWord(FDT_END_NODE);
      depth := depth - 1;
      PopImage(b, off, stringsOff, open);
      open := AddItem(open[..|open| - 1], Child(open[|open| - 1]));
      ok := true;
    }

    /** prop_begin */
    method PropBegin(name: seq<byte>, len: nat) returns (ok: bool)
      requires STRUCT_BASE <= structOff && structOff + 12 <= buf.Length
      requires STRINGS_BASE <= stringsOff && stringsOff + |name| + 1 <= buf.Length
      modifies buf, this`structOff, this`stringsOff
      ensures ok <==> !err
      ensures !ok ==> buf[..] == old(buf[..]) && structOff == old(structOff) && stringsOff == old(stringsOff)
      ensures ok ==> structOff == old(structOff) + 12 && stringsOff == old(stringsOff) + |name| + 1
      ensures ok ==>
                buf[..] == Patch(Patch(Patch(old(buf[..]), old(structOff), Be32(FDT_PROP) + Be32(len)),
                                       old(stringsOff), name + [0]),
                                 old(structOff) + 8, Be32(old(stringsOff) - STRINGS_BASE))
      ensures ok && structOff <= STRINGS_BASE ==>
                buf[..] == Patch(Patch(old(buf[..]), old(stringsOff), name + [0]),
                                 old(structOff), PropHead(len, old(stringsOff) - STRINGS_BASE))
    {
      hide Patch, Be32;
      if err { return false; }
      ghost var b, off, soff := buf[..], structOff, stringsOff;
      StructWord(FDT_PROP);
      StructWord(len);
      PatchTwice(b, off, Be32(FDT_PROP), Be32(len));
      var rel := StringsIntern(name);
      ghost var head := Be32(FDT_PROP) + Be32(len);
      if structOff <= STRINGS_BASE { PatchDisjoint(b, off, head, soff, name + [0]); }
      StructWord(rel);
      if structOff <= STRINGS_BASE { PatchTwice(Patch(b, soff, name + [0]), off, head, Be32(rel)); }
      ok := true;
    }

    /** fdt_prop_bytes */
    method PropBytes(name: seq<byte>, data: seq<byte>) returns (ok: bool)
      requires Valid() && NulFree(name)
      requires Room(buf.Length, structOff, stringsOff, Prop(name, data))
      modifies buf, this`structOff, this`stringsOff, this`open
      ensures Valid()
      ensures ok <==> !err
      ensures open == if ok then AddItem(old(open), Property(name, data)) else old(open)
      ensures Advanced(old(structOff), old(stringsOff), ok, name, data)
    {
      hide Image, Patch, Be32, Zeros, OpenTokens, PropHead;
      ghost var b, off, soff := buf[..], structOff, stringsOff;
      ImageBounds(b, off, soff, OpenTokens(open));
      ok := PropBegin(name, |data|);
      if ok {
        ghost var b1 := buf[..];
        if |data| > 0 { StructBytes(data); } else { PatchNothing(b1, off + 12); }
        assert Pad(structOff) == Pad(|data|);
        StructAlign();
        PatchTwice(b1, off + 12, data, Zeros(Pad(|data|)));
        PropImage(b, off, soff, open, name, data, buf[..]);
        open := AddItem(open, Property(name, data));
      }
    }

    /** How far a property moves the cursors. */
    ghost predicate Advanced(off: nat, soff: nat, ok: bool, name: seq<byte>, value: seq<byte>)
      reads this
    {
      && structOff == off + (if ok then TokenLength(Prop(name, value)) else 0)
      && stringsOff == soff + (if ok then |name| + 1 else 0)
    }

    /** fdt_prop_str: the value keeps its terminating NUL. */
    method PropStr(name: seq<byte>, str: seq<byte>) returns (ok: bool)
      requires Valid() && NulFree(name)
      requires Room(buf.Length, structOff, stringsOff, Prop(name, str + [0]))
      modifies buf, this`structOff, this`stringsOff, this`open
      ensures Valid()
      ensures ok <==> !err
      ensures open == if ok then AddItem(old(open), Property(name, str + [0])) else old(open)
      ensures Advanced(old(structOff), old(stringsOff), ok, name, str + [0])
    {
      hide Image, Patch, Be32, Zeros, OpenTokens, PropHead;
      ghost var b, off, soff := buf[..], structOff, stringsOff;
      ImageBounds(b, off, soff, OpenTokens(open));
      var data := str + [0];
      ok := PropBegin(name, |data|);
      if ok {
        ghost var b1 := buf[..];
        StructBytes(data);
        assert Pad(structOff) == Pad(|data|);
        StructAlign();
        PatchTwice(b1, off + 12, data, Zeros(Pad(|data|)));
        PropImage(b, off, soff, open, name, data, buf[..]);
        open := AddItem(open, Property(name, data));
      }
    }

    /** fdt_prop_empty */
    method PropEmpty(name: seq<byte>) returns (ok: bool)
      requires Valid() && NulFree(name)
      requires Room(buf.Length, structOff, stringsOff, Prop(name, []))
      modifies buf, this`structOff, this`stringsOff, this`open
      ensures Valid()
      ensures ok <==> !err
      ensures open == if ok then AddItem(old(open), Property(name, [])) else old(open)
      ensures Advanced(old(structOff), old(stringsOff), ok, name, [])
    {
      hide Image, Patch, Be32, OpenTokens, PropHead;
      ghost var b, off, soff := buf[..], structOff, stringsOff;
      ImageBounds(b, off, soff, OpenTokens(open));
      ok := PropBegin(name, 0);
      if ok {
        assert [] + Zeros(0) == [];
        PatchNothing(buf[..], off + 12);
        PropImage(b, off, soff, open, name, [], buf[..]);
        open := AddItem(open, Property(name, []));
      }
    }

    /** fdt_prop_ncells: one to four big-endian cells. */
    method PropCells(name: seq<byte>, cells: seq<nat>) returns (ok: bool)
      requires Valid() && NulFree(name)
      requires forall i :: 0 <= i < |cells| ==> cells[i] < U32
      requires Room(buf.Length, structOff, stringsOff, Prop(name, EncodeWords(cells)))
      modifies buf, this`structOff, this`stringsOff, this`open
      ensures Valid()
      ensures ok <==> !err && 1 <= |cells| <= 4
      ensures open == if ok then AddItem(old(open), Property(name, EncodeWords(cells))) else old(open)
      ensures Advanced(old(structOff), old(stringsOff), ok, name, EncodeWords(cells))
    {
      hide Image, Patch, Be32, OpenTokens, PropHead;
      ghost var b, off, soff := buf[..], structOff, stringsOff;
      ImageBounds(b, off, soff, OpenTokens(open));
      if |cells| == 0 || |cells| > FDT_MAX_CELLS { return false; }
      ok := PropBegin(name, 4 * |cells|);
      if ok {
        ghost var b1 := buf[..];
        PatchNothing(b1, off + 12);
        for i := 0 to |cells|
          invariant structOff == off + 12 + 4 * i && |b1| == buf.Length
          invariant stringsOff == soff + |name| + 1 && open == old(open)
          invariant buf[..] == Patch(b1, off + 12, EncodeWords(cells[..i]))
        {
          assert cells[..i + 1][..i] == cells[..i];
          StructBytes(Be32(cells[i]));
          PatchTwice(b1, off + 12, EncodeWords(cells[..i]), Be32(cells[i]));
        }
        ghost var data := EncodeWords(cells);
        assert cells[..|cells|] == cells;
        assert data + Zeros(Pad(|data|)) == data;
        PropImage(b, off, soff, open, name, data, buf[..]);
        open := AddItem(open, Property(name, data));
      }
    }

    // ----- serialisation -------------------------------------------------

    /** Stores header word `k` after the words before it. */
    method HeaderWord(ghost ws: seq<nat>, k: nat, w: nat)
      requires 4 * k + 4 <= STRUCT_BASE <= buf.Length
      requires k < |ws| && ws[k] == w && buf[..4 * k] == EncodeWords(ws[..k])
      modifies buf
      ensures buf[..4 * k + 4] == EncodeWords(ws[..k + 1])
      ensures forall i :: STRUCT_BASE <= i < buf.Length ==> buf[i] == old(buf[i])
    {
      hide Be32;
      ghost var b := buf[..];
      PutWord(4 * k, w);
      assert ws[..k + 1][..k] == ws[..k];
      assert buf[..4 * k + 4] == b[..4 * k] + Be32(w);
    }

    /** The magic, the total and the three block offsets. */
    method WriteLayout(ghost ws: seq<nat>, total: nat)
      requires STRUCT_BASE <= buf.Length
      requires |ws| == 14 && ws[..5] == [FDT_MAGIC, total, STRUCT_BASE, STRINGS_BASE, FDT_HEADER_SIZE]
      modifies buf
      ensures buf[..20] == EncodeWords(ws[..5])
      ensures forall i :: STRUCT_BASE <= i < buf.Length ==> buf[i] == old(buf[i])
    {
      hide EncodeWords;
      assert forall k :: 0 <= k < 5 ==> ws[k] == ws[..5][k];
      NoWords(ws[..0], buf[..0]);
      HeaderWord(ws, 0, FDT_MAGIC);
      HeaderWord(ws, 1, total);
      HeaderWord(ws, 2, STRUCT_BASE);
      HeaderWord(ws, 3, STRINGS_BASE);
      HeaderWord(ws, 4, FDT_HEADER_SIZE);
    }

    /** The ten header words of fdt_serialize. */
    method WriteHeader(total: nat, structLen: nat, stringsLen: nat)
      requires STRUCT_BASE <= buf.Length
      modifies buf
      ensures buf[..FDT_HEADER_SIZE] == EncodeWords(HeaderWords(total, structLen, stringsLen)[..10])
      ensures forall i :: STRUCT_BASE <= i < buf.Length ==> buf[i] == old(buf[i])
    {
      hide EncodeWords;
      ghost var ws := HeaderWords(total, structLen, stringsLen);
      WriteLayout(ws, total);
      HeaderWord(ws, 5, FDT_VERSION);
      HeaderWord(ws, 6, FDT_LAST_COMP_VERSION);
      HeaderWord(ws, 7, FDT_HART_BASE);
      HeaderWord(ws, 8, stringsLen);
      HeaderWord(ws, 9, structLen);
    }

    /** be64 twice: the reserve map of fdt_serialize is its terminator alone. */
    method WriteReserveMap(ghost ws: seq<nat>)
      requires STRUCT_BASE <= buf.Length
      requires |ws| == 14 && ws[10] == ws[11] == ws[12] == ws[13] == 0
      requires buf[..FDT_HEADER_SIZE] == EncodeWords(ws[..10])
      modifies buf
      ensures buf[..STRUCT_BASE] == EncodeWords(ws)
      ensures forall i :: STRUCT_BASE <= i < buf.Length ==> buf[i] == old(buf[i])
    {
      hide EncodeWords;
      HeaderWord(ws, 10, 0);
      HeaderWord(ws, 11, 0);
      HeaderWord(ws, 12, 0);
      HeaderWord(ws, 13, 0);
      assert ws[..14] == ws;
    }

    /** The end tokens of fdt_serialize close the root and the structure block. */
    method CloseStructure()
      requires Valid() && depth == 0
      requires structOff + 8 <= buf.Length
      modifies buf, this`structOff
      ensures structOff == old(structOff) + 8 && TokensOk(FlattenItem(Child(open[0])))
      ensures STRUCT_BASE <= structOff && STRINGS_BASE <= stringsOff <= buf.Length < U32
      ensures structOff <= STRINGS_BASE ==>
                && buf[STRUCT_BASE..structOff] == EncodeTokens(FlattenItem(Child(open[0]))) + Be32(FDT_END)
                && buf[STRINGS_BASE..stringsOff] == EncodeStrings(FlattenItem(Child(open[0])))
    {
      hide Patch, Be32, OpenTokens, EncodeTokens, EncodeStrings, TokensOk, FlattenItem;
      ghost var b, off, ts := buf[..], structOff, OpenTokens(open);
      StructWord(FDT_END_NODE);
      PatchNothing(b, stringsOff);
      ImageAppend(b, off, stringsOff, ts, EndNode, buf[..]);
      assert open == [open[0]];
      RootTokens(open[0]);
      ghost var b1 := buf[..];
      StructAlign();
      assert Zeros(Pad(off + 4)) == [];
      PatchNothing(b1, off + 4);
      StructWord(FDT_END);
      if structOff <= STRINGS_BASE {
        PatchExtends(b1, STRUCT_BASE, off + 4, Be32(FDT_END));
        PatchElsewhere(b1, off + 4, Be32(FDT_END), STRINGS_BASE, stringsOff);
        assert buf[..][STRUCT_BASE..structOff] == buf[STRUCT_BASE..structOff];
        assert buf[..][STRINGS_BASE..stringsOff] == buf[STRINGS_BASE..stringsOff];
        assert b1[STRUCT_BASE..off + 4] == EncodeTokens(FlattenItem(Child(open[0])));
      }
    }

    /**
      fdt_serialize. A structure within its window makes a blob from which
      the reader recovers the whole tree; one that reaches beyond the end of
      the strings makes a blob that no reader accepts.
     */
    method Serialize() returns (total: nat)
      requires Valid() && structOff + 8 <= buf.Length
      modifies buf, this`structOff, this`err
      ensures total == if !old(err) && depth == 0 && stringsOff <= FDT_MAX_BUF then stringsOff else 0
      ensures err == (old(err) || (depth == 0 && stringsOff > FDT_MAX_BUF))
      ensures total > 0 && old(structOff) + 8 <= STRINGS_BASE ==>
                total <= buf.Length && ReadDtb(buf[..total]) == Some(Dtb(FDT_HART_BASE, [], open[0]))
      ensures total > 0 && old(structOff) + 8 > stringsOff ==>
                total <= buf.Length && ReadDtb(buf[..total]) == None
    {
      hide Image, Be32, OpenTokens, EncodeTokens, EncodeStrings, EncodeWords, TokensOk, FlattenItem, ReadDtb;
      if err || depth != 0 { return 0; }
      CloseStructure();
      var structLen := structOff - STRUCT_BASE;
      var stringsLen := stringsOff - STRINGS_BASE;
      total := STRINGS_BASE + stringsLen;
      if total > FDT_MAX_BUF {
        err := true;
        return 0;
      }
      ghost var b := buf[..];
      WriteHeader(total, structLen, stringsLen);
      WriteReserveMap(HeaderWords(total, structLen, stringsLen));
      ghost var h, end := buf[..], structOff;
      var i := structOff;
      while i < STRINGS_BASE
        invariant end == structOff && !err && end <= i && (i <= STRINGS_BASE || i == end)
        invariant buf[..end] == h[..end]
        invariant buf[STRINGS_BASE..] == h[STRINGS_BASE..]
        invariant end >= STRINGS_BASE ==> buf[..] == h
      {
        buf[i] := 0;
        i := i + 1;
      }
      if structOff <= STRINGS_BASE {
        ghost var blob := buf[..total];
        assert h[STRUCT_BASE..] == b[STRUCT_BASE..];
        assert blob[..STRUCT_BASE] == h[..STRUCT_BASE];
        assert blob[STRUCT_BASE..structOff] == h[..structOff][STRUCT_BASE..];
        assert h[..structOff][STRUCT_BASE..] == h[STRUCT_BASE..][..structLen];
        assert b[STRUCT_BASE..structOff] == b[STRUCT_BASE..][..structLen];
        assert blob[STRINGS_BASE..] == h[STRINGS_BASE..][..stringsLen] == b[STRINGS_BASE..stringsOff];
        SerializedReads(blob, open[0], structLen);
      } else if structOff > total {
        assert buf[..] == h && buf[..total][..STRUCT_BASE] == h[..STRUCT_BASE];
        OverflowRefused(buf[..total], structLen, stringsLen);
      }
    }
  }

  // ---------------------------------------------------------------------
  // Whole runs
  // ---------------------------------------------------------------------

  datatype Call =
    | Push(name: seq<byte>)
    | Pop
    | Bytes(name: seq<byte>, data: seq<byte>)
    | Str(name: seq<byte>, str: seq<byte>)
    | Empty(name: seq<byte>)
    | Cells(name: seq<byte>, cells: seq<nat>)

  /** C strings and 32-bit cells; nothing else is asked of a caller. */
  ghost predicate CallOk(c: Call) {
    match c
    case Push(name) => NulFree(name)
    case Pop => true
    case Cells(name, cells) => NulFree(name) && forall i :: 0 <= i < |cells| ==> cells[i] < U32
    case _ => NulFree(c.name)
  }

  /** The item a property call adds. */
  function CallItem(c: Call): Item
    requires !c.Push? && !c.Pop?
  {
    match c
    case Bytes(name, data) => Property(name, data)
    case Str(name, str) => Property(name, str + [0])
    case Empty(name) => Property(name, [])
    case Cells(name, cells) => Property(name, EncodeWords(cells))
  }

  /** The calls that return a handle. */
  predicate Accepted(open: seq<Node>, c: Call) {
    match c
    case Push(name) => name != []
    case Pop => |open| >= 2
    case Cells(_, cells) => 1 <= |cells| <= 4
    case _ => true
  }

  function ApplyCall(open: seq<Node>, c: Call): (r: seq<Node>)
    requires open != [] && Accepted(open, c)
    ensures r != []
  {
    match c
    case Push(name) => open + [Node(name, [])]
    case Pop => AddItem(open[..|open| - 1], Child(open[|open| - 1]))
    case _ => AddItem(open, CallItem(c))
  }

  /** The nodes open after the calls, or nothing once a call has been refused. */
  function Describe(calls: seq<Call>): (r: Option<seq<Node>>)
    ensures r.Some? ==> r.value != []
  {
    if calls == [] then Some([Node([], [])])
    else match Describe(calls[..|calls| - 1])
      case None => None
      case Some(open) =>
        var c := calls[|calls| - 1];
        if Accepted(open, c) then Some(ApplyCall(open, c)) else None
  }

  function CallToken(c: Call): Token {
    match c
    case Push(name) => BeginNode(name)
    case Pop => EndNode
    case _ => Prop(CallItem(c).name, CallItem(c).value)
  }

  /** Structure bytes of the calls: the root opens with 8. */
  function StructBytesOf(calls: seq<Call>): nat {
    if calls == [] then 8
    else StructBytesOf(calls[..|calls| - 1]) + TokenLength(CallToken(calls[|calls| - 1]))
  }

  function StringBytesOf(calls: seq<Call>): nat {
    if calls == [] then 0
    else StringBytesOf(calls[..|calls| - 1]) + |NameBytes(CallToken(calls[|calls| - 1]))|
  }

  lemma {:induction false} SizesGrow(calls: seq<Call>, n: nat)
    requires n <= |calls|
    ensures StructBytesOf(calls[..n]) <= StructBytesOf(calls)
    ensures StringBytesOf(calls[..n]) <= StringBytesOf(calls)
    decreases |calls| - n
  {
    if n == |calls| {
      assert calls[..n] == calls;
    } else {
      SizesGrow(calls, n + 1);
      assert calls[..n + 1][..n] == calls[..n];
    }
  }

  /** One call on a builder; it returns a handle exactly when the call is accepted. */
  method Perform(b: Builder, c: Call) returns (ok: bool)
    requires b.Valid() && !b.err && CallOk(c)
    requires Room(b.buf.Length, b.structOff, b.stringsOff, CallToken(c))
    modifies b.buf, b`structOff, b`stringsOff, b`depth, b`open
    ensures b.Valid()
    ensures ok <==> Accepted(old(b.open), c)
    ensures ok ==> b.open == ApplyCall(old(b.open), c)
    ensures ok ==> b.structOff == old(b.structOff) + TokenLength(CallToken(c))
    ensures ok ==> b.stringsOff == old(b.stringsOff) + |NameBytes(CallToken(c))|
  {
    hide Image, EncodeWords;
    match c {
      case Push(name) => ok := b.NodePush(name);
      case Pop => ok := b.NodePop();
      case Bytes(name, data) => ok := b.PropBytes(name, data);
      case Str(name, str) => ok := b.PropStr(name, str);
      case Empty(name) => ok := b.PropEmpty(name);
      case Cells(name, cells) => ok := b.PropCells(name, cells);
    }
  }

  /**
    For every sequence of builder calls: a blob comes out exactly when no call
    is refused, every pushed node is popped and the total fits 16 KiB; and if
    the structure fits its window, reading the blob gives back the tree the
    calls describe. The window is not checked: a blob whose structure runs past
    its last string comes out too, and no reader accepts it.
   */
  method Build(calls: seq<Call>) returns (r: Option<seq<byte>>)
    requires forall i :: 0 <= i < |calls| ==> CallOk(calls[i])
    requires STRINGS_BASE + StructBytesOf(calls) + StringBytesOf(calls) + 8 < U32
    ensures r.Some? <==>
              && Describe(calls).Some?
              && |Describe(calls).value| == 1
              && 4152 + StringBytesOf(calls) <= 16384
    ensures r.Some? && StructBytesOf(calls) + 8 <= 4096 ==>
              ReadDtb(r.value) == Some(Dtb(0, [], Describe(calls).value[0]))
    ensures r.Some? && StructBytesOf(calls) + 8 > 4096 + StringBytesOf(calls) ==>
              ReadDtb(r.value) == None
  {
    hide Image, ReadDtb, Accepted, ApplyCall, CallToken, TokenLength, NameBytes, CallOk;
    var size := STRINGS_BASE + StructBytesOf(calls) + StringBytesOf(calls) + 8;
    var buffer := new byte[size](_ => 0);
    var b := new Builder(buffer);
    for i := 0 to |calls|
      invariant b.Valid() && !b.err && b.buf == buffer
      invariant Describe(calls[..i]) == Some(b.open)
      invariant b.structOff == STRUCT_BASE + StructBytesOf(calls[..i])
      invariant b.stringsOff == STRINGS_BASE + StringBytesOf(calls[..i])
    {
      assert calls[..i + 1][..i] == calls[..i];
      SizesGrow(calls, i + 1);
      var ok := Perform(b, calls[i]);
      if !ok {
        RefusedForever(calls, i + 1);
        return None;
      }
    }
    assert calls[..|calls|] == calls;
    var total := b.Serialize();
    r := if total > 0 then Some(buffer[..total]) else None;
  }

  lemma {:induction false} RefusedForever(calls: seq<Call>, n: nat)
    requires n <= |calls| && Describe(calls[..n]).None?
    ensures Describe(calls).None?
    decreases |calls| - n
  {
    if n == |calls| {
      assert calls[..n] == calls;
    } else {
      assert calls[..n + 1][..n] == calls[..n];
      RefusedForever(calls, n + 1);
    }
  }

  /** One property of 5000 bytes is accepted and makes such a blob. */
  lemma UncheckedWindow()
    ensures var calls := [Bytes([97], Zeros(5000))];
      && (forall i :: 0 <= i < |calls| ==> CallOk(calls[i]))
      && Describe(calls) == Some([Node([], [Property([97], Zeros(5000))])])
      && STRINGS_BASE + StringBytesOf(calls) <= FDT_MAX_BUF
      && StructBytesOf(calls) + 8 > FDT_STRUCT_MAX + StringBytesOf(calls)
  {
    var c := Bytes([97], Zeros(5000));
    assert [c][..0] == [];
    assert Describe([]) == Some([Node([], [])]);
    var root := Node([], []);
    assert root.items + [CallItem(c)] == [CallItem(c)];
    assert AddItem([root], CallItem(c)) == [Node([], [CallItem(c)])];
    assert Describe([c]) == Some(ApplyCall([root], c));
    assert StructBytesOf([]) == 8 && StringBytesOf([]) == 0;
    assert StructBytesOf([c]) == 8 + TokenLength(CallToken(c));
    assert StringBytesOf([c]) == |NameBytes(CallToken(c))|;
  }
}
