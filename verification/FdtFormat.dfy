/**
  The flattened device tree format, chapter 5 of the Devicetree Specification
  v0.4, as a reader would implement it, next to the byte encoding that the
  writer of src/device/fdt.c is proved to produce. `ReadEncoded` closes the
  round trip between the two.
 */
module FdtFormat {
  import opened Wrappers

  type byte = x: int | 0 <= x < 256

  const FDT_MAGIC: nat := 0xd00dfeed
  const FDT_VERSION: nat := 17
  const FDT_LAST_COMP_VERSION: nat := 16

  const FDT_BEGIN_NODE: nat := 1
  const FDT_END_NODE: nat := 2
  const FDT_PROP: nat := 3
  const FDT_END: nat := 9

  const FDT_HEADER_SIZE: nat := 40
  const U32: nat := 0x1_0000_0000

  /** A node keeps its properties and children in the order they were written. */
  datatype Node = Node(name: seq<byte>, items: seq<Item>)
  datatype Item = Property(name: seq<byte>, value: seq<byte>) | Child(node: Node)

  datatype Token =
    | BeginNode(name: seq<byte>)
    | EndNode
    | Prop(name: seq<byte>, value: seq<byte>)

  datatype Dtb = Dtb(bootCpu: nat, reserved: seq<(nat, nat)>, root: Node)

  // ---------------------------------------------------------------------
  // Bytes
  // ---------------------------------------------------------------------

  function Digit(v: nat, weight: nat): byte
    requires weight > 0
  {
    (v / weight) % 256
  }

  function Be32(v: nat): (b: seq<byte>)
    ensures |b| == 4
  {
    [Digit(v, 0x100_0000), Digit(v, 0x1_0000), Digit(v, 0x100), Digit(v, 1)]
  }

  /** The big-endian word at the front of `b`. */
  function WordOf(b: seq<byte>): nat
    requires |b| >= 4
  {
    (b[0] as nat) * 0x100_0000 + (b[1] as nat) * 0x1_0000 + (b[2] as nat) * 0x100 + b[3] as nat
  }

  lemma WordRoundTrip(v: nat, rest: seq<byte>)
    requires v < U32
    ensures WordOf(Be32(v) + rest) == v
  {
    Digits(v);
    hide Digit;
    var b := Be32(v) + rest;
    assert b[0] == Be32(v)[0] && b[1] == Be32(v)[1] && b[2] == Be32(v)[2] && b[3] == Be32(v)[3];
  }

  /** The four base-256 digits of a word. */
  lemma Digits(v: nat)
    requires v < U32
    ensures Digit(v, 0x100_0000) * 0x100_0000 + Digit(v, 0x1_0000) * 0x1_0000 + Digit(v, 0x100) * 0x100 + Digit(v, 1) == v
  {
    var q1, q2, q3 := v / 0x100, v / 0x1_0000, v / 0x100_0000;
    assert v == 0x100 * q1 + v % 256;
    assert q1 == 0x100 * q2 + q1 % 256;
    assert q2 == 0x100 * q3 + q2 % 256;
    assert q3 % 256 == q3;
  }

  function EncodeWords(ws: seq<nat>): (b: seq<byte>)
    ensures |b| == 4 * |ws|
  {
    if ws == [] then [] else EncodeWords(ws[..|ws| - 1]) + Be32(ws[|ws| - 1])
  }

  lemma NoWords(ws: seq<nat>, b: seq<byte>)
    requires ws == [] && b == []
    ensures EncodeWords(ws) == b
  {}

  lemma {:induction false} EncodedWordAt(ws: seq<nat>, k: nat, b: seq<byte>)
    requires k < |ws| && ws[k] < U32
    requires EncodeWords(ws) <= b
    ensures 4 * k + 4 <= |b| && WordOf(b[4 * k..]) == ws[k]
  {
    var n := |ws| - 1;
    if k == n {
      assert b[4 * k..] == Be32(ws[k]) + b[4 * k + 4..];
      WordRoundTrip(ws[k], b[4 * k + 4..]);
    } else {
      EncodedWordAt(ws[..n], k, b);
    }
  }

  /** Filler up to the next 4-byte boundary. */
  function Pad(n: nat): nat { (4 - n % 4) % 4 }

  /** The least padding to a multiple of four. */
  lemma PadIsLeast(n: nat)
    ensures (n + Pad(n)) % 4 == 0 && Pad(n) < 4
  {}

  function Zeros(n: nat): (b: seq<byte>)
    ensures |b| == n
  {
    seq(n, _ => 0)
  }

  ghost predicate NulFree(s: seq<byte>) { forall i :: 0 <= i < |s| ==> s[i] != 0 }

  /** The NUL-terminated string at the front of `b`. */
  function CString(b: seq<byte>): (r: Option<seq<byte>>)
    ensures r.Some? ==> |r.value| < |b|
  {
    if b == [] then None
    else if b[0] == 0 then Some([])
    else match CString(b[1..])
      case None => None
      case Some(s) => Some([b[0]] + s)
  }

  lemma {:induction false} CStringRoundTrip(s: seq<byte>, rest: seq<byte>)
    requires NulFree(s)
    ensures CString(s + [0] + rest) == Some(s)
  {
    if s != [] {
      CStringRoundTrip(s[1..], rest);
      assert (s + [0] + rest)[1..] == s[1..] + [0] + rest;
      assert [s[0]] + s[1..] == s;
    }
  }

  // ---------------------------------------------------------------------
  // The reader: header (5.2), reservations (5.3), tokens (5.4), strings (5.5)
  // ---------------------------------------------------------------------

  function Prepend(t: Token, r: Option<seq<Token>>): Option<seq<Token>> {
    match r case None => None case Some(ts) => Some([t] + ts)
  }

  /** What stands at the front of the structure block, and how many bytes it takes. */
  datatype Step = Bad | Last | Skip | Got(token: Token, length: nat)

  function NextToken(b: seq<byte>, strings: seq<byte>): (r: Step)
    ensures r.Got? ==> 4 <= r.length <= |b|
    ensures r.Skip? ==> 4 <= |b|
  {
    if |b| < 4 then Bad
    else if WordOf(b) == 9 then if |b| == 4 then Last else Bad
    else if WordOf(b) == 4 then Skip
    else if WordOf(b) == 2 then Got(EndNode, 4)
    else if WordOf(b) == 1 then NextBegin(b)
    else if WordOf(b) == 3 then NextProp(b, strings)
    else Bad
  }

  function NextBegin(b: seq<byte>): (r: Step)
    requires |b| >= 4
    ensures r.Got? ==> 4 <= r.length <= |b|
    ensures !r.Skip?
  {
    match CString(b[4..])
    case None => Bad
    case Some(name) =>
      var n := 4 + |name| + 1 + Pad(|name| + 1);
      if n > |b| then Bad else Got(BeginNode(name), n)
  }

  function NextProp(b: seq<byte>, strings: seq<byte>): (r: Step)
    requires |b| >= 4
    ensures r.Got? ==> 4 <= r.length <= |b|
    ensures !r.Skip?
  {
    if |b| < 12 then Bad
    else
      var len, nameOff := WordOf(b[4..]), WordOf(b[8..]);
      var n := 12 + len + Pad(len);
      if n > |b| || nameOff > |strings| then Bad
      else match CString(strings[nameOff..])
        case None => Bad
        case Some(name) => Got(Prop(name, b[12..12 + len]), n)
  }

  function ReadTokens(b: seq<byte>, strings: seq<byte>): Option<seq<Token>>
    decreases |b|
  {
    match NextToken(b, strings)
    case Bad => None
    case Last => Some([])
    case Skip => ReadTokens(b[4..], strings)
    case Got(token, n) => Prepend(token, ReadTokens(b[n..], strings))
  }

  /** The items of an open node up to its end token, and what follows it. */
  function ReadItems(ts: seq<Token>): (r: Option<(seq<Item>, seq<Token>)>)
    ensures r.Some? ==> |r.value.1| < |ts|
    decreases |ts|
  {
    if ts == [] then None
    else match ts[0]
      case EndNode => Some(([], ts[1..]))
      case Prop(name, value) =>
        (match ReadItems(ts[1..])
          case None => None
          case Some((items, rest)) => Some(([Property(name, value)] + items, rest)))
      case BeginNode(name) =>
        match ReadItems(ts[1..])
          case None => None
          case Some((inner, afterChild)) =>
            match ReadItems(afterChild)
              case None => None
              case Some((items, rest)) => Some(([Child(Node(name, inner))] + items, rest))
  }

  /** Exactly one root node, and nothing after it. */
  function ReadRoot(ts: seq<Token>): Option<Node> {
    if ts == [] || !ts[0].BeginNode? then None
    else match ReadItems(ts[1..])
      case None => None
      case Some((items, rest)) => if rest == [] then Some(Node(ts[0].name, items)) else None
  }

  function ReadReservations(b: seq<byte>): Option<seq<(nat, nat)>> {
    if |b| < 16 then None
    else
      var address := WordOf(b) * U32 + WordOf(b[4..]);
      var size := WordOf(b[8..]) * U32 + WordOf(b[12..]);
      if address == 0 && size == 0 then Some([])
      else match ReadReservations(b[16..])
        case None => None
        case Some(rest) => Some([(address, size)] + rest)
  }

  function HeaderField(blob: seq<byte>, k: nat): nat
    requires |blob| >= 40 && k < 10
  {
    WordOf(blob[4 * k..])
  }

  function ReadDtb(blob: seq<byte>): Option<Dtb> {
    if |blob| < 40 then None
    else
      var total, offStruct, offStrings := HeaderField(blob, 1), HeaderField(blob, 2), HeaderField(blob, 3);
      var offRsv := HeaderField(blob, 4);
      var sizeStrings, sizeStruct := HeaderField(blob, 8), HeaderField(blob, 9);
      if || HeaderField(blob, 0) != 0xd00dfeed
         || HeaderField(blob, 5) < 16
         || HeaderField(blob, 6) > 17
         || total != |blob|
         || offRsv > total || offRsv % 8 != 0
         || offStruct + sizeStruct > total || offStruct % 4 != 0
         || offStrings + sizeStrings > total
      then None
      else
        var strings := blob[offStrings..offStrings + sizeStrings];
        match ReadReservations(blob[offRsv..])
          case None => None
          case Some(reserved) =>
            match ReadTokens(blob[offStruct..offStruct + sizeStruct], strings)
              case None => None
              case Some(ts) =>
                match ReadRoot(ts)
                  case None => None
                  case Some(root) => Some(Dtb(HeaderField(blob, 7), reserved, root))
  }

  // ---------------------------------------------------------------------
  // The encoding
  // ---------------------------------------------------------------------

  function TokenLength(t: Token): nat {
    match t
    case BeginNode(name) => 4 + |name| + 1 + Pad(|name| + 1)
    case EndNode => 4
    case Prop(_, value) => 12 + |value| + Pad(|value|)
  }

  function EncodeToken(t: Token, nameOff: nat): (b: seq<byte>)
    ensures |b| == TokenLength(t)
  {
    match t
    case BeginNode(name) => Be32(FDT_BEGIN_NODE) + name + [0] + Zeros(Pad(|name| + 1))
    case EndNode => Be32(FDT_END_NODE)
    case Prop(_, value) =>
      Be32(FDT_PROP) + Be32(|value|) + Be32(nameOff) + value + Zeros(Pad(|value|))
  }

  /** The strings block: one NUL-terminated name per property, never shared. */
  function EncodeStrings(ts: seq<Token>): seq<byte> {
    if ts == [] then []
    else
      var t := ts[|ts| - 1];
      EncodeStrings(ts[..|ts| - 1]) + if t.Prop? then t.name + [0] else []
  }

  /** The structure block; each property points at the name just added to the strings. */
  function EncodeTokens(ts: seq<Token>): seq<byte> {
    if ts == [] then []
    else
      var front := ts[..|ts| - 1];
      EncodeTokens(front) + EncodeToken(ts[|ts| - 1], |EncodeStrings(front)|)
  }

  lemma EncodeAppend(ts: seq<Token>, t: Token)
    ensures EncodeTokens(ts + [t]) == EncodeTokens(ts) + EncodeToken(t, |EncodeStrings(ts)|)
    ensures EncodeStrings(ts + [t]) == EncodeStrings(ts) + if t.Prop? then t.name + [0] else []
  {
    assert (ts + [t])[..|ts|] == ts;
  }

  function FlattenItems(items: seq<Item>): seq<Token> {
    if items == [] then []
    else FlattenItem(items[0]) + FlattenItems(items[1..])
  }

  function FlattenItem(item: Item): seq<Token> {
    match item
    case Property(name, value) => [Prop(name, value)]
    case Child(node) => [BeginNode(node.name)] + FlattenItems(node.items) + [EndNode]
  }

  lemma {:induction false} FlattenAppend(items: seq<Item>, item: Item)
    ensures FlattenItems(items + [item]) == FlattenItems(items) + FlattenItem(item)
  {
    hide FlattenItem;
    if items == [] {
      assert ([item])[1..] == [];
      assert [] + [item] == [item];
      assert FlattenItems([item]) == FlattenItem(item) + [];
    } else {
      FlattenAppend(items[1..], item);
      assert (items + [item])[1..] == items[1..] + [item];
      assert (items + [item])[0] == items[0];
    }
  }

  // ---------------------------------------------------------------------
  // Round trip
  // ---------------------------------------------------------------------

  ghost predicate TokenOk(t: Token) {
    match t
    case BeginNode(name) => NulFree(name)
    case EndNode => true
    case Prop(name, value) => NulFree(name) && |value| < U32
  }

  ghost predicate TokensOk(ts: seq<Token>) { forall i :: 0 <= i < |ts| ==> TokenOk(ts[i]) }

  lemma NextBeginRoundTrip(name: seq<byte>, rest: seq<byte>)
    requires NulFree(name)
    ensures NextBegin(EncodeToken(BeginNode(name), 0) + rest) ==
            Got(BeginNode(name), TokenLength(BeginNode(name)))
    ensures WordOf(EncodeToken(BeginNode(name), 0) + rest) == FDT_BEGIN_NODE
  {
    var b := EncodeToken(BeginNode(name), 0) + rest;
    var after := Zeros(Pad(|name| + 1)) + rest;
    assert b == Be32(FDT_BEGIN_NODE) + (name + [0] + after);
    WordRoundTrip(FDT_BEGIN_NODE, name + [0] + after);
    assert b[4..] == name + [0] + after;
    CStringRoundTrip(name, after);
  }

  lemma NextPropRoundTrip(name: seq<byte>, value: seq<byte>, nameOff: nat, rest: seq<byte>,
                          strings: seq<byte>, tail: seq<byte>)
    requires NulFree(name) && |value| < U32 && nameOff < U32
    requires nameOff <= |strings| && strings[nameOff..] == name + [0] + tail
    ensures NextProp(EncodeToken(Prop(name, value), nameOff) + rest, strings) ==
            Got(Prop(name, value), TokenLength(Prop(name, value)))
    ensures WordOf(EncodeToken(Prop(name, value), nameOff) + rest) == FDT_PROP
  {
    hide WordOf, Be32, Pad, Zeros;
    var b := EncodeToken(Prop(name, value), nameOff) + rest;
    var after := value + (Zeros(Pad(|value|)) + rest);
    assert b == Be32(FDT_PROP) + (Be32(|value|) + (Be32(nameOff) + after));
    WordRoundTrip(FDT_PROP, Be32(|value|) + (Be32(nameOff) + after));
    assert b[4..] == Be32(|value|) + (Be32(nameOff) + after);
    WordRoundTrip(|value|, Be32(nameOff) + after);
    assert b[8..] == Be32(nameOff) + after;
    WordRoundTrip(nameOff, after);
    assert b[12..] == after;
    assert b[12..12 + |value|] == value;
    CStringRoundTrip(name, tail);
  }

  /** Reading one encoded token gives the token back and leaves the rest. */
  lemma ReadOne(t: Token, nameOff: nat, rest: seq<byte>, strings: seq<byte>, tail: seq<byte>)
    requires TokenOk(t) && nameOff < U32
    requires t.Prop? ==> nameOff <= |strings| && strings[nameOff..] == t.name + [0] + tail
    ensures ReadTokens(EncodeToken(t, nameOff) + rest, strings) == Prepend(t, ReadTokens(rest, strings))
  {
    hide NextBegin, NextProp, WordOf, Be32;
    var b := EncodeToken(t, nameOff) + rest;
    match t {
      case EndNode => WordRoundTrip(FDT_END_NODE, rest);
      case BeginNode(name) => NextBeginRoundTrip(name, rest);
      case Prop(name, value) => NextPropRoundTrip(name, value, nameOff, rest, strings, tail);
    }
    assert NextToken(b, strings) == Got(t, TokenLength(t));
    assert b[TokenLength(t)..] == rest;
  }

  function PrependAll(ts: seq<Token>, r: Option<seq<Token>>): Option<seq<Token>> {
    match r case None => None case Some(us) => Some(ts + us)
  }

  /** Reading an encoded token list against any strings block that extends its own. */
  lemma {:induction false} ReadAll(ts: seq<Token>, rest: seq<byte>, strings: seq<byte>)
    requires TokensOk(ts)
    requires EncodeStrings(ts) <= strings && |strings| < U32
    ensures ReadTokens(EncodeTokens(ts) + rest, strings) == PrependAll(ts, ReadTokens(rest, strings))
  {
    hide EncodeToken, TokenOk, ReadTokens, Prepend, PrependAll;
    if ts == [] {
      assert EncodeTokens(ts) + rest == rest;
      PrependNone(ReadTokens(rest, strings));
    } else {
      var n := |ts| - 1;
      var front, t := ts[..n], ts[n];
      var off := |EncodeStrings(front)|;
      var mid := EncodeToken(t, off) + rest;
      assert EncodeTokens(ts) + rest == EncodeTokens(front) + mid;
      ReadAll(front, mid, strings);
      if t.Prop? {
        assert strings[off..] == t.name + [0] + strings[off + |t.name| + 1..];
        ReadOne(t, off, rest, strings, strings[off + |t.name| + 1..]);
      } else {
        ReadOne(t, off, rest, strings, []);
      }
      assert ts == front + [t];
      PrependLast(front, t, ReadTokens(rest, strings));
    }
  }

  lemma PrependNone(r: Option<seq<Token>>)
    ensures PrependAll([], r) == r
  {
    if r.Some? { assert [] + r.value == r.value; }
  }

  lemma PrependLast(ts: seq<Token>, t: Token, r: Option<seq<Token>>)
    ensures PrependAll(ts, Prepend(t, r)) == PrependAll(ts + [t], r)
  {
    if r.Some? { assert ts + ([t] + r.value) == ts + [t] + r.value; }
  }

  /** Nesting is recovered: the items written into a node are read back from it. */
  lemma {:induction false} ReadItemsRoundTrip(items: seq<Item>, rest: seq<Token>)
    ensures ReadItems(FlattenItems(items) + [EndNode] + rest) == Some((items, rest))
    decreases items
  {
    if items == [] {
      assert ([EndNode] + rest)[1..] == rest;
    } else {
      var others := FlattenItems(items[1..]) + [EndNode] + rest;
      ReadItemsRoundTrip(items[1..], rest);
      assert FlattenItems(items) + [EndNode] + rest == FlattenItem(items[0]) + others;
      if items[0].Child? {
        assert items[0].node < items[0] && items[0] in items;
        var node := items[0].node;
        ReadItemsRoundTrip(node.items, others);
        ReadChild(node, others, items[1..], rest);
      } else {
        assert ([Prop(items[0].name, items[0].value)] + others)[1..] == others;
      }
      assert items == [items[0]] + items[1..];
    }
  }

  lemma ReadChild(node: Node, others: seq<Token>, items: seq<Item>, rest: seq<Token>)
    requires ReadItems(FlattenItems(node.items) + [EndNode] + others) == Some((node.items, others))
    requires ReadItems(others) == Some((items, rest))
    ensures ReadItems(FlattenItem(Child(node)) + others) == Some(([Child(node)] + items, rest))
  {
    var ts := FlattenItem(Child(node)) + others;
    assert ts[1..] == FlattenItems(node.items) + [EndNode] + others;
  }

  lemma ReadRootRoundTrip(root: Node)
    ensures ReadRoot(FlattenItem(Child(root))) == Some(root)
  {
    ReadItemsRoundTrip(root.items, []);
    assert FlattenItem(Child(root))[1..] == FlattenItems(root.items) + [EndNode] + [];
  }

  /** The structure and strings blocks of a tree read back as that tree. */
  lemma ReadEncoded(root: Node, structure: seq<byte>, strings: seq<byte>)
    requires TokensOk(FlattenItem(Child(root)))
    requires structure == EncodeTokens(FlattenItem(Child(root))) + Be32(FDT_END)
    requires strings == EncodeStrings(FlattenItem(Child(root))) && |strings| < U32
    ensures ReadTokens(structure, strings).Some?
    ensures ReadRoot(ReadTokens(structure, strings).value) == Some(root)
  {
    var ts := FlattenItem(Child(root));
    ReadAll(ts, Be32(FDT_END), strings);
    WordRoundTrip(FDT_END, []);
    assert Be32(FDT_END) + [] == Be32(FDT_END);
    assert ReadTokens(Be32(FDT_END), strings) == Some([]);
    assert ts + [] == ts;
    ReadRootRoundTrip(root);
  }
}
