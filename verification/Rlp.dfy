/** Strict RLP: the encoder, and two decoders written independently of each other. */
module Rlp {
  import opened Words
  import opened BigEndian

  datatype Item = Bytes(bytes: seq<byte>) | List(items: seq<Item>)

  const MAX_LENGTH := 0x1_0000_0000_0000_0000

  // ----- the encoder -----

  function HeaderSize(n: nat): nat {
    if n <= 55 then 1 else 1 + |Be(n)|
  }

  function Size(x: Item): nat
    decreases x, 0
  {
    match x
    case Bytes(b) => if |b| == 1 && b[0] < 0x80 then 1 else HeaderSize(|b|) + |b|
    case List(items) => HeaderSize(SizeAll(items)) + SizeAll(items)
  }

  function SizeAll(items: seq<Item>): nat
    decreases items, 1
  {
    if items == [] then 0 else Size(items[0]) + SizeAll(items[1..])
  }

  /** Every payload is short enough for its length to take eight bytes. */
  predicate Encodable(x: Item)
    decreases x, 0
  {
    match x
    case Bytes(b) => |b| < MAX_LENGTH
    case List(items) => SizeAll(items) < MAX_LENGTH && EncodableAll(items)
  }

  predicate EncodableAll(items: seq<Item>)
    decreases items, 1
  {
    items == [] || (Encodable(items[0]) && EncodableAll(items[1..]))
  }

  const STRING_BASE: byte := 0x80
  const LIST_BASE: byte := 0xC0

  function Header(base: byte, n: nat): (r: seq<byte>)
    requires base <= LIST_BASE && n < MAX_LENGTH
    ensures |r| == HeaderSize(n)
  {
    if n <= 55 then [base + n]
    else
      BeFitsEight(n);
      [base + 55 + |Be(n)|] + Be(n)
  }

  function EncBytes(b: seq<byte>): (r: seq<byte>)
    requires |b| < MAX_LENGTH
    ensures |r| == Size(Bytes(b))
  {
    if |b| == 1 && b[0] < 0x80 then b else Header(STRING_BASE, |b|) + b
  }

  function Enc(x: Item): (r: seq<byte>)
    requires Encodable(x)
    ensures |r| == Size(x)
    decreases x, 0
  {
    match x
    case Bytes(b) => EncBytes(b)
    case List(items) => Header(LIST_BASE, SizeAll(items)) + EncAll(items)
  }

  function EncAll(items: seq<Item>): (r: seq<byte>)
    requires EncodableAll(items)
    ensures |r| == SizeAll(items)
    decreases items, 1
  {
    if items == [] then [] else Enc(items[0]) + EncAll(items[1..])
  }

  // ----- the decoder that builds the item -----

  datatype Parsed = Parsed(item: Item, end: nat)

  function RlpItem(b: seq<byte>, off: nat, end: nat): (r: Option<Parsed>)
    requires end <= |b|
    ensures r.Some? ==> off < r.value.end <= end
    decreases end - off, 0
  {
    if off >= end then None
    else
      var x := b[off];
      if x < 0x80 then Some(Parsed(Bytes([x]), off + 1))
      else if x <= 0xB7 then
        var n := x - 0x80;
        if end - off - 1 < n then None
        else if n == 1 && b[off + 1] < 0x80 then None
        else Some(Parsed(Bytes(b[off + 1..off + 1 + n]), off + 1 + n))
      else if x <= 0xBF then
        var ll := x - 0xB7;
        var n :- LongLength(b, off, end, ll);
        var s := off + 1 + ll;
        Some(Parsed(Bytes(b[s..s + n]), s + n))
      else if x <= 0xF7 then
        var n := x - 0xC0;
        if end - off - 1 < n then None
        else
          var items :- RlpList(b, off + 1, off + 1 + n);
          Some(Parsed(List(items), off + 1 + n))
      else
        var ll := x - 0xF7;
        var n :- LongLength(b, off, end, ll);
        var s := off + 1 + ll;
        var items :- RlpList(b, s, s + n);
        Some(Parsed(List(items), s + n))
  }

  /** The length field of a long form: minimal, above 55, and covered by the input. */
  function LongLength(b: seq<byte>, off: nat, end: nat, ll: nat): (r: Option<nat>)
    requires off < end <= |b| && 1 <= ll
    ensures r.Some? ==> off + 1 + ll + r.value <= end && r.value > 55
  {
    if end - off - 1 < ll then None
    else
      var lb := b[off + 1..off + 1 + ll];
      if lb[0] == 0 then None
      else
        var n := FromBe(lb);
        if n <= 55 || end - off - 1 - ll < n then None else Some(n)
  }

  function RlpList(b: seq<byte>, off: nat, end: nat): Option<seq<Item>>
    requires off <= end <= |b|
    decreases end - off, 1
  {
    if off >= end then Some([])
    else
      var first :- RlpItem(b, off, end);
      var rest :- RlpList(b, first.end, end);
      Some([first.item] + rest)
  }

  /** `rlp_list`: items are appended as they are read. */
  method RlpListLoop(b: seq<byte>, off: nat, end: nat) returns (out: Option<seq<Item>>)
    requires off <= end <= |b|
    ensures out == RlpList(b, off, end)
  {
    var items: seq<Item>, at := [], off;
    assert RlpList(b, off, end).Some? ==> [] + RlpList(b, off, end).value == RlpList(b, off, end).value;
    while at < end
      invariant off <= at <= end
      invariant RlpList(b, off, end) ==
        match RlpList(b, at, end) case None => None case Some(rest) => Some(items + rest)
    {
      var it := RlpItem(b, at, end);
      if it.None? {
        return None;
      }
      var rest := RlpList(b, it.value.end, end);
      if rest.Some? {
        assert items + ([it.value.item] + rest.value) == (items + [it.value.item]) + rest.value;
      }
      items, at := items + [it.value.item], it.value.end;
    }
    assert items + [] == items;
    return Some(items);
  }

  function RlpDecodeFully(b: seq<byte>): Option<Item> {
    var it :- RlpItem(b, 0, |b|);
    if it.end != |b| then None else Some(it.item)
  }

  // ----- the decoder that only measures -----

  datatype Kind = StringKind | ListKind
  datatype Shape = Shape(kind: Kind, payloadOff: nat, payloadLen: nat, total: nat)

  /** A leading zero matters to this reader only in lengths of two bytes or more: a single
      zero byte is left to the minimum-length test. */
  function ReadLength(bs: seq<byte>, n: nat): Option<nat> {
    if |bs| < n then None
    else if n > 1 && bs[0] == 0 then None
    else Some(FromBe(bs[..n]))
  }

  function ItemShape(bs: seq<byte>): (r: Option<Shape>)
    ensures r.Some? ==> 0 < r.value.total <= |bs| && r.value.payloadOff + r.value.payloadLen == r.value.total
    decreases |bs|, 0
  {
    if bs == [] then None
    else
      var b := bs[0];
      if b < 0x80 then Some(Shape(StringKind, 0, 1, 1))
      else if b <= 0xB7 then
        var n := b - 0x80;
        if |bs| - 1 < n then None
        else if n == 1 && bs[1] < 0x80 then None
        else Some(Shape(StringKind, 1, n, 1 + n))
      else if b <= 0xBF then
        var ll := b - 0xB7;
        var n :- ReadLength(bs[1..], ll);
        if n <= 55 then None
        else if |bs| - 1 - ll < n then None
        else Some(Shape(StringKind, 1 + ll, n, 1 + ll + n))
      else if b <= 0xF7 then
        var n := b - 0xC0;
        if |bs| - 1 < n then None
        else
          var _ :- ListCount(bs[1..1 + n]);
          Some(Shape(ListKind, 1, n, 1 + n))
      else
        var ll := b - 0xF7;
        var n :- ReadLength(bs[1..], ll);
        if n <= 55 then None
        else if |bs| - 1 - ll < n then None
        else
          var _ :- ListCount(bs[1 + ll..1 + ll + n]);
          Some(Shape(ListKind, 1 + ll, n, 1 + ll + n))
  }

  function ListCount(payload: seq<byte>): Option<nat>
    decreases |payload|, 1
  {
    if payload == [] then Some(0)
    else
      var it :- ItemShape(payload);
      var n :- ListCount(payload[it.total..]);
      Some(n + 1)
  }

  /** `list_count`: an offset and a counter, advanced together. */
  method ListCountLoop(payload: seq<byte>) returns (r: Option<nat>)
    ensures r == ListCount(payload)
  {
    hide ItemShape;
    var off, count: nat := 0, 0;
    while off < |payload|
      invariant off <= |payload|
      invariant ListCount(payload) ==
        match ListCount(payload[off..]) case None => None case Some(n) => Some(count + n)
    {
      var it := ItemShape(payload[off..]);
      if it.None? {
        return None;
      }
      assert payload[off..][it.value.total..] == payload[off + it.value.total..];
      off := off + it.value.total;
      count := count + 1;
    }
    return Some(count);
  }
}
