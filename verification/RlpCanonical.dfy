/** Strict RLP is a canonical prefix-free code, and the two decoders read the same one. */
module RlpCanonical {
  import opened Words
  import opened BigEndian
  import opened Rlp

  // ----- the long header, both ways -----

  /** A long length field that is accepted is the minimal form of its value. */
  lemma LongLengthIsHeader(b: seq<byte>, off: nat, end: nat, ll: nat, base: byte)
    requires off < end <= |b| && 1 <= ll <= 8 && base <= LIST_BASE && b[off] == base + 55 + ll
    requires LongLength(b, off, end, ll).Some?
    ensures var n := LongLength(b, off, end, ll).value;
      n < MAX_LENGTH && HeaderSize(n) == 1 + ll && Header(base, n) == b[off..off + 1 + ll]
  {
    var lb := b[off + 1..off + 1 + ll];
    MinimalIsBe(lb);
    BeFitsEight(FromBe(lb));
    assert b[off..off + 1 + ll] == [b[off]] + lb;
  }

  /** A long header found in the input is read back. */
  lemma HeaderIsLongLength(b: seq<byte>, off: nat, end: nat, base: byte, n: nat)
    requires base <= LIST_BASE && 55 < n < MAX_LENGTH
    requires off + HeaderSize(n) + n <= end <= |b|
    requires b[off..off + HeaderSize(n)] == Header(base, n)
    ensures 1 <= |Be(n)| <= 8 && b[off] == base + 55 + |Be(n)|
    ensures LongLength(b, off, end, |Be(n)|) == Some(n)
  {
    var ll := |Be(n)|;
    BeFitsEight(n);
    BeIsMinimal(n);
    var h := b[off..off + HeaderSize(n)];
    assert h[0] == b[off];
    assert b[off + 1..off + 1 + ll] == h[1..] == Be(n);
  }

  // ----- decoding inverts encoding -----

  lemma SliceOfSlice(b: seq<byte>, off: nat, end: nat, i: nat, j: nat)
    requires i <= j && off + j <= end <= |b|
    ensures b[off..end][i..j] == b[off + i..off + j]
  {
    var part := b[off..end][i..j];
    assert |part| == j - i;
    assert forall k :: 0 <= k < j - i ==> part[k] == b[off + i + k];
  }

  /** Splitting an input at a header. */
  lemma SplitAt(b: seq<byte>, off: nat, h: seq<byte>, payload: seq<byte>)
    requires off + |h| + |payload| <= |b|
    requires b[off..off + |h| + |payload|] == h + payload
    ensures b[off..off + |h|] == h && b[off + |h|..off + |h| + |payload|] == payload
    ensures h != [] ==> b[off] == h[0]
  {
    var whole := b[off..off + |h| + |payload|];
    assert b[off..off + |h|] == whole[..|h|];
    assert b[off + |h|..off + |h| + |payload|] == whole[|h|..];
    if h != [] {
      assert whole[0] == h[0];
    }
  }

  lemma DecodeString(s: seq<byte>, b: seq<byte>, off: nat, end: nat)
    requires |s| < MAX_LENGTH && !(|s| == 1 && s[0] < 0x80)
    requires off + HeaderSize(|s|) + |s| <= end <= |b|
    requires b[off..off + HeaderSize(|s|) + |s|] == Header(STRING_BASE, |s|) + s
    ensures RlpItem(b, off, end) == Some(Parsed(Bytes(s), off + HeaderSize(|s|) + |s|))
  {
    hide Be, FromBe, LongLength, RlpList;
    SplitAt(b, off, Header(STRING_BASE, |s|), s);
    if |s| > 55 {
      HeaderIsLongLength(b, off, end, STRING_BASE, |s|);
    } else if |s| == 1 {
      assert b[off + 1] == b[off + 1..off + 2][0];
    }
  }

  lemma DecodeList(items: seq<Item>, n: nat, b: seq<byte>, off: nat, end: nat)
    requires n < MAX_LENGTH && off + HeaderSize(n) + n <= end <= |b|
    requires b[off..off + HeaderSize(n)] == Header(LIST_BASE, n)
    requires RlpList(b, off + HeaderSize(n), off + HeaderSize(n) + n) == Some(items)
    ensures RlpItem(b, off, end) == Some(Parsed(List(items), off + HeaderSize(n) + n))
  {
    hide Be, FromBe, LongLength, RlpList;
    assert b[off] == Header(LIST_BASE, n)[0] by {
      assert b[off] == b[off..off + HeaderSize(n)][0];
    }
    if n > 55 {
      HeaderIsLongLength(b, off, end, LIST_BASE, n);
    }
  }

  /** Wherever the encoding of an item stands in the input, the decoder reads that item and
      stops where the encoding stops. */
  lemma {:induction false} DecodeEncoding(x: Item, b: seq<byte>, off: nat, end: nat)
    requires Encodable(x) && off + Size(x) <= end <= |b|
    requires b[off..off + Size(x)] == Enc(x)
    ensures RlpItem(b, off, end) == Some(Parsed(x, off + Size(x)))
    decreases x, 0
  {
    match x
    case Bytes(s) =>
      if |s| == 1 && s[0] < 0x80 {
        assert b[off] == b[off..off + 1][0];
        assert s == [s[0]];
      } else {
        DecodeString(s, b, off, end);
      }
    case List(items) =>
      var payload := EncAll(items);
      SplitAt(b, off, Header(LIST_BASE, |payload|), payload);
      DecodeEncodings(items, b, off + HeaderSize(|payload|), off + Size(x));
      DecodeList(items, |payload|, b, off, end);
  }

  lemma {:induction false} DecodeEncodings(items: seq<Item>, b: seq<byte>, off: nat, end: nat)
    requires EncodableAll(items) && off + SizeAll(items) == end <= |b|
    requires b[off..end] == EncAll(items)
    ensures RlpList(b, off, end) == Some(items)
    decreases items, 1
  {
    hide RlpItem, Header, Enc, Encodable, Size;
    if items != [] {
      var first := Size(items[0]);
      SizePositive(items[0]);
      SplitAt(b, off, Enc(items[0]), EncAll(items[1..]));
      DecodeEncoding(items[0], b, off, end);
      DecodeEncodings(items[1..], b, off + first, end);
      assert [items[0]] + items[1..] == items;
    }
  }

  lemma SizePositive(x: Item)
    ensures Size(x) > 0
  {
    match x
    case Bytes(_) =>
    case List(_) =>
  }

  // ----- encoding inverts decoding -----

  lemma EncodeDecodedString(b: seq<byte>, off: nat, end: nat)
    requires off < end <= |b| && b[off] <= 0xBF && RlpItem(b, off, end).Some?
    ensures var p := RlpItem(b, off, end).value;
      Encodable(p.item) && off + Size(p.item) == p.end && Enc(p.item) == b[off..p.end]
  {
    hide LongLength, FromBe, RlpList;
    var x, p := b[off], RlpItem(b, off, end).value;
    if x < 0x80 {
      assert b[off..off + 1] == [x];
    } else if x <= 0xB7 {
      var n := x - 0x80;
      assert b[off..off + 1 + n] == [x] + b[off + 1..off + 1 + n];
    } else {
      var ll := x - 0xB7;
      LongLengthIsHeader(b, off, end, ll, STRING_BASE);
      assert b[off..p.end] == b[off..off + 1 + ll] + b[off + 1 + ll..p.end];
    }
  }

  lemma EncodeDecodedHeader(b: seq<byte>, off: nat, mid: nat, end: nat, items: seq<Item>)
    requires off < mid <= end <= |b| && EncodableAll(items) && SizeAll(items) == end - mid < MAX_LENGTH
    requires EncAll(items) == b[mid..end]
    requires b[off..mid] == Header(LIST_BASE, end - mid)
    ensures Encodable(List(items)) && off + Size(List(items)) == end && Enc(List(items)) == b[off..end]
  {
    assert b[off..end] == b[off..mid] + b[mid..end];
  }

  /** Every accepted item re-encodes to exactly the bytes it was read from. */
  lemma {:induction false} EncodeDecoded(b: seq<byte>, off: nat, end: nat)
    requires end <= |b| && RlpItem(b, off, end).Some?
    ensures var p := RlpItem(b, off, end).value;
      Encodable(p.item) && off + Size(p.item) == p.end && Enc(p.item) == b[off..p.end]
    decreases end - off, 0
  {
    hide LongLength, RlpList, Be, FromBe, EncAll, EncodableAll, Enc, Encodable, Size;
    var x, p := b[off], RlpItem(b, off, end).value;
    if x <= 0xBF {
      EncodeDecodedString(b, off, end);
    } else if x <= 0xF7 {
      EncodeDecodedList(b, off + 1, p.end);
      assert b[off..off + 1] == [x];
      EncodeDecodedHeader(b, off, off + 1, p.end, p.item.items);
    } else {
      var ll := x - 0xF7;
      LongLengthIsHeader(b, off, end, ll, LIST_BASE);
      EncodeDecodedList(b, off + 1 + ll, p.end);
      EncodeDecodedHeader(b, off, off + 1 + ll, p.end, p.item.items);
    }
  }

  lemma {:induction false} EncodeDecodedList(b: seq<byte>, off: nat, end: nat)
    requires off <= end <= |b| && RlpList(b, off, end).Some?
    ensures var items := RlpList(b, off, end).value;
      EncodableAll(items) && SizeAll(items) == end - off && EncAll(items) == b[off..end]
    decreases end - off, 1
  {
    hide RlpItem;
    if off < end {
      var first := RlpItem(b, off, end).value;
      var rest := RlpList(b, first.end, end).value;
      EncodeDecoded(b, off, end);
      EncodeDecodedList(b, first.end, end);
      assert ([first.item] + rest)[1..] == rest;
      assert b[off..end] == b[off..first.end] + b[first.end..end];
    }
  }

  /** The code in one statement: the decoder accepts exactly the inputs that begin with the
      encoding of an item, and yields that item. */
  lemma DecodesIff(b: seq<byte>, off: nat, end: nat, x: Item, stop: nat)
    requires off <= end <= |b|
    ensures RlpItem(b, off, end) == Some(Parsed(x, stop)) <==>
      Encodable(x) && stop == off + Size(x) && stop <= end && b[off..stop] == Enc(x)
  {
    hide RlpItem, Enc, Encodable, Size;
    if RlpItem(b, off, end) == Some(Parsed(x, stop)) {
      EncodeDecoded(b, off, end);
    }
    if Encodable(x) && stop == off + Size(x) && stop <= end && b[off..stop] == Enc(x) {
      DecodeEncoding(x, b, off, end);
    }
  }

  /** `rlp_decode_fully` and `enc` are inverse to each other. */
  lemma FullyDecodesIff(b: seq<byte>, x: Item)
    ensures RlpDecodeFully(b) == Some(x) <==> Encodable(x) && Enc(x) == b
  {
    DecodesIff(b, 0, |b|, x, |b|);
    assert b[0..|b|] == b;
  }

  /** No encoding is a proper prefix of another. */
  lemma PrefixFree(x: Item, y: Item)
    requires Encodable(x) && Encodable(y) && Enc(x) <= Enc(y)
    ensures x == y
  {
    var b := Enc(y);
    assert b[0..|Enc(x)|] == Enc(x) && b[0..|b|] == b;
    DecodeEncoding(x, b, 0, |b|);
    DecodeEncoding(y, b, 0, |b|);
  }

  lemma EncInjective(x: Item, y: Item)
    requires Encodable(x) && Encodable(y) && Enc(x) == Enc(y)
    ensures x == y
  {
    PrefixFree(x, y);
  }

  // ----- the two decoders agree -----

  lemma ReadLengthAgrees(b: seq<byte>, off: nat, end: nat, ll: nat)
    requires off < end <= |b| && 1 <= ll
    ensures var bs := b[off..end];
      var n := ReadLength(bs[1..], ll);
      LongLength(b, off, end, ll) == if n.Some? && n.value > 55 && n.value <= |bs| - 1 - ll then n else None
  {
    var bs := b[off..end];
    if ll <= end - off - 1 {
      var lb := b[off + 1..off + 1 + ll];
      assert bs[1..][..ll] == lb && bs[1..][0] == lb[0];
      if ll == 1 && lb[0] == 0 {
        assert FromBe(lb) == FromBe(lb[..0]) * 256 + 0 == 0;
      }
    }
  }

  /** The two results stand for the same item at the same place. */
  ghost predicate SameItem(b: seq<byte>, off: nat, end: nat, shape: Option<Shape>, parsed: Option<Parsed>)
    requires off <= end <= |b|
  {
    && shape.Some? == parsed.Some?
    && (shape.Some? ==>
          && off + shape.value.total == parsed.value.end <= end
          && shape.value.payloadOff <= shape.value.total
          && shape.value.kind.ListKind? == parsed.value.item.List?
          && match parsed.value.item
             case Bytes(s) => s == b[off + shape.value.payloadOff..parsed.value.end]
             case List(items) => RlpList(b, off + shape.value.payloadOff, parsed.value.end) == Some(items))
  }

  lemma StringDecodersAgree(b: seq<byte>, off: nat, end: nat)
    requires off < end <= |b| && b[off] <= 0xBF
    ensures SameItem(b, off, end, ItemShape(b[off..end]), RlpItem(b, off, end))
  {
    hide LongLength, ReadLength, RlpList, ListCount;
    var x := b[off];
    if x < 0x80 {
      assert b[off..off + 1] == [x];
    } else if 0xB7 < x {
      ReadLengthAgrees(b, off, end, x - 0xB7);
    }
  }

  lemma {:induction false} LongListDecodersAgree(b: seq<byte>, off: nat, end: nat)
    requires off < end <= |b| && 0xF7 < b[off]
    ensures SameItem(b, off, end, ItemShape(b[off..end]), RlpItem(b, off, end))
    decreases end - off, 0
  {
    hide LongLength, ReadLength, RlpList, ListCount;
    var bs, ll := b[off..end], b[off] - 0xF7;
    ReadLengthAgrees(b, off, end, ll);
    var n := LongLength(b, off, end, ll);
    if n.Some? {
      var s := off + 1 + ll;
      SliceOfSlice(b, off, end, 1 + ll, 1 + ll + n.value);
      ListDecodersAgree(b, s, s + n.value);
    }
  }

  /** The measuring decoder accepts what the building decoder accepts, finds the same end,
      and points at the same payload. */
  lemma {:induction false} DecodersAgree(b: seq<byte>, off: nat, end: nat)
    requires off <= end <= |b|
    ensures SameItem(b, off, end, ItemShape(b[off..end]), RlpItem(b, off, end))
    decreases end - off, 1
  {
    hide LongLength, ReadLength, RlpList, ListCount;
    if off < end {
      var x := b[off];
      if x <= 0xBF {
        StringDecodersAgree(b, off, end);
      } else if x <= 0xF7 {
        var n := x - 0xC0;
        if n <= end - off - 1 {
          SliceOfSlice(b, off, end, 1, 1 + n);
          ListDecodersAgree(b, off + 1, off + 1 + n);
        }
      } else {
        LongListDecodersAgree(b, off, end);
      }
    }
  }

  lemma {:induction false} ListDecodersAgree(b: seq<byte>, off: nat, end: nat)
    requires off <= end <= |b|
    ensures var count, items := ListCount(b[off..end]), RlpList(b, off, end);
      count == match items case None => None case Some(xs) => Some(|xs|)
    decreases end - off, 2
  {
    hide ItemShape, RlpItem;
    if off < end {
      DecodersAgree(b, off, end);
      var shape := ItemShape(b[off..end]);
      if shape.Some? {
        var next := off + shape.value.total;
        SliceOfSlice(b, off, end, shape.value.total, end - off);
        ListDecodersAgree(b, next, end);
      }
    }
  }
}
