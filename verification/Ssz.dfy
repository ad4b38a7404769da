/** Building SSZ containers and lists of variable-size elements, and reading them back. */
module Ssz {
  import opened Words
  import opened LittleEndian
  import opened InputDecode

  // ----- scalars: a number that does not fit is an error -----

  function U32(x: int): Option<Blob> {
    if 0 <= x < 0x1_0000_0000 then Some(LeBytes(x, 4)) else None
  }

  function U64(x: int): Option<Blob> {
    if 0 <= x < 0x1_0000_0000_0000_0000 then Some(LeBytes(x, 8)) else None
  }

  /** `s` stands at position `p` of the blob. */
  predicate At(b: Blob, p: nat, s: Blob) {
    p + |s| <= |b| && b[p..p + |s|] == s
  }

  lemma AtAppend(b: Blob, p: nat, x: Blob, y: Blob)
    ensures At(b, p, x + y) <==> At(b, p, x) && At(b, p + |x|, y)
  {
    if p + |x| + |y| <= |b| {
      assert b[p..p + |x + y|] == b[p..p + |x|] + b[p + |x|..p + |x| + |y|];
      assert (x + y)[..|x|] == x && (x + y)[|x|..] == y;
    }
  }

  lemma ReadFour(b: Blob, q: nat)
    requires q + 4 <= |b|
    ensures Le32(b, q) == FromLe(b[q..q + 4])
  {
    FourBytes(b[q..q + 4]);
  }

  lemma U32ReadsBack(b: Blob, q: nat, x: int)
    requires U32(x).Some? && At(b, q, U32(x).value)
    ensures q + 4 <= |b| && Le32(b, q) == x
  {
    WordPowers();
    ReadFour(b, q);
    FromLeBytes(x, 4);
  }

  lemma U64ReadsBack(b: Blob, q: nat, x: int)
    requires U64(x).Some? && At(b, q, U64(x).value)
    ensures Le64(b, q) == x
  {
    WordPowers();
    ReadFour(b, q);
    ReadFour(b, q + 4);
    FromLeBytes(x, 8);
    FromLeSplit(b[q..q + 4], b[q + 4..q + 8]);
    assert b[q..q + 8] == b[q..q + 4] + b[q + 4..q + 8];
  }

  lemma ReadIsU32(b: Blob, q: nat)
    requires q + 4 <= |b|
    ensures U32(Le32(b, q)) == Some(b[q..q + 4])
  {
    WordPowers();
    ReadFour(b, q);
    BytesFromLe(b[q..q + 4]);
  }

  // ----- parts in order -----

  function Total(parts: seq<Blob>): nat {
    if parts == [] then 0 else Total(parts[..|parts| - 1]) + |parts[|parts| - 1]|
  }

  function Concat(parts: seq<Blob>): (r: Blob)
    ensures |r| == Total(parts)
  {
    if parts == [] then [] else Concat(parts[..|parts| - 1]) + parts[|parts| - 1]
  }

  lemma TotalStep(parts: seq<Blob>, j: nat)
    requires j < |parts|
    ensures Total(parts[..j + 1]) == Total(parts[..j]) + |parts[j]|
    ensures Concat(parts[..j + 1]) == Concat(parts[..j]) + parts[j]
  {
    assert parts[..j + 1][..j] == parts[..j];
  }

  lemma {:induction false} TotalMonotone(parts: seq<Blob>, i: nat, j: nat)
    requires i <= j <= |parts|
    ensures Total(parts[..i]) <= Total(parts[..j])
    decreases j
  {
    if i < j {
      TotalStep(parts, j - 1);
      TotalMonotone(parts, i, j - 1);
    }
  }

  /** Each part stands where the ones before it end. */
  lemma {:induction false} PartAt(b: Blob, p: nat, parts: seq<Blob>, j: nat)
    requires At(b, p, Concat(parts)) && j < |parts|
    ensures At(b, p + Total(parts[..j]), parts[j])
    decreases |parts|
  {
    var last := |parts| - 1;
    AtAppend(b, p, Concat(parts[..last]), parts[last]);
    if j < last {
      PartAt(b, p, parts[..last], j);
      assert parts[..last][..j] == parts[..j];
    }
  }

  // ----- lists of variable-size elements -----

  /** The offsets of the first `n` elements, the first of them at `base`. */
  function OffsetTable(es: seq<Blob>, base: nat, n: nat): (r: Option<Blob>)
    requires n <= |es|
    ensures r.Some? ==> |r.value| == 4 * n
  {
    if n == 0 then Some([])
    else
      var init :- OffsetTable(es, base, n - 1);
      var offset :- U32(base + Total(es[..n - 1]));
      Some(init + offset)
  }

  function VarList(es: seq<Blob>): (r: Option<Blob>)
    ensures r.Some? ==> |r.value| == 4 * |es| + Total(es)
  {
    if es == [] then Some([])
    else
      var table :- OffsetTable(es, 4 * |es|, |es|);
      Some(table + Concat(es))
  }

  lemma {:induction false} OffsetTablePrefix(es: seq<Blob>, base: nat, n: nat, m: nat)
    requires n <= m <= |es| && OffsetTable(es, base, m).Some?
    ensures OffsetTable(es, base, n).Some?
    decreases m
  {
    if n < m {
      OffsetTablePrefix(es, base, n, m - 1);
    }
  }

  /** `var_list`: one pass over the elements writes the offsets; an offset that does not fit
      raises. */
  method VarListLoop(es: seq<Blob>) returns (r: Option<Blob>)
    ensures r == VarList(es)
  {
    if es == [] {
      return Some([]);
    }
    var offset, out := 4 * |es|, [];
    var i := 0;
    while i < |es|
      invariant 0 <= i <= |es|
      invariant OffsetTable(es, 4 * |es|, i) == Some(out)
      invariant offset == 4 * |es| + Total(es[..i])
    {
      var word := U32(offset);
      TotalStep(es, i);
      if word == None {
        if OffsetTable(es, 4 * |es|, |es|).Some? {
          OffsetTablePrefix(es, 4 * |es|, i + 1, |es|);
        }
        return None;
      }
      out := out + word.value;
      offset := offset + |es[i]|;
      i := i + 1;
    }
    r := Some(out + Concat(es));
  }

  lemma {:induction false} TableEntry(b: Blob, p: nat, es: seq<Blob>, base: nat, n: nat, i: nat)
    requires i < n <= |es| && OffsetTable(es, base, n).Some? && At(b, p, OffsetTable(es, base, n).value)
    ensures Le32(b, p + i * 4) == base + Total(es[..i])
    decreases n
  {
    var init, offset := OffsetTable(es, base, n - 1).value, base + Total(es[..n - 1]);
    AtAppend(b, p, init, U32(offset).value);
    if i == n - 1 {
      U32ReadsBack(b, p + i * 4, offset);
    } else {
      TableEntry(b, p, es, base, n - 1, i);
    }
  }

  /** Where element `i` of a built list stands when the list is at `p`. */
  function ElementSlice(p: nat, es: seq<Blob>, i: nat): (r: Slice)
    requires i < |es|
    ensures r.len == |es[i]|
  {
    Slice(p + 4 * |es| + Total(es[..i]), |es[i]|)
  }

  function ElementSlices(p: nat, es: seq<Blob>): (r: seq<Slice>)
    ensures |r| == |es| && forall i :: 0 <= i < |es| ==> r[i] == ElementSlice(p, es, i)
  {
    seq(|es|, i requires 0 <= i < |es| => ElementSlice(p, es, i))
  }

  function BytesOf(b: Blob, s: Slice): Blob {
    if s.off + s.len <= |b| then b[s.off..s.off + s.len] else []
  }

  function Elements(b: Blob, slices: seq<Slice>): (r: seq<Blob>)
    ensures |r| == |slices| && forall i :: 0 <= i < |r| ==> r[i] == BytesOf(b, slices[i])
  {
    seq(|slices|, i requires 0 <= i < |slices| => BytesOf(b, slices[i]))
  }

  lemma BuiltOffsets(b: Blob, p: nat, es: seq<Blob>)
    requires es != [] && VarList(es).Some? && At(b, p, VarList(es).value)
    ensures var o := ReadOffsets(b, p, |es|);
      forall i :: 0 <= i < |es| ==> o[i] == 4 * |es| + Total(es[..i])
  {
    hide Total, Concat, Le32, At;
    AtAppend(b, p, OffsetTable(es, 4 * |es|, |es|).value, Concat(es));
    forall i | 0 <= i < |es| ensures Le32(b, p + i * 4) == 4 * |es| + Total(es[..i]) {
      TableEntry(b, p, es, 4 * |es|, |es|, i);
    }
  }

  lemma TotalsInOrder(es: seq<Blob>, o: seq<nat>)
    requires |o| == |es| && forall i :: 0 <= i < |es| ==> o[i] == 4 * |es| + Total(es[..i])
    ensures AllWithin(o, 4 * |es|, 4 * |es| + Total(es)) && Nondecreasing(o)
  {
    hide Total;
    forall i | 0 <= i < |es| ensures 4 * |es| <= o[i] <= 4 * |es| + Total(es) {
      TotalMonotone(es, i, |es|);
      assert es[..|es|] == es;
    }
    forall i, j | 0 <= i < |es| && j == i + 1 < |es| ensures o[i] <= o[j] {
      TotalMonotone(es, i, j);
    }
  }

  lemma BuiltSlice(p: nat, es: seq<Blob>, o: seq<nat>, i: nat)
    requires i < |es| == |o| && forall j :: 0 <= j < |es| ==> o[j] == 4 * |es| + Total(es[..j])
    ensures SliceAt(p, o, 4 * |es| + Total(es), i) == ElementSlice(p, es, i)
  {
    TotalStep(es, i);
    assert es[..|es|] == es;
  }

  lemma BuiltElements(b: Blob, p: nat, es: seq<Blob>)
    requires VarList(es).Some? && At(b, p, VarList(es).value)
    ensures Elements(b, ElementSlices(p, es)) == es
  {
    hide Total, Concat;
    var slices := ElementSlices(p, es);
    forall i | 0 <= i < |es| ensures BytesOf(b, slices[i]) == es[i] {
      AtAppend(b, p, OffsetTable(es, 4 * |es|, |es|).value, Concat(es));
      PartAt(b, p + 4 * |es|, es, i);
    }
  }

  lemma BuiltSlices(p: nat, es: seq<Blob>, o: seq<nat>)
    requires |es| == |o| && forall j :: 0 <= j < |es| ==> o[j] == 4 * |es| + Total(es[..j])
    ensures SlicesOf(p, o, 4 * |es| + Total(es)) == ElementSlices(p, es)
  {
    hide Total, SliceAt, ElementSlice;
    var len := 4 * |es| + Total(es);
    forall i | 0 <= i < |es| ensures SliceAt(p, o, len, i) == ElementSlice(p, es, i) {
      BuiltSlice(p, es, o, i);
    }
    assert SlicesOf(p, o, len) == ElementSlices(p, es);
  }

  /** A list whose head is in order splits into the slices its offsets delimit. */
  lemma SplitInOrder(b: Blob, p: nat, len: nat, lim: nat, n: nat)
    requires 0 < n && 4 * n <= len && Le32(b, p) == 4 * n
    requires AllWithin(ReadOffsets(b, p, n), 4 * n, len) && Nondecreasing(ReadOffsets(b, p, n))
    ensures SplitVarList(b, p, len, lim) == if n <= lim then Some(SlicesOf(p, ReadOffsets(b, p, n), len)) else None
  {
    hide AllWithin, Nondecreasing, Le32;
    assert (4 * n) / 4 == n;
  }

  /** Splitting a built list gives its elements back, in order and in place. */
  lemma SplitBuilt(b: Blob, p: nat, es: seq<Blob>, lim: nat)
    requires VarList(es).Some? && At(b, p, VarList(es).value)
    ensures SplitVarList(b, p, 4 * |es| + Total(es), lim) == if |es| <= lim then Some(ElementSlices(p, es)) else None
    ensures Elements(b, ElementSlices(p, es)) == es
  {
    hide *;
    BuiltElements(b, p, es);
    if es == [] {
      SplitEmpty(b, p, lim);
    } else {
      BuiltOffsets(b, p, es);
      var o := ReadOffsets(b, p, |es|);
      TotalsInOrder(es, o);
      NoneTotalsZero(es);
      assert o[0] == 4 * |es| + Total(es[..0]);
      assert p + 0 * 4 == p;
      BuiltSlices(p, es, o);
      SplitInOrder(b, p, 4 * |es| + Total(es), lim, |es|);
    }
  }

  lemma SplitEmpty(b: Blob, p: nat, lim: nat)
    ensures SplitVarList(b, p, 0, lim) == Some(ElementSlices(p, [])) && Total([]) == 0
  {
    assert ElementSlices(p, []) == [];
  }

  lemma NoneTotalsZero(es: seq<Blob>)
    ensures Total(es[..0]) == 0
  {}

  // ----- what the decoder splits, it can put back -----

  /** The slices cover `from` to `to` without gap or overlap, in order. */
  predicate Tiles(slices: seq<Slice>, from: nat, to: nat) {
    if slices == [] then from == to
    else slices[0].off == from && Tiles(slices[1..], from + slices[0].len, to)
  }

  lemma {:induction false} SlicesTile(p: nat, o: seq<nat>, len: nat, k: nat)
    requires Nondecreasing(o) && (forall i :: 0 <= i < |o| ==> o[i] <= len) && k < |o|
    ensures Tiles(SlicesOf(p, o, len)[k..], p + o[k], p + len)
    decreases |o| - k
  {
    var slices := SlicesOf(p, o, len);
    assert slices[k..][0] == slices[k] && slices[k..][1..] == slices[k + 1..];
    if k + 1 < |o| {
      SlicesTile(p, o, len, k + 1);
    }
  }

  lemma SliceJoin(b: Blob, i: nat, j: nat, k: nat)
    requires i <= j <= k <= |b|
    ensures b[i..k] == b[i..j] + b[j..k]
  {}

  predicate OffsetsFit(b: Blob, p: nat, o: seq<nat>, len: nat) {
    p + len <= |b| && Nondecreasing(o) && o != [] && forall j :: 0 <= j < |o| ==> o[j] <= len
  }

  lemma ElementIsSlice(b: Blob, p: nat, o: seq<nat>, len: nat, i: nat)
    requires OffsetsFit(b, p, o, len) && i < |o|
    ensures var end := if i + 1 < |o| then o[i + 1] else len;
      o[i] <= end <= len && BytesOf(b, SlicesOf(p, o, len)[i]) == b[p + o[i]..p + end]
  {}

  /** Element `i` begins where the list's head and the elements before it end. */
  lemma {:induction false} OffsetsAreTotals(b: Blob, p: nat, o: seq<nat>, len: nat, i: nat, es: seq<Blob>)
    requires OffsetsFit(b, p, o, len) && i < |o| && es == Elements(b, SlicesOf(p, o, len))
    ensures Total(es[..i]) + o[0] == o[i] <= len && Concat(es[..i]) == b[p + o[0]..p + o[i]]
    decreases i
  {
    hide Nondecreasing, SliceAt, BytesOf;
    if i > 0 {
      OffsetsAreTotals(b, p, o, len, i - 1, es);
      TotalStep(es, i - 1);
      ElementIsSlice(b, p, o, len, i - 1);
      SliceJoin(b, p + o[0], p + o[i - 1], p + o[i]);
    }
  }

  lemma {:induction false} TableIsRead(b: Blob, p: nat, es: seq<Blob>, base: nat, n: nat)
    requires n <= |es| && p + 4 * n <= |b|
    requires forall i :: 0 <= i < n ==> Le32(b, p + i * 4) == base + Total(es[..i])
    ensures OffsetTable(es, base, n) == Some(b[p..p + 4 * n])
    decreases n
  {
    if n > 0 {
      TableIsRead(b, p, es, base, n - 1);
      ReadIsU32(b, p + (n - 1) * 4);
      assert b[p..p + 4 * n] == b[p..p + 4 * (n - 1)] + b[p + (n - 1) * 4..p + (n - 1) * 4 + 4];
    } else {
      assert b[p..p + 4 * n] == [];
    }
  }

  /** The slices are those of a region that the builder would write for them, byte for byte. */
  ghost predicate Lossless(b: Blob, p: nat, len: nat, slices: seq<Slice>) {
    && p + len <= |b|
    && Tiles(slices, p + 4 * |slices|, p + len)
    && VarList(Elements(b, slices)) == Some(b[p..p + len])
  }

  lemma SplitAccepts(b: Blob, p: nat, len: nat, lim: nat)
    requires p + len <= |b| && len > 0 && SplitVarList(b, p, len, lim).Some?
    ensures var n := Le32(b, p) / 4; var o := ReadOffsets(b, p, n);
      && OffsetsFit(b, p, o, len) && o[0] == 4 * n && SplitVarList(b, p, len, lim) == Some(SlicesOf(p, o, len))
  {
    hide Le32, Nondecreasing;
    var o := ReadOffsets(b, p, Le32(b, p) / 4);
    assert o[0] == Le32(b, p + 0 * 4);
  }

  lemma OffsetsAreLossless(b: Blob, p: nat, len: nat, n: nat, o: seq<nat>, slices: seq<Slice>)
    requires o == ReadOffsets(b, p, n) && OffsetsFit(b, p, o, len) && o[0] == 4 * n && slices == SlicesOf(p, o, len)
    ensures Lossless(b, p, len, slices)
  {
    hide Le32, Nondecreasing, Elements, SliceAt, Total, Concat, Tiles;
    var es := Elements(b, slices);
    SlicesTile(p, o, len, 0);
    assert slices[0..] == slices;
    forall i | 0 <= i < n ensures Le32(b, p + i * 4) == o[0] + Total(es[..i]) {
      OffsetsAreTotals(b, p, o, len, i, es);
      assert o[i] == Le32(b, p + i * 4);
    }
    LastElement(b, p, o, len, es);
    TableIsRead(b, p, es, o[0], n);
    SliceJoin(b, p, p + o[0], p + len);
  }

  /** Whatever list the decoder accepts, the builder reproduces. */
  lemma SplitIsLossless(b: Blob, p: nat, len: nat, lim: nat)
    requires p + len <= |b| && SplitVarList(b, p, len, lim).Some?
    ensures Lossless(b, p, len, SplitVarList(b, p, len, lim).value)
  {
    if len == 0 {
      assert b[p..p + len] == [];
    } else {
      SplitAccepts(b, p, len, lim);
      var n := Le32(b, p) / 4;
      OffsetsAreLossless(b, p, len, n, ReadOffsets(b, p, n), SplitVarList(b, p, len, lim).value);
    }
  }

  lemma LastElement(b: Blob, p: nat, o: seq<nat>, len: nat, es: seq<Blob>)
    requires OffsetsFit(b, p, o, len) && es == Elements(b, SlicesOf(p, o, len))
    ensures o[0] <= len && Concat(es) == b[p + o[0]..p + len]
  {
    hide Nondecreasing, SliceAt, BytesOf, Total, Concat;
    var last := |o| - 1;
    OffsetsAreTotals(b, p, o, len, last, es);
    TotalStep(es, last);
    ElementIsSlice(b, p, o, len, last);
    assert es[..last + 1] == es;
    SliceJoin(b, p + o[0], p + o[last], p + len);
  }
}
