/** The builder of stateless inputs, and its round trip through the guest's decoder. */
module SszBuilder {
  import opened Words
  import opened BigEndian
  import opened InputDecode
  import opened Ssz
  import opened SszContainer

  datatype PayloadArgs = PayloadArgs(
    gasLimit: int, gasUsed: int, number: int, timestamp: int,
    extra: Blob, txs: seq<Blob>, withdrawals: Blob, bal: Blob,
    slot: int, blobGasUsed: int, excessBlobGas: int)

  datatype WitnessArgs = WitnessArgs(state: seq<Blob>, codes: seq<Blob>, headers: seq<Blob>)

  /** The payload's seven numbers, serialized. */
  datatype Numbers = Numbers(
    number: Blob, gasLimit: Blob, gasUsed: Blob, timestamp: Blob, blobGasUsed: Blob, excessBlobGas: Blob, slot: Blob)

  function PayloadNumbers(a: PayloadArgs): Option<Numbers> {
    var number :- U64(a.number);
    var gasLimit :- U64(a.gasLimit);
    var gasUsed :- U64(a.gasUsed);
    var timestamp :- U64(a.timestamp);
    var blobGasUsed :- U64(a.blobGasUsed);
    var excessBlobGas :- U64(a.excessBlobGas);
    var slot :- U64(a.slot);
    Some(Numbers(number, gasLimit, gasUsed, timestamp, blobGasUsed, excessBlobGas, slot))
  }

  function PayloadParts(n: Numbers): seq<Part> {
    [ Some(Zeros(32)), Some(Zeros(20)), Some(Zeros(32)), Some(Zeros(32)), Some(Zeros(256)), Some(Zeros(32)),
      Some(n.number), Some(n.gasLimit), Some(n.gasUsed), Some(n.timestamp),
      None, Some(Zeros(32)), Some(Zeros(32)), None, None,
      Some(n.blobGasUsed), Some(n.excessBlobGas), None, Some(n.slot) ]
  }

  function PayloadBytes(a: PayloadArgs): Option<Blob> {
    var numbers :- PayloadNumbers(a);
    var txs :- VarList(a.txs);
    Container(PayloadParts(numbers), [a.extra, txs, a.withdrawals, a.bal])
  }

  const RequestParts: seq<Part> := [None, None, None, None, None]
  const NoRequests: seq<Blob> := [[], [], [], [], []]

  function RequestsBytes(parts: seq<Blob>): Option<Blob> {
    Container(RequestParts, parts)
  }

  const NewPayloadParts: seq<Part> := [None, None, Some(Zeros(32)), None]

  /** The request container, empty where the caller gives none. */
  function RequestsOrNone(reqs: Option<Blob>): Option<Blob> {
    if reqs.Some? then reqs else RequestsBytes(NoRequests)
  }

  function NewPayloadRequestBytes(pl: Blob, versionedHashes: Blob, reqs: Option<Blob>): Option<Blob> {
    var requests :- RequestsOrNone(reqs);
    Container(NewPayloadParts, [pl, versionedHashes, requests])
  }

  const WitnessParts: seq<Part> := [None, None, None]

  function WitnessBytes(w: WitnessArgs): Option<Blob> {
    var state :- VarList(w.state);
    var codes :- VarList(w.codes);
    var headers :- VarList(w.headers);
    Container(WitnessParts, [state, codes, headers])
  }

  function InputParts(chainId: Blob): seq<Part> {
    [None, None, Some(chainId)]
  }

  const DefaultPayload: PayloadArgs := PayloadArgs(200_000_000, 0, 0, 0, [], [], [], [], 0, 0, 0)
  const DefaultWitness: WitnessArgs := WitnessArgs([], [], [])

  function PayloadOrDefault(pl: Option<Blob>): Option<Blob> {
    if pl.Some? then pl else PayloadBytes(DefaultPayload)
  }

  function WitnessOrDefault(wit: Option<Blob>): Option<Blob> {
    if wit.Some? then wit else WitnessBytes(DefaultWitness)
  }

  /** `stateless_input`: the payload and the witness are any bytes. */
  function StatelessInputBytes(pl: Option<Blob>, wit: Option<Blob>, chainId: int): Option<Blob> {
    var payload :- PayloadOrDefault(pl);
    var request :- NewPayloadRequestBytes(payload, [], None);
    var w :- WitnessOrDefault(wit);
    var chain :- U64(chainId);
    var body :- Container(InputParts(chain), [request, w]);
    Some([21, 1] + body)
  }

  /** The input whose payload and witness are themselves built. */
  function BuiltInputBytes(a: PayloadArgs, w: WitnessArgs, chainId: int): Option<Blob> {
    var pl :- PayloadBytes(a);
    var wit :- WitnessBytes(w);
    StatelessInputBytes(Some(pl), Some(wit), chainId)
  }

  // ----- layouts -----

  lemma PayloadLayout(f: seq<Part>, n: Numbers)
    requires f == PayloadParts(n)
    requires |n.number| == |n.gasLimit| == |n.gasUsed| == |n.timestamp| == 8
    requires |n.blobGasUsed| == |n.excessBlobGas| == |n.slot| == 8
    ensures FixedLength(f[..6]) == PLO_NUMBER && FixedLength(f[..7]) == PLO_GAS_LIMIT
      && FixedLength(f[..8]) == PLO_GAS_USED
    ensures FixedLength(f[..9]) == PLO_TIMESTAMP && FixedLength(f[..10]) == PLO_EXTRA_OFF
      && FixedLength(f[..13]) == PLO_TXS_OFF
    ensures FixedLength(f[..14]) == PLO_WD_OFF && FixedLength(f[..15]) == PLO_BLOB_GAS_USED
    ensures FixedLength(f[..16]) == PLO_EXCESS_BLOB_GAS && FixedLength(f[..17]) == PLO_BAL_OFF
    ensures FixedLength(f[..18]) == PLO_SLOT && FixedLength(f) == PL_FIXED
    ensures Placeholders(f[..10]) == 0 && Placeholders(f[..13]) == 1 && Placeholders(f[..14]) == 2
      && Placeholders(f[..17]) == 3
    ensures Placeholders(f) == 4
  {
    hide FixedLength, Placeholders;
    NoParts(f);
    FixedStep(f, 0); FixedStep(f, 1); FixedStep(f, 2); FixedStep(f, 3); FixedStep(f, 4);
    FixedStep(f, 5); FixedStep(f, 6); FixedStep(f, 7); FixedStep(f, 8); FixedStep(f, 9);
    FixedStep(f, 10); FixedStep(f, 11); FixedStep(f, 12); FixedStep(f, 13); FixedStep(f, 14);
    FixedStep(f, 15); FixedStep(f, 16); FixedStep(f, 17); FixedStep(f, 18);
    assert f[..19] == f;
  }

  lemma NoParts(f: seq<Part>)
    ensures FixedLength(f[..0]) == 0 && Placeholders(f[..0]) == 0
  {}

  lemma ThreeOffsets(f: seq<Part>)
    requires |f| >= 3 && f[0] == None && f[1] == None
    ensures FixedLength(f[..0]) == 0 && FixedLength(f[..1]) == 4 && FixedLength(f[..2]) == 8
    ensures FixedLength(f[..3]) == 8 + PartLength(f[2])
    ensures Placeholders(f[..0]) == 0 && Placeholders(f[..1]) == 1 && Placeholders(f[..2]) == 2
    ensures Placeholders(f[..3]) == 2 + if f[2].None? then 1 else 0
  {
    NoParts(f);
    FixedStep(f, 0);
    FixedStep(f, 1);
    FixedStep(f, 2);
  }

  lemma VarTotals(vars: seq<Blob>)
    ensures Total(vars[..0]) == 0
    ensures |vars| >= 1 ==> Total(vars[..1]) == |vars[0]|
    ensures |vars| >= 2 ==> Total(vars[..2]) == |vars[0]| + |vars[1]|
    ensures |vars| >= 3 ==> Total(vars[..3]) == |vars[0]| + |vars[1]| + |vars[2]|
    ensures |vars| >= 4 ==> Total(vars[..4]) == |vars[0]| + |vars[1]| + |vars[2]| + |vars[3]|
  {
    NoneTotalsZero(vars);
    if |vars| >= 1 { TotalStep(vars, 0); }
    if |vars| >= 2 { TotalStep(vars, 1); }
    if |vars| >= 3 { TotalStep(vars, 2); }
    if |vars| >= 4 { TotalStep(vars, 3); }
  }

  lemma Le32Bound(b: Blob, q: nat)
    ensures Le32(b, q) < 0x1_0000_0000
  {}

  lemma VarListCount(es: seq<Blob>)
    requires VarList(es).Some?
    ensures |es| < 0x4000_0000
  {
    if es != [] {
      OffsetTablePrefix(es, 4 * |es|, 1, |es|);
      NoneTotalsZero(es);
    }
  }

  // ----- the payload -----

  /** The decoder's four offsets, and the parts they lead to. */
  lemma PayloadOffsets(b: Blob, p: nat, n: Numbers, vars: seq<Blob>)
    requires |n.number| == |n.gasLimit| == |n.gasUsed| == |n.timestamp| == 8
    requires |n.blobGasUsed| == |n.excessBlobGas| == |n.slot| == 8
    requires |vars| == 4 && Container(PayloadParts(n), vars).Some? && At(b, p, Container(PayloadParts(n), vars).value)
    ensures |Container(PayloadParts(n), vars).value| == PL_FIXED + |vars[0]| + |vars[1]| + |vars[2]| + |vars[3]|
    ensures Le32(b, p + PLO_EXTRA_OFF) == PL_FIXED && Le32(b, p + PLO_TXS_OFF) == PL_FIXED + |vars[0]|
    ensures Le32(b, p + PLO_WD_OFF) == PL_FIXED + |vars[0]| + |vars[1]|
    ensures Le32(b, p + PLO_BAL_OFF) == PL_FIXED + |vars[0]| + |vars[1]| + |vars[2]|
    ensures At(b, p + PL_FIXED, vars[0]) && At(b, p + PL_FIXED + |vars[0]|, vars[1])
  {
    hide Container, At, Le32, FixedLength, Placeholders, Total;
    var f := PayloadParts(n);
    PayloadLayout(f, n);
    VarTotals(vars);
    OffsetOf(b, p, f, vars, 10);
    OffsetOf(b, p, f, vars, 13);
    OffsetOf(b, p, f, vars, 14);
    OffsetOf(b, p, f, vars, 17);
    assert vars[..4] == vars;
  }

  lemma NumberOf(b: Blob, p: nat, f: seq<Part>, vars: seq<Blob>, i: nat, x: int)
    requires Container(f, vars).Some? && At(b, p, Container(f, vars).value)
    requires i < |f| && U64(x).Some? && f[i] == U64(x)
    ensures Le64(b, p + FixedLength(f[..i])) == x
  {
    PartOf(b, p, f, vars, i);
    U64ReadsBack(b, p + FixedLength(f[..i]), x);
  }

  /** The payload's numbers at `p`, each at its place in the layout. */
  predicate NumbersRead(b: Blob, p: nat, a: PayloadArgs) {
    && Le64(b, p + 404) == a.number && Le64(b, p + 412) == a.gasLimit && Le64(b, p + 420) == a.gasUsed
    && Le64(b, p + 428) == a.timestamp && Le64(b, p + 512) == a.blobGasUsed
    && Le64(b, p + 520) == a.excessBlobGas && Le64(b, p + 532) == a.slot
  }

  lemma NumbersAt(b: Blob, p: nat, a: PayloadArgs, vars: seq<Blob>)
    requires PayloadNumbers(a).Some?
    requires var c := Container(PayloadParts(PayloadNumbers(a).value), vars); c.Some? && At(b, p, c.value)
    ensures NumbersRead(b, p, a)
  {
    hide Container, At, Le64, FixedLength, Placeholders;
    var n := PayloadNumbers(a).value;
    var f := PayloadParts(n);
    PayloadLayout(f, n);
    NumberOf(b, p, f, vars, 6, a.number);
    NumberOf(b, p, f, vars, 7, a.gasLimit);
    NumberOf(b, p, f, vars, 8, a.gasUsed);
    NumberOf(b, p, f, vars, 9, a.timestamp);
    NumberOf(b, p, f, vars, 15, a.blobGasUsed);
    NumberOf(b, p, f, vars, 16, a.excessBlobGas);
    NumberOf(b, p, f, vars, 18, a.slot);
  }

  /** What the decoder makes of a payload built from `a`, at `p`. */
  function PayloadOf(p: nat, len: nat, a: PayloadArgs): Payload
    requires PayloadNumbers(a).Some?
  {
    Payload(Slice(p, len), Slice(p + PL_FIXED, |a.extra|), ElementSlices(p + PL_FIXED + |a.extra|, a.txs),
      |a.withdrawals| / 44, |a.bal|,
      a.number, a.gasLimit, a.gasUsed, a.timestamp, a.blobGasUsed, a.excessBlobGas, a.slot)
  }

  predicate PayloadWithinLimits(a: PayloadArgs) {
    |a.extra| <= 32 && |a.withdrawals| % 44 == 0
  }

  /** How many elements of `size` bytes a byte string holds, where a whole number of them and
      fewer than 2^63. */
  function CountOf(bytes: Blob, size: nat): Option<nat>
    requires size > 0
  {
    if |bytes| % size == 0 && |bytes| / size < 0x8000_0000_0000_0000 then Some(|bytes| / size) else None
  }

  lemma CountFits(len: nat, size: nat)
    requires 0 < size && len < 0x1_0000_0000
    ensures FixedListCount(len, size, SSZ_UNBOUNDED) == if len % size == 0 then Some(len / size) else None
  {}

  lemma AtIsBytes(b: Blob, p: nat, s: Blob)
    requires At(b, p, s)
    ensures BytesOf(b, Slice(p, |s|)) == s
  {}

  /** The payload's region, given where its offsets lead. */
  lemma PayloadFromOffsets(b: Blob, p: nat, len: nat, a: PayloadArgs, txs: nat)
    requires PayloadNumbers(a).Some? && NumbersRead(b, p, a)
    requires len == PL_FIXED + |a.extra| + txs + |a.withdrawals| + |a.bal| && |a.withdrawals| < 0x1_0000_0000
    requires Le32(b, p + PLO_EXTRA_OFF) == PL_FIXED && Le32(b, p + PLO_TXS_OFF) == PL_FIXED + |a.extra|
    requires Le32(b, p + PLO_WD_OFF) == PL_FIXED + |a.extra| + txs
    requires Le32(b, p + PLO_BAL_OFF) == PL_FIXED + |a.extra| + txs + |a.withdrawals|
    requires SplitVarList(b, p + (PL_FIXED + |a.extra|), txs, SSZ_UNBOUNDED) ==
      Some(ElementSlices(p + PL_FIXED + |a.extra|, a.txs))
    ensures DecodePayload(b, p, len) == if PayloadWithinLimits(a) then Some(PayloadOf(p, len, a)) else None
  {
    hide Le32, Le64, SplitVarList, FixedListCount;
    CountFits(|a.withdrawals|, 44);
  }

  lemma NumberLengths(a: PayloadArgs)
    requires PayloadNumbers(a).Some?
    ensures var n := PayloadNumbers(a).value;
      && |n.number| == |n.gasLimit| == |n.gasUsed| == |n.timestamp| == 8
      && |n.blobGasUsed| == |n.excessBlobGas| == |n.slot| == 8
  {}

  lemma PayloadDecodes(b: Blob, p: nat, a: PayloadArgs)
    requires PayloadBytes(a).Some? && At(b, p, PayloadBytes(a).value)
    ensures var len := |PayloadBytes(a).value|;
      DecodePayload(b, p, len) == if PayloadWithinLimits(a) then Some(PayloadOf(p, len, a)) else None
    ensures BytesOf(b, Slice(p + PL_FIXED, |a.extra|)) == a.extra
    ensures Elements(b, ElementSlices(p + PL_FIXED + |a.extra|, a.txs)) == a.txs
  {
    hide Le32, Le64, Container, At, VarList, SplitVarList, DecodePayload, Elements, NumbersRead, PayloadOf,
      PayloadNumbers, PayloadParts, BytesOf, PayloadWithinLimits, ElementSlices;
    NumberLengths(a);
    var n, txs := PayloadNumbers(a).value, VarList(a.txs).value;
    var vars := [a.extra, txs, a.withdrawals, a.bal];
    PayloadOffsets(b, p, n, vars);
    NumbersAt(b, p, a, vars);
    var q := p + (PL_FIXED + |a.extra|);
    SplitBuilt(b, q, a.txs, SSZ_UNBOUNDED);
    VarListCount(a.txs);
    Le32Bound(b, p + PLO_BAL_OFF);
    PayloadFromOffsets(b, p, |PayloadBytes(a).value|, a, |txs|);
    AtIsBytes(b, p + PL_FIXED, a.extra);
  }

  // ----- requests and the new-payload request -----

  lemma RequestLayout()
    ensures var f := RequestParts;
      && FixedLength(f[..0]) == 0 && FixedLength(f[..1]) == 4 && FixedLength(f[..2]) == 8 && FixedLength(f[..3]) == 12
      && FixedLength(f[..4]) == 16 && FixedLength(f) == REQ_FIXED
      && Placeholders(f[..0]) == 0 && Placeholders(f[..1]) == 1 && Placeholders(f[..2]) == 2
      && Placeholders(f[..3]) == 3 && Placeholders(f[..4]) == 4
  {
    hide FixedLength, Placeholders;
    var f := RequestParts;
    ThreeOffsets(f);
    FixedStep(f, 3);
    FixedStep(f, 4);
    assert f[..5] == f;
  }

  lemma FiveTotal(parts: seq<Blob>)
    requires |parts| == 5
    ensures Total(parts) == |parts[0]| + |parts[1]| + |parts[2]| + |parts[3]| + |parts[4]|
  {
    VarTotals(parts);
    TotalStep(parts, 4);
    assert parts[..5] == parts;
  }

  /** How many requests of each kind the five byte strings hold; none where a length is no
      multiple of its kind's size. */
  function RequestCounts(parts: seq<Blob>): Option<Requests>
    requires |parts| == 5
  {
    var deposits :- CountOf(parts[0], 192);
    var withdrawals :- CountOf(parts[1], 76);
    var consolidations :- CountOf(parts[2], 116);
    var builderDeposits :- CountOf(parts[3], 184);
    var builderExits :- CountOf(parts[4], 68);
    Some(Requests(deposits, withdrawals, consolidations, builderDeposits, builderExits))
  }

  lemma RequestOffsets(b: Blob, p: nat, parts: seq<Blob>)
    requires |parts| == 5 && RequestsBytes(parts).Some? && At(b, p, RequestsBytes(parts).value)
    ensures |RequestsBytes(parts).value| == REQ_FIXED + |parts[0]| + |parts[1]| + |parts[2]| + |parts[3]| + |parts[4]|
    ensures Le32(b, p) == REQ_FIXED && Le32(b, p + 4) == REQ_FIXED + |parts[0]|
    ensures Le32(b, p + 8) == REQ_FIXED + |parts[0]| + |parts[1]|
    ensures Le32(b, p + 12) == REQ_FIXED + |parts[0]| + |parts[1]| + |parts[2]|
    ensures Le32(b, p + 16) == REQ_FIXED + |parts[0]| + |parts[1]| + |parts[2]| + |parts[3]|
  {
    hide Container, At, Le32, FixedLength, Placeholders, Total;
    RequestLayout();
    FiveTotal(parts);
    VarTotals(parts);
    OffsetOf(b, p, RequestParts, parts, 0);
    OffsetOf(b, p, RequestParts, parts, 1);
    OffsetOf(b, p, RequestParts, parts, 2);
    OffsetOf(b, p, RequestParts, parts, 3);
    OffsetOf(b, p, RequestParts, parts, 4);
  }

  /** A built request container decodes to the counts of its five parts. */
  lemma RequestsDecode(b: Blob, p: nat, parts: seq<Blob>)
    requires |parts| == 5 && RequestsBytes(parts).Some? && At(b, p, RequestsBytes(parts).value)
    ensures DecodeRequests(b, p, |RequestsBytes(parts).value|) == RequestCounts(parts)
  {
    hide RequestsBytes, At, Le32;
    RequestOffsets(b, p, parts);
  }

  lemma NoRequestsDecode(b: Blob, p: nat)
    requires RequestsBytes(NoRequests).Some? && At(b, p, RequestsBytes(NoRequests).value)
    ensures DecodeRequests(b, p, |RequestsBytes(NoRequests).value|) == Some(Requests(0, 0, 0, 0, 0))
  {
    hide RequestsBytes, At, DecodeRequests;
    RequestsDecode(b, p, NoRequests);
  }

  lemma NewPayloadOffsets(b: Blob, p: nat, vars: seq<Blob>)
    requires |vars| == 3 && Container(NewPayloadParts, vars).Some? && At(b, p, Container(NewPayloadParts, vars).value)
    ensures |Container(NewPayloadParts, vars).value| == NPR_FIXED + |vars[0]| + |vars[1]| + |vars[2]|
    ensures Le32(b, p) == NPR_FIXED && Le32(b, p + 4) == NPR_FIXED + |vars[0]|
    ensures Le32(b, p + 40) == NPR_FIXED + |vars[0]| + |vars[1]|
    ensures At(b, p + NPR_FIXED, vars[0]) && At(b, p + NPR_FIXED + |vars[0]| + |vars[1]|, vars[2])
  {
    hide Container, At, Le32, FixedLength, Placeholders, Total;
    var f := NewPayloadParts;
    ThreeOffsets(f);
    FixedStep(f, 3);
    assert f[..4] == f;
    VarTotals(vars);
    assert vars[..3] == vars;
    OffsetOf(b, p, f, vars, 0);
    OffsetOf(b, p, f, vars, 1);
    OffsetOf(b, p, f, vars, 3);
  }

  function RequestFrom(payload: Option<Payload>, hashes: Blob, requests: Option<Requests>): Option<Request> {
    var pl :- payload;
    var count :- CountOf(hashes, 32);
    var reqs :- requests;
    Some(Request(pl, count, reqs))
  }

  /** A built request decodes to what its payload and its request container decode to, each
      where it stands, and to the number of its hashes, whatever the three are. */
  lemma NewPayloadDecodes(b: Blob, p: nat, pl: Blob, hashes: Blob, reqs: Option<Blob>)
    requires NewPayloadRequestBytes(pl, hashes, reqs).Some? && At(b, p, NewPayloadRequestBytes(pl, hashes, reqs).value)
    ensures At(b, p + NPR_FIXED, pl) && At(b, p + (NPR_FIXED + |pl| + |hashes|), RequestsOrNone(reqs).value)
    ensures |NewPayloadRequestBytes(pl, hashes, reqs).value| ==
      NPR_FIXED + |pl| + |hashes| + |RequestsOrNone(reqs).value|
    ensures DecodeNewPayloadRequest(b, p, |NewPayloadRequestBytes(pl, hashes, reqs).value|) ==
      RequestFrom(DecodePayload(b, p + NPR_FIXED, |pl|), hashes,
        DecodeRequests(b, p + (NPR_FIXED + |pl| + |hashes|), |RequestsOrNone(reqs).value|))
  {
    hide Container, At, Le32, DecodePayload, DecodeRequests, RequestsOrNone;
    NewPayloadOffsets(b, p, [pl, hashes, RequestsOrNone(reqs).value]);
  }

  /** A request built from its parts decodes exactly within the limits, with every number of
      the payload and every count coming back. */
  lemma BuiltRequestDecodes(b: Blob, p: nat, a: PayloadArgs, hashes: Blob, parts: seq<Blob>)
    requires PayloadBytes(a).Some? && |parts| == 5 && RequestsBytes(parts).Some?
    requires var built := NewPayloadRequestBytes(PayloadBytes(a).value, hashes, RequestsBytes(parts));
      built.Some? && At(b, p, built.value)
    ensures var pl := PayloadBytes(a).value;
      DecodeNewPayloadRequest(b, p, |NewPayloadRequestBytes(pl, hashes, RequestsBytes(parts)).value|) ==
        RequestFrom(
          if PayloadWithinLimits(a) then Some(PayloadOf(p + NPR_FIXED, |pl|, a)) else None,
          hashes,
          RequestCounts(parts))
  {
    hide PayloadBytes, RequestsBytes, NewPayloadRequestBytes, At, DecodePayload, DecodeRequests,
      DecodeNewPayloadRequest, PayloadOf, PayloadWithinLimits, PayloadNumbers, RequestFrom, RequestCounts;
    assert PayloadNumbers(a).Some? by {
      BuiltNumbers(a);
    }
    var pl := PayloadBytes(a).value;
    NewPayloadDecodes(b, p, pl, hashes, RequestsBytes(parts));
    PayloadDecodes(b, p + NPR_FIXED, a);
    RequestsDecode(b, p + (NPR_FIXED + |pl| + |hashes|), parts);
  }

  /** The request of a stateless input: no hashes, no requests. */
  lemma PlainRequestDecodes(b: Blob, p: nat, pl: Blob)
    requires var built := NewPayloadRequestBytes(pl, [], None); built.Some? && At(b, p, built.value)
    ensures At(b, p + NPR_FIXED, pl)
    ensures |NewPayloadRequestBytes(pl, [], None).value| == NPR_FIXED + |pl| + REQ_FIXED
    ensures var payload := DecodePayload(b, p + NPR_FIXED, |pl|);
      DecodeNewPayloadRequest(b, p, |NewPayloadRequestBytes(pl, [], None).value|) ==
        if payload.Some? then Some(Request(payload.value, 0, Requests(0, 0, 0, 0, 0))) else None
  {
    hide Container, At, DecodePayload, DecodeRequests, DecodeNewPayloadRequest, RequestsBytes;
    NewPayloadDecodes(b, p, pl, [], None);
    NoRequestsDecode(b, p + (NPR_FIXED + |pl| + 0));
    RequestsFit();
  }

  lemma BuiltNumbers(a: PayloadArgs)
    requires PayloadBytes(a).Some?
    ensures PayloadNumbers(a).Some?
  {
    hide PayloadNumbers;
  }

  // ----- the witness -----

  lemma WitnessOffsets(b: Blob, p: nat, vars: seq<Blob>)
    requires |vars| == 3 && Container(WitnessParts, vars).Some? && At(b, p, Container(WitnessParts, vars).value)
    ensures |Container(WitnessParts, vars).value| == WITNESS_FIXED + |vars[0]| + |vars[1]| + |vars[2]|
    ensures Le32(b, p) == WITNESS_FIXED && Le32(b, p + 4) == WITNESS_FIXED + |vars[0]|
    ensures Le32(b, p + 8) == WITNESS_FIXED + |vars[0]| + |vars[1]|
    ensures At(b, p + WITNESS_FIXED, vars[0]) && At(b, p + (WITNESS_FIXED + |vars[0]|), vars[1])
    ensures At(b, p + (WITNESS_FIXED + |vars[0]| + |vars[1]|), vars[2])
  {
    hide Container, At, Le32, FixedLength, Placeholders, Total;
    var f := WitnessParts;
    ThreeOffsets(f);
    assert f[..3] == f;
    VarTotals(vars);
    assert vars[..3] == vars;
    OffsetOf(b, p, f, vars, 0);
    OffsetOf(b, p, f, vars, 1);
    OffsetOf(b, p, f, vars, 2);
  }

  predicate EachAtMost(es: seq<Blob>, n: nat) {
    forall i :: 0 <= i < |es| ==> |es[i]| <= n
  }

  predicate WitnessWithinLimits(w: WitnessArgs) {
    && EachAtMost(w.state, 1024) && EachAtMost(w.codes, 65536)
    && EachAtMost(w.headers, 1024) && |w.headers| <= 256
  }

  /** A built list of bounded byte strings is accepted exactly within its two limits. */
  lemma BytesListDecodes(b: Blob, p: nat, es: seq<Blob>, lim: nat, maxBytes: nat)
    requires VarList(es).Some? && At(b, p, VarList(es).value)
    ensures DecodeBytesList(b, p, |VarList(es).value|, lim, maxBytes) ==
      if |es| <= lim && EachAtMost(es, maxBytes) then Some(ElementSlices(p, es)) else None
    ensures Elements(b, ElementSlices(p, es)) == es
  {
    hide SplitVarList, At, Elements, VarList, ElementSlices, AllShort, EachAtMost;
    SplitBuilt(b, p, es, lim);
    ShortElements(p, es, maxBytes);
  }

  lemma ShortElements(p: nat, es: seq<Blob>, maxBytes: nat)
    ensures AllShort(ElementSlices(p, es), maxBytes) <==> EachAtMost(es, maxBytes)
  {
    hide Total;
    assert forall i :: 0 <= i < |es| ==> ElementSlices(p, es)[i].len == |es[i]|;
  }

  /** What the decoder makes of a witness built from `w`, at `p`. */
  function WitnessOf(p: nat, w: WitnessArgs): Witness {
    var s, c := 4 * |w.state| + Total(w.state), 4 * |w.codes| + Total(w.codes);
    Witness(ElementSlices(p + WITNESS_FIXED, w.state), ElementSlices(p + (WITNESS_FIXED + s), w.codes),
      ElementSlices(p + (WITNESS_FIXED + s + c), w.headers))
  }

  predicate WitnessCarries(b: Blob, r: Witness, w: WitnessArgs) {
    Elements(b, r.state) == w.state && Elements(b, r.codes) == w.codes && Elements(b, r.headers) == w.headers
  }

  lemma WitnessDecodes(b: Blob, p: nat, w: WitnessArgs)
    requires WitnessBytes(w).Some? && At(b, p, WitnessBytes(w).value)
    ensures DecodeWitness(b, p, |WitnessBytes(w).value|) ==
      if WitnessWithinLimits(w) then Some(WitnessOf(p, w)) else None
    ensures WitnessCarries(b, WitnessOf(p, w), w)
  {
    hide Container, At, Le32, Total, VarList, DecodeBytesList, EachAtMost, Elements;
    var state, codes, headers := VarList(w.state).value, VarList(w.codes).value, VarList(w.headers).value;
    WitnessOffsets(b, p, [state, codes, headers]);
    BytesListDecodes(b, p + WITNESS_FIXED, w.state, SSZ_UNBOUNDED, MAX_BYTES_PER_WITNESS_NODE);
    BytesListDecodes(b, p + (WITNESS_FIXED + |state|), w.codes, SSZ_UNBOUNDED, MAX_BYTES_PER_CODE);
    BytesListDecodes(b, p + (WITNESS_FIXED + |state| + |codes|), w.headers, MAX_WITNESS_HEADERS, MAX_BYTES_PER_HEADER);
    VarListCount(w.state);
    VarListCount(w.codes);
  }

  // ----- the whole input -----

  lemma InputOffsets(b: Blob, chain: Blob, vars: seq<Blob>, chainId: int)
    requires U64(chainId) == Some(chain)
    requires |vars| == 2 && Container(InputParts(chain), vars).Some?
      && At(b, 2, Container(InputParts(chain), vars).value)
    ensures |Container(InputParts(chain), vars).value| == SI_FIXED + |vars[0]| + |vars[1]|
    ensures Le32(b, 2) == SI_FIXED && Le32(b, 6) == SI_FIXED + |vars[0]| && Le64(b, 10) == chainId
    ensures At(b, 2 + SI_FIXED, vars[0]) && At(b, 2 + (SI_FIXED + |vars[0]|), vars[1])
  {
    hide Container, At, Le32, FixedLength, Placeholders, Total, Le64;
    var f := InputParts(chain);
    ThreeOffsets(f);
    assert f[..3] == f;
    VarTotals(vars);
    assert vars[..2] == vars;
    OffsetOf(b, 2, f, vars, 0);
    OffsetOf(b, 2, f, vars, 1);
    NumberOf(b, 2, f, vars, 2, chainId);
  }

  lemma HeaderDecodes(b: Blob, body: Blob)
    requires b == [21, 1] + body
    ensures ByteAt(b, 0) == 21 && ByteAt(b, 1) == 1 && At(b, 2, body) && Monus(|b|, 2) == |body|
  {}

  /** The decoded input says what was put into the blob, field by field. */
  predicate Carries(b: Blob, r: StatelessInput, a: PayloadArgs, w: WitnessArgs, chainId: int) {
    && BytesOf(b, r.payload.extraData) == a.extra
    && Elements(b, r.payload.transactions) == a.txs
    && r.payload.withdrawalCount * 44 == |a.withdrawals|
    && r.payload.blockAccessListLength == |a.bal|
    && r.payload.number == a.number && r.payload.gasLimit == a.gasLimit && r.payload.gasUsed == a.gasUsed
    && r.payload.timestamp == a.timestamp && r.payload.blobGasUsed == a.blobGasUsed
    && r.payload.excessBlobGas == a.excessBlobGas && r.payload.slot == a.slot
    && r.versionedHashCount == 0 && r.requests == Requests(0, 0, 0, 0, 0)
    && WitnessCarries(b, Witness(r.witnessState, r.witnessCodes, r.witnessHeaders), w)
    && r.chainId == chainId
  }

  /** Decoding `b` succeeds exactly within the schema's limits, and then gives everything
      back. */
  predicate RoundTrips(b: Blob, a: PayloadArgs, w: WitnessArgs, chainId: int) {
    var r := DecodeStatelessInput(b);
    && (r.Some? <==> PayloadWithinLimits(a) && WitnessWithinLimits(w))
    && (r.Some? ==> Carries(b, r.value, a, w, chainId))
  }

  const PAYLOAD_AT: nat := 2 + SI_FIXED + NPR_FIXED

  function WitnessAt(pl: Blob): nat {
    PAYLOAD_AT + |pl| + REQ_FIXED
  }

  function InputFrom(payload: Option<Payload>, w: Option<Witness>, chainId: nat): Option<StatelessInput> {
    var pl :- payload;
    var wit :- w;
    Some(StatelessInput(pl, 0, Requests(0, 0, 0, 0, 0), wit.state, wit.codes, wit.headers, chainId))
  }

  /** An input built around any payload and any witness bytes decodes to what the two decode
      to where they stand, and to the chain; it fails exactly where one of them does. */
  lemma InputDecodes(pl: Option<Blob>, wit: Option<Blob>, chainId: int)
    requires StatelessInputBytes(pl, wit, chainId).Some?
    ensures var b, payload, w :=
        StatelessInputBytes(pl, wit, chainId).value, PayloadOrDefault(pl).value, WitnessOrDefault(wit).value;
      && At(b, PAYLOAD_AT, payload) && At(b, WitnessAt(payload), w) && chainId >= 0
      && DecodeStatelessInput(b) ==
           InputFrom(DecodePayload(b, PAYLOAD_AT, |payload|), DecodeWitness(b, WitnessAt(payload), |w|), chainId)
  {
    hide Container, At, Le32, Le64, DecodePayload, DecodeNewPayloadRequest, DecodeWitness, NewPayloadRequestBytes,
      PayloadOrDefault, WitnessOrDefault;
    var b := StatelessInputBytes(pl, wit, chainId).value;
    var payload, w, chain := PayloadOrDefault(pl).value, WitnessOrDefault(wit).value, U64(chainId).value;
    var request := NewPayloadRequestBytes(payload, [], None).value;
    var body := Container(InputParts(chain), [request, w]).value;
    HeaderDecodes(b, body);
    InputOffsets(b, chain, [request, w], chainId);
    PlainRequestDecodes(b, 2 + SI_FIXED, payload);
  }

  lemma BuiltInputDecodes(a: PayloadArgs, w: WitnessArgs, chainId: int)
    ensures var built := BuiltInputBytes(a, w, chainId); built.Some? ==> RoundTrips(built.value, a, w, chainId)
  {
    hide At, Elements, DecodePayload, DecodeStatelessInput, DecodeWitness, WitnessWithinLimits, PayloadBytes,
      StatelessInputBytes, WitnessBytes, WitnessOf, WitnessCarries;
    if BuiltInputBytes(a, w, chainId).Some? {
      var b, pl, wit := BuiltInputBytes(a, w, chainId).value, PayloadBytes(a).value, WitnessBytes(w).value;
      InputDecodes(Some(pl), Some(wit), chainId);
      PayloadDecodes(b, PAYLOAD_AT, a);
      WitnessDecodes(b, WitnessAt(pl), w);
    }
  }

  // ----- when the builder succeeds -----

  predicate IsU64(x: int) {
    0 <= x < 0x1_0000_0000_0000_0000
  }

  predicate NumbersFit(a: PayloadArgs) {
    && IsU64(a.number) && IsU64(a.gasLimit) && IsU64(a.gasUsed) && IsU64(a.timestamp)
    && IsU64(a.blobGasUsed) && IsU64(a.excessBlobGas) && IsU64(a.slot)
  }

  function ListSize(es: seq<Blob>): nat {
    4 * |es| + Total(es)
  }

  function PayloadSize(a: PayloadArgs): nat {
    PL_FIXED + |a.extra| + ListSize(a.txs) + |a.withdrawals| + |a.bal|
  }

  function WitnessSize(w: WitnessArgs): nat {
    WITNESS_FIXED + ListSize(w.state) + ListSize(w.codes) + ListSize(w.headers)
  }

  lemma PayloadFits(a: PayloadArgs)
    requires PayloadSize(a) < 0x1_0000_0000
    ensures PayloadBytes(a).Some? <==> NumbersFit(a)
    ensures PayloadBytes(a).Some? ==> |PayloadBytes(a).value| == PayloadSize(a)
  {
    hide Container, FixedLength, Placeholders, Total, VarList;
    VarListFits(a.txs);
    if NumbersFit(a) {
      var n, vars := PayloadNumbers(a).value, [a.extra, VarList(a.txs).value, a.withdrawals, a.bal];
      PayloadLayout(PayloadParts(n), n);
      VarTotals(vars);
      assert vars[..4] == vars;
      ContainerFits(PayloadParts(n), vars);
    }
  }

  lemma RequestsFit()
    ensures RequestsBytes(NoRequests).Some? && |RequestsBytes(NoRequests).value| == REQ_FIXED
  {
    hide Container, FixedLength, Placeholders, Total;
    RequestLayout();
    FiveTotal(NoRequests);
    FixedStep(RequestParts, 4);
    assert RequestParts[..5] == RequestParts;
    ContainerFits(RequestParts, NoRequests);
  }

  lemma NewPayloadFits(pl: Blob)
    requires NPR_FIXED + |pl| + REQ_FIXED < 0x1_0000_0000
    ensures NewPayloadRequestBytes(pl, [], None).Some?
    ensures |NewPayloadRequestBytes(pl, [], None).value| == NPR_FIXED + |pl| + REQ_FIXED
  {
    hide Container, FixedLength, Placeholders, Total;
    RequestsFit();
    var f, vars := NewPayloadParts, [pl, [], RequestsBytes(NoRequests).value];
    ThreeOffsets(f);
    FixedStep(f, 3);
    assert f[..4] == f;
    VarTotals(vars);
    assert vars[..3] == vars;
    ContainerFits(f, vars);
  }

  lemma WitnessFits(w: WitnessArgs)
    requires WitnessSize(w) < 0x1_0000_0000
    ensures WitnessBytes(w).Some? && |WitnessBytes(w).value| == WitnessSize(w)
  {
    hide Container, FixedLength, Placeholders, Total, VarList;
    VarListFits(w.state);
    VarListFits(w.codes);
    VarListFits(w.headers);
    var vars := [VarList(w.state).value, VarList(w.codes).value, VarList(w.headers).value];
    ThreeOffsets(WitnessParts);
    assert WitnessParts[..3] == WitnessParts;
    VarTotals(vars);
    assert vars[..3] == vars;
    ContainerFits(WitnessParts, vars);
  }

  /** Below 4 GiB, any payload and witness bytes make an input, unless the chain is not a
      64-bit number. */
  lemma InputFits(pl: Blob, wit: Blob, chainId: int)
    requires SI_FIXED + NPR_FIXED + |pl| + REQ_FIXED + |wit| < 0x1_0000_0000
    ensures StatelessInputBytes(Some(pl), Some(wit), chainId).Some? <==> IsU64(chainId)
  {
    hide Container, FixedLength, Placeholders, Total, NewPayloadRequestBytes;
    if IsU64(chainId) {
      var chain := U64(chainId).value;
      NewPayloadFits(pl);
      var vars := [NewPayloadRequestBytes(pl, [], None).value, wit];
      ThreeOffsets(InputParts(chain));
      assert InputParts(chain)[..3] == InputParts(chain);
      VarTotals(vars);
      assert vars[..2] == vars;
      ContainerFits(InputParts(chain), vars);
    }
  }

  /** Below 4 GiB, the builder raises exactly on numbers that are not 64-bit. */
  lemma BuilderSucceedsIff(a: PayloadArgs, w: WitnessArgs, chainId: int)
    requires SI_FIXED + NPR_FIXED + PayloadSize(a) + REQ_FIXED + WitnessSize(w) < 0x1_0000_0000
    ensures BuiltInputBytes(a, w, chainId).Some? <==> NumbersFit(a) && IsU64(chainId)
  {
    hide PayloadBytes, WitnessBytes, PayloadSize, WitnessSize, NumbersFit, StatelessInputBytes;
    PayloadFits(a);
    WitnessFits(w);
    if NumbersFit(a) {
      InputFits(PayloadBytes(a).value, WitnessBytes(w).value, chainId);
    }
  }

  /** Without arguments the input is that of an empty block, and it decodes. */
  lemma DefaultInputDecodes(chainId: int)
    ensures var built := StatelessInputBytes(None, None, chainId);
      && (built.Some? <==> IsU64(chainId))
      && (built.Some? ==>
            && [21, 1] <= built.value && DecodeStatelessInput(built.value).Some?
            && Carries(built.value, DecodeStatelessInput(built.value).value,
                       PayloadArgs(200_000_000, 0, 0, 0, [], [], [], [], 0, 0, 0), WitnessArgs([], [], []), chainId))
  {
    DefaultSizes();
    hide PayloadBytes, WitnessBytes, DecodeStatelessInput, Carries, PayloadSize, WitnessSize;
    PayloadFits(DefaultPayload);
    WitnessFits(DefaultWitness);
    assert StatelessInputBytes(None, None, chainId) == BuiltInputBytes(DefaultPayload, DefaultWitness, chainId);
    BuilderSucceedsIff(DefaultPayload, DefaultWitness, chainId);
    BuiltInputDecodes(DefaultPayload, DefaultWitness, chainId);
  }

  lemma DefaultSizes()
    ensures PayloadSize(DefaultPayload) == PL_FIXED && WitnessSize(DefaultWitness) == WITNESS_FIXED
    ensures NumbersFit(DefaultPayload) && PayloadWithinLimits(DefaultPayload) && WitnessWithinLimits(DefaultWitness)
  {}
}
