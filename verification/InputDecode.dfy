/** The guest's SSZ decoding of the stateless input, as a function of the blob's bytes.

    Reads past the blob see zeros and subtraction stops at zero, as in the Lean function
    modelled here. `CheckedDecode` is the same decoder on checked reads and checked
    subtraction; that it is the same function on every blob is what shows that the padding
    is never read and no subtraction ever truncates. */
module InputDecode {
  import opened Words
  import opened BigEndian

  type Blob = seq<byte>

  function ByteAt(b: Blob, i: nat): byte {
    if i < |b| then b[i] else 0
  }

  function Le32(b: Blob, i: nat): nat {
    ByteAt(b, i) + ByteAt(b, i + 1) * 0x100 + ByteAt(b, i + 2) * 0x1_0000 + ByteAt(b, i + 3) * 0x100_0000
  }

  function Le64(b: Blob, i: nat): nat {
    Le32(b, i) + Le32(b, i + 4) * 0x1_0000_0000
  }

  /** Subtraction of natural numbers that stops at zero. */
  function Monus(a: nat, b: nat): nat {
    if b <= a then a - b else 0
  }

  // ----- field offsets and list limits -----

  const SI_FIXED: nat := 16
  const NPR_FIXED: nat := 44
  const PL_FIXED: nat := 540
  const REQ_FIXED: nat := 20
  const WITNESS_FIXED: nat := 12

  const PLO_NUMBER: nat := 404
  const PLO_GAS_LIMIT: nat := 412
  const PLO_GAS_USED: nat := 420
  const PLO_TIMESTAMP: nat := 428
  const PLO_EXTRA_OFF: nat := 436
  const PLO_TXS_OFF: nat := 504
  const PLO_WD_OFF: nat := 508
  const PLO_BLOB_GAS_USED: nat := 512
  const PLO_EXCESS_BLOB_GAS: nat := 520
  const PLO_BAL_OFF: nat := 528
  const PLO_SLOT: nat := 532

  const WITHDRAWAL_SIZE: nat := 44
  const DEPOSIT_SIZE: nat := 192
  const WDREQ_SIZE: nat := 76
  const CONS_SIZE: nat := 116
  const BDEP_SIZE: nat := 184
  const BEXIT_SIZE: nat := 68
  const HASH_SIZE: nat := 32

  const SSZ_UNBOUNDED: nat := 0x7FFF_FFFF_FFFF_FFFF
  const MAX_EXTRA_DATA_BYTES: nat := 32
  const MAX_WITNESS_HEADERS: nat := 256
  const MAX_BYTES_PER_WITNESS_NODE: nat := 1024
  const MAX_BYTES_PER_CODE: nat := 65536
  const MAX_BYTES_PER_HEADER: nat := 1024

  // ----- helpers -----

  predicate Nondecreasing(offsets: seq<nat>) {
    forall i, j :: 0 <= i < |offsets| && j == i + 1 < |offsets| ==> offsets[i] <= offsets[j]
  }

  predicate AllWithin(offsets: seq<nat>, low: nat, high: nat) {
    forall i :: 0 <= i < |offsets| ==> low <= offsets[i] <= high
  }

  predicate CheckOffsets(offsets: seq<nat>, fixed: nat, len: nat) {
    offsets != [] ==> AllWithin(offsets, fixed, len) && Nondecreasing(offsets) && offsets[0] == fixed
  }

  datatype Slice = Slice(off: nat, len: nat)

  function ReadOffsets(b: Blob, p: nat, count: nat): (r: seq<nat>)
    ensures |r| == count && forall i :: 0 <= i < count ==> r[i] == Le32(b, p + i * 4)
  {
    seq(count, i requires 0 <= i < count => Le32(b, p + i * 4))
  }

  /** Slice `i` of a list of `len` bytes: it ends where the next one begins, the last one at `len`. */
  function SliceAt(p: nat, offsets: seq<nat>, len: nat, i: nat): Slice
    requires i < |offsets|
  {
    Slice(p + offsets[i], Monus(if i + 1 < |offsets| then offsets[i + 1] else len, offsets[i]))
  }

  function SlicesOf(p: nat, offsets: seq<nat>, len: nat): (r: seq<Slice>)
    ensures |r| == |offsets| && forall i :: 0 <= i < |offsets| ==> r[i] == SliceAt(p, offsets, len, i)
  {
    seq(|offsets|, i requires 0 <= i < |offsets| => SliceAt(p, offsets, len, i))
  }

  /** The slices of a serialized list of variable-size elements in `len` bytes at `p`. */
  function SplitVarList(b: Blob, p: nat, len: nat, lim: nat): Option<seq<Slice>> {
    if len == 0 then Some([])
    else if len < 4 then None
    else
      var first := Le32(b, p);
      if !(first != 0 && first % 4 == 0 && first <= len) then None
      else
        var count := first / 4;
        if count > lim then None
        else
          var offsets := ReadOffsets(b, p, count);
          if !AllWithin(offsets, first, len) || !Nondecreasing(offsets) then None
          else Some(SlicesOf(p, offsets, len))
  }

  function FixedListCount(len: nat, size: nat, lim: nat): Option<nat> {
    if size == 0 then None
    else if len % size != 0 then None
    else if len / size > lim then None
    else Some(len / size)
  }

  predicate AllShort(slices: seq<Slice>, maxBytes: nat) {
    forall i :: 0 <= i < |slices| ==> slices[i].len <= maxBytes
  }

  function DecodeBytesList(b: Blob, p: nat, len: nat, lim: nat, maxBytes: nat): Option<seq<Slice>> {
    var slices :- SplitVarList(b, p, len, lim);
    if AllShort(slices, maxBytes) then Some(slices) else None
  }

  // ----- records -----

  datatype Payload = Payload(
    raw: Slice,
    extraData: Slice,
    transactions: seq<Slice>,
    withdrawalCount: nat,
    blockAccessListLength: nat,
    number: nat,
    gasLimit: nat,
    gasUsed: nat,
    timestamp: nat,
    blobGasUsed: nat,
    excessBlobGas: nat,
    slot: nat)

  datatype Requests = Requests(
    deposits: nat, withdrawals: nat, consolidations: nat, builderDeposits: nat, builderExits: nat)

  datatype StatelessInput = StatelessInput(
    payload: Payload,
    versionedHashCount: nat,
    requests: Requests,
    witnessState: seq<Slice>,
    witnessCodes: seq<Slice>,
    witnessHeaders: seq<Slice>,
    chainId: nat)

  // ----- the decoders -----

  function DecodePayload(b: Blob, p: nat, len: nat): Option<Payload> {
    if len < PL_FIXED then None
    else
      var extraOffset := Le32(b, p + PLO_EXTRA_OFF);
      var txsOffset := Le32(b, p + PLO_TXS_OFF);
      var withdrawalsOffset := Le32(b, p + PLO_WD_OFF);
      var balOffset := Le32(b, p + PLO_BAL_OFF);
      if !CheckOffsets([extraOffset, txsOffset, withdrawalsOffset, balOffset], PL_FIXED, len) then None
      else if Monus(txsOffset, extraOffset) > MAX_EXTRA_DATA_BYTES then None
      else
        var transactions :- SplitVarList(b, p + txsOffset, Monus(withdrawalsOffset, txsOffset), SSZ_UNBOUNDED);
        var withdrawalCount :- FixedListCount(Monus(balOffset, withdrawalsOffset), WITHDRAWAL_SIZE, SSZ_UNBOUNDED);
        Some(Payload(
          Slice(p, len),
          Slice(p + extraOffset, Monus(txsOffset, extraOffset)),
          transactions,
          withdrawalCount,
          Monus(len, balOffset),
          Le64(b, p + PLO_NUMBER),
          Le64(b, p + PLO_GAS_LIMIT),
          Le64(b, p + PLO_GAS_USED),
          Le64(b, p + PLO_TIMESTAMP),
          Le64(b, p + PLO_BLOB_GAS_USED),
          Le64(b, p + PLO_EXCESS_BLOB_GAS),
          Le64(b, p + PLO_SLOT)))
  }

  function DecodeRequests(b: Blob, p: nat, len: nat): Option<Requests> {
    if len < REQ_FIXED then None
    else
      var o := ReadOffsets(b, p, 5);
      if !CheckOffsets(o, REQ_FIXED, len) then None
      else
        var deposits :- FixedListCount(Monus(o[1], o[0]), DEPOSIT_SIZE, SSZ_UNBOUNDED);
        var withdrawals :- FixedListCount(Monus(o[2], o[1]), WDREQ_SIZE, SSZ_UNBOUNDED);
        var consolidations :- FixedListCount(Monus(o[3], o[2]), CONS_SIZE, SSZ_UNBOUNDED);
        var builderDeposits :- FixedListCount(Monus(o[4], o[3]), BDEP_SIZE, SSZ_UNBOUNDED);
        var builderExits :- FixedListCount(Monus(len, o[4]), BEXIT_SIZE, SSZ_UNBOUNDED);
        Some(Requests(deposits, withdrawals, consolidations, builderDeposits, builderExits))
  }

  /** What is decoded of a new-payload request. */
  datatype Request = Request(payload: Payload, versionedHashCount: nat, requests: Requests)

  function DecodeRequestParts(b: Blob, np: nat, nlen: nat, o: (nat, nat, nat)): Option<Request> {
    var payload :- DecodePayload(b, np + o.0, Monus(o.1, o.0));
    var hashes :- FixedListCount(Monus(o.2, o.1), HASH_SIZE, SSZ_UNBOUNDED);
    var requests :- DecodeRequests(b, np + o.2, Monus(nlen, o.2));
    Some(Request(payload, hashes, requests))
  }

  function DecodeNewPayloadRequest(b: Blob, np: nat, nlen: nat): Option<Request> {
    if nlen < NPR_FIXED then None
    else
      var payloadOffset := Le32(b, np);
      var versionedHashesOffset := Le32(b, np + 4);
      var requestsOffset := Le32(b, np + 40);
      if !CheckOffsets([payloadOffset, versionedHashesOffset, requestsOffset], NPR_FIXED, nlen) then None
      else DecodeRequestParts(b, np, nlen, (payloadOffset, versionedHashesOffset, requestsOffset))
  }

  datatype Witness = Witness(state: seq<Slice>, codes: seq<Slice>, headers: seq<Slice>)

  function DecodeWitnessParts(b: Blob, wp: nat, wlen: nat, o: (nat, nat, nat)): Option<Witness> {
    var state :- DecodeBytesList(b, wp + o.0, Monus(o.1, o.0), SSZ_UNBOUNDED, MAX_BYTES_PER_WITNESS_NODE);
    var codes :- DecodeBytesList(b, wp + o.1, Monus(o.2, o.1), SSZ_UNBOUNDED, MAX_BYTES_PER_CODE);
    var headers :- DecodeBytesList(b, wp + o.2, Monus(wlen, o.2), MAX_WITNESS_HEADERS, MAX_BYTES_PER_HEADER);
    Some(Witness(state, codes, headers))
  }

  function DecodeWitness(b: Blob, wp: nat, wlen: nat): Option<Witness> {
    if wlen < WITNESS_FIXED then None
    else
      var w := ReadOffsets(b, wp, 3);
      if !CheckOffsets(w, WITNESS_FIXED, wlen) then None else DecodeWitnessParts(b, wp, wlen, (w[0], w[1], w[2]))
  }

  function DecodeInputParts(b: Blob, p: nat, len: nat, nprOffset: nat, witnessOffset: nat): Option<StatelessInput> {
    var chainId := Le64(b, p + 8);
    var request :- DecodeNewPayloadRequest(b, p + nprOffset, Monus(witnessOffset, nprOffset));
    var wit :- DecodeWitness(b, p + witnessOffset, Monus(len, witnessOffset));
    Some(StatelessInput(request.payload, request.versionedHashCount, request.requests,
      wit.state, wit.codes, wit.headers, chainId))
  }

  function DecodeStatelessInput(b: Blob): Option<StatelessInput> {
    if |b| < 2 then None
    else if !(ByteAt(b, 0) == 21 && ByteAt(b, 1) == 1) then None
    else
      var p, len := 2, Monus(|b|, 2);
      if len < SI_FIXED then None
      else
        var nprOffset, witnessOffset := Le32(b, p), Le32(b, p + 4);
        if !CheckOffsets([nprOffset, witnessOffset], SI_FIXED, len) then None
        else DecodeInputParts(b, p, len, nprOffset, witnessOffset)
  }

  // ----- the same decoder on checked reads and checked subtraction -----

  function CheckedLe32(b: Blob, i: nat): (r: nat)
    requires i + 4 <= |b|
    ensures r == Le32(b, i) < 0x1_0000_0000
  {
    (b[i] as nat) + (b[i + 1] as nat) * 0x100 + (b[i + 2] as nat) * 0x1_0000 + (b[i + 3] as nat) * 0x100_0000
  }

  function CheckedLe64(b: Blob, i: nat): (r: nat)
    requires i + 8 <= |b|
    ensures r == Le64(b, i) < 0x1_0000_0000_0000_0000
  {
    CheckedLe32(b, i) + CheckedLe32(b, i + 4) * 0x1_0000_0000
  }

  function CheckedSub(a: nat, b: nat): (r: nat)
    requires b <= a
    ensures r == Monus(a, b)
  {
    a - b
  }

  function CheckedSlices(p: nat, offsets: seq<nat>, first: nat, len: nat): (r: seq<Slice>)
    requires AllWithin(offsets, first, len) && Nondecreasing(offsets)
    ensures r == SlicesOf(p, offsets, len)
  {
    seq(|offsets|, i requires 0 <= i < |offsets| =>
      Slice(p + offsets[i], CheckedSub(if i + 1 < |offsets| then offsets[i + 1] else len, offsets[i])))
  }

  function CheckedSplitVarList(b: Blob, p: nat, len: nat, lim: nat): (r: Option<seq<Slice>>)
    requires p + len <= |b|
    ensures r == SplitVarList(b, p, len, lim)
  {
    if len == 0 then Some([])
    else if len < 4 then None
    else
      var first := CheckedLe32(b, p);
      if !(first != 0 && first % 4 == 0 && first <= len) then None
      else
        var count := first / 4;
        if count > lim then None
        else
          var offsets := seq(count, i requires 0 <= i < count => CheckedLe32(b, p + i * 4));
          assert offsets == ReadOffsets(b, p, count);
          if !AllWithin(offsets, first, len) || !Nondecreasing(offsets) then None
          else
            Some(CheckedSlices(p, offsets, first, len))
  }

  function CheckedBytesList(b: Blob, p: nat, len: nat, lim: nat, maxBytes: nat): (r: Option<seq<Slice>>)
    requires p + len <= |b|
    ensures r == DecodeBytesList(b, p, len, lim, maxBytes)
  {
    var slices :- CheckedSplitVarList(b, p, len, lim);
    if AllShort(slices, maxBytes) then Some(slices) else None
  }

  function CheckedPayload(b: Blob, p: nat, len: nat): (r: Option<Payload>)
    requires p + len <= |b|
    ensures r == DecodePayload(b, p, len)
  {
    if len < PL_FIXED then None
    else
      var extraOffset := CheckedLe32(b, p + PLO_EXTRA_OFF);
      var txsOffset := CheckedLe32(b, p + PLO_TXS_OFF);
      var withdrawalsOffset := CheckedLe32(b, p + PLO_WD_OFF);
      var balOffset := CheckedLe32(b, p + PLO_BAL_OFF);
      var o := [extraOffset, txsOffset, withdrawalsOffset, balOffset];
      if !CheckOffsets(o, PL_FIXED, len) then None
      else
        assert o[0] <= o[1] <= o[2] <= o[3] <= len;
        if CheckedSub(txsOffset, extraOffset) > MAX_EXTRA_DATA_BYTES then None
        else
          var transactions :-
            CheckedSplitVarList(b, p + txsOffset, CheckedSub(withdrawalsOffset, txsOffset), SSZ_UNBOUNDED);
          var withdrawalCount :- FixedListCount(CheckedSub(balOffset, withdrawalsOffset), WITHDRAWAL_SIZE,
            SSZ_UNBOUNDED);
          Some(Payload(
            Slice(p, len),
            Slice(p + extraOffset, CheckedSub(txsOffset, extraOffset)),
            transactions,
            withdrawalCount,
            CheckedSub(len, balOffset),
            CheckedLe64(b, p + PLO_NUMBER),
            CheckedLe64(b, p + PLO_GAS_LIMIT),
            CheckedLe64(b, p + PLO_GAS_USED),
            CheckedLe64(b, p + PLO_TIMESTAMP),
            CheckedLe64(b, p + PLO_BLOB_GAS_USED),
            CheckedLe64(b, p + PLO_EXCESS_BLOB_GAS),
            CheckedLe64(b, p + PLO_SLOT)))
  }

  function CheckedRequests(b: Blob, p: nat, len: nat): (r: Option<Requests>)
    requires p + len <= |b|
    ensures r == DecodeRequests(b, p, len)
  {
    if len < REQ_FIXED then None
    else
      var o := seq(5, i requires 0 <= i < 5 => CheckedLe32(b, p + i * 4));
      assert o == ReadOffsets(b, p, 5);
      if !CheckOffsets(o, REQ_FIXED, len) then None
      else
        var deposits :- FixedListCount(CheckedSub(o[1], o[0]), DEPOSIT_SIZE, SSZ_UNBOUNDED);
        var withdrawals :- FixedListCount(CheckedSub(o[2], o[1]), WDREQ_SIZE, SSZ_UNBOUNDED);
        var consolidations :- FixedListCount(CheckedSub(o[3], o[2]), CONS_SIZE, SSZ_UNBOUNDED);
        var builderDeposits :- FixedListCount(CheckedSub(o[4], o[3]), BDEP_SIZE, SSZ_UNBOUNDED);
        var builderExits :- FixedListCount(CheckedSub(len, o[4]), BEXIT_SIZE, SSZ_UNBOUNDED);
        Some(Requests(deposits, withdrawals, consolidations, builderDeposits, builderExits))
  }

  function CheckedRequestParts(b: Blob, np: nat, nlen: nat, o: (nat, nat, nat)): (r: Option<Request>)
    requires np + nlen <= |b| && o.0 <= o.1 <= o.2 <= nlen
    ensures r == DecodeRequestParts(b, np, nlen, o)
  {
    hide DecodePayload, DecodeRequests, FixedListCount;
    var payload :- CheckedPayload(b, np + o.0, CheckedSub(o.1, o.0));
    var hashes :- FixedListCount(CheckedSub(o.2, o.1), HASH_SIZE, SSZ_UNBOUNDED);
    var requests :- CheckedRequests(b, np + o.2, CheckedSub(nlen, o.2));
    Some(Request(payload, hashes, requests))
  }

  function CheckedNewPayloadRequest(b: Blob, np: nat, nlen: nat): (r: Option<Request>)
    requires np + nlen <= |b|
    ensures r == DecodeNewPayloadRequest(b, np, nlen)
  {
    if nlen < NPR_FIXED then None
    else
      var payloadOffset := CheckedLe32(b, np);
      var versionedHashesOffset := CheckedLe32(b, np + 4);
      var requestsOffset := CheckedLe32(b, np + 40);
      var o := [payloadOffset, versionedHashesOffset, requestsOffset];
      if !CheckOffsets(o, NPR_FIXED, nlen) then None
      else
        assert o[0] <= o[1] <= o[2] <= nlen;
        CheckedRequestParts(b, np, nlen, (payloadOffset, versionedHashesOffset, requestsOffset))
  }

  lemma ThreeInOrder(o: seq<nat>, fixed: nat, len: nat)
    requires |o| == 3 && CheckOffsets(o, fixed, len)
    ensures o[0] <= o[1] <= o[2] <= len
  {}

  function CheckedWitnessParts(b: Blob, wp: nat, wlen: nat, o: (nat, nat, nat)): (r: Option<Witness>)
    requires wp + wlen <= |b| && o.0 <= o.1 <= o.2 <= wlen
    ensures r == DecodeWitnessParts(b, wp, wlen, o)
  {
    hide DecodeBytesList;
    var state :- CheckedBytesList(b, wp + o.0, CheckedSub(o.1, o.0), SSZ_UNBOUNDED, MAX_BYTES_PER_WITNESS_NODE);
    var codes :- CheckedBytesList(b, wp + o.1, CheckedSub(o.2, o.1), SSZ_UNBOUNDED, MAX_BYTES_PER_CODE);
    var headers :- CheckedBytesList(b, wp + o.2, CheckedSub(wlen, o.2), MAX_WITNESS_HEADERS, MAX_BYTES_PER_HEADER);
    Some(Witness(state, codes, headers))
  }

  function CheckedWitness(b: Blob, wp: nat, wlen: nat): (r: Option<Witness>)
    requires wp + wlen <= |b|
    ensures r == DecodeWitness(b, wp, wlen)
  {
    hide DecodeWitnessParts, Le32, ReadOffsets, CheckOffsets;
    if wlen < WITNESS_FIXED then None
    else
      var w := [CheckedLe32(b, wp), CheckedLe32(b, wp + 4), CheckedLe32(b, wp + 8)];
      assert w == ReadOffsets(b, wp, 3);
      if !CheckOffsets(w, WITNESS_FIXED, wlen) then None
      else
        ThreeInOrder(w, WITNESS_FIXED, wlen);
        CheckedWitnessParts(b, wp, wlen, (w[0], w[1], w[2]))
  }

  function CheckedInputParts(b: Blob, p: nat, len: nat, nprOffset: nat, witnessOffset: nat): (r: Option<StatelessInput>)
    requires p + len <= |b| && SI_FIXED <= len && nprOffset <= witnessOffset <= len
    ensures r == DecodeInputParts(b, p, len, nprOffset, witnessOffset)
  {
    var chainId := CheckedLe64(b, p + 8);
    var request :- CheckedNewPayloadRequest(b, p + nprOffset, CheckedSub(witnessOffset, nprOffset));
    var wit :- CheckedWitness(b, p + witnessOffset, CheckedSub(len, witnessOffset));
    Some(StatelessInput(request.payload, request.versionedHashCount, request.requests,
      wit.state, wit.codes, wit.headers, chainId))
  }

  /** On every blob, decodable or not, the decoder reads no byte beyond the blob and truncates
      no subtraction: it is this function, whose every read and subtraction is checked. */
  function CheckedDecode(b: Blob): (r: Option<StatelessInput>)
    ensures r == DecodeStatelessInput(b)
  {
    hide DecodeInputParts;
    if |b| < 2 then None
    else if !(b[0] == 21 && b[1] == 1) then None
    else
      var p, len := 2, CheckedSub(|b|, 2);
      if len < SI_FIXED then None
      else
        var nprOffset, witnessOffset := CheckedLe32(b, p), CheckedLe32(b, p + 4);
        var o := [nprOffset, witnessOffset];
        if !CheckOffsets(o, SI_FIXED, len) then None
        else
          assert o[0] <= o[1] <= len;
          CheckedInputParts(b, p, len, nprOffset, witnessOffset)
  }
}
