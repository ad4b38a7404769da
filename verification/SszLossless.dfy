/** Every byte of an accepted blob is accounted for: the decoder's records tile it. */
module SszLossless {
  import opened InputDecode
  import opened Ssz

  function RequestsSize(q: Requests): nat {
    REQ_FIXED + q.deposits * DEPOSIT_SIZE + q.withdrawals * WDREQ_SIZE + q.consolidations * CONS_SIZE
    + q.builderDeposits * BDEP_SIZE + q.builderExits * BEXIT_SIZE
  }

  /** The payload's region: fixed part, extra data, transactions, withdrawals, access list,
      with nothing before, between or after them. */
  ghost predicate PayloadTiled(b: Blob, r: Payload, txLen: nat) {
    && r.extraData.off == r.raw.off + PL_FIXED
    && Lossless(b, r.extraData.off + r.extraData.len, txLen, r.transactions)
    && r.raw.len == PL_FIXED + r.extraData.len + txLen + r.withdrawalCount * WITHDRAWAL_SIZE + r.blockAccessListLength
    && r.extraData.len <= MAX_EXTRA_DATA_BYTES
  }

  /** The witness's three lists, end to end from `wp` to `end`. */
  ghost predicate WitnessTiled(b: Blob, r: Witness, wp: nat, end: nat, stateLen: nat, codesLen: nat) {
    && wp + stateLen + codesLen <= end
    && Lossless(b, wp, stateLen, r.state)
    && Lossless(b, wp + stateLen, codesLen, r.codes)
    && Lossless(b, wp + stateLen + codesLen, end - (wp + stateLen + codesLen), r.headers)
  }

  ghost predicate PayloadIsCovered(b: Blob, r: Payload) {
    exists txLen: nat :: PayloadTiled(b, r, txLen)
  }

  ghost predicate WitnessIsCovered(b: Blob, r: Witness, wp: nat, end: nat) {
    exists s: nat, c: nat :: WitnessTiled(b, r, wp, end, s, c)
  }

  lemma CountIsExact(len: nat, size: nat, lim: nat)
    requires FixedListCount(len, size, lim).Some?
    ensures FixedListCount(len, size, lim).value * size == len
  {}

  lemma PayloadIsTiled(b: Blob, p: nat, len: nat)
    requires p + len <= |b| && DecodePayload(b, p, len).Some?
    ensures var r := DecodePayload(b, p, len).value;
      r.raw == Slice(p, len) && PayloadIsCovered(b, r)
  {
    hide Le32, Le64, SplitVarList, FixedListCount, Lossless;
    var r := DecodePayload(b, p, len).value;
    var o := [Le32(b, p + PLO_EXTRA_OFF), Le32(b, p + PLO_TXS_OFF), Le32(b, p + PLO_WD_OFF), Le32(b, p + PLO_BAL_OFF)];
    assert o[0] == PL_FIXED && o[0] <= o[1] <= o[2] <= o[3] <= len;
    SplitIsLossless(b, p + o[1], Monus(o[2], o[1]), SSZ_UNBOUNDED);
    CountIsExact(Monus(o[3], o[2]), WITHDRAWAL_SIZE, SSZ_UNBOUNDED);
    assert PayloadTiled(b, r, Monus(o[2], o[1]));
  }

  lemma RequestsAreTiled(b: Blob, p: nat, len: nat)
    requires DecodeRequests(b, p, len).Some?
    ensures RequestsSize(DecodeRequests(b, p, len).value) == len
  {
    hide Le32, FixedListCount;
    var o := ReadOffsets(b, p, 5);
    assert o[0] == REQ_FIXED && o[0] <= o[1] <= o[2] <= o[3] <= o[4] <= len;
    CountIsExact(Monus(o[1], o[0]), DEPOSIT_SIZE, SSZ_UNBOUNDED);
    CountIsExact(Monus(o[2], o[1]), WDREQ_SIZE, SSZ_UNBOUNDED);
    CountIsExact(Monus(o[3], o[2]), CONS_SIZE, SSZ_UNBOUNDED);
    CountIsExact(Monus(o[4], o[3]), BDEP_SIZE, SSZ_UNBOUNDED);
    CountIsExact(Monus(len, o[4]), BEXIT_SIZE, SSZ_UNBOUNDED);
  }

  lemma RequestIsTiled(b: Blob, np: nat, nlen: nat)
    requires np + nlen <= |b| && DecodeNewPayloadRequest(b, np, nlen).Some?
    ensures var r := DecodeNewPayloadRequest(b, np, nlen).value;
      && r.payload.raw.off == np + NPR_FIXED
      && NPR_FIXED + r.payload.raw.len + r.versionedHashCount * HASH_SIZE + RequestsSize(r.requests) == nlen
      && PayloadIsCovered(b, r.payload)
  {
    hide Le32, FixedListCount, DecodePayload, DecodeRequests, PayloadIsCovered, RequestsSize;
    var o := [Le32(b, np), Le32(b, np + 4), Le32(b, np + 40)];
    assert o[0] == NPR_FIXED && o[0] <= o[1] <= o[2] <= nlen;
    PayloadIsTiled(b, np + o[0], Monus(o[1], o[0]));
    CountIsExact(Monus(o[2], o[1]), HASH_SIZE, SSZ_UNBOUNDED);
    RequestsAreTiled(b, np + o[2], Monus(nlen, o[2]));
  }

  lemma WitnessIsTiled(b: Blob, wp: nat, wlen: nat)
    requires wp + wlen <= |b| && DecodeWitness(b, wp, wlen).Some?
    ensures WitnessIsCovered(b, DecodeWitness(b, wp, wlen).value, wp + WITNESS_FIXED, wp + wlen)
  {
    hide Le32, SplitVarList, Lossless;
    var w := ReadOffsets(b, wp, 3);
    assert w[0] == WITNESS_FIXED && w[0] <= w[1] <= w[2] <= wlen;
    SplitIsLossless(b, wp + w[0], Monus(w[1], w[0]), SSZ_UNBOUNDED);
    SplitIsLossless(b, wp + w[1], Monus(w[2], w[1]), SSZ_UNBOUNDED);
    SplitIsLossless(b, wp + w[2], Monus(wlen, w[2]), MAX_WITNESS_HEADERS);
    assert WitnessTiled(b, DecodeWitness(b, wp, wlen).value, wp + WITNESS_FIXED, wp + wlen, w[1] - w[0], w[2] - w[1]);
  }

  /** What an accepted blob consists of, first byte to last: the two-byte schema id, the
      fixed parts, and every list exactly as the builder would write it. */
  ghost predicate Tiled(b: Blob, r: StatelessInput) {
    var requestsAt := r.payload.raw.off + r.payload.raw.len + r.versionedHashCount * HASH_SIZE;
    && |b| >= 2 && b[0] == 21 && b[1] == 1
    && r.payload.raw.off == 2 + SI_FIXED + NPR_FIXED
    && PayloadIsCovered(b, r.payload)
    && WitnessIsCovered(b, Witness(r.witnessState, r.witnessCodes, r.witnessHeaders),
         requestsAt + RequestsSize(r.requests) + WITNESS_FIXED, |b|)
  }

  lemma AcceptedBlobIsTiled(b: Blob)
    ensures DecodeStatelessInput(b).Some? ==> Tiled(b, DecodeStatelessInput(b).value)
  {
    hide Le32, Le64, DecodeNewPayloadRequest, DecodeWitness, PayloadIsCovered, WitnessIsCovered, RequestsSize;
    if DecodeStatelessInput(b).Some? {
      var p, len := 2, |b| - 2;
      var o := [Le32(b, p), Le32(b, p + 4)];
      assert o[0] == SI_FIXED && o[0] <= o[1] <= len;
      RequestIsTiled(b, p + o[0], Monus(o[1], o[0]));
      WitnessIsTiled(b, p + o[1], Monus(len, o[1]));
    }
  }
}
