/** The five transaction types: decoding a byte string, encoding it back, and the preimage
    that is signed. Fields are kept as RLP items; encoding a field list is encoding the
    list item they form. */
module Tx {
  import opened Words
  import opened BigEndian
  import opened Rlp

  datatype Access = Access(address: seq<byte>, keys: seq<seq<byte>>)
  datatype Auth = Auth(chainId: nat, address: seq<byte>, nonce: nat, yParity: nat, r: nat, s: nat)

  datatype Kind =
    | Legacy(gasPrice: nat, v: nat)
    | AccessList(chainId: nat, gasPrice: nat, access: seq<Access>, yParity: nat)
    | FeeMarket(chainId: nat, maxPriorityFee: nat, maxFee: nat, access: seq<Access>, yParity: nat)
    | Blob(chainId: nat, maxPriorityFee: nat, maxFee: nat, access: seq<Access>,
           maxBlobFee: nat, blobHashes: seq<seq<byte>>, yParity: nat)
    | SetCode(chainId: nat, maxPriorityFee: nat, maxFee: nat, access: seq<Access>,
              auths: seq<Auth>, yParity: nat)

  datatype Transaction = Transaction(
    kind: Kind, nonce: nat, gas: nat, to: Option<seq<byte>>, value: nat, data: seq<byte>, r: nat, s: nat)

  // ----- item decoders -----

  /** A number without leading zeros, of at most `maxBytes` bytes where there is a limit. */
  function DScalar(it: Item, maxBytes: Option<nat>): Option<nat> {
    if it.List? then None
    else if it.bytes != [] && it.bytes[0] == 0 then None
    else if maxBytes.Some? && |it.bytes| > maxBytes.value then None
    else Some(FromBe(it.bytes))
  }

  function DBytes(it: Item): Option<seq<byte>> {
    if it.List? then None else Some(it.bytes)
  }

  function DFixed(it: Item, w: nat): Option<seq<byte>> {
    if it.List? || |it.bytes| != w then None else Some(it.bytes)
  }

  /** A recipient: absent, or an address. The outer option is failure. */
  function DTo(it: Item): Option<Option<seq<byte>>> {
    if it.List? then None
    else if it.bytes == [] then Some(None)
    else if |it.bytes| != 20 then None
    else Some(Some(it.bytes))
  }

  /** A recipient that cannot be absent. */
  function DAddress(it: Item): Option<Option<seq<byte>>> {
    var a :- DFixed(it, 20);
    Some(Some(a))
  }

  function DFixedAll(items: seq<Item>, w: nat): Option<seq<seq<byte>>> {
    if items == [] then Some([])
    else
      var first :- DFixed(items[0], w);
      var rest :- DFixedAll(items[1..], w);
      Some([first] + rest)
  }

  function DAccess(it: Item): Option<Access> {
    if !(it.List? && |it.items| == 2 && it.items[1].List?) then None
    else
      var address :- DFixed(it.items[0], 20);
      var keys :- DFixedAll(it.items[1].items, 32);
      Some(Access(address, keys))
  }

  function DAccessAll(items: seq<Item>): Option<seq<Access>> {
    if items == [] then Some([])
    else
      var first :- DAccess(items[0]);
      var rest :- DAccessAll(items[1..]);
      Some([first] + rest)
  }

  function DAuth(it: Item): Option<Auth> {
    if !(it.List? && |it.items| == 6) then None
    else
      var chainId :- DScalar(it.items[0], Some(32));
      var address :- DFixed(it.items[1], 20);
      var nonce :- DScalar(it.items[2], Some(8));
      var yParity :- DScalar(it.items[3], Some(1));
      var r :- DScalar(it.items[4], Some(32));
      var s :- DScalar(it.items[5], Some(32));
      Some(Auth(chainId, address, nonce, yParity, r, s))
  }

  function DAuthAll(items: seq<Item>): Option<seq<Auth>> {
    if items == [] then Some([])
    else
      var first :- DAuth(items[0]);
      var rest :- DAuthAll(items[1..]);
      Some([first] + rest)
  }

  function DList(it: Item): Option<seq<Item>> {
    if it.List? then Some(it.items) else None
  }

  // ----- field decoders, one per type -----

  /** The part all typed transactions share: what is sent, and the slots it declares. */
  datatype Transfer = Transfer(value: nat, data: seq<byte>, access: seq<Access>)

  function DTransfer(value: Item, data: Item, access: Item): Option<Transfer> {
    var v :- DScalar(value, Some(32));
    var d :- DBytes(data);
    var items :- DList(access);
    var a :- DAccessAll(items);
    Some(Transfer(v, d, a))
  }

  datatype Signature = Signature(yParity: nat, r: nat, s: nat)

  function DSignature(yParity: Item, r: Item, s: Item): Option<Signature> {
    var yp :- DScalar(yParity, Some(32));
    var rr :- DScalar(r, Some(32));
    var ss :- DScalar(s, Some(32));
    Some(Signature(yp, rr, ss))
  }

  function DLegacy(f: seq<Item>): Option<Transaction> {
    if |f| != 9 then None
    else
      var nonce :- DScalar(f[0], Some(32));
      var gasPrice :- DScalar(f[1], None);
      var gas :- DScalar(f[2], None);
      var to :- DTo(f[3]);
      var value :- DScalar(f[4], Some(32));
      var data :- DBytes(f[5]);
      var v :- DScalar(f[6], Some(32));
      var r :- DScalar(f[7], Some(32));
      var s :- DScalar(f[8], Some(32));
      Some(Transaction(Legacy(gasPrice, v), nonce, gas, to, value, data, r, s))
  }

  function DAccessListTx(f: seq<Item>): Option<Transaction> {
    if |f| != 11 then None
    else
      var chainId :- DScalar(f[0], Some(8));
      var nonce :- DScalar(f[1], Some(32));
      var gasPrice :- DScalar(f[2], None);
      var gas :- DScalar(f[3], None);
      var to :- DTo(f[4]);
      var t :- DTransfer(f[5], f[6], f[7]);
      var g :- DSignature(f[8], f[9], f[10]);
      Some(Transaction(AccessList(chainId, gasPrice, t.access, g.yParity), nonce, gas, to, t.value, t.data, g.r, g.s))
  }

  function DFeeMarketTx(f: seq<Item>): Option<Transaction> {
    if |f| != 12 then None
    else
      var chainId :- DScalar(f[0], Some(8));
      var nonce :- DScalar(f[1], Some(32));
      var prio :- DScalar(f[2], None);
      var maxFee :- DScalar(f[3], None);
      var gas :- DScalar(f[4], None);
      var to :- DTo(f[5]);
      var t :- DTransfer(f[6], f[7], f[8]);
      var g :- DSignature(f[9], f[10], f[11]);
      Some(Transaction(FeeMarket(chainId, prio, maxFee, t.access, g.yParity), nonce, gas, to, t.value, t.data, g.r,
        g.s))
  }

  function DBlobTx(f: seq<Item>): Option<Transaction> {
    if |f| != 14 then None
    else
      var chainId :- DScalar(f[0], Some(8));
      var nonce :- DScalar(f[1], Some(32));
      var prio :- DScalar(f[2], None);
      var maxFee :- DScalar(f[3], None);
      var gas :- DScalar(f[4], None);
      var to :- DAddress(f[5]);
      var t :- DTransfer(f[6], f[7], f[8]);
      var blobFee :- DScalar(f[9], Some(32));
      var bvh :- DList(f[10]);
      var hashes :- DFixedAll(bvh, 32);
      var g :- DSignature(f[11], f[12], f[13]);
      Some(Transaction(Blob(chainId, prio, maxFee, t.access, blobFee, hashes, g.yParity), nonce, gas, to, t.value,
        t.data, g.r, g.s))
  }

  function DSetCodeTx(f: seq<Item>): Option<Transaction> {
    if |f| != 13 then None
    else
      var chainId :- DScalar(f[0], Some(8));
      var nonce :- DScalar(f[1], Some(8));
      var prio :- DScalar(f[2], None);
      var maxFee :- DScalar(f[3], None);
      var gas :- DScalar(f[4], None);
      var to :- DAddress(f[5]);
      var t :- DTransfer(f[6], f[7], f[8]);
      var au :- DList(f[9]);
      var auths :- DAuthAll(au);
      var g :- DSignature(f[10], f[11], f[12]);
      Some(Transaction(SetCode(chainId, prio, maxFee, t.access, auths, g.yParity), nonce, gas, to, t.value, t.data,
        g.r, g.s))
  }

  const FEE_LIMIT := 0x1_0000_0000_0000_0000_0000_0000_0000_0000_0000_0000_0000_0000_0000_0000_0000_0000
  const GAS_LIMIT := 0x1_0000_0000_0000_0000

  /** The guest's envelope: fees fit 32 bytes and the gas limit 8. */
  predicate InEnvelope(tx: Transaction) {
    && tx.gas < GAS_LIMIT
    && match tx.kind
       case Legacy(gasPrice, _) => gasPrice < FEE_LIMIT
       case AccessList(_, gasPrice, _, _) => gasPrice < FEE_LIMIT
       case FeeMarket(_, prio, maxFee, _, _) => prio < FEE_LIMIT && maxFee < FEE_LIMIT
       case Blob(_, prio, maxFee, _, _, _, _) => prio < FEE_LIMIT && maxFee < FEE_LIMIT
       case SetCode(_, prio, maxFee, _, _, _) => prio < FEE_LIMIT && maxFee < FEE_LIMIT
  }

  function DFields(txType: nat, f: seq<Item>): Option<Transaction> {
    if txType == 0 then DLegacy(f)
    else if txType == 1 then DAccessListTx(f)
    else if txType == 2 then DFeeMarketTx(f)
    else if txType == 3 then DBlobTx(f)
    else DSetCodeTx(f)
  }

  function DecodeTransaction(raw: seq<byte>): Option<Transaction> {
    if raw == [] then None
    else
      var b0 := raw[0];
      if 1 <= b0 <= 4 then
        var it :- RlpDecodeFully(raw[1..]);
        var f :- DList(it);
        var tx :- DFields(b0, f);
        if InEnvelope(tx) then Some(tx) else None
      else if 0xC0 <= b0 <= 0xFE then
        var it :- RlpDecodeFully(raw);
        var f :- DList(it);
        var tx :- DFields(0, f);
        if InEnvelope(tx) then Some(tx) else None
      else None
  }

  // ----- encoding -----

  function Scalar(n: nat): Item {
    Bytes(Be(n))
  }

  function FixedItems(xs: seq<seq<byte>>): seq<Item> {
    if xs == [] then [] else [Bytes(xs[0])] + FixedItems(xs[1..])
  }

  function AccessItem(a: Access): Item {
    List([Bytes(a.address), List(FixedItems(a.keys))])
  }

  function AccessItems(xs: seq<Access>): seq<Item> {
    if xs == [] then [] else [AccessItem(xs[0])] + AccessItems(xs[1..])
  }

  function AuthItem(a: Auth): Item {
    List([Scalar(a.chainId), Bytes(a.address), Scalar(a.nonce), Scalar(a.yParity), Scalar(a.r), Scalar(a.s)])
  }

  function AuthItems(xs: seq<Auth>): seq<Item> {
    if xs == [] then [] else [AuthItem(xs[0])] + AuthItems(xs[1..])
  }

  function ToItem(to: Option<seq<byte>>): Item {
    Bytes(if to.None? then [] else to.value)
  }

  function TypeOf(tx: Transaction): byte {
    match tx.kind
    case Legacy(_, _) => 0
    case AccessList(_, _, _, _) => 1
    case FeeMarket(_, _, _, _, _) => 2
    case Blob(_, _, _, _, _, _, _) => 3
    case SetCode(_, _, _, _, _, _) => 4
  }

  /** The fields that are signed, in order. */
  function UnsignedFields(tx: Transaction): seq<Item> {
    match tx.kind
    case Legacy(gasPrice, _) =>
      [Scalar(tx.nonce), Scalar(gasPrice), Scalar(tx.gas), ToItem(tx.to), Scalar(tx.value), Bytes(tx.data)]
    case AccessList(chainId, gasPrice, access, _) =>
      [Scalar(chainId), Scalar(tx.nonce), Scalar(gasPrice), Scalar(tx.gas), ToItem(tx.to), Scalar(tx.value),
       Bytes(tx.data), List(AccessItems(access))]
    case FeeMarket(chainId, prio, maxFee, access, _) =>
      [Scalar(chainId), Scalar(tx.nonce), Scalar(prio), Scalar(maxFee), Scalar(tx.gas), ToItem(tx.to), Scalar(tx.value),
       Bytes(tx.data), List(AccessItems(access))]
    case Blob(chainId, prio, maxFee, access, blobFee, hashes, _) =>
      [Scalar(chainId), Scalar(tx.nonce), Scalar(prio), Scalar(maxFee), Scalar(tx.gas), ToItem(tx.to), Scalar(tx.value),
       Bytes(tx.data), List(AccessItems(access)), Scalar(blobFee), List(FixedItems(hashes))]
    case SetCode(chainId, prio, maxFee, access, auths, _) =>
      [Scalar(chainId), Scalar(tx.nonce), Scalar(prio), Scalar(maxFee), Scalar(tx.gas), ToItem(tx.to), Scalar(tx.value),
       Bytes(tx.data), List(AccessItems(access)), List(AuthItems(auths))]
  }

  /** The legacy `v`, or the parity of the typed transactions. */
  function VOrParity(tx: Transaction): nat {
    if tx.kind.Legacy? then tx.kind.v else tx.kind.yParity
  }

  function Fields(tx: Transaction): seq<Item> {
    UnsignedFields(tx) + [Scalar(VOrParity(tx)), Scalar(tx.r), Scalar(tx.s)]
  }

  function EncodeTransaction(tx: Transaction): seq<byte>
    requires Encodable(List(Fields(tx)))
  {
    var body := Enc(List(Fields(tx)));
    if tx.kind.Legacy? then body else [TypeOf(tx)] + body
  }

  // ----- the signing preimage -----

  predicate IsEip155(tx: Transaction) {
    tx.kind.Legacy? && tx.kind.v != 27 && tx.kind.v != 28
  }

  function PreimageFields(tx: Transaction, chainId: nat): seq<Item> {
    UnsignedFields(tx) + if IsEip155(tx) then [Scalar(chainId), Scalar(0), Scalar(0)] else []
  }

  function Preimage(tx: Transaction, chainId: nat): seq<byte>
    requires Encodable(List(PreimageFields(tx, chainId)))
  {
    var body := Enc(List(PreimageFields(tx, chainId)));
    if tx.kind.Legacy? then body else [TypeOf(tx)] + body
  }

  // ----- the transactions that can be decoded -----

  predicate Below(n: nat, bytes: nat) {
    n < Pow256(bytes)
  }

  predicate WellFormedAccess(a: Access) {
    |a.address| == 20 && forall i :: 0 <= i < |a.keys| ==> |a.keys[i]| == 32
  }

  predicate WellFormedAuth(a: Auth) {
    && Below(a.chainId, 32) && |a.address| == 20 && Below(a.nonce, 8) && Below(a.yParity, 1)
    && Below(a.r, 32) && Below(a.s, 32)
  }

  predicate WellFormedAccesses(xs: seq<Access>) {
    forall i :: 0 <= i < |xs| ==> WellFormedAccess(xs[i])
  }

  /** Every field within its own width. */
  predicate InRange(tx: Transaction) {
    && Below(tx.value, 32) && Below(tx.r, 32) && Below(tx.s, 32)
    && (tx.to.Some? ==> |tx.to.value| == 20)
    && match tx.kind
       case Legacy(_, v) => Below(tx.nonce, 32) && Below(v, 32)
       case AccessList(chainId, _, access, yp) =>
         Below(chainId, 8) && Below(tx.nonce, 32) && WellFormedAccesses(access) && Below(yp, 32)
       case FeeMarket(chainId, _, _, access, yp) =>
         Below(chainId, 8) && Below(tx.nonce, 32) && WellFormedAccesses(access) && Below(yp, 32)
       case Blob(chainId, _, _, access, blobFee, hashes, yp) =>
         && Below(chainId, 8) && Below(tx.nonce, 32) && tx.to.Some? && WellFormedAccesses(access)
         && Below(blobFee, 32) && (forall i :: 0 <= i < |hashes| ==> |hashes[i]| == 32) && Below(yp, 32)
       case SetCode(chainId, _, _, access, auths, yp) =>
         && Below(chainId, 8) && Below(tx.nonce, 8) && tx.to.Some? && WellFormedAccesses(access)
         && (forall i :: 0 <= i < |auths| ==> WellFormedAuth(auths[i])) && Below(yp, 32)
  }

  /** Fees take at most 32 bytes, the gas limit at most 8. */
  predicate FitsEnvelope(tx: Transaction) {
    && Below(tx.gas, 8)
    && match tx.kind
       case Legacy(gasPrice, _) => Below(gasPrice, 32)
       case AccessList(_, gasPrice, _, _) => Below(gasPrice, 32)
       case FeeMarket(_, prio, maxFee, _, _) => Below(prio, 32) && Below(maxFee, 32)
       case Blob(_, prio, maxFee, _, _, _, _) => Below(prio, 32) && Below(maxFee, 32)
       case SetCode(_, prio, maxFee, _, _, _) => Below(prio, 32) && Below(maxFee, 32)
  }

  predicate WellFormed(tx: Transaction) {
    InRange(tx) && FitsEnvelope(tx)
  }
}
