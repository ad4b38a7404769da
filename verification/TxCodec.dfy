/** The transaction codec is an exact inversion, both ways and canonically, and what is
    signed determines what is signed for. */
module TxCodec {
  import opened Words
  import opened BigEndian
  import opened Rlp
  import opened RlpCanonical
  import opened Tx

  // ----- fields -----

  /** A scalar is accepted exactly in its minimal form and within its width. */
  lemma DScalarIff(it: Item, maxBytes: Option<nat>, n: nat)
    ensures DScalar(it, maxBytes) == Some(n) <==>
      it == Scalar(n) && (maxBytes.Some? ==> Below(n, maxBytes.value))
  {
    if it.Bytes? && Minimal(it.bytes) {
      MinimalIsBe(it.bytes);
    }
    BeIsMinimal(n);
    if maxBytes.Some? {
      BeLength(n, maxBytes.value);
    }
  }

  lemma {:induction false} DFixedAllIff(items: seq<Item>, w: nat, xs: seq<seq<byte>>)
    ensures DFixedAll(items, w) == Some(xs) <==>
      items == FixedItems(xs) && forall i :: 0 <= i < |xs| ==> |xs[i]| == w
  {
    if items != [] && xs != [] {
      DFixedAllIff(items[1..], w, xs[1..]);
      ConsEqual(items, Bytes(xs[0]), FixedItems(xs[1..]));
      var first, rest := DFixed(items[0], w), DFixedAll(items[1..], w);
      if first.Some? && rest.Some? {
        ConsEqual(xs, first.value, rest.value);
      }
    }
  }

  lemma ConsEqual<T>(xs: seq<T>, x: T, rest: seq<T>)
    requires xs != []
    ensures xs == [x] + rest <==> xs[0] == x && xs[1..] == rest
    ensures [x] + rest == xs <==> xs[0] == x && xs[1..] == rest
  {
    assert xs == [xs[0]] + xs[1..];
    assert ([x] + rest)[1..] == rest;
  }

  lemma DAccessIff(it: Item, a: Access)
    ensures DAccess(it) == Some(a) <==> it == AccessItem(a) && WellFormedAccess(a)
  {
    if it.List? && |it.items| == 2 && it.items[1].List? {
      DFixedAllIff(it.items[1].items, 32, a.keys);
      assert it.items == [it.items[0], it.items[1]];
      var keys := DFixedAll(it.items[1].items, 32);
      if keys.Some? {
        DFixedAllIff(it.items[1].items, 32, keys.value);
      }
    }
  }

  lemma {:induction false} DAccessAllIff(items: seq<Item>, xs: seq<Access>)
    ensures DAccessAll(items) == Some(xs) <==> items == AccessItems(xs) && WellFormedAccesses(xs)
  {
    if items != [] && xs != [] {
      DAccessIff(items[0], xs[0]);
      DAccessAllIff(items[1..], xs[1..]);
      ConsEqual(items, AccessItem(xs[0]), AccessItems(xs[1..]));
      var first, rest := DAccess(items[0]), DAccessAll(items[1..]);
      if first.Some? && rest.Some? {
        ConsEqual(xs, first.value, rest.value);
      }
    }
  }

  lemma DAuthIff(it: Item, a: Auth)
    ensures DAuth(it) == Some(a) <==> it == AuthItem(a) && WellFormedAuth(a)
  {
    hide DScalar, Scalar, Below;
    if it.List? && |it.items| == 6 {
      var f := it.items;
      assert f == [f[0], f[1], f[2], f[3], f[4], f[5]];
      DScalarIff(f[0], Some(32), a.chainId);
      DScalarIff(f[2], Some(8), a.nonce);
      DScalarIff(f[3], Some(1), a.yParity);
      DScalarIff(f[4], Some(32), a.r);
      DScalarIff(f[5], Some(32), a.s);
    }
  }

  lemma {:induction false} DAuthAllIff(items: seq<Item>, xs: seq<Auth>)
    ensures DAuthAll(items) == Some(xs) <==>
      items == AuthItems(xs) && forall i :: 0 <= i < |xs| ==> WellFormedAuth(xs[i])
  {
    if items != [] && xs != [] {
      DAuthIff(items[0], xs[0]);
      DAuthAllIff(items[1..], xs[1..]);
      ConsEqual(items, AuthItem(xs[0]), AuthItems(xs[1..]));
      var first, rest := DAuth(items[0]), DAuthAll(items[1..]);
      if first.Some? && rest.Some? {
        ConsEqual(xs, first.value, rest.value);
      }
    }
  }

  lemma DToIff(it: Item, to: Option<seq<byte>>)
    ensures DTo(it) == Some(to) <==> it == ToItem(to) && (to.Some? ==> |to.value| == 20)
    ensures DAddress(it) == Some(to) <==> it == ToItem(to) && to.Some? && |to.value| == 20
  {}

  lemma DTransferIff(value: Item, data: Item, access: Item, t: Transfer)
    ensures DTransfer(value, data, access) == Some(t) <==>
      && value == Scalar(t.value) && data == Bytes(t.data) && access == List(AccessItems(t.access))
      && Below(t.value, 32) && WellFormedAccesses(t.access)
  {
    DScalarIff(value, Some(32), t.value);
    if access.List? {
      DAccessAllIff(access.items, t.access);
    }
  }

  lemma DSignatureIff(yParity: Item, r: Item, s: Item, g: Signature)
    ensures DSignature(yParity, r, s) == Some(g) <==>
      && yParity == Scalar(g.yParity) && r == Scalar(g.r) && s == Scalar(g.s)
      && Below(g.yParity, 32) && Below(g.r, 32) && Below(g.s, 32)
  {
    DScalarIff(yParity, Some(32), g.yParity);
    DScalarIff(r, Some(32), g.r);
    DScalarIff(s, Some(32), g.s);
  }

  /** A field list is what its type lists, one field at a time. */
  lemma FieldsByIndex(f: seq<Item>, tx: Transaction)
    ensures var u := UnsignedFields(tx);
      f == Fields(tx) <==>
        && |f| == |u| + 3
        && (forall i :: 0 <= i < |u| ==> f[i] == u[i])
        && f[|u|] == Scalar(VOrParity(tx)) && f[|u| + 1] == Scalar(tx.r) && f[|u| + 2] == Scalar(tx.s)
  {
    var u := UnsignedFields(tx);
    if |f| == |u| + 3 {
      assert f == f[..|u|] + [f[|u|], f[|u| + 1], f[|u| + 2]];
    }
  }

  // ----- field lists: each decoder inverts `Fields` on its own type -----

  lemma DLegacyIff(f: seq<Item>, tx: Transaction)
    ensures DLegacy(f) == Some(tx) <==> tx.kind.Legacy? && f == Fields(tx) && InRange(tx)
  {
    hide DScalar, DTo, DAddress, DTransfer, DSignature, DFixedAll, DAuthAll, Below, WellFormedAccesses;
    if |f| == 9 && tx.kind.Legacy? {
      FieldsByIndex(f, tx);
      DScalarIff(f[0], Some(32), tx.nonce);
      DScalarIff(f[1], None, tx.kind.gasPrice);
      DScalarIff(f[2], None, tx.gas);
      DToIff(f[3], tx.to);
      DScalarIff(f[4], Some(32), tx.value);
      DScalarIff(f[6], Some(32), tx.kind.v);
      DScalarIff(f[7], Some(32), tx.r);
      DScalarIff(f[8], Some(32), tx.s);
    }
  }

  lemma DAccessListTxIff(f: seq<Item>, tx: Transaction)
    ensures DAccessListTx(f) == Some(tx) <==> tx.kind.AccessList? && f == Fields(tx) && InRange(tx)
  {
    hide DScalar, DTo, DAddress, DTransfer, DSignature, DFixedAll, DAuthAll, Below, WellFormedAccesses;
    if |f| == 11 && tx.kind.AccessList? {
      FieldsByIndex(f, tx);
      DScalarIff(f[0], Some(8), tx.kind.chainId);
      DScalarIff(f[1], Some(32), tx.nonce);
      DScalarIff(f[2], None, tx.kind.gasPrice);
      DScalarIff(f[3], None, tx.gas);
      DToIff(f[4], tx.to);
      DTransferIff(f[5], f[6], f[7], Transfer(tx.value, tx.data, tx.kind.access));
      DSignatureIff(f[8], f[9], f[10], Signature(tx.kind.yParity, tx.r, tx.s));
    }
  }

  lemma DFeeMarketTxIff(f: seq<Item>, tx: Transaction)
    ensures DFeeMarketTx(f) == Some(tx) <==> tx.kind.FeeMarket? && f == Fields(tx) && InRange(tx)
  {
    hide DScalar, DTo, DAddress, DTransfer, DSignature, DFixedAll, DAuthAll, Below, WellFormedAccesses;
    if |f| == 12 && tx.kind.FeeMarket? {
      FieldsByIndex(f, tx);
      DScalarIff(f[0], Some(8), tx.kind.chainId);
      DScalarIff(f[1], Some(32), tx.nonce);
      DScalarIff(f[2], None, tx.kind.maxPriorityFee);
      DScalarIff(f[3], None, tx.kind.maxFee);
      DScalarIff(f[4], None, tx.gas);
      DToIff(f[5], tx.to);
      DTransferIff(f[6], f[7], f[8], Transfer(tx.value, tx.data, tx.kind.access));
      DSignatureIff(f[9], f[10], f[11], Signature(tx.kind.yParity, tx.r, tx.s));
    }
  }

  lemma DBlobTxIff(f: seq<Item>, tx: Transaction)
    ensures DBlobTx(f) == Some(tx) <==> tx.kind.Blob? && f == Fields(tx) && InRange(tx)
  {
    hide DScalar, DTo, DAddress, DTransfer, DSignature, DFixedAll, DAuthAll, Below, WellFormedAccesses;
    if |f| == 14 && tx.kind.Blob? {
      FieldsByIndex(f, tx);
      DScalarIff(f[0], Some(8), tx.kind.chainId);
      DScalarIff(f[1], Some(32), tx.nonce);
      DScalarIff(f[2], None, tx.kind.maxPriorityFee);
      DScalarIff(f[3], None, tx.kind.maxFee);
      DScalarIff(f[4], None, tx.gas);
      DToIff(f[5], tx.to);
      DTransferIff(f[6], f[7], f[8], Transfer(tx.value, tx.data, tx.kind.access));
      DScalarIff(f[9], Some(32), tx.kind.maxBlobFee);
      if f[10].List? {
        DFixedAllIff(f[10].items, 32, tx.kind.blobHashes);
      }
      DSignatureIff(f[11], f[12], f[13], Signature(tx.kind.yParity, tx.r, tx.s));
    }
  }

  lemma DSetCodeTxIff(f: seq<Item>, tx: Transaction)
    ensures DSetCodeTx(f) == Some(tx) <==> tx.kind.SetCode? && f == Fields(tx) && InRange(tx)
  {
    hide DScalar, DTo, DAddress, DTransfer, DSignature, DFixedAll, DAuthAll, Below, WellFormedAccesses;
    if |f| == 13 && tx.kind.SetCode? {
      FieldsByIndex(f, tx);
      DScalarIff(f[0], Some(8), tx.kind.chainId);
      DScalarIff(f[1], Some(8), tx.nonce);
      DScalarIff(f[2], None, tx.kind.maxPriorityFee);
      DScalarIff(f[3], None, tx.kind.maxFee);
      DScalarIff(f[4], None, tx.gas);
      DToIff(f[5], tx.to);
      DTransferIff(f[6], f[7], f[8], Transfer(tx.value, tx.data, tx.kind.access));
      if f[9].List? {
        DAuthAllIff(f[9].items, tx.kind.auths);
      }
      DSignatureIff(f[10], f[11], f[12], Signature(tx.kind.yParity, tx.r, tx.s));
    }
  }

  lemma DFieldsIff(f: seq<Item>, tx: Transaction)
    ensures DFields(TypeOf(tx) as nat, f) == Some(tx) <==> f == Fields(tx) && InRange(tx)
  {
    match tx.kind
    case Legacy(_, _) => DLegacyIff(f, tx);
    case AccessList(_, _, _, _) => DAccessListTxIff(f, tx);
    case FeeMarket(_, _, _, _, _) => DFeeMarketTxIff(f, tx);
    case Blob(_, _, _, _, _, _, _) => DBlobTxIff(f, tx);
    case SetCode(_, _, _, _, _, _) => DSetCodeTxIff(f, tx);
  }

  /** Each field decoder yields its own type. */
  lemma DFieldsType(txType: nat, f: seq<Item>)
    requires txType <= 4 && DFields(txType, f).Some?
    ensures TypeOf(DFields(txType, f).value) as nat == txType
  {}

  // ----- whole transactions -----

  /** The first byte of a list says how long its payload is; only payloads of 2^56 bytes or
      more are announced by 0xFF. */
  lemma ListFirstByte(items: seq<Item>)
    requires Encodable(List(items))
    ensures var b := Enc(List(items)); b[0] >= LIST_BASE && (b[0] <= 0xFE <==> SizeAll(items) < 0x100_0000_0000_0000)
  {
    BeFitsEight(SizeAll(items));
    assert Enc(List(items))[0] == Header(LIST_BASE, SizeAll(items))[0];
  }

  lemma {:induction false} Pow256Sum(k: nat, m: nat)
    ensures Pow256(k + m) == Pow256(k) * Pow256(m)
  {
    if k > 0 {
      Pow256Sum(k - 1, m);
      TimesGroups(256, Pow256(k - 1), Pow256(m));
    }
  }

  lemma TimesGroups(x: int, y: int, z: int)
    ensures x * (y * z) == (x * y) * z
  {}

  /** The bounds of the envelope are widths in bytes. */
  lemma EnvelopeIsWidths(tx: Transaction)
    ensures InEnvelope(tx) <==> FitsEnvelope(tx)
  {
    EnvelopeLimits();
    hide Pow256;
  }

  lemma EnvelopeLimits()
    ensures Pow256(8) == GAS_LIMIT && Pow256(32) == FEE_LIMIT
  {
    assert Pow256(1) == 256 && Pow256(2) == 0x1_0000;
    hide Pow256;
    Pow256Sum(2, 2);
    Pow256Sum(4, 4);
    Pow256Sum(8, 8);
    Pow256Sum(16, 16);
  }

  /** The codec in one statement: a byte string decodes to a transaction exactly when it is
      that transaction's encoding, every field is in its range, and a legacy payload stays
      below 2^56 bytes. */
  lemma DecodeIff(raw: seq<byte>, tx: Transaction)
    ensures DecodeTransaction(raw) == Some(tx) <==>
      && WellFormed(tx)
      && Encodable(List(Fields(tx)))
      && raw == EncodeTransaction(tx)
      && (tx.kind.Legacy? ==> SizeAll(Fields(tx)) < 0x100_0000_0000_0000)
  {
    if DecodeTransaction(raw) == Some(tx) {
      DecodedIsEncoding(raw, tx);
    }
    if WellFormed(tx) && Encodable(List(Fields(tx))) && raw == EncodeTransaction(tx)
        && (tx.kind.Legacy? ==> SizeAll(Fields(tx)) < 0x100_0000_0000_0000) {
      EncodingDecodes(tx);
    }
  }

  /** Every accepted byte string is reproduced exactly by encoding what was decoded. */
  lemma DecodedIsEncoding(raw: seq<byte>, tx: Transaction)
    requires DecodeTransaction(raw) == Some(tx)
    ensures WellFormed(tx) && Encodable(List(Fields(tx))) && raw == EncodeTransaction(tx)
    ensures tx.kind.Legacy? ==> SizeAll(Fields(tx)) < 0x100_0000_0000_0000
  {
    var typed := 1 <= raw[0] <= 4;
    var body := if typed then raw[1..] else raw;
    var x := RlpDecodeFully(body).value;
    EnvelopeIsWidths(tx);
    DFieldsType(if typed then raw[0] as nat else 0, x.items);
    DFieldsIff(x.items, tx);
    FullyDecodesIff(body, x);
    ListFirstByte(x.items);
    assert raw == [raw[0]] + raw[1..];
  }

  /** Encoding a transaction and decoding the result gives the transaction back. */
  lemma EncodingDecodes(tx: Transaction)
    requires WellFormed(tx) && Encodable(List(Fields(tx)))
    requires tx.kind.Legacy? ==> SizeAll(Fields(tx)) < 0x100_0000_0000_0000
    ensures DecodeTransaction(EncodeTransaction(tx)) == Some(tx)
  {
    var x, raw := List(Fields(tx)), EncodeTransaction(tx);
    EnvelopeIsWidths(tx);
    FullyDecodesIff(Enc(x), x);
    ListFirstByte(Fields(tx));
    DFieldsIff(Fields(tx), tx);
    if !tx.kind.Legacy? {
      assert raw[1..] == Enc(x);
    }
  }

  /** A legacy transaction too long for a seven-byte length cannot be decoded at all. */
  lemma LongLegacyIsRejected(tx: Transaction)
    requires tx.kind.Legacy? && Encodable(List(Fields(tx))) && SizeAll(Fields(tx)) >= 0x100_0000_0000_0000
    ensures DecodeTransaction(EncodeTransaction(tx)) == None
  {
    ListFirstByte(Fields(tx));
  }

  // ----- the signing preimage -----

  /** The two transactions ask for the same thing, whoever signed them and how. */
  predicate SameRequest(a: Transaction, b: Transaction) {
    && TypeOf(a) == TypeOf(b)
    && a.nonce == b.nonce && a.gas == b.gas && a.to == b.to && a.value == b.value && a.data == b.data
    && match a.kind
       case Legacy(gasPrice, _) => gasPrice == b.kind.gasPrice
       case AccessList(chainId, gasPrice, access, _) =>
         chainId == b.kind.chainId && gasPrice == b.kind.gasPrice && access == b.kind.access
       case FeeMarket(chainId, prio, maxFee, access, _) =>
         chainId == b.kind.chainId && prio == b.kind.maxPriorityFee && maxFee == b.kind.maxFee
           && access == b.kind.access
       case Blob(chainId, prio, maxFee, access, blobFee, hashes, _) =>
         && chainId == b.kind.chainId && prio == b.kind.maxPriorityFee && maxFee == b.kind.maxFee
         && access == b.kind.access && blobFee == b.kind.maxBlobFee && hashes == b.kind.blobHashes
       case SetCode(chainId, prio, maxFee, access, auths, _) =>
         && chainId == b.kind.chainId && prio == b.kind.maxPriorityFee && maxFee == b.kind.maxFee
         && access == b.kind.access && auths == b.kind.auths
  }

  /** `a` with the signature and, for legacy transactions, the `v` of `b`. */
  function WithSignature(a: Transaction, b: Transaction): Transaction
    requires TypeOf(a) == TypeOf(b)
  {
    var kind := match a.kind
      case Legacy(gasPrice, _) => Legacy(gasPrice, b.kind.v)
      case AccessList(chainId, gasPrice, access, _) => AccessList(chainId, gasPrice, access, b.kind.yParity)
      case FeeMarket(chainId, prio, maxFee, access, _) => FeeMarket(chainId, prio, maxFee, access, b.kind.yParity)
      case Blob(chainId, prio, maxFee, access, blobFee, hashes, _) =>
        Blob(chainId, prio, maxFee, access, blobFee, hashes, b.kind.yParity)
      case SetCode(chainId, prio, maxFee, access, auths, _) =>
        SetCode(chainId, prio, maxFee, access, auths, b.kind.yParity);
    a.(kind := kind, r := b.r, s := b.s)
  }

  lemma SignatureIsTaken(a: Transaction, b: Transaction)
    requires InRange(a) && InRange(b) && TypeOf(a) == TypeOf(b) && UnsignedFields(a) == UnsignedFields(b)
    ensures var a' := WithSignature(a, b); InRange(a') && SameRequest(a, a') && Fields(a') == Fields(b)
  {
    hide Below, WellFormedAccesses, WellFormedAuth, Scalar, ToItem, AccessItems, AuthItems, FixedItems;
  }

  /** Equal unsigned fields mean equal requests: the field decoder tells them apart. */
  lemma UnsignedFieldsDetermine(a: Transaction, b: Transaction)
    requires InRange(a) && InRange(b) && TypeOf(a) == TypeOf(b) && UnsignedFields(a) == UnsignedFields(b)
    ensures SameRequest(a, b)
  {
    hide InRange, DFields, Fields, UnsignedFields, WithSignature;
    var a' := WithSignature(a, b);
    SignatureIsTaken(a, b);
    DFieldsIff(Fields(b), a');
    DFieldsIff(Fields(b), b);
  }

  /** What is signed determines what is signed for: the type, every unsigned field and, for
      replay-protected legacy transactions, the chain. */
  lemma PreimageInjective(a: Transaction, chainA: nat, b: Transaction, chainB: nat)
    requires InRange(a) && InRange(b)
    requires Encodable(List(PreimageFields(a, chainA))) && Encodable(List(PreimageFields(b, chainB)))
    requires Preimage(a, chainA) == Preimage(b, chainB)
    ensures SameRequest(a, b)
    ensures IsEip155(a) == IsEip155(b) && (IsEip155(a) ==> chainA == chainB)
  {
    var fa, fb := PreimageFields(a, chainA), PreimageFields(b, chainB);
    ListFirstByte(fa);
    ListFirstByte(fb);
    assert Preimage(a, chainA)[0] == if a.kind.Legacy? then Enc(List(fa))[0] else TypeOf(a);
    assert Preimage(b, chainB)[0] == if b.kind.Legacy? then Enc(List(fb))[0] else TypeOf(b);
    assert TypeOf(a) == TypeOf(b);
    if !a.kind.Legacy? {
      assert Preimage(a, chainA)[1..] == Enc(List(fa)) && Preimage(b, chainB)[1..] == Enc(List(fb));
    }
    EncInjective(List(fa), List(fb));
    var n := |UnsignedFields(a)|;
    assert UnsignedFields(a) == fa[..n] && UnsignedFields(b) == fb[..|UnsignedFields(b)|];
    UnsignedFieldsDetermine(a, b);
    if IsEip155(a) {
      assert fa[n] == Scalar(chainA) && fb[n] == Scalar(chainB);
      BeInjective(chainA, chainB);
    }
  }

  // ----- the preimage in terms of the encoder -----

  /** A replay-protected legacy transaction signs the encoding of itself with the chain for `v`
      and zeros for the signature. */
  lemma Eip155Preimage(tx: Transaction, chainId: nat)
    requires tx.kind.Legacy? && tx.kind.v != 27 && tx.kind.v != 28
    requires Encodable(List(PreimageFields(tx, chainId)))
    ensures var blank := tx.(kind := Legacy(tx.kind.gasPrice, chainId), r := 0, s := 0);
      Encodable(List(Fields(blank))) && Preimage(tx, chainId) == EncodeTransaction(blank)
  {
    var blank := tx.(kind := Legacy(tx.kind.gasPrice, chainId), r := 0, s := 0);
    assert Fields(blank) == PreimageFields(tx, chainId);
  }

  /** Any other legacy transaction signs its first six fields. */
  lemma PlainPreimage(tx: Transaction, chainId: nat)
    requires tx.kind.Legacy? && (tx.kind.v == 27 || tx.kind.v == 28)
    requires Encodable(List(PreimageFields(tx, chainId)))
    ensures |Fields(tx)| == 9 && RlpDecodeFully(Preimage(tx, chainId)) == Some(List(Fields(tx)[..6]))
  {
    assert PreimageFields(tx, chainId) == Fields(tx)[..6];
    FullyDecodesIff(Preimage(tx, chainId), List(Fields(tx)[..6]));
  }

  /** A typed transaction signs its type and its fields without the last three. */
  lemma TypedPreimage(tx: Transaction, chainId: nat)
    requires !tx.kind.Legacy? && Encodable(List(PreimageFields(tx, chainId)))
    ensures |Fields(tx)| >= 3
    ensures var signed, p := List(Fields(tx)[..|Fields(tx)| - 3]), Preimage(tx, chainId);
      Encodable(signed) && p == [TypeOf(tx)] + Enc(signed) && RlpDecodeFully(p[1..]) == Some(signed)
  {
    var signed := Fields(tx)[..|Fields(tx)| - 3];
    assert PreimageFields(tx, chainId) == signed;
    FullyDecodesIff(Enc(List(signed)), List(signed));
    assert ([TypeOf(tx)] + Enc(List(signed)))[1..] == Enc(List(signed));
  }
}
