/** The encodings written out byte by byte, for transactions whose numbers are below 128 and which
    carry no data: which field stands where, and under which header. */
module TxBytes {
  import opened Words
  import opened BigEndian
  import opened Rlp
  import opened Tx

  /** The byte of a number below 128; zero is the empty string. */
  function Digit(n: nat): (r: seq<byte>)
    requires n < 128
    ensures |r| == 1
  {
    [if n == 0 then 0x80 else n]
  }

  function Concat(parts: seq<seq<byte>>): seq<byte> {
    if parts == [] then [] else parts[0] + Concat(parts[1..])
  }

  ghost predicate Spells(item: Item, bytes: seq<byte>) {
    Encodable(item) && Enc(item) == bytes
  }

  lemma DigitSpells(n: nat)
    requires n < 128
    ensures Spells(Scalar(n), Digit(n))
  {
    assert n > 0 ==> Be(n) == Be(0) + [n];
  }

  lemma EmptySpells()
    ensures Spells(Bytes([]), [0x80]) && Spells(List([]), [0xC0])
  {}

  lemma FixedSpells(bytes: seq<byte>)
    requires 2 <= |bytes| <= 55
    ensures Spells(Bytes(bytes), [0x80 + |bytes|] + bytes)
  {}

  lemma {:induction false} AllSpell(items: seq<Item>, parts: seq<seq<byte>>)
    requires |items| == |parts| && forall i :: 0 <= i < |items| ==> Spells(items[i], parts[i])
    ensures EncodableAll(items) && EncAll(items) == Concat(parts)
  {
    hide Enc, Encodable;
    if items != [] {
      assert Spells(items[0], parts[0]);
      AllSpell(items[1..], parts[1..]);
    }
  }

  /** The number of bytes of parts of which one, the address, has 21 and the others 1. */
  lemma {:induction false} ConcatLength(parts: seq<seq<byte>>, k: int)
    requires forall i :: 0 <= i < |parts| ==> |parts[i]| == if i == k then 21 else 1
    ensures |Concat(parts)| == |parts| + if 0 <= k < |parts| then 20 else 0
  {
    if parts != [] {
      ConcatLength(parts[1..], k - 1);
    }
  }

  lemma ListSpells(items: seq<Item>, parts: seq<seq<byte>>, k: nat)
    requires k < |parts| == |items| <= 35
    requires forall i :: 0 <= i < |items| ==> Spells(items[i], parts[i])
    requires forall i :: 0 <= i < |parts| ==> |parts[i]| == if i == k then 21 else 1
    ensures Spells(List(items), [0xC0 + |parts| + 20] + Concat(parts))
  {
    AllSpell(items, parts);
    ConcatLength(parts, k);
  }

  /** A transfer without data to `to`, the numbers that every type has being small. */
  predicate IsSmall(tx: Transaction, to: seq<byte>) {
    && |to| == 20 && tx.to == Some(to) && tx.data == [] && tx.nonce < 128 && tx.gas < 128 && tx.value < 128
    && VOrParity(tx) < 128 && tx.r < 128 && tx.s < 128
  }

  lemma SharedSpells(tx: Transaction, to: seq<byte>)
    requires IsSmall(tx, to)
    ensures Spells(Scalar(tx.nonce), Digit(tx.nonce)) && Spells(Scalar(tx.gas), Digit(tx.gas))
    ensures Spells(ToItem(tx.to), [0x94] + to) && Spells(Scalar(tx.value), Digit(tx.value))
    ensures Spells(Bytes(tx.data), [0x80]) && Spells(List(AccessItems([])), [0xC0])
    ensures Spells(List(FixedItems([])), [0xC0]) && Spells(List(AuthItems([])), [0xC0])
    ensures Spells(Scalar(VOrParity(tx)), Digit(VOrParity(tx)))
    ensures Spells(Scalar(tx.r), Digit(tx.r)) && Spells(Scalar(tx.s), Digit(tx.s))
  {
    hide Spells, Scalar;
    DigitSpells(tx.nonce);
    DigitSpells(tx.gas);
    FixedSpells(to);
    DigitSpells(tx.value);
    EmptySpells();
    DigitSpells(VOrParity(tx));
    DigitSpells(tx.r);
    DigitSpells(tx.s);
  }

  /** Legacy: nonce, gas price, gas, recipient, value, data, v, r, s. */
  lemma LegacyBytes(tx: Transaction, to: seq<byte>)
    requires tx.kind.Legacy? && IsSmall(tx, to) && tx.kind.gasPrice < 128
    ensures Encodable(List(Fields(tx)))
    ensures EncodeTransaction(tx) ==
      [0xDD] + Concat([Digit(tx.nonce), Digit(tx.kind.gasPrice), Digit(tx.gas), [0x94] + to, Digit(tx.value), [0x80],
                       Digit(tx.kind.v), Digit(tx.r), Digit(tx.s)])
  {
    hide Encodable, Enc, Concat, Scalar;
    SharedSpells(tx, to);
    DigitSpells(tx.kind.gasPrice);
    ListSpells(Fields(tx),
      [Digit(tx.nonce), Digit(tx.kind.gasPrice), Digit(tx.gas), [0x94] + to, Digit(tx.value), [0x80],
       Digit(tx.kind.v), Digit(tx.r), Digit(tx.s)], 3);
  }

  /** Type 1: chain, nonce, gas price, gas, recipient, value, data, access list, parity, r, s. */
  lemma AccessListBytes(tx: Transaction, to: seq<byte>)
    requires tx.kind.AccessList? && IsSmall(tx, to) && tx.kind.chainId < 128 && tx.kind.gasPrice < 128
    requires tx.kind.access == []
    ensures Encodable(List(Fields(tx)))
    ensures EncodeTransaction(tx) ==
      [1] + ([0xDF] + Concat([Digit(tx.kind.chainId), Digit(tx.nonce), Digit(tx.kind.gasPrice), Digit(tx.gas),
                              [0x94] + to, Digit(tx.value), [0x80], [0xC0], Digit(tx.kind.yParity), Digit(tx.r),
                              Digit(tx.s)]))
  {
    hide Encodable, Enc, Concat, Scalar, AccessItems;
    SharedSpells(tx, to);
    DigitSpells(tx.kind.chainId);
    DigitSpells(tx.kind.gasPrice);
    ListSpells(Fields(tx),
      [Digit(tx.kind.chainId), Digit(tx.nonce), Digit(tx.kind.gasPrice), Digit(tx.gas), [0x94] + to, Digit(tx.value),
       [0x80], [0xC0], Digit(tx.kind.yParity), Digit(tx.r), Digit(tx.s)], 4);
  }

  /** Type 2: as type 1, with the priority fee and then the fee for the gas price. */
  lemma FeeMarketBytes(tx: Transaction, to: seq<byte>)
    requires tx.kind.FeeMarket? && IsSmall(tx, to) && tx.kind.chainId < 128
    requires tx.kind.maxPriorityFee < 128 && tx.kind.maxFee < 128 && tx.kind.access == []
    ensures Encodable(List(Fields(tx)))
    ensures EncodeTransaction(tx) ==
      [2] + ([0xE0] + Concat([Digit(tx.kind.chainId), Digit(tx.nonce), Digit(tx.kind.maxPriorityFee),
                              Digit(tx.kind.maxFee), Digit(tx.gas), [0x94] + to, Digit(tx.value), [0x80], [0xC0],
                              Digit(tx.kind.yParity), Digit(tx.r), Digit(tx.s)]))
  {
    hide Encodable, Enc, Concat, Scalar, AccessItems;
    SharedSpells(tx, to);
    DigitSpells(tx.kind.chainId);
    DigitSpells(tx.kind.maxPriorityFee);
    DigitSpells(tx.kind.maxFee);
    ListSpells(Fields(tx),
      [Digit(tx.kind.chainId), Digit(tx.nonce), Digit(tx.kind.maxPriorityFee), Digit(tx.kind.maxFee), Digit(tx.gas),
       [0x94] + to, Digit(tx.value), [0x80], [0xC0], Digit(tx.kind.yParity), Digit(tx.r), Digit(tx.s)], 5);
  }

  /** Type 3: after the access list come the blob fee and the blob hashes. */
  lemma BlobBytes(tx: Transaction, to: seq<byte>)
    requires tx.kind.Blob? && IsSmall(tx, to) && tx.kind.chainId < 128 && tx.kind.maxBlobFee < 128
    requires tx.kind.maxPriorityFee < 128 && tx.kind.maxFee < 128 && tx.kind.access == [] && tx.kind.blobHashes == []
    ensures Encodable(List(Fields(tx)))
    ensures EncodeTransaction(tx) ==
      [3] + ([0xE2] + Concat([Digit(tx.kind.chainId), Digit(tx.nonce), Digit(tx.kind.maxPriorityFee),
                              Digit(tx.kind.maxFee), Digit(tx.gas), [0x94] + to, Digit(tx.value), [0x80], [0xC0],
                              Digit(tx.kind.maxBlobFee), [0xC0], Digit(tx.kind.yParity), Digit(tx.r), Digit(tx.s)]))
  {
    hide Encodable, Enc, Concat, Scalar, AccessItems, FixedItems;
    SharedSpells(tx, to);
    DigitSpells(tx.kind.chainId);
    DigitSpells(tx.kind.maxPriorityFee);
    DigitSpells(tx.kind.maxFee);
    DigitSpells(tx.kind.maxBlobFee);
    ListSpells(Fields(tx),
      [Digit(tx.kind.chainId), Digit(tx.nonce), Digit(tx.kind.maxPriorityFee), Digit(tx.kind.maxFee), Digit(tx.gas),
       [0x94] + to, Digit(tx.value), [0x80], [0xC0], Digit(tx.kind.maxBlobFee), [0xC0], Digit(tx.kind.yParity),
       Digit(tx.r), Digit(tx.s)], 5);
  }

  /** Type 4: after the access list come the authorizations. */
  lemma SetCodeBytes(tx: Transaction, to: seq<byte>)
    requires tx.kind.SetCode? && IsSmall(tx, to) && tx.kind.chainId < 128
    requires tx.kind.maxPriorityFee < 128 && tx.kind.maxFee < 128 && tx.kind.access == [] && tx.kind.auths == []
    ensures Encodable(List(Fields(tx)))
    ensures EncodeTransaction(tx) ==
      [4] + ([0xE1] + Concat([Digit(tx.kind.chainId), Digit(tx.nonce), Digit(tx.kind.maxPriorityFee),
                              Digit(tx.kind.maxFee), Digit(tx.gas), [0x94] + to, Digit(tx.value), [0x80], [0xC0],
                              [0xC0], Digit(tx.kind.yParity), Digit(tx.r), Digit(tx.s)]))
  {
    hide Encodable, Enc, Concat, Scalar, AccessItems, AuthItems;
    SharedSpells(tx, to);
    DigitSpells(tx.kind.chainId);
    DigitSpells(tx.kind.maxPriorityFee);
    DigitSpells(tx.kind.maxFee);
    ListSpells(Fields(tx),
      [Digit(tx.kind.chainId), Digit(tx.nonce), Digit(tx.kind.maxPriorityFee), Digit(tx.kind.maxFee), Digit(tx.gas),
       [0x94] + to, Digit(tx.value), [0x80], [0xC0], [0xC0], Digit(tx.kind.yParity), Digit(tx.r), Digit(tx.s)], 5);
  }

  /** An entry of an access list: the address, then the list of its keys. */
  lemma AccessEntryBytes(address: seq<byte>, key: seq<byte>)
    requires |address| == 20 && |key| == 32
    ensures Spells(AccessItem(Access(address, [key])),
                   [0xF7] + Concat([[0x94] + address, [0xE1] + Concat([[0xA0] + key])]))
  {
    hide Encodable, Enc;
    FixedSpells(address);
    FixedSpells(key);
    assert FixedItems([key]) == [Bytes(key)];
    PairSpells([Bytes(key)], [[0xA0] + key], 33);
    PairSpells([Bytes(address), List([Bytes(key)])], [[0x94] + address, [0xE1] + Concat([[0xA0] + key])], 55);
  }

  /** One item or two in a list. */
  lemma PairSpells(items: seq<Item>, parts: seq<seq<byte>>, n: nat)
    requires 1 <= |items| == |parts| <= 2 && n <= 55
    requires n == |parts[0]| + if |parts| == 2 then |parts[1]| else 0
    requires forall i :: 0 <= i < |items| ==> Spells(items[i], parts[i])
    ensures Spells(List(items), [0xC0 + n] + Concat(parts)) && |Concat(parts)| == n
  {
    AllSpell(items, parts);
    assert |parts| == 2 ==> Concat(parts[1..]) == parts[1] + Concat([]);
  }

  /** An authorization: chain, address, nonce, parity, r, s. */
  lemma AuthBytes(auth: Auth)
    requires |auth.address| == 20 && auth.chainId < 128 && auth.nonce < 128
    requires auth.yParity < 128 && auth.r < 128 && auth.s < 128
    ensures Spells(AuthItem(auth),
                   [0xDA] + Concat([Digit(auth.chainId), [0x94] + auth.address, Digit(auth.nonce),
                                    Digit(auth.yParity), Digit(auth.r), Digit(auth.s)]))
  {
    hide Spells, Scalar;
    DigitSpells(auth.chainId);
    FixedSpells(auth.address);
    DigitSpells(auth.nonce);
    DigitSpells(auth.yParity);
    DigitSpells(auth.r);
    DigitSpells(auth.s);
    ListSpells(AuthItem(auth).items,
      [Digit(auth.chainId), [0x94] + auth.address, Digit(auth.nonce), Digit(auth.yParity), Digit(auth.r),
       Digit(auth.s)], 1);
  }
}
