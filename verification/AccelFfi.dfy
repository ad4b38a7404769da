/** The accelerators as foreign calls: functions from the array's bytes to its new bytes. */
module AccelFfi {
  import opened Words
  import opened BigEndian
  import opened LittleEndian
  import opened Accel

  /** The little-endian words packed in the bytes; a trailing partial word is dropped. */
  function WordsOfLe(bytes: seq<byte>): (r: seq<Word>)
    ensures |r| == |bytes| / 8
  {
    if |bytes| < 8 then []
    else
      BytesFromLe(bytes[..8]);
      WordPowers();
      [FromLe(bytes[..8])] + WordsOfLe(bytes[8..])
  }

  function LeOfWords(words: seq<Word>): (r: seq<byte>)
    ensures |r| == 8 * |words|
  {
    if words == [] then [] else LeBytes(words[0], 8) + LeOfWords(words[1..])
  }

  lemma {:induction false} WordsRoundTrip(words: seq<Word>)
    ensures WordsOfLe(LeOfWords(words)) == words
  {
    if words != [] {
      var bytes := LeOfWords(words);
      assert bytes[..8] == LeBytes(words[0], 8) && bytes[8..] == LeOfWords(words[1..]);
      WordPowers();
      FromLeBytes(words[0], 8);
      WordsRoundTrip(words[1..]);
    }
  }

  lemma {:induction false} BytesRoundTrip(bytes: seq<byte>)
    requires |bytes| % 8 == 0
    ensures LeOfWords(WordsOfLe(bytes)) == bytes
    decreases |bytes|
  {
    if |bytes| >= 8 {
      BytesFromLe(bytes[..8]);
      BytesRoundTrip(bytes[8..]);
      var words := WordsOfLe(bytes);
      assert words[0] == FromLe(bytes[..8]) && words[1..] == WordsOfLe(bytes[8..]);
      assert bytes == bytes[..8] + bytes[8..];
    }
  }

  /** Exactly `n` words from the bytes, and no configuration. */
  function ExactWords(configuration: seq<byte>, bytes: seq<byte>, n: nat): (r: Option<seq<Word>>)
    ensures r.Some? ==> |r.value| == n
  {
    if |configuration| == 0 && |bytes| == 8 * n then Some(WordsOfLe(bytes)) else None
  }

  function ArithModBytes(f: Arithmetic, limbs: nat, configuration: seq<byte>, bytes: seq<byte>): Option<seq<byte>> {
    var words :- ExactWords(configuration, bytes, 5 * limbs);
    var a := words[..limbs];
    var b := words[limbs..][..limbs];
    var c := words[2 * limbs..][..limbs];
    var m := words[3 * limbs..][..limbs];
    if f.limbsToNat(m) == 0 then None
    else Some(LeOfWords(words[..4 * limbs] + f.natToLimbs(limbs,
      f.mulAddMod(f.limbsToNat(a), f.limbsToNat(b), f.limbsToNat(c), f.limbsToNat(m)))))
  }

  function CurveAddBytes(f: Arithmetic, prime: nat, limbs: nat, configuration: seq<byte>,
                         bytes: seq<byte>): Option<seq<byte>> {
    var words :- ExactWords(configuration, bytes, 4 * limbs);
    var s, t := words[..2 * limbs], words[2 * limbs..];
    if CanAdd(f, prime, limbs, s, t) then Some(LeOfWords(f.curveAdd(prime, limbs, s, t) + t)) else None
  }

  function CurveDoubleBytes(f: Arithmetic, prime: nat, limbs: nat, configuration: seq<byte>,
                            bytes: seq<byte>): Option<seq<byte>> {
    var s :- ExactWords(configuration, bytes, 2 * limbs);
    if CanDouble(f, prime, limbs, s) then Some(LeOfWords(f.curveDouble(prime, limbs, s))) else None
  }

  function ComplexBytes(f: Arithmetic, op: FieldOp, prime: nat, limbs: nat, configuration: seq<byte>,
                        bytes: seq<byte>): Option<seq<byte>> {
    var words :- ExactWords(configuration, bytes, 4 * limbs);
    var s, t := words[..2 * limbs], words[2 * limbs..];
    if f.isPoint(prime, limbs, s) && f.isPoint(prime, limbs, t)
    then Some(LeOfWords(op(prime, limbs, s, t) + t))
    else None
  }

  /** The array is the row, a value and not a pointer, then the state and the message. */
  function BlakeBytes(f: Arithmetic, configuration: seq<byte>, bytes: seq<byte>): Option<seq<byte>> {
    var words :- ExactWords(configuration, bytes, 33);
    var index, rest := words[0], words[1..];
    var state, input := rest[..16], rest[16..];
    if index < 10 then Some(LeOfWords([index] + f.blakeRound(index, state, input) + input)) else None
  }

  function AcceleratorBytes(f: Arithmetic, name: string, configuration: seq<byte>, bytes: seq<byte>): Option<seq<byte>>
    requires name != "keccakf" && name != "sha256f"
  {
    if name == "arith256mod" || name == "bn_arith256" then ArithModBytes(f, 4, configuration, bytes)
    else if name == "bls_arith384" then ArithModBytes(f, 6, configuration, bytes)
    else if name == "secpadd" then CurveAddBytes(f, f.secpPrime, 4, configuration, bytes)
    else if name == "secpdbl" then CurveDoubleBytes(f, f.secpPrime, 4, configuration, bytes)
    else if name == "bn_g1_add" then CurveAddBytes(f, f.bn254Prime, 4, configuration, bytes)
    else if name == "bn_g1_dbl" then CurveDoubleBytes(f, f.bn254Prime, 4, configuration, bytes)
    else if name == "bn_fp2_add" then ComplexBytes(f, f.complexAdd, f.bn254Prime, 4, configuration, bytes)
    else if name == "bn_fp2_sub" then ComplexBytes(f, f.complexSub, f.bn254Prime, 4, configuration, bytes)
    else if name == "bn_fp2_mul" then ComplexBytes(f, f.complexMul, f.bn254Prime, 4, configuration, bytes)
    else if name == "bls_g1_add" then CurveAddBytes(f, f.bls12Prime, 6, configuration, bytes)
    else if name == "bls_g1_dbl" then CurveDoubleBytes(f, f.bls12Prime, 6, configuration, bytes)
    else if name == "bls_fp2_add" then ComplexBytes(f, f.complexAdd, f.bls12Prime, 6, configuration, bytes)
    else if name == "bls_fp2_sub" then ComplexBytes(f, f.complexSub, f.bls12Prime, 6, configuration, bytes)
    else if name == "bls_fp2_mul" then ComplexBytes(f, f.complexMul, f.bls12Prime, 6, configuration, bytes)
    else if name == "blake2bround" then BlakeBytes(f, configuration, bytes)
    else None
  }
}
