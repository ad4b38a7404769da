/** Following the stub's pointers through memory does to the array what the byte function
    says, fails exactly where it fails, and touches nothing else. */
module AccelRefinement {
  import opened Words
  import opened BigEndian
  import opened Accel
  import opened AccelFfi

  /** On operands of the shape that the calling convention gives them, so are results. */
  ghost predicate WellShaped(f: Arithmetic) {
    && (forall n: nat, x: nat :: |f.natToLimbs(n, x)| == n)
    && IsShapedOp(f.curveAdd)
    && (forall p: nat, n: nat, s: seq<Word> :: |s| == 2 * n ==> |f.curveDouble(p, n, s)| == 2 * n)
    && IsShapedOp(f.complexAdd) && IsShapedOp(f.complexSub) && IsShapedOp(f.complexMul)
    && (forall i: nat, s: seq<Word>, t: seq<Word> :: i < 10 && |s| == |t| == 16 ==> |f.blakeRound(i, s, t)| == 16)
  }

  ghost predicate IsShapedOp(op: FieldOp) {
    forall p: nat, n: nat, s: seq<Word>, t: seq<Word> :: |s| == |t| == 2 * n ==> |op(p, n, s, t)| == 2 * n
  }

  /** The effect of a call on memory agrees with the call's new bytes, for an array of `n`
      words at `b`. */
  ghost predicate Refines(m: Memory, b: Word, n: nat, effect: Option<Memory>, bytes: Option<seq<byte>>) {
    match bytes
    case None => effect == None
    case Some(after) =>
      && effect.Some?
      && ReadWords(effect.value, b, n).Some?
      && LeOfWords(ReadWords(effect.value, b, n).value) == after
      && forall x :: !InRange(b, n, x) ==> SameCell(m, effect.value, x)
  }

  /** The array: `bytes` as words at `b`. */
  ghost predicate Holds(m: Memory, b: Word, bytes: seq<byte>) {
    |bytes| % 8 == 0 && |bytes| < 0x1_0000 && ReadWords(m, b, |bytes| / 8) == Some(WordsOfLe(bytes))
  }

  /** The pointer block at `p`. */
  ghost predicate Points(m: Memory, p: Word, pointers: seq<Word>) {
    ReadWords(m, p, |pointers|) == Some(pointers)
  }

  lemma PointerAt(m: Memory, p: Word, pointers: seq<Word>, i: nat)
    requires Points(m, p, pointers) && i < |pointers|
    ensures ReadWord(m, Cell(p, i)) == Some(pointers[i]) && Cell(p, 0) == p
  {
    ReadPart(m, p, pointers, i, 1);
    NextCell(p);
  }

  /** What one write into the array leaves there. */
  lemma WriteRefines(m: Memory, b: Word, words: seq<Word>, i: nat, vs: seq<Word>)
    requires ReadWords(m, b, |words|) == Some(words) && i + |vs| <= |words| < 0x2000
    ensures Refines(m, b, |words|, Some(WriteWords(m, Cell(b, i), vs)), Some(LeOfWords(Overwrite(words, i, vs))))
  {
    WriteInBlock(m, b, words, i, vs);
  }

  function ArithPointers(b: Word, limbs: nat): seq<Word> {
    [b, Cell(b, limbs), Cell(b, 2 * limbs), Cell(b, 3 * limbs), Cell(b, 4 * limbs)]
  }

  function PairPointers(b: Word, limbs: nat): seq<Word> {
    [b, Cell(b, 2 * limbs)]
  }

  function BlakePointers(b: Word, row: Word): seq<Word> {
    [row, Cell(b, 1), Cell(b, 17)]
  }

  lemma ArithModRefines(f: Arithmetic, limbs: nat, m: Memory, b: Word, p: Word, bytes: seq<byte>)
    requires WellShaped(f) && Holds(m, b, bytes) && |bytes| == 8 * (5 * limbs) && Points(m, p, ArithPointers(b, limbs))
    ensures Refines(m, b, 5 * limbs, ArithModEffect(f, limbs, m, p), ArithModBytes(f, limbs, [], bytes))
  {
    hide ReadWords, WriteWords, WordsOfLe, LeOfWords, Refines, Overwrite, Cell;
    var words, ps := WordsOfLe(bytes), ArithPointers(b, limbs);
    PointerAt(m, p, ps, 0);
    PointerAt(m, p, ps, 1);
    PointerAt(m, p, ps, 2);
    PointerAt(m, p, ps, 3);
    PointerAt(m, p, ps, 4);
    NextCell(b);
    ReadPart(m, b, words, 0, limbs);
    ReadPart(m, b, words, limbs, limbs);
    ReadPart(m, b, words, 2 * limbs, limbs);
    ReadPart(m, b, words, 3 * limbs, limbs);
    ReadPart(m, b, words, 4 * limbs, limbs);
    Slices(words, limbs, limbs);
    Slices(words, 2 * limbs, limbs);
    Slices(words, 3 * limbs, limbs);
    var d := words[3 * limbs..4 * limbs];
    if f.limbsToNat(d) == 0 {
      NothingRefines(m, b, 5 * limbs);
    } else {
      var v := f.natToLimbs(limbs, f.mulAddMod(f.limbsToNat(words[..limbs]), f.limbsToNat(words[limbs..2 * limbs]),
        f.limbsToNat(words[2 * limbs..3 * limbs]), f.limbsToNat(d)));
      WriteRefines(m, b, words, 4 * limbs, v);
      OverwriteEnd(words, 4 * limbs, v);
    }
  }

  lemma Slices(words: seq<Word>, i: nat, k: nat)
    requires i + k <= |words|
    ensures words[i..][..k] == words[i..i + k]
  {}

  lemma NothingRefines(m: Memory, b: Word, n: nat)
    ensures Refines(m, b, n, None, None)
  {}

  lemma OverwriteEnd(words: seq<Word>, i: nat, v: seq<Word>)
    requires i + |v| == |words|
    ensures Overwrite(words, i, v) == words[..i] + v
  {}

  lemma OverwriteStart(words: seq<Word>, v: seq<Word>)
    requires |v| <= |words|
    ensures Overwrite(words, 0, v) == v + words[|v|..]
  {}

  /** The two operands of a call whose array is a pair. */
  lemma PairOperands(m: Memory, b: Word, p: Word, bytes: seq<byte>, limbs: nat)
    requires Holds(m, b, bytes) && |bytes| == 8 * (4 * limbs) && Points(m, p, PairPointers(b, limbs))
    ensures var words := WordsOfLe(bytes);
      && ReadWord(m, p) == Some(b) && ReadWord(m, Cell(p, 1)) == Some(Cell(b, 2 * limbs))
      && ReadWords(m, b, 2 * limbs) == Some(words[..2 * limbs])
      && ReadWords(m, Cell(b, 2 * limbs), 2 * limbs) == Some(words[2 * limbs..])
  {
    hide ReadWords, WordsOfLe, Cell;
    var words, ps := WordsOfLe(bytes), PairPointers(b, limbs);
    PointerAt(m, p, ps, 0);
    PointerAt(m, p, ps, 1);
    NextCell(b);
    ReadPart(m, b, words, 0, 2 * limbs);
    ReadPart(m, b, words, 2 * limbs, 2 * limbs);
    assert words[0..0 + 2 * limbs] == words[..2 * limbs]
      && words[2 * limbs..2 * limbs + 2 * limbs] == words[2 * limbs..];
  }

  lemma PairResult(m: Memory, b: Word, bytes: seq<byte>, limbs: nat, v: seq<Word>)
    requires Holds(m, b, bytes) && |bytes| == 8 * (4 * limbs) && |v| == 2 * limbs
    ensures Refines(m, b, 4 * limbs, Some(WriteWords(m, b, v)), Some(LeOfWords(v + WordsOfLe(bytes)[2 * limbs..])))
  {
    var words := WordsOfLe(bytes);
    NextCell(b);
    WriteRefines(m, b, words, 0, v);
    OverwriteStart(words, v);
  }

  lemma CurveAddRefines(f: Arithmetic, prime: nat, limbs: nat, m: Memory, b: Word, p: Word, bytes: seq<byte>)
    requires WellShaped(f) && Holds(m, b, bytes) && |bytes| == 8 * (4 * limbs) && Points(m, p, PairPointers(b, limbs))
    ensures Refines(m, b, 4 * limbs, CurveAddEffect(f, prime, limbs, m, p), CurveAddBytes(f, prime, limbs, [], bytes))
  {
    hide ReadWords, ReadWord, WriteWords, WordsOfLe, LeOfWords, Refines, Cell, CanAdd;
    PairOperands(m, b, p, bytes, limbs);
    var words := WordsOfLe(bytes);
    var s, t := words[..2 * limbs], words[2 * limbs..];
    if CanAdd(f, prime, limbs, s, t) {
      PairResult(m, b, bytes, limbs, f.curveAdd(prime, limbs, s, t));
    } else {
      NothingRefines(m, b, 4 * limbs);
    }
  }

  lemma ComplexRefines(f: Arithmetic, op: FieldOp, prime: nat, limbs: nat, m: Memory, b: Word, p: Word,
                       bytes: seq<byte>)
    requires IsShapedOp(op) && Holds(m, b, bytes) && |bytes| == 8 * (4 * limbs) && Points(m, p, PairPointers(b, limbs))
    ensures Refines(m, b, 4 * limbs, ComplexEffect(f, op, prime, limbs, m, p),
      ComplexBytes(f, op, prime, limbs, [], bytes))
  {
    hide ReadWords, ReadWord, WriteWords, WordsOfLe, LeOfWords, Refines, Cell;
    PairOperands(m, b, p, bytes, limbs);
    var words := WordsOfLe(bytes);
    var s, t := words[..2 * limbs], words[2 * limbs..];
    if f.isPoint(prime, limbs, s) && f.isPoint(prime, limbs, t) {
      PairResult(m, b, bytes, limbs, op(prime, limbs, s, t));
    } else {
      NothingRefines(m, b, 4 * limbs);
    }
  }

  lemma CurveDoubleRefines(f: Arithmetic, prime: nat, limbs: nat, m: Memory, b: Word, bytes: seq<byte>)
    requires WellShaped(f) && Holds(m, b, bytes) && |bytes| == 8 * (2 * limbs)
    ensures Refines(m, b, 2 * limbs, CurveDoubleEffect(f, prime, limbs, m, b),
      CurveDoubleBytes(f, prime, limbs, [], bytes))
  {
    hide ReadWords, WriteWords, WordsOfLe, LeOfWords, Refines, Cell, CanDouble;
    var words := WordsOfLe(bytes);
    if CanDouble(f, prime, limbs, words) {
      var v := f.curveDouble(prime, limbs, words);
      NextCell(b);
      WriteRefines(m, b, words, 0, v);
      OverwriteStart(words, v);
      assert v + words[|v|..] == v;
    } else {
      NothingRefines(m, b, 2 * limbs);
    }
  }

  lemma BlakeRefines(f: Arithmetic, m: Memory, b: Word, p: Word, bytes: seq<byte>)
    requires WellShaped(f) && Holds(m, b, bytes) && |bytes| == 8 * 33
    requires Points(m, p, BlakePointers(b, WordsOfLe(bytes)[0]))
    ensures Refines(m, b, 33, BlakeEffect(f, m, p), BlakeBytes(f, [], bytes))
  {
    hide ReadWords, WriteWords, WordsOfLe, LeOfWords, Refines, Overwrite, Cell;
    var words := WordsOfLe(bytes);
    var ps := BlakePointers(b, words[0]);
    PointerAt(m, p, ps, 0);
    PointerAt(m, p, ps, 1);
    PointerAt(m, p, ps, 2);
    ReadPart(m, b, words, 1, 16);
    ReadPart(m, b, words, 17, 16);
    assert words[1..][..16] == words[1..17] && words[1..][16..] == words[17..33];
    if words[0] < 10 {
      var v := f.blakeRound(words[0], words[1..17], words[17..33]);
      WriteRefines(m, b, words, 1, v);
      OverwriteState(words, v);
    } else {
      NothingRefines(m, b, 33);
    }
  }

  lemma OverwriteState(words: seq<Word>, v: seq<Word>)
    requires |words| == 33 && |v| == 16
    ensures Overwrite(words, 1, v) == [words[0]] + v + words[17..33]
  {}

  // ----- every accelerator -----

  datatype Layout = ArithLayout(limbs: nat) | PairLayout(limbs: nat) | PointLayout(limbs: nat) | BlakeLayout

  /** The array layout of each call, and with it the pointer block its stub builds. */
  function LayoutOf(name: string): Option<Layout> {
    if name == "arith256mod" || name == "bn_arith256" then Some(ArithLayout(4))
    else if name == "bls_arith384" then Some(ArithLayout(6))
    else if name == "secpadd" || name == "bn_g1_add" then Some(PairLayout(4))
    else if name == "bn_fp2_add" || name == "bn_fp2_sub" || name == "bn_fp2_mul" then Some(PairLayout(4))
    else if name == "bls_g1_add" then Some(PairLayout(6))
    else if name == "bls_fp2_add" || name == "bls_fp2_sub" || name == "bls_fp2_mul" then Some(PairLayout(6))
    else if name == "secpdbl" || name == "bn_g1_dbl" then Some(PointLayout(4))
    else if name == "bls_g1_dbl" then Some(PointLayout(6))
    else if name == "blake2bround" then Some(BlakeLayout)
    else None
  }

  /** Array words of a layout. */
  function ArrayWords(layout: Layout): nat {
    match layout
    case ArithLayout(limbs) => 5 * limbs
    case PairLayout(limbs) => 4 * limbs
    case PointLayout(limbs) => 2 * limbs
    case BlakeLayout => 33
  }

  /** The argument `p` that the stub hands to the hardware for the array at `b`. */
  ghost predicate StubCalls(layout: Layout, m: Memory, b: Word, bytes: seq<byte>, p: Word)
    requires |bytes| == 8 * ArrayWords(layout)
  {
    match layout
    case ArithLayout(limbs) => Points(m, p, ArithPointers(b, limbs))
    case PairLayout(limbs) => Points(m, p, PairPointers(b, limbs))
    case PointLayout(_) => p == b
    case BlakeLayout => Points(m, p, BlakePointers(b, WordsOfLe(bytes)[0]))
  }

  /** The two views of an accelerator agree: same failures, same array afterwards, nothing
      else changed. */
  lemma EffectRefinesBytes(f: Arithmetic, name: string, m: Memory, b: Word, p: Word, bytes: seq<byte>)
    requires WellShaped(f) && LayoutOf(name).Some? && Holds(m, b, bytes)
    requires |bytes| == 8 * ArrayWords(LayoutOf(name).value) && StubCalls(LayoutOf(name).value, m, b, bytes, p)
    ensures Refines(m, b, ArrayWords(LayoutOf(name).value), AcceleratorEffect(f, name, p, m),
      AcceleratorBytes(f, name, [], bytes))
  {
    hide Refines, Holds, Points, ArithModEffect, ArithModBytes, CurveAddEffect, CurveAddBytes, ComplexEffect,
      ComplexBytes, CurveDoubleEffect, CurveDoubleBytes, BlakeEffect, BlakeBytes, WordsOfLe;
    match LayoutOf(name).value {
      case ArithLayout(limbs) =>
        ArithModRefines(f, limbs, m, b, p, bytes);
      case PairLayout(limbs) =>
        var prime := if limbs == 6 then f.bls12Prime else if name == "secpadd" then f.secpPrime else f.bn254Prime;
        CurveAddRefines(f, prime, limbs, m, b, p, bytes);
        ComplexRefines(f, f.complexAdd, prime, limbs, m, b, p, bytes);
        ComplexRefines(f, f.complexSub, prime, limbs, m, b, p, bytes);
        ComplexRefines(f, f.complexMul, prime, limbs, m, b, p, bytes);
      case PointLayout(limbs) =>
        var prime := if limbs == 6 then f.bls12Prime else if name == "secpdbl" then f.secpPrime else f.bn254Prime;
        CurveDoubleRefines(f, prime, limbs, m, b, bytes);
      case BlakeLayout =>
        BlakeRefines(f, m, b, p, bytes);
    }
  }

  /** A call of any other shape fails, and so does an unknown name in either view. */
  lemma OtherShapesFail(f: Arithmetic, name: string, configuration: seq<byte>, bytes: seq<byte>)
    requires name != "keccakf" && name != "sha256f"
    requires LayoutOf(name).Some? ==> configuration != [] || |bytes| != 8 * ArrayWords(LayoutOf(name).value)
    ensures AcceleratorBytes(f, name, configuration, bytes) == None
    ensures LayoutOf(name).None? ==> forall m: Memory, p: Word :: AcceleratorEffect(f, name, p, m) == None
  {
    hide WordsOfLe, LeOfWords;
  }
}
