/** The accelerators as the hardware sees them: pointers into word memory, and results
    written through them. The arithmetic is not defined here; it is whatever `Arithmetic`
    provides. */
module Accel {
  import opened Words
  import opened Modular

  /** The word cell `i` places after `p`; addresses wrap. */
  function Cell(p: Word, i: nat): Word {
    (p + 8 * i) % WORD_SIZE
  }

  /** No result when a cell is unmapped or holds no word. */
  function ReadWords(m: Memory, p: Word, n: nat): (r: Option<seq<Word>>)
    ensures r.Some? ==> |r.value| == n
  {
    if forall i :: 0 <= i < n ==> Cell(p, i) in m
    then Some(seq(n, i requires 0 <= i < n => m[Cell(p, i)]))
    else None
  }

  function WriteWords(m: Memory, p: Word, ws: seq<Word>): Memory
    decreases |ws|
  {
    if ws == [] then m else WriteWords(m[p := ws[0]], WAdd(p, 8), ws[1..])
  }

  function ReadWord(m: Memory, p: Word): Option<Word> {
    var ws :- ReadWords(m, p, 1);
    Some(ws[0])
  }

  type FieldOp = (nat, nat, seq<Word>, seq<Word>) -> seq<Word>

  /** The library's arithmetic on limbs. A prime and a number of limbs come first. */
  datatype Arithmetic = Arithmetic(
    limbsToNat: seq<Word> -> nat,
    natToLimbs: (nat, nat) -> seq<Word>,
    mulAddMod: (nat, nat, nat, nat) -> nat,
    isPoint: (nat, nat, seq<Word>) -> bool,
    curveAdd: FieldOp,
    curveDouble: (nat, nat, seq<Word>) -> seq<Word>,
    complexAdd: FieldOp,
    complexSub: FieldOp,
    complexMul: FieldOp,
    blakeRound: (nat, seq<Word>, seq<Word>) -> seq<Word>,
    secpPrime: nat,
    bn254Prime: nat,
    bls12Prime: nat)

  /** `*d := (a·b + c) mod m`. */
  function ArithModEffect(f: Arithmetic, limbs: nat, m: Memory, p: Word): Option<Memory> {
    var pa :- ReadWord(m, p);
    var pb :- ReadWord(m, Cell(p, 1));
    var pc :- ReadWord(m, Cell(p, 2));
    var pm :- ReadWord(m, Cell(p, 3));
    var pd :- ReadWord(m, Cell(p, 4));
    var a :- ReadWords(m, pa, limbs);
    var b :- ReadWords(m, pb, limbs);
    var c :- ReadWords(m, pc, limbs);
    var md :- ReadWords(m, pm, limbs);
    var _ :- ReadWords(m, pd, limbs);
    if f.limbsToNat(md) == 0 then None
    else Some(WriteWords(m, pd, f.natToLimbs(limbs,
      f.mulAddMod(f.limbsToNat(a), f.limbsToNat(b), f.limbsToNat(c), f.limbsToNat(md)))))
  }

  predicate CanAdd(f: Arithmetic, prime: nat, limbs: nat, s: seq<Word>, t: seq<Word>)
    requires limbs <= |s| && limbs <= |t|
  {
    f.isPoint(prime, limbs, s) && f.isPoint(prime, limbs, t) && f.limbsToNat(s[..limbs]) != f.limbsToNat(t[..limbs])
  }

  /** `*p1 := p1 + p2` by the chord formula. */
  function CurveAddEffect(f: Arithmetic, prime: nat, limbs: nat, m: Memory, p: Word): Option<Memory> {
    var p1 :- ReadWord(m, p);
    var p2 :- ReadWord(m, Cell(p, 1));
    var s :- ReadWords(m, p1, 2 * limbs);
    var t :- ReadWords(m, p2, 2 * limbs);
    if CanAdd(f, prime, limbs, s, t) then Some(WriteWords(m, p1, f.curveAdd(prime, limbs, s, t))) else None
  }

  predicate CanDouble(f: Arithmetic, prime: nat, limbs: nat, s: seq<Word>)
    requires limbs <= |s|
  {
    f.isPoint(prime, limbs, s) && f.limbsToNat(s[limbs..]) != 0
  }

  /** The point at `p` doubled in place. */
  function CurveDoubleEffect(f: Arithmetic, prime: nat, limbs: nat, m: Memory, p: Word): Option<Memory> {
    var s :- ReadWords(m, p, 2 * limbs);
    if CanDouble(f, prime, limbs, s) then Some(WriteWords(m, p, f.curveDouble(prime, limbs, s))) else None
  }

  /** `*f1 := f1 ∘ f2` in the quadratic extension. */
  function ComplexEffect(f: Arithmetic, op: FieldOp, prime: nat, limbs: nat, m: Memory, p: Word): Option<Memory> {
    var p1 :- ReadWord(m, p);
    var p2 :- ReadWord(m, Cell(p, 1));
    var s :- ReadWords(m, p1, 2 * limbs);
    var t :- ReadWords(m, p2, 2 * limbs);
    if f.isPoint(prime, limbs, s) && f.isPoint(prime, limbs, t)
    then Some(WriteWords(m, p1, op(prime, limbs, s, t)))
    else None
  }

  /** One BLAKE2b round on the state. */
  function BlakeEffect(f: Arithmetic, m: Memory, p: Word): Option<Memory> {
    var index :- ReadWord(m, p);
    var ps :- ReadWord(m, Cell(p, 1));
    var pi :- ReadWord(m, Cell(p, 2));
    var state :- ReadWords(m, ps, 16);
    var input :- ReadWords(m, pi, 16);
    if index < 10 then Some(WriteWords(m, ps, f.blakeRound(index, state, input))) else None
  }

  function AcceleratorEffect(f: Arithmetic, name: string, p: Word, m: Memory): Option<Memory> {
    if name == "arith256mod" || name == "bn_arith256" then ArithModEffect(f, 4, m, p)
    else if name == "secpadd" then CurveAddEffect(f, f.secpPrime, 4, m, p)
    else if name == "secpdbl" then CurveDoubleEffect(f, f.secpPrime, 4, m, p)
    else if name == "bn_g1_add" then CurveAddEffect(f, f.bn254Prime, 4, m, p)
    else if name == "bn_g1_dbl" then CurveDoubleEffect(f, f.bn254Prime, 4, m, p)
    else if name == "bn_fp2_add" then ComplexEffect(f, f.complexAdd, f.bn254Prime, 4, m, p)
    else if name == "bn_fp2_sub" then ComplexEffect(f, f.complexSub, f.bn254Prime, 4, m, p)
    else if name == "bn_fp2_mul" then ComplexEffect(f, f.complexMul, f.bn254Prime, 4, m, p)
    else if name == "bls_arith384" then ArithModEffect(f, 6, m, p)
    else if name == "bls_g1_add" then CurveAddEffect(f, f.bls12Prime, 6, m, p)
    else if name == "bls_g1_dbl" then CurveDoubleEffect(f, f.bls12Prime, 6, m, p)
    else if name == "bls_fp2_add" then ComplexEffect(f, f.complexAdd, f.bls12Prime, 6, m, p)
    else if name == "bls_fp2_sub" then ComplexEffect(f, f.complexSub, f.bls12Prime, 6, m, p)
    else if name == "bls_fp2_mul" then ComplexEffect(f, f.complexMul, f.bls12Prime, 6, m, p)
    else if name == "blake2bround" then BlakeEffect(f, m, p)
    else None
  }

  // ----- memory -----

  lemma CellOfCell(p: Word, i: nat, j: nat)
    ensures Cell(Cell(p, i), j) == Cell(p, i + j)
  {
    SumMod(p + 8 * i, 8 * j, WORD_SIZE);
  }

  lemma NextCell(p: Word)
    ensures WAdd(p, 8) == Cell(p, 1) && Cell(p, 0) == p
  {
    WordArithmeticIsModular(p, 8);
  }

  /** Fewer than 2^61 cells in a row are different cells. */
  lemma CellsDiffer(p: Word, i: nat, j: nat)
    requires i < j < 0x2000_0000_0000_0000
    ensures Cell(p, i) != Cell(p, j)
  {
    if Cell(p, i) == Cell(p, j) {
      DifferenceMod(p + 8 * j, p + 8 * i, WORD_SIZE);
      SmallMod(8 * (j - i), WORD_SIZE);
      SmallMod(0, WORD_SIZE);
    }
  }

  predicate InRange(p: Word, n: nat, x: Word) {
    exists i :: 0 <= i < n && x == Cell(p, i)
  }

  predicate SameCell(m: Memory, m': Memory, x: Word) {
    (x in m' <==> x in m) && (x in m ==> m'[x] == m[x])
  }

  /** A block write changes its own cells and no others. */
  lemma {:induction false} WritesItsCells(m: Memory, p: Word, ws: seq<Word>)
    requires |ws| < 0x2000_0000_0000_0000
    ensures ReadWords(WriteWords(m, p, ws), p, |ws|) == Some(ws)
    ensures forall x :: !InRange(p, |ws|, x) ==> SameCell(m, WriteWords(m, p, ws), x)
    decreases |ws|
  {
    var m' := WriteWords(m, p, ws);
    if ws != [] {
      var q := Cell(p, 1);
      NextCell(p);
      WritesItsCells(m[p := ws[0]], q, ws[1..]);
      forall i | 0 < i < |ws| ensures Cell(p, i) in m' && m'[Cell(p, i)] == ws[i] {
        CellOfCell(p, 1, i - 1);
        assert Cell(q, i - 1) in m' && m'[Cell(q, i - 1)] == ws[1..][i - 1];
      }
      forall i | 0 <= i < |ws| - 1 ensures Cell(q, i) == Cell(p, i + 1) != p {
        CellOfCell(p, 1, i);
        CellsDiffer(p, 0, i + 1);
      }
      assert !InRange(q, |ws| - 1, p);
      assert m'[p] == ws[0] && p in m' by {
        assert SameCell(m[p := ws[0]], m', p);
      }
      forall x | !InRange(p, |ws|, x) ensures SameCell(m, m', x) {
        assert x != Cell(p, 0);
        assert !InRange(q, |ws| - 1, x);
        assert SameCell(m[p := ws[0]], m', x);
      }
    }
    assert ReadWords(m', p, |ws|).value == ws;
  }

  /** Part of a block. */
  lemma ReadPart(m: Memory, b: Word, ws: seq<Word>, i: nat, k: nat)
    requires ReadWords(m, b, |ws|) == Some(ws) && i + k <= |ws|
    ensures ReadWords(m, Cell(b, i), k) == Some(ws[i..i + k])
  {
    forall j | 0 <= j < k ensures Cell(Cell(b, i), j) in m && m[Cell(Cell(b, i), j)] == ws[i + j] {
      CellOfCell(b, i, j);
    }
    assert ReadWords(m, Cell(b, i), k).value == ws[i..i + k];
  }

  /** A block holding `ws`, after part of it was overwritten with `vs` from cell `i` on. */
  function Overwrite(ws: seq<Word>, i: nat, vs: seq<Word>): (r: seq<Word>)
    requires i + |vs| <= |ws|
    ensures |r| == |ws|
  {
    ws[..i] + vs + ws[i + |vs|..]
  }

  lemma WriteInBlock(m: Memory, b: Word, ws: seq<Word>, i: nat, vs: seq<Word>)
    requires ReadWords(m, b, |ws|) == Some(ws) && i + |vs| <= |ws| < 0x2000_0000_0000_0000
    ensures ReadWords(WriteWords(m, Cell(b, i), vs), b, |ws|) == Some(Overwrite(ws, i, vs))
    ensures forall x :: !InRange(b, |ws|, x) ==> SameCell(m, WriteWords(m, Cell(b, i), vs), x)
  {
    var q, m' := Cell(b, i), WriteWords(m, Cell(b, i), vs);
    WritesItsCells(m, q, vs);
    forall j | 0 <= j < |vs| ensures Cell(q, j) == Cell(b, i + j) {
      CellOfCell(b, i, j);
    }
    forall j | 0 <= j < |ws| ensures Cell(b, j) in m' && m'[Cell(b, j)] == Overwrite(ws, i, vs)[j] {
      if i <= j < i + |vs| {
        assert Cell(q, j - i) == Cell(b, j);
      } else {
        forall k | 0 <= k < |vs| ensures Cell(q, k) != Cell(b, j) {
          if j < i + k { CellsDiffer(b, j, i + k); } else { CellsDiffer(b, i + k, j); }
        }
        assert !InRange(q, |vs|, Cell(b, j));
        assert SameCell(m, m', Cell(b, j));
      }
    }
    assert ReadWords(m', b, |ws|).value == Overwrite(ws, i, vs);
    forall x | !InRange(b, |ws|, x) ensures SameCell(m, m', x) {
      assert !InRange(q, |vs|, x);
    }
  }
}
