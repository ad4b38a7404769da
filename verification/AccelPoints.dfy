/** What the accelerators compute where the library's arithmetic is the one of the emulator's
    extension: residues and points of a curve, as little-endian limbs. */
module AccelPoints {
  import opened Words
  import opened Modular
  import opened Primes
  import opened Points
  import opened BigEndian
  import opened Accel
  import opened AccelFfi
  import opened AccelRefinement

  // ----- numbers as limbs -----

  function LimbsToNat(ws: seq<Word>): nat {
    if ws == [] then 0 else ws[0] + WORD_SIZE * LimbsToNat(ws[1..])
  }

  function NatToLimbs(n: nat, x: nat): (r: seq<Word>)
    ensures |r| == n
  {
    if n == 0 then [] else [x % WORD_SIZE] + NatToLimbs(n - 1, x / WORD_SIZE)
  }

  function Limit(n: nat): nat {
    if n == 0 then 1 else WORD_SIZE * Limit(n - 1)
  }

  lemma {:induction false} LimbsRoundTrip(n: nat, x: nat)
    requires x < Limit(n)
    ensures LimbsToNat(NatToLimbs(n, x)) == x
  {
    if n > 0 {
      LimbsRoundTrip(n - 1, x / WORD_SIZE);
    }
  }

  // ----- the arithmetic -----

  function PointOf(limbs: nat, ws: seq<Word>): Point
    requires limbs <= |ws|
  {
    Affine(LimbsToNat(ws[..limbs]), LimbsToNat(ws[limbs..]))
  }

  function LimbsOf(limbs: nat, s: Point): seq<Word> {
    if s.Affine? && s.x >= 0 && s.y >= 0 then NatToLimbs(limbs, s.x) + NatToLimbs(limbs, s.y) else []
  }

  predicate IsReduced(p: nat, s: Point) {
    s.Affine? && 0 <= s.x < p && 0 <= s.y < p
  }

  predicate IsPair(p: nat, limbs: nat, ws: seq<Word>) {
    limbs <= |ws| && IsReduced(p, PointOf(limbs, ws))
  }

  /** The field alone is what the formulas take from the curve; all three have no linear term. */
  function FieldOf(p: nat): Params {
    Params(p, 0, 0, 0, Infinity)
  }

  function AddLimbs(p: nat, limbs: nat, s: seq<Word>, t: seq<Word>): seq<Word> {
    if p > 2 && limbs <= |s| && limbs <= |t| then
      var a, b := PointOf(limbs, s), PointOf(limbs, t);
      LimbsOf(limbs, ChordAdd(FieldOf(p), a.x, a.y, b.x, b.y))
    else s
  }

  function DoubleLimbs(p: nat, limbs: nat, s: seq<Word>): seq<Word> {
    if p > 2 && limbs <= |s| then
      var a := PointOf(limbs, s);
      LimbsOf(limbs, TangentDouble(FieldOf(p), a.x, a.y))
    else s
  }

  // Elements of the quadratic extension are pairs x + y u, where u² = -1.

  function PairSum(p: nat, a: Point, b: Point): (r: Point)
    requires p > 0 && a.Affine? && b.Affine?
    ensures IsReduced(p, r) && Cong(r.x, a.x + b.x, p) && Cong(r.y, a.y + b.y, p)
  {
    CongReduced(a.x + b.x, p);
    CongReduced(a.y + b.y, p);
    Affine((a.x + b.x) % p, (a.y + b.y) % p)
  }

  function ComplexAdd(p: nat, limbs: nat, s: seq<Word>, t: seq<Word>): seq<Word> {
    if p > 2 && limbs <= |s| && limbs <= |t|
    then LimbsOf(limbs, PairSum(p, PointOf(limbs, s), PointOf(limbs, t)))
    else s
  }

  function PairDifference(p: nat, a: Point, b: Point): (r: Point)
    requires p > 0 && a.Affine? && b.Affine?
    ensures IsReduced(p, r) && Cong(r.x, a.x - b.x, p) && Cong(r.y, a.y - b.y, p)
  {
    CongReduced(a.x - b.x, p);
    CongReduced(a.y - b.y, p);
    Affine((a.x - b.x) % p, (a.y - b.y) % p)
  }

  function ComplexSub(p: nat, limbs: nat, s: seq<Word>, t: seq<Word>): seq<Word> {
    if p > 2 && limbs <= |s| && limbs <= |t|
    then LimbsOf(limbs, PairDifference(p, PointOf(limbs, s), PointOf(limbs, t)))
    else s
  }

  function PairProduct(p: nat, a: Point, b: Point): (r: Point)
    requires p > 0 && a.Affine? && b.Affine?
    ensures IsReduced(p, r) && Cong(r.x, a.x * b.x - a.y * b.y, p) && Cong(r.y, a.x * b.y + a.y * b.x, p)
  {
    CongReduced(a.x * b.x - a.y * b.y, p);
    CongReduced(a.x * b.y + a.y * b.x, p);
    Affine((a.x * b.x - a.y * b.y) % p, (a.x * b.y + a.y * b.x) % p)
  }

  function ComplexMul(p: nat, limbs: nat, s: seq<Word>, t: seq<Word>): seq<Word> {
    if p > 2 && limbs <= |s| && limbs <= |t|
    then LimbsOf(limbs, PairProduct(p, PointOf(limbs, s), PointOf(limbs, t)))
    else s
  }

  function MulAddMod(a: nat, b: nat, c: nat, m: nat): nat {
    ProductNonnegative(a, b);
    if m > 0 then (a * b + c) % m else 0
  }

  /** The arithmetic of residues, points and pairs; the rest is as given. */
  function Native(rest: Arithmetic): Arithmetic {
    rest.(limbsToNat := LimbsToNat, natToLimbs := NatToLimbs, mulAddMod := MulAddMod,
          isPoint := IsPair, curveAdd := AddLimbs, curveDouble := DoubleLimbs,
          complexAdd := ComplexAdd, complexSub := ComplexSub, complexMul := ComplexMul)
  }

  /** Its results have the shape that the refinement asks for. */
  lemma NativeIsShaped(rest: Arithmetic)
    requires WellShaped(rest)
    ensures WellShaped(Native(rest))
  {
    var f := Native(rest);
    forall p: nat, n: nat, s: seq<Word>, t: seq<Word> | |s| == |t| == 2 * n ensures |f.curveAdd(p, n, s, t)| == 2 * n {
      assert f.curveAdd(p, n, s, t) == AddLimbs(p, n, s, t);
    }
    forall p: nat, n: nat, s: seq<Word> | |s| == 2 * n ensures |f.curveDouble(p, n, s)| == 2 * n {
      assert f.curveDouble(p, n, s) == DoubleLimbs(p, n, s);
    }
    forall p: nat, n: nat, s: seq<Word>, t: seq<Word> | |s| == |t| == 2 * n
      ensures |f.complexAdd(p, n, s, t)| == 2 * n && |f.complexSub(p, n, s, t)| == 2 * n
        && |f.complexMul(p, n, s, t)| == 2 * n
    {
      ComplexIsShaped(rest, p, n, s, t);
    }
  }

  lemma ComplexIsShaped(rest: Arithmetic, p: nat, n: nat, s: seq<Word>, t: seq<Word>)
    requires |s| == |t| == 2 * n
    ensures var f := Native(rest);
      |f.complexAdd(p, n, s, t)| == 2 * n && |f.complexSub(p, n, s, t)| == 2 * n && |f.complexMul(p, n, s, t)| == 2 * n
  {
    hide LimbsToNat;
  }

  // ----- what the calls compute -----

  lemma LimbsOfPoint(p: nat, limbs: nat, s: Point)
    requires IsReduced(p, s) && p <= Limit(limbs)
    ensures |LimbsOf(limbs, s)| == 2 * limbs && PointOf(limbs, LimbsOf(limbs, s)) == s
  {
    LimbsRoundTrip(limbs, s.x);
    LimbsRoundTrip(limbs, s.y);
    var xs, ys := NatToLimbs(limbs, s.x), NatToLimbs(limbs, s.y);
    assert (xs + ys)[..limbs] == xs && (xs + ys)[limbs..] == ys;
  }

  /** `*p1 := p1 + p2` traps unless both are pairs of residues with different abscissas; then the
      first point becomes their sum, on any curve of the field, and the second stays. */
  lemma CurveAddAdds(rest: Arithmetic, c: Params, limbs: nat, bytes: seq<byte>)
    requires c.p > 2 && c.p <= Limit(limbs) && |bytes| == 8 * (4 * limbs)
    ensures var ws, after := WordsOfLe(bytes), CurveAddBytes(Native(rest), c.p, limbs, [], bytes);
            var s, t := PointOf(limbs, ws[..2 * limbs]), PointOf(limbs, ws[2 * limbs..]);
            && (after.Some? <==> IsReduced(c.p, s) && IsReduced(c.p, t) && s.x != t.x)
            && (after.Some? ==>
                  && |after.value| == |bytes|
                  && PointOf(limbs, WordsOfLe(after.value)[..2 * limbs]) == PointAdd(c, s, t)
                  && WordsOfLe(after.value)[2 * limbs..] == ws[2 * limbs..])
  {
    var ws, after := WordsOfLe(bytes), CurveAddBytes(Native(rest), c.p, limbs, [], bytes);
    var s, t := ws[..2 * limbs], ws[2 * limbs..];
    var a, b := PointOf(limbs, s), PointOf(limbs, t);
    hide WordsOfLe, LeOfWords, LimbsToNat;
    if after.Some? {
      var r := ChordAdd(FieldOf(c.p), a.x, a.y, b.x, b.y);
      ChordReadsField(c, a.x, a.y, b.x, b.y);
      LimbsOfPoint(c.p, limbs, r);
      WordsRoundTrip(LimbsOf(limbs, r) + t);
      assert (LimbsOf(limbs, r) + t)[..2 * limbs] == LimbsOf(limbs, r);
      assert (LimbsOf(limbs, r) + t)[2 * limbs..] == t;
    }
  }

  lemma ChordReadsField(c: Params, x1: int, y1: int, x2: int, y2: int)
    requires c.p > 2
    ensures ChordAdd(FieldOf(c.p), x1, y1, x2, y2) == ChordAdd(c, x1, y1, x2, y2)
    ensures IsReduced(c.p, ChordAdd(c, x1, y1, x2, y2))
  {}

  lemma CurveDoubleIs(rest: Arithmetic, c: Params, limbs: nat, bytes: seq<byte>)
    requires c.p > 2 && c.a == 0 && |bytes| == 8 * (2 * limbs)
    ensures var s := PointOf(limbs, WordsOfLe(bytes));
            CurveDoubleBytes(Native(rest), c.p, limbs, [], bytes) ==
              if IsReduced(c.p, s) && s.y != 0
              then Some(LeOfWords(LimbsOf(limbs, TangentDouble(c, s.x, s.y))))
              else None
  {
    hide WordsOfLe, LeOfWords, LimbsToNat, LimbsOf, TangentDouble;
    var ws := WordsOfLe(bytes);
    var s := PointOf(limbs, ws);
    TangentReadsField(c, s.x, s.y);
  }

  /** A point is doubled in place; the call traps unless it is a pair of residues, the second of
      them not zero. */
  lemma CurveDoubleDoubles(rest: Arithmetic, c: Params, limbs: nat, bytes: seq<byte>)
    requires IsOddPrime(c.p) && c.a == 0 && c.p <= Limit(limbs) && |bytes| == 8 * (2 * limbs)
    ensures var s, after := PointOf(limbs, WordsOfLe(bytes)), CurveDoubleBytes(Native(rest), c.p, limbs, [], bytes);
            && (after.Some? <==> IsReduced(c.p, s) && s.y != 0)
            && (after.Some? ==>
                  && |after.value| == |bytes|
                  && PointOf(limbs, WordsOfLe(after.value)) == PointAdd(c, s, s))
  {
    var s := PointOf(limbs, WordsOfLe(bytes));
    CurveDoubleIs(rest, c, limbs, bytes);
    assert c.p > 2;
    hide WordsOfLe, LeOfWords, LimbsOf, LimbsToNat, TangentDouble, IsOddPrime, CurveDoubleBytes, Native, PointAdd;
    if IsReduced(c.p, s) && s.y != 0 {
      TwiceIsTangent(c, s);
      TangentReadsField(c, s.x, s.y);
      var r := TangentDouble(c, s.x, s.y);
      LimbsOfPoint(c.p, limbs, r);
      WordsRoundTrip(LimbsOf(limbs, r));
    }
  }

  lemma TangentReadsField(c: Params, x1: int, y1: int)
    requires c.p > 2 && c.a == 0
    ensures TangentDouble(FieldOf(c.p), x1, y1) == TangentDouble(c, x1, y1)
    ensures IsReduced(c.p, TangentDouble(c, x1, y1))
  {
    assert TangentSlope(FieldOf(c.p), x1, y1) == TangentSlope(c, x1, y1);
    hide TangentSlope;
  }

  lemma TwiceIsTangent(c: Params, s: Point)
    requires IsOddPrime(c.p) && IsReduced(c.p, s) && s.y != 0
    ensures PointAdd(c, s, s) == TangentDouble(c, s.x, s.y)
  {
    TwiceIsFinite(s.y, c.p);
  }

  lemma TwiceIsFinite(y: int, p: nat)
    requires IsOddPrime(p) && 0 < y < p
    ensures (y + y) % p != 0
  {
    if (y + y) % p == 0 {
      SmallMod(2, p);
      SmallMod(y, p);
      NonzeroProduct(2, y, p);
    }
  }

  /** Operand `i` of a call whose array is five blocks. */
  function Operand(limbs: nat, ws: seq<Word>, i: nat): nat
    requires |ws| == 5 * limbs && i < 5
  {
    LimbsToNat(ws[i * limbs..][..limbs])
  }

  lemma ArithModIs(rest: Arithmetic, limbs: nat, bytes: seq<byte>)
    requires |bytes| == 8 * (5 * limbs)
    ensures var ws := WordsOfLe(bytes);
            var a, b := Operand(limbs, ws, 0), Operand(limbs, ws, 1);
            var d, m := Operand(limbs, ws, 2), Operand(limbs, ws, 3);
            ArithModBytes(Native(rest), limbs, [], bytes) ==
              if m == 0 then None else Some(LeOfWords(ws[..4 * limbs] + NatToLimbs(limbs, MulAddMod(a, b, d, m))))
  {
    hide WordsOfLe, LeOfWords, LimbsToNat, NatToLimbs, MulAddMod;
    assert WordsOfLe(bytes)[0..] == WordsOfLe(bytes);
  }

  lemma MulAddModIs(limbs: nat, a: nat, b: nat, d: nat, m: nat)
    requires 0 < m < Limit(limbs)
    ensures var r := LimbsToNat(NatToLimbs(limbs, MulAddMod(a, b, d, m))); r < m && Cong(r, a * b + d, m)
  {
    ProductNonnegative(a, b);
    CongReduced(a * b + d, m);
    LimbsRoundTrip(limbs, (a * b + d) % m);
  }

  /** `*d := (a b + c) mod m` traps on a zero modulus alone, and leaves the four operands. */
  lemma ArithModComputes(rest: Arithmetic, limbs: nat, bytes: seq<byte>)
    requires |bytes| == 8 * (5 * limbs)
    ensures var ws, after := WordsOfLe(bytes), ArithModBytes(Native(rest), limbs, [], bytes);
            var a, b := Operand(limbs, ws, 0), Operand(limbs, ws, 1);
            var d, m := Operand(limbs, ws, 2), Operand(limbs, ws, 3);
            && (after.Some? <==> m > 0)
            && (after.Some? ==>
                  && |after.value| == |bytes|
                  && WordsOfLe(after.value)[..4 * limbs] == ws[..4 * limbs]
                  && var r := Operand(limbs, WordsOfLe(after.value), 4); r < m && Cong(r, a * b + d, m))
  {
    hide WordsOfLe, LeOfWords, LimbsToNat, NatToLimbs, MulAddMod, ArithModBytes, Native, Cong;
    var ws := WordsOfLe(bytes);
    var a, b, d, m := Operand(limbs, ws, 0), Operand(limbs, ws, 1), Operand(limbs, ws, 2), Operand(limbs, ws, 3);
    ArithModIs(rest, limbs, bytes);
    LimbsBelow(ws[3 * limbs..][..limbs]);
    if m > 0 {
      MulAddModIs(limbs, a, b, d, m);
      var last := NatToLimbs(limbs, MulAddMod(a, b, d, m));
      var words := ws[..4 * limbs] + last;
      WordsRoundTrip(words);
      assert words[..4 * limbs] == ws[..4 * limbs] && words[4 * limbs..][..limbs] == last;
    }
  }

  lemma {:induction false} LimbsBelow(ws: seq<Word>)
    ensures LimbsToNat(ws) < Limit(|ws|)
  {
    if ws != [] {
      LimbsBelow(ws[1..]);
    }
  }

  /** What a call on two pairs does: it traps unless both are reduced, and leaves the second. */
  ghost predicate ReplacesFirst(p: nat, limbs: nat, bytes: seq<byte>, after: Option<seq<byte>>, r: Point)
    requires |bytes| == 8 * (4 * limbs)
  {
    var ws := WordsOfLe(bytes);
    && (after.Some? <==> IsReduced(p, PointOf(limbs, ws[..2 * limbs])) && IsReduced(p, PointOf(limbs, ws[2 * limbs..])))
    && (after.Some? ==>
          && |after.value| == |bytes|
          && PointOf(limbs, WordsOfLe(after.value)[..2 * limbs]) == r
          && WordsOfLe(after.value)[2 * limbs..] == ws[2 * limbs..])
  }

  lemma ComplexIs(rest: Arithmetic, op: FieldOp, p: nat, limbs: nat, bytes: seq<byte>, r: Point)
    requires |bytes| == 8 * (4 * limbs) && IsReduced(p, r) && p <= Limit(limbs)
    requires var ws := WordsOfLe(bytes); op(p, limbs, ws[..2 * limbs], ws[2 * limbs..]) == LimbsOf(limbs, r)
    ensures ReplacesFirst(p, limbs, bytes, ComplexBytes(Native(rest), op, p, limbs, [], bytes), r)
  {
    var ws := WordsOfLe(bytes);
    hide WordsOfLe, LeOfWords, LimbsToNat, LimbsOf;
    LimbsOfPoint(p, limbs, r);
    var words := LimbsOf(limbs, r) + ws[2 * limbs..];
    WordsRoundTrip(words);
    assert words[..2 * limbs] == LimbsOf(limbs, r) && words[2 * limbs..] == ws[2 * limbs..];
  }

  lemma ComplexAdds(rest: Arithmetic, p: nat, limbs: nat, bytes: seq<byte>)
    requires 2 < p <= Limit(limbs) && |bytes| == 8 * (4 * limbs)
    ensures var f, ws := Native(rest), WordsOfLe(bytes);
            ReplacesFirst(p, limbs, bytes, ComplexBytes(f, f.complexAdd, p, limbs, [], bytes),
                          PairSum(p, PointOf(limbs, ws[..2 * limbs]), PointOf(limbs, ws[2 * limbs..])))
  {
    hide WordsOfLe, LeOfWords, LimbsToNat, LimbsOf, ReplacesFirst, ComplexBytes, Limit, PairSum, Cong;
    var f, ws := Native(rest), WordsOfLe(bytes);
    var a, b := PointOf(limbs, ws[..2 * limbs]), PointOf(limbs, ws[2 * limbs..]);
    ComplexIs(rest, f.complexAdd, p, limbs, bytes, PairSum(p, a, b));
  }

  lemma ComplexSubtracts(rest: Arithmetic, p: nat, limbs: nat, bytes: seq<byte>)
    requires 2 < p <= Limit(limbs) && |bytes| == 8 * (4 * limbs)
    ensures var f, ws := Native(rest), WordsOfLe(bytes);
            ReplacesFirst(p, limbs, bytes, ComplexBytes(f, f.complexSub, p, limbs, [], bytes),
                          PairDifference(p, PointOf(limbs, ws[..2 * limbs]), PointOf(limbs, ws[2 * limbs..])))
  {
    hide WordsOfLe, LeOfWords, LimbsToNat, LimbsOf, ReplacesFirst, ComplexBytes, Limit, PairDifference, Cong;
    var f, ws := Native(rest), WordsOfLe(bytes);
    var a, b := PointOf(limbs, ws[..2 * limbs]), PointOf(limbs, ws[2 * limbs..]);
    ComplexIs(rest, f.complexSub, p, limbs, bytes, PairDifference(p, a, b));
  }

  lemma ComplexMultiplies(rest: Arithmetic, p: nat, limbs: nat, bytes: seq<byte>)
    requires 2 < p <= Limit(limbs) && |bytes| == 8 * (4 * limbs)
    ensures var f, ws := Native(rest), WordsOfLe(bytes);
            ReplacesFirst(p, limbs, bytes, ComplexBytes(f, f.complexMul, p, limbs, [], bytes),
                          PairProduct(p, PointOf(limbs, ws[..2 * limbs]), PointOf(limbs, ws[2 * limbs..])))
  {
    hide WordsOfLe, LeOfWords, LimbsToNat, LimbsOf, ReplacesFirst, ComplexBytes, Limit, PairProduct, Cong;
    var f, ws := Native(rest), WordsOfLe(bytes);
    var a, b := PointOf(limbs, ws[..2 * limbs]), PointOf(limbs, ws[2 * limbs..]);
    ComplexIs(rest, f.complexMul, p, limbs, bytes, PairProduct(p, a, b));
  }

  /** A BLAKE2b round traps on a row that is none of the ten, and replaces the state alone. */
  lemma BlakeComputes(f: Arithmetic, bytes: seq<byte>)
    requires WellShaped(f) && |bytes| == 8 * 33
    ensures var ws, after := WordsOfLe(bytes), BlakeBytes(f, [], bytes);
            && (after.Some? <==> ws[0] < 10)
            && (after.Some? ==>
                  WordsOfLe(after.value) == [ws[0]] + f.blakeRound(ws[0], ws[1..17], ws[17..]) + ws[17..])
  {
    var ws := WordsOfLe(bytes);
    hide WordsOfLe, LeOfWords;
    assert ws[1..][..16] == ws[1..17] && ws[1..][16..] == ws[17..];
    if ws[0] < 10 {
      WordsRoundTrip([ws[0]] + f.blakeRound(ws[0], ws[1..17], ws[17..]) + ws[17..]);
    }
  }
}
