/** ECDSA on secp256k1, with public-key recovery, and on P-256. */
module Ecdsa {
  import opened Words
  import opened Modular
  import opened Primes
  import opened Algebra
  import opened Points
  import opened Curve

  datatype Signature = Signature(r: nat, s: nat)

  // ----- signing -----

  /** The signature that the nonce `k` gives when its point is `nonce`. */
  function SignWith(c: Params, d: int, e: int, k: int, nonce: Point): Option<Signature>
    requires c.n > 2
  {
    if nonce.Infinity? then None
    else
      var r := nonce.x % c.n;
      var s := PowMod(k, c.n - 2, c.n) * (e + r * d) % c.n;
      if r == 0 || s == 0 then None else Some(Signature(r, s))
  }

  /** The low bit tells the nonce point's ordinate, the next one whether its abscissa is
      beyond the order. */
  function RecoveryId(c: Params, nonce: Point): nat
    requires nonce.Affine?
  {
    nonce.y % 2 + if nonce.x >= c.n then 2 else 0
  }

  // ----- recovery -----

  datatype RecoveryError = ROutOfRange | SOutOfRange | XOutOfRange | XNotSquare | AtInfinity
  datatype Recovered = Key(point: Point) | Failed(error: RecoveryError)

  function SqrtCandidate(c: Params, a: int): nat
    requires c.p > 2
  {
    PowMod(a, (c.p + 1) / 4, c.p)
  }

  function RightHandSide(c: Params, x: int): nat
    requires c.p > 2
  {
    (x * x % c.p * x + c.b) % c.p
  }

  function DecompressR(c: Params, r: nat, recid: nat): Recovered
    requires c.p > 2
  {
    var x := r + if recid / 2 % 2 == 1 then c.n else 0;
    if x >= c.p then Failed(XOutOfRange)
    else
      var rhs := RightHandSide(c, x);
      var y0 := SqrtCandidate(c, rhs);
      if y0 * y0 % c.p != rhs then Failed(XNotSquare)
      else Key(Affine(x, if y0 % 2 == recid % 2 then y0 else (c.p - y0) % c.p))
  }

  /** secp256k1 has no linear term, a root of a square is its (p + 1)/4-th power, and the
      order is below 2^256. */
  ghost predicate IsRecoverable(c: Params) {
    IsCurve(c) && c.a == 0 && c.p % 4 == 3 && forall u: nat :: ReadInFullAt(c, u)
  }

  /** A reduced scalar fits the bits that the multiplication reads. */
  ghost predicate ReadInFullAt(c: Params, u: nat) {
    u < c.n ==> u < Exp2(256)
  }

  function RecoveryScalars(c: Params, e: int, r: nat, s: nat): (nat, nat)
    requires c.n > 2
  {
    var rinv := PowMod(r, c.n - 2, c.n);
    ((c.n - e % c.n) % c.n * rinv % c.n, s % c.n * rinv % c.n)
  }

  function CombineScalars(c: Params, u: (nat, nat), q: Point): Point
    requires c.p > 2
  {
    PointAdd(c, Times(c, u.0, c.g), Times(c, u.1, q))
  }

  /** What `recover` computes, in terms of repeated addition. */
  function RecoverSpec(c: Params, e: int, r: nat, s: nat, recid: nat): Recovered
    requires c.p > 2 && c.n > 2
  {
    if r == 0 || r >= c.n then Failed(ROutOfRange)
    else if s == 0 || s >= c.n then Failed(SOutOfRange)
    else
      var nonce := DecompressR(c, r, recid);
      if nonce.Failed? then nonce
      else
        var q := CombineScalars(c, RecoveryScalars(c, e, r, s), nonce.point);
        if q.Infinity? then Failed(AtInfinity) else Key(q)
  }

  lemma DecompressedIsOnCurve(c: Params, r: nat, recid: nat)
    requires IsRecoverable(c) && DecompressR(c, r, recid).Key?
    ensures OnCurve(c, DecompressR(c, r, recid).point)
  {
    var x := r + if recid / 2 % 2 == 1 then c.n else 0;
    var y0 := SqrtCandidate(c, RightHandSide(c, x));
    CubicReduced(c, x);
    NegatedResidue(y0, c.p);
    RightHandSideReduced(c, x);
    hide RightHandSide, Cubic, SqrtCandidate, IsOddPrime;
  }

  /** The right-hand side with its inner reduction. */
  lemma CubicReduced(c: Params, x: int)
    requires c.p > 2 && c.a == 0
    ensures Cong(RightHandSide(c, x), Cubic(c, x), c.p)
  {
    CongReduced(x * x % c.p * x + c.b, c.p);
    LeftFactorMod(x * x, x, c.p);
    CongAdd(x * x % c.p * x, x * x * x, c.b, c.b, c.p);
  }

  lemma RightHandSideReduced(c: Params, x: int)
    requires c.p > 2
    ensures RightHandSide(c, x) < c.p && RightHandSide(c, x) % c.p == RightHandSide(c, x)
  {
    SmallMod(RightHandSide(c, x), c.p);
  }

  method Recover(c: Params, e: int, r: nat, s: nat, recid: nat) returns (key: Recovered)
    requires IsRecoverable(c)
    ensures key == RecoverSpec(c, e, r, s, recid)
  {
    if r == 0 || r >= c.n {
      return Failed(ROutOfRange);
    }
    if s == 0 || s >= c.n {
      return Failed(SOutOfRange);
    }
    var nonce := DecompressR(c, r, recid);
    if nonce.Failed? {
      return nonce;
    }
    DecompressedIsOnCurve(c, r, recid);
    var u := RecoveryScalars(c, e, r, s);
    assert ReadInFullAt(c, u.0) && ReadInFullAt(c, u.1);
    SmallMod(u.0, Exp2(256));
    SmallMod(u.1, Exp2(256));
    var left := ScalarMul256(c, u.0, c.g);
    var right := ScalarMul256(c, u.1, nonce.point);
    var q := PointAdd(c, left, right);
    key := if q.Infinity? then Failed(AtInfinity) else Key(q);
  }

  /** `sign` of secp256k1, with the recovery id. */
  method SignRecoverable(c: Params, d: int, e: int, k: int) returns (r: Option<(Signature, nat)>)
    requires IsCurve(c)
    ensures var nonce := Times(c, k % Exp2(256), c.g); var sig := SignWith(c, d, e, k, nonce);
      r == if sig.None? then None else Some((sig.value, RecoveryId(c, nonce)))
  {
    var nonce := ScalarMul256(c, k, c.g);
    var sig := SignWith(c, d, e, k, nonce);
    if sig.None? {
      return None;
    }
    r := Some((sig.value, RecoveryId(c, nonce)));
  }

  // ----- decompression rebuilds the nonce point -----

  /** The square of the candidate is the number itself, for a number that is a square. */
  lemma CandidateOfSquare(p: nat, y: int)
    requires IsOddPrime(p) && p % 4 == 3
    ensures var z := PowMod(y * y, (p + 1) / 4, p); Cong(z * z, y * y, p)
  {
    hide IsOddPrime, Cong;
    var m := (p + 1) / 4;
    var z := PowMod(y * y, m, p);
    // z z = (y²)^(2m) = y^(4m) = y^(p + 1) = y² y^(p - 1)
    FourthOfSuccessor(p, m);
    RootSteps(p, y, m);
    FermatSquare(p, y);
    CongChain(z * z, PowMod(y, 2, p) * PowMod(y, p - 1, p), y * y, p);
  }

  lemma FourthOfSuccessor(p: nat, m: nat)
    requires p % 4 == 3 && m == (p + 1) / 4
    ensures 2 * (m + m) == 2 + (p - 1)
  {}

  lemma CongChain(x: int, y: int, z: int, n: nat)
    requires n > 0 && Cong(x, y, n) && Cong(y, z, n)
    ensures Cong(x, z, n)
  {}

  lemma RootSteps(p: nat, y: int, m: nat)
    requires p > 0 && 2 * (m + m) == 2 + (p - 1)
    ensures var z := PowMod(y * y, m, p); Cong(z * z, PowMod(y, 2, p) * PowMod(y, p - 1, p), p)
  {
    hide PowMod;
    var w := PowMod(y, 2, p);
    PowModOne(y, p);
    PowModCong(y * y, w, m + m, p);
    PowModSum(y * y, m, m, p);
    PowModProduct(y, 2, m + m, p);
    PowModSum(y, 2, p - 1, p);
  }

  lemma FermatSquare(p: nat, y: int)
    requires IsOddPrime(p)
    ensures Cong(PowMod(y, 2, p) * PowMod(y, p - 1, p), y * y, p)
  {
    PowModOne(y, p);
    CongReduced(y, p);
    if y % p == 0 {
      CongMul(y, 0, y, y, p);
      CongMul(PowMod(y, 2, p), 0, PowMod(y, p - 1, p), PowMod(y, p - 1, p), p);
      assert 0 * y == 0 && 0 * PowMod(y, p - 1, p) == 0;
    } else {
      Fermat(p, y % p);
      PowModCong(y, y % p, p - 1, p);
      assert PowMod(y, 2, p) * 1 == PowMod(y, 2, p);
    }
  }

  /** Whatever curve point signing came from, its abscissa modulo the order and its recovery
      id give it back. */
  lemma DecompressRebuilds(c: Params, nonce: Point)
    requires IsRecoverable(c) && OnCurve(c, nonce) && nonce.Affine?
    ensures DecompressR(c, nonce.x % c.n, RecoveryId(c, nonce)) == Key(nonce)
  {
    var x, y, recid := nonce.x, nonce.y, RecoveryId(c, nonce);
    RootIsChosen(c, x, y);
    AbscissaRebuilt(x, c.n, recid, y);
    var r := x % c.n;
    hide *;
    DecompressSteps(c, r, recid, x, y);
  }

  /** Of the two roots for the abscissa `x`, the one with the parity of `y` is `y`. */
  ghost predicate Chooses(c: Params, x: int, y: int)
    requires c.p > 2
  {
    var rhs := RightHandSide(c, x);
    var y0 := SqrtCandidate(c, rhs);
    y0 * y0 % c.p == rhs && (if y0 % 2 == y % 2 then y0 else (c.p - y0) % c.p) == y
  }

  lemma RootIsChosen(c: Params, x: int, y: int)
    requires IsRecoverable(c) && OnCurve(c, Affine(x, y))
    ensures Chooses(c, x, y)
  {
    var rhs := RightHandSide(c, x);
    CubicReduced(c, x);
    RightHandSideReduced(c, x);
    CandidateIsRoot(c.p, y, rhs, SqrtCandidate(c, rhs));
    OrdinateChosen(c.p, SqrtCandidate(c, rhs), y);
  }

  lemma DecompressSteps(c: Params, r: nat, recid: nat, x: int, y: int)
    requires c.p > 2 && x < c.p && Chooses(c, x, y)
    requires r + (if recid / 2 % 2 == 1 then c.n else 0) == x && recid % 2 == y % 2
    ensures DecompressR(c, r, recid) == Key(Affine(x, y))
  {
    hide RightHandSide, SqrtCandidate;
  }

  lemma CandidateIsRoot(p: nat, y: int, rhs: nat, y0: nat)
    requires IsOddPrime(p) && p % 4 == 3 && 0 <= y < p && Cong(rhs, y * y, p) && rhs < p
    requires y0 == PowMod(rhs, (p + 1) / 4, p)
    ensures y0 * y0 % p == rhs && (y0 == y || y0 + y == p)
  {
    CandidateOfSquare(p, y);
    PowModCong(y * y, rhs, (p + 1) / 4, p);
    SmallMod(rhs, p);
    SameSquares(y0, y, p);
  }

  lemma AbscissaRebuilt(x: int, n: nat, recid: nat, y: int)
    requires n > 0 && 0 <= x < 2 * n && recid == y % 2 + if x >= n then 2 else 0
    ensures x % n + (if recid / 2 % 2 == 1 then n else 0) == x && recid % 2 == y % 2
  {
    if x >= n {
      QuotientIsUnique(x, 1, x - n, n);
    } else {
      SmallMod(x, n);
    }
  }

  lemma OrdinateChosen(p: nat, y0: nat, y: int)
    requires p % 2 == 1 && y0 < p && 0 <= y < p && (y0 == y || y0 + y == p)
    ensures (if y0 % 2 == y % 2 then y0 else (p - y0) % p) == y
  {
    if y0 != y {
      SmallMod(y, p);
    }
  }

  // ----- scalars -----

  lemma CancelUnit(unit: int, x: int, n: nat)
    requires n > 0 && Cong(unit, 1, n)
    ensures Cong(unit * x, x, n)
  {
    CongMul(unit, 1, x, x, n);
  }

  /** s = k^-1 (e + r d) turned around: e + r d = k s. */
  lemma SignedSum(n: nat, k: int, ki: int, sum: int, s: int)
    requires n > 0 && Cong(k * ki, 1, n) && Cong(s, ki * sum, n)
    ensures Cong(sum, k * s, n)
  {
    CongMul(k, k, s, ki * sum, n);
    assert k * (ki * sum) == (k * ki) * sum;
    CancelUnit(k * ki, sum, n);
  }

  lemma NegatedHash(e: int, ri: int, n: nat)
    requires n > 0
    ensures Cong((n - e % n) % n * ri % n, -(e * ri), n)
  {
    CongReduced(n - e % n, n);
    AddMultiple(-(e % n), 1, n);
    DifferenceMod(0, e, n);
    SmallMod(0, n);
    assert Cong((n - e % n) % n, -e, n);
    CongReduced((n - e % n) % n * ri, n);
    CongMul((n - e % n) % n, -e, ri, ri, n);
    assert (-e) * ri == -(e * ri);
  }

  lemma SecondScalar(n: nat, ki: int, ri: int, sum: int, s: int, seen: int, k: int)
    requires n > 0 && Cong(k * ki, 1, n) && Cong(s, ki * sum, n) && Cong(seen, k, n)
    ensures Cong((s % n * ri % n) * seen, sum * ri, n)
  {
    SignedSum(n, k, ki, sum, s);
    CongReduced(s % n * ri, n);
    LeftFactorMod(s, ri, n);
    CongMul(s % n * ri % n, s * ri, seen, k, n);
    CongMul(sum, k * s, ri, ri, n);
    assert (s * ri) * k == (k * s) * ri;
  }

  /** The two recovery scalars, the second times the nonce, add up to the secret key. */
  lemma ScalarsMakeKey(n: nat, e: int, d: int, r: int, ri: int, u0: int, u1: int, seen: int)
    requires n > 0 && Cong(r * ri, 1, n) && Cong(u0, -(e * ri), n)
    requires Cong(u1 * seen, (e + r * d) * ri, n)
    ensures Cong(u0 + u1 * seen, d, n)
  {
    CongAdd(u0, -(e * ri), u1 * seen, (e + r * d) * ri, n);
    ExpandSum(e, r, d, ri);
    CancelUnit(r * ri, d, n);
  }

  lemma ExpandSum(e: int, r: int, d: int, ri: int)
    ensures -(e * ri) + (e + r * d) * ri == (r * ri) * d
  {}

  /** A linear combination of the generator and one of its multiples is one multiple. */
  lemma CombinedMultiple(c: Params, u: (nat, nat), k: nat, d: nat)
    requires IsCurve(c) && Cong(u.0 + u.1 * k, d, c.n)
    ensures CombineScalars(c, u, Times(c, k, c.g)) == Times(c, d, c.g)
  {
    hide PointAdd, OnCurve, Times, IsOddPrime;
    ProductNonnegative(u.1, k);
    assert k * u.1 == u.1 * k;
    TimesProduct(c, k, u.1, c.g);
    TimesSum(c, u.0, u.1 * k, c.g);
    TimesCong(c, u.0 + u.1 * k, d, c.g);
  }

  lemma ZeroNonceIsInfinite(c: Params, k: nat)
    requires IsCurve(c) && k % c.n == 0
    ensures Times(c, k, c.g) == Infinity
  {
    TimesMod(c, k, c.g);
  }

  // ----- recovery inverts signing -----

  /** The scalar multiplication sees only 256 bits of a nonce; a nonce fits when they are
      congruent to it modulo the order. */
  predicate NonceFits(c: Params, k: int)
    requires c.n > 0
  {
    Cong(k % Exp2(256), k, c.n)
  }

  lemma SmallNoncesFit(c: Params, k: nat)
    requires c.n > 0 && k < Exp2(256)
    ensures NonceFits(c, k)
  {
    SmallMod(k, Exp2(256));
  }

  /** The recovered scalar is the key's if and only if the nonce point's stands for the
      nonce. */
  lemma RecoveredScalars(c: Params, d: int, e: int, k: int, seen: nat, sig: Signature)
    requires IsOddPrime(c.n) && k % c.n != 0 && sig.s != 0
    requires 0 < sig.r < c.n && sig.s == PowMod(k, c.n - 2, c.n) * (e + sig.r * d) % c.n
    ensures var u := RecoveryScalars(c, e, sig.r, sig.s); Cong(u.0 + u.1 * seen, d, c.n) <==> Cong(seen, k, c.n)
  {
    var n, r, s := c.n, sig.r, sig.s;
    var ki, ri, sum := PowMod(k, n - 2, n), PowMod(r, n - 2, n), e + r * d;
    InverseMod(k, n);
    SmallMod(r, n);
    InverseMod(r, n);
    CongReduced(ki * sum, n);
    SmallMod(s, n);
    RecoveryScalarsAre(c, e, r, s, ri);
    hide PowMod, RecoveryScalars, IsOddPrime;
    NegatedHash(e, ri, n);
    var u0, u1 := (n - e % n) % n * ri % n, s % n * ri % n;
    if Cong(seen, k, n) {
      SecondScalar(n, ki, ri, sum, s, seen, k);
      ScalarsMakeKey(n, e, d, r, ri, u0, u1, seen);
    }
    if Cong(u0 + u1 * seen, d, n) {
      SignedSum(n, k, ki, sum, s);
      SecondScalarTimesR(n, r, ri, s, u1, seen) by {
        CongReduced(s % n * ri, n);
        LeftFactorMod(s, ri, n);
      }
      KeyMakesScalars(n, e, d, r, ri, u0, u1, seen);
      NonceIsSeen(n, s, seen, k, sum);
    }
  }

  /** r u1 k = s k. */
  lemma SecondScalarTimesR(n: nat, r: int, ri: int, s: int, u1: int, seen: int)
    requires n > 0 && Cong(r * ri, 1, n) && Cong(u1, s * ri, n)
    ensures Cong(r * (u1 * seen), s * seen, n)
  {
    CongMul(u1, s * ri, seen, seen, n);
    CongMul(r, r, u1 * seen, (s * ri) * seen, n);
    assert r * ((s * ri) * seen) == (r * ri) * (s * seen);
    CancelUnit(r * ri, s * seen, n);
  }

  /** If the two scalars add up to the key, then s times the nonce seen is e + r d. */
  lemma KeyMakesScalars(n: nat, e: int, d: int, r: int, ri: int, u0: int, u1: int, seen: int)
    requires n > 0 && Cong(r * ri, 1, n) && Cong(u0, -(e * ri), n) && Cong(u0 + u1 * seen, d, n)
    ensures Cong(r * (u1 * seen), e + r * d, n)
  {
    CongAdd(u0 + u1 * seen, d, u0, -(e * ri), n);
    CongMul(r, r, u1 * seen, d + e * ri, n);
    assert r * (d + e * ri) == r * d + (r * ri) * e;
    CancelUnit(r * ri, e, n);
    CongAdd(r * d, r * d, (r * ri) * e, e, n);
  }

  lemma NonceIsSeen(n: nat, s: int, seen: int, k: int, sum: int)
    requires IsOddPrime(n) && s % n != 0 && Cong(s * seen, sum, n) && Cong(sum, k * s, n)
    ensures Cong(seen, k, n)
  {
    CongAdd(s * seen, k * s, k * s, k * s, n);
    assert s * seen - k * s == s * (seen - k);
    SmallMod(0, n);
    NonzeroProduct(s, seen - k, n);
    DifferenceVanishes(k, seen, n);
  }

  lemma RecoveryScalarsAre(c: Params, e: int, r: nat, s: nat, ri: int)
    requires c.n > 2 && ri == PowMod(r, c.n - 2, c.n)
    ensures RecoveryScalars(c, e, r, s) == ((c.n - e % c.n) % c.n * ri % c.n, s % c.n * ri % c.n)
  {}

  /** What recovery makes of the signature `sig` on `e` with the nonce point `nonce`: the key
      `key`, unless that is at infinity. */
  predicate RecoversTo(c: Params, e: int, sig: Signature, nonce: Point, key: Point)
    requires c.p > 2 && c.n > 2 && nonce.Affine?
  {
    RecoverSpec(c, e, sig.r, sig.s, RecoveryId(c, nonce)) == if key.Infinity? then Failed(AtInfinity) else Key(key)
  }

  /** Recovery from the signature that the nonce `k` makes with `seen` times the generator
      is exactly `d` times the generator, if and only if `seen` stands for `k`. */
  lemma RecoverAsSeen(c: Params, d: int, e: int, k: int, seen: nat)
    requires IsRecoverable(c) && SignWith(c, d, e, k, Times(c, seen, c.g)).Some?
    ensures var nonce := Times(c, seen, c.g);
      RecoversTo(c, e, SignWith(c, d, e, k, nonce).value, nonce, Times(c, d % c.n, c.g)) <==> Cong(seen, k, c.n)
  {
    var nonce, key := Times(c, seen, c.g), d % c.n;
    var sig := SignWith(c, d, e, k, nonce).value;
    var u := RecoveryScalars(c, e, sig.r, sig.s);
    if k % c.n == 0 {
      ZeroNonceSignsNothing(c, d, e, k, nonce);
    }
    TimesOnCurve(c, seen, c.g);
    DecompressRebuilds(c, nonce);
    RecoveredScalars(c, d, e, k, seen, sig);
    CongReduced(d, c.n);
    hide Times, DecompressR, RecoveryScalars, CombineScalars, OnCurve, PowMod, IsOddPrime, PointAdd;
    ProductNonnegative(u.1, seen);
    CombinedMultiple(c, u, seen, u.0 + u.1 * seen);
    if RecoversTo(c, e, sig, nonce, Times(c, key, c.g)) {
      TimesInjective(c, u.0 + u.1 * seen, key);
    } else if Cong(seen, k, c.n) {
      TimesCong(c, u.0 + u.1 * seen, key, c.g);
    }
  }

  lemma ZeroNonceSignsNothing(c: Params, d: int, e: int, k: int, nonce: Point)
    requires IsOddPrime(c.n) && k % c.n == 0
    ensures SignWith(c, d, e, k, nonce) == None
  {
    NoInverse(k, c.n);
    hide PowMod, IsOddPrime;
    SmallMod(0, c.n);
  }

  lemma NoInverse(k: int, n: nat)
    requires n > 2 && k % n == 0
    ensures PowMod(k, n - 2, n) == 0
  {
    hide PowMod;
    SmallMod(0, n);
    PowModCong(k, 0, n - 2, n);
    ZeroPower(n);
  }

  lemma ZeroPower(n: nat)
    requires n > 2
    ensures PowMod(0, n - 2, n) == 0
  {
    SmallMod(0, n);
    assert PowMod(0, n - 2, n) == 0 * PowMod(0, n - 3, n) % n;
  }

  /** Whenever signing yields a signature, recovery from it is exactly `d` times the
      generator, if and only if the nonce fits; the nonce and the key may be negative, as
      scalars count modulo the order. */
  lemma RecoverInvertsSigning(c: Params, d: int, e: int, k: int)
    requires IsRecoverable(c)
    ensures var nonce := Times(c, k % Exp2(256), c.g); var sig := SignWith(c, d, e, k, nonce);
      sig.Some? ==> (RecoversTo(c, e, sig.value, nonce, Times(c, d % c.n, c.g)) <==> NonceFits(c, k))
    ensures d >= 0 ==> Times(c, d % c.n, c.g) == Times(c, d, c.g)
  {
    if d >= 0 {
      TimesMod(c, d, c.g);
    }
    var seen := k % Exp2(256);
    if SignWith(c, d, e, k, Times(c, seen, c.g)).Some? {
      hide Times, SignWith, RecoversTo, IsRecoverable;
      RecoverAsSeen(c, d, e, k, seen);
    }
  }

  lemma {:induction false} PowerOfTwoResidue(m: nat, i: nat)
    requires IsOddPrime(m)
    ensures Exp2(i) % m != 0
  {
    if i > 0 {
      PowerOfTwoResidue(m, i - 1);
      SmallMod(2, m);
      NonzeroProduct(2, Exp2(i - 1), m);
    } else {
      SmallMod(1, m);
    }
  }

  /** A nonce fits if and only if the order divides what is left of it above its low 256
      bits. */
  lemma NonceFitsIff(c: Params, k: int)
    requires IsOddPrime(c.n)
    ensures NonceFits(c, k) <==> k / Exp2(256) % c.n == 0
  {
    var m, n := Exp2(256), c.n;
    PowerOfTwoResidue(n, 256);
    NonzeroProduct(k / m, m, n);
    NonceFitsIs(c, k);
    hide *;
    LowPartCongruent(k, m, n);
  }

  lemma NonceFitsIs(c: Params, k: int)
    requires c.n > 0
    ensures NonceFits(c, k) <==> k % Exp2(256) % c.n == k % c.n
  {}

  lemma LowPartCongruent(k: int, m: nat, n: nat)
    requires m > 0 && n > 0
    ensures k % m % n == k % n <==> k / m * m % n == 0
  {
    var high, low := k / m * m, k % m;
    assert k == high + low;
    if high % n == 0 {
      SmallMod(0, n);
      CongAdd(high, 0, low, low, n);
    }
    if low % n == k % n {
      SmallMod(0, n);
      CongAdd(k, low, low, low, n);
    }
  }

  /** A nonce one bit too long never fits, and neither does a small negative one. */
  lemma WideNonceDoesNotFit(c: Params, j: nat)
    requires IsOddPrime(c.n) && j < Exp2(256)
    ensures !NonceFits(c, Exp2(256) + j) && !NonceFits(c, j - Exp2(256))
  {
    var e, n := Exp2(256), c.n;
    NonceFitsIff(c, e + j);
    NonceFitsIff(c, j - e);
    assert n > 2;
    hide *;
    QuotientIsUnique(e + j, 1, j, e);
    QuotientIsUnique(j - e, -1, j, e);
    SmallMod(1, n);
    QuotientIsUnique(-1, -1, n - 1, n);
  }

  /** The nonce 2^256 + 1 with the key 1: the signature is made with the generator itself as
      the nonce point, and recovery yields another key. */
  lemma WideNonceIsNotRecovered(c: Params)
    requires IsRecoverable(c) && c.g.x % c.n != 0 && (Exp2(256) + 1) % c.n != 0
    ensures var k, e := Exp2(256) + 1, c.n - c.g.x % c.n + 1;
      var nonce := Times(c, k % Exp2(256), c.g); var sig := SignWith(c, 1, e, k, nonce);
      nonce == c.g && sig.Some? && !RecoversTo(c, e, sig.value, nonce, Times(c, 1, c.g))
  {
    hide RecoversTo, PowMod, NonceFits, OnCurve, Exp2, PointAdd;
    var m, n := Exp2(256), c.n;
    var k, r := m + 1, c.g.x % n;
    Exp2Exceeds(256);
    WideNonceDoesNotFit(c, 1);
    QuotientIsUnique(k, 1, 1, m);
    TimesOnce(c, c.g);
    InverseMod(k, n);
    SignsUnit(c, k, r);
    RecoverInvertsSigning(c, 1, n - r + 1, k);
  }

  /** Key 1 and a hash that completes r to n + 1 leave s the inverse of the nonce. */
  lemma SignsUnit(c: Params, k: int, r: nat)
    requires IsOddPrime(c.n) && c.g.Affine? && r == c.g.x % c.n && r != 0
    requires Cong(k * PowMod(k, c.n - 2, c.n), 1, c.n)
    ensures SignWith(c, 1, c.n - r + 1, k, c.g).Some?
  {
    var n := c.n;
    var ki, sum := PowMod(k, n - 2, n), (n - r + 1) + r * 1;
    assert sum == n + 1;
    AddMultiple(1, 1, n);
    SmallMod(1, n);
    SmallMod(0, n);
    CongMul(ki, ki, sum, 1, n);
    SmallMod(ki, n);
    assert ki * 1 == ki && (ki == 0 ==> k * ki == 0);
  }

  // ----- P-256 -----

  method SignP256(c: Params, d: int, e: int, k: int) returns (sig: Option<Signature>)
    requires IsCurve(c)
    ensures sig == SignWith(c, d, e, k, Times(c, Positive(k), c.g))
  {
    var nonce := ScalarMul(c, k, c.g);
    sig := SignWith(c, d, e, k, nonce);
  }

  function VerifyScalars(c: Params, e: nat, r: int, s: int): (nat, nat)
    requires c.n > 2
  {
    var sinv := PowMod(s, c.n - 2, c.n);
    (e * sinv % c.n, r * sinv % c.n)
  }

  predicate IsPublicKey(c: Params, qx: nat, qy: nat)
    requires c.p > 2
  {
    && qx < c.p && qy < c.p
    && !(qx == 0 && qy == 0)
    && qy * qy % c.p == Cubic(c, qx) % c.p
  }

  predicate VerifySpec(c: Params, e: nat, r: int, s: int, qx: nat, qy: nat)
    requires c.p > 2 && c.n > 2
  {
    && 0 < r < c.n && 0 < s < c.n && IsPublicKey(c, qx, qy)
    && var q := CombineScalars(c, VerifyScalars(c, e, r, s), Affine(qx, qy));
       q.Affine? && q.x % c.n == r
  }

  method Verify(c: Params, e: nat, r: int, s: int, qx: nat, qy: nat) returns (ok: bool)
    requires IsCurve(c)
    ensures ok == VerifySpec(c, e, r, s, qx, qy)
  {
    if r <= 0 || r >= c.n || s <= 0 || s >= c.n {
      return false;
    }
    if qx >= c.p || qy >= c.p || (qx == 0 && qy == 0) || qy * qy % c.p != Cubic(c, qx) % c.p {
      return false;
    }
    var u := VerifyScalars(c, e, r, s);
    var left := ScalarMul(c, u.0, c.g);
    var right := ScalarMul(c, u.1, Affine(qx, qy));
    var q := PointAdd(c, left, right);
    ok := q.Affine? && q.x % c.n == r;
  }

  lemma VerifyScalarsMakeNonce(n: nat, e: int, d: int, r: int, k: int, ki: int, s: int, si: int)
    requires n > 0 && Cong(k * ki, 1, n) && Cong(s * si, 1, n) && Cong(s, ki * (e + r * d), n)
    ensures Cong(e * si % n + (r * si % n) * d, k, n)
  {
    var sum := e + r * d;
    SignedSum(n, k, ki, sum, s);
    CongReduced(e * si, n);
    CongReduced(r * si, n);
    CongMul(r * si % n, r * si, d, d, n);
    CongAdd(e * si % n, e * si, (r * si % n) * d, (r * si) * d, n);
    assert e * si + (r * si) * d == sum * si;
    CongMul(sum, k * s, si, si, n);
    assert (k * s) * si == (s * si) * k;
    CancelUnit(s * si, k, n);
  }

  /** What `sign` makes, `verify` accepts. */
  lemma SignedVerifies(c: Params, d: nat, e: nat, k: nat)
    requires IsCurve(c)
    requires SignWith(c, d, e, k, Times(c, k, c.g)).Some? && Times(c, d, c.g).Affine?
    ensures var sig, key := SignWith(c, d, e, k, Times(c, k, c.g)).value, Times(c, d, c.g);
      key.x >= 0 && key.y >= 0 && VerifySpec(c, e, sig.r, sig.s, key.x, key.y)
  {
    var n, nonce, key := c.n, Times(c, k, c.g), Times(c, d, c.g);
    var sig := SignWith(c, d, e, k, nonce).value;
    var ki, si := PowMod(k, n - 2, n), PowMod(sig.s, n - 2, n);
    if k % n == 0 {
      ZeroNonceIsInfinite(c, k);
    }
    InverseMod(k, n);
    SmallMod(sig.s, n);
    InverseMod(sig.s, n);
    CongReduced(ki * (e + sig.r * d), n);
    VerifyScalarsMakeNonce(n, e, d, sig.r, k, ki, sig.s, si);
    TimesOnCurve(c, d, c.g);
    NoHalfPoint(c, key);
    hide Times, CombineScalars, Cubic, PowMod, IsOddPrime, PointAdd;
    CombinedMultiple(c, VerifyScalars(c, e, sig.r, sig.s), d, k);
  }

  /** In a group of odd order no point is its own opposite. */
  lemma NoHalfPoint(c: Params, s: Point)
    requires IsCurve(c) && OnCurve(c, s) && s.Affine?
    ensures s.y != 0
  {
    if s.y == 0 {
      assert c.p > 2 && c.n > 2 && OrderAt(c, s);
      SmallMod(0, c.p);
      assert PointAdd(c, s, s) == Infinity;
      OddMultiple(c, s, c.n / 2);
    }
  }

  lemma {:induction false} OddMultiple(c: Params, s: Point, m: nat)
    requires c.p > 2 && PointAdd(c, s, s) == Infinity
    ensures Times(c, 2 * m, s) == Infinity && Times(c, 2 * m + 1, s) == s
  {
    InfinityAdds(c, s);
    if m > 0 {
      OddMultiple(c, s, m - 1);
      hide PointAdd;
      assert 2 * m == 2 * (m - 1) + 2;
      assert Times(c, 2 * m, s) == PointAdd(c, Times(c, 2 * m - 1, s), s);
    }
    assert Times(c, 2 * m + 1, s) == PointAdd(c, Times(c, 2 * m, s), s);
  }

  // ----- the other signature with the same r -----

  lemma InverseOfNegated(n: nat, s: int, si: int, si': int)
    requires n > 0 && Cong(s * si, 1, n) && Cong((n - s) * si', 1, n)
    ensures Cong(si', -si, n)
  {
    AddMultiple(-(s * si'), si', n);
    assert (n - s) * si' == -(s * si') + si' * n;
    // si' = si' (s si) = (s si') si = -si
    CancelUnit(s * si, si', n);
    CongMul(-(s * si'), 1, si, si, n);
    assert (s * si) * si' == -(-(s * si') * si);
    CongAdd(0, 0, -(s * si') * si, 1 * si, n);
  }

  lemma NegatedScalar(n: nat, e: int, si: int, si': int)
    requires n > 0 && Cong(si', -si, n)
    ensures Cong(e * si % n + e * si' % n, 0, n)
  {
    CongReduced(e * si, n);
    CongReduced(e * si', n);
    CongMul(e, e, si', -si, n);
    CongAdd(e * si % n, e * si, e * si' % n, e * (-si), n);
    assert e * si + e * (-si) == 0;
  }

  /** Replacing `s` by its negative turns the combined point into its opposite. */
  lemma NegatedCombination(c: Params, e: nat, r: nat, s: int, q: Point)
    requires IsCurve(c) && OnCurve(c, q) && 0 < s < c.n
    ensures CombineScalars(c, VerifyScalars(c, e, r, c.n - s), q) ==
      Opposite(c, CombineScalars(c, VerifyScalars(c, e, r, s), q))
  {
    var n := c.n;
    var si, si' := PowMod(s, n - 2, n), PowMod(n - s, n - 2, n);
    SmallMod(s, n);
    SmallMod(n - s, n);
    InverseMod(s, n);
    InverseMod(n - s, n);
    hide Times, PowMod, IsOddPrime, PointAdd, OnCurve, Opposite;
    InverseOfNegated(n, s, si, si');
    NegatedScalar(n, e, si, si');
    NegatedScalar(n, r, si, si');
    var u, u' := VerifyScalars(c, e, r, s), VerifyScalars(c, e, r, n - s);
    TimesOpposite(c, u.0, u'.0, c.g);
    TimesOpposite(c, u.1, u'.1, q);
    TimesOnCurve(c, u.0, c.g);
    TimesOnCurve(c, u.1, q);
    OppositeOfSum(c, Times(c, u.0, c.g), Times(c, u.1, q));
  }

  /** Verification does not tell `s` from its negative. */
  lemma VerifyIsSymmetric(c: Params, e: nat, r: int, s: int, qx: nat, qy: nat)
    requires IsCurve(c) && 0 < s < c.n
    ensures VerifySpec(c, e, r, s, qx, qy) == VerifySpec(c, e, r, c.n - s, qx, qy)
  {
    if 0 < r < c.n && IsPublicKey(c, qx, qy) {
      NegatedCombination(c, e, r, s, Affine(qx, qy));
    }
  }
}
