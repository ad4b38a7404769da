/** Verification and recovery without inverses: both ask for a nonce point that satisfies the
    equation of ECDSA. What is verified has been signed, and what is recovered is the only key
    that satisfies the equation. */
module EcdsaEquation {
  import opened Words
  import opened Modular
  import opened Primes
  import opened Points
  import opened Curve
  import opened Ecdsa

  /** s times the nonce point is e times the generator and r times the key. */
  ghost predicate Balances(c: Params, e: nat, r: nat, s: nat, key: Point, nonce: Point)
    requires c.p > 2
  {
    OnCurve(c, nonce) && Times(c, s, nonce) == PointAdd(c, Times(c, e, c.g), Times(c, r, key))
  }

  // ----- multiples of sums -----

  lemma {:induction false} TimesOfSum(c: Params, k: nat, s: Point, t: Point)
    requires IsCurve(c) && OnCurve(c, s) && OnCurve(c, t)
    ensures Times(c, k, PointAdd(c, s, t)) == PointAdd(c, Times(c, k, s), Times(c, k, t))
  {
    assert c.p > 2 && c.n > 2;
    hide PointAdd, OnCurve, IsOddPrime;
    AddOnCurve(c, s, t);
    if k > 0 {
      var a, b := Times(c, k - 1, s), Times(c, k - 1, t);
      TimesOnCurve(c, k - 1, s);
      TimesOnCurve(c, k - 1, t);
      TimesOfSum(c, k - 1, s, t);
      // (a + b) + (s + t) = (a + s) + (b + t)
      AddOnCurve(c, a, s);
      AddOnCurve(c, b, s);
      AddOnCurve(c, b, t);
      AddGroups(c, a, b, PointAdd(c, s, t));
      AddGroups(c, b, s, t);
      AddGroups(c, s, b, t);
      AddGroups(c, a, s, PointAdd(c, b, t));
    } else {
      InfinityAdds(c, Infinity);
    }
  }

  /** A scalar and its inverse cancel. */
  lemma TimesCancel(c: Params, s: nat, i: nat, t: Point)
    requires IsCurve(c) && OnCurve(c, t) && Cong(s * i, 1, c.n)
    ensures Times(c, i, Times(c, s, t)) == t
  {
    assert c.p > 2 && c.n > 2;
    hide *;
    ProductNonnegative(s, i);
    TimesProduct(c, s, i, t);
    TimesCong(c, s * i, 1, t);
    TimesOnce(c, t);
  }

  lemma TimesTwice(c: Params, a: nat, i: nat, u: nat, t: Point)
    requires IsCurve(c) && OnCurve(c, t) && Cong(u, a * i, c.n)
    ensures Times(c, i, Times(c, a, t)) == Times(c, u, t)
  {
    assert c.p > 2 && c.n > 2;
    hide *;
    ProductNonnegative(a, i);
    TimesProduct(c, a, i, t);
    TimesCong(c, u, a * i, t);
  }

  /** What balances is what the inverse of s makes of the right-hand side. */
  lemma BalancedPoint(c: Params, e: nat, r: nat, s: nat, i: nat, u: (nat, nat), key: Point, nonce: Point)
    requires IsCurve(c) && OnCurve(c, key) && OnCurve(c, nonce) && Cong(s * i, 1, c.n)
    requires Cong(u.0, e * i, c.n) && Cong(u.1, r * i, c.n)
    ensures Balances(c, e, r, s, key, nonce) <==> nonce == CombineScalars(c, u, key)
  {
    assert c.p > 2 && c.n > 2 && OnCurve(c, c.g);
    hide IsCurve, OnCurve, PointAdd, Times, Cong;
    var left, right := Times(c, e, c.g), Times(c, r, key);
    var sum := PointAdd(c, left, right);
    TimesOnCurve(c, e, c.g);
    TimesOnCurve(c, r, key);
    AddOnCurve(c, left, right);
    TimesOfSum(c, i, left, right);
    TimesTwice(c, e, i, u.0, c.g);
    TimesTwice(c, r, i, u.1, key);
    TimesCancel(c, s, i, nonce);
    assert s * i == i * s;
    TimesCancel(c, i, s, sum);
  }

  // ----- verification -----

  lemma ScalarsAreProducts(c: Params, e: nat, r: int, s: int)
    requires IsOddPrime(c.n) && 0 < s < c.n
    ensures var i, u := PowMod(s, c.n - 2, c.n), VerifyScalars(c, e, r, s);
      Cong(s * i, 1, c.n) && Cong(u.0, e * i, c.n) && Cong(u.1, r * i, c.n)
  {
    SmallMod(s, c.n);
    InverseMod(s, c.n);
    CongReduced(e * PowMod(s, c.n - 2, c.n), c.n);
    CongReduced(r * PowMod(s, c.n - 2, c.n), c.n);
  }

  ghost predicate HasNonce(c: Params, e: nat, r: nat, s: nat, key: Point)
    requires c.p > 2 && c.n > 2
  {
    exists nonce: Point :: nonce.Affine? && nonce.x % c.n == r && Balances(c, e, r, s, key, nonce)
  }

  /** Verification accepts exactly the points of the curve, in range and not the origin, for
      which some point balances the equation and has the abscissa r modulo the order. */
  lemma VerifyIff(c: Params, e: nat, r: int, s: int, qx: nat, qy: nat)
    requires IsCurve(c)
    ensures VerifySpec(c, e, r, s, qx, qy) <==>
      && 0 < r < c.n && 0 < s < c.n
      && OnCurve(c, Affine(qx, qy)) && Affine(qx, qy) != Affine(0, 0)
      && HasNonce(c, e, r, s, Affine(qx, qy))
  {
    if 0 < r < c.n && 0 < s < c.n && IsPublicKey(c, qx, qy) {
      var key, u := Affine(qx, qy), VerifyScalars(c, e, r, s);
      var q, i := CombineScalars(c, u, key), PowMod(s, c.n - 2, c.n);
      ScalarsAreProducts(c, e, r, s);
      TimesOnCurve(c, u.0, c.g);
      TimesOnCurve(c, u.1, key);
      AddOnCurve(c, Times(c, u.0, c.g), Times(c, u.1, key));
      hide CombineScalars, PowMod, VerifyScalars, Balances;
      BalancedPoint(c, e, r, s, i, u, key, q);
      forall nonce: Point | Balances(c, e, r, s, key, nonce) ensures nonce == q {
        BalancedIsOnCurve(c, e, r, s, key, nonce);
        BalancedPoint(c, e, r, s, i, u, key, nonce);
      }
    }
  }

  lemma BalancedIsOnCurve(c: Params, e: nat, r: nat, s: nat, key: Point, nonce: Point)
    requires c.p > 2 && Balances(c, e, r, s, key, nonce)
    ensures OnCurve(c, nonce)
  {}

  /** What `verify` accepts under a key with a known secret, `sign` makes with some nonce. */
  lemma VerifiedWasSigned(c: Params, d: nat, e: nat, r: nat, s: nat)
    requires IsCurve(c) && Times(c, d, c.g).Affine?
    requires var key := Times(c, d, c.g); key.x >= 0 && key.y >= 0 && VerifySpec(c, e, r, s, key.x, key.y)
    ensures exists k: nat :: SignWith(c, d, e, k, Times(c, k, c.g)) == Some(Signature(r, s))
  {
    var n, i, u := c.n, PowMod(s, c.n - 2, c.n), VerifyScalars(c, e, r, s);
    ProductNonnegative(u.1, d);
    var k := u.0 + u.1 * d;
    ScalarsAreProducts(c, e, r, s);
    hide PowMod, VerifyScalars, Times, PointAdd, OnCurve, SignWith;
    CombinedMultiple(c, u, d, k);
    if k % n == 0 {
      ZeroNonceIsInfinite(c, k);
    }
    NonceTimesS(n, e, r, d, s, i, u.0, u.1);
    InverseMod(k, n);
    SignatureRebuilt(n, k, PowMod(k, n - 2, n), e + r * d, s);
    MadeWith(c, d, e, k, Times(c, k, c.g), r, s);
  }

  lemma MadeWith(c: Params, d: nat, e: nat, k: nat, nonce: Point, r: nat, s: nat)
    requires c.n > 2 && nonce.Affine? && nonce.x % c.n == r > 0 && s > 0
    requires PowMod(k, c.n - 2, c.n) * (e + r * d) % c.n == s
    ensures SignWith(c, d, e, k, nonce) == Some(Signature(r, s))
  {
    hide PowMod;
  }

  lemma NonceTimesS(n: nat, e: int, r: int, d: int, s: int, i: int, u0: int, u1: int)
    requires n > 0 && Cong(s * i, 1, n) && Cong(u0, e * i, n) && Cong(u1, r * i, n)
    ensures Cong((u0 + u1 * d) * s, e + r * d, n)
  {
    CongMul(u1, r * i, d, d, n);
    CongAdd(u0, e * i, u1 * d, r * i * d, n);
    CongMul(u0 + u1 * d, e * i + r * i * d, s, s, n);
    assert (e * i + r * i * d) * s == (s * i) * (e + r * d) by {
      assert r * i * d == (r * d) * i;
      assert (e * i + (r * d) * i) == (e + r * d) * i;
      assert ((e + r * d) * i) * s == (s * i) * (e + r * d);
    }
    CancelUnit(s * i, e + r * d, n);
  }

  lemma Regrouped(k: int, ki: int, s: int)
    ensures ki * (k * s) == (k * ki) * s
  {}

  lemma SignatureRebuilt(n: nat, k: int, ki: int, sum: int, s: int)
    requires n > 0 && Cong(k * ki, 1, n) && Cong(k * s, sum, n) && 0 <= s < n
    ensures ki * sum % n == s
  {
    CongMul(ki, ki, k * s, sum, n);
    Regrouped(k, ki, s);
    CancelUnit(k * ki, s, n);
    SmallMod(s, n);
  }

  /** `verify` and `sign` in one statement: a pair is accepted under the key of the secret `d`
      exactly when it is a signature made with `d`. */
  lemma VerifiesIffSigned(c: Params, d: nat, e: nat, r: nat, s: nat)
    requires IsCurve(c) && Times(c, d, c.g).Affine?
    ensures var key := Times(c, d, c.g);
      && key.x >= 0 && key.y >= 0
      && (VerifySpec(c, e, r, s, key.x, key.y) <==>
            exists k: nat :: SignWith(c, d, e, k, Times(c, k, c.g)) == Some(Signature(r, s)))
  {
    var key := Times(c, d, c.g);
    TimesOnCurve(c, d, c.g);
    hide Times, SignWith, VerifySpec;
    if VerifySpec(c, e, r, s, key.x, key.y) {
      VerifiedWasSigned(c, d, e, r, s);
    }
    if k: nat :| SignWith(c, d, e, k, Times(c, k, c.g)) == Some(Signature(r, s)) {
      SignedVerifies(c, d, e, k);
    }
  }

  // ----- the nonce point of a recovery id -----

  function Abscissa(c: Params, r: nat, recid: nat): nat {
    r + if recid / 2 % 2 == 1 then c.n else 0
  }

  /** The point of the curve that `r` and the recovery id stand for. */
  predicate HasId(c: Params, nonce: Point, r: nat, recid: nat)
    requires c.p > 2
  {
    nonce.Affine? && OnCurve(c, nonce) && nonce.x == Abscissa(c, r, recid) && nonce.y % 2 == recid % 2
  }

  /** Decompression finds that point, and no other. */
  lemma DecompressIff(c: Params, r: nat, recid: nat, nonce: Point)
    requires IsRecoverable(c)
    ensures DecompressR(c, r, recid) == Key(nonce) <==> HasId(c, nonce, r, recid)
  {
    if DecompressR(c, r, recid) == Key(nonce) {
      DecompressedIsOnCurve(c, r, recid);
      NoHalfPoint(c, nonce);
      hide RightHandSide, IsCurve, OnCurve;
      OtherRootParity(c.p, SqrtCandidate(c, RightHandSide(c, Abscissa(c, r, recid))));
    }
    if HasId(c, nonce, r, recid) {
      RootIsChosen(c, nonce.x, nonce.y);
      hide IsRecoverable, Chooses;
      DecompressSteps(c, r, recid, nonce.x, nonce.y);
    }
  }

  lemma OtherRootParity(p: nat, y0: nat)
    requires p % 2 == 1 && y0 < p
    ensures y0 != 0 ==> (p - y0) % p == p - y0 && (p - y0) % 2 != y0 % 2
    ensures (p - 0) % p == 0
  {
    if y0 != 0 {
      SmallMod(p - y0, p);
    }
    AddMultiple(0, 1, p);
    SmallMod(0, p);
  }

  /** It fails for an abscissa beyond the field, and for one that no point of the curve has. */
  lemma DecompressErrors(c: Params, r: nat, recid: nat)
    requires IsRecoverable(c)
    ensures var x, key := Abscissa(c, r, recid), DecompressR(c, r, recid);
      && (key == Failed(XOutOfRange) <==> x >= c.p)
      && (key == Failed(XNotSquare) <==> x < c.p && forall y: int :: !OnCurve(c, Affine(x, y)))
      && (key.Key? || key == Failed(XOutOfRange) || key == Failed(XNotSquare))
  {
    var x, key := Abscissa(c, r, recid), DecompressR(c, r, recid);
    if x < c.p {
      if key.Key? {
        DecompressedIsOnCurve(c, r, recid);
        assert OnCurve(c, Affine(x, key.point.y));
      } else {
        forall y: int ensures !OnCurve(c, Affine(x, y)) {
          if OnCurve(c, Affine(x, y)) {
            RootIsChosen(c, x, y);
          }
        }
      }
    }
  }

  // ----- recovery -----

  /** A term moves from one side of an equation to the other with its opposite. */
  lemma MoveTerm(c: Params, t: Point, t': Point, a: Point, b: Point)
    requires IsCurve(c) && OnCurve(c, t) && OnCurve(c, t') && OnCurve(c, a) && OnCurve(c, b)
    requires PointAdd(c, t, t') == Infinity
    ensures a == PointAdd(c, t', b) <==> b == PointAdd(c, t, a)
  {
    assert c.p > 2;
    hide PointAdd, OnCurve, IsOddPrime;
    AddOnCurve(c, t, t');
    AddGroups(c, t, t', b);
    AddGroups(c, t', t, a);
    InfinityAdds(c, a);
    InfinityAdds(c, b);
  }

  /** The key balances the equation for a nonce point exactly when it is what the recovery
      scalars make of that point. */
  lemma BalancedKey(c: Params, e: int, r: nat, s: nat, key: Point, nonce: Point)
    requires IsCurve(c) && OnCurve(c, key) && OnCurve(c, nonce) && 0 < r < c.n && 0 < s < c.n
    ensures Balances(c, e % c.n, r, s, key, nonce) <==> key == CombineScalars(c, RecoveryScalars(c, e, r, s), nonce)
  {
    var n := c.n;
    var e', i, u := (n - e % n) % n, PowMod(r, n - 2, n), RecoveryScalars(c, e, r, s);
    SmallMod(r, n);
    InverseMod(r, n);
    CongReduced(e' * i, n);
    SmallMod(s, n);
    CongReduced(s * i, n);
    NegatedResidue(e % n, n);
    assert n > 2 && c.p > 2;
    assert Cong(u.0, e' * i, n) && Cong(u.1, s * i, n);
    hide PowMod, RecoveryScalars, IsCurve, OnCurve, PointAdd, Times, CombineScalars;
    BalancedPoint(c, e', s, r, i, u, nonce, key);
    var t, t' := Times(c, e % n, c.g), Times(c, e', c.g);
    var a, b := Times(c, r, key), Times(c, s, nonce);
    GeneratorOnCurve(c);
    TimesOnCurve(c, e % n, c.g);
    TimesOnCurve(c, e', c.g);
    TimesOnCurve(c, r, key);
    TimesOnCurve(c, s, nonce);
    TimesSum(c, e % n, e', c.g);
    TimesCong(c, e % n + e', 0, c.g);
    NoneIsInfinity(c, c.g);
    MoveTerm(c, t, t', a, b);
  }

  lemma GeneratorOnCurve(c: Params)
    requires IsCurve(c)
    ensures c.p > 2 && c.n > 2 && OnCurve(c, c.g)
  {}

  ghost predicate Recovers(c: Params, e: int, r: nat, s: nat, recid: nat, key: Point)
    requires c.p > 2 && c.n > 2
  {
    exists nonce: Point :: HasId(c, nonce, r, recid) && Balances(c, e % c.n, r, s, key, nonce)
  }

  /** What the combination is, when there is a nonce point. */
  lemma RecoveredKey(c: Params, e: int, r: nat, s: nat, recid: nat, key: Point)
    requires IsRecoverable(c) && 0 < r < c.n && 0 < s < c.n
    ensures var nonce := DecompressR(c, r, recid);
      OnCurve(c, key) && Recovers(c, e, r, s, recid, key) <==>
        nonce.Key? && key == CombineScalars(c, RecoveryScalars(c, e, r, s), nonce.point)
  {
    var nonce, u := DecompressR(c, r, recid), RecoveryScalars(c, e, r, s);
    GeneratorOnCurve(c);
    if nonce.Key? {
      DecompressIff(c, r, recid, nonce.point);
      TimesOnCurve(c, u.0, c.g);
      TimesOnCurve(c, u.1, nonce.point);
      AddOnCurve(c, Times(c, u.0, c.g), Times(c, u.1, nonce.point));
      if key == CombineScalars(c, u, nonce.point) {
        BalancedKey(c, e, r, s, key, nonce.point);
      }
    }
    hide DecompressR, RecoveryScalars, CombineScalars, Balances, IsCurve;
    if OnCurve(c, key) && Recovers(c, e, r, s, recid, key) {
      var other :| HasId(c, other, r, recid) && Balances(c, e % c.n, r, s, key, other);
      DecompressIff(c, r, recid, other);
      BalancedKey(c, e, r, s, key, other);
    }
  }

  /** Recovery yields the one finite key that balances the equation for the nonce point that
      `r` and the recovery id stand for, and nothing else. */
  lemma RecoverIff(c: Params, e: int, r: nat, s: nat, recid: nat, key: Point)
    requires IsRecoverable(c)
    ensures RecoverSpec(c, e, r, s, recid) == Key(key) <==>
      0 < r < c.n && 0 < s < c.n && key.Affine? && OnCurve(c, key) && Recovers(c, e, r, s, recid, key)
  {
    if 0 < r < c.n && 0 < s < c.n {
      RecoveredKey(c, e, r, s, recid, key);
    }
    hide DecompressR, RecoveryScalars, CombineScalars, Recovers, IsCurve;
  }

  /** When it fails, and how: a residue out of range, no nonce point, or infinity in place of
      a key. */
  lemma RecoverErrors(c: Params, e: int, r: nat, s: nat, recid: nat)
    requires IsRecoverable(c)
    ensures var key := RecoverSpec(c, e, r, s, recid);
      && (key == Failed(ROutOfRange) <==> !(0 < r < c.n))
      && (key == Failed(SOutOfRange) <==> 0 < r < c.n && !(0 < s < c.n))
      && (0 < r < c.n && 0 < s < c.n ==>
            && (key == Failed(XOutOfRange) <==> Abscissa(c, r, recid) >= c.p)
            && (key == Failed(XNotSquare) <==>
                  Abscissa(c, r, recid) < c.p && forall y: int :: !OnCurve(c, Affine(Abscissa(c, r, recid), y)))
            && (key == Failed(AtInfinity) <==> Recovers(c, e, r, s, recid, Infinity)))
  {
    DecompressErrors(c, r, recid);
    if 0 < r < c.n && 0 < s < c.n {
      RecoveredKey(c, e, r, s, recid, Infinity);
    }
    hide DecompressR, RecoveryScalars, CombineScalars, Recovers, IsCurve;
  }
}
