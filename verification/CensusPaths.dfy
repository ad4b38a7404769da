/** What the must-charge analysis accepts, said by paths: a program is accepted only if every
    straight-line path through it is credited, and where no uncharged first half of a sequence
    returns, exactly then. */
module CensusPaths {
  import opened Words
  import opened Pancake
  import opened OpcodeCensus

  /** What a path goes through: call sites with the locals tracked there, stores, exceptions. */
  datatype Step =
    | Site(pos: seq<string>, fn: string, args: seq<Exp>)
    | Stored(address: Exp, value: Exp)
    | Threw

  /** The straight-line paths of a program: one branch is chosen at each conditional, a loop is
      passed over or left by a return in it, and a path that returns or raises ends there. As
      the analysis sees them, a tail call is a call and a jump is a step like any other. */
  ghost predicate IsPath(pos: seq<string>, p: Prog, path: seq<Step>, leaves: bool)
    decreases p
  {
    match p
    case Call(_, fn, args) => path == [Site(pos, fn, args)] && !leaves
    case DecCall(x, fn, args, b) =>
      && path != [] && path[0] == Site(pos, fn, args)
      && IsPath(Track(pos, x, PositiveBinding(pos, fn, args)), b, path[1..], leaves)
    case Raise(_, _) => path == [Threw] && leaves
    case Return(_) => path == [] && leaves
    case Store(address, value) => path == [Stored(address, value)] && !leaves
    case Seq(a, b) =>
      || (leaves && IsPath(pos, a, path, true))
      || exists n :: 0 <= n <= |path| && IsPath(pos, a, path[..n], false) && IsPath(pos, b, path[n..], leaves)
    case Ite(_, t, e) => IsPath(pos, t, path, leaves) || IsPath(pos, e, path, leaves)
    case Dec(x, v, b) => IsPath(Track(pos, x, CertainlyPositive(pos, v)), b, path, leaves)
    case While(_, b) => path == [] && (leaves ==> ContainsReturn(b))
    case _ => path == [] && !leaves
  }

  predicate Credited(facts: Facts, step: Step) {
    match step
    case Site(pos, fn, args) => ChargingCall(facts, pos, fn, args)
    case Stored(address, value) => ClearsRunning(address, value)
    case Threw => true
  }

  predicate Pays(facts: Facts, path: seq<Step>) {
    exists i :: 0 <= i < |path| && Credited(facts, path[i])
  }

  /** Wherever a sequence is not accepted by its first half alone, that half has no return. */
  predicate Regular(facts: Facts, pos: seq<string>, p: Prog)
    decreases p
  {
    match p
    case DecCall(x, fn, args, b) => Regular(facts, Track(pos, x, PositiveBinding(pos, fn, args)), b)
    case Seq(a, b) =>
      MustCharge(facts, pos, a) || (!ContainsReturn(a) && Regular(facts, pos, a) && Regular(facts, pos, b))
    case Ite(_, t, e) => Regular(facts, pos, t) && Regular(facts, pos, e)
    case Dec(x, v, b) => Regular(facts, Track(pos, x, CertainlyPositive(pos, v)), b)
    case _ => true
  }

  lemma PaysOnward(facts: Facts, path: seq<Step>, n: nat)
    requires n <= |path|
    ensures Pays(facts, path) <==> Pays(facts, path[..n]) || Pays(facts, path[n..])
  {
    if i :| 0 <= i < |path| && Credited(facts, path[i]) {
      if i < n {
        assert path[..n][i] == path[i];
      } else {
        assert path[n..][i - n] == path[i];
      }
    }
  }

  /** Without a return a path leaves only by an exception. */
  lemma {:induction false} LeavesByRaising(facts: Facts, pos: seq<string>, p: Prog, path: seq<Step>)
    requires IsPath(pos, p, path, true) && !ContainsReturn(p)
    ensures Pays(facts, path)
    decreases p
  {
    hide ChargingCall, ClearsRunning, PositiveBinding, CertainlyPositive, Track;
    match p
    case DecCall(x, fn, args, b) =>
      LeavesByRaising(facts, Track(pos, x, PositiveBinding(pos, fn, args)), b, path[1..]);
      PaysOnward(facts, path, 1);
    case Raise(_, _) =>
      assert Credited(facts, path[0]);
    case Seq(a, b) =>
      if IsPath(pos, a, path, true) {
        LeavesByRaising(facts, pos, a, path);
      } else {
        var n :| 0 <= n <= |path| && IsPath(pos, a, path[..n], false) && IsPath(pos, b, path[n..], true);
        LeavesByRaising(facts, pos, b, path[n..]);
        PaysOnward(facts, path, n);
      }
    case Ite(_, t, e) =>
      if IsPath(pos, t, path, true) {
        LeavesByRaising(facts, pos, t, path);
      } else {
        LeavesByRaising(facts, pos, e, path);
      }
    case Dec(x, v, b) =>
      LeavesByRaising(facts, Track(pos, x, CertainlyPositive(pos, v)), b, path);
    case _ =>
  }

  /** Every path through an accepted program is credited. */
  lemma {:induction false} AcceptedPathsPay(facts: Facts, pos: seq<string>, p: Prog, path: seq<Step>, leaves: bool)
    requires MustCharge(facts, pos, p) && IsPath(pos, p, path, leaves)
    ensures Pays(facts, path)
    decreases p
  {
    hide ChargingCall, ClearsRunning, PositiveBinding, CertainlyPositive, Track;
    match p
    case Call(_, fn, args) =>
      assert Credited(facts, path[0]);
    case DecCall(x, fn, args, b) =>
      if ChargingCall(facts, pos, fn, args) {
        assert Credited(facts, path[0]);
      } else {
        AcceptedPathsPay(facts, Track(pos, x, PositiveBinding(pos, fn, args)), b, path[1..], leaves);
        PaysOnward(facts, path, 1);
      }
    case Raise(_, _) =>
      assert Credited(facts, path[0]);
    case Store(_, _) =>
      assert Credited(facts, path[0]);
    case Seq(a, b) =>
      if leaves && IsPath(pos, a, path, true) {
        if MustCharge(facts, pos, a) {
          AcceptedPathsPay(facts, pos, a, path, true);
        } else {
          LeavesByRaising(facts, pos, a, path);
        }
      } else {
        var n :| 0 <= n <= |path| && IsPath(pos, a, path[..n], false) && IsPath(pos, b, path[n..], leaves);
        PaysOnward(facts, path, n);
        if MustCharge(facts, pos, a) {
          AcceptedPathsPay(facts, pos, a, path[..n], false);
        } else {
          AcceptedPathsPay(facts, pos, b, path[n..], leaves);
        }
      }
    case Ite(_, t, e) =>
      if IsPath(pos, t, path, leaves) {
        AcceptedPathsPay(facts, pos, t, path, leaves);
      } else {
        AcceptedPathsPay(facts, pos, e, path, leaves);
      }
    case Dec(x, v, b) =>
      AcceptedPathsPay(facts, Track(pos, x, CertainlyPositive(pos, v)), b, path, leaves);
    case _ =>
  }

  ghost predicate IsUnpaid(facts: Facts, pos: seq<string>, p: Prog, path: seq<Step>, leaves: bool) {
    IsPath(pos, p, path, leaves) && !Pays(facts, path)
  }

  /** A rejected regular program has a path that nothing credits. */
  lemma {:induction false} UnpaidPath(facts: Facts, pos: seq<string>, p: Prog)
    requires Regular(facts, pos, p) && !MustCharge(facts, pos, p)
    ensures exists path, leaves :: IsUnpaid(facts, pos, p, path, leaves)
    decreases p
  {
    hide ChargingCall, ClearsRunning, PositiveBinding, CertainlyPositive, Track;
    match p
    case Call(_, fn, args) =>
      assert IsUnpaid(facts, pos, p, [Site(pos, fn, args)], false);
    case DecCall(x, fn, args, b) =>
      var inner := Track(pos, x, PositiveBinding(pos, fn, args));
      UnpaidPath(facts, inner, b);
      var rest, leaves :| IsUnpaid(facts, inner, b, rest, leaves);
      var path := [Site(pos, fn, args)] + rest;
      assert path[1..] == rest;
      PaysOnward(facts, path, 1);
      assert IsUnpaid(facts, pos, p, path, leaves);
    case Store(address, value) =>
      assert IsUnpaid(facts, pos, p, [Stored(address, value)], false);
    case Seq(a, b) =>
      UnpaidPath(facts, pos, a);
      var first, ends :| IsUnpaid(facts, pos, a, first, ends);
      if ends {
        LeavesByRaising(facts, pos, a, first);
      }
      UnpaidPath(facts, pos, b);
      var second, leaves :| IsUnpaid(facts, pos, b, second, leaves);
      UnpaidSeq(facts, pos, a, b, first, second, leaves);
    case Ite(_, t, e) =>
      var branch := if MustCharge(facts, pos, t) then e else t;
      UnpaidPath(facts, pos, branch);
      var path, leaves :| IsUnpaid(facts, pos, branch, path, leaves);
      assert IsUnpaid(facts, pos, p, path, leaves);
    case Dec(x, v, b) =>
      var inner := Track(pos, x, CertainlyPositive(pos, v));
      UnpaidPath(facts, inner, b);
      var path, leaves :| IsUnpaid(facts, inner, b, path, leaves);
      assert IsUnpaid(facts, pos, p, path, leaves);
    case Return(_) =>
      assert IsUnpaid(facts, pos, p, [], true);
    case Raise(_, _) =>
    case _ =>
      assert IsUnpaid(facts, pos, p, [], false);
  }

  lemma UnpaidSeq(facts: Facts, pos: seq<string>, a: Prog, b: Prog, first: seq<Step>, second: seq<Step>, leaves: bool)
    requires IsUnpaid(facts, pos, a, first, false) && IsUnpaid(facts, pos, b, second, leaves)
    ensures IsUnpaid(facts, pos, Seq(a, b), first + second, leaves)
  {
    hide Pays;
    var path := first + second;
    assert path[..|first|] == first && path[|first|..] == second;
    PaysOnward(facts, path, |first|);
  }

  /** The analysis is exact on regular programs: it accepts one if and only if every path
      through it is credited. */
  lemma AcceptedIff(facts: Facts, pos: seq<string>, p: Prog)
    requires Regular(facts, pos, p)
    ensures MustCharge(facts, pos, p) <==> forall path, leaves :: IsPath(pos, p, path, leaves) ==> Pays(facts, path)
  {
    hide MustCharge, Regular, IsPath, Pays;
    if MustCharge(facts, pos, p) {
      forall path, leaves | IsPath(pos, p, path, leaves) ensures Pays(facts, path) {
        AcceptedPathsPay(facts, pos, p, path, leaves);
      }
    } else {
      UnpaidPath(facts, pos, p);
      var path, leaves :| IsUnpaid(facts, pos, p, path, leaves);
      assert IsPath(pos, p, path, leaves) && !Pays(facts, path);
    }
  }

  // ----- regularity is needed -----

  const Charge: Prog := Call(Assigned(None, None), "charge_gas", [Const(1)])
  const ChargedReturn: Prog := Ite(Const(1), Seq(Charge, Return(Const(0))), Skip)

  lemma ChargePaths(facts: Facts, path: seq<Step>, leaves: bool)
    requires IsPath([], Charge, path, leaves)
    ensures !leaves && Pays(facts, path)
  {
    assert Credited(facts, path[0]);
  }

  lemma ChargedReturnPaths(facts: Facts, path: seq<Step>)
    requires IsPath([], ChargedReturn, path, true)
    ensures Pays(facts, path)
  {
    hide Charge, Pays;
    var body := Seq(Charge, Return(Const(0)));
    assert IsPath([], body, path, true);
    if IsPath([], Charge, path, true) {
      ChargePaths(facts, path, true);
    } else {
      var end := Return(Const(0));
      var n :| 0 <= n <= |path| && IsPath([], Charge, path[..n], false) && IsPath([], end, path[n..], true);
      ChargePaths(facts, path[..n], false);
      PaysOnward(facts, path, n);
    }
  }

  /** A path through a sequence leaves from the first half or goes on into the second. */
  lemma SeqPaths(facts: Facts, a: Prog, b: Prog, path: seq<Step>, leaves: bool)
    requires IsPath([], Seq(a, b), path, leaves)
    requires forall one :: IsPath([], a, one, true) ==> Pays(facts, one)
    requires forall one, ends :: IsPath([], b, one, ends) ==> Pays(facts, one)
    ensures Pays(facts, path)
  {
    hide Pays;
    if !(leaves && IsPath([], a, path, true)) {
      var n :| 0 <= n <= |path| && IsPath([], a, path[..n], false) && IsPath([], b, path[n..], leaves);
      PaysOnward(facts, path, n);
    }
  }

  /** A return that has charged still makes the analysis reject a program that charges on its
      other paths later: without regularity it is not exact. */
  lemma ChargedReturnIsRejected(facts: Facts)
    ensures !MustCharge(facts, [], Seq(ChargedReturn, Charge))
    ensures forall path, leaves :: IsPath([], Seq(ChargedReturn, Charge), path, leaves) ==> Pays(facts, path)
  {
    assert !MustCharge(facts, [], Skip) && ContainsReturn(Return(Const(0)));
    forall path, leaves | IsPath([], Seq(ChargedReturn, Charge), path, leaves) ensures Pays(facts, path) {
      hide *;
      forall one | IsPath([], ChargedReturn, one, true) ensures Pays(facts, one) {
        ChargedReturnPaths(facts, one);
      }
      forall one, ends | IsPath([], Charge, one, ends) ensures Pays(facts, one) {
        ChargePaths(facts, one, ends);
      }
      SeqPaths(facts, ChargedReturn, Charge, path, leaves);
    }
  }

  // ----- what the tracked locals say -----

  /** An expression whose value the analysis could know: a constant or a local. */
  predicate Atom(e: Exp) {
    e.Const? || (e.Var? && e.kind == Local)
  }

  predicate Keeps(pos: seq<string>, s: State) {
    forall x :: x in pos ==> x in s.locals && s.locals[x] >= 1
  }

  /** A state with the tracked locals at 1 and the other names at 0. */
  function Lowest(s: State, pos: seq<string>, names: set<string>): (t: State)
    ensures Keeps(pos, t) && forall x :: x in names ==> x in t.locals && (x !in pos ==> t.locals[x] == 0)
  {
    var tracked := set x | x in pos;
    s.(locals := map x | x in tracked + names :: if x in pos then 1 else 0)
  }

  function Names(e: Exp): set<string> {
    if e.Var? then {e.name} else {}
  }

  predicate IsPositive(v: Option<Word>) {
    v.Some? ==> v.value >= 1
  }

  lemma LowestValue(c: Program, s: State, pos: seq<string>, names: set<string>, e: Exp)
    requires Atom(e) && Names(e) <= names && !CertainlyPositive(pos, e)
    ensures EvalExp(c, Lowest(s, pos, names), e) == Some(0)
  {}

  lemma CertainValue(c: Program, s: State, pos: seq<string>, e: Exp)
    requires Atom(e) && CertainlyPositive(pos, e) && Keeps(pos, s)
    ensures IsPositive(EvalExp(c, s, e))
  {}

  /** A constant or a local is called positive exactly when it is positive in every state in
      which the tracked locals are. */
  lemma CertaintyIsExact(c: Program, s: State, pos: seq<string>, e: Exp)
    requires Atom(e)
    ensures CertainlyPositive(pos, e) <==> forall t :: Keeps(pos, t) ==> IsPositive(EvalExp(c, t, e))
  {
    hide EvalExp, CertainlyPositive;
    if CertainlyPositive(pos, e) {
      forall t | Keeps(pos, t) ensures IsPositive(EvalExp(c, t, e)) {
        CertainValue(c, t, pos, e);
      }
    } else {
      LowestValue(c, s, pos, Names(e), e);
    }
  }

  function SatSum(a: Option<Word>, b: Option<Word>): Option<Word> {
    if a.Some? && b.Some? then Some(AddSat(a.value, b.value)) else None
  }

  /** And so is the saturating sum of two of them. */
  lemma BindingIsExact(c: Program, s: State, pos: seq<string>, a: Exp, b: Exp)
    requires Atom(a) && Atom(b)
    ensures PositiveBinding(pos, "add_sat", [a, b]) <==>
            forall t :: Keeps(pos, t) ==> IsPositive(SatSum(EvalExp(c, t, a), EvalExp(c, t, b)))
  {
    hide EvalExp, CertainlyPositive;
    assert [a, b][0] == a && [a, b][1] == b;
    if CertainlyPositive(pos, a) || CertainlyPositive(pos, b) {
      forall t | Keeps(pos, t) ensures IsPositive(SatSum(EvalExp(c, t, a), EvalExp(c, t, b))) {
        if CertainlyPositive(pos, a) {
          CertainValue(c, t, pos, a);
        } else {
          CertainValue(c, t, pos, b);
        }
      }
    } else {
      var names := Names(a) + Names(b);
      LowestValue(c, s, pos, names, a);
      LowestValue(c, s, pos, names, b);
      assert !IsPositive(SatSum(EvalExp(c, Lowest(s, pos, names), a), EvalExp(c, Lowest(s, pos, names), b)));
    }
  }
}
