/** What the discipline admits and what it shuts out: two handlers of the guest that change
    what they are about to charge, and one that charges through a callee, all of which pay;
    and six small programs that the analysis accepts although they need not pay, each
    breaking the discipline in one way. */
module CensusCases {
  import opened Words
  import opened Pancake
  import opened OpcodeCensus
  import opened Discipline
  import opened Soundness
  import opened GasBodies

  const NoFacts: Facts := Facts([], [])
  /** A call made for its effect. */
  const Discard: CallInfo := Assigned(None, None)

  function ChargeGas(amount: Exp): Prog {
    Call(Discard, "charge_gas", [amount])
  }

  // ----- handlers that change what they charge -----

  const Cold: Exp := Cmp(Equal, Var(Local, "warm"), Const(0))

  /** `op_sstore` from the cost of the access on. */
  function SstoreCost(rest: Prog): Prog {
    Dec("access_cost", Const(100),
      Seq(Ite(Cold, Assign(Local, "access_cost", Const(2100)), Skip),
      DecCall("mx", "max", [Var(Local, "access_cost"), Op(Add, [Const(2300), Const(1)])],
        Seq(Call(Discard, "check_gas", [Var(Local, "mx")]),
        Seq(ChargeGas(Var(Local, "access_cost")),
        rest)))))
  }

  /** `op_sstore` with anything for what follows its first charge; the two locals that hold
      structs hold words here. */
  function Sstore(rest: Prog): Prog {
    Seq(Call(Discard, "require_not_static", []),
    DecCall("kv", "stack_pop", [],
      DecCall("new_value", "stack_pop", [],
        Dec("key", Var(Global, "evm_key_buf"),
          Seq(Call(Discard, "u256_to_be32", [Var(Local, "kv"), Var(Local, "key")]),
          Dec("target", Load(Op(Add, [Load(Ev(112)), Const(32)])),
            DecCall("warm", "is_warm_storage_key", [Var(Local, "target"), Var(Local, "key")],
              SstoreCost(rest))))))))
  }

  /** `op_selfdestruct` from its cost on. */
  function SelfdestructCost(rest: Prog): Prog {
    Dec("gas_cost", Const(5000),
      Seq(Ite(Cold, Assign(Local, "gas_cost", Op(Add, [Var(Local, "gas_cost"), Const(3000)])), Skip),
      Seq(ChargeGas(Var(Local, "gas_cost")),
      rest)))
  }

  /** `op_selfdestruct` with anything for what follows its first charge; `bv` holds a word
      here. */
  function Selfdestruct(rest: Prog): Prog {
    Seq(Call(Discard, "require_not_static", []),
    DecCall("bv", "stack_pop", [],
      DecCall("beneficiary", "to_address_masked", [Var(Local, "bv")],
        DecCall("warm", "is_warm_address", [Var(Local, "beneficiary")],
          SelfdestructCost(rest)))))
  }

  /** Accepted without any facts about callees, and disciplined up to its charge. */
  predicate Covered(pos: seq<string>, caps: Caps, p: Prog) {
    MustCharge(NoFacts, pos, p) && Disciplined(NoFacts, pos, caps, false, p)
  }

  lemma CoveredDec(pos: seq<string>, caps: Caps, x: string, v: Exp, b: Prog)
    requires x !in pos && !NamesTrackedGlobal(pos, v)
    requires Covered(Track(pos, x, CertainlyPositive(pos, v)), Bound(caps, x, CapOf(caps, v)), b)
    ensures Covered(pos, caps, Dec(x, v, b))
  {
    hide CapOf, CertainlyPositive, Track, Bound;
  }

  lemma CoveredDecCall(pos: seq<string>, caps: Caps, x: string, fn: string, args: seq<Exp>, b: Prog)
    requires x !in pos && x !in caps && NoTrackedGlobals(pos, args)
    requires fn != "add_sat" && fn != "charge_gas" && fn != "charge_state_gas" && Covered(pos, caps, b)
    ensures Covered(pos, caps, DecCall(x, fn, args, b))
  {
    assert caps - {x} == caps;
    hide CertainlyPositive, NoTrackedGlobals, CapOf;
  }

  lemma CoveredAfterCall(pos: seq<string>, caps: Caps, fn: string, args: seq<Exp>, b: Prog)
    requires NoTrackedGlobals(pos, args) && fn != "charge_gas" && fn != "charge_state_gas" && Covered(pos, caps, b)
    ensures Covered(pos, caps, Seq(Call(Discard, fn, args), b))
  {
    hide CertainlyPositive, NoTrackedGlobals;
    var call := Call(Discard, fn, args);
    assert Disciplined(NoFacts, pos, caps, false, call) && After(NoFacts, pos, caps, false, call) == Some(caps);
  }

  /** A test that may replace a tracked local by a larger positive value. */
  lemma CoveredAfterRaise(x: string, low: Word, cond: Exp, v: Exp, b: Prog)
    requires CapOf(map[x := low], v).Some? && CapOf(map[x := low], v).value > low
    requires Covered([x], map[x := CapOf(map[x := low], v).value], b)
    ensures Covered([x], map[x := low], Seq(Ite(cond, Assign(Local, x, v), Skip), b))
  {
    hide CapOf;
    var caps, cap := map[x := low], CapOf(map[x := low], v).value;
    var assign, test := Assign(Local, x, v), Ite(cond, Assign(Local, x, v), Skip);
    assert After(NoFacts, [x], caps, false, assign) == Some(caps[x := cap]);
    assert Join(caps[x := cap], caps) == map[x := cap];
    assert After(NoFacts, [x], caps, false, test) == Some(map[x := cap]);
    assert Disciplined(NoFacts, [x], caps, false, assign) && Disciplined(NoFacts, [x], caps, false, Skip);
    assert !ContainsReturn(assign) && !ContainsReturn(Skip);
    assert !ContainsReturn(test) && Disciplined(NoFacts, [x], caps, false, test);
    assert NoTailCall(test);
    var whole := Seq(test, b);
    assert MustCharge(NoFacts, [x], whole);
    assert Disciplined(NoFacts, [x], caps, false, whole);
  }

  lemma CoveredCharge(x: string, caps: Caps, rest: Prog)
    ensures Covered([x], caps, Seq(ChargeGas(Var(Local, x)), rest))
  {
    assert MustCharge(NoFacts, [x], ChargeGas(Var(Local, x)));
  }

  lemma SstoreCostCovered(rest: Prog)
    ensures Covered([], map[], SstoreCost(rest))
  {
    hide Covered;
    var x, sum := "access_cost", Op(Add, [Const(2300), Const(1)]);
    var args := [Var(Local, x), sum];
    var pay := Seq(ChargeGas(Var(Local, x)), rest);
    var check := Seq(Call(Discard, "check_gas", [Var(Local, "mx")]), pay);
    CoveredCharge(x, map[x := 2100], rest);
    CoveredAfterCall([x], map[x := 2100], "check_gas", [Var(Local, "mx")], pay);
    CoveredDecCall([x], map[x := 2100], "mx", "max", args, check);
    CoveredAfterRaise(x, 100, Cold, Const(2100), DecCall("mx", "max", args, check));
    assert Track([], x, true) == [x] && Bound(map[], x, Some(100)) == map[x := 100];
    CoveredDec([], map[], x, Const(100), SstoreCost(rest).body);
  }

  lemma SstoreCovered(rest: Prog)
    ensures Covered([], map[], Sstore(rest))
  {
    hide Covered, SstoreCost;
    var none: Caps := map[];
    var key, target := Var(Local, "key"), Var(Local, "target");
    SstoreCostCovered(rest);
    var warm := DecCall("warm", "is_warm_storage_key", [target, key], SstoreCost(rest));
    CoveredDecCall([], none, "warm", "is_warm_storage_key", [target, key], SstoreCost(rest));
    var account := Load(Op(Add, [Load(Ev(112)), Const(32)]));
    CoveredUntracked("target", account, warm);
    var slot := Seq(Call(Discard, "u256_to_be32", [Var(Local, "kv"), key]), Dec("target", account, warm));
    CoveredAfterCall([], none, "u256_to_be32", [Var(Local, "kv"), key], slot.second);
    CoveredUntracked("key", Var(Global, "evm_key_buf"), slot);
    CoveredDecCall([], none, "new_value", "stack_pop", [], Dec("key", Var(Global, "evm_key_buf"), slot));
    CoveredDecCall([], none, "kv", "stack_pop", [], Sstore(rest).second.body);
    CoveredAfterCall([], none, "require_not_static", [], Sstore(rest).second);
  }

  /** A binding that is of no interest to the analysis. */
  lemma CoveredUntracked(x: string, v: Exp, b: Prog)
    requires !v.Const? && !v.Op? && (v.Var? ==> v.kind.Global?) && Covered([], map[], b)
    ensures Covered([], map[], Dec(x, v, b))
  {
    hide Covered;
    var none: Caps := map[];
    assert none - {x} == none;
    CoveredDec([], none, x, v, b);
  }

  lemma SelfdestructCovered(rest: Prog)
    ensures Covered([], map[], Selfdestruct(rest))
  {
    hide Covered;
    var x, none := "gas_cost", map[];
    var raised := Op(Add, [Var(Local, x), Const(3000)]);
    var pay := Seq(ChargeGas(Var(Local, x)), rest);
    CoveredCharge(x, map[x := 8000], rest);
    RaisedCap(x);
    CoveredAfterRaise(x, 5000, Cold, raised, pay);
    assert Track([], x, true) == [x] && Bound(none, x, Some(5000)) == map[x := 5000];
    CoveredDec([], none, x, Const(5000), SelfdestructCost(rest).body);
    CoveredDecCall([], none, "warm", "is_warm_address", [Var(Local, "beneficiary")], SelfdestructCost(rest));
    CoveredDecCall([], none, "beneficiary", "to_address_masked", [Var(Local, "bv")],
      Selfdestruct(rest).second.body.body);
    CoveredDecCall([], none, "bv", "stack_pop", [], Selfdestruct(rest).second.body);
    CoveredAfterCall([], none, "require_not_static", [], Selfdestruct(rest).second);
  }

  lemma RaisedCap(x: string)
    ensures CapOf(map[x := 5000], Op(Add, [Var(Local, x), Const(3000)])) == Some(8000)
  {
    assert CapOf(map[x := 5000], Var(Local, x)) == Some(5000);
  }

  /** Whatever the callees do, an accepted and disciplined handler pays. */
  lemma CoveredPays(c: Program, fuel: nat, s: State, handler: Prog)
    requires HasAddSat(c) && Covered([], map[], handler)
    ensures PaysOnExit(s, Eval(c, fuel, s, handler))
  {
    hide Eval, MustCharge, Disciplined, HasAddSat;
    var none: Caps := map[];
    assert (map x: string | x in [] :: WORD_MAX) == none;
    SoundBodyPays(c, Callees(handler), NoFacts, fuel, s, [], handler);
  }

  /** Every run of `op_sstore` that falls through or returns has paid, whatever follows its
      first charge and whatever its callees do. */
  lemma SstorePays(c: Program, fuel: nat, s: State, rest: Prog)
    requires HasAddSat(c)
    ensures PaysOnExit(s, Eval(c, fuel, s, Sstore(rest)))
  {
    SstoreCovered(rest);
    CoveredPays(c, fuel, s, Sstore(rest));
  }

  lemma SelfdestructPays(c: Program, fuel: nat, s: State, rest: Prog)
    requires HasAddSat(c)
    ensures PaysOnExit(s, Eval(c, fuel, s, Selfdestruct(rest)))
  {
    SelfdestructCovered(rest);
    CoveredPays(c, fuel, s, Selfdestruct(rest));
  }

  // ----- a charge through a callee -----

  /** Reading a field of a struct and building one are operators of no interest here. */
  const ChargeWithMemory: Function := Function("charge_with_memory", ["base", "start", "size"],
    DecCall("x", "extend_memory_cost1", [Var(Local, "start"), Var(Local, "size")],
      DecCall("total", "add_sat", [Var(Local, "base"), Prim("field 0", [Var(Local, "x")])],
        Seq(ChargeGas(Var(Local, "total")),
        Seq(Call(Discard, "extend_memory", [Prim("field 1", [Var(Local, "x")])]),
        ReturnZero)))))

  const MemoryFacts: Facts := Facts([], ["charge_with_memory"])

  /** `op_mload` with anything for what follows its charge. */
  function Mload(rest: Prog): Prog {
    DecCall("start", "stack_pop", [],
      Seq(Call(Discard, "charge_with_memory", MloadArgs()), rest))
  }

  function MloadArgs(): seq<Exp> {
    [Const(3), Var(Local, "start"), Prim("struct", [Const(32), Const(0), Const(0), Const(0)])]
  }

  lemma ChargeWithMemoryCovered()
    ensures Covered(["base"], map["base" := WORD_MAX], ChargeWithMemory.body)
  {
    hide Covered;
    var x, caps := "base", map["base" := WORD_MAX];
    var bind := ChargeWithMemory.body.body;
    TotalCovered();
    CoveredDecCall([x], caps, "x", "extend_memory_cost1", ChargeWithMemory.body.args, bind);
  }

  lemma TotalCovered()
    ensures Covered(["base"], map["base" := WORD_MAX], ChargeWithMemory.body.body)
  {
    var pos, caps := ["base"], map["base" := WORD_MAX];
    var bind := ChargeWithMemory.body.body;
    var inner := caps["total" := WORD_MAX];
    assert CertainlyPositive(pos, bind.args[0]) && CapOf(caps, bind.args[0]).Some?;
    assert PositiveBinding(pos, "add_sat", bind.args) && BindingCap(caps, "add_sat", bind.args) == Some(WORD_MAX);
    assert Track(pos, "total", true) == ["total", "base"];
    var charge := ChargeGas(Var(Local, "total"));
    assert MustCharge(NoFacts, ["total", "base"], charge);
    assert Disciplined(NoFacts, ["total", "base"], inner, false, charge);
    assert Disciplined(NoFacts, ["total", "base"], inner, false, bind.body);
  }

  /** `charge_with_memory`, accepted for a positive first argument in the first round, pays
      whenever that argument is positive. */
  lemma ChargeWithMemoryPays(c: Program)
    requires HasAddSat(c)
    ensures AcceptsIfArg0(NoFacts, ChargeWithMemory) && BodyPaysIfPositive(c, ChargeWithMemory)
  {
    ChargeWithMemoryCovered();
    hide Eval, MustCharge, Disciplined, HasAddSat;
    var pos, body := ["base"], ChargeWithMemory.body;
    assert (map x | x in pos :: WORD_MAX) == map["base" := WORD_MAX];
    forall fuel: nat, s: State | IsPositiveLocal("base", s) ensures PaysOnReturn(s, Eval(c, fuel, s, body)) {
      SoundBodyPays(c, Callees(body), NoFacts, fuel, s, pos, body);
    }
  }

  lemma MloadCovered(rest: Prog)
    ensures MustCharge(MemoryFacts, [], Mload(rest)) && Disciplined(MemoryFacts, [], map[], false, Mload(rest))
  {
    var none: Caps := map[];
    var call := Call(Discard, "charge_with_memory", MloadArgs());
    assert MustCharge(MemoryFacts, [], call);
    assert Disciplined(MemoryFacts, [], none, false, Seq(call, rest));
    assert none - {"start"} == none;
  }

  /** Every run of `op_mload` that falls through or returns has paid, through the body of
      `charge_with_memory`. */
  lemma MloadPays(c: Program, fuel: nat, s: State, rest: Prog)
    requires DistinctNames(c.functions) && HasAddSat(c) && ChargeWithMemory in c.functions
    ensures PaysOnExit(s, Eval(c, fuel, s, Mload(rest)))
  {
    ChargeWithMemoryPays(c);
    MloadCovered(rest);
    hide Eval, MustCharge, Disciplined, HasAddSat, BodyPaysIfPositive, ChargeWithMemory;
    var none: Caps := map[];
    assert (map x: string | x in [] :: WORD_MAX) == none;
    assert ChargeWithMemory.name == "charge_with_memory";
    FindDistinct(c.functions, ChargeWithMemory);
    SoundBodyPays(c, Callees(Mload(rest)), MemoryFacts, fuel, s, [], Mload(rest));
  }

  // ----- programs that are accepted and need not pay -----

  predicate Unpaid(s: State, run: Option<Run>) {
    run.Some? && run.value.result.Normal? && !Paid(s, run.value.result.state)
  }

  /** Accepted by the analysis, shut out by the discipline, and with a run that ends without
      having paid. */
  ghost predicate SlipsThrough(c: Program, s: State, facts: Facts, p: Prog) {
    && MustCharge(facts, [], p) && !Disciplined(facts, [], map[], false, p)
    && exists fuel: nat :: !PaysOnExit(s, Eval(c, fuel, s, p))
  }

  /** A program with the guest's `charge_gas`, started in a frame. */
  predicate CanCharge(c: Program, s: State) {
    "EvmErr" in c.exceptions && FindFunction(c.functions, "charge_gas") == Some(ChargeGasFunction) && HasFrame(s)
      && !s.ended
  }

  /** A completed charge of nothing. */
  lemma ChargesNothing(c: Program, s: State, amount: Exp)
    requires CanCharge(c, s) && EvalExp(c, s, amount) == Some(0)
    ensures Unpaid(s, Eval(c, 7, s, ChargeGas(amount)))
  {
    hide EvalExp, HasFrame;
    assert EvalExps(c, s, [amount]) == Some([0]) by {
      assert EvalExps(c, s, [amount][1..]) == Some([]);
      assert [0] + [] == [0];
    }
    var callee := s.(locals := Bind(["amount"], [0]));
    EntersBody(c, s, callee);
    hide Eval, EvalExps, ExpsCost, FindFunction, Performs;
    ChargedNothing(s, callee, Eval(c, 5, callee, ChargeGasFunction.body));
  }

  lemma EntersBody(c: Program, s: State, callee: State)
    requires CanCharge(c, s) && callee == s.(locals := Bind(["amount"], [0]))
    ensures HasFrame(callee)
    ensures Performs(callee, GasMachine.Apply(GasOf(callee), GasMachine.ChargeGas(0)),
      Eval(c, 5, callee, ChargeGasFunction.body))
  {
    hide Eval, Performs;
    ChargeGasPerforms(c, callee, 0);
  }

  lemma ChargedNothing(s: State, callee: State, run: Option<Run>)
    requires callee == s.(locals := callee.locals) && HasFrame(callee)
    requires Performs(callee, GasMachine.Apply(GasOf(callee), GasMachine.ChargeGas(0)), run)
    ensures run.Some? && run.value.result.Returned?
    ensures var t := run.value.result.state; t == s.(locals := t.locals, memory := t.memory)
  {}

  /** A block around a run that has not paid. */
  lemma UnpaidBlock(c: Program, fuel: nat, s: State, x: string, k: Word, b: Prog)
    requires fuel > 0
    requires var entry := s.(locals := s.locals[x := k]); Unpaid(entry, Eval(c, fuel - 1, entry, b))
    ensures Unpaid(s, Eval(c, fuel, s, Dec(x, Const(k), b)))
  {}

  /** A tail call is a return that `ContainsReturn` does not see: the program is accepted for
      the charge in its second half, and returns before reaching it. */
  lemma TailCallsAreMissed(c: Program, s: State)
    requires FindFunction(c.functions, "helper") == Some(Function("helper", [], Return(Const(0)))) && !s.ended
    ensures SlipsThrough(c, s, NoFacts, Seq(Call(Tail, "helper", []), ChargeGas(Const(1))))
  {
    hide Eval, EvalCall;
    var helper, charge := Call(Tail, "helper", []), ChargeGas(Const(1));
    assert MustCharge(NoFacts, [], charge);
    HelperReturns(c, s);
    assert !PaysOnExit(s, Eval(c, 4, s, Seq(helper, charge))) by {
      SeqRuns(c, 4, s, helper, charge);
    }
  }

  lemma HelperReturns(c: Program, s: State)
    requires FindFunction(c.functions, "helper") == Some(Function("helper", [], Return(Const(0))))
    ensures var run := Eval(c, 3, s, Call(Tail, "helper", []));
      run.Some? && run.value.result == Returned(s.(locals := map[]), 0)
  {
    assert EvalExps(c, s, []) == Some([]);
    var callee := s.(locals := map[]);
    assert Eval(c, 1, callee, Return(Const(0))) == Some(Run(Returned(callee, 0), 2));
    assert EvalCall(c, 2, s, Tail, "helper", []) == Some(Run(Returned(callee, 0), 2));
  }

  /** A callee that always raises counts as charging, and a handler around the call swallows
      the exception: the caller goes on without having paid. */
  lemma HandlersAreMissed(c: Program, s: State)
    requires c.functions == [Function("thrower", [], Raise("EvmErr", Const(4)))]
    requires "EvmErr" in c.exceptions && "err" in s.locals && !s.ended
    ensures SlipsThrough(c, s, Iterate(c.functions, 1),
      Call(Assigned(None, Some(Handler("EvmErr", "err", Skip))), "thrower", []))
  {
    var info := Assigned(None, Some(Handler("EvmErr", "err", Skip)));
    assert Accepts(NoFacts, c.functions[0]);
    assert NamesWhere(c.functions[1..], f => Accepts(NoFacts, f)) == [];
    assert Iterate(c.functions, 0) == NoFacts;
    assert EvalExps(c, s, []) == Some([]);
    var callee := s.(locals := map[]);
    assert Eval(c, 1, callee, Raise("EvmErr", Const(4))) == Some(Run(Raised(callee, "EvmErr", 4), 2));
    var resumed := s.(locals := s.locals["err" := 4]);
    assert Eval(c, 1, resumed, Skip) == Some(Run(Normal(resumed), 1));
    assert EvalCall(c, 2, s, info, "thrower", []) == Some(Run(Normal(resumed), 3));
    assert !PaysOnExit(s, Eval(c, 3, s, Call(info, "thrower", [])));
  }

  const ZeroAssigned: Prog := Seq(Assign(Local, "x", Const(0)), ChargeGas(Var(Local, "x")))

  /** A tracked local that is assigned zero is still credited as positive. */
  lemma ReassignmentIsMissed(c: Program, s: State)
    requires CanCharge(c, s)
    ensures SlipsThrough(c, s, NoFacts, Dec("x", Const(1), ZeroAssigned))
  {
    hide Eval;
    ReassignmentIsAccepted();
    hide MustCharge, Disciplined;
    AssignsZero(c, s.(locals := s.locals["x" := 1]));
    UnpaidBlock(c, 9, s, "x", 1, ZeroAssigned);
  }

  lemma ReassignmentIsAccepted()
    ensures var p := Dec("x", Const(1), ZeroAssigned);
      MustCharge(NoFacts, [], p) && !Disciplined(NoFacts, [], map[], false, p)
  {
    assert Track([], "x", true) == ["x"] && MustCharge(NoFacts, ["x"], ZeroAssigned.second);
    assert !Disciplined(NoFacts, ["x"], Bound(map[], "x", Some(1)), false, ZeroAssigned.first);
  }

  lemma AssignsZero(c: Program, s: State)
    requires CanCharge(c, s)
    ensures Unpaid(s, Eval(c, 8, s, ZeroAssigned))
  {
    ChargesNothing(c, s.(locals := s.locals["x" := 0]), Var(Local, "x"));
    hide CanCharge, Paid;
    assert Eval(c, 7, s, ZeroAssigned.first) == Some(Run(Normal(s.(locals := s.locals["x" := 0])), 2));
  }

  const ZeroInside: Prog := Dec("x", Const(0), ChargeGas(Var(Local, "x")))

  /** A zero local that shadows a tracked one is still credited as positive. */
  lemma ShadowingIsMissed(c: Program, s: State)
    requires CanCharge(c, s)
    ensures SlipsThrough(c, s, NoFacts, Dec("x", Const(1), ZeroInside))
  {
    hide Eval;
    ShadowingIsAccepted();
    hide MustCharge, Disciplined;
    var s1 := s.(locals := s.locals["x" := 1]);
    ChargesNothing(c, s1.(locals := s1.locals["x" := 0]), Var(Local, "x"));
    UnpaidBlock(c, 8, s1, "x", 0, ZeroInside.body);
    UnpaidBlock(c, 9, s, "x", 1, ZeroInside);
  }

  lemma ShadowingIsAccepted()
    ensures var p := Dec("x", Const(1), ZeroInside);
      MustCharge(NoFacts, [], p) && !Disciplined(NoFacts, [], map[], false, p)
  {
    assert MustCharge(NoFacts, ["x"], ZeroInside.body);
    assert Track([], "x", true) == ["x"] && Track(["x"], "x", false) == ["x"];
    assert !Disciplined(NoFacts, ["x"], Bound(map[], "x", Some(1)), false, ZeroInside);
  }

  const GlobalCharged: Prog := ChargeGas(Var(Global, "x"))

  /** A global that shares its name with a tracked local is credited as positive. */
  lemma GlobalsAreMissed(c: Program, s: State)
    requires CanCharge(c, s) && "x" in s.globals && s.globals["x"] == 0
    ensures SlipsThrough(c, s, NoFacts, Dec("x", Const(1), GlobalCharged))
  {
    hide Eval;
    GlobalsAreAccepted();
    hide MustCharge, Disciplined;
    ChargesNothing(c, s.(locals := s.locals["x" := 1]), Var(Global, "x"));
    UnpaidBlock(c, 8, s, "x", 1, GlobalCharged);
  }

  lemma GlobalsAreAccepted()
    ensures var p := Dec("x", Const(1), GlobalCharged);
      MustCharge(NoFacts, [], p) && !Disciplined(NoFacts, [], map[], false, p)
  {
    assert Track([], "x", true) == ["x"] && MustCharge(NoFacts, ["x"], GlobalCharged);
    assert !Disciplined(NoFacts, ["x"], Bound(map[], "x", Some(1)), false, GlobalCharged);
  }

  const LocalCleared: Prog := Store(Op(Add, [Var(Local, "ev"), Const(104)]), Const(0))

  /** A store through a local that is called `ev` counts as ending the frame of the global. */
  lemma LocalFramesAreMissed(c: Program, s: State)
    requires "ev" in s.globals && s.globals["ev"] != 0 && !s.ended
    ensures SlipsThrough(c, s, NoFacts, Dec("ev", Const(0), LocalCleared))
  {
    LocalFramesAreAccepted();
    hide MustCharge, Disciplined;
    ClearsElsewhere(c, s.(locals := s.locals["ev" := 0]));
    hide Eval;
    UnpaidBlock(c, 2, s, "ev", 0, LocalCleared);
  }

  lemma LocalFramesAreAccepted()
    ensures var p := Dec("ev", Const(0), LocalCleared);
      MustCharge(NoFacts, [], p) && !Disciplined(NoFacts, [], map[], false, p)
  {
    assert MustCharge(NoFacts, [], LocalCleared) && Track([], "ev", false) == [];
    assert !Disciplined(NoFacts, [], Bound(map[], "ev", None), false, LocalCleared);
  }

  lemma ClearsElsewhere(c: Program, s: State)
    requires "ev" in s.globals && s.globals["ev"] != 0 && !s.ended && Lookup(s.locals, "ev") == Some(0)
    ensures Unpaid(s, Eval(c, 1, s, LocalCleared))
  {
    EvalBinary(c, s, Add, Var(Local, "ev"), Const(104));
    hide EvalExps;
    assert !ClearsFrame(s, 104, 0);
    assert Eval(c, 1, s, LocalCleared).value.result == Normal(StoreWord(s, 104, 0));
  }
}
