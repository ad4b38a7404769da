/** The bodies of the guest's gas functions, run by the evaluator, do to the frame's four
    memory cells exactly what the gas machine does, or raise and leave them alone. */
module GasBodies {
  import opened Words
  import opened Pancake
  import opened Soundness
  import opened GasMachine
  import Termination

  function Ev(offset: Word): Exp {
    Op(Add, [Var(Global, "ev"), Const(offset)])
  }

  const OutOfGas: Prog := Raise("EvmErr", Const(4))
  const ReturnZero: Prog := Return(Const(0))

  const ChargeGasFunction: Function := Function("charge_gas", ["amount"],
    Dec("gl", Load(Ev(EV_GAS_LEFT)),
      Seq(Ite(Cmp(Lower, Var(Local, "gl"), Var(Local, "amount")), OutOfGas, Skip),
      Seq(Store(Ev(EV_GAS_LEFT), Op(Sub, [Var(Local, "gl"), Var(Local, "amount")])),
      Seq(Store(Ev(EV_REGULAR_GAS_USED), Op(Add, [Load(Ev(EV_REGULAR_GAS_USED)), Var(Local, "amount")])),
      ReturnZero)))))

  const ReservoirPays: Prog :=
    Seq(Store(Ev(EV_STATE_GAS_LEFT), Op(Sub, [Var(Local, "sgl"), Var(Local, "amount")])), ReturnZero)

  const Borrow: Prog :=
    Seq(Store(Ev(EV_GAS_LEFT), Op(Sub, [Var(Local, "gl"), Var(Local, "rem")])),
    Seq(Store(Ev(EV_STATE_GAS_SPILLED), Op(Add, [Load(Ev(EV_STATE_GAS_SPILLED)), Var(Local, "rem")])),
    ReturnZero))

  const SpillPays: Prog :=
    Dec("rem", Op(Sub, [Var(Local, "amount"), Var(Local, "sgl")]),
      Seq(Store(Ev(EV_STATE_GAS_LEFT), Const(0)), Borrow))

  const SpillBlock: Prog :=
    Seq(Ite(Cmp(NotLower, Var(Local, "tot"), Var(Local, "amount")), SpillPays, Skip),
    Seq(OutOfGas, ReturnZero))

  const ChargeStateGasFunction: Function := Function("charge_state_gas", ["amount"],
    Dec("sgl", Load(Ev(EV_STATE_GAS_LEFT)),
      Dec("gl", Load(Ev(EV_GAS_LEFT)),
        Seq(Ite(Cmp(NotLower, Var(Local, "sgl"), Var(Local, "amount")), ReservoirPays, Skip),
        DecCall("tot", "add_sat", [Var(Local, "sgl"), Var(Local, "gl")], SpillBlock)))))

  const MinFunction: Function := Function("min", ["a", "b"],
    Seq(Ite(Cmp(Lower, Var(Local, "a"), Var(Local, "b")), Return(Var(Local, "a")), Skip),
    Return(Var(Local, "b"))))

  const Repay: Prog :=
    Seq(Store(Ev(EV_GAS_LEFT), Op(Add, [Load(Ev(EV_GAS_LEFT)), Var(Local, "from_gl")])),
    Seq(Store(Ev(EV_STATE_GAS_SPILLED), Op(Sub, [Var(Local, "spilled"), Var(Local, "from_gl")])),
    Seq(Store(Ev(EV_STATE_GAS_LEFT),
          Op(Add, [Load(Ev(EV_STATE_GAS_LEFT)), Op(Sub, [Var(Local, "amount"), Var(Local, "from_gl")])])),
    ReturnZero)))

  const CreditFunction: Function := Function("credit_state_gas_refund", ["amount"],
    Dec("spilled", Load(Ev(EV_STATE_GAS_SPILLED)),
      DecCall("from_gl", "min", [Var(Local, "amount"), Var(Local, "spilled")], Repay)))

  // ----- the frame's cells -----

  function Cell(s: State, offset: Word): Word
    requires "ev" in s.globals
  {
    WAdd(s.globals["ev"], offset)
  }

  predicate HasFrame(s: State) {
    && "ev" in s.globals
    && Cell(s, 64) in s.memory && Cell(s, 72) in s.memory && Cell(s, 184) in s.memory && Cell(s, 192) in s.memory
  }

  function GasOf(s: State): Gas
    requires HasFrame(s)
  {
    Gas(s.memory[Cell(s, 64)], s.memory[Cell(s, 72)], s.memory[Cell(s, 184)], s.memory[Cell(s, 192)])
  }

  predicate IsGasCell(s: State, x: Word)
    requires "ev" in s.globals
  {
    || x == Cell(s, EV_GAS_LEFT) || x == Cell(s, EV_STATE_GAS_LEFT)
    || x == Cell(s, EV_REGULAR_GAS_USED) || x == Cell(s, EV_STATE_GAS_SPILLED)
  }

  /** `t` differs from `s` in its locals and in the gas cells, which hold `g`. */
  ghost predicate GasBecomes(s: State, t: State, g: Gas) {
    && HasFrame(s) && HasFrame(t)
    && GasOf(t) == g
    && t == s.(locals := t.locals, memory := t.memory)
    && forall x ::
      (x in t.memory <==> x in s.memory) && (x in s.memory && !IsGasCell(s, x) ==> t.memory[x] == s.memory[x])
  }

  // ----- expressions and stores of a frame -----

  lemma EvValue(c: Program, s: State, offset: Word)
    requires "ev" in s.globals
    ensures EvalExp(c, s, Ev(offset)) == Some(Cell(s, offset))
    ensures Cell(s, offset) in s.memory ==> EvalExp(c, s, Load(Ev(offset))) == Some(s.memory[Cell(s, offset)])
  {
    EvalBinary(c, s, Add, Var(Global, "ev"), Const(offset));
  }

  /** The run returned 0 and left the cells holding `g`. */
  ghost predicate Leaves(s: State, run: Option<Run>, g: Gas) {
    run.Some? && run.value.result.Returned? && run.value.result.value == 0 && GasBecomes(s, run.value.result.state, g)
  }

  ghost predicate RunsOut(s: State, run: Option<Run>) {
    HasFrame(s) && run.Some? && run.value.result.Raised? && run.value.result.exn == "EvmErr"
    && run.value.result.value == 4 && GasBecomes(s, run.value.result.state, GasOf(s))
  }

  /** `run` is complete, and returned with the cells holding `after` or, where there is no
      `after`, raised without touching them. */
  ghost predicate Performs(s: State, after: Option<Gas>, run: Option<Run>) {
    if after.Some? then Leaves(s, run, after.value) else RunsOut(s, run)
  }

  function SetGas(g: Gas, offset: Word, v: Word): Gas {
    if offset == EV_GAS_LEFT then g.(left := v)
    else if offset == EV_STATE_GAS_LEFT then g.(reservoir := v)
    else if offset == EV_REGULAR_GAS_USED then g.(used := v)
    else g.(spilled := v)
  }

  predicate IsGasOffset(offset: Word) {
    offset == EV_GAS_LEFT || offset == EV_STATE_GAS_LEFT || offset == EV_REGULAR_GAS_USED
      || offset == EV_STATE_GAS_SPILLED
  }

  function SetCell(s: State, offset: Word, v: Word): State
    requires "ev" in s.globals
  {
    s.(memory := s.memory[Cell(s, offset) := v])
  }

  lemma SetCellSetsGas(s: State, offset: Word, v: Word)
    requires HasFrame(s) && IsGasOffset(offset)
    ensures GasBecomes(s, SetCell(s, offset, v), SetGas(GasOf(s), offset, v))
  {}

  lemma FrameHasEv(s: State)
    requires HasFrame(s)
    ensures "ev" in s.globals
  {}

  lemma CellStored(s: State, offset: Word, v: Word)
    requires HasFrame(s) && IsGasOffset(offset)
    ensures StoreWord(s, Cell(s, offset), v) == SetCell(s, offset, v)
  {}

  /** What leaves the frame changed after a cell was set leaves it changed. */
  lemma LeavesAfter(s: State, offset: Word, v: Word, run: Option<Run>, n: nat, g: Gas)
    requires HasFrame(s) && IsGasOffset(offset)
    requires HasFrame(SetCell(s, offset, v)) ==> Leaves(SetCell(s, offset, v), run, g)
    ensures Leaves(s, AddSteps(run, n), g)
  {
    hide SetGas;
    SetCellSetsGas(s, offset, v);
    hide GasBecomes, HasFrame, SetCell, IsGasOffset;
    var s' := SetCell(s, offset, v);
    GasBecomesTransitive(s, s', run.value.result.state, SetGas(GasOf(s), offset, v), g);
  }

  /** A store to one of the frame's cells, given what the rest of the block leaves. */
  lemma FrameStore(c: Program, fuel: nat, s: State, offset: Word, value: Exp, v: Word, rest: Prog, g: Gas)
    requires fuel > 1 && HasFrame(s) && IsGasOffset(offset) && EvalExp(c, s, value) == Some(v)
    requires HasFrame(SetCell(s, offset, v)) ==>
      Leaves(SetCell(s, offset, v), Eval(c, fuel - 1, SetCell(s, offset, v), rest), g)
    ensures Leaves(s, Eval(c, fuel, s, Seq(Store(Ev(offset), value), rest)), g)
  {
    hide Eval, EvalExp, ExpCost, HasFrame, Leaves, IsGasOffset, SetCell, StoreWord;
    FrameHasEv(s);
    EvValue(c, s, offset);
    StoreThen(c, fuel, s, Ev(offset), value, rest);
    CellStored(s, offset, v);
    LeavesAfter(s, offset, v, Eval(c, fuel - 1, SetCell(s, offset, v), rest),
      ExpCost(Ev(offset)) + ExpCost(value) + 2, g);
  }

  /** Adding to one of the frame's cells. */
  lemma FrameAdd(c: Program, fuel: nat, s: State, offset: Word, e: Exp, v: Word, rest: Prog, g: Gas)
    requires fuel > 1 && HasFrame(s) && IsGasOffset(offset) && EvalExp(c, s, e) == Some(v)
    requires var s' := SetCell(s, offset, WAdd(s.memory[Cell(s, offset)], v));
      HasFrame(s') ==> Leaves(s', Eval(c, fuel - 1, s', rest), g)
    ensures Leaves(s, Eval(c, fuel, s, Seq(Store(Ev(offset), Op(Add, [Load(Ev(offset)), e])), rest)), g)
  {
    hide Eval, Leaves;
    EvValue(c, s, offset);
    EvalBinary(c, s, Add, Load(Ev(offset)), e);
    FrameStore(c, fuel, s, offset, Op(Add, [Load(Ev(offset)), e]), WAdd(s.memory[Cell(s, offset)], v), rest, g);
  }

  lemma GasBecomesTransitive(s: State, t: State, u: State, g: Gas, h: Gas)
    requires GasBecomes(s, t, g) && GasBecomes(t, u, h)
    ensures GasBecomes(s, u, h)
  {
    forall x
      ensures (x in u.memory <==> x in s.memory) && (x in s.memory && !IsGasCell(s, x) ==> u.memory[x] == s.memory[x])
    {
      assert x in t.memory <==> x in s.memory;
    }
  }

  lemma ReturnsZero(c: Program, fuel: nat, s: State)
    requires fuel > 0 && HasFrame(s)
    ensures Leaves(s, Eval(c, fuel, s, ReturnZero), GasOf(s))
  {}

  lemma RaisesOutOfGas(c: Program, fuel: nat, s: State)
    requires fuel > 0 && HasFrame(s) && "EvmErr" in c.exceptions
    ensures RunsOut(s, Eval(c, fuel, s, OutOfGas))
  {}

  /** Steps and locals are no part of what a run does to the frame. */
  lemma PerformsIgnoresLocals(s: State, s': State, after: Option<Gas>, run: Run, x: string, shadowed: Option<Word>,
                              steps: nat)
    requires s' == s.(locals := s'.locals) && HasFrame(s) && HasFrame(s')
    requires Performs(s', after, Some(run))
    ensures Performs(s, after, Some(Run(RestoreLocal(x, shadowed, run.result), steps)))
  {}

  lemma PerformsIsComplete(s: State, after: Option<Gas>, run: Option<Run>)
    requires Performs(s, after, run)
    ensures run.Some?
  {}

  /** A declaration around a body that performs an operation. */
  lemma DecPerforms(c: Program, fuel: nat, s: State, x: string, v: Exp, w: Word, b: Prog, after: Option<Gas>)
    requires fuel > 0 && HasFrame(s) && EvalExp(c, s, v) == Some(w)
    requires var s' := s.(locals := s.locals[x := w]); HasFrame(s') ==> Performs(s', after, Eval(c, fuel - 1, s', b))
    ensures Performs(s, after, Eval(c, fuel, s, Dec(x, v, b)))
  {
    var s' := s.(locals := s.locals[x := w]);
    DecRuns(c, fuel, s, x, v, b);
    var run := Eval(c, fuel - 1, s', b).value;
    PerformsIgnoresLocals(s, s', after, run, x, Lookup(s.locals, x), ExpCost(v) + run.steps + 1);
  }

  /** The function's body, bound to two words, returns `v` and touches nothing but locals. */
  ghost predicate BodyYields(c: Program, s: State, f: Function, a: Word, b: Word, v: Word) {
    |f.params| == 2 &&
    var run := Eval(c, 6, s.(locals := Bind(f.params, [a, b])), f.body);
    run.Some? && run.value.result.Returned? && run.value.result.value == v
    && run.value.result.state == s.(locals := run.value.result.state.locals)
  }

  ghost predicate IsReturn(s: State, v: Word, call: Option<Run>) {
    call.Some? && call.value.result == Returned(s.(locals := map[]), v)
  }

  lemma CallYields(c: Program, s: State, f: Function, args: seq<Exp>, a: Word, b: Word, v: Word)
    requires FindFunction(c.functions, f.name) == Some(f) && !IsChargeName(f.name)
    requires EvalExps(c, s, args) == Some([a, b]) && BodyYields(c, s, f, a, b, v)
    ensures IsReturn(s, v, EvalCall(c, 7, s, Tail, f.name, args))
  {
    hide EvalExp, EvalExps, ExpCost, ExpsCost, FindFunction, Bind, IsChargeName;
    assert |[a, b]| == 2;
  }

  /** A declaration initialised by a call to a two-argument function that leaves the frame
      alone, around a block that performs an operation. */
  lemma CallPerforms(c: Program, s: State, x: string, f: Function, args: seq<Exp>, a: Word, b: Word, v: Word,
                     block: Prog, after: Option<Gas>)
    requires HasFrame(s) && FindFunction(c.functions, f.name) == Some(f) && !IsChargeName(f.name)
    requires EvalExps(c, s, args) == Some([a, b]) && BodyYields(c, s, f, a, b, v)
    requires var s' := s.(locals := s.locals[x := v]); HasFrame(s') ==> Performs(s', after, Eval(c, 7, s', block))
    ensures Performs(s, after, Eval(c, 8, s, DecCall(x, f.name, args, block)))
  {
    hide EvalExp, EvalExps, ExpCost, ExpsCost, FindFunction, EvalCall, BodyYields, IsChargeName, RestoreLocal, Performs;
    var call := EvalCall(c, 7, s, Tail, f.name, args);
    CallYields(c, s, f, args, a, b, v);
    var s' := s.(locals := s.locals[x := v]);
    PerformsIsComplete(s', after, Eval(c, 7, s', block));
    var run := Eval(c, 7, s', block).value;
    PerformsIgnoresLocals(s, s', after, run, x, Lookup(s.locals, x), call.value.steps + run.steps + 1);
  }

  // ----- charge_gas -----

  lemma ChargeGasPerforms(c: Program, s: State, amount: Word)
    requires HasFrame(s) && "EvmErr" in c.exceptions
    requires Lookup(s.locals, "amount") == Some(amount)
    ensures Performs(s, Apply(GasOf(s), ChargeGas(amount)), Eval(c, 5, s, ChargeGasFunction.body))
  {
    var g, body := GasOf(s), ChargeGasFunction.body.body;
    EvValue(c, s, EV_GAS_LEFT);
    var s' := s.(locals := s.locals["gl" := g.left]);
    ChargeGasGuard(c, s', g.left, amount);
    DecPerforms(c, 5, s, "gl", Load(Ev(EV_GAS_LEFT)), g.left, body, Apply(GasOf(s), ChargeGas(amount)));
  }

  lemma ChargeGasGuard(c: Program, s: State, gl: Word, amount: Word)
    requires HasFrame(s) && "EvmErr" in c.exceptions && GasOf(s).left == gl
    requires Lookup(s.locals, "gl") == Some(gl) && Lookup(s.locals, "amount") == Some(amount)
    ensures Performs(s, Apply(GasOf(s), ChargeGas(amount)), Eval(c, 4, s, ChargeGasFunction.body.body))
  {
    hide Eval, GasBecomes;
    var body := ChargeGasFunction.body.body;
    assert EvalExp(c, s, body.first.cond) == Some(if gl < amount then 1 else 0);
    if gl < amount {
      RaisesOutOfGas(c, 2, s);
      GuardLeaves(c, 4, s, body.first.cond, OutOfGas, body.second);
    } else {
      GuardFallsThrough(c, 4, s, body.first.cond, OutOfGas, body.second);
      ChargeGasStores(c, s, gl, amount);
    }
  }

  lemma ChargeGasStores(c: Program, s: State, gl: Word, amount: Word)
    requires HasFrame(s) && GasOf(s).left == gl && amount <= gl
    requires Lookup(s.locals, "gl") == Some(gl) && Lookup(s.locals, "amount") == Some(amount)
    ensures Leaves(s, Eval(c, 3, s, ChargeGasFunction.body.body.second), Apply(GasOf(s), ChargeGas(amount)).value)
  {
    hide Eval, Leaves;
    var s1 := SetCell(s, EV_GAS_LEFT, WSub(gl, amount));
    SetCellSetsGas(s, EV_GAS_LEFT, WSub(gl, amount));
    var s2 := SetCell(s1, EV_REGULAR_GAS_USED, WAdd(GasOf(s1).used, amount));
    SetCellSetsGas(s1, EV_REGULAR_GAS_USED, WAdd(GasOf(s1).used, amount));
    ReturnsZero(c, 1, s2);
    FrameAdd(c, 2, s1, EV_REGULAR_GAS_USED, Var(Local, "amount"), amount, ReturnZero, GasOf(s2));
    EvalBinary(c, s, Sub, Var(Local, "gl"), Var(Local, "amount"));
    FrameStore(c, 3, s, EV_GAS_LEFT, Op(Sub, [Var(Local, "gl"), Var(Local, "amount")]), WSub(gl, amount),
      ChargeGasFunction.body.body.second.second, GasOf(s2));
  }

  // ----- charge_state_gas -----

  lemma ReservoirPaysRuns(c: Program, fuel: nat, s: State, sgl: Word, amount: Word)
    requires fuel >= 2 && HasFrame(s) && GasOf(s).reservoir == sgl && amount <= sgl
    requires Lookup(s.locals, "sgl") == Some(sgl) && Lookup(s.locals, "amount") == Some(amount)
    ensures Leaves(s, Eval(c, fuel, s, ReservoirPays), Apply(GasOf(s), ChargeStateGas(amount)).value)
  {
    hide Eval, Leaves;
    var s1 := SetCell(s, EV_STATE_GAS_LEFT, WSub(sgl, amount));
    SetCellSetsGas(s, EV_STATE_GAS_LEFT, WSub(sgl, amount));
    ReturnsZero(c, fuel - 1, s1);
    EvalBinary(c, s, Sub, Var(Local, "sgl"), Var(Local, "amount"));
    FrameStore(c, fuel, s, EV_STATE_GAS_LEFT, Op(Sub, [Var(Local, "sgl"), Var(Local, "amount")]), WSub(sgl, amount),
      ReturnZero, GasOf(s1));
  }

  lemma SpillPaysRuns(c: Program, s: State, sgl: Word, gl: Word, amount: Word)
    requires HasFrame(s) && GasOf(s).left == gl
    requires Lookup(s.locals, "sgl") == Some(sgl) && Lookup(s.locals, "gl") == Some(gl)
    requires Lookup(s.locals, "amount") == Some(amount)
    ensures var rem := WSub(amount, sgl);
      Performs(s, Some(GasOf(s).(reservoir := 0, left := WSub(gl, rem), spilled := WAdd(GasOf(s).spilled, rem))),
        Eval(c, 5, s, SpillPays))
  {
    var rem := WSub(amount, sgl);
    var s' := s.(locals := s.locals["rem" := rem]);
    EvalBinary(c, s, Sub, Var(Local, "amount"), Var(Local, "sgl"));
    SpillStores(c, s', gl, rem);
    DecPerforms(c, 5, s, "rem", SpillPays.value, rem, SpillPays.body,
      Some(GasOf(s).(reservoir := 0, left := WSub(gl, rem), spilled := WAdd(GasOf(s).spilled, rem))));
  }

  lemma SpillStores(c: Program, s: State, gl: Word, rem: Word)
    requires HasFrame(s) && GasOf(s).left == gl
    requires Lookup(s.locals, "gl") == Some(gl) && Lookup(s.locals, "rem") == Some(rem)
    ensures Leaves(s, Eval(c, 4, s, SpillPays.body),
      GasOf(s).(reservoir := 0, left := WSub(gl, rem), spilled := WAdd(GasOf(s).spilled, rem)))
  {
    hide Eval, Leaves;
    var g, s1 := GasOf(s), SetCell(s, EV_STATE_GAS_LEFT, 0);
    SetCellSetsGas(s, EV_STATE_GAS_LEFT, 0);
    BorrowStores(c, s1, gl, rem);
    FrameStore(c, 4, s, EV_STATE_GAS_LEFT, Const(0), 0, Borrow,
      GasOf(s1).(left := WSub(gl, rem), spilled := WAdd(g.spilled, rem)));
  }

  lemma BorrowStores(c: Program, s: State, gl: Word, rem: Word)
    requires HasFrame(s) && GasOf(s).left == gl
    requires Lookup(s.locals, "gl") == Some(gl) && Lookup(s.locals, "rem") == Some(rem)
    ensures var g := GasOf(s);
      Leaves(s, Eval(c, 3, s, Borrow), g.(left := WSub(gl, rem), spilled := WAdd(g.spilled, rem)))
  {
    hide Eval, Leaves;
    var s1 := SetCell(s, EV_GAS_LEFT, WSub(gl, rem));
    SetCellSetsGas(s, EV_GAS_LEFT, WSub(gl, rem));
    var s2 := SetCell(s1, EV_STATE_GAS_SPILLED, WAdd(GasOf(s1).spilled, rem));
    SetCellSetsGas(s1, EV_STATE_GAS_SPILLED, WAdd(GasOf(s1).spilled, rem));
    ReturnsZero(c, 1, s2);
    FrameAdd(c, 2, s1, EV_STATE_GAS_SPILLED, Var(Local, "rem"), rem, ReturnZero, GasOf(s2));
    EvalBinary(c, s, Sub, Var(Local, "gl"), Var(Local, "rem"));
    FrameStore(c, 3, s, EV_GAS_LEFT, Op(Sub, [Var(Local, "gl"), Var(Local, "rem")]), WSub(gl, rem), Borrow.second,
      GasOf(s2));
  }

  /** What the spill test does once the two counters' saturated sum is known. */
  lemma SpillTest(c: Program, s: State, sgl: Word, gl: Word, amount: Word)
    requires HasFrame(s) && GasOf(s).reservoir == sgl && GasOf(s).left == gl && sgl < amount
    requires "EvmErr" in c.exceptions
    requires Lookup(s.locals, "sgl") == Some(sgl) && Lookup(s.locals, "gl") == Some(gl)
    requires Lookup(s.locals, "amount") == Some(amount) && Lookup(s.locals, "tot") == Some(AddSat(sgl, gl))
    ensures Performs(s, Apply(GasOf(s), ChargeStateGas(amount)), Eval(c, 7, s, SpillBlock))
  {
    hide Eval, EvalExp, AddSat, GasBecomes;
    var cond := Cmp(NotLower, Var(Local, "tot"), Var(Local, "amount"));
    CmpLocals(c, s, NotLower, "tot", "amount", AddSat(sgl, gl), amount);
    assert SpillBlock == Seq(Ite(cond, SpillPays, Skip), Seq(OutOfGas, ReturnZero));
    if AddSat(sgl, gl) >= amount {
      SpillPaysRuns(c, s, sgl, gl, amount);
      SpillCovers(GasOf(s), amount);
      GuardLeaves(c, 7, s, cond, SpillPays, Seq(OutOfGas, ReturnZero));
    } else {
      RaisesThenStops(c, 6, s);
      SpillFails(GasOf(s), amount);
      GuardFallsThrough(c, 7, s, cond, SpillPays, Seq(OutOfGas, ReturnZero));
    }
  }

  lemma RaisesThenStops(c: Program, fuel: nat, s: State)
    requires fuel > 1 && HasFrame(s) && "EvmErr" in c.exceptions
    ensures RunsOut(s, Eval(c, fuel, s, Seq(OutOfGas, ReturnZero)))
  {
    RaisesOutOfGas(c, fuel - 1, s);
  }

  lemma SpillCovers(g: Gas, amount: Word)
    requires g.reservoir < amount <= AddSat(g.reservoir, g.left)
    ensures var rem := WSub(amount, g.reservoir);
      Apply(g, ChargeStateGas(amount)) ==
        Some(g.(reservoir := 0, left := WSub(g.left, rem), spilled := WAdd(g.spilled, rem)))
  {}

  lemma SpillFails(g: Gas, amount: Word)
    requires g.reservoir < amount && AddSat(g.reservoir, g.left) < amount
    ensures Apply(g, ChargeStateGas(amount)) == None
  {}

  /** The `add_sat` call, and the block that follows it. */
  lemma SpillCall(c: Program, s: State, sgl: Word, gl: Word, amount: Word)
    requires HasFrame(s) && GasOf(s).reservoir == sgl && GasOf(s).left == gl && sgl < amount
    requires "EvmErr" in c.exceptions && FindFunction(c.functions, "add_sat") == Some(AddSatFunction)
    requires Lookup(s.locals, "sgl") == Some(sgl) && Lookup(s.locals, "gl") == Some(gl)
    requires Lookup(s.locals, "amount") == Some(amount)
    ensures Performs(s, Apply(GasOf(s), ChargeStateGas(amount)),
      Eval(c, 8, s, DecCall("tot", "add_sat", [Var(Local, "sgl"), Var(Local, "gl")], SpillBlock)))
  {
    hide Eval, Performs, Apply, AddSat;
    var args := [Var(Local, "sgl"), Var(Local, "gl")];
    CallPerforms(c, s, "tot", AddSatFunction, args, sgl, gl, AddSat(sgl, gl), SpillBlock,
      Apply(GasOf(s), ChargeStateGas(amount))) by {
      EvalTwo(c, s, args);
      AddSatBody(c, 6, s.(locals := Bind(["a", "b"], [sgl, gl])), sgl, gl);
      SpillTest(c, s.(locals := s.locals["tot" := AddSat(sgl, gl)]), sgl, gl, amount);
    }
  }

  lemma ChargeStateGasPerforms(c: Program, s: State, amount: Word)
    requires HasFrame(s) && "EvmErr" in c.exceptions && FindFunction(c.functions, "add_sat") == Some(AddSatFunction)
    requires Lookup(s.locals, "amount") == Some(amount)
    ensures Performs(s, Apply(GasOf(s), ChargeStateGas(amount)), Eval(c, 11, s, ChargeStateGasFunction.body))
  {
    var sgl := GasOf(s).reservoir;
    EvValue(c, s, EV_STATE_GAS_LEFT);
    GasLeftLoaded(c, s.(locals := s.locals["sgl" := sgl]), sgl, amount);
    DecPerforms(c, 11, s, "sgl", Load(Ev(EV_STATE_GAS_LEFT)), sgl, ChargeStateGasFunction.body.body,
      Apply(GasOf(s), ChargeStateGas(amount)));
  }

  lemma GasLeftLoaded(c: Program, s: State, sgl: Word, amount: Word)
    requires HasFrame(s) && GasOf(s).reservoir == sgl
    requires "EvmErr" in c.exceptions && FindFunction(c.functions, "add_sat") == Some(AddSatFunction)
    requires Lookup(s.locals, "sgl") == Some(sgl) && Lookup(s.locals, "amount") == Some(amount)
    ensures Performs(s, Apply(GasOf(s), ChargeStateGas(amount)), Eval(c, 10, s, ChargeStateGasFunction.body.body))
  {
    var gl := GasOf(s).left;
    EvValue(c, s, EV_GAS_LEFT);
    ReservoirGuard(c, s.(locals := s.locals["gl" := gl]), sgl, gl, amount);
    DecPerforms(c, 10, s, "gl", Load(Ev(EV_GAS_LEFT)), gl, ChargeStateGasFunction.body.body.body,
      Apply(GasOf(s), ChargeStateGas(amount)));
  }

  lemma CmpLocals(c: Program, s: State, cmp: CmpOp, x: string, y: string, a: Word, b: Word)
    requires Lookup(s.locals, x) == Some(a) && Lookup(s.locals, y) == Some(b)
    ensures EvalExp(c, s, Cmp(cmp, Var(Local, x), Var(Local, y))) == Some(CmpWords(cmp, a, b))
  {}

  lemma ReservoirGuard(c: Program, s: State, sgl: Word, gl: Word, amount: Word)
    requires HasFrame(s) && GasOf(s).reservoir == sgl && GasOf(s).left == gl
    requires "EvmErr" in c.exceptions && FindFunction(c.functions, "add_sat") == Some(AddSatFunction)
    requires Lookup(s.locals, "sgl") == Some(sgl) && Lookup(s.locals, "gl") == Some(gl)
    requires Lookup(s.locals, "amount") == Some(amount)
    ensures Performs(s, Apply(GasOf(s), ChargeStateGas(amount)), Eval(c, 9, s, ChargeStateGasFunction.body.body.body))
  {
    hide Eval, EvalExp, EvalExps, AddSat, GasBecomes;
    var cond := Cmp(NotLower, Var(Local, "sgl"), Var(Local, "amount"));
    var spill := DecCall("tot", "add_sat", [Var(Local, "sgl"), Var(Local, "gl")], SpillBlock);
    CmpLocals(c, s, NotLower, "sgl", "amount", sgl, amount);
    assert ChargeStateGasFunction.body.body.body == Seq(Ite(cond, ReservoirPays, Skip), spill);
    if sgl >= amount {
      ReservoirPaysRuns(c, 7, s, sgl, amount);
      GuardLeaves(c, 9, s, cond, ReservoirPays, spill);
    } else {
      SpillCall(c, s, sgl, gl, amount);
      GuardFallsThrough(c, 9, s, cond, ReservoirPays, spill);
    }
  }

  // ----- credit_state_gas_refund -----

  lemma MinBody(c: Program, s: State, a: Word, b: Word)
    requires Lookup(s.locals, "a") == Some(a) && Lookup(s.locals, "b") == Some(b)
    ensures var run := Eval(c, 6, s, MinFunction.body);
      run.Some? && run.value.result == Returned(s.(locals := map[]), MinWord(a, b))
  {
    var cond := Cmp(Lower, Var(Local, "a"), Var(Local, "b"));
    assert EvalExp(c, s, cond) == Some(if a < b then 1 else 0);
    if a < b {
      assert Eval(c, 4, s, Return(Var(Local, "a"))).value.result == Returned(s.(locals := map[]), a);
      GuardLeaves(c, 6, s, cond, Return(Var(Local, "a")), Return(Var(Local, "b")));
    } else {
      assert Eval(c, 5, s, Return(Var(Local, "b"))).value.result == Returned(s.(locals := map[]), b);
      GuardFallsThrough(c, 6, s, cond, Return(Var(Local, "a")), Return(Var(Local, "b")));
    }
  }

  lemma RepayStores(c: Program, s: State, amount: Word, fromLeft: Word)
    requires HasFrame(s) && fromLeft == MinWord(amount, GasOf(s).spilled)
    requires Lookup(s.locals, "spilled") == Some(GasOf(s).spilled) && Lookup(s.locals, "amount") == Some(amount)
    requires Lookup(s.locals, "from_gl") == Some(fromLeft)
    ensures Performs(s, Apply(GasOf(s), CreditStateGasRefund(amount)), Eval(c, 7, s, Repay))
  {
    hide Eval, Leaves;
    var g := GasOf(s);
    var s1 := SetCell(s, EV_GAS_LEFT, WAdd(g.left, fromLeft));
    SetCellSetsGas(s, EV_GAS_LEFT, WAdd(g.left, fromLeft));
    ReservoirStores(c, s1, g.spilled, amount, fromLeft);
    var after := Apply(g, CreditStateGasRefund(amount)).value;
    FrameAdd(c, 7, s, EV_GAS_LEFT, Var(Local, "from_gl"), fromLeft, Repay.second, after);
  }

  lemma ReservoirStores(c: Program, s: State, spilled: Word, amount: Word, fromLeft: Word)
    requires HasFrame(s) && GasOf(s).spilled == spilled
    requires Lookup(s.locals, "spilled") == Some(spilled) && Lookup(s.locals, "amount") == Some(amount)
    requires Lookup(s.locals, "from_gl") == Some(fromLeft)
    ensures var g := GasOf(s);
      Leaves(s, Eval(c, 6, s, Repay.second),
        g.(spilled := WSub(spilled, fromLeft), reservoir := WAdd(g.reservoir, WSub(amount, fromLeft))))
  {
    hide Eval, Leaves;
    var rest := Op(Sub, [Var(Local, "amount"), Var(Local, "from_gl")]);
    var s1 := SetCell(s, EV_STATE_GAS_SPILLED, WSub(spilled, fromLeft));
    SetCellSetsGas(s, EV_STATE_GAS_SPILLED, WSub(spilled, fromLeft));
    var s2 := SetCell(s1, EV_STATE_GAS_LEFT, WAdd(GasOf(s1).reservoir, WSub(amount, fromLeft)));
    SetCellSetsGas(s1, EV_STATE_GAS_LEFT, WAdd(GasOf(s1).reservoir, WSub(amount, fromLeft)));
    ReturnsZero(c, 4, s2);
    EvalBinary(c, s1, Sub, Var(Local, "amount"), Var(Local, "from_gl"));
    FrameAdd(c, 5, s1, EV_STATE_GAS_LEFT, rest, WSub(amount, fromLeft), ReturnZero, GasOf(s2));
    EvalBinary(c, s, Sub, Var(Local, "spilled"), Var(Local, "from_gl"));
    FrameStore(c, 6, s, EV_STATE_GAS_SPILLED, Op(Sub, [Var(Local, "spilled"), Var(Local, "from_gl")]),
      WSub(spilled, fromLeft), Repay.second.second, GasOf(s2));
  }

  lemma CreditCall(c: Program, s: State, amount: Word)
    requires HasFrame(s) && FindFunction(c.functions, "min") == Some(MinFunction)
    requires Lookup(s.locals, "amount") == Some(amount) && Lookup(s.locals, "spilled") == Some(GasOf(s).spilled)
    ensures Performs(s, Apply(GasOf(s), CreditStateGasRefund(amount)), Eval(c, 8, s, CreditFunction.body.body))
  {
    hide Performs, Apply, MinWord;
    var spilled := GasOf(s).spilled;
    var fromLeft := MinWord(amount, spilled);
    var args := [Var(Local, "amount"), Var(Local, "spilled")];
    EvalTwo(c, s, args);
    MinBody(c, s.(locals := Bind(["a", "b"], [amount, spilled])), amount, spilled);
    RepayStores(c, s.(locals := s.locals["from_gl" := fromLeft]), amount, fromLeft);
    CallPerforms(c, s, "from_gl", MinFunction, args, amount, spilled, fromLeft, Repay,
      Apply(GasOf(s), CreditStateGasRefund(amount)));
  }

  lemma CreditPerforms(c: Program, s: State, amount: Word)
    requires HasFrame(s) && FindFunction(c.functions, "min") == Some(MinFunction)
    requires Lookup(s.locals, "amount") == Some(amount)
    ensures Performs(s, Apply(GasOf(s), CreditStateGasRefund(amount)), Eval(c, 9, s, CreditFunction.body))
  {
    var spilled := GasOf(s).spilled;
    EvValue(c, s, EV_STATE_GAS_SPILLED);
    CreditCall(c, s.(locals := s.locals["spilled" := spilled]), amount);
    DecPerforms(c, 9, s, "spilled", Load(Ev(EV_STATE_GAS_SPILLED)), spilled, CreditFunction.body.body,
      Apply(GasOf(s), CreditStateGasRefund(amount)));
  }

  // ----- the three functions, at any fuel -----

  ghost predicate HasGasFunctions(c: Program) {
    && "EvmErr" in c.exceptions
    && FindFunction(c.functions, "add_sat") == Some(AddSatFunction)
    && FindFunction(c.functions, "min") == Some(MinFunction)
    && FindFunction(c.functions, "charge_gas") == Some(ChargeGasFunction)
    && FindFunction(c.functions, "charge_state_gas") == Some(ChargeStateGasFunction)
    && FindFunction(c.functions, "credit_state_gas_refund") == Some(CreditFunction)
  }

  function FunctionOf(op: GasOp): Function {
    match op
    case ChargeGas(_) => ChargeGasFunction
    case ChargeStateGas(_) => ChargeStateGasFunction
    case CreditStateGasRefund(_) => CreditFunction
  }

  /** Whatever the fuel, a complete run of a gas function does what the gas machine does, and
      11 units of fuel complete it. */
  lemma BodyRefinesMachine(c: Program, fuel: nat, s: State, op: GasOp)
    requires HasGasFunctions(c) && HasFrame(s) && Lookup(s.locals, "amount") == Some(op.amount)
    ensures var run := Eval(c, fuel, s, FunctionOf(op).body);
      (fuel >= 11 ==> run.Some?) && (run.Some? ==> Performs(s, Apply(GasOf(s), op), run))
  {
    var enough, body := if op.ChargeGas? then 5 else if op.ChargeStateGas? then 11 else 9, FunctionOf(op).body;
    match op {
      case ChargeGas(amount) => ChargeGasPerforms(c, s, amount);
      case ChargeStateGas(amount) => ChargeStateGasPerforms(c, s, amount);
      case CreditStateGasRefund(amount) => CreditPerforms(c, s, amount);
    }
    if fuel >= enough {
      Termination.FuelMonotone(c, enough, fuel, s, body);
    } else if Eval(c, fuel, s, body).Some? {
      Termination.FuelMonotone(c, fuel, enough, s, body);
    }
  }

  /** The frame holds the gas `total` says is left, and the meter reads `charged`. */
  ghost predicate Holds(s: State, total: int, charged: nat) {
    HasFrame(s) && GasOf(s).left + GasOf(s).reservoir == total && s.charged == charged
  }

  lemma ChargeTakesGas(c: Program, fuel: nat, s: State, op: GasOp)
    requires HasGasFunctions(c) && HasFrame(s) && Lookup(s.locals, "amount") == Some(op.amount)
      && !op.CreditStateGasRefund?
    ensures var run := Eval(c, fuel, s, FunctionOf(op).body);
      run.Some? && run.value.result.Returned? ==>
        Holds(run.value.result.state, GasOf(s).left + GasOf(s).reservoir - op.amount, s.charged)
  {
    hide Eval, HasGasFunctions, FunctionOf;
    BodyRefinesMachine(c, fuel, s, op);
  }

  /** What the meter counts is gas: a completed charging call lowers the two counters' sum
      by the amount the meter records. */
  lemma MeterCountsGas(c: Program, fuel: nat, s: State, fn: string, arg: Exp)
    requires HasGasFunctions(c) && HasFrame(s) && IsChargeName(fn)
    ensures var call := EvalCall(c, fuel, s, Assigned(None, None), fn, [arg]);
      call.Some? && call.value.result.Normal? ==>
        var t := call.value.result.state;
        HasFrame(t) && GasOf(t).left + GasOf(t).reservoir + t.charged == GasOf(s).left + GasOf(s).reservoir + s.charged
  {
    hide Eval, EvalExp, EvalExps, ExpCost, ExpsCost, FindFunction;
    var values := EvalExps(c, s, [arg]);
    if fuel > 0 && values.Some? {
      var op := if fn == "charge_gas" then ChargeGas(values.value[0]) else ChargeStateGas(values.value[0]);
      var callee := s.(locals := Bind(["amount"], values.value));
      ChargeTakesGas(c, fuel - 1, callee, op);
    }
  }
}
