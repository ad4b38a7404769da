/** The must-charge analysis is sound: a program it accepts, under facts the fixpoint loop
    can reach, has charged at least 1 gas or cleared its frame's running flag whenever a run
    of it falls through or returns, provided that it and the callees it is credited for are
    disciplined up to their charges. */
module Soundness {
  import opened Words
  import opened Pancake
  import opened OpcodeCensus
  import opened Discipline

  /** Between the two states gas was charged, or the running flag has been cleared. */
  predicate Paid(before: State, after: State) {
    after.charged > before.charged || after.ended
  }

  predicate NoLoss(before: State, after: State) {
    after.charged >= before.charged && (before.ended ==> after.ended)
  }

  ghost predicate RunNoLoss(s: State, run: Option<Run>) {
    run.Some? ==> NoLoss(s, run.value.result.state)
  }

  ghost predicate PaysOnReturn(s: State, run: Option<Run>) {
    run.Some? && run.value.result.Returned? ==> Paid(s, run.value.result.state)
  }

  ghost predicate PaysOnExit(s: State, run: Option<Run>) {
    PaysOnReturn(s, run) && (run.Some? && run.value.result.Normal? ==> Paid(s, run.value.result.state))
  }

  /** `add_sat` as the guest defines it. */
  const AddSatFunction: Function := Function("add_sat", ["a", "b"],
    Dec("s", Op(Add, [Var(Local, "a"), Var(Local, "b")]),
      Seq(
        Ite(Cmp(Lower, Var(Local, "s"), Var(Local, "a")), Return(Const(WORD_MAX)), Skip),
        Return(Var(Local, "s")))))

  predicate HasAddSat(c: Program) {
    FindFunction(c.functions, "add_sat") == Some(AddSatFunction)
  }

  predicate DistinctNames(fs: seq<Function>) {
    forall i, j :: 0 <= i < j < |fs| ==> fs[i].name != fs[j].name
  }

  /** A program whose callees are among `names`, disciplined up to its charge. */
  predicate Sound(names: set<string>, facts: Facts, pos: seq<string>, p: Prog) {
    Callees(p) <= names && Disciplined(facts, pos, map x | x in pos :: WORD_MAX, false, p)
  }

  /** Of the functions in `names`, those that a round newly accepts are disciplined. */
  ghost predicate RoundIsSound(c: Program, names: set<string>, facts: Facts) {
    forall f :: f in c.functions && f.name in names && f.name !in facts.known ==>
      && (Accepts(facts, f) ==> Sound(names, facts, [], f.body))
      && (AcceptsIfArg0(facts, f) && !Accepts(facts, f) && f.name !in facts.knownIfArg0 ==>
            f.params[0] !in f.params[1..] && Sound(names, facts, [f.params[0]], f.body))
  }

  /** The functions in `names` are disciplined in the round that first accepts them. */
  ghost predicate WellFormed(c: Program, names: set<string>, rounds: nat) {
    && DistinctNames(c.functions)
    && HasAddSat(c)
    && forall k: nat :: k < rounds ==> RoundIsSound(c, names, Iterate(c.functions, k))
  }

  // ----- what the facts mean -----

  ghost predicate BodyPays(c: Program, f: Function) {
    forall fuel: nat, s: State :: PaysOnReturn(s, Eval(c, fuel, s, f.body))
  }

  predicate IsPositiveLocal(x: string, s: State) {
    x in s.locals && s.locals[x] >= 1
  }

  ghost predicate BodyPaysIfPositive(c: Program, f: Function) {
    && f.params != [] && f.params[0] !in f.params[1..]
    && forall fuel: nat, s: State :: IsPositiveLocal(f.params[0], s) ==> PaysOnReturn(s, Eval(c, fuel, s, f.body))
  }

  ghost predicate FactsHold(c: Program, names: set<string>, facts: Facts) {
    forall f :: f in c.functions && f.name in names ==>
      && (f.name in facts.known ==> BodyPays(c, f))
      && (f.name in facts.knownIfArg0 ==> BodyPays(c, f) || BodyPaysIfPositive(c, f))
  }

  // ----- properties of every run -----

  /** The meter never runs backwards. */
  lemma {:induction false} RunsLoseNothing(c: Program, fuel: nat, s: State, p: Prog)
    ensures RunNoLoss(s, Eval(c, fuel, s, p))
    decreases fuel, 1
  {
    hide EvalExp, EvalExps, ExpCost, ExpsCost, EvalCall, FindFunction;
    if fuel > 0 {
      match p
      case Dec(x, v, b) =>
        var value := EvalExp(c, s, v);
        if value.Some? {
          RunsLoseNothing(c, fuel - 1, s.(locals := s.locals[x := value.value]), b);
        }
      case Seq(a, b) =>
        RunsLoseNothing(c, fuel - 1, s, a);
        var run := Eval(c, fuel - 1, s, a);
        if run.Some? && run.value.result.Normal? {
          RunsLoseNothing(c, fuel - 1, run.value.result.state, b);
        }
      case Ite(_, t, e) =>
        RunsLoseNothing(c, fuel - 1, s, t);
        RunsLoseNothing(c, fuel - 1, s, e);
      case While(_, b) =>
        RunsLoseNothing(c, fuel - 1, s, b);
        var run := Eval(c, fuel - 1, s, b);
        if run.Some? && (run.value.result.Normal? || run.value.result.Continued?) {
          RunsLoseNothing(c, fuel - 1, run.value.result.state, p);
        }
      case Call(info, fn, args) =>
        CallsLoseNothing(c, fuel - 1, s, info, fn, args);
      case DecCall(x, fn, args, b) =>
        CallsLoseNothing(c, fuel - 1, s, Tail, fn, args);
        var call := EvalCall(c, fuel - 1, s, Tail, fn, args);
        if call.Some? && call.value.result.Returned? {
          var s' := Resume(s, call.value.result.state);
          RunsLoseNothing(c, fuel - 1, s'.(locals := s'.locals[x := call.value.result.value]), b);
        }
      case _ =>
    }
  }

  lemma {:induction false} CallsLoseNothing(c: Program, fuel: nat, s: State, info: CallInfo, fn: string, args: seq<Exp>)
    ensures RunNoLoss(s, EvalCall(c, fuel, s, info, fn, args))
    decreases fuel, 0
  {
    hide Eval, EvalExps, FindFunction, Bind, ExpsCost;
    var values, f := EvalExps(c, s, args), FindFunction(c.functions, fn);
    if fuel > 0 && values.Some? && f.Some? && |f.value.params| == |values.value| {
      var callee := s.(locals := Bind(f.value.params, values.value));
      RunsLoseNothing(c, fuel - 1, callee, f.value.body);
      var run := Eval(c, fuel - 1, callee, f.value.body);
      if run.Some? && run.value.result.Raised? && info.Assigned? && info.handler.Some? {
        var h, s' := info.handler.value, Resume(s, run.value.result.state);
        RunsLoseNothing(c, fuel - 1, s'.(locals := s'.locals[h.variable := run.value.result.value]), h.body);
      }
    }
  }

  ghost predicate DoesNotReturn(run: Option<Run>) {
    run.Some? ==> !run.value.result.Returned?
  }

  /** A program without `return` and without tail calls never returns: nothing can leave it
      past a charge that is still ahead. */
  lemma {:induction false} NeverReturns(c: Program, fuel: nat, s: State, p: Prog)
    requires !ContainsReturn(p) && NoTailCall(p)
    ensures DoesNotReturn(Eval(c, fuel, s, p))
    decreases fuel
  {
    hide EvalExp, EvalExps, ExpCost, ExpsCost, FindFunction, Bind;
    if fuel > 0 {
      match p
      case Dec(x, v, b) =>
        var value := EvalExp(c, s, v);
        if value.Some? {
          NeverReturns(c, fuel - 1, s.(locals := s.locals[x := value.value]), b);
        }
      case Seq(a, b) =>
        NeverReturns(c, fuel - 1, s, a);
        var run := Eval(c, fuel - 1, s, a);
        if run.Some? && run.value.result.Normal? {
          NeverReturns(c, fuel - 1, run.value.result.state, b);
        }
      case Ite(_, t, e) =>
        NeverReturns(c, fuel - 1, s, t);
        NeverReturns(c, fuel - 1, s, e);
      case While(_, b) =>
        NeverReturns(c, fuel - 1, s, b);
        var run := Eval(c, fuel - 1, s, b);
        if run.Some? && (run.value.result.Normal? || run.value.result.Continued?) {
          NeverReturns(c, fuel - 1, run.value.result.state, p);
        }
      case DecCall(x, fn, args, b) =>
        var call := EvalCall(c, fuel - 1, s, Tail, fn, args);
        if call.Some? && call.value.result.Returned? {
          var s' := Resume(s, call.value.result.state);
          NeverReturns(c, fuel - 1, s'.(locals := s'.locals[x := call.value.result.value]), b);
        }
      case _ =>
    }
  }

  /** What a completed call to `add_sat` yields, from the body itself. */
  lemma AddSatCall(c: Program, fuel: nat, s: State, args: seq<Exp>)
    requires HasAddSat(c)
    ensures var call := EvalCall(c, fuel, s, Tail, "add_sat", args);
      call.Some? && call.value.result.Returned? ==>
        var values := EvalExps(c, s, args);
        values.Some? && |values.value| == 2 &&
        call.value.result.value == AddSat(values.value[0], values.value[1])
  {
    var call := EvalCall(c, fuel, s, Tail, "add_sat", args);
    if call.Some? && call.value.result.Returned? {
      var v := EvalExps(c, s, args).value;
      var callee := s.(locals := Bind(["a", "b"], v));
      AddSatBody(c, fuel - 1, callee, v[0], v[1]);
    }
  }

  /** The body of `add_sat` returns the saturated sum and touches nothing but locals. */
  lemma AddSatBody(c: Program, fuel: nat, s: State, a: Word, b: Word)
    requires Lookup(s.locals, "a") == Some(a) && Lookup(s.locals, "b") == Some(b)
    ensures var run := Eval(c, fuel, s, AddSatFunction.body);
      && (run.Some? <==> fuel >= 4)
      && (run.Some? ==>
            && run.value.result.Returned? && run.value.result.value == AddSat(a, b)
            && run.value.result.state == s.(locals := run.value.result.state.locals))
  {
    if fuel > 0 {
      EvalBinary(c, s, Add, Var(Local, "a"), Var(Local, "b"));
      if fuel > 1 {
        AddSatTest(c, fuel - 1, s.(locals := s.locals["s" := WAdd(a, b)]), a, b);
      }
    }
  }

  lemma AddSatTest(c: Program, fuel: nat, s: State, a: Word, b: Word)
    requires Lookup(s.locals, "a") == Some(a) && Lookup(s.locals, "s") == Some(WAdd(a, b))
    ensures var run := Eval(c, fuel, s, AddSatFunction.body.body);
      && (run.Some? <==> fuel >= 3)
      && (run.Some? ==> run.value.result == Returned(s.(locals := map[]), AddSat(a, b)))
  {
    if fuel > 1 {
      var test := AddSatFunction.body.body.first;
      assert EvalExp(c, s, test.cond) == Some(if WAdd(a, b) < a then 1 else 0);
      var first := Eval(c, fuel - 1, s, test);
      if fuel == 2 {
        assert first == None;
      } else {
        assert Eval(c, fuel - 2, s, test.thenBranch).value.result == Returned(s.(locals := map[]), WORD_MAX);
        assert Eval(c, fuel - 2, s, test.elseBranch).value.result == Normal(s);
        assert Eval(c, fuel - 1, s, AddSatFunction.body.body.second).value.result ==
          Returned(s.(locals := map[]), WAdd(a, b));
      }
    }
  }

  // ----- calls -----

  /** A saturating sum with a positive summand is positive, carry or no carry. */
  lemma BindingIsPositive(c: Program, fuel: nat, s: State, caps: Caps, fn: string, args: seq<Exp>)
    requires HasAddSat(c)
    requires Within(caps, s)
    ensures var call := EvalCall(c, fuel, s, Tail, fn, args);
      BindingCap(caps, fn, args).Some? && call.Some? && call.value.result.Returned? ==> call.value.result.value >= 1
  {
    if BindingCap(caps, fn, args).Some? {
      AddSatCall(c, fuel, s, args);
      var i :| 0 <= i < |args| && CapOf(caps, args[i]).Some?;
      CapBounds(c, s, caps, args[i]);
    }
  }

  lemma {:induction false} BindFirst(params: seq<string>, values: seq<Word>)
    requires |params| == |values| > 0 && params[0] !in params[1..]
    ensures params[0] in Bind(params, values) && Bind(params, values)[params[0]] == values[0]
    decreases |params|
  {
    var last := |params| - 1;
    if last > 0 {
      assert params[last] in params[1..];
      assert forall x :: x in params[..last][1..] ==> x in params[1..];
      BindFirst(params[..last], values[..last]);
    }
  }

  /** The body a credited call runs pays, unless the call is itself a positive charge. */
  lemma CreditedBodyPays(c: Program, names: set<string>, facts: Facts, fuel: nat, s: State, pos: seq<string>,
                         caps: Caps, f: Function, args: seq<Exp>, values: seq<Word>)
    requires FactsHold(c, names, facts) && f.name in names
    requires Within(caps, s) && Covers(caps, pos) && NoTrackedGlobals(pos, args)
    requires f in c.functions && EvalExps(c, s, args) == Some(values) && |f.params| == |values|
    requires ChargingCall(facts, pos, f.name, args) && !IsPositiveCharge(pos, f.name, args)
    ensures PaysOnReturn(s, Eval(c, fuel, s.(locals := Bind(f.params, values)), f.body))
  {
    hide Eval, EvalExp, ExpCost, ExpsCost, Bind;
    var callee := s.(locals := Bind(f.params, values));
    if !BodyPays(c, f) {
      CertainIsCapped(caps, pos, args[0]);
      CapBounds(c, s, caps, args[0]);
      BindFirst(f.params, values);
      assert IsPositiveLocal(f.params[0], callee);
      assert BodyPaysIfPositive(c, f);
    }
    assert PaysOnReturn(callee, Eval(c, fuel, callee, f.body));
  }

  /** A call site the analysis credits pays whenever the call completes. */
  lemma ChargingCallPays(c: Program, names: set<string>, facts: Facts, fuel: nat, s: State, pos: seq<string>,
                         caps: Caps, info: CallInfo, fn: string, args: seq<Exp>)
    requires FactsHold(c, names, facts) && fn in names
    requires Within(caps, s) && Covers(caps, pos) && NoTrackedGlobals(pos, args)
    requires info.Assigned? ==> info.handler.None?
    requires ChargingCall(facts, pos, fn, args)
    ensures PaysOnExit(s, EvalCall(c, fuel, s, info, fn, args))
  {
    hide Eval, EvalExp, ExpCost, ExpsCost, FactsHold, ChargingCall, Bind, CapOf;
    var values, f := EvalExps(c, s, args), FindFunction(c.functions, fn);
    if fuel > 0 && values.Some? && f.Some? && |f.value.params| == |values.value| {
      var callee := s.(locals := Bind(f.value.params, values.value));
      RunsLoseNothing(c, fuel - 1, callee, f.value.body);
      if IsPositiveCharge(pos, fn, args) {
        CertainIsCapped(caps, pos, args[0]);
        CapBounds(c, s, caps, args[0]);
      } else {
        CreditedBodyPays(c, names, facts, fuel - 1, s, pos, caps, f.value, args, values.value);
      }
    }
  }

  // ----- up to the charge -----

  ghost predicate PaidOrWithin(s: State, caps: Option<Caps>, t: State) {
    Paid(s, t) || (caps.Some? && Within(caps.value, t))
  }

  /** Where the run falls through it has paid or keeps the caps `after`; in a loop, leaving a
      pass early comes to the same. */
  ghost predicate Flows(s: State, steady: bool, caps: Caps, after: Option<Caps>, run: Option<Run>) {
    run.Some? ==>
      var r := run.value.result;
      && (r.Normal? ==> PaidOrWithin(s, after, r.state))
      && (steady && (r.Broke? || r.Continued?) ==> PaidOrWithin(s, Some(caps), r.state))
  }

  /** The premises of the two soundness lemmas. */
  ghost predicate Premises(c: Program, names: set<string>, facts: Facts, s: State, pos: seq<string>, caps: Caps,
                           steady: bool, p: Prog) {
    && HasAddSat(c)
    && FactsHold(c, names, facts) && Callees(p) <= names
    && Within(caps, s) && Covers(caps, pos) && Disciplined(facts, pos, caps, steady, p)
  }

  /** The run of a sequence from those of its halves. */
  function SeqRun(first: Option<Run>, rest: Option<Run>): Option<Run> {
    if first.None? then None
    else if first.value.result.Normal? then AddSteps(rest, first.value.steps + 1)
    else Some(Run(first.value.result, first.value.steps + 1))
  }

  predicate FallsThrough(run: Option<Run>) {
    run.Some? && run.value.result.Normal?
  }

  ghost predicate PaysOn(s: State, t: State, rest: Option<Run>) {
    RunNoLoss(t, rest) && (Paid(s, t) || PaysOnExit(t, rest))
  }

  lemma PaysThrough(s: State, first: Option<Run>, rest: Option<Run>)
    requires RunNoLoss(s, first) && PaysOnReturn(s, first)
    requires FallsThrough(first) ==> PaysOn(s, first.value.result.state, rest)
    ensures PaysOnExit(s, SeqRun(first, rest))
  {}

  ghost predicate FlowsOn(s: State, steady: bool, caps: Caps, middle: Option<Caps>, after: Option<Caps>, t: State,
                          rest: Option<Run>) {
    !Paid(s, t) ==> middle.Some? && Flows(t, steady, middle.value, after, rest) && (steady ==> middle.value == caps)
  }

  lemma FlowsThrough(s: State, steady: bool, caps: Caps, middle: Option<Caps>, after: Option<Caps>, first: Option<Run>,
                     rest: Option<Run>)
    requires Flows(s, steady, caps, middle, first) && RunNoLoss(s, first)
    requires FallsThrough(first) ==>
      var t := first.value.result.state; RunNoLoss(t, rest) && FlowsOn(s, steady, caps, middle, after, t, rest)
    ensures Flows(s, steady, caps, after, SeqRun(first, rest))
  {
    hide Within;
  }

  /** Every run of a disciplined program, up to its charge: where it falls through it has
      paid, or what is tracked is still positive and under its caps. */
  lemma {:induction false} DisciplineHolds(c: Program, names: set<string>, facts: Facts, fuel: nat, s: State,
                                           pos: seq<string>, caps: Caps, steady: bool, p: Prog)
    requires Premises(c, names, facts, s, pos, caps, steady, p)
    ensures Flows(s, steady, caps, After(facts, pos, caps, steady, p), Eval(c, fuel, s, p))
    decreases fuel, 2
  {
    hide EvalExp, EvalExps, ExpCost, ExpsCost, EvalCall, HasAddSat, CapOf, BindingCap, FactsHold, RestoreLocal;
    if fuel > 0 {
      if MustCharge(facts, pos, p) {
        MustChargeSound(c, names, facts, fuel, s, pos, caps, steady, p);
      }
      match p
      case Assign(Local, x, v) =>
        AssignFlows(c, facts, fuel, s, pos, caps, steady, x, v);
      case Call(info, fn, args) =>
        CallFlows(c, facts, fuel, s, pos, caps, steady, info, fn, args);
      case Seq(a, b) =>
        SeqFlows(c, names, facts, fuel, s, pos, caps, steady, a, b);
      case Ite(cond, t, e) =>
        IteFlows(c, names, facts, fuel, s, pos, caps, steady, cond, t, e);
      case While(cond, b) =>
        WhileFlows(c, names, facts, fuel, s, pos, caps, steady, cond, b);
      case Dec(x, v, b) =>
        DecFlows(c, names, facts, fuel, s, pos, caps, steady, x, v, b);
      case DecCall(x, fn, args, b) =>
        DecCallFlows(c, names, facts, fuel, s, pos, caps, steady, x, fn, args, b);
      case _ =>
    }
  }

  lemma AssignFlows(c: Program, facts: Facts, fuel: nat, s: State, pos: seq<string>, caps: Caps, steady: bool,
                    x: string, v: Exp)
    requires fuel > 0 && Within(caps, s) && Disciplined(facts, pos, caps, steady, Assign(Local, x, v))
    ensures var p := Assign(Local, x, v);
      Flows(s, steady, caps, After(facts, pos, caps, steady, p), Eval(c, fuel, s, p))
  {
    if CapOf(caps, v).Some? {
      CapBounds(c, s, caps, v);
    }
    hide EvalExp, ExpCost, CapOf;
  }

  lemma CallFlows(c: Program, facts: Facts, fuel: nat, s: State, pos: seq<string>, caps: Caps, steady: bool,
                  info: CallInfo, fn: string, args: seq<Exp>)
    requires fuel > 0 && Within(caps, s) && Disciplined(facts, pos, caps, steady, Call(info, fn, args))
    requires MustCharge(facts, pos, Call(info, fn, args)) ==> PaysOnExit(s, Eval(c, fuel, s, Call(info, fn, args)))
    ensures var p := Call(info, fn, args);
      Flows(s, steady, caps, After(facts, pos, caps, steady, p), Eval(c, fuel, s, p))
  {
    hide EvalExp, EvalExps, ExpCost, ExpsCost, FindFunction, Bind, NoTrackedGlobals, ChargingCall, MeterCall;
  }

  lemma SeqParts(c: Program, names: set<string>, facts: Facts, s: State, pos: seq<string>, caps: Caps, steady: bool,
                 a: Prog, b: Prog)
    requires Premises(c, names, facts, s, pos, caps, steady, Seq(a, b))
    ensures Premises(c, names, facts, s, pos, caps, steady, a)
  {
    hide Within, FactsHold, FindFunction, Covers;
  }

  /** Where the first half has fallen through unpaid, the premises hold of the second. */
  lemma SeqRest(c: Program, names: set<string>, facts: Facts, s: State, pos: seq<string>, caps: Caps, steady: bool,
                a: Prog, b: Prog, run: Option<Run>)
    requires Premises(c, names, facts, s, pos, caps, steady, Seq(a, b))
    requires Flows(s, steady, caps, After(facts, pos, caps, steady, a), run) && FallsThrough(run)
    ensures var middle := After(facts, pos, caps, steady, a);
      Paid(s, run.value.result.state)
      || (middle.Some? && (steady ==> middle.value == caps)
          && Premises(c, names, facts, run.value.result.state, pos, middle.value, steady, b))
  {
    hide Within, FactsHold, FindFunction, Covers;
    AfterCovers(facts, pos, caps, steady, a);
  }

  lemma SeqAfter(facts: Facts, s: State, pos: seq<string>, caps: Caps, steady: bool, a: Prog, b: Prog, run: Option<Run>)
    requires MustCharge(facts, pos, Seq(a, b)) ==> PaysOnExit(s, run)
    requires var middle := After(facts, pos, caps, steady, a);
      Flows(s, steady, caps, if middle.Some? then After(facts, pos, middle.value, steady, b) else None, run)
    ensures Flows(s, steady, caps, After(facts, pos, caps, steady, Seq(a, b)), run)
  {
    hide Within, Paid;
  }

  function RestRun(c: Program, fuel: nat, first: Option<Run>, b: Prog): Option<Run> {
    if FallsThrough(first) then Eval(c, fuel, first.value.result.state, b) else None
  }

  lemma SeqRuns(c: Program, fuel: nat, s: State, a: Prog, b: Prog)
    requires fuel > 0
    ensures var first := Eval(c, fuel - 1, s, a);
      Eval(c, fuel, s, Seq(a, b)) == SeqRun(first, RestRun(c, fuel - 1, first, b))
  {}

  lemma UnpaidAfter(facts: Facts, pos: seq<string>, caps: Caps, p: Prog)
    ensures After(facts, pos, caps, true, p) == None || After(facts, pos, caps, true, p) == Some(caps)
  {}

  lemma {:induction false} SeqFlows(c: Program, names: set<string>, facts: Facts, fuel: nat, s: State, pos: seq<string>,
                                    caps: Caps, steady: bool, a: Prog, b: Prog)
    requires fuel > 0 && Premises(c, names, facts, s, pos, caps, steady, Seq(a, b))
    requires MustCharge(facts, pos, Seq(a, b)) ==> PaysOnExit(s, Eval(c, fuel, s, Seq(a, b)))
    ensures var p := Seq(a, b); Flows(s, steady, caps, After(facts, pos, caps, steady, p), Eval(c, fuel, s, p))
    decreases fuel, 0
  {
    hide Eval, Premises, Flows, RunNoLoss, PaysOnExit, SeqRun, Paid, After, MustCharge;
    SeqParts(c, names, facts, s, pos, caps, steady, a, b);
    SeqRuns(c, fuel, s, a, b);
    var n: nat := fuel - 1;
    DisciplineHolds(c, names, facts, n, s, pos, caps, steady, a);
    RunsLoseNothing(c, n, s, a);
    var run, middle := Eval(c, n, s, a), After(facts, pos, caps, steady, a);
    var after := if middle.Some? then After(facts, pos, middle.value, steady, b) else None;
    if FallsThrough(run) {
      var t := run.value.result.state;
      RunsLoseNothing(c, n, t, b);
      SeqRest(c, names, facts, s, pos, caps, steady, a, b, run);
      if !Paid(s, t) {
        DisciplineHolds(c, names, facts, n, t, pos, middle.value, steady, b);
      }
    }
    FlowsThrough(s, steady, caps, middle, after, run, RestRun(c, n, run, b));
    SeqAfter(facts, s, pos, caps, steady, a, b, Eval(c, fuel, s, Seq(a, b)));
  }

  lemma IteParts(c: Program, names: set<string>, facts: Facts, s: State, pos: seq<string>, caps: Caps, steady: bool,
                 cond: Exp, t: Prog, e: Prog)
    requires Premises(c, names, facts, s, pos, caps, steady, Ite(cond, t, e))
    ensures Premises(c, names, facts, s, pos, caps, steady, t) && Premises(c, names, facts, s, pos, caps, steady, e)
  {
    hide Within, FactsHold, FindFunction, Covers;
  }

  predicate SameResult(run: Option<Run>, inner: Option<Run>) {
    run.Some? && inner.Some? && run.value.result == inner.value.result
  }

  lemma IteRuns(c: Program, fuel: nat, s: State, cond: Exp, t: Prog, e: Prog)
    requires fuel > 0
    ensures var run := Eval(c, fuel, s, Ite(cond, t, e));
      run == None || SameResult(run, Eval(c, fuel - 1, s, t)) || SameResult(run, Eval(c, fuel - 1, s, e))
  {
    hide EvalExp, ExpCost;
  }

  /** Whichever branch was run, what the two leave in common still holds. */
  lemma IteAfter(facts: Facts, s: State, pos: seq<string>, caps: Caps, steady: bool, cond: Exp, t: Prog, e: Prog,
                 thenRun: Option<Run>, elseRun: Option<Run>, run: Option<Run>)
    requires Flows(s, steady, caps, After(facts, pos, caps, steady, t), thenRun)
    requires Flows(s, steady, caps, After(facts, pos, caps, steady, e), elseRun)
    requires run == None || SameResult(run, thenRun) || SameResult(run, elseRun)
    ensures Flows(s, steady, caps, After(facts, pos, caps, steady, Ite(cond, t, e)), run)
  {
    UnpaidAfter(facts, pos, caps, t);
    UnpaidAfter(facts, pos, caps, e);
    hide Within, Paid, Join;
    var thenAfter, elseAfter := After(facts, pos, caps, steady, t), After(facts, pos, caps, steady, e);
    if run.Some? && thenAfter.Some? && elseAfter.Some? {
      JoinKeeps(thenAfter.value, elseAfter.value, run.value.result.state);
    }
  }

  lemma {:induction false} IteFlows(c: Program, names: set<string>, facts: Facts, fuel: nat, s: State, pos: seq<string>,
                                    caps: Caps, steady: bool, cond: Exp, t: Prog, e: Prog)
    requires fuel > 0 && Premises(c, names, facts, s, pos, caps, steady, Ite(cond, t, e))
    ensures var p := Ite(cond, t, e); Flows(s, steady, caps, After(facts, pos, caps, steady, p), Eval(c, fuel, s, p))
    decreases fuel, 0
  {
    hide Eval, Premises, Flows, After, SameResult;
    var n: nat := fuel - 1;
    IteParts(c, names, facts, s, pos, caps, steady, cond, t, e);
    IteRuns(c, fuel, s, cond, t, e);
    DisciplineHolds(c, names, facts, n, s, pos, caps, steady, t);
    DisciplineHolds(c, names, facts, n, s, pos, caps, steady, e);
    IteAfter(facts, s, pos, caps, steady, cond, t, e, Eval(c, n, s, t), Eval(c, n, s, e),
      Eval(c, fuel, s, Ite(cond, t, e)));
  }

  lemma JoinKeeps(a: Caps, b: Caps, s: State)
    ensures Within(a, s) || Within(b, s) ==> Within(Join(a, b), s)
  {}

  /** Whether a pass of a loop leads to its test again. */
  predicate NextPass(pass: Option<Run>) {
    pass.Some? && (pass.value.result.Normal? || pass.value.result.Continued?)
  }

  predicate LeavesLoop(pass: Option<Run>, run: Option<Run>) {
    && pass.Some? && run.Some? && !NextPass(pass)
    && run.value.result == if pass.value.result.Broke? then Normal(pass.value.result.state) else pass.value.result
  }

  lemma WhileRuns(c: Program, fuel: nat, s: State, cond: Exp, b: Prog)
    requires fuel > 0
    ensures var run, pass := Eval(c, fuel, s, While(cond, b)), Eval(c, fuel - 1, s, b);
      || run == None
      || run.value.result == Normal(s)
      || LeavesLoop(pass, run)
      || (NextPass(pass) && SameResult(run, Eval(c, fuel - 1, pass.value.result.state, While(cond, b))))
  {
    hide EvalExp, EvalExps, ExpCost, ExpsCost, EvalCall;
  }

  lemma WhileParts(c: Program, names: set<string>, facts: Facts, s: State, pos: seq<string>, caps: Caps, steady: bool,
                   cond: Exp, b: Prog)
    requires Premises(c, names, facts, s, pos, caps, steady, While(cond, b))
    ensures Premises(c, names, facts, s, pos, caps, true, b) && Within(caps, s)
  {
    hide Within, FactsHold, FindFunction, Covers;
  }

  /** Where a pass has led to the test again unpaid, the premises still hold. */
  lemma WhileNext(c: Program, names: set<string>, facts: Facts, s: State, pos: seq<string>, caps: Caps, steady: bool,
                  cond: Exp, b: Prog, pass: Option<Run>)
    requires Premises(c, names, facts, s, pos, caps, steady, While(cond, b)) && NextPass(pass)
    requires Flows(s, true, caps, After(facts, pos, caps, true, b), pass)
    ensures var t := pass.value.result.state;
      Paid(s, t) || Premises(c, names, facts, t, pos, caps, steady, While(cond, b))
  {
    hide Within, FactsHold, FindFunction, Covers;
    UnpaidAfter(facts, pos, caps, b);
  }

  lemma PassFlows(s: State, steady: bool, caps: Caps, after: Option<Caps>, pass: Option<Run>, run: Option<Run>)
    requires Within(caps, s) && Flows(s, true, caps, after, pass) && (after == None || after == Some(caps))
    requires run == None || run.value.result == Normal(s) || LeavesLoop(pass, run)
    ensures Flows(s, steady, caps, Some(caps), run)
  {
    hide Within;
  }

  lemma NextFlows(s: State, t: State, steady: bool, caps: Caps, next: Option<Run>, run: Option<Run>)
    requires NoLoss(s, t) && RunNoLoss(t, next) && SameResult(run, next)
    requires Paid(s, t) || Flows(t, steady, caps, Some(caps), next)
    ensures Flows(s, steady, caps, Some(caps), run)
  {
    hide Within;
  }

  lemma {:induction false} WhileFlows(c: Program, names: set<string>, facts: Facts, fuel: nat, s: State,
                                      pos: seq<string>, caps: Caps, steady: bool, cond: Exp, b: Prog)
    requires fuel > 0 && Premises(c, names, facts, s, pos, caps, steady, While(cond, b))
    ensures Flows(s, steady, caps, Some(caps), Eval(c, fuel, s, While(cond, b)))
    decreases fuel, 0
  {
    hide Eval, Premises, Flows, Paid, Within, LeavesLoop, SameResult, NoLoss;
    var n: nat := fuel - 1;
    var run, pass := Eval(c, fuel, s, While(cond, b)), Eval(c, n, s, b);
    WhileRuns(c, fuel, s, cond, b);
    WhileParts(c, names, facts, s, pos, caps, steady, cond, b);
    DisciplineHolds(c, names, facts, n, s, pos, caps, true, b);
    if NextPass(pass) && SameResult(run, Eval(c, n, pass.value.result.state, While(cond, b))) {
      var t := pass.value.result.state;
      RunsLoseNothing(c, n, s, b);
      RunsLoseNothing(c, n, t, While(cond, b));
      WhileNext(c, names, facts, s, pos, caps, steady, cond, b, pass);
      if !Paid(s, t) {
        DisciplineHolds(c, names, facts, n, t, pos, caps, steady, While(cond, b));
      }
      NextFlows(s, t, steady, caps, Eval(c, n, t, While(cond, b)), run);
    } else {
      UnpaidAfter(facts, pos, caps, b);
      PassFlows(s, steady, caps, After(facts, pos, caps, true, b), pass, run);
    }
  }

  // ----- blocks -----

  /** The state in which a block's body starts, its binding made. */
  function Entry(s: State, t: State, x: string, v: Word): State {
    var resumed := Resume(s, t);
    resumed.(locals := resumed.locals[x := v])
  }

  /** What the run of a block makes of that of its body. */
  predicate BlockRun(s: State, x: string, inner: Option<Run>, run: Option<Run>) {
    run.Some? ==> inner.Some? && run.value.result == RestoreLocal(x, Lookup(s.locals, x), inner.value.result)
  }

  /** The body of a block is to be run from `Entry(s, t, x, v)`, with `cap` bounding the new
      binding, and the analysis and the discipline of the block are those of its body. */
  ghost predicate Enters(c: Program, names: set<string>, facts: Facts, s: State, t: State, v: Word, pos: seq<string>,
                         pos': seq<string>, caps: Caps, cap: Option<Word>, steady: bool, x: string, b: Prog, p: Prog) {
    && NoLoss(s, t) && Within(caps, s)
    && Premises(c, names, facts, Entry(s, t, x, v), pos', Bound(caps, x, cap), steady, b)
    && MustCharge(facts, pos, p) == MustCharge(facts, pos', b)
    && (!MustCharge(facts, pos, p) && !steady ==>
          After(facts, pos, caps, steady, p) ==
            Unshadowed(caps, x, After(facts, pos', Bound(caps, x, cap), steady, b)))
  }

  lemma RestoredWithin(s: State, r: Result, caps: Caps, x: string, inner: Caps)
    requires Within(caps, s) && Within(inner, r.state)
    ensures Within(Bound(inner, x, Lookup(caps, x)), RestoreLocal(x, Lookup(s.locals, x), r).state)
  {}

  lemma UnshadowedBound(caps: Caps, x: string, cap: Option<Word>)
    ensures Bound(Bound(caps, x, cap), x, Lookup(caps, x)) == caps
  {}

  /** Payment before or inside a block shows after it. */
  lemma BlockPays(s: State, t: State, x: string, v: Word, inner: Option<Run>, run: Option<Run>)
    requires NoLoss(s, t) && RunNoLoss(Entry(s, t, x, v), inner) && BlockRun(s, x, inner, run)
    ensures run.Some? && (Paid(s, t) || Paid(Entry(s, t, x, v), inner.value.result.state)) ==>
      Paid(s, run.value.result.state)
  {}

  /** A block's bindings come and go; payment stays. */
  lemma LeaveBlock(s: State, t: State, x: string, v: Word, steady: bool, caps: Caps, cap: Option<Word>,
                   after: Option<Caps>, inner: Option<Run>, run: Option<Run>)
    requires NoLoss(s, t) && Within(caps, s) && BlockRun(s, x, inner, run)
    requires var entry := Entry(s, t, x, v);
      RunNoLoss(entry, inner) && Flows(entry, steady, Bound(caps, x, cap), after, inner)
    ensures Flows(s, steady, caps, Unshadowed(caps, x, after), run)
  {
    hide Within, Paid, Bound, NoLoss, RestoreLocal, Entry;
    BlockPays(s, t, x, v, inner, run);
    if run.Some? {
      var r := inner.value.result;
      RestoredKind(x, Lookup(s.locals, x), r);
      if after.Some? && Within(after.value, r.state) {
        RestoredWithin(s, r, caps, x, after.value);
      }
      if Within(Bound(caps, x, cap), r.state) {
        RestoredWithin(s, r, caps, x, Bound(caps, x, cap));
        UnshadowedBound(caps, x, cap);
      }
    }
  }

  lemma RestoredKind(x: string, before: Option<Word>, r: Result)
    ensures var r' := RestoreLocal(x, before, r);
      (r'.Normal? <==> r.Normal?) && (r'.Broke? <==> r.Broke?) && (r'.Continued? <==> r.Continued?)
  {}

  /** What a block leaves is what its body leaves, with the shadowed binding back. */
  lemma AfterBlock(c: Program, names: set<string>, facts: Facts, s: State, t: State, v: Word, pos: seq<string>,
                   pos': seq<string>, caps: Caps, cap: Option<Word>, steady: bool, x: string, b: Prog, p: Prog,
                   run: Option<Run>)
    requires Enters(c, names, facts, s, t, v, pos, pos', caps, cap, steady, x, b, p)
    requires Flows(s, steady, caps, Unshadowed(caps, x, After(facts, pos', Bound(caps, x, cap), steady, b)), run)
    ensures Flows(s, steady, caps, After(facts, pos, caps, steady, p), run)
  {
    hide Within, Premises;
    UnshadowedBound(caps, x, cap);
  }

  lemma {:induction false} BlockFlows(c: Program, names: set<string>, facts: Facts, fuel: nat, s: State, t: State,
                                      v: Word,
                                      pos: seq<string>, pos': seq<string>, caps: Caps, cap: Option<Word>, steady: bool,
                                      x: string, b: Prog, p: Prog, run: Option<Run>)
    requires Enters(c, names, facts, s, t, v, pos, pos', caps, cap, steady, x, b, p)
    requires BlockRun(s, x, Eval(c, fuel, Entry(s, t, x, v), b), run)
    ensures Flows(s, steady, caps, After(facts, pos, caps, steady, p), run)
    decreases fuel, 3
  {
    hide Eval, Premises, Within, After, Flows, RunNoLoss, NoLoss, BlockRun, MustCharge, Entry, Bound, Unshadowed;
    var entry := Entry(s, t, x, v);
    DisciplineHolds(c, names, facts, fuel, entry, pos', Bound(caps, x, cap), steady, b);
    RunsLoseNothing(c, fuel, entry, b);
    LeaveBlock(s, t, x, v, steady, caps, cap, After(facts, pos', Bound(caps, x, cap), steady, b),
      Eval(c, fuel, entry, b), run);
    AfterBlock(c, names, facts, s, t, v, pos, pos', caps, cap, steady, x, b, p, run);
  }

  lemma {:induction false} BlockSound(c: Program, names: set<string>, facts: Facts, fuel: nat, s: State, t: State,
                                      v: Word,
                                      pos: seq<string>, pos': seq<string>, caps: Caps, cap: Option<Word>, steady: bool,
                                      x: string, b: Prog, p: Prog, run: Option<Run>)
    requires Enters(c, names, facts, s, t, v, pos, pos', caps, cap, steady, x, b, p) && MustCharge(facts, pos, p)
    requires BlockRun(s, x, Eval(c, fuel, Entry(s, t, x, v), b), run)
    ensures PaysOnExit(s, run)
    decreases fuel, 3
  {
    hide Eval, Premises, Within, After, RunNoLoss, NoLoss, MustCharge, Entry, Bound, Unshadowed, Paid;
    var entry := Entry(s, t, x, v);
    MustChargeSound(c, names, facts, fuel, entry, pos', Bound(caps, x, cap), steady, b);
    RunsLoseNothing(c, fuel, entry, b);
    BlockPays(s, t, x, v, Eval(c, fuel, entry, b), run);
  }

  lemma EnterDec(c: Program, names: set<string>, facts: Facts, s: State, pos: seq<string>, caps: Caps, steady: bool,
                 x: string, v: Exp, b: Prog)
    requires Premises(c, names, facts, s, pos, caps, steady, Dec(x, v, b)) && EvalExp(c, s, v).Some?
    ensures Enters(c, names, facts, s, s, EvalExp(c, s, v).value, pos, Track(pos, x, CertainlyPositive(pos, v)),
      caps, CapOf(caps, v), steady, x, b, Dec(x, v, b))
  {
    hide EvalExp, FactsHold, FindFunction;
    if CapOf(caps, v).Some? {
      CapBounds(c, s, caps, v);
    }
    if CertainlyPositive(pos, v) {
      CertainIsCapped(caps, pos, v);
    }
    hide CapOf;
    BlockCovers(caps, pos, x, CapOf(caps, v), CertainlyPositive(pos, v));
  }

  lemma BlockOfDec(c: Program, fuel: nat, s: State, x: string, v: Exp, b: Prog)
    requires fuel > 0
    ensures var run, value := Eval(c, fuel, s, Dec(x, v, b)), EvalExp(c, s, v);
      if value.None? then run == None else BlockRun(s, x, Eval(c, fuel - 1, Entry(s, s, x, value.value), b), run)
  {
    hide EvalExp, ExpCost;
  }

  lemma {:induction false} DecFlows(c: Program, names: set<string>, facts: Facts, fuel: nat, s: State, pos: seq<string>,
                                    caps: Caps, steady: bool, x: string, v: Exp, b: Prog)
    requires fuel > 0 && Premises(c, names, facts, s, pos, caps, steady, Dec(x, v, b))
    ensures var p := Dec(x, v, b); Flows(s, steady, caps, After(facts, pos, caps, steady, p), Eval(c, fuel, s, p))
    decreases fuel, 0
  {
    hide Eval, EvalExp, Premises, Enters, After, BlockRun, PaidOrWithin;
    BlockOfDec(c, fuel, s, x, v, b);
    if EvalExp(c, s, v).Some? {
      EnterDec(c, names, facts, s, pos, caps, steady, x, v, b);
      BlockFlows(c, names, facts, fuel - 1, s, s, EvalExp(c, s, v).value, pos, Track(pos, x, CertainlyPositive(pos, v)),
        caps, CapOf(caps, v), steady, x, b, Dec(x, v, b), Eval(c, fuel, s, Dec(x, v, b)));
    }
  }

  lemma {:induction false} DecSound(c: Program, names: set<string>, facts: Facts, fuel: nat, s: State, pos: seq<string>,
                                    caps: Caps, steady: bool, x: string, v: Exp, b: Prog)
    requires fuel > 0 && Premises(c, names, facts, s, pos, caps, steady, Dec(x, v, b))
    requires MustCharge(facts, pos, Dec(x, v, b))
    ensures PaysOnExit(s, Eval(c, fuel, s, Dec(x, v, b)))
    decreases fuel, 0
  {
    hide Eval, EvalExp, Premises, Enters, BlockRun, MustCharge, Paid;
    BlockOfDec(c, fuel, s, x, v, b);
    if EvalExp(c, s, v).Some? {
      EnterDec(c, names, facts, s, pos, caps, steady, x, v, b);
      BlockSound(c, names, facts, fuel - 1, s, s, EvalExp(c, s, v).value, pos, Track(pos, x, CertainlyPositive(pos, v)),
        caps, CapOf(caps, v), steady, x, b, Dec(x, v, b), Eval(c, fuel, s, Dec(x, v, b)));
    }
  }

  // ----- blocks that bind what a call returns -----

  predicate ReturnedTo(call: Option<Run>) {
    call.Some? && call.value.result.Returned?
  }

  lemma DecCallRuns(c: Program, fuel: nat, s: State, x: string, fn: string, args: seq<Exp>, b: Prog)
    requires fuel > 0
    ensures var call, run := EvalCall(c, fuel - 1, s, Tail, fn, args), Eval(c, fuel, s, DecCall(x, fn, args, b));
      if ReturnedTo(call) then
        var r := call.value.result; BlockRun(s, x, Eval(c, fuel - 1, Entry(s, r.state, x, r.value), b), run)
      else run.Some? ==> run.value.result.Raised?
  {
    TailCallLeaves(c, fuel - 1, s, fn, args);
    hide EvalCall;
  }

  /** A call made for its value ends by returning or raising. */
  lemma TailCallLeaves(c: Program, fuel: nat, s: State, fn: string, args: seq<Exp>)
    ensures var call := EvalCall(c, fuel, s, Tail, fn, args);
      call.Some? ==> call.value.result.Returned? || call.value.result.Raised?
  {}

  /** Once a credited call has returned, every way out of its block is paid for, but for an
      exception. */
  lemma CreditedBlockPaid(c: Program, names: set<string>, facts: Facts, fuel: nat, s: State, pos: seq<string>,
                          caps: Caps, steady: bool, x: string, fn: string, args: seq<Exp>, b: Prog)
    requires fuel > 0 && Premises(c, names, facts, s, pos, caps, steady, DecCall(x, fn, args, b))
    requires ChargingCall(facts, pos, fn, args)
    ensures var run := Eval(c, fuel, s, DecCall(x, fn, args, b));
      run.Some? ==> run.value.result.Raised? || Paid(s, run.value.result.state)
  {
    hide Eval, EvalCall, Premises, Paid, NoLoss, BlockRun, RunNoLoss, ChargingCall, Entry;
    DecCallRuns(c, fuel, s, x, fn, args, b);
    var call, run := EvalCall(c, fuel - 1, s, Tail, fn, args), Eval(c, fuel, s, DecCall(x, fn, args, b));
    if ReturnedTo(call) {
      CreditedCallPays(c, names, facts, fuel - 1, s, pos, caps, steady, x, fn, args, b);
      var r := call.value.result;
      RunsLoseNothing(c, fuel - 1, Entry(s, r.state, x, r.value), b);
      BlockPays(s, r.state, x, r.value, Eval(c, fuel - 1, Entry(s, r.state, x, r.value), b), run);
    }
  }

  lemma CreditedCallPays(c: Program, names: set<string>, facts: Facts, fuel: nat, s: State, pos: seq<string>,
                         caps: Caps, steady: bool, x: string, fn: string, args: seq<Exp>, b: Prog)
    requires Premises(c, names, facts, s, pos, caps, steady, DecCall(x, fn, args, b))
      && ChargingCall(facts, pos, fn, args)
    requires ReturnedTo(EvalCall(c, fuel, s, Tail, fn, args))
    ensures var t := EvalCall(c, fuel, s, Tail, fn, args).value.result.state; NoLoss(s, t) && Paid(s, t)
  {
    hide EvalCall, Within, FactsHold, HasAddSat, Covers, Paid, NoLoss, ChargingCall, After, MustCharge, BindingCap,
      PositiveBinding;
    ChargingCallPays(c, names, facts, fuel, s, pos, caps, Tail, fn, args);
    CallsLoseNothing(c, fuel, s, Tail, fn, args);
  }

  lemma BindingWithin(caps: Caps, fn: string, args: seq<Exp>)
    ensures BindingCap(caps, fn, args).Some? ==> BindingCap(caps, fn, args).value == WORD_MAX
  {}

  lemma EnterDecCall(c: Program, names: set<string>, facts: Facts, fuel: nat, s: State, pos: seq<string>, caps: Caps,
                     steady: bool, x: string, fn: string, args: seq<Exp>, b: Prog)
    requires Premises(c, names, facts, s, pos, caps, steady, DecCall(x, fn, args, b))
      && !ChargingCall(facts, pos, fn, args)
    requires ReturnedTo(EvalCall(c, fuel, s, Tail, fn, args))
    ensures var r := EvalCall(c, fuel, s, Tail, fn, args).value.result;
      Enters(c, names, facts, s, r.state, r.value, pos, Track(pos, x, PositiveBinding(pos, fn, args)),
        caps, BindingCap(caps, fn, args), steady, x, b, DecCall(x, fn, args, b))
  {
    hide EvalCall, FactsHold, HasAddSat, CapOf, ChargingCall, BindingCap, PositiveBinding;
    BindingIsPositive(c, fuel, s, caps, fn, args);
    BindingWithin(caps, fn, args);
    CallsLoseNothing(c, fuel, s, Tail, fn, args);
    if PositiveBinding(pos, fn, args) {
      BindingIsCapped(caps, pos, fn, args);
    }
    BlockCovers(caps, pos, x, BindingCap(caps, fn, args), PositiveBinding(pos, fn, args));
  }

  lemma {:induction false} DecCallFlows(c: Program, names: set<string>, facts: Facts, fuel: nat, s: State,
                                        pos: seq<string>,
                                        caps: Caps, steady: bool, x: string, fn: string, args: seq<Exp>, b: Prog)
    requires fuel > 0 && Premises(c, names, facts, s, pos, caps, steady, DecCall(x, fn, args, b))
    ensures var p := DecCall(x, fn, args, b);
      Flows(s, steady, caps, After(facts, pos, caps, steady, p), Eval(c, fuel, s, p))
    decreases fuel, 0
  {
    hide Eval, EvalCall, Premises, Enters, After, BlockRun, Within, Paid, ChargingCall, BindingCap, PositiveBinding,
      Track;
    var p, call := DecCall(x, fn, args, b), EvalCall(c, fuel - 1, s, Tail, fn, args);
    if ChargingCall(facts, pos, fn, args) {
      CreditedBlockPaid(c, names, facts, fuel, s, pos, caps, steady, x, fn, args, b);
    } else {
      DecCallRuns(c, fuel, s, x, fn, args, b);
      if ReturnedTo(call) {
        EnterDecCall(c, names, facts, fuel - 1, s, pos, caps, steady, x, fn, args, b);
        BlockFlows(c, names, facts, fuel - 1, s, call.value.result.state, call.value.result.value, pos,
          Track(pos, x, PositiveBinding(pos, fn, args)), caps, BindingCap(caps, fn, args), steady, x, b, p,
          Eval(c, fuel, s, p));
      }
    }
  }

  lemma {:induction false} DecCallSound(c: Program, names: set<string>, facts: Facts, fuel: nat, s: State,
                                        pos: seq<string>,
                                        caps: Caps, steady: bool, x: string, fn: string, args: seq<Exp>, b: Prog)
    requires fuel > 0 && Premises(c, names, facts, s, pos, caps, steady, DecCall(x, fn, args, b))
    requires MustCharge(facts, pos, DecCall(x, fn, args, b))
    ensures PaysOnExit(s, Eval(c, fuel, s, DecCall(x, fn, args, b)))
    decreases fuel, 0
  {
    hide Eval, EvalCall, Premises, Enters, MustCharge, BlockRun, Paid, ChargingCall, BindingCap, PositiveBinding, Track;
    var p, call := DecCall(x, fn, args, b), EvalCall(c, fuel - 1, s, Tail, fn, args);
    if ChargingCall(facts, pos, fn, args) {
      CreditedBlockPaid(c, names, facts, fuel, s, pos, caps, steady, x, fn, args, b);
    } else {
      DecCallRuns(c, fuel, s, x, fn, args, b);
      if ReturnedTo(call) {
        EnterDecCall(c, names, facts, fuel - 1, s, pos, caps, steady, x, fn, args, b);
        BlockSound(c, names, facts, fuel - 1, s, call.value.result.state, call.value.result.value, pos,
          Track(pos, x, PositiveBinding(pos, fn, args)), caps, BindingCap(caps, fn, args), steady, x, b, p,
          Eval(c, fuel, s, p));
      }
    }
  }

  // ----- soundness -----

  /** Soundness of the analysis for one program, given facts that hold of its callees. */
  lemma {:induction false} MustChargeSound(c: Program, names: set<string>, facts: Facts, fuel: nat, s: State,
                                           pos: seq<string>, caps: Caps, steady: bool, p: Prog)
    requires Premises(c, names, facts, s, pos, caps, steady, p) && MustCharge(facts, pos, p)
    ensures PaysOnExit(s, Eval(c, fuel, s, p))
    decreases fuel, 1
  {
    hide EvalExps, ExpCost, ExpsCost, EvalCall, HasAddSat, FindFunction, RestoreLocal, PositiveBinding, Bind,
      FactsHold, Within, Covers, CapOf, BindingCap;
    if fuel > 0 {
      match p
      case Call(info, fn, args) =>
        ChargingCallPays(c, names, facts, fuel - 1, s, pos, caps, info, fn, args);
      case DecCall(x, fn, args, b) =>
        DecCallSound(c, names, facts, fuel, s, pos, caps, steady, x, fn, args, b);
      case Store(address, value) =>
        ClearingStore(c, s, address, value);
      case Seq(a, b) =>
        SeqSound(c, names, facts, fuel, s, pos, caps, steady, a, b);
      case Ite(_, t, e) =>
        MustChargeSound(c, names, facts, fuel - 1, s, pos, caps, steady, t);
        MustChargeSound(c, names, facts, fuel - 1, s, pos, caps, steady, e);
      case Dec(x, v, b) =>
        DecSound(c, names, facts, fuel, s, pos, caps, steady, x, v, b);
      case Raise(_, _) =>
    }
  }

  /** A sequence accepted for its second half cannot be left from its first. */
  lemma SeqCannotLeave(c: Program, names: set<string>, facts: Facts, fuel: nat, s: State, pos: seq<string>, caps: Caps,
                       steady: bool, a: Prog, b: Prog)
    requires Premises(c, names, facts, s, pos, caps, steady, Seq(a, b))
    requires MustCharge(facts, pos, Seq(a, b)) && !MustCharge(facts, pos, a)
    ensures MustCharge(facts, pos, b) && PaysOnReturn(s, Eval(c, fuel, s, a))
  {
    hide Eval, HasAddSat, FactsHold, Within, Covers, After, ContainsReturn, NoTailCall, Callees, Paid;
    NeverReturns(c, fuel, s, a);
  }

  lemma {:induction false} SeqSound(c: Program, names: set<string>, facts: Facts, fuel: nat, s: State, pos: seq<string>,
                                    caps: Caps, steady: bool, a: Prog, b: Prog)
    requires fuel > 0 && Premises(c, names, facts, s, pos, caps, steady, Seq(a, b)) && MustCharge(facts, pos, Seq(a, b))
    ensures PaysOnExit(s, Eval(c, fuel, s, Seq(a, b)))
    decreases fuel, 0
  {
    hide Eval, Premises, RunNoLoss, Paid, MustCharge;
    SeqParts(c, names, facts, s, pos, caps, steady, a, b);
    SeqRuns(c, fuel, s, a, b);
    var n: nat := fuel - 1;
    var run := Eval(c, n, s, a);
    RunsLoseNothing(c, n, s, a);
    if MustCharge(facts, pos, a) {
      MustChargeSound(c, names, facts, n, s, pos, caps, steady, a);
      if FallsThrough(run) {
        RunsLoseNothing(c, n, run.value.result.state, b);
      }
    } else {
      SeqCannotLeave(c, names, facts, n, s, pos, caps, steady, a, b);
      hide Flows, PaysOnExit, PaysOnReturn, After;
      DisciplineHolds(c, names, facts, n, s, pos, caps, steady, a);
      if FallsThrough(run) {
        var t := run.value.result.state;
        RunsLoseNothing(c, n, t, b);
        SeqRest(c, names, facts, s, pos, caps, steady, a, b, run);
        if !Paid(s, t) {
          MustChargeSound(c, names, facts, n, t, pos, After(facts, pos, caps, steady, a).value, steady, b);
        }
      }
    }
    PaysThrough(s, run, RestRun(c, n, run, b));
  }

  lemma ClearingStore(c: Program, s: State, address: Exp, value: Exp)
    requires ClearsRunning(address, value) && address.args[0].kind.Global?
    ensures var a, v := EvalExp(c, s, address), EvalExp(c, s, value);
      a.Some? && v.Some? ==> ClearsFrame(s, a.value, v.value)
  {
    var a := EvalExp(c, s, address);
    if a.Some? {
      var values := EvalExps(c, s, address.args).value;
      assert EvalExp(c, s, address.args[0]) == Some(values[0]);
      assert EvalExp(c, s, address.args[1]) == Some(values[1]);
      assert values[1..] == [values[1]];
      assert SumWords(values) == WAdd(values[0], SumWords(values[1..]));
    }
  }

  lemma FindDistinct(fs: seq<Function>, f: Function)
    requires DistinctNames(fs) && f in fs
    ensures forall g :: g in fs && g.name == f.name ==> g == f
  {}

  lemma SoundBodyPays(c: Program, names: set<string>, facts: Facts, fuel: nat, s: State, pos: seq<string>, p: Prog)
    requires HasAddSat(c)
    requires FactsHold(c, names, facts) && Sound(names, facts, pos, p) && MustCharge(facts, pos, p)
    requires forall x :: x in pos ==> IsPositiveLocal(x, s)
    ensures PaysOnExit(s, Eval(c, fuel, s, p))
  {
    hide Eval, FactsHold, MustCharge, FindFunction, Disciplined;
    MustChargeSound(c, names, facts, fuel, s, pos, map x | x in pos :: WORD_MAX, false, p);
  }

  /** Every set of facts the fixpoint loop passes through is true of the functions in
      `names`. */
  lemma {:induction false} IterateSound(c: Program, names: set<string>, n: nat)
    requires WellFormed(c, names, n)
    ensures FactsHold(c, names, Iterate(c.functions, n))
  {
    hide Eval, MustCharge, Sound, FindFunction;
    if n > 0 {
      var fs := c.functions;
      var before, facts := Iterate(fs, n - 1), Iterate(fs, n);
      IterateSound(c, names, n - 1);
      assert RoundIsSound(c, names, before);
      forall f | f in fs && f.name in names && f.name in facts.known ensures BodyPays(c, f) {
        MemberOfNamesWhere(fs, f => Accepts(before, f), f.name);
        FindDistinct(fs, f);
        if f.name !in before.known {
          forall fuel: nat, s: State ensures PaysOnReturn(s, Eval(c, fuel, s, f.body)) {
            SoundBodyPays(c, names, before, fuel, s, [], f.body);
          }
        }
      }
      forall f | f in fs && f.name in names && f.name in facts.knownIfArg0
        ensures BodyPays(c, f) || BodyPaysIfPositive(c, f)
      {
        MemberOfNamesWhere(fs, f => Accepts(before, f), f.name);
        MemberOfNamesWhere(fs, f => AcceptsIfArg0(before, f), f.name);
        FindDistinct(fs, f);
        if f.name !in before.known && f.name !in before.knownIfArg0 && f.name !in facts.known {
          forall fuel: nat, s: State | IsPositiveLocal(f.params[0], s)
            ensures PaysOnReturn(s, Eval(c, fuel, s, f.body))
          {
            SoundBodyPays(c, names, before, fuel, s, [f.params[0]], f.body);
          }
          assert BodyPaysIfPositive(c, f);
        }
      }
    }
  }

  /** The theorem the census stops short of: under the facts of any number of rounds, every
      run of an accepted handler that falls through or returns has paid. */
  lemma AcceptedHandlersPay(c: Program, names: set<string>, n: nat, handler: Prog)
    requires WellFormed(c, names, n)
    requires var facts := Iterate(c.functions, n); Sound(names, facts, [], handler) && MustCharge(facts, [], handler)
    ensures forall fuel: nat, s: State :: PaysOnExit(s, Eval(c, fuel, s, handler))
  {
    IterateSound(c, names, n);
    forall fuel: nat, s: State ensures PaysOnExit(s, Eval(c, fuel, s, handler)) {
      SoundBodyPays(c, names, Iterate(c.functions, n), fuel, s, [], handler);
    }
  }
}
