/** Termination rules for the evaluator: fuel only decides whether a run is seen, never
    what it is, so runs found at different fuels compose. */
module Termination {
  import opened Words
  import opened Pancake

  ghost predicate Terminates(c: Program, s: State, p: Prog) {
    exists fuel: nat :: Eval(c, fuel, s, p).Some?
  }

  ghost predicate CallTerminates(c: Program, s: State, info: CallInfo, fn: string, args: seq<Exp>) {
    exists fuel: nat :: EvalCall(c, fuel, s, info, fn, args).Some?
  }

  /** A run seen at some fuel is the same run, with the same step count, at any larger one. */
  lemma {:induction false} FuelMonotone(c: Program, n: nat, m: nat, s: State, p: Prog)
    requires n <= m && Eval(c, n, s, p).Some?
    ensures Eval(c, m, s, p) == Eval(c, n, s, p)
    decreases n, 1
  {
    hide EvalExp, EvalExps, ExpCost, ExpsCost, RestoreLocal, StoreWord, SetVar;
    match p
    case Dec(x, v, b) =>
      FuelMonotone(c, n - 1, m - 1, s.(locals := s.locals[x := EvalExp(c, s, v).value]), b);
    case Seq(a, b) =>
      FuelMonotone(c, n - 1, m - 1, s, a);
      var first := Eval(c, n - 1, s, a).value.result;
      if first.Normal? {
        FuelMonotone(c, n - 1, m - 1, first.state, b);
      }
    case Ite(cond, t, e) =>
      FuelMonotone(c, n - 1, m - 1, s, if EvalExp(c, s, cond).value != 0 then t else e);
    case While(cond, b) =>
      WhileFuelMonotone(c, n, m, s, cond, b);
    case Call(info, fn, args) =>
      CallFuelMonotone(c, n - 1, m - 1, s, info, fn, args);
    case DecCall(x, fn, args, b) =>
      DecCallFuelMonotone(c, n, m, s, x, fn, args, b);
    case _ =>
  }

  predicate TestsAgain(pass: Option<Run>) {
    pass.Some? && (pass.value.result.Normal? || pass.value.result.Continued?)
  }

  /** What a run of a loop is made of. */
  lemma WhileParts(c: Program, n: nat, s: State, cond: Exp, b: Prog)
    requires Eval(c, n, s, While(cond, b)).Some?
    ensures n > 0 && EvalExp(c, s, cond).Some?
    ensures EvalExp(c, s, cond).value != 0 ==>
      var pass := Eval(c, n - 1, s, b);
      pass.Some? && (TestsAgain(pass) ==> Eval(c, n - 1, pass.value.result.state, While(cond, b)).Some?)
  {
    hide EvalExp, EvalExps, ExpCost, ExpsCost, EvalCall;
  }

  lemma WhileFromParts(c: Program, n: nat, m: nat, s: State, cond: Exp, b: Prog)
    requires n > 0 && m > 0 && EvalExp(c, s, cond).Some?
    requires EvalExp(c, s, cond).value != 0 ==>
      var pass := Eval(c, n - 1, s, b);
      && Eval(c, m - 1, s, b) == pass
      && (TestsAgain(pass) ==>
            var t := pass.value.result.state; Eval(c, m - 1, t, While(cond, b)) == Eval(c, n - 1, t, While(cond, b)))
    ensures Eval(c, m, s, While(cond, b)) == Eval(c, n, s, While(cond, b))
  {
    hide EvalExp, EvalExps, ExpCost, ExpsCost, EvalCall;
  }

  lemma {:induction false} WhileFuelMonotone(c: Program, n: nat, m: nat, s: State, cond: Exp, b: Prog)
    requires n <= m && Eval(c, n, s, While(cond, b)).Some?
    ensures Eval(c, m, s, While(cond, b)) == Eval(c, n, s, While(cond, b))
    decreases n, 0
  {
    hide Eval, EvalExp;
    WhileParts(c, n, s, cond, b);
    if EvalExp(c, s, cond).value != 0 {
      FuelMonotone(c, n - 1, m - 1, s, b);
      var pass := Eval(c, n - 1, s, b);
      if TestsAgain(pass) {
        FuelMonotone(c, n - 1, m - 1, pass.value.result.state, While(cond, b));
      }
    }
    WhileFromParts(c, n, m, s, cond, b);
  }

  lemma {:induction false} DecCallFuelMonotone(c: Program, n: nat, m: nat, s: State, x: string, fn: string,
                                               args: seq<Exp>, b: Prog)
    requires n <= m && Eval(c, n, s, DecCall(x, fn, args, b)).Some?
    ensures Eval(c, m, s, DecCall(x, fn, args, b)) == Eval(c, n, s, DecCall(x, fn, args, b))
    decreases n, 0
  {
    hide EvalExp, EvalExps, ExpCost, ExpsCost, RestoreLocal, StoreWord, SetVar, FindFunction, Bind, MeterCall,
      AssignResult, Resume;
    CallFuelMonotone(c, n - 1, m - 1, s, Tail, fn, args);
    var call := EvalCall(c, n - 1, s, Tail, fn, args).value.result;
    if call.Returned? {
      var s' := Resume(s, call.state);
      FuelMonotone(c, n - 1, m - 1, s'.(locals := s'.locals[x := call.value]), b);
    }
  }

  lemma {:induction false} CallFuelMonotone(c: Program, n: nat, m: nat, s: State, info: CallInfo, fn: string,
                                            args: seq<Exp>)
    requires n <= m && EvalCall(c, n, s, info, fn, args).Some?
    ensures EvalCall(c, m, s, info, fn, args) == EvalCall(c, n, s, info, fn, args)
    decreases n, 0
  {
    hide EvalExp, EvalExps, ExpCost, ExpsCost, RestoreLocal, StoreWord, SetVar, FindFunction, Bind, MeterCall,
      AssignResult, Resume;
    var f := FindFunction(c.functions, fn).value;
    var callee := s.(locals := Bind(f.params, EvalExps(c, s, args).value));
    FuelMonotone(c, n - 1, m - 1, callee, f.body);
    var r := Eval(c, n - 1, callee, f.body).value.result;
    if r.Raised? && info.Assigned? && info.handler.Some? && info.handler.value.exn == r.exn {
      var s' := Resume(s, r.state);
      FuelMonotone(c, n - 1, m - 1, s'.(locals := s'.locals[info.handler.value.variable := r.value]),
        info.handler.value.body);
    }
  }

  /** Two fuels that both suffice show the same run. */
  lemma RunsAgree(c: Program, n: nat, m: nat, s: State, p: Prog)
    requires Eval(c, n, s, p).Some? && Eval(c, m, s, p).Some?
    ensures Eval(c, n, s, p) == Eval(c, m, s, p)
  {
    if n <= m {
      FuelMonotone(c, n, m, s, p);
    } else {
      FuelMonotone(c, m, n, s, p);
    }
  }

  // ----- sequences and calls, both directions -----

  lemma SeqTerminatesIff(c: Program, s: State, a: Prog, b: Prog)
    ensures Terminates(c, s, Seq(a, b)) <==>
      exists fuel: nat :: var run := Eval(c, fuel, s, a);
        run.Some? && (run.value.result.Normal? ==> Terminates(c, run.value.result.state, b))
  {
    if Terminates(c, s, Seq(a, b)) {
      var fuel: nat :| Eval(c, fuel, s, Seq(a, b)).Some?;
      var run := Eval(c, fuel - 1, s, a);
      assert run.value.result.Normal? ==> Eval(c, fuel - 1, run.value.result.state, b).Some?;
      assert run.Some? && (run.value.result.Normal? ==> Terminates(c, run.value.result.state, b));
    }
    if fuel: nat :| var run := Eval(c, fuel, s, a);
        run.Some? && (run.value.result.Normal? ==> Terminates(c, run.value.result.state, b)) {
      var run := Eval(c, fuel, s, a);
      var enough := fuel;
      if run.value.result.Normal? {
        var s' := run.value.result.state;
        var later: nat :| Eval(c, later, s', b).Some?;
        enough := if later <= fuel then fuel else later;
        FuelMonotone(c, later, enough, s', b);
      }
      FuelMonotone(c, fuel, enough, s, a);
      assert Eval(c, enough + 1, s, Seq(a, b)).Some?;
    }
  }

  /** The handler, if any, that a call applies to the way its body ended. */
  function Catching(info: CallInfo, r: Result): Option<Handler> {
    if r.Raised? && info.Assigned? && info.handler.Some? && info.handler.value.exn == r.exn then info.handler
    else None
  }

  /** The ways a callee's body can end that its caller can go on from. */
  ghost predicate BodyEscapes(c: Program, s: State, info: CallInfo, r: Result) {
    var h := Catching(info, r);
    && (r.Returned? || r.Raised?)
    && (h.Some? ==>
          && h.value.variable in s.locals
          && Terminates(c, Resume(s, r.state).(locals := s.locals[h.value.variable := r.value]), h.value.body))
  }

  ghost predicate BodyCompletes(c: Program, s: State, info: CallInfo, callee: State, body: Prog) {
    exists fuel: nat :: var run := Eval(c, fuel, callee, body);
      run.Some? && BodyEscapes(c, s, info, run.value.result)
  }

  /** A call terminates exactly when its arguments evaluate, its callee is found and binds
      them, and the callee's body terminates by returning or raising, with the matching
      handler terminating in turn. Falling off the end of the body is stuck. */
  lemma CallTerminatesIff(c: Program, s: State, info: CallInfo, fn: string, args: seq<Exp>)
    ensures CallTerminates(c, s, info, fn, args) <==>
      var values, f := EvalExps(c, s, args), FindFunction(c.functions, fn);
      && values.Some? && f.Some? && |f.value.params| == |values.value|
      && BodyCompletes(c, s, info, s.(locals := Bind(f.value.params, values.value)), f.value.body)
  {
    var values, f := EvalExps(c, s, args), FindFunction(c.functions, fn);
    if CallTerminates(c, s, info, fn, args) {
      var fuel: nat :| EvalCall(c, fuel, s, info, fn, args).Some?;
      var callee := s.(locals := Bind(f.value.params, values.value));
      var r := Eval(c, fuel - 1, callee, f.value.body).value.result;
      var h := Catching(info, r);
      if h.Some? {
        var s' := Resume(s, r.state).(locals := s.locals[h.value.variable := r.value]);
        assert Eval(c, fuel - 1, s', h.value.body).Some?;
      }
      assert BodyEscapes(c, s, info, r);
      assert BodyCompletes(c, s, info, callee, f.value.body);
    }
    if values.Some? && f.Some? && |f.value.params| == |values.value| {
      var callee := s.(locals := Bind(f.value.params, values.value));
      if BodyCompletes(c, s, info, callee, f.value.body) {
        var fuel: nat :| var run := Eval(c, fuel, callee, f.value.body);
          run.Some? && BodyEscapes(c, s, info, run.value.result);
        var r := Eval(c, fuel, callee, f.value.body).value.result;
        var h, enough := Catching(info, r), fuel;
        if h.Some? {
          var s' := Resume(s, r.state).(locals := s.locals[h.value.variable := r.value]);
          var later: nat :| Eval(c, later, s', h.value.body).Some?;
          enough := if later <= fuel then fuel else later;
          FuelMonotone(c, later, enough, s', h.value.body);
        }
        FuelMonotone(c, fuel, enough, callee, f.value.body);
        assert EvalCall(c, enough + 1, s, info, fn, args).Some?;
      }
    }
  }

  // ----- loops -----

  /** The body terminates from `s`, and where it goes on it keeps the invariant and lowers
      the measure. */
  ghost predicate BodyDecreases(c: Program, body: Prog, inv: State -> bool, measure: State -> nat, s: State) {
    exists fuel: nat :: var run := Eval(c, fuel, s, body);
      run.Some? && (run.value.result.Normal? || run.value.result.Continued? ==>
        inv(run.value.result.state) && measure(run.value.result.state) < measure(s))
  }

  /** The loop rule: whichever way single passes of the body end, the loop terminates. */
  lemma {:induction false} WhileTerminates(c: Program, cond: Exp, body: Prog, inv: State -> bool,
                                           measure: State -> nat, s: State)
    requires inv(s)
    requires forall s :: inv(s) ==> EvalExp(c, s, cond).Some?
    requires forall s :: inv(s) && EvalExp(c, s, cond) != Some(0) ==> BodyDecreases(c, body, inv, measure, s)
    ensures Terminates(c, s, While(cond, body))
    decreases measure(s)
  {
    var loop := While(cond, body);
    if EvalExp(c, s, cond) == Some(0) {
      assert Eval(c, 1, s, loop).Some?;
    } else {
      assert BodyDecreases(c, body, inv, measure, s);
      var fuel: nat :| var run := Eval(c, fuel, s, body);
        run.Some? && (run.value.result.Normal? || run.value.result.Continued? ==>
          inv(run.value.result.state) && measure(run.value.result.state) < measure(s));
      var r, enough := Eval(c, fuel, s, body).value.result, fuel;
      if r.Normal? || r.Continued? {
        WhileTerminates(c, cond, body, inv, measure, r.state);
        var later: nat :| Eval(c, later, r.state, loop).Some?;
        enough := if later <= fuel then fuel else later;
        FuelMonotone(c, later, enough, r.state, loop);
      }
      FuelMonotone(c, fuel, enough, s, body);
      assert Eval(c, enough + 1, s, loop).Some?;
    }
  }

  // ----- the loop whose counter may wrap -----

  const NextBlock: Exp := Op(Add, [Var(Local, "i"), Const(32)])

  /** `while i + 32 <=+ n { i = i + 32; }`, the skeleton of a block-wise copy. */
  const BlockLoop: Prog := While(Cmp(NotLower, Var(Local, "n"), NextBlock), Assign(Local, "i", NextBlock))

  predicate CountsBlocks(s: State, n: Word) {
    && "i" in s.locals && "n" in s.locals
    && s.locals["n"] == n && s.locals["i"] % 32 == 0
  }

  lemma NextBlockValue(c: Program, s: State)
    requires "i" in s.locals
    ensures EvalExp(c, s, NextBlock) == Some(WAdd(s.locals["i"], 32))
  {
    EvalBinary(c, s, Add, Var(Local, "i"), Const(32));
  }

  lemma BlockStep(c: Program, s: State, n: Word)
    requires CountsBlocks(s, n)
    ensures EvalExp(c, s, BlockLoop.cond) == Some(if n >= WAdd(s.locals["i"], 32) then 1 else 0)
    ensures var s' := s.(locals := s.locals["i" := WAdd(s.locals["i"], 32)]);
      CountsBlocks(s', n) && Eval(c, 1, s, BlockLoop.body) == Some(Run(Normal(s'), ExpCost(NextBlock) + 1))
  {
    NextBlockValue(c, s);
  }

  lemma {:induction false} BlockLoopDiverges(c: Program, fuel: nat, s: State, n: Word)
    requires CountsBlocks(s, n) && n >= WORD_SIZE - 32
    ensures Eval(c, fuel, s, BlockLoop) == None
  {
    BlockStep(c, s, n);
    if fuel > 1 {
      FuelMonotone(c, 1, fuel - 1, s, BlockLoop.body);
      BlockLoopDiverges(c, fuel - 1, s.(locals := s.locals["i" := WAdd(s.locals["i"], 32)]), n);
    }
  }

  /** Counting upwards is no proof of termination on machine words: started at zero, the
      loop ends exactly when the bound leaves room for the counter to overshoot it. */
  lemma BlockLoopTerminatesIff(c: Program, s: State, n: Word)
    requires CountsBlocks(s, n) && s.locals["i"] <= n
    ensures Terminates(c, s, BlockLoop) <==> n < WORD_SIZE - 32
  {
    if n < WORD_SIZE - 32 {
      var inv := (s: State) => CountsBlocks(s, n) && s.locals["i"] <= n;
      var measure := (s: State) => if CountsBlocks(s, n) && s.locals["i"] <= n then n - s.locals["i"] else 0;
      forall s | inv(s) ensures EvalExp(c, s, BlockLoop.cond).Some? {
        BlockStep(c, s, n);
      }
      forall s | inv(s) && EvalExp(c, s, BlockLoop.cond) != Some(0)
        ensures BodyDecreases(c, BlockLoop.body, inv, measure, s)
      {
        BlockStep(c, s, n);
        var run := Eval(c, 1, s, BlockLoop.body);
        assert inv(run.value.result.state) && measure(run.value.result.state) < measure(s);
      }
      WhileTerminates(c, BlockLoop.cond, BlockLoop.body, inv, measure, s);
    } else {
      forall fuel: nat ensures Eval(c, fuel, s, BlockLoop) == None {
        BlockLoopDiverges(c, fuel, s, n);
      }
    }
  }
}
