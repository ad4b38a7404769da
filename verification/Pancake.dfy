/** A fuel-indexed, step-counting evaluator for the core of Pancake.

    The equations are those of the stepped semantics: fuel drops by one at every
    nested construct, a run that exhausts it or gets stuck has no result, and every
    result carries the number of steps taken.

    The state carries a meter that the program cannot read: the total amount of gas
    charged by completed calls to the two charging functions, and whether the running
    flag of the current frame has been cleared. */
module Pancake {
  import opened Words

  datatype VarKind = Local | Global
  datatype BinOp = Add | Sub
  datatype CmpOp = Lower | NotLower | Equal | NotEqual

  /** `Prim` stands for every word operator whose equation plays no role here. */
  datatype Exp =
    | Const(w: Word)
    | Var(kind: VarKind, name: string)
    | Op(op: BinOp, args: seq<Exp>)
    | Cmp(cmp: CmpOp, left: Exp, right: Exp)
    | Load(address: Exp)
    | Prim(operator: string, args: seq<Exp>)

  datatype Handler = Handler(exn: string, variable: string, body: Prog)
  datatype Destination = Destination(kind: VarKind, name: string)
  datatype CallInfo =
    | Tail
    | Assigned(dest: Option<Destination>, handler: Option<Handler>)

  /** `Effect` stands for the statements that only touch memory: sub-word stores,
      shared-memory stores and foreign calls. */
  datatype Prog =
    | Skip
    | Dec(name: string, value: Exp, body: Prog)
    | Assign(kind: VarKind, name: string, value: Exp)
    | Store(address: Exp, value: Exp)
    | Effect(operation: string, args: seq<Exp>)
    | Seq(first: Prog, second: Prog)
    | Ite(cond: Exp, thenBranch: Prog, elseBranch: Prog)
    | While(cond: Exp, body: Prog)
    | Call(info: CallInfo, fn: string, args: seq<Exp>)
    | DecCall(name: string, fn: string, args: seq<Exp>, body: Prog)
    | Raise(exn: string, value: Exp)
    | Return(value: Exp)
    | Break
    | Continue

  datatype Function = Function(name: string, params: seq<string>, body: Prog)

  datatype Program = Program(
    functions: seq<Function>,
    exceptions: set<string>,
    prim: (string, seq<Word>) -> Option<Word>,
    effect: (string, seq<Word>, Memory) -> Option<Memory>)

  datatype State = State(
    locals: map<string, Word>,
    globals: map<string, Word>,
    memory: Memory,
    charged: nat,
    ended: bool)

  datatype Result =
    | Normal(state: State)
    | Broke(state: State)
    | Continued(state: State)
    | Returned(state: State, value: Word)
    | Raised(state: State, exn: string, value: Word)

  datatype Run = Run(result: Result, steps: nat)

  const EV_GAS_LEFT: Word := 64
  const EV_STATE_GAS_LEFT: Word := 72
  const EV_RUNNING: Word := 104
  const EV_REGULAR_GAS_USED: Word := 184
  const EV_STATE_GAS_SPILLED: Word := 192

  // ----- expressions -----

  function WordOp(op: BinOp, values: seq<Word>): Option<Word> {
    match op
    case Add => Some(SumWords(values))
    case Sub => if |values| == 2 then Some(WSub(values[0], values[1])) else None
  }

  function SumWords(values: seq<Word>): Word {
    if values == [] then 0
    else if |values| == 1 then values[0]
    else WAdd(values[0], SumWords(values[1..]))
  }

  function CmpWords(cmp: CmpOp, a: Word, b: Word): Word {
    var holds := match cmp
      case Lower => a < b
      case NotLower => a >= b
      case Equal => a == b
      case NotEqual => a != b;
    if holds then 1 else 0
  }

  /** Two words are in exactly one of three relations, and each comparison has its negation. */
  lemma ComparisonsPartition(a: Word, b: Word)
    ensures CmpWords(Lower, a, b) + CmpWords(Equal, a, b) + CmpWords(Lower, b, a) == 1
    ensures CmpWords(NotLower, a, b) == 1 - CmpWords(Lower, a, b)
    ensures CmpWords(NotEqual, a, b) == 1 - CmpWords(Equal, a, b)
    ensures CmpWords(Lower, a, b) == 1 ==> WSub(b, a) == b - a > 0
  {}

  function Lookup<V>(m: map<string, V>, name: string): Option<V> {
    if name in m then Some(m[name]) else None
  }

  function EvalExp(c: Program, s: State, e: Exp): Option<Word>
    decreases e, 0
  {
    match e
    case Const(w) => Some(w)
    case Var(Local, name) => Lookup(s.locals, name)
    case Var(Global, name) => Lookup(s.globals, name)
    case Op(op, args) =>
      var values :- EvalExps(c, s, args);
      WordOp(op, values)
    case Cmp(cmp, left, right) =>
      var a :- EvalExp(c, s, left);
      var b :- EvalExp(c, s, right);
      Some(CmpWords(cmp, a, b))
    case Load(address) =>
      var a :- EvalExp(c, s, address);
      if a in s.memory then Some(s.memory[a]) else None
    case Prim(operator, args) =>
      var values :- EvalExps(c, s, args);
      c.prim(operator, values)
  }

  function EvalExps(c: Program, s: State, es: seq<Exp>): (r: Option<seq<Word>>)
    ensures r.Some? ==>
      |r.value| == |es| && forall i :: 0 <= i < |es| ==> EvalExp(c, s, es[i]) == Some(r.value[i])
    decreases es, 1
  {
    if es == [] then Some([])
    else
      var v :- EvalExp(c, s, es[0]);
      var vs :- EvalExps(c, s, es[1..]);
      Some([v] + vs)
  }

  /** Steps an expression costs: one per node. */
  function ExpCost(e: Exp): nat
    decreases e, 0
  {
    match e
    case Const(_) => 1
    case Var(_, _) => 1
    case Op(_, args) => 1 + ExpsCost(args)
    case Cmp(_, left, right) => 1 + ExpCost(left) + ExpCost(right)
    case Load(address) => 1 + ExpCost(address)
    case Prim(_, args) => 1 + ExpsCost(args)
  }

  function ExpsCost(es: seq<Exp>): nat
    decreases es, 1
  {
    if es == [] then 0 else ExpCost(es[0]) + ExpsCost(es[1..])
  }

  // ----- statements -----

  function FindFunction(functions: seq<Function>, name: string): (r: Option<Function>)
    ensures r.Some? ==> r.value in functions && r.value.name == name
  {
    if functions == [] then None
    else if functions[0].name == name then Some(functions[0])
    else FindFunction(functions[1..], name)
  }

  function Bind(params: seq<string>, values: seq<Word>): map<string, Word>
    requires |params| == |values|
    decreases |params|
  {
    if params == [] then map[]
    else
      var last := |params| - 1;
      Bind(params[..last], values[..last])[params[last] := values[last]]
  }

  function WithState(r: Result, s: State): Result {
    match r
    case Normal(_) => Normal(s)
    case Broke(_) => Broke(s)
    case Continued(_) => Continued(s)
    case Returned(_, v) => Returned(s, v)
    case Raised(_, exn, v) => Raised(s, exn, v)
  }

  /** Puts back the binding a declaration shadowed. */
  function RestoreLocal(name: string, before: Option<Word>, r: Result): Result {
    var s := r.state;
    WithState(r, s.(locals := if before.Some? then s.locals[name := before.value] else s.locals - {name}))
  }

  predicate IsChargeName(fn: string) {
    fn == "charge_gas" || fn == "charge_state_gas"
  }

  /** The meter's reading of a completed call. */
  function MeterCall(s: State, fn: string, values: seq<Word>): State {
    if IsChargeName(fn) && |values| == 1 then s.(charged := s.charged + values[0]) else s
  }

  /** Whether a store clears the running flag of the current frame. */
  predicate ClearsFrame(s: State, address: Word, value: Word) {
    "ev" in s.globals && address == WAdd(s.globals["ev"], EV_RUNNING) && value == 0
  }

  function StoreWord(s: State, address: Word, value: Word): State {
    s.(memory := s.memory[address := value], ended := s.ended || ClearsFrame(s, address, value))
  }

  function SetVar(s: State, kind: VarKind, name: string, value: Word): State {
    match kind
    case Local => s.(locals := s.locals[name := value])
    case Global => s.(globals := s.globals[name := value])
  }

  /** The caller's state once its callee is done: everything but the locals is the callee's. */
  function Resume(caller: State, callee: State): State {
    callee.(locals := caller.locals)
  }

  function AssignResult(s: State, dest: Option<Destination>, value: Word): State {
    match dest
    case None => s
    case Some(d) => SetVar(s, d.kind, d.name, value)
  }

  function AddSteps(r: Option<Run>, n: nat): Option<Run> {
    match r
    case None => None
    case Some(run) => Some(Run(run.result, run.steps + n))
  }

  function Eval(c: Program, fuel: nat, s: State, p: Prog): Option<Run>
    decreases fuel, 1
  {
    if fuel == 0 then None
    else
      match p
      case Skip => Some(Run(Normal(s), 1))
      case Dec(name, value, body) =>
        var v :- EvalExp(c, s, value);
        var run :- Eval(c, fuel - 1, s.(locals := s.locals[name := v]), body);
        Some(Run(RestoreLocal(name, Lookup(s.locals, name), run.result), ExpCost(value) + run.steps + 1))
      case Assign(kind, name, value) =>
        var v :- EvalExp(c, s, value);
        Some(Run(Normal(SetVar(s, kind, name, v)), ExpCost(value) + 1))
      case Store(address, value) =>
        var a :- EvalExp(c, s, address);
        var v :- EvalExp(c, s, value);
        Some(Run(Normal(StoreWord(s, a, v)), ExpCost(address) + ExpCost(value) + 1))
      case Effect(operation, args) =>
        var values :- EvalExps(c, s, args);
        var memory :- c.effect(operation, values, s.memory);
        Some(Run(Normal(s.(memory := memory)), ExpsCost(args) + 1))
      case Seq(first, second) =>
        var run :- Eval(c, fuel - 1, s, first);
        if run.result.Normal? then
          AddSteps(Eval(c, fuel - 1, run.result.state, second), run.steps + 1)
        else
          Some(Run(run.result, run.steps + 1))
      case Ite(cond, thenBranch, elseBranch) =>
        var v :- EvalExp(c, s, cond);
        AddSteps(Eval(c, fuel - 1, s, if v != 0 then thenBranch else elseBranch), ExpCost(cond) + 1)
      case While(cond, body) =>
        var v :- EvalExp(c, s, cond);
        if v == 0 then
          Some(Run(Normal(s), ExpCost(cond) + 1))
        else
          var run :- Eval(c, fuel - 1, s, body);
          var cost := ExpCost(cond) + run.steps + 1;
          (match run.result
           case Normal(s') => AddSteps(Eval(c, fuel - 1, s', p), cost)
           case Continued(s') => AddSteps(Eval(c, fuel - 1, s', p), cost)
           case Broke(s') => Some(Run(Normal(s'), cost))
           case Returned(_, _) => Some(Run(run.result, cost))
           case Raised(_, _, _) => Some(Run(run.result, cost)))
      case Call(info, fn, args) =>
        AddSteps(EvalCall(c, fuel - 1, s, info, fn, args), 1)
      case DecCall(name, fn, args, body) =>
        var call :- EvalCall(c, fuel - 1, s, Tail, fn, args);
        if !call.result.Returned? then
          Some(Run(call.result, call.steps + 1))
        else
          var s' := Resume(s, call.result.state);
          var run :- Eval(c, fuel - 1, s'.(locals := s'.locals[name := call.result.value]), body);
          Some(Run(RestoreLocal(name, Lookup(s.locals, name), run.result), call.steps + run.steps + 1))
      case Raise(exn, value) =>
        var v :- EvalExp(c, s, value);
        if exn in c.exceptions then
          Some(Run(Raised(s.(locals := map[]), exn, v), ExpCost(value) + 1))
        else
          None
      case Return(value) =>
        var v :- EvalExp(c, s, value);
        Some(Run(Returned(s.(locals := map[]), v), ExpCost(value) + 1))
      case Break => Some(Run(Broke(s), 1))
      case Continue => Some(Run(Continued(s), 1))
  }

  /** A call: a body that falls off its end, or that a `break` or `continue` escapes from,
      is stuck. */
  function EvalCall(c: Program, fuel: nat, s: State, info: CallInfo, fn: string, args: seq<Exp>): Option<Run>
    decreases fuel, 0
  {
    if fuel == 0 then None
    else
      var values :- EvalExps(c, s, args);
      var f :- FindFunction(c.functions, fn);
      if |f.params| != |values| then None
      else
        var run :- Eval(c, fuel - 1, s.(locals := Bind(f.params, values)), f.body);
        var cost := ExpsCost(args) + run.steps;
        match run.result
        case Returned(cs, v) =>
          var done := MeterCall(cs, fn, values);
          (match info
           case Tail => Some(Run(Returned(done.(locals := map[]), v), cost))
           case Assigned(dest, _) => Some(Run(Normal(AssignResult(Resume(s, done), dest, v)), cost)))
        case Raised(cs, exn, v) =>
          if info.Assigned? && info.handler.Some? && info.handler.value.exn == exn then
            var h := info.handler.value;
            if h.variable in s.locals then
              var s' := Resume(s, cs);
              AddSteps(Eval(c, fuel - 1, s'.(locals := s'.locals[h.variable := v]), h.body), cost)
            else None
          else
            Some(Run(Raised(cs.(locals := map[]), exn, v), cost))
        case _ => None
  }

  // ----- rules for straight-line code -----

  lemma EvalTwo(c: Program, s: State, es: seq<Exp>)
    requires |es| == 2
    ensures var a, b := EvalExp(c, s, es[0]), EvalExp(c, s, es[1]);
      EvalExps(c, s, es) == if a.Some? && b.Some? then Some([a.value, b.value]) else None
  {
    var rest := es[1..];
    assert rest[1..] == [];
    var a, b := EvalExp(c, s, es[0]), EvalExp(c, s, rest[0]);
    if b.Some? {
      assert [b.value] + [] == [b.value];
      assert EvalExps(c, s, rest[1..]) == Some([]);
      assert EvalExps(c, s, rest) == Some([b.value]);
      if a.Some? {
        assert [a.value] + [b.value] == [a.value, b.value];
      }
    } else {
      assert EvalExps(c, s, rest) == None;
      assert EvalExps(c, s, es) == None;
    }
  }

  /** A binary operator on two expressions that evaluate. */
  lemma EvalBinary(c: Program, s: State, op: BinOp, a: Exp, b: Exp)
    requires EvalExp(c, s, a).Some? && EvalExp(c, s, b).Some?
    ensures var x, y := EvalExp(c, s, a).value, EvalExp(c, s, b).value;
      EvalExp(c, s, Op(op, [a, b])) == Some(if op.Add? then WAdd(x, y) else WSub(x, y))
  {
    var x, y := EvalExp(c, s, a).value, EvalExp(c, s, b).value;
    EvalTwo(c, s, [a, b]);
    assert [x, y][1..] == [y];
    assert SumWords([x, y]) == WAdd(x, SumWords([y]));
  }

  /** A declaration whose body's run is known. */
  lemma DecRuns(c: Program, fuel: nat, s: State, x: string, v: Exp, b: Prog)
    requires fuel > 0 && EvalExp(c, s, v).Some?
    requires Eval(c, fuel - 1, s.(locals := s.locals[x := EvalExp(c, s, v).value]), b).Some?
    ensures var run := Eval(c, fuel - 1, s.(locals := s.locals[x := EvalExp(c, s, v).value]), b).value;
      Eval(c, fuel, s, Dec(x, v, b)) ==
        Some(Run(RestoreLocal(x, Lookup(s.locals, x), run.result), ExpCost(v) + run.steps + 1))
  {}

  /** A store followed by the rest of a block. */
  lemma StoreThen(c: Program, fuel: nat, s: State, address: Exp, value: Exp, rest: Prog)
    requires fuel > 1 && EvalExp(c, s, address).Some? && EvalExp(c, s, value).Some?
    ensures var s' := StoreWord(s, EvalExp(c, s, address).value, EvalExp(c, s, value).value);
      Eval(c, fuel, s, Seq(Store(address, value), rest)) ==
        AddSteps(Eval(c, fuel - 1, s', rest), ExpCost(address) + ExpCost(value) + 2)
  {}

  /** A guard that is not taken. */
  lemma GuardFallsThrough(c: Program, fuel: nat, s: State, cond: Exp, taken: Prog, rest: Prog)
    requires fuel > 2 && EvalExp(c, s, cond) == Some(0)
    ensures Eval(c, fuel, s, Seq(Ite(cond, taken, Skip), rest)) ==
      AddSteps(Eval(c, fuel - 1, s, rest), ExpCost(cond) + 3)
  {
    assert Eval(c, fuel - 2, s, Skip) == Some(Run(Normal(s), 1));
    assert Eval(c, fuel - 1, s, Ite(cond, taken, Skip)) == Some(Run(Normal(s), ExpCost(cond) + 2));
  }

  /** A guard whose taken branch leaves the block. */
  lemma GuardLeaves(c: Program, fuel: nat, s: State, cond: Exp, taken: Prog, rest: Prog)
    requires fuel > 2 && EvalExp(c, s, cond).Some? && EvalExp(c, s, cond) != Some(0)
    requires Eval(c, fuel - 2, s, taken).Some? && !Eval(c, fuel - 2, s, taken).value.result.Normal?
    ensures Eval(c, fuel, s, Seq(Ite(cond, taken, Skip), rest)) ==
      AddSteps(Eval(c, fuel - 2, s, taken), ExpCost(cond) + 2)
  {
    hide EvalExp, ExpCost;
    assert Eval(c, fuel - 1, s, Ite(cond, taken, Skip)) == AddSteps(Eval(c, fuel - 2, s, taken), ExpCost(cond) + 1);
  }
}
