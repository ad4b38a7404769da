/** The must-charge analysis: a syntactic, path-sensitive and interprocedural test that
    every path leaving a program has charged gas or ended its frame, with the fixpoint
    over all functions that supplies the facts about callees. */
module OpcodeCensus {
  import opened Pancake

  /** Functions that charge on every path, and functions that do so whenever their first
      argument is at least 1. */
  datatype Facts = Facts(known: seq<string>, knownIfArg0: seq<string>)

  /** A store of zero to `ev + 104`, recognised by the shape of its two expressions. */
  predicate ClearsRunning(address: Exp, value: Exp) {
    && address.Op? && address.op == Add && |address.args| == 2
    && address.args[0].Var? && address.args[0].name == "ev"
    && address.args[1].Const? && address.args[1].w == EV_RUNNING
    && value == Const(0)
  }

  predicate ContainsReturn(p: Prog) {
    match p
    case Return(_) => true
    case Seq(a, b) => ContainsReturn(a) || ContainsReturn(b)
    case Ite(_, t, e) => ContainsReturn(t) || ContainsReturn(e)
    case Dec(_, _, b) => ContainsReturn(b)
    case DecCall(_, _, _, b) => ContainsReturn(b)
    case While(_, b) => ContainsReturn(b)
    case _ => false
  }

  predicate CertainlyPositive(pos: seq<string>, e: Exp) {
    match e
    case Const(k) => k >= 1
    case Var(_, x) => x in pos
    case _ => false
  }

  predicate IsPositiveCharge(pos: seq<string>, fn: string, args: seq<Exp>) {
    IsChargeName(fn) && |args| == 1 && CertainlyPositive(pos, args[0])
  }

  predicate PositiveBinding(pos: seq<string>, fn: string, args: seq<Exp>) {
    fn == "add_sat" && exists i :: 0 <= i < |args| && CertainlyPositive(pos, args[i])
  }

  /** The three ways a call site is credited with a charge. */
  predicate ChargingCall(facts: Facts, pos: seq<string>, fn: string, args: seq<Exp>) {
    || IsPositiveCharge(pos, fn, args)
    || fn in facts.known
    || (fn in facts.knownIfArg0 && args != [] && CertainlyPositive(pos, args[0]))
  }

  function Track(pos: seq<string>, name: string, positive: bool): seq<string> {
    if positive then [name] + pos else pos
  }

  predicate MustCharge(facts: Facts, pos: seq<string>, p: Prog)
    decreases p
  {
    match p
    case Call(_, fn, args) => ChargingCall(facts, pos, fn, args)
    case DecCall(x, fn, args, b) =>
      ChargingCall(facts, pos, fn, args) || MustCharge(facts, Track(pos, x, PositiveBinding(pos, fn, args)), b)
    case Raise(_, _) => true
    case Store(address, value) => ClearsRunning(address, value)
    case Seq(a, b) => MustCharge(facts, pos, a) || (!ContainsReturn(a) && MustCharge(facts, pos, b))
    case Ite(_, t, e) => MustCharge(facts, pos, t) && MustCharge(facts, pos, e)
    case Dec(x, v, b) => MustCharge(facts, Track(pos, x, CertainlyPositive(pos, v)), b)
    case _ => false
  }

  // ----- the fixpoint -----

  predicate Accepts(facts: Facts, f: Function) {
    MustCharge(facts, [], f.body)
  }

  predicate AcceptsIfArg0(facts: Facts, f: Function) {
    f.params != [] && MustCharge(facts, [f.params[0]], f.body)
  }

  function NamesWhere(fs: seq<Function>, accept: Function -> bool): seq<string> {
    if fs == [] then []
    else (if accept(fs[0]) then [fs[0].name] else []) + NamesWhere(fs[1..], accept)
  }

  function Round(fs: seq<Function>, facts: Facts): Facts {
    Facts(NamesWhere(fs, f => Accepts(facts, f)), NamesWhere(fs, f => AcceptsIfArg0(facts, f)))
  }

  function Iterate(fs: seq<Function>, n: nat): Facts {
    if n == 0 then Facts([], []) else Round(fs, Iterate(fs, n - 1))
  }

  predicate Contained(a: seq<string>, b: seq<string>) {
    forall x :: x in a ==> x in b
  }

  predicate Weaker(a: Facts, b: Facts) {
    Contained(a.known, b.known) && Contained(a.knownIfArg0, b.knownIfArg0)
  }

  lemma {:induction false} MemberOfNamesWhere(fs: seq<Function>, accept: Function -> bool, name: string)
    ensures name in NamesWhere(fs, accept) <==> exists f :: f in fs && f.name == name && accept(f)
  {
    if fs != [] {
      MemberOfNamesWhere(fs[1..], accept, name);
      if name in NamesWhere(fs[1..], accept) {
        var f :| f in fs[1..] && f.name == name && accept(f);
        assert f in fs;
      }
      if f :| f in fs && f.name == name && accept(f) {
        assert f == fs[0] || f in fs[1..];
      }
    }
  }

  /** Enlarging the facts about callees, or the set of locals known to be positive, never
      makes the analysis lose an answer. */
  lemma {:induction false} MustChargeMonotone(a: Facts, b: Facts, pos: seq<string>, pos': seq<string>, p: Prog)
    requires Weaker(a, b) && Contained(pos, pos')
    requires MustCharge(a, pos, p)
    ensures MustCharge(b, pos', p)
    decreases p
  {
    match p
    case DecCall(x, fn, args, body) =>
      if !ChargingCall(a, pos, fn, args) {
        MustChargeMonotone(a, b, Track(pos, x, PositiveBinding(pos, fn, args)),
          Track(pos', x, PositiveBinding(pos', fn, args)), body);
      }
    case Seq(first, second) =>
      if MustCharge(a, pos, first) {
        MustChargeMonotone(a, b, pos, pos', first);
      } else {
        MustChargeMonotone(a, b, pos, pos', second);
      }
    case Ite(_, t, e) =>
      MustChargeMonotone(a, b, pos, pos', t);
      MustChargeMonotone(a, b, pos, pos', e);
    case Dec(x, v, body) =>
      MustChargeMonotone(a, b, Track(pos, x, CertainlyPositive(pos, v)),
        Track(pos', x, CertainlyPositive(pos', v)), body);
    case _ =>
  }

  lemma {:induction false} NamesWhereMonotone(fs: seq<Function>, p: Function -> bool, q: Function -> bool)
    requires forall f :: f in fs && p(f) ==> q(f)
    ensures Contained(NamesWhere(fs, p), NamesWhere(fs, q))
    ensures |NamesWhere(fs, p)| <= |NamesWhere(fs, q)| <= |fs|
    ensures |NamesWhere(fs, p)| == |NamesWhere(fs, q)| ==> NamesWhere(fs, p) == NamesWhere(fs, q)
  {
    if fs != [] {
      NamesWhereMonotone(fs[1..], p, q);
    }
  }

  /** One round keeps the order of facts, and what it adds shows in the lengths alone. */
  lemma RoundMonotone(fs: seq<Function>, a: Facts, b: Facts)
    requires Weaker(a, b)
    ensures Weaker(Round(fs, a), Round(fs, b))
    ensures |Round(fs, a).known| <= |Round(fs, b).known| <= |fs|
    ensures |Round(fs, a).knownIfArg0| <= |Round(fs, b).knownIfArg0| <= |fs|
    ensures |Round(fs, a).known| == |Round(fs, b).known| && |Round(fs, a).knownIfArg0| == |Round(fs, b).knownIfArg0|
      ==> Round(fs, a) == Round(fs, b)
  {
    forall f | Accepts(a, f) ensures Accepts(b, f) {
      MustChargeMonotone(a, b, [], [], f.body);
    }
    forall f | AcceptsIfArg0(a, f) ensures AcceptsIfArg0(b, f) {
      MustChargeMonotone(a, b, [f.params[0]], [f.params[0]], f.body);
    }
    NamesWhereMonotone(fs, f => Accepts(a, f), f => Accepts(b, f));
    NamesWhereMonotone(fs, f => AcceptsIfArg0(a, f), f => AcceptsIfArg0(b, f));
  }

  lemma {:induction false} IteratesGrow(fs: seq<Function>, n: nat)
    ensures Weaker(Iterate(fs, n), Iterate(fs, n + 1))
  {
    if n > 0 {
      IteratesGrow(fs, n - 1);
      RoundMonotone(fs, Iterate(fs, n - 1), Iterate(fs, n));
    }
  }

  lemma {:induction false} IteratesAscend(fs: seq<Function>, m: nat, n: nat)
    requires m <= n
    ensures Weaker(Iterate(fs, m), Iterate(fs, n))
    decreases n - m
  {
    if m < n {
      IteratesAscend(fs, m + 1, n);
      IteratesGrow(fs, m);
    }
  }

  /** Equal lengths mean nothing was added: the test the loop stops on is exact. */
  lemma LengthTestIsExact(fs: seq<Function>, n: nat)
    ensures var a, b := Iterate(fs, n), Iterate(fs, n + 1);
      (|a.known| == |b.known| && |a.knownIfArg0| == |b.knownIfArg0|) <==> Round(fs, a) == a
    ensures var a, b := Iterate(fs, n), Iterate(fs, n + 1);
      |a.known| <= |b.known| && |a.knownIfArg0| <= |b.knownIfArg0|
  {
    if n > 0 {
      IteratesGrow(fs, n - 1);
      RoundMonotone(fs, Iterate(fs, n - 1), Iterate(fs, n));
    }
  }

  /** The iterates stay below every set of facts that one round cannot enlarge: what the
      loop approaches is the least fixpoint. */
  lemma {:induction false} IteratesAreLeast(fs: seq<Function>, n: nat, closed: Facts)
    requires Weaker(Round(fs, closed), closed)
    ensures Weaker(Iterate(fs, n), closed)
  {
    if n > 0 {
      IteratesAreLeast(fs, n - 1, closed);
      RoundMonotone(fs, Iterate(fs, n - 1), closed);
    }
  }

  // ----- acyclic call graphs -----

  function Callees(p: Prog): set<string> {
    match p
    case Call(_, fn, _) => {fn}
    case DecCall(_, fn, _, b) => {fn} + Callees(b)
    case Seq(a, b) => Callees(a) + Callees(b)
    case Ite(_, t, e) => Callees(t) + Callees(e)
    case Dec(_, _, b) => Callees(b)
    case While(_, b) => Callees(b)
    case _ => {}
  }

  predicate Agree(a: Facts, b: Facts, names: set<string>) {
    forall x :: x in names ==> (x in a.known <==> x in b.known) && (x in a.knownIfArg0 <==> x in b.knownIfArg0)
  }

  lemma {:induction false} MustChargeReadsCallees(a: Facts, b: Facts, pos: seq<string>, p: Prog)
    requires Agree(a, b, Callees(p))
    ensures MustCharge(a, pos, p) == MustCharge(b, pos, p)
    decreases p
  {
    match p
    case DecCall(x, fn, args, body) =>
      assert fn in Callees(p);
      MustChargeReadsCallees(a, b, Track(pos, x, PositiveBinding(pos, fn, args)), body);
    case Seq(first, second) =>
      MustChargeReadsCallees(a, b, pos, first);
      MustChargeReadsCallees(a, b, pos, second);
    case Ite(_, t, e) =>
      MustChargeReadsCallees(a, b, pos, t);
      MustChargeReadsCallees(a, b, pos, e);
    case Dec(x, v, body) =>
      MustChargeReadsCallees(a, b, Track(pos, x, CertainlyPositive(pos, v)), body);
    case Call(_, fn, _) =>
      assert fn in Callees(p);
    case _ =>
  }

  /** Every call goes to a function of strictly smaller rank. */
  ghost predicate Ranked(fs: seq<Function>, rank: string -> nat) {
    forall f, callee :: f in fs && callee in Callees(f.body) ==> rank(callee) < rank(f.name)
  }

  ghost predicate RankedBelow(fs: seq<Function>, rank: string -> nat, depth: nat) {
    Ranked(fs, rank) && forall f :: f in fs ==> rank(f.name) < depth
  }

  /** No function calls itself, however indirectly, and chains of calls are shorter than
      `depth`. */
  ghost predicate Acyclic(fs: seq<Function>, depth: nat) {
    exists rank: string -> nat :: RankedBelow(fs, rank, depth)
  }

  /** On an acyclic call graph a function's verdict is final once the rounds outnumber its
      rank. */
  lemma {:induction false} VerdictSettles(fs: seq<Function>, rank: string -> nat, m: nat, n: nat, name: string)
    requires Ranked(fs, rank)
    requires rank(name) < m && rank(name) < n
    ensures name in Iterate(fs, m).known <==> name in Iterate(fs, n).known
    ensures name in Iterate(fs, m).knownIfArg0 <==> name in Iterate(fs, n).knownIfArg0
    decreases m
  {
    var a, b := Iterate(fs, m - 1), Iterate(fs, n - 1);
    forall f | f in fs && f.name == name
      ensures Accepts(a, f) == Accepts(b, f) && AcceptsIfArg0(a, f) == AcceptsIfArg0(b, f)
    {
      forall callee | callee in Callees(f.body)
        ensures (callee in a.known <==> callee in b.known) && (callee in a.knownIfArg0 <==> callee in b.knownIfArg0)
      {
        VerdictSettles(fs, rank, m - 1, n - 1, callee);
      }
      MustChargeReadsCallees(a, b, [], f.body);
      if f.params != [] {
        MustChargeReadsCallees(a, b, [f.params[0]], f.body);
      }
    }
    MemberOfNamesWhere(fs, f => Accepts(a, f), name);
    MemberOfNamesWhere(fs, f => Accepts(b, f), name);
    MemberOfNamesWhere(fs, f => AcceptsIfArg0(a, f), name);
    MemberOfNamesWhere(fs, f => AcceptsIfArg0(b, f), name);
  }

  /** On an acyclic call graph of depth `depth`, round `depth` has reached the fixpoint, so
      the bound on the rounds is a guard that does not bite below it. */
  lemma AcyclicFixpoint(fs: seq<Function>, rank: string -> nat, depth: nat, n: nat)
    requires RankedBelow(fs, rank, depth) && 0 < depth <= n
    ensures Round(fs, Iterate(fs, n)) == Iterate(fs, n)
  {
    var a, b := Iterate(fs, n - 1), Iterate(fs, n);
    IteratesGrow(fs, n - 1);
    forall f | f in fs
      ensures Accepts(a, f) == Accepts(b, f) && AcceptsIfArg0(a, f) == AcceptsIfArg0(b, f)
    {
      forall callee | callee in Callees(f.body)
        ensures (callee in a.known <==> callee in b.known) && (callee in a.knownIfArg0 <==> callee in b.knownIfArg0)
      {
        VerdictSettles(fs, rank, n - 1, n, callee);
      }
      MustChargeReadsCallees(a, b, [], f.body);
      if f.params != [] {
        MustChargeReadsCallees(a, b, [f.params[0]], f.body);
      }
    }
    NamesWhereMonotone(fs, f => Accepts(a, f), f => Accepts(b, f));
    NamesWhereMonotone(fs, f => Accepts(b, f), f => Accepts(a, f));
    NamesWhereMonotone(fs, f => AcceptsIfArg0(a, f), f => AcceptsIfArg0(b, f));
    NamesWhereMonotone(fs, f => AcceptsIfArg0(b, f), f => AcceptsIfArg0(a, f));
  }

  // ----- the loop -----

  const MAX_ROUNDS := 64

  /** The bound on the rounds bites neither in a small program nor in one without recursion
      whose calls nest less deeply than it. */
  method MustChargeFixpoint(fs: seq<Function>) returns (facts: Facts)
    ensures exists n: nat ::
      n <= 64 && facts == Iterate(fs, n) && (n < 64 ==> Round(fs, facts) == facts)
    ensures 2 * |fs| < 64 || Acyclic(fs, 64) ==> Round(fs, facts) == facts
  {
    facts := Facts([], []);
    for round := 0 to MAX_ROUNDS
      invariant facts == Iterate(fs, round)
      invariant round <= |facts.known| + |facts.knownIfArg0| <= 2 * |fs|
    {
      var next := Round(fs, facts);
      LengthTestIsExact(fs, round);
      RoundMonotone(fs, facts, facts);
      if |next.known| == |facts.known| && |next.knownIfArg0| == |facts.knownIfArg0| {
        return facts;
      }
      facts := next;
    }
    if Acyclic(fs, MAX_ROUNDS) {
      ghost var rank :| RankedBelow(fs, rank, MAX_ROUNDS);
      AcyclicFixpoint(fs, rank, MAX_ROUNDS, MAX_ROUNDS);
    }
  }
}
