/** What the must-charge analysis relies on without looking at it.

    `Disciplined` follows a program up to its charge, with an upper bound on every local that
    is certain to be at least 1, and asks that nothing on the way break what the analysis
    takes for granted. Beyond the charge it asks nothing. */
module Discipline {
  import opened Words
  import opened Pancake
  import opened OpcodeCensus

  /** Locals certain to be at least 1, each with a bound from above. */
  type Caps = map<string, Word>

  ghost predicate Within(caps: Caps, s: State) {
    forall x :: x in caps ==> x in s.locals && 1 <= s.locals[x] <= caps[x]
  }

  predicate Covers(caps: Caps, pos: seq<string>) {
    forall x :: x in pos ==> x in caps
  }

  // ----- values certain to be positive -----

  /** A bound on the value of an expression that is certain to be at least 1: a literal, a
      tracked local, or such a one and a literal whose sum cannot wrap. */
  function CapOf(caps: Caps, e: Exp): Option<Word> {
    match e
    case Const(k) => if k >= 1 then Some(k) else None
    case Var(Local, x) => Lookup(caps, x)
    case Op(Add, args) =>
      if |args| == 2 && args[1].Const? then
        var cap :- CapOf(caps, args[0]);
        if cap + args[1].w <= WORD_MAX then Some(cap + args[1].w) else None
      else None
    case _ => None
  }

  /** What a call is certain to return: `add_sat` of something positive saturates at worst. */
  function BindingCap(caps: Caps, fn: string, args: seq<Exp>): Option<Word> {
    if fn == "add_sat" && exists i :: 0 <= i < |args| && CapOf(caps, args[i]).Some? then Some(WORD_MAX) else None
  }

  function Bound(caps: Caps, x: string, cap: Option<Word>): Caps {
    if cap.Some? then caps[x := cap.value] else caps - {x}
  }

  lemma {:induction false} CapBounds(c: Program, s: State, caps: Caps, e: Exp)
    requires Within(caps, s) && CapOf(caps, e).Some?
    ensures EvalExp(c, s, e).Some? && 1 <= EvalExp(c, s, e).value <= CapOf(caps, e).value
  {
    if e.Op? {
      CapBounds(c, s, caps, e.args[0]);
      assert e.args == [e.args[0], e.args[1]];
      EvalBinary(c, s, Add, e.args[0], e.args[1]);
    }
  }

  // ----- the habits -----

  /** The analysis looks names up without their kind; a global of a tracked name misleads it. */
  predicate NamesTrackedGlobal(pos: seq<string>, e: Exp) {
    e.Var? && e.kind.Global? && e.name in pos
  }

  predicate NoTrackedGlobals(pos: seq<string>, es: seq<Exp>) {
    forall i :: 0 <= i < |es| ==> !NamesTrackedGlobal(pos, es[i])
  }

  /** What the analysis credits as positive is positive. */
  lemma CertainIsCapped(caps: Caps, pos: seq<string>, e: Exp)
    requires Covers(caps, pos) && CertainlyPositive(pos, e) && !NamesTrackedGlobal(pos, e)
    ensures CapOf(caps, e).Some?
  {}

  lemma BindingIsCapped(caps: Caps, pos: seq<string>, fn: string, args: seq<Exp>)
    requires Covers(caps, pos) && NoTrackedGlobals(pos, args) && PositiveBinding(pos, fn, args)
    ensures BindingCap(caps, fn, args).Some?
  {
    var i :| 0 <= i < |args| && CertainlyPositive(pos, args[i]);
    CertainIsCapped(caps, pos, args[i]);
  }

  /** No call whose own return, or whose handler's, is the enclosing function's return. */
  predicate NoTailCall(p: Prog) {
    match p
    case Call(info, _, _) => info.Assigned? && info.handler.None?
    case Seq(a, b) => NoTailCall(a) && NoTailCall(b)
    case Ite(_, t, e) => NoTailCall(t) && NoTailCall(e)
    case Dec(_, _, b) => NoTailCall(b)
    case DecCall(_, _, _, b) => NoTailCall(b)
    case While(_, b) => NoTailCall(b)
    case _ => true
  }

  function AssignedLocal(info: CallInfo): Option<string> {
    if info.Assigned? && info.dest.Some? && info.dest.value.kind.Local? then Some(info.dest.value.name) else None
  }

  function Join(a: Caps, b: Caps): Caps {
    map x | x in a && x in b :: if a[x] <= b[x] then b[x] else a[x]
  }

  function JoinRuns(a: Option<Caps>, b: Option<Caps>): Option<Caps> {
    if a.None? then b else if b.None? then a else Some(Join(a.value, b.value))
  }

  /** The caps a block leaves, with the binding that it shadowed back in force. */
  function Unshadowed(caps: Caps, x: string, inner: Option<Caps>): Option<Caps> {
    if inner.None? then None else Some(Bound(inner.value, x, Lookup(caps, x)))
  }

  /** The caps that hold where a program falls through without having paid; none where it
      cannot. Inside a loop, `steady`, they are those it started with. */
  function After(facts: Facts, pos: seq<string>, caps: Caps, steady: bool, p: Prog): Option<Caps>
    decreases p
  {
    if MustCharge(facts, pos, p) then None
    else if steady then Some(caps)
    else
      match p
      case Assign(Local, x, v) => Some(if x in caps then Bound(caps, x, CapOf(caps, v)) else caps)
      case Call(info, _, _) => Some(if AssignedLocal(info).Some? then caps - {AssignedLocal(info).value} else caps)
      case Seq(a, b) =>
        var middle :- After(facts, pos, caps, steady, a);
        After(facts, pos, middle, steady, b)
      case Ite(_, t, e) => JoinRuns(After(facts, pos, caps, steady, t), After(facts, pos, caps, steady, e))
      case Dec(x, v, b) =>
        Unshadowed(caps, x,
          After(facts, Track(pos, x, CertainlyPositive(pos, v)), Bound(caps, x, CapOf(caps, v)), steady, b))
      case DecCall(x, fn, args, b) =>
        Unshadowed(caps, x,
          After(facts, Track(pos, x, PositiveBinding(pos, fn, args)), Bound(caps, x, BindingCap(caps, fn, args)),
            steady, b))
      case _ => Some(caps)
  }

  /** Up to its charge, the program assigns to a tracked local, and shadows it, only with
      values certain to be positive, and within a loop only with values under its cap; it
      ends the frame through the global `ev`; it passes no global of a tracked name; its
      calls carry no exception handler; and the first half of a sequence makes no tail call
      where the analysis relies on it not to return. */
  predicate Disciplined(facts: Facts, pos: seq<string>, caps: Caps, steady: bool, p: Prog)
    decreases p
  {
    match p
    case Dec(x, v, b) =>
      var cap := CapOf(caps, v);
      && !NamesTrackedGlobal(pos, v)
      && (x in pos ==> cap.Some?)
      && Disciplined(facts, Track(pos, x, CertainlyPositive(pos, v)), Bound(caps, x, cap), steady, b)
    case Assign(kind, x, v) =>
      var cap := CapOf(caps, v);
      kind.Local? ==> (x in pos ==> cap.Some?) && (steady && x in caps ==> cap.Some? && cap.value <= caps[x])
    case Store(address, value) => ClearsRunning(address, value) ==> address.args[0].kind.Global?
    case Seq(a, b) =>
      && Disciplined(facts, pos, caps, steady, a)
      && (MustCharge(facts, pos, a)
          || ((ContainsReturn(a) || NoTailCall(a))
              && var middle := After(facts, pos, caps, steady, a);
                 middle.Some? ==> Disciplined(facts, pos, middle.value, steady, b)))
    case Ite(_, t, e) => Disciplined(facts, pos, caps, steady, t) && Disciplined(facts, pos, caps, steady, e)
    case While(_, b) => Disciplined(facts, pos, caps, true, b)
    case Call(info, fn, args) =>
      && NoTrackedGlobals(pos, args)
      && (info.Assigned? ==> info.handler.None?)
      && (ChargingCall(facts, pos, fn, args)
          || var dest := AssignedLocal(info);
             dest.Some? ==> dest.value !in pos && (steady ==> dest.value !in caps))
    case DecCall(x, fn, args, b) =>
      var cap := BindingCap(caps, fn, args);
      && NoTrackedGlobals(pos, args)
      && (ChargingCall(facts, pos, fn, args)
          || ((x in pos ==> cap.Some?)
              && Disciplined(facts, Track(pos, x, PositiveBinding(pos, fn, args)), Bound(caps, x, cap), steady, b)))
    case _ => true
  }

  /** What the analysis tracks stays covered wherever the program falls through unpaid. */
  lemma {:induction false} AfterCovers(facts: Facts, pos: seq<string>, caps: Caps, steady: bool, p: Prog)
    requires Covers(caps, pos) && Disciplined(facts, pos, caps, steady, p)
    ensures var after := After(facts, pos, caps, steady, p); after.Some? ==> Covers(after.value, pos)
    decreases p
  {
    if !steady && !MustCharge(facts, pos, p) {
      match p
      case Seq(a, b) =>
        AfterCovers(facts, pos, caps, steady, a);
        var middle := After(facts, pos, caps, steady, a);
        if middle.Some? {
          AfterCovers(facts, pos, middle.value, steady, b);
        }
      case Ite(_, t, e) =>
        AfterCovers(facts, pos, caps, steady, t);
        AfterCovers(facts, pos, caps, steady, e);
      case Dec(x, v, b) =>
        BlockCovers(caps, pos, x, CapOf(caps, v), CertainlyPositive(pos, v)) by {
          if CertainlyPositive(pos, v) {
            CertainIsCapped(caps, pos, v);
          }
        }
        AfterCovers(facts, Track(pos, x, CertainlyPositive(pos, v)), Bound(caps, x, CapOf(caps, v)), steady, b);
      case DecCall(x, fn, args, b) =>
        BlockCovers(caps, pos, x, BindingCap(caps, fn, args), PositiveBinding(pos, fn, args)) by {
          if PositiveBinding(pos, fn, args) {
            BindingIsCapped(caps, pos, fn, args);
          }
        }
        AfterCovers(facts, Track(pos, x, PositiveBinding(pos, fn, args)), Bound(caps, x, BindingCap(caps, fn, args)),
          steady, b);
      case _ =>
    }
  }

  /** On entry to a block, the new binding included. */
  lemma BlockCovers(caps: Caps, pos: seq<string>, x: string, cap: Option<Word>, positive: bool)
    requires Covers(caps, pos) && (x in pos || positive ==> cap.Some?)
    ensures Covers(Bound(caps, x, cap), Track(pos, x, positive))
  {}
}
