/** The two-counter gas machine: the cells `ev + 64` (gas left), `ev + 72` (state-gas
    reservoir), `ev + 184` (gas used) and `ev + 192` (gas the reservoir borrowed), and the
    three functions that move gas between them, on wrapping words. */
module GasMachine {
  import opened Words

  datatype Gas = Gas(left: Word, reservoir: Word, used: Word, spilled: Word)

  datatype GasOp =
    | ChargeGas(amount: Word)
    | ChargeStateGas(amount: Word)
    | CreditStateGasRefund(amount: Word)

  /** What an operation leaves; `None` when it raises, which it does before any store. */
  function Apply(g: Gas, op: GasOp): Option<Gas> {
    match op
    case ChargeGas(amount) =>
      if g.left < amount then None
      else Some(g.(left := WSub(g.left, amount), used := WAdd(g.used, amount)))
    case ChargeStateGas(amount) =>
      if g.reservoir >= amount then Some(g.(reservoir := WSub(g.reservoir, amount)))
      else if AddSat(g.reservoir, g.left) >= amount then
        var rem := WSub(amount, g.reservoir);
        Some(g.(reservoir := 0, left := WSub(g.left, rem), spilled := WAdd(g.spilled, rem)))
      else None
    case CreditStateGasRefund(amount) =>
      var fromLeft := MinWord(amount, g.spilled);
      Some(g.(left := WAdd(g.left, fromLeft),
              spilled := WSub(g.spilled, fromLeft),
              reservoir := WAdd(g.reservoir, WSub(amount, fromLeft))))
  }

  /** Whether an addition or subtraction of the operation leaves the word range. */
  predicate Wraps(g: Gas, op: GasOp) {
    match op
    case ChargeGas(amount) =>
      g.left >= amount && g.used + amount >= WORD_SIZE
    case ChargeStateGas(amount) =>
      && g.reservoir < amount <= AddSat(g.reservoir, g.left)
      && (amount - g.reservoir > g.left || g.spilled + (amount - g.reservoir) >= WORD_SIZE)
    case CreditStateGasRefund(amount) =>
      var fromLeft := MinWord(amount, g.spilled);
      g.left + fromLeft >= WORD_SIZE || g.reservoir + (amount - fromLeft) >= WORD_SIZE
  }

  /** The four cells as unbounded numbers. */
  datatype Plain = Plain(left: int, reservoir: int, used: int, spilled: int)

  /** What an operation would leave without a word size: gas left and then used, state gas from
      the reservoir and then from the gas left, a credit for what was lent and then for the
      reservoir; and nothing at all where there is too little. */
  function PlainStep(g: Plain, op: GasOp): Plain {
    match op
    case ChargeGas(amount) =>
      if g.left < amount then g else g.(left := g.left - amount, used := g.used + amount)
    case ChargeStateGas(amount) =>
      if g.reservoir + g.left < amount then g
      else
        var lent := if amount <= g.reservoir then 0 else amount - g.reservoir;
        g.(reservoir := g.reservoir - (amount - lent), left := g.left - lent, spilled := g.spilled + lent)
    case CreditStateGasRefund(amount) =>
      var repaid := if amount <= g.spilled then amount else g.spilled;
      g.(left := g.left + repaid, spilled := g.spilled - repaid, reservoir := g.reservoir + (amount - repaid))
  }

  function PlainOf(g: Gas): Plain {
    Plain(g.left, g.reservoir, g.used, g.spilled)
  }

  /** Wrapping is exactly where the machine parts from unbounded arithmetic, and there the
      unbounded result is not of words. */
  lemma WrapsIsInexact(g: Gas, op: GasOp)
    ensures !Wraps(g, op) <==> PlainOf(Step(g, op)) == PlainStep(PlainOf(g), op)
    ensures var t := PlainStep(PlainOf(g), op);
      Wraps(g, op) <==> t.left >= WORD_SIZE || t.reservoir >= WORD_SIZE || t.used >= WORD_SIZE || t.spilled >= WORD_SIZE
  {}

  // ----- runs -----

  function Step(g: Gas, op: GasOp): Gas {
    var after := Apply(g, op);
    if after.Some? then after.value else g
  }

  function RunOps(g: Gas, ops: seq<GasOp>): Gas
    decreases |ops|
  {
    if ops == [] then g else Step(RunOps(g, ops[..|ops| - 1]), ops[|ops| - 1])
  }

  /** What a run has moved in all: gas charged, state gas charged, state gas credited, and
      the number of charges of at least 1. Operations that raise move nothing. */
  datatype Moved = Moved(gas: nat, state: nat, credited: nat, charges: nat)

  function Count(m: Moved, g: Gas, op: GasOp): Moved {
    if Apply(g, op).None? then m
    else
      match op
      case ChargeGas(amount) =>
        m.(gas := m.gas + amount, charges := m.charges + if amount >= 1 then 1 else 0)
      case ChargeStateGas(amount) => m.(state := m.state + amount)
      case CreditStateGasRefund(amount) => m.(credited := m.credited + amount)
  }

  function MovedBy(g: Gas, ops: seq<GasOp>): Moved
    decreases |ops|
  {
    if ops == [] then Moved(0, 0, 0, 0)
    else
      var last := |ops| - 1;
      Count(MovedBy(g, ops[..last]), RunOps(g, ops[..last]), ops[last])
  }

  // ----- what every run keeps -----

  /** Gas only changes hands between the counters, up to whole multiples of the word size:
      no assumption on the state or the run. */
  lemma {:induction false} GasConserved(g: Gas, ops: seq<GasOp>)
    ensures var t := RunOps(g, ops);
      (t.left + t.used + t.spilled) % WORD_SIZE == (g.left + g.used + g.spilled) % WORD_SIZE
    decreases |ops|
  {
    hide Apply, Step;
    if ops != [] {
      var last := |ops| - 1;
      GasConserved(g, ops[..last]);
      GasStep(RunOps(g, ops[..last]), ops[last]);
    }
  }

  lemma GasStep(g: Gas, op: GasOp)
    ensures var t := Step(g, op);
      (t.left + t.used + t.spilled) % WORD_SIZE == (g.left + g.used + g.spilled) % WORD_SIZE
  {
    var t := Step(g, op);
    var moved := t.left + t.used + t.spilled - (g.left + g.used + g.spilled);
    assert moved == 0 || moved == WORD_SIZE || moved == -WORD_SIZE || moved == 2 * WORD_SIZE || moved == -2 * WORD_SIZE;
    WholeWords(g.left + g.used + g.spilled, moved);
  }

  lemma WholeWords(x: int, moved: int)
    requires moved == 0 || moved == WORD_SIZE || moved == -WORD_SIZE || moved == 2 * WORD_SIZE
      || moved == -2 * WORD_SIZE
    ensures (x + moved) % WORD_SIZE == x % WORD_SIZE
  {}

  /** What is in the reservoir is what was there, less what it borrowed back from, less what
      was charged to it, plus what was credited: again for every run, modulo the word. */
  lemma {:induction false} ReservoirConserved(g: Gas, ops: seq<GasOp>)
    ensures var t, m := RunOps(g, ops), MovedBy(g, ops);
      (t.reservoir - t.spilled + m.state - m.credited) % WORD_SIZE == (g.reservoir - g.spilled) % WORD_SIZE
    decreases |ops|
  {
    hide Apply, Step, Count;
    if ops != [] {
      var last := |ops| - 1;
      ReservoirConserved(g, ops[..last]);
      ReservoirStep(RunOps(g, ops[..last]), MovedBy(g, ops[..last]), ops[last]);
    }
  }

  lemma ReservoirStep(g: Gas, m: Moved, op: GasOp)
    ensures var t, n := Step(g, op), Count(m, g, op);
      (t.reservoir - t.spilled + n.state - n.credited) % WORD_SIZE ==
        (g.reservoir - g.spilled + m.state - m.credited) % WORD_SIZE
  {}

  /** A measure that refunds cannot raise: gas left plus gas lent to the reservoir falls by
      at least every charge, wherever the run started and whether or not anything wrapped. */
  lemma {:induction false} ChargesSpendTheMeasure(g: Gas, ops: seq<GasOp>)
    ensures var t, m := RunOps(g, ops), MovedBy(g, ops);
      t.left + t.spilled + m.gas <= g.left + g.spilled && m.charges <= m.gas
    decreases |ops|
  {
    if ops != [] {
      ChargesSpendTheMeasure(g, ops[..|ops| - 1]);
    }
  }

  /** So a frame makes at most `left + spilled` charges of at least 1, refunds or no refunds. */
  lemma ChargesAreBounded(g: Gas, ops: seq<GasOp>)
    ensures MovedBy(g, ops).charges <= g.left + g.spilled
  {
    ChargesSpendTheMeasure(g, ops);
  }

  /** The plain gas sum is no such measure: a credit raises it by its whole amount. */
  lemma CreditRaisesTheSum(g: Gas, amount: Word)
    requires !Wraps(g, CreditStateGasRefund(amount))
    ensures var t := Step(g, CreditStateGasRefund(amount));
      t.left + t.reservoir == g.left + g.reservoir + amount && t.left + t.spilled == g.left + g.spilled
  {}

  // ----- runs that never wrap -----

  ghost predicate NeverWraps(g: Gas, ops: seq<GasOp>) {
    forall k :: 0 <= k < |ops| ==> !Wraps(RunOps(g, ops[..k]), ops[k])
  }

  /** At no point of the run do the credits exceed the state gas charged so far. */
  ghost predicate CreditsCovered(g: Gas, ops: seq<GasOp>) {
    forall k :: 0 <= k <= |ops| ==> MovedBy(g, ops[..k]).credited <= MovedBy(g, ops[..k]).state
  }

  predicate FitsWord(g: Gas) {
    g.left + g.used + g.spilled < WORD_SIZE
  }

  /** When the counters' sum fits a word and nothing has wrapped, both laws hold exactly. */
  lemma {:induction false} ExactConservation(g: Gas, ops: seq<GasOp>)
    requires FitsWord(g) && NeverWraps(g, ops)
    ensures var t, m := RunOps(g, ops), MovedBy(g, ops);
      && t.left + t.used + t.spilled == g.left + g.used + g.spilled
      && t.used == g.used + m.gas
      && t.reservoir - t.spilled + m.state - m.credited == g.reservoir - g.spilled
    decreases |ops|
  {
    hide Apply, Step, Count, Wraps;
    if ops != [] {
      var before := ops[..|ops| - 1];
      assert forall k :: 0 <= k < |before| ==> before[..k] == ops[..k];
      ExactConservation(g, before);
      ExactStep(RunOps(g, before), MovedBy(g, before), ops[|before|]);
    }
  }

  lemma ExactStep(g: Gas, m: Moved, op: GasOp)
    requires FitsWord(g) && !Wraps(g, op)
    ensures var t, n := Step(g, op), Count(m, g, op);
      && t.left + t.used + t.spilled == g.left + g.used + g.spilled
      && t.used - n.gas == g.used - m.gas
      && t.reservoir - t.spilled + n.state - n.credited == g.reservoir - g.spilled + m.state - m.credited
  {}

  /** Exactly when the next operation wraps: only a credit can, and it does when more has
      been credited than the reservoir was charged and could hold. */
  lemma WrapsIff(g: Gas, ops: seq<GasOp>, op: GasOp)
    requires FitsWord(g) && NeverWraps(g, ops)
    ensures var m := MovedBy(g, ops);
      Wraps(RunOps(g, ops), op) <==>
        op.CreditStateGasRefund? && g.reservoir - g.spilled + m.credited + op.amount - m.state >= WORD_SIZE
  {
    ExactConservation(g, ops);
  }

  lemma CreditsCount(m: Moved, g: Gas, op: GasOp)
    requires op.CreditStateGasRefund?
    ensures var n := Count(m, g, op); n.credited == m.credited + op.amount && n.state == m.state
  {}

  /** A run whose credits are covered by its state charges never wraps. */
  lemma {:induction false} CoveredRunsNeverWrap(g: Gas, ops: seq<GasOp>)
    requires FitsWord(g) && CreditsCovered(g, ops)
    ensures NeverWraps(g, ops)
    decreases |ops|
  {
    hide Apply, Step, Count, Wraps;
    if ops != [] {
      var last := |ops| - 1;
      var before := ops[..last];
      assert forall k :: 0 <= k <= |before| ==> before[..k] == ops[..k];
      assert ops[..|ops|] == ops;
      CoveredRunsNeverWrap(g, before);
      WrapsIff(g, before, ops[last]);
      if ops[last].CreditStateGasRefund? {
        CreditsCount(MovedBy(g, before), RunOps(g, before), ops[last]);
      }
    }
  }

  // ----- the counters as the guest keeps them -----

  /** The four cells of one frame, updated in place. */
  class GasCounters {
    var left: Word
    var reservoir: Word
    var used: Word
    var spilled: Word

    function Contents(): Gas
      reads this
    {
      Gas(left, reservoir, used, spilled)
    }

    constructor (g: Gas)
      ensures Contents() == g
    {
      left, reservoir, used, spilled := g.left, g.reservoir, g.used, g.spilled;
    }

    /** `charge_gas`: false stands for raising `EvmErr`. */
    method Charge(amount: Word) returns (ok: bool)
      modifies this
      ensures ok == (amount <= old(left))
      ensures Contents() == Step(old(Contents()), ChargeGas(amount))
      ensures ok ==> left == old(left) - amount
    {
      var gl := left;
      if gl < amount {
        return false;
      }
      left := WSub(gl, amount);
      used := WAdd(used, amount);
      return true;
    }

    /** `charge_state_gas`: the reservoir pays first, and borrows what it is short of. */
    method ChargeState(amount: Word) returns (ok: bool)
      modifies this
      ensures ok == (amount <= old(reservoir) + old(left))
      ensures Contents() == Step(old(Contents()), ChargeStateGas(amount))
      ensures ok ==> left + reservoir == old(left) + old(reservoir) - amount
    {
      var sgl, gl := reservoir, left;
      if sgl >= amount {
        reservoir := WSub(sgl, amount);
        return true;
      }
      var tot := AddSat(sgl, gl);
      if tot >= amount {
        var rem := WSub(amount, sgl);
        reservoir := 0;
        left := WSub(gl, rem);
        spilled := WAdd(spilled, rem);
        return true;
      }
      return false;
    }

    /** `credit_state_gas_refund`: what was borrowed is paid back first. */
    method Credit(amount: Word)
      modifies this
      ensures Contents() == Step(old(Contents()), CreditStateGasRefund(amount))
      ensures spilled == if amount < old(spilled) then old(spilled) - amount else 0
      ensures used == old(used)
    {
      var lent := spilled;
      var fromLeft := MinWord(amount, lent);
      left := WAdd(left, fromLeft);
      spilled := WSub(lent, fromLeft);
      reservoir := WAdd(reservoir, WSub(amount, fromLeft));
    }
  }
}
