/** SSZ containers: fixed-size parts and offsets first, the variable-size parts after. */
module SszContainer {
  import opened Words
  import opened InputDecode
  import opened Ssz

  /** A fixed-size part, or the place of an offset. */
  type Part = Option<Blob>

  function PartLength(part: Part): nat {
    if part.None? then 4 else |part.value|
  }

  function FixedLength(fixed: seq<Part>): nat {
    if fixed == [] then 0 else FixedLength(fixed[..|fixed| - 1]) + PartLength(fixed[|fixed| - 1])
  }

  function Placeholders(fixed: seq<Part>): nat {
    if fixed == [] then 0
    else Placeholders(fixed[..|fixed| - 1]) + if fixed[|fixed| - 1].None? then 1 else 0
  }

  lemma FixedStep(fixed: seq<Part>, i: nat)
    requires i < |fixed|
    ensures FixedLength(fixed[..i + 1]) == FixedLength(fixed[..i]) + PartLength(fixed[i])
    ensures Placeholders(fixed[..i + 1]) == Placeholders(fixed[..i]) + if fixed[i].None? then 1 else 0
  {
    assert fixed[..i + 1][..i] == fixed[..i];
  }

  /** The fixed-size parts, with the offset of variable part `k` in placeholder `k`. */
  function Heads(fixed: seq<Part>, vars: seq<Blob>, base: nat): (r: Option<Blob>)
    ensures r.Some? ==> |r.value| == FixedLength(fixed) && Placeholders(fixed) <= |vars|
  {
    if fixed == [] then Some([])
    else
      var before, part := fixed[..|fixed| - 1], fixed[|fixed| - 1];
      var init :- Heads(before, vars, base);
      if part.Some? then Some(init + part.value)
      else if Placeholders(before) >= |vars| then None
      else
        var offset :- U32(base + Total(vars[..Placeholders(before)]));
        Some(init + offset)
  }

  /** No result where the program raises: too few or too many variable parts, or an offset
      that does not fit. */
  function Container(fixed: seq<Part>, vars: seq<Blob>): (r: Option<Blob>)
    ensures r.Some? ==> |r.value| == FixedLength(fixed) + Total(vars)
  {
    var heads :- Heads(fixed, vars, FixedLength(fixed));
    if Placeholders(fixed) != |vars| then None else Some(heads + Concat(vars))
  }

  lemma {:induction false} HeadsPrefix(fixed: seq<Part>, vars: seq<Blob>, base: nat, i: nat)
    requires i <= |fixed| && Heads(fixed, vars, base).Some?
    ensures Heads(fixed[..i], vars, base).Some?
    decreases |fixed|
  {
    if i == |fixed| {
      assert fixed[..i] == fixed;
    } else {
      HeadsPrefix(fixed[..|fixed| - 1], vars, base, i);
      assert fixed[..|fixed| - 1][..i] == fixed[..i];
    }
  }

  /** What part `i` adds to the fixed-size parts before it. */
  function WithHead(out: Blob, part: Part, vars: seq<Blob>, base: nat, index: nat): Option<Blob> {
    if part.Some? then Some(out + part.value)
    else if index >= |vars| then None
    else
      var offset :- U32(base + Total(vars[..index]));
      Some(out + offset)
  }

  lemma HeadsStep(fixed: seq<Part>, vars: seq<Blob>, base: nat, i: nat)
    requires i < |fixed|
    ensures var before := Heads(fixed[..i], vars, base);
      Heads(fixed[..i + 1], vars, base) ==
        if before.None? then None else WithHead(before.value, fixed[i], vars, base, Placeholders(fixed[..i]))
  {
    hide U32, FixedLength, Total, Placeholders;
    assert fixed[..i + 1][..i] == fixed[..i];
  }

  method FixedLengthLoop(fixed: seq<Part>) returns (n: nat)
    ensures n == FixedLength(fixed)
  {
    n := 0;
    for i := 0 to |fixed|
      invariant n == FixedLength(fixed[..i])
    {
      FixedStep(fixed, i);
      n := n + PartLength(fixed[i]);
    }
    assert fixed[..|fixed|] == fixed;
  }

  lemma NothingYet(vars: seq<Blob>, base: nat)
    ensures Placeholders([]) == 0 && Heads([], vars, base) == Some([])
    ensures Total(vars[..0]) == 0 && Concat(vars[..0]) == []
  {}

  /** `container`: one pass writes the parts and the offsets and collects the tail. */
  method ContainerLoop(fixed: seq<Part>, vars: seq<Blob>) returns (r: Option<Blob>)
    ensures r == Container(fixed, vars)
  {
    hide U32, FixedLength, Placeholders, Heads, Total, Concat;
    var fixedLength := FixedLengthLoop(fixed);
    NothingYet(vars, fixedLength);
    var out: Blob, offset, tail: Blob, index := [], fixedLength, [], 0;
    var i := 0;
    while i < |fixed|
      invariant 0 <= i <= |fixed|
      invariant index == Placeholders(fixed[..i]) <= |vars|
      invariant Heads(fixed[..i], vars, fixedLength) == Some(out)
      invariant offset == fixedLength + Total(vars[..index]) && tail == Concat(vars[..index])
    {
      FixedStep(fixed, i);
      HeadsStep(fixed, vars, fixedLength, i);
      if fixed[i].Some? {
        out := out + fixed[i].value;
      } else {
        var word := U32(offset);
        if word == None || index == |vars| {
          if Heads(fixed, vars, fixedLength).Some? {
            HeadsPrefix(fixed, vars, fixedLength, i + 1);
          }
          return None;
        }
        TotalStep(vars, index);
        out := out + word.value;
        offset := offset + |vars[index]|;
        tail := tail + vars[index];
        index := index + 1;
      }
      i := i + 1;
    }
    assert fixed[..i] == fixed;
    if index != |vars| {
      return None;
    }
    assert vars[..index] == vars;
    r := Some(out + tail);
  }

  // ----- reading a container back -----

  lemma {:induction false} HeadAt(b: Blob, p: nat, fixed: seq<Part>, vars: seq<Blob>, base: nat, i: nat)
    requires Heads(fixed, vars, base).Some? && At(b, p, Heads(fixed, vars, base).value) && i < |fixed|
    ensures fixed[i].Some? ==> At(b, p + FixedLength(fixed[..i]), fixed[i].value)
    ensures var k := Placeholders(fixed[..i]); fixed[i].None? ==>
      k < |vars| && p + FixedLength(fixed[..i]) + 4 <= |b|
      && Le32(b, p + FixedLength(fixed[..i])) == base + Total(vars[..k])
    decreases |fixed|
  {
    hide At, U32, Total, Placeholders, FixedLength, Heads;
    var last := |fixed| - 1;
    var before := fixed[..last];
    assert before == fixed[..last] && fixed[..last + 1] == fixed;
    HeadsStep(fixed, vars, base, last);
    var init := Heads(before, vars, base).value;
    if fixed[last].Some? {
      AtAppend(b, p, init, fixed[last].value);
    } else {
      var offset := base + Total(vars[..Placeholders(before)]);
      AtAppend(b, p, init, U32(offset).value);
      if i == last {
        U32ReadsBack(b, p + FixedLength(before), offset);
      }
    }
    if i < last {
      HeadAt(b, p, before, vars, base, i);
      assert before[..i] == fixed[..i];
    }
  }

  /** A fixed-size part of a container at `p`. */
  lemma PartOf(b: Blob, p: nat, fixed: seq<Part>, vars: seq<Blob>, i: nat)
    requires Container(fixed, vars).Some? && At(b, p, Container(fixed, vars).value)
    requires i < |fixed| && fixed[i].Some?
    ensures At(b, p + FixedLength(fixed[..i]), fixed[i].value)
  {
    hide Total, Concat, FixedLength, Placeholders, Heads, Le32, At;
    AtAppend(b, p, Heads(fixed, vars, FixedLength(fixed)).value, Concat(vars));
    HeadAt(b, p, fixed, vars, FixedLength(fixed), i);
  }

  /** An offset of a container at `p` leads to its variable part. */
  lemma OffsetOf(b: Blob, p: nat, fixed: seq<Part>, vars: seq<Blob>, i: nat)
    requires Container(fixed, vars).Some? && At(b, p, Container(fixed, vars).value)
    requires i < |fixed| && fixed[i].None?
    ensures var k := Placeholders(fixed[..i]);
      && k < |vars|
      && Le32(b, p + FixedLength(fixed[..i])) == FixedLength(fixed) + Total(vars[..k])
      && At(b, p + FixedLength(fixed) + Total(vars[..k]), vars[k])
  {
    hide Total, Concat, FixedLength, Placeholders, Heads, Le32, At;
    var heads := Heads(fixed, vars, FixedLength(fixed)).value;
    AtAppend(b, p, heads, Concat(vars));
    HeadAt(b, p, fixed, vars, FixedLength(fixed), i);
    PartAt(b, p + |heads|, vars, Placeholders(fixed[..i]));
  }

  // ----- when building succeeds -----

  lemma {:induction false} HeadsFit(fixed: seq<Part>, vars: seq<Blob>, base: nat)
    requires Placeholders(fixed) <= |vars| && base + Total(vars) < 0x1_0000_0000
    ensures Heads(fixed, vars, base).Some?
    decreases |fixed|
  {
    if fixed != [] {
      var before := fixed[..|fixed| - 1];
      HeadsFit(before, vars, base);
      if Placeholders(before) < |vars| {
        TotalMonotone(vars, Placeholders(before), |vars|);
        assert vars[..|vars|] == vars;
      }
    }
  }

  /** A container below 4 GiB whose placeholders match its variable parts can be built. */
  lemma ContainerFits(fixed: seq<Part>, vars: seq<Blob>)
    requires FixedLength(fixed) + Total(vars) < 0x1_0000_0000
    ensures Container(fixed, vars).Some? <==> Placeholders(fixed) == |vars|
  {
    if Placeholders(fixed) == |vars| {
      HeadsFit(fixed, vars, FixedLength(fixed));
    }
  }

  lemma {:induction false} OffsetTableFits(es: seq<Blob>, base: nat, n: nat)
    requires n <= |es| && base + Total(es) < 0x1_0000_0000
    ensures OffsetTable(es, base, n).Some?
    decreases n
  {
    if n > 0 {
      OffsetTableFits(es, base, n - 1);
      TotalMonotone(es, n - 1, |es|);
      assert es[..|es|] == es;
    }
  }

  lemma VarListFits(es: seq<Blob>)
    requires 4 * |es| + Total(es) < 0x1_0000_0000
    ensures VarList(es).Some?
  {
    if es != [] {
      OffsetTableFits(es, 4 * |es|, |es|);
    }
  }
}
