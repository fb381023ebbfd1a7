/** `cleanInstrumentData` (src/overmind/Device/utils.ts): the instrument list
    of an xsbug `instruments` message is folded into display groups. An
    instrument whose value is the separator `" / "` opens a group that the
    next instrument joins, so the pair is shown as one "a / b" entry. */
module Instruments {
  import opened XsbugParser

  const Separator: string := " / "

  /** One display entry: the name of its first instrument, the values and
      the positions in the input of the instruments it holds. */
  datatype Group = Group(name: string, value: seq<string>, indices: seq<nat>)

  /** The fold's test: the last group holds exactly the separator. */
  predicate AwaitsPartner(acc: seq<Group>) {
    |acc| > 0 && |acc[|acc| - 1].value| == 1 && acc[|acc| - 1].value[0] == Separator
  }

  /** One step of the fold, for the instrument `def` at position `i`. */
  function Step(acc: seq<Group>, def: InstrumentDef, i: nat): (r: seq<Group>)
    ensures AwaitsPartner(acc) ==>
      (|r| == |acc| && r[..|acc| - 1] == acc[..|acc| - 1]
       && r[|acc| - 1].name == acc[|acc| - 1].name
       && r[|acc| - 1].value == acc[|acc| - 1].value + [def.value]
       && r[|acc| - 1].indices == acc[|acc| - 1].indices + [i])
    ensures !AwaitsPartner(acc) ==> r == acc + [Group(def.name, [def.value], [i])]
  {
    if AwaitsPartner(acc) then
      var last := acc[|acc| - 1];
      acc[..|acc| - 1] + [Group(last.name, last.value + [def.value], last.indices + [i])]
    else
      acc + [Group(def.name, [def.value], [i])]
  }

  /** The groups the fold has built after the whole of `ins`. */
  function Grouped(ins: seq<InstrumentDef>): seq<Group>
    decreases |ins|
  {
    if ins == [] then [] else Step(Grouped(ins[..|ins| - 1]), ins[|ins| - 1], |ins| - 1)
  }

  /** `cleanInstrumentData`: the `reduce` that pushes new groups onto the
      accumulator or pushes into the last group's arrays. */
  method CleanInstrumentData(instruments: seq<InstrumentDef>) returns (groups: seq<Group>)
    ensures groups == Grouped(instruments)
  {
    groups := [];
    var i := 0;
    while i < |instruments|
      invariant 0 <= i <= |instruments|
      invariant groups == Grouped(instruments[..i])
    {
      var def := instruments[i];
      if |groups| > 0 && |groups[|groups| - 1].value| == 1 && groups[|groups| - 1].value[0] == Separator {
        var last := groups[|groups| - 1];
        groups := groups[..|groups| - 1] + [last.(value := last.value + [def.value], indices := last.indices + [i])];
      } else {
        groups := groups + [Group(def.name, [def.value], [i])];
      }
      assert instruments[..i + 1][..i] == instruments[..i];
      i := i + 1;
    }
    assert instruments[..i] == instruments;
  }

  // ------------------------------------------------------------ properties

  /** The positions of all groups, in group order. */
  function Indices(gs: seq<Group>): seq<nat>
    decreases |gs|
  {
    if gs == [] then [] else Indices(gs[..|gs| - 1]) + gs[|gs| - 1].indices
  }

  /** The number of values across all groups. */
  function TotalValues(gs: seq<Group>): nat
    decreases |gs|
  {
    if gs == [] then 0 else TotalValues(gs[..|gs| - 1]) + |gs[|gs| - 1].value|
  }

  /** 0, 1, …, n - 1. */
  function Range(n: nat): (r: seq<nat>)
    ensures |r| == n && forall i :: 0 <= i < n ==> r[i] == i
  {
    if n == 0 then [] else Range(n - 1) + [n - 1]
  }

  /** The instrument at `k` opens a pair: it is the separator and another
      instrument follows it. */
  predicate OpensPair(ins: seq<InstrumentDef>, k: nat) {
    k + 1 < |ins| && ins[k].value == Separator
  }

  /** A group starting at position k: the single instrument k, or the
      separator k together with its successor k + 1. */
  predicate GroupFrom(ins: seq<InstrumentDef>, g: Group) {
    |g.indices| > 0 && g.indices[0] < |ins|
    && var k := g.indices[0];
    g.name == ins[k].name
    && ((g.indices == [k] && g.value == [ins[k].value])
        || (g.indices == [k, k + 1] && k + 1 < |ins| && ins[k].value == Separator
            && g.value == [ins[k].value, ins[k + 1].value]))
  }

  /** What holds after every step: the positions cover the prefix in order,
      every group is one of the two shapes, and only the last group may be
      a lone separator. */
  ghost predicate Partial(ins: seq<InstrumentDef>, gs: seq<Group>) {
    Indices(gs) == Range(|ins|)
    && (forall j :: 0 <= j < |gs| ==> GroupFrom(ins, gs[j]))
    && (forall j :: 0 <= j < |gs| - 1 && |gs[j].indices| == 1 ==> ins[gs[j].indices[0]].value != Separator)
  }

  lemma IndicesLast(gs: seq<Group>, g: Group)
    ensures Indices(gs + [g]) == Indices(gs) + g.indices
  {
    assert (gs + [g])[..|gs|] == gs;
  }

  lemma GroupFromPrefix(ins: seq<InstrumentDef>, n: nat, g: Group)
    requires n <= |ins|
    requires GroupFrom(ins[..n], g)
    ensures GroupFrom(ins, g)
  {
  }

  lemma {:induction false} GroupedPartial(ins: seq<InstrumentDef>)
    ensures Partial(ins, Grouped(ins))
    decreases |ins|
  {
    if ins != [] {
      var n := |ins| - 1;
      GroupedPartial(ins[..n]);
      if AwaitsPartner(Grouped(ins[..n])) {
        StepPairs(ins, Grouped(ins[..n]));
      } else {
        StepOpens(ins, Grouped(ins[..n]));
      }
    }
  }

  /** The step that completes a pair keeps the fold's invariant. */
  lemma StepPairs(ins: seq<InstrumentDef>, acc: seq<Group>)
    requires ins != [] && Partial(ins[..|ins| - 1], acc) && AwaitsPartner(acc)
    ensures Partial(ins, Step(acc, ins[|ins| - 1], |ins| - 1))
  {
    var n := |ins| - 1;
    var prev := ins[..n];
    var last := acc[|acc| - 1];
    var init := acc[..|acc| - 1];
    var k := last.indices[0];
    assert GroupFrom(prev, last);
    assert last.indices == [k] && last.value == [Separator] && prev[k].value == Separator;
    assert Indices(init) == Range(n - 1) && k == n - 1 by {
      IndicesLast(init, last);
      assert init + [last] == acc;
      assert Range(n) == Range(n - 1) + [n - 1];
      assert Range(n)[n - 1] == n - 1;
      var before := Indices(init);
      assert before == (before + [k])[..n - 1];
    }
    var g := Group(last.name, last.value + [ins[n].value], last.indices + [n]);
    var r := Step(acc, ins[n], n);
    assert r == init + [g];
    assert Indices(r) == Range(n + 1) by {
      IndicesLast(init, g);
      assert Range(n + 1) == Range(n - 1) + [n - 1, n];
    }
    assert GroupFrom(ins, g);
    forall j | 0 <= j < |r|
      ensures GroupFrom(ins, r[j])
    {
      if j < |init| {
        assert r[j] == acc[j];
        GroupFromPrefix(ins, n, acc[j]);
      }
    }
    forall j | 0 <= j < |r| - 1 && |r[j].indices| == 1
      ensures ins[r[j].indices[0]].value != Separator
    {
      assert r[j] == acc[j];
      assert GroupFrom(prev, acc[j]);
    }
  }

  /** The step that opens a new group keeps the fold's invariant. */
  lemma StepOpens(ins: seq<InstrumentDef>, acc: seq<Group>)
    requires ins != [] && Partial(ins[..|ins| - 1], acc) && !AwaitsPartner(acc)
    ensures Partial(ins, Step(acc, ins[|ins| - 1], |ins| - 1))
  {
    var n := |ins| - 1;
    var prev := ins[..n];
    forall j | 0 <= j < |acc|
      ensures GroupFrom(ins, acc[j])
    {
      GroupFromPrefix(ins, n, acc[j]);
    }
    var r := Step(acc, ins[n], n);
    var g := Group(ins[n].name, [ins[n].value], [n]);
    assert r == acc + [g];
    IndicesLast(acc, g);
    assert Indices(r) == Range(n + 1);
    forall j | 0 <= j < |r|
      ensures GroupFrom(ins, r[j])
    {
      if j < |acc| {
        assert r[j] == acc[j];
      }
    }
    forall j | 0 <= j < |r| - 1 && |r[j].indices| == 1
      ensures ins[r[j].indices[0]].value != Separator
    {
      assert r[j] == acc[j];
      if j == |acc| - 1 {
        var k := acc[j].indices[0];
        assert acc[j].value == [prev[k].value];
      }
    }
  }

  /** The whole output of `cleanInstrumentData`: the positions of the groups
      are 0 … n - 1 in order, and each group is either the single instrument
      at its first position or, when that instrument is the separator and
      another follows, the separator and its successor; a group is a pair
      exactly when its first instrument opens one. */
  lemma GroupedShape(ins: seq<InstrumentDef>)
    ensures Indices(Grouped(ins)) == Range(|ins|)
    ensures forall g :: g in Grouped(ins) ==>
      GroupFrom(ins, g) && (|g.indices| == 2 <==> OpensPair(ins, g.indices[0]))
  {
    var gs := Grouped(ins);
    GroupedPartial(ins);
    forall g | g in gs
      ensures GroupFrom(ins, g) && (|g.indices| == 2 <==> OpensPair(ins, g.indices[0]))
    {
      var j :| 0 <= j < |gs| && gs[j] == g;
      PairExactly(ins, gs, j);
    }
  }

  lemma PairExactly(ins: seq<InstrumentDef>, gs: seq<Group>, j: nat)
    requires Partial(ins, gs) && j < |gs|
    ensures GroupFrom(ins, gs[j]) && (|gs[j].indices| == 2 <==> OpensPair(ins, gs[j].indices[0]))
  {
    var g := gs[j];
    var k := g.indices[0];
    assert GroupFrom(ins, g);
    if |g.indices| == 1 && j == |gs| - 1 {
      IndicesLast(gs[..j], g);
      assert gs[..j] + [g] == gs;
      var xs := Indices(gs[..j]) + [k];
      assert xs == Range(|ins|);
      assert xs[|xs| - 1] == k;
    }
  }

  /** Every group holds one or two values, as many as positions. */
  lemma GroupSizes(ins: seq<InstrumentDef>)
    ensures forall g :: g in Grouped(ins) ==> 1 <= |g.value| <= 2 && |g.value| == |g.indices|
  {
    GroupedShape(ins);
  }

  lemma {:induction false} TotalIsIndices(gs: seq<Group>)
    requires forall g :: g in gs ==> |g.value| == |g.indices|
    ensures TotalValues(gs) == |Indices(gs)|
    decreases |gs|
  {
    if gs != [] {
      TotalIsIndices(gs[..|gs| - 1]);
    }
  }

  /** Every input instrument appears exactly once, in input order, so the
      groups hold as many values as there are instruments. */
  lemma ValuesCounted(ins: seq<InstrumentDef>)
    ensures TotalValues(Grouped(ins)) == |ins|
    ensures forall i :: 0 <= i < |ins| ==> multiset(Indices(Grouped(ins)))[i] == 1
  {
    GroupedShape(ins);
    GroupSizes(ins);
    TotalIsIndices(Grouped(ins));
    RangeOnce(|ins|);
  }

  lemma {:induction false} RangeOnce(n: nat)
    ensures forall i :: 0 <= i < n ==> multiset(Range(n))[i] == 1
  {
    if n > 0 {
      RangeOnce(n - 1);
      assert Range(n) == Range(n - 1) + [n - 1];
      assert multiset(Range(n - 1))[n - 1] == 0 by {
        assert n - 1 !in Range(n - 1);
      }
    }
  }
}
