/** The population probe (unitStats and probeUnits in internal/pattern/tiler.go): every sample line
    that aligns with the template contributes the value it holds in each slot. */
module Probe {
  import opened Base
  import opened Segmentation

  const TILE_DISTINCT_CAP := 64

  /** A slot's observed values. */
  datatype Stats = Stats(matched: nat, distinct: seq<string>, overflow: bool)

  function Empty(): Stats { Stats(0, [], false) }

  function AddValue(s: Stats, v: string): Stats {
    if v in s.distinct then s.(matched := s.matched + 1)
    else if |s.distinct| >= TILE_DISTINCT_CAP then s.(matched := s.matched + 1, overflow := true)
    else s.(matched := s.matched + 1, distinct := s.distinct + [v])
  }

  function Collect(values: seq<string>): Stats {
    if values == [] then Empty() else AddValue(Collect(values[..|values| - 1]), values[|values| - 1])
  }

  /** The remembered values are distinct, observed, at most 64, and all of them unless the slot
      overflowed - which it does exactly when some observed value had to be dropped. */
  lemma {:induction false} CollectSpec(values: seq<string>)
    ensures var s := Collect(values);
            && s.matched == |values| && |s.distinct| <= TILE_DISTINCT_CAP
            && (forall i, j :: 0 <= i < j < |s.distinct| ==> s.distinct[i] != s.distinct[j])
            && (forall v :: v in s.distinct ==> v in values)
            && (s.overflow <==> exists v :: v in values && v !in s.distinct)
            && (s.overflow ==> |s.distinct| == TILE_DISTINCT_CAP)
  {
    if values != [] {
      var n := |values| - 1;
      CollectSpec(values[..n]);
      assert values == values[..n] + [values[n]];
      var before, s := Collect(values[..n]), Collect(values);
      if before.overflow {
        var v :| v in values[..n] && v !in before.distinct;
        assert v in values && v !in s.distinct;
      }
    }
  }

  class UnitStats {
    var matched: nat
    var distinct: seq<string>
    var seen: set<string>
    var overflow: bool

    constructor ()
      ensures Valid() && View() == Empty()
    {
      matched, distinct, seen, overflow := 0, [], {}, false;
    }

    ghost predicate Valid()
      reads this
    {
      forall v :: v in seen <==> v in distinct
    }

    ghost function View(): Stats
      reads this
    {
      Stats(matched, distinct, overflow)
    }

    method Add(v: string)
      requires Valid()
      modifies this
      ensures Valid() && View() == AddValue(old(View()), v)
    {
      matched := matched + 1;
      if v in seen {
        return;
      }
      if |distinct| >= TILE_DISTINCT_CAP {
        overflow := true;
        return;
      }
      seen := seen + {v};
      distinct := distinct + [v];
    }
  }

  /** White space as the regexp class \s has it. */
  predicate IsSpace(c: char) { c == ' ' || c == '\t' || c == '\n' || c == '\r' || c == '\U{0C}' }

  /** What the relaxed probe lets a token slot hold. */
  predicate IsToken(v: string) { v != "" && forall k :: 0 <= k < |v| ==> !IsSpace(v[k]) }

  predicate IsSlot(u: Unit) { u.Token? || u.Quote? }

  /** What one unit may hold on an aligned line: literals verbatim, tokens without white space,
      quoted values without a quote, composites whatever their recogniser took. */
  predicate Holds(u: Unit, v: string) {
    match u
    case Literal(t) => v == t
    case Token(_) => IsToken(v)
    case Quote(_) => '"' !in v
    case Comp(_, _) => true
  }

  function Line(units: seq<Unit>, vs: seq<string>): string
    requires |vs| == |units|
  {
    if units == [] then "" else units[0].Spell(vs[0]) + Line(units[1..], vs[1..])
  }

  /** The line aligns with the units, holding vs[i] in unit i. */
  ghost predicate Aligned(units: seq<Unit>, line: string, vs: seq<string>) {
    && |vs| == |units|
    && (forall i :: 0 <= i < |units| ==> Holds(units[i], vs[i]))
    && line == Line(units, vs)
  }

  /** The alignment the relaxed regexp picks, if any. */
  type Aligner = (seq<Unit>, string) -> Option<seq<string>>

  ghost predicate Sound(align: Aligner) {
    forall units, line :: align(units, line).Some? ==> Aligned(units, line, align(units, line).value)
  }

  /** Unit ui's values over the aligned sample lines, in order. */
  function Column(align: Aligner, units: seq<Unit>, samples: seq<string>, ui: nat): seq<string> {
    if samples == [] then []
    else
      var n := |samples| - 1;
      var m := align(units, samples[n]);
      Column(align, units, samples[..n], ui) + if m.Some? && ui < |m.value| then [m.value[ui]] else []
  }

  /** The statistics of every slot. */
  function Observed(align: Aligner, units: seq<Unit>, samples: seq<string>): (stats: seq<Option<Stats>>)
    ensures |stats| == |units|
  {
    seq(|units|, ui requires 0 <= ui < |units| =>
      if IsSlot(units[ui]) then Some(Collect(Column(align, units, samples, ui))) else None)
  }

  /** The slots' statistics objects. */
  ghost function Objects(stats: seq<Option<UnitStats>>): set<UnitStats> {
    set u | 0 <= u < |stats| && stats[u].Some? :: stats[u].value
  }

  /** An aligned line, holding vs[i] in unit i, adds one value to every slot. */
  method AddLine(units: seq<Unit>, stats: seq<Option<UnitStats>>, vs: seq<string>)
    requires SlotsFor(units, stats) && |vs| == |units|
    requires forall u :: 0 <= u < |units| && stats[u].Some? ==> stats[u].value.Valid()
    modifies Objects(stats)
    ensures forall u :: 0 <= u < |units| && stats[u].Some? ==>
              stats[u].value.Valid() && stats[u].value.View() == AddValue(old(stats[u].value.View()), vs[u])
  {
    for ui := 0 to |units|
      invariant forall u :: 0 <= u < |units| && stats[u].Some? ==>
                  stats[u].value.Valid()
                  && stats[u].value.View() == if u < ui then AddValue(old(stats[u].value.View()), vs[u])
                                              else old(stats[u].value.View())
    {
      if IsSlot(units[ui]) {
        stats[ui].value.Add(vs[ui]);
      }
    }
  }

  method ProbeUnits(align: Aligner, units: seq<Unit>, samples: seq<string>)
    returns (stats: seq<Option<UnitStats>>)
    requires Sound(align)
    ensures |stats| == |units|
    ensures forall ui :: 0 <= ui < |units| ==> (stats[ui].Some? <==> IsSlot(units[ui]))
    ensures forall ui :: 0 <= ui < |units| && stats[ui].Some? ==>
              fresh(stats[ui].value) && Some(stats[ui].value.View()) == Observed(align, units, samples)[ui]
  {
    stats := [];
    for ui := 0 to |units|
      invariant |stats| == ui && SlotsFor(units[..ui], stats)
      invariant forall k :: 0 <= k < ui && stats[k].Some? ==>
                  fresh(stats[k].value) && stats[k].value.Valid() && stats[k].value.View() == Empty()
    {
      if IsSlot(units[ui]) {
        var s := new UnitStats();
        stats := stats + [Some(s)];
      } else {
        stats := stats + [None];
      }
    }
    assert units[..|units|] == units;
    for k := 0 to |samples|
      invariant SlotsFor(units, stats)
      invariant forall ui :: 0 <= ui < |units| && stats[ui].Some? ==>
                  fresh(stats[ui].value) && stats[ui].value.Valid()
                  && stats[ui].value.View() == Collect(Column(align, units, samples[..k], ui))
    {
      var m := align(units, samples[k]);
      assert samples[..k + 1][..k] == samples[..k];
      if m.Some? {
        AddLine(units, stats, m.value);
        forall ui | 0 <= ui < |units|
          ensures Collect(Column(align, units, samples[..k + 1], ui))
               == AddValue(Collect(Column(align, units, samples[..k], ui)), m.value[ui])
        {
          CollectLast(align, units, samples, k, ui);
        }
      } else {
        forall ui | 0 <= ui < |units|
          ensures Column(align, units, samples[..k + 1], ui) == Column(align, units, samples[..k], ui)
        {
        }
      }
    }
    assert samples[..|samples|] == samples;
  }

  lemma CollectLast(align: Aligner, units: seq<Unit>, samples: seq<string>, k: nat, ui: nat)
    requires k < |samples| && align(units, samples[k]).Some? && ui < |align(units, samples[k]).value|
    ensures Collect(Column(align, units, samples[..k + 1], ui))
         == AddValue(Collect(Column(align, units, samples[..k], ui)), align(units, samples[k]).value[ui])
  {
    var before, v := Column(align, units, samples[..k], ui), align(units, samples[k]).value[ui];
    assert samples[..k + 1][..k] == samples[..k];
    assert Column(align, units, samples[..k + 1], ui) == before + [v];
    assert (before + [v])[..|before|] == before;
  }

  /** One statistics object per slot, all different. */
  ghost predicate SlotsFor(units: seq<Unit>, stats: seq<Option<UnitStats>>) {
    && |stats| == |units|
    && (forall ui :: 0 <= ui < |units| ==> (stats[ui].Some? <==> IsSlot(units[ui])))
    && (forall a, b :: 0 <= a < b < |units| && stats[a].Some? && stats[b].Some? ==> stats[a].value != stats[b].value)
  }

  /** Sample lines that align with the template. */
  function AlignedCount(align: Aligner, units: seq<Unit>, samples: seq<string>): nat {
    if samples == [] then 0
    else AlignedCount(align, units, samples[..|samples| - 1]) + if align(units, samples[|samples| - 1]).Some? then 1 else 0
  }

  /** Every slot has seen every aligned line, and remembers only values it may hold. */
  lemma {:induction false} ColumnSpec(align: Aligner, units: seq<Unit>, samples: seq<string>, ui: nat)
    requires Sound(align) && ui < |units|
    ensures |Column(align, units, samples, ui)| == AlignedCount(align, units, samples)
    ensures forall v :: v in Column(align, units, samples, ui) ==> Holds(units[ui], v)
  {
    if samples != [] { ColumnSpec(align, units, samples[..|samples| - 1], ui); }
  }

  /** Slot by slot and in order: the aligned line k adds, after the lines aligned before it, the value it
      holds in the slot. */
  lemma {:induction false} ColumnInOrder(align: Aligner, units: seq<Unit>, samples: seq<string>, ui: nat, k: nat)
    requires Sound(align) && ui < |units| && k < |samples| && align(units, samples[k]).Some?
    ensures AlignedCount(align, units, samples[..k]) < |Column(align, units, samples, ui)|
    ensures Column(align, units, samples, ui)[AlignedCount(align, units, samples[..k])] == align(units, samples[k]).value[ui]
  {
    var n := |samples| - 1;
    ColumnSpec(align, units, samples[..n], ui);
    if k < n {
      assert samples[..n][..k] == samples[..k];
      ColumnInOrder(align, units, samples[..n], ui, k);
    }
  }
}
