/** The figures DiscoverMulti reports for the selected set (internal/pattern/multi.go). When coverage
    was measured on a sample of the input the counts are scaled up to the whole of it. */
module MultiFigures {
  import opened Base
  import opened Multi

  const DEFAULT_TARGET_COVERAGE := 0.90

  /** The target in force: unset means the default, and nothing above 1 is asked for. */
  function Target(option: real): (t: real)
    ensures 0.0 < t <= 1.0
  {
    if option <= 0.0 then DEFAULT_TARGET_COVERAGE else if option > 1.0 then 1.0 else option
  }

  /** A target that is set and within reach is the one in force. */
  lemma TargetIs(option: real)
    ensures 0.0 < option <= 1.0 ==> Target(option) == option
    ensures option <= 0.0 ==> Target(option) == 0.90
    ensures option > 1.0 ==> Target(option) == 1.0
  {
  }

  /** A share of the whole input, rounded to the nearest line. */
  function Share(total: nat, ratio: real): int { Truncate(total as real * ratio + 0.5) }

  /** A count over the eval set as it is reported: itself, or its share of the whole input. */
  function Reported(count: nat, evalLines: nat, total: nat, estimated: bool): int {
    if estimated then Share(total, Ratio(count, evalLines)) else count
  }

  /** What the scan of a pattern counted. */
  function OwnCount(pool: seq<Candidate>, i: nat): nat
    requires i < |pool|
  {
    |Marked(pool[i].matched)|
  }

  lemma RatioOrdered(a: nat, b: nat, n: nat)
    requires a <= b <= n && n > 0
    ensures 0.0 <= Ratio(a, n) <= Ratio(b, n) <= 1.0
  {
    DivOrdered(0.0, a as real, n as real);
    DivOrdered(a as real, b as real, n as real);
    DivOrdered(b as real, n as real, n as real);
  }

  lemma DivOrdered(x: real, y: real, n: real)
    requires x <= y && n > 0.0
    ensures x / n <= y / n
  {
    assert (y - x) / n >= 0.0;
    assert y / n - x / n == (y - x) / n;
  }

  lemma TimesOrdered(t: real, x: real, y: real)
    requires 0.0 <= x <= y && t >= 0.0
    ensures 0.0 <= t * x <= t * y
  {
    assert t * (y - x) >= 0.0;
    assert t * y - t * x == t * (y - x);
  }

  lemma RoundOrdered(x: real, y: real)
    requires 0.0 <= x <= y
    ensures 0 <= Truncate(x + 0.5) <= Truncate(y + 0.5)
    ensures x < Truncate(x + 0.5) as real + 0.5 && Truncate(x + 0.5) as real <= x + 0.5
  {
  }

  lemma RoundWhole(n: nat)
    ensures Truncate(n as real + 0.5) == n
  {
  }

  predicate HalfALine(total: nat, ratio: real, shown: int) {
    shown as real - 0.5 <= total as real * ratio < shown as real + 0.5
  }

  lemma ShareOrdered(total: nat, x: real, y: real)
    requires 0.0 <= x <= y
    ensures 0 <= Share(total, x) <= Share(total, y)
    ensures HalfALine(total, x, Share(total, x))
  {
    TimesOrdered(total as real, x, y);
    RoundOrdered(total as real * x, total as real * y);
  }

  lemma ShareAtMost(total: nat, x: real)
    requires 0.0 <= x <= 1.0
    ensures Share(total, x) <= total
  {
    var t := total as real;
    TimesOrdered(t, x, 1.0);
    assert t * 1.0 == t;
    RoundOrdered(t * x, t);
    RoundWhole(total);
  }

  /** Reporting keeps order and stays within the lines there are; an estimate is within half a line of its
      share, anything else is the count itself. */
  lemma ReportedOrdered(a: nat, b: nat, n: nat, total: nat, estimated: bool)
    requires a <= b <= n && n > 0 && (!estimated ==> total == n)
    ensures 0 <= Reported(a, n, total, estimated) <= Reported(b, n, total, estimated) <= total
    ensures estimated ==> HalfALine(total, Ratio(a, n), Reported(a, n, total, estimated))
    ensures !estimated ==> Reported(a, n, total, estimated) == a
  {
    if estimated {
      RatioOrdered(a, b, n);
      ShareOrdered(total, Ratio(a, n), Ratio(b, n));
      ShareAtMost(total, Ratio(b, n));
    }
  }

  /** The set's figures are consistent: no selected pattern is reported to match more lines than the
      whole set, nor the set more than there are. */
  lemma FiguresConsistent(pool: seq<Candidate>, picks: seq<nat>, m: nat, n: nat, total: nat, estimated: bool)
    requires GreedyRun(pool, picks) && m < |picks| && n > 0 && (!estimated ==> total == n)
    requires forall i :: 0 <= i < |pool| ==> |pool[i].matched| == n
    ensures 0 <= Reported(OwnCount(pool, picks[m]), n, total, estimated)
              <= Reported(|Union(pool, picks)|, n, total, estimated) <= total
  {
    UnionContains(pool, picks, picks[m]);
    SubsetSize(Marked(pool[picks[m]].matched), Union(pool, picks));
    UnionWithin(pool, picks, n);
    ReportedOrdered(OwnCount(pool, picks[m]), |Union(pool, picks)|, n, total, estimated);
  }

  function Lines(n: nat): (lines: set<nat>)
    ensures |lines| == n && forall j: nat :: j in lines <==> j < n
  {
    if n == 0 then {} else Lines(n - 1) + {n - 1}
  }

  lemma {:induction false} UnionOfLines(pool: seq<Candidate>, picks: seq<nat>, n: nat)
    requires Indices(pool, picks) && forall i :: 0 <= i < |pool| ==> |pool[i].matched| == n
    ensures Union(pool, picks) <= Lines(n)
  {
    if picks != [] { UnionOfLines(pool, picks[..|picks| - 1], n); }
  }

  lemma UnionWithin(pool: seq<Candidate>, picks: seq<nat>, n: nat)
    requires Indices(pool, picks) && forall i :: 0 <= i < |pool| ==> |pool[i].matched| == n
    ensures |Union(pool, picks)| <= n
  {
    UnionOfLines(pool, picks, n);
    SubsetSize(Union(pool, picks), Lines(n));
  }

  /** The target count is within reach, and reaching it leaves the coverage short of the target by
      less than a thousandth of a line; the first count that meets the target always reaches it. */
  lemma TargetMet(n: nat, option: real, covered: nat)
    requires n > 0
    ensures TargetCount(n, Target(option)) <= n
    ensures covered >= TargetCount(n, Target(option)) ==> covered as real > n as real * Target(option) - 0.001
    ensures covered as real >= n as real * Target(option) ==> covered >= TargetCount(n, Target(option))
  {
    TimesOrdered(n as real, Target(option), 1.0);
  }
}
