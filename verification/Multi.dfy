/** Greedy set cover over candidate patterns (internal/pattern/multi.go). Coverage fractions are
    exact reals. */
module Multi {
  import opened Base

  const MAX_MULTI_PATTERNS := 10
  const MULTI_MIN_GAIN_FRACTION := 0.01

  datatype Candidate = Candidate(matched: seq<bool>, familyRank: int, typed: int, specificity: int)

  /** The eval lines a bitmap marks. */
  function Marked(bits: seq<bool>): set<nat> { set j: nat | j < |bits| && bits[j] }

  function Gain(c: Candidate, covered: set<nat>): nat { |Marked(c.matched) - covered| }

  ghost predicate Indices(pool: seq<Candidate>, picks: seq<nat>) {
    forall m :: 0 <= m < |picks| ==> picks[m] < |pool|
  }

  /** The lines covered by the candidates at `picks`. */
  function Union(pool: seq<Candidate>, picks: seq<nat>): set<nat>
    requires Indices(pool, picks)
  {
    if picks == [] then {} else Union(pool, picks[..|picks| - 1]) + Marked(pool[picks[|picks| - 1]].matched)
  }

  predicate PreferMultiCandidate(a: Candidate, b: Candidate) {
    if a.familyRank != b.familyRank then a.familyRank < b.familyRank
    else if a.typed != b.typed then a.typed > b.typed
    else a.specificity > b.specificity
  }

  /** The order of one round: more newly covered lines first, then the more informative pattern. */
  predicate Beats(a: Candidate, b: Candidate, covered: set<nat>) {
    Gain(a, covered) > Gain(b, covered)
    || (Gain(a, covered) == Gain(b, covered) && PreferMultiCandidate(a, b))
  }

  /** p is the earliest best unused candidate among the first k, and it adds something. */
  ghost predicate IsPick(pool: seq<Candidate>, covered: set<nat>, taken: seq<nat>, k: nat, p: nat)
    requires k <= |pool|
  {
    && p < k && p !in taken && Gain(pool[p], covered) > 0
    && (forall i: nat :: i < k && i !in taken && i != p ==> !Beats(pool[i], pool[p], covered))
    && (forall i: nat :: i < p && i !in taken ==> Beats(pool[p], pool[i], covered))
  }

  /** Candidate i gives way to p: it adds fewer lines, or as many from a lower-ranked family, or from an
      equal one with fewer typed captures, or as many and less specific, or it is the same in all four
      and stands later in the pool. */
  ghost predicate GivesWay(pool: seq<Candidate>, covered: set<nat>, i: nat, p: nat)
    requires i < |pool| && p < |pool|
  {
    var a, b := pool[p], pool[i];
    && Gain(a, covered) >= Gain(b, covered)
    && (Gain(a, covered) == Gain(b, covered) ==>
          && a.familyRank <= b.familyRank
          && (a.familyRank == b.familyRank ==>
                && a.typed >= b.typed
                && (a.typed == b.typed ==>
                      && a.specificity >= b.specificity
                      && (a.specificity == b.specificity ==> p <= i))))
  }

  /** Over the fields: every unused candidate gives way to the pick. */
  lemma PickInOrder(pool: seq<Candidate>, covered: set<nat>, taken: seq<nat>, k: nat, p: nat, i: nat)
    requires k <= |pool| && IsPick(pool, covered, taken, k, p) && i < k && i !in taken
    ensures GivesWay(pool, covered, i, p)
  {
    if i < p { assert Beats(pool[p], pool[i], covered); }
    if i != p { assert !Beats(pool[i], pool[p], covered); }
  }

  ghost predicate GreedyRun(pool: seq<Candidate>, picks: seq<nat>) {
    && Indices(pool, picks)
    && forall m :: 0 <= m < |picks| ==> PickedAt(pool, picks, m)
  }

  ghost predicate PickedAt(pool: seq<Candidate>, picks: seq<nat>, m: nat)
    requires m < |picks| && Indices(pool, picks)
  {
    IsPick(pool, Union(pool, picks[..m]), picks[..m], |pool|, picks[m])
  }

  /** So at every round of a run. */
  lemma PicksInOrder(pool: seq<Candidate>, picks: seq<nat>, m: nat, i: nat)
    requires GreedyRun(pool, picks) && m < |picks| && i < |pool| && i !in picks[..m]
    ensures GivesWay(pool, Union(pool, picks[..m]), i, picks[m])
  {
    assert PickedAt(pool, picks, m);
    PickInOrder(pool, Union(pool, picks[..m]), picks[..m], |pool|, picks[m], i);
  }

  function GainAt(pool: seq<Candidate>, picks: seq<nat>, m: nat): nat
    requires m < |picks| && Indices(pool, picks)
  {
    Gain(pool[picks[m]], Union(pool, picks[..m]))
  }

  /** int(x) of a float: truncation toward zero. */
  function Truncate(x: real): int { if x >= 0.0 then x.Floor else -((-x).Floor) }

  function TargetCount(nEval: nat, target: real): int { Truncate(nEval as real * target + 0.999) }

  function MinGain(nEval: nat): int { Max(1, Truncate(nEval as real * MULTI_MIN_GAIN_FRACTION + 0.999)) }

  /** The gain floor is a hundredth of the lines, rounded up, and at least one line. */
  lemma GainFloor(n: nat)
    ensures MinGain(n) >= 1 && (n > 0 ==> 100 * (MinGain(n) - 1) < n <= 100 * MinGain(n))
  {
    var x := n as real * MULTI_MIN_GAIN_FRACTION;
    assert x * 100.0 == n as real;
    var m := (x + 0.999).Floor;
    assert m as real * 100.0 <= n as real + 99.9 < (m as real + 1.0) * 100.0;
    assert ((100 * m) as real) == m as real * 100.0;
  }

  // ---------------------------------------------------------------------------
  // Optimisation theory of a greedy run
  // ---------------------------------------------------------------------------

  lemma UnionGrows(pool: seq<Candidate>, picks: seq<nat>, m: nat)
    requires m < |picks| && Indices(pool, picks)
    ensures Union(pool, picks[..m + 1]) == Union(pool, picks[..m]) + Marked(pool[picks[m]].matched)
  {
    assert picks[..m + 1][..m] == picks[..m];
  }

  lemma UnionStep(pool: seq<Candidate>, picks: seq<nat>, m: nat)
    requires m < |picks| && Indices(pool, picks)
    ensures |Union(pool, picks[..m + 1])| == |Union(pool, picks[..m])| + GainAt(pool, picks, m)
  {
    UnionGrows(pool, picks, m);
    var u, l := Union(pool, picks[..m]), Marked(pool[picks[m]].matched);
    assert u + l == u + (l - u);
  }

  lemma {:induction false} UnionContains(pool: seq<Candidate>, picks: seq<nat>, i: nat)
    requires i in picks && Indices(pool, picks)
    ensures Marked(pool[i].matched) <= Union(pool, picks)
  {
    var n := |picks| - 1;
    assert picks == picks[..n] + [picks[n]];
    if i != picks[n] { UnionContains(pool, picks[..n], i); }
  }

  lemma {:induction false} UnionMonotone(pool: seq<Candidate>, picks: seq<nat>, m: nat, k: nat)
    requires m <= k <= |picks| && Indices(pool, picks)
    ensures Union(pool, picks[..m]) <= Union(pool, picks[..k])
  {
    if m < k {
      UnionMonotone(pool, picks, m, k - 1);
      UnionGrows(pool, picks, k - 1);
    }
  }

  /** At a pick no pool candidate, used or not, offers more. */
  lemma PickIsMaximal(pool: seq<Candidate>, picks: seq<nat>, m: nat, i: nat)
    requires GreedyRun(pool, picks) && m < |picks| && i < |pool|
    ensures Gain(pool[i], Union(pool, picks[..m])) <= GainAt(pool, picks, m)
  {
    assert PickedAt(pool, picks, m);
    if i in picks[..m] {
      UnionContains(pool, picks[..m], i);
      assert Marked(pool[i].matched) - Union(pool, picks[..m]) == {};
    }
  }

  /** Marginal gains are positive and never increase. */
  lemma GainsDescend(pool: seq<Candidate>, picks: seq<nat>, m: nat, k: nat)
    requires GreedyRun(pool, picks) && m <= k < |picks|
    ensures GainAt(pool, picks, m) >= GainAt(pool, picks, k) > 0
  {
    assert PickedAt(pool, picks, k);
    PickIsMaximal(pool, picks, m, picks[k]);
    UnionMonotone(pool, picks, m, k);
    SubsetSize(Marked(pool[picks[k]].matched) - Union(pool, picks[..k]),
               Marked(pool[picks[k]].matched) - Union(pool, picks[..m]));
  }

  lemma UnionGain<T>(a: set<T>, b: set<T>, covered: set<T>)
    ensures |(a + b) - covered| <= |a - covered| + |b - covered|
  {
    assert (a + b) - covered == (a - covered) + ((b - covered) - (a - covered));
    SubsetSize((b - covered) - (a - covered), b - covered);
  }

  /** If no candidate of `rivals` adds more than g lines, together they add at most |rivals| * g. */
  lemma {:induction false} RivalsAddAtMost(pool: seq<Candidate>, rivals: seq<nat>, covered: set<nat>, g: nat)
    requires Indices(pool, rivals) && forall i :: 0 <= i < |rivals| ==> Gain(pool[rivals[i]], covered) <= g
    ensures |Union(pool, rivals) - covered| <= |rivals| * g
  {
    if rivals != [] {
      var n := |rivals| - 1;
      var init, last := rivals[..n], Marked(pool[rivals[n]].matched);
      RivalsAddAtMost(pool, init, covered, g);
      UnionGain(Union(pool, init), last, covered);
      assert |last - covered| == Gain(pool[rivals[n]], covered);
      OneMore(n, g);
    } else {
      assert Union(pool, rivals) - covered == {};
    }
  }

  lemma RivalsCoverAtMost(pool: seq<Candidate>, rivals: seq<nat>, covered: set<nat>, g: nat)
    requires Indices(pool, rivals) && forall i :: 0 <= i < |rivals| ==> Gain(pool[rivals[i]], covered) <= g
    ensures |Union(pool, rivals)| <= |covered| + |rivals| * g
  {
    RivalsAddAtMost(pool, rivals, covered, g);
    var u := Union(pool, rivals);
    SubsetSize(u, covered + (u - covered));
    assert |covered + (u - covered)| == |covered| + |u - covered|;
  }

  function Pow(b: nat, e: nat): nat { if e == 0 then 1 else b * Pow(b, e - 1) }

  /** Whatever k candidates cover lies within k times the next gain of what is covered already. */
  lemma RivalsWithinGain(pool: seq<Candidate>, picks: seq<nat>, m: nat, rivals: seq<nat>)
    requires GreedyRun(pool, picks) && m < |picks| && Indices(pool, rivals)
    ensures |Union(pool, rivals)| <= |Union(pool, picks[..m])| + |rivals| * GainAt(pool, picks, m)
  {
    forall i | 0 <= i < |rivals| ensures Gain(pool[rivals[i]], Union(pool, picks[..m])) <= GainAt(pool, picks, m) {
      PickIsMaximal(pool, picks, m, rivals[i]);
    }
    RivalsCoverAtMost(pool, rivals, Union(pool, picks[..m]), GainAt(pool, picks, m));
  }

  ghost predicate WithinBound(k: nat, m: nat, opt: nat, covered: nat)
    requires k > 0
  {
    Pow(k, m) * (opt - covered) <= Pow(k - 1, m) * opt
  }

  /** From `before` covered lines a step may reach `after`: it closes a k-th of the gap to opt. */
  ghost predicate GreedyStep(k: nat, opt: nat, before: nat, after: nat) {
    before <= after && opt <= before + k * (after - before)
  }

  lemma PickIsGreedy(pool: seq<Candidate>, picks: seq<nat>, m: nat, rivals: seq<nat>)
    requires GreedyRun(pool, picks) && m < |picks| && Indices(pool, rivals)
    ensures GreedyStep(|rivals|, |Union(pool, rivals)|, |Union(pool, picks[..m])|, |Union(pool, picks[..m + 1])|)
  {
    UnionStep(pool, picks, m);
    RivalsWithinGain(pool, picks, m, rivals);
    var before, g := |Union(pool, picks[..m])|, GainAt(pool, picks, m);
    StepBy(|rivals|, |Union(pool, rivals)|, before, g, |Union(pool, picks[..m + 1])|);
  }

  lemma StepBy(k: nat, opt: nat, before: nat, g: nat, after: nat)
    requires after == before + g && opt <= before + k * g
    ensures GreedyStep(k, opt, before, after)
  {
  }

  /** The bound, for any counts in which every step is a greedy one. */
  lemma {:induction false} BoundAfter(k: nat, opt: nat, counts: seq<nat>, m: nat)
    requires k > 0 && m < |counts| && counts[0] == 0
    requires forall i :: 0 <= i < m ==> GreedyStep(k, opt, counts[i], counts[i + 1])
    ensures WithinBound(k, m, opt, counts[m])
  {
    if m == 0 {
      BoundBefore(k, opt);
    } else {
      BoundAfter(k, opt, counts, m - 1);
      ShrinkGap(k, m, opt, counts[m - 1], counts[m]);
    }
  }

  lemma BoundBefore(k: nat, opt: nat)
    requires k > 0
    ensures WithinBound(k, 0, opt, 0)
  {
    assert Pow(k, 0) == 1 && Pow(k - 1, 0) == 1;
  }

  /** The approximation bound: after m picks, for any k >= 1 pool candidates covering OPT lines,
      k^m * (OPT - covered) <= (k-1)^m * OPT. */
  lemma GreedyApproximation(pool: seq<Candidate>, picks: seq<nat>, m: nat, rivals: seq<nat>)
    requires GreedyRun(pool, picks) && m <= |picks| && rivals != [] && Indices(pool, rivals)
    ensures WithinBound(|rivals|, m, |Union(pool, rivals)|, |Union(pool, picks[..m])|)
  {
    var k, opt := |rivals|, |Union(pool, rivals)|;
    var counts := seq(m + 1, i requires 0 <= i <= m => |Union(pool, picks[..i])|);
    forall i | 0 <= i < m ensures GreedyStep(k, opt, counts[i], counts[i + 1]) {
      PickIsGreedy(pool, picks, i, rivals);
    }
    BoundAfter(k, opt, counts, m);
  }

  /** One greedy step closes at least a k-th of the gap. */
  lemma ShrinkGap(k: nat, m: nat, opt: nat, before: nat, after: nat)
    requires k > 0 && m > 0 && GreedyStep(k, opt, before, after)
    requires WithinBound(k, m - 1, opt, before)
    ensures WithinBound(k, m, opt, after)
  {
    CloseGap(k, Pow(k, m - 1), Pow(k - 1, m - 1), opt - before, after - before, opt);
    assert opt - before - (after - before) == opt - after;
  }

  lemma CloseGap(k: nat, p: nat, q: nat, gap: int, g: nat, opt: nat)
    requires k > 0 && gap <= k * g && p * gap <= q * opt
    ensures (k * p) * (gap - g) <= ((k - 1) * q) * opt
  {
    Rearrange(k, p, gap - g);
    Rearrange(k - 1, p, gap);
    Rearrange(k - 1, q, opt);
    assert k * (gap - g) == k * gap - k * g;
    assert (k - 1) * gap == k * gap - gap;
    MulLe(p, k * (gap - g), (k - 1) * gap);
    MulLe(k - 1, p * gap, q * opt);
    assert p * ((k - 1) * gap) == (k - 1) * (p * gap) by { Rearrange(k - 1, p, gap); }
    assert ((k - 1) * q) * opt == (k - 1) * (q * opt) by { Associate(k - 1, q, opt); }
  }

  lemma Rearrange(a: int, b: int, c: int)
    ensures (a * b) * c == b * (a * c) == a * (b * c)
  {
    Associate(a, b, c);
    Associate(b, a, c);
    assert a * b == b * a;
  }

  lemma Associate(a: int, b: int, c: int)
    ensures (a * b) * c == a * (b * c)
  {
  }

  lemma MulLe(a: nat, x: int, y: int)
    requires x <= y
    ensures a * x <= a * y
  {
  }

  // ---------------------------------------------------------------------------
  // The selector
  // ---------------------------------------------------------------------------

  /** Marked lines among the first k that are still uncovered. */
  function Fresh(matched: seq<bool>, covered: seq<bool>, k: nat): set<nat>
    requires k <= |matched| == |covered|
  {
    set j: nat | j < k && matched[j] && !covered[j]
  }

  lemma FreshStep(matched: seq<bool>, covered: seq<bool>, k: nat)
    requires k < |matched| == |covered|
    ensures |Fresh(matched, covered, k + 1)|
         == |Fresh(matched, covered, k)| + if matched[k] && !covered[k] then 1 else 0
  {
    if matched[k] && !covered[k] {
      assert Fresh(matched, covered, k + 1) == Fresh(matched, covered, k) + {k};
    } else {
      assert Fresh(matched, covered, k + 1) == Fresh(matched, covered, k);
    }
  }

  lemma FreshAll(c: Candidate, covered: seq<bool>)
    requires |c.matched| == |covered|
    ensures |Fresh(c.matched, covered, |covered|)| == Gain(c, Marked(covered))
  {
    assert Fresh(c.matched, covered, |covered|) == Marked(c.matched) - Marked(covered);
  }

  method MarginalGain(c: Candidate, covered: array<bool>) returns (gain: nat)
    requires |c.matched| == covered.Length
    ensures gain == Gain(c, Marked(covered[..]))
  {
    gain := 0;
    assert Fresh(c.matched, covered[..], 0) == {};
    for j := 0 to covered.Length
      invariant gain == |Fresh(c.matched, covered[..], j)|
    {
      FreshStep(c.matched, covered[..], j);
      if c.matched[j] && !covered[j] {
        gain := gain + 1;
      }
    }
    FreshAll(c, covered[..]);
  }

  /** Marks a picked candidate's lines; reports how many were new. */
  method Cover(c: Candidate, covered: array<bool>) returns (gain: nat)
    requires |c.matched| == covered.Length
    modifies covered
    ensures Marked(covered[..]) == old(Marked(covered[..])) + Marked(c.matched)
    ensures gain == Gain(c, old(Marked(covered[..])))
  {
    gain := 0;
    ghost var before := covered[..];
    assert Fresh(c.matched, before, 0) == {};
    for j := 0 to covered.Length
      invariant gain == |Fresh(c.matched, before, j)|
      invariant forall i :: 0 <= i < covered.Length ==> covered[i] == (before[i] || (i < j && c.matched[i]))
    {
      FreshStep(c.matched, before, j);
      if c.matched[j] && !covered[j] {
        covered[j] := true;
        gain := gain + 1;
      }
    }
    FreshAll(c, before);
  }

  /** `best` is the pick among the first k candidates, or -1 when none of them adds anything. */
  ghost predicate BestSoFar(pool: seq<Candidate>, lines: set<nat>, taken: seq<nat>, k: nat, best: int)
    requires k <= |pool|
  {
    if best < 0 then forall i: nat :: i < k && i !in taken ==> Gain(pool[i], lines) == 0
    else IsPick(pool, lines, taken, k, best)
  }

  lemma Advance(pool: seq<Candidate>, lines: set<nat>, taken: seq<nat>, k: nat, best: int)
    requires k < |pool| && best < k && BestSoFar(pool, lines, taken, k, best)
    ensures var better := k !in taken && Gain(pool[k], lines) > 0 && (best < 0 || Beats(pool[k], pool[best], lines));
            BestSoFar(pool, lines, taken, k + 1, if better then k else best)
  {
    if k !in taken && Gain(pool[k], lines) > 0 && best >= 0 {
      if Beats(pool[k], pool[best], lines) { NewBest(pool, lines, taken, k, best); }
    }
  }

  lemma NewBest(pool: seq<Candidate>, lines: set<nat>, taken: seq<nat>, k: nat, best: nat)
    requires k < |pool| && best < k && IsPick(pool, lines, taken, k, best)
    requires k !in taken && Gain(pool[k], lines) > 0 && Beats(pool[k], pool[best], lines)
    ensures IsPick(pool, lines, taken, k + 1, k)
  {
    forall i: nat | i < k && i !in taken
      ensures Beats(pool[k], pool[i], lines) && !Beats(pool[i], pool[k], lines)
    {
      if i != best { assert !Beats(pool[i], pool[best], lines); }
    }
  }

  /** One round: the earliest best unused candidate, or -1 when none adds anything. */
  method BestCandidate(pool: seq<Candidate>, covered: array<bool>, used: array<bool>, ghost taken: seq<nat>)
    returns (bestIdx: int, bestGain: nat)
    requires used.Length == |pool| && forall i: nat :: i < |pool| ==> (used[i] <==> i in taken)
    requires forall i :: 0 <= i < |pool| ==> |pool[i].matched| == covered.Length
    ensures bestIdx < |pool| && BestSoFar(pool, Marked(covered[..]), taken, |pool|, bestIdx)
    ensures bestGain == if bestIdx < 0 then 0 else Gain(pool[bestIdx], Marked(covered[..]))
  {
    bestIdx, bestGain := -1, 0;
    ghost var lines := Marked(covered[..]);
    for i := 0 to |pool|
      invariant bestIdx < i && BestSoFar(pool, lines, taken, i, bestIdx)
      invariant bestGain == if bestIdx < 0 then 0 else Gain(pool[bestIdx], lines)
    {
      Advance(pool, lines, taken, i, bestIdx);
      if !used[i] {
        var gain := MarginalGain(pool[i], covered);
        if gain > 0 {
          if gain > bestGain || (gain == bestGain && bestIdx >= 0 && PreferMultiCandidate(pool[i], pool[bestIdx])) {
            bestGain, bestIdx := gain, i;
          }
        }
      }
    }
  }

  /** Why a run may end: the target is met, the cap is reached, nothing adds a line, or (never
      for the first pattern) nothing adds as many lines as the gain floor. */
  ghost predicate Stopped(pool: seq<Candidate>, picks: seq<nat>, targetCount: int, minGain: int)
    requires Indices(pool, picks)
  {
    var lines := Union(pool, picks);
    || |lines| >= targetCount
    || |picks| == MAX_MULTI_PATTERNS
    || (forall i: nat :: i < |pool| && i !in picks ==> Gain(pool[i], lines) == 0)
    || (picks != [] && forall i: nat :: i < |pool| && i !in picks ==> Gain(pool[i], lines) < minGain)
  }

  /** Round m was worth running: the target was not yet met, and after the first pattern the gain
      reached the floor. */
  ghost predicate Worthwhile(pool: seq<Candidate>, picks: seq<nat>, m: nat, targetCount: int, minGain: int)
    requires m < |picks| && Indices(pool, picks)
  {
    |Union(pool, picks[..m])| < targetCount && (m > 0 ==> GainAt(pool, picks, m) >= minGain)
  }

  /** The whole run so far: every pick is the best of its round and every round was worthwhile. */
  ghost predicate RunOk(pool: seq<Candidate>, picks: seq<nat>, targetCount: int, minGain: int) {
    && GreedyRun(pool, picks)
    && |picks| <= MAX_MULTI_PATTERNS
    && forall m :: 0 <= m < |picks| ==> Worthwhile(pool, picks, m, targetCount, minGain)
  }

  ghost predicate Picked(pool: seq<Candidate>, picks: seq<nat>, out: seq<Candidate>) {
    |out| == |picks| && Indices(pool, picks) && forall m :: 0 <= m < |picks| ==> out[m] == pool[picks[m]]
  }

  /** The selector's variables describe the run so far. */
  ghost predicate Selecting(pool: seq<Candidate>, picks: seq<nat>, out: seq<Candidate>, covered: seq<bool>, used: seq<bool>,
                            coveredCount: nat, targetCount: int, minGain: int)
  {
    && RunOk(pool, picks, targetCount, minGain) && Picked(pool, picks, out)
    && |used| == |pool| && (forall i: nat :: i < |pool| ==> (used[i] <==> i in picks))
    && Marked(covered) == Union(pool, picks) && coveredCount == |Union(pool, picks)|
  }

  /** The body of the selection loop: takes the round's pick, or stops. */
  method TakeRound(pool: seq<Candidate>, covered: array<bool>, used: array<bool>, out: seq<Candidate>, coveredCount: nat,
                   picks: seq<nat>, targetCount: int, minGain: int)
    returns (picked: bool, longer: seq<Candidate>, count: nat, picks': seq<nat>)
    requires Selecting(pool, picks, out, covered[..], used[..], coveredCount, targetCount, minGain)
    requires |out| < MAX_MULTI_PATTERNS && coveredCount < targetCount && used != covered
    requires forall i :: 0 <= i < |pool| ==> |pool[i].matched| == covered.Length
    modifies covered, used
    ensures Selecting(pool, picks', longer, covered[..], used[..], count, targetCount, minGain)
    ensures picked ==> |longer| == |out| + 1
    ensures !picked ==> Stopped(pool, picks', targetCount, minGain)
  {
    picked, longer, count, picks' := false, out, coveredCount, picks;
    assert forall i: nat :: i < |pool| ==> used[i] == used[..][i];
    var bestIdx, bestGain := BestCandidate(pool, covered, used, picks);
    if bestIdx < 0 {
      return;
    }
    if |out| > 0 && bestGain < minGain {
      NothingBeats(pool, picks, bestIdx, minGain);
      return;
    }
    ExtendRun(pool, picks, bestIdx, targetCount, minGain);
    ExtendUnion(pool, picks, bestIdx);
    used[bestIdx] := true;
    var gain := Cover(pool[bestIdx], covered);
    picked, longer, count, picks' := true, out + [pool[bestIdx]], coveredCount + gain, picks + [bestIdx];
  }

  /** greedyCover: the chosen candidates, and the positions in the pool they were picked at. */
  method GreedyCover(pool: seq<Candidate>, nEval: nat, target: real)
    returns (out: seq<Candidate>, coveredCount: nat, picks: seq<nat>)
    requires forall i :: 0 <= i < |pool| ==> |pool[i].matched| == nEval
    ensures RunOk(pool, picks, TargetCount(nEval, target), MinGain(nEval)) && Picked(pool, picks, out)
    ensures coveredCount == |Union(pool, picks)|
    ensures Stopped(pool, picks, TargetCount(nEval, target), MinGain(nEval))
  {
    var covered := new bool[nEval](_ => false);
    var used := new bool[|pool|](_ => false);
    var targetCount, minGain := TargetCount(nEval, target), MinGain(nEval);
    out, coveredCount, picks := [], 0, [];
    var picked := true;
    while picked && coveredCount < targetCount && |out| < MAX_MULTI_PATTERNS
      invariant Selecting(pool, picks, out, covered[..], used[..], coveredCount, targetCount, minGain)
      invariant !picked ==> Stopped(pool, picks, targetCount, minGain)
      decreases picked, MAX_MULTI_PATTERNS - |out|
    {
      picked, out, coveredCount, picks :=
        TakeRound(pool, covered, used, out, coveredCount, picks, targetCount, minGain);
    }
  }

  lemma NothingBeats(pool: seq<Candidate>, picks: seq<nat>, p: nat, minGain: int)
    requires Indices(pool, picks) && IsPick(pool, Union(pool, picks), picks, |pool|, p)
    requires Gain(pool[p], Union(pool, picks)) < minGain
    ensures forall i: nat :: i < |pool| && i !in picks ==> Gain(pool[i], Union(pool, picks)) < minGain
  {
  }

  lemma ExtendRun(pool: seq<Candidate>, picks: seq<nat>, p: nat, targetCount: int, minGain: int)
    requires RunOk(pool, picks, targetCount, minGain) && |picks| < MAX_MULTI_PATTERNS
    requires IsPick(pool, Union(pool, picks), picks, |pool|, p)
    requires |Union(pool, picks)| < targetCount
    requires picks != [] ==> Gain(pool[p], Union(pool, picks)) >= minGain
    ensures RunOk(pool, picks + [p], targetCount, minGain)
  {
    var longer := picks + [p];
    assert longer[..|picks|] == picks;
    forall m | 0 <= m < |longer|
      ensures PickedAt(pool, longer, m) && Worthwhile(pool, longer, m, targetCount, minGain)
    {
      if m < |picks| {
        assert longer[..m] == picks[..m];
        assert PickedAt(pool, picks, m) && Worthwhile(pool, picks, m, targetCount, minGain);
      }
    }
  }

  lemma ExtendUnion(pool: seq<Candidate>, picks: seq<nat>, p: nat)
    requires Indices(pool, picks) && p < |pool|
    ensures Union(pool, picks + [p]) == Union(pool, picks) + Marked(pool[p].matched)
    ensures |Union(pool, picks + [p])| == |Union(pool, picks)| + Gain(pool[p], Union(pool, picks))
  {
    var longer := picks + [p];
    assert longer[..|picks|] == picks && longer[..|picks| + 1] == longer;
    UnionGrows(pool, longer, |picks|);
    UnionStep(pool, longer, |picks|);
  }

  /** A certificate from the way a run stopped: unless it met the target or the cap, any k pool
      candidates together cover at most covered + k * (floor - 1) lines. */
  lemma StopCertificate(pool: seq<Candidate>, picks: seq<nat>, targetCount: int, minGain: nat, rivals: seq<nat>)
    requires GreedyRun(pool, picks) && Indices(pool, rivals) && minGain >= 1
    requires Stopped(pool, picks, targetCount, minGain)
    requires |Union(pool, picks)| < targetCount && |picks| < MAX_MULTI_PATTERNS
    ensures |Union(pool, rivals)| <= |Union(pool, picks)| + |rivals| * (minGain - 1)
  {
    forall i | 0 <= i < |rivals| ensures Gain(pool[rivals[i]], Union(pool, picks)) <= minGain - 1 {
      if rivals[i] in picks {
        UnionContains(pool, picks, rivals[i]);
        assert Marked(pool[rivals[i]].matched) - Union(pool, picks) == {};
      }
    }
    RivalsCoverAtMost(pool, rivals, Union(pool, picks), minGain - 1);
  }
}
