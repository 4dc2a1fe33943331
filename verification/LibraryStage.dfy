/** The library stage's ranking over floor-pruned counts (tryLibrary in
    internal/pattern/discovery.go, betterCandidate and keepTopCandidates in
    internal/pattern/score.go). */
module LibraryStage {
  import opened Base
  import opened Coverage
  import opened Evaluate
  import opened Sorting

  const LIBRARY_TOP := 12

  /** A library entry after sample scoring. The pattern text enters the ranking only through its
      number of typed captures and of GREEDYDATA references. */
  datatype Candidate = Candidate(
    re: Matcher, sampleMatched: nat, sampleCoverage: real, typed: nat, specificity: int, greedy: nat, priority: int)

  datatype Ranked = Ranked(cand: Candidate, matched: nat)

  predicate BetterCandidate(next: Ranked, best: Option<Ranked>) {
    match best
    case None => true
    case Some(b) =>
      if next.matched != b.matched then next.matched > b.matched
      else if next.cand.typed != b.cand.typed then next.cand.typed > b.cand.typed
      else if next.cand.specificity != b.cand.specificity then next.cand.specificity > b.cand.specificity
      else if next.cand.greedy != b.cand.greedy then next.cand.greedy < b.cand.greedy
      else next.cand.priority < b.cand.priority
  }

  /** The order candidates are short-listed in: by their matches on the sample. */
  predicate RanksBefore(a: Candidate, b: Candidate) {
    if a.sampleMatched != b.sampleMatched then a.sampleMatched > b.sampleMatched
    else if a.specificity != b.specificity then a.specificity > b.specificity
    else a.priority < b.priority
  }

  /** b is at most as good as a, key by key: fewer matches on the sample, or as many and less specific, or
      as specific and declared later - or the same in all three. */
  ghost predicate InOrder(a: Candidate, b: Candidate) {
    && a.sampleMatched >= b.sampleMatched
    && (a.sampleMatched == b.sampleMatched ==> a.specificity >= b.specificity)
    && (a.sampleMatched == b.sampleMatched && a.specificity == b.specificity ==> a.priority <= b.priority)
  }

  /** The candidates that agree with x on the three keys, in order. */
  function Alike(s: seq<Candidate>, x: Candidate): seq<Candidate> {
    if s == [] then []
    else
      (if s[0].sampleMatched == x.sampleMatched && s[0].specificity == x.specificity && s[0].priority == x.priority
       then [s[0]] else []) + Alike(s[1..], x)
  }

  lemma {:induction false} AlikeTies(s: seq<Candidate>, x: Candidate)
    ensures Alike(s, x) == TiedWith(s, x, RanksBefore)
  {
    if s != [] { AlikeTies(s[1..], x); }
  }

  /** The short list over the fields: the kept entries are in order, nothing dropped is better than
      anything kept, and entries that agree on the keys keep their library order, across the cut too. */
  lemma KeptInOrder(cands: seq<Candidate>, n: nat) returns (dropped: seq<Candidate>)
    ensures var top := KeepTopCandidates(cands, n);
            && |top| == Min(|cands|, n)
            && multiset(top + dropped) == multiset(cands)
            && (forall i, j :: 0 <= i < j < |top| ==> InOrder(top[i], top[j]))
            && (forall a, b :: a in top && b in dropped ==> InOrder(a, b))
            && (forall x :: Alike(top + dropped, x) == Alike(cands, x))
  {
    dropped := KeepTopSpec(cands, n);
    var top := KeepTopCandidates(cands, n);
    forall i, j | 0 <= i < j < |top| ensures InOrder(top[i], top[j]) { NotBefore(top[j], top[i]); }
    forall a, b | a in top && b in dropped ensures InOrder(a, b) { NotBefore(b, a); }
    forall x ensures Alike(top + dropped, x) == Alike(cands, x) {
      AlikeTies(top + dropped, x);
      AlikeTies(cands, x);
      assert TiedWith(top + dropped, x, RanksBefore) == TiedWith(cands, x, RanksBefore);
    }
  }

  lemma NotBefore(b: Candidate, a: Candidate)
    requires !RanksBefore(b, a)
    ensures InOrder(a, b)
  {
  }

  function KeepTopCandidates(cands: seq<Candidate>, n: nat): seq<Candidate> {
    var ordered := SortStable(cands, RanksBefore);
    if |ordered| > n then ordered[..n] else ordered
  }

  /** The short list is the n best of the scored entries, best first; what it leaves out ranks before
      nothing it keeps, and entries that tie keep their library order, across the cut as well. */
  lemma KeepTopSpec(cands: seq<Candidate>, n: nat) returns (dropped: seq<Candidate>)
    ensures var top := KeepTopCandidates(cands, n);
            && |top| == Min(|cands|, n)
            && multiset(top + dropped) == multiset(cands)
            && Sorted(top, RanksBefore)
            && (forall a, b :: a in dropped && b in top ==> !RanksBefore(a, b))
            && (forall x :: TiedWith(top + dropped, x, RanksBefore) == TiedWith(cands, x, RanksBefore))
  {
    var ordered := SortStable(cands, RanksBefore);
    var top := KeepTopCandidates(cands, n);
    dropped := ordered[|top|..];
    assert top + dropped == ordered;
    SortSorted(cands, RanksBefore);
    SortedParts(top, dropped);
    OrderKeepsTies(cands, top + dropped);
  }

  lemma OrderKeepsTies(cands: seq<Candidate>, ordered: seq<Candidate>)
    requires ordered == SortStable(cands, RanksBefore)
    ensures forall x :: TiedWith(ordered, x, RanksBefore) == TiedWith(cands, x, RanksBefore)
  {
    forall x ensures TiedWith(ordered, x, RanksBefore) == TiedWith(cands, x, RanksBefore) {
      SortKeepsTies(cands, x, RanksBefore);
    }
  }

  lemma SortedParts(top: seq<Candidate>, dropped: seq<Candidate>)
    requires Sorted(top + dropped, RanksBefore)
    ensures Sorted(top, RanksBefore)
    ensures forall a, b :: a in dropped && b in top ==> !RanksBefore(a, b)
  {
    var ordered := top + dropped;
    forall i, j | 0 <= i < j < |top| ensures !RanksBefore(top[j], top[i]) {
      assert ordered[i] == top[i] && ordered[j] == top[j];
    }
    forall a, b | a in dropped && b in top ensures !RanksBefore(a, b) {
      var i :| 0 <= i < |top| && top[i] == b;
      var j :| 0 <= j < |dropped| && dropped[j] == a;
      assert ordered[i] == b && ordered[|top| + j] == a;
    }
  }

  function SampleFloor(threshold: real): real {
    var f := threshold * 0.6;
    if f > 0.50 then 0.50 else if f < 0.10 then 0.10 else f
  }

  /** A coverage passes the sample floor when it is at least a half, or at least a tenth and at least three
      fifths of the threshold. */
  lemma PassesFloorIff(threshold: real, coverage: real)
    ensures coverage >= SampleFloor(threshold)
       <==> coverage >= 0.50 || (coverage >= 0.10 && 5.0 * coverage >= 3.0 * threshold)
  {
  }

  /** The candidate ranked by its true match count. */
  function True(c: Candidate, all: seq<string>): Ranked { Ranked(c, Count(c.re, all)) }

  /** Only a candidate that matches the last of several lines can tie unnoticed. */
  predicate HiddenTie(c: Candidate, all: seq<string>) { |all| > 1 && c.re(all[|all| - 1]) }

  /** `best` is right about the first k candidates: it carries its own true count, no candidate
      above the sample floor has a higher one, and one with the same count ranks above it only if
      the pruned scan hid the tie. */
  ghost predicate BestOf(cands: seq<Candidate>, k: nat, all: seq<string>, floor: real, best: Option<Ranked>)
    requires k <= |cands|
  {
    && (best.None? <==> forall i :: 0 <= i < k ==> cands[i].sampleCoverage < floor)
    && (best.Some? ==>
          && best.value.cand in cands[..k] && best.value.cand.sampleCoverage >= floor
          && best.value == True(best.value.cand, all)
          && forall i :: 0 <= i < k && cands[i].sampleCoverage >= floor ==> Settled(cands[i], all, best.value))
  }

  predicate Settled(c: Candidate, all: seq<string>, best: Ranked) {
    && Count(c.re, all) <= best.matched
    && (BetterCandidate(True(c, all), Some(best)) ==> HiddenTie(c, all))
  }

  /** The candidates that get a fair comparison at true count m: the first to reach it, and those after
      it whose tie is not hidden. */
  ghost predicate Contends(cands: seq<Candidate>, all: seq<string>, floor: real, m: nat, i: nat) {
    && i < |cands| && cands[i].sampleCoverage >= floor && Count(cands[i].re, all) == m
    && (HiddenTie(cands[i], all) ==>
          forall j :: 0 <= j < i && cands[j].sampleCoverage >= floor ==> Count(cands[j].re, all) != m)
  }

  ghost predicate Beats(cands: seq<Candidate>, all: seq<string>, i: nat, j: nat)
    requires i < |cands| && j < |cands|
  {
    BetterCandidate(True(cands[i], all), Some(True(cands[j], all)))
  }

  /** Among the first k candidates, w has the greatest true count and is the earliest best of the
      contenders at that count. */
  ghost predicate Wins(cands: seq<Candidate>, k: nat, all: seq<string>, floor: real, w: nat)
    requires k <= |cands|
  {
    && w < k && Contends(cands, all, floor, Count(cands[w].re, all), w)
    && (forall i :: 0 <= i < k && cands[i].sampleCoverage >= floor ==> Count(cands[i].re, all) <= Count(cands[w].re, all))
    && (forall i: nat :: i < k && Contends(cands, all, floor, Count(cands[w].re, all), i) ==> !Beats(cands, all, i, w))
    && (forall i: nat :: i < w && Contends(cands, all, floor, Count(cands[w].re, all), i) ==> Beats(cands, all, w, i))
  }

  /** Candidate i loses to w: fewer true matches, or as many and fewer typed captures, or as many and less
      specific, or as specific and more GREEDYDATA, or as many and declared later, or the same in all
      five and further down the list. */
  ghost predicate LosesTo(cands: seq<Candidate>, all: seq<string>, i: nat, w: nat)
    requires i < |cands| && w < |cands|
  {
    var a, b := cands[w], cands[i];
    && Count(a.re, all) >= Count(b.re, all)
    && (Count(a.re, all) == Count(b.re, all) ==>
          && a.typed >= b.typed
          && (a.typed == b.typed ==>
                && a.specificity >= b.specificity
                && (a.specificity == b.specificity ==>
                      && a.greedy <= b.greedy
                      && (a.greedy == b.greedy ==>
                            && a.priority <= b.priority
                            && (a.priority == b.priority ==> w <= i)))))
  }

  /** Over the fields: the winner has the greatest true count, and every candidate fairly compared at
      that count loses to it. */
  lemma WinnerInOrder(cands: seq<Candidate>, all: seq<string>, floor: real, w: nat, i: nat)
    requires Wins(cands, |cands|, all, floor, w) && i < |cands| && cands[i].sampleCoverage >= floor
    ensures Count(cands[i].re, all) <= Count(cands[w].re, all)
    ensures Contends(cands, all, floor, Count(cands[w].re, all), i) ==> LosesTo(cands, all, i, w)
  {
    if Contends(cands, all, floor, Count(cands[w].re, all), i) {
      assert !Beats(cands, all, i, w);
      if i < w { assert Beats(cands, all, w, i); }
    }
  }

  ghost predicate Winner(cands: seq<Candidate>, k: nat, all: seq<string>, floor: real, best: Option<Ranked>, w: nat)
    requires k <= |cands|
  {
    match best
    case None => forall i :: 0 <= i < k ==> cands[i].sampleCoverage < floor
    case Some(b) => Wins(cands, k, all, floor, w) && b == True(cands[w], all)
  }

  /** tryLibrary, from the entries scored on the sample. */
  method TryLibrary(scored: seq<Candidate>, all: seq<string>, threshold: real, procs: nat, parallelMin: nat)
    returns (best: Option<Ranked>)
    requires procs >= 1
    ensures var cands := KeepTopCandidates(scored, LIBRARY_TOP);
            BestOf(cands, |cands|, all, SampleFloor(threshold), best)
    ensures var cands := KeepTopCandidates(scored, LIBRARY_TOP);
            best.Some? ==> exists w: nat :: Wins(cands, |cands|, all, SampleFloor(threshold), w) && best.value == True(cands[w], all)
  {
    var cands := KeepTopCandidates(scored, LIBRARY_TOP);
    best := None;
    ghost var w: nat := 0;
    for k := 0 to |cands|
      invariant Winner(cands, k, all, SampleFloor(threshold), best, w)
    {
      var c := cands[k];
      if c.sampleCoverage >= SampleFloor(threshold) {
        var floor := if best.Some? then best.value.matched else -1;
        var matched, _ := EvaluateCoverageWithFloorCtl(Some(c.re), all, floor, procs, parallelMin, false);
        NextWinner(cands, k, k + 1, all, SampleFloor(threshold), best, w, matched);
        if BetterCandidate(Ranked(c, matched), best) {
          best, w := Some(Ranked(c, matched)), k;
        }
      } else {
        SkipBelowFloor(cands, k, k + 1, all, SampleFloor(threshold), best, w);
      }
    }
    WinnerIsBest(cands, |cands|, all, SampleFloor(threshold), best, w);
  }

  lemma SkipBelowFloor(cands: seq<Candidate>, k: nat, next: nat, all: seq<string>, floor: real, best: Option<Ranked>, w: nat)
    requires k < |cands| && next == k + 1 && cands[k].sampleCoverage < floor && Winner(cands, k, all, floor, best, w)
    ensures Winner(cands, next, all, floor, best, w)
  {
  }

  /** Candidates are ordered by a chain of keys: what beats y beats all that do not. */
  lemma BeatsChain(x: Ranked, y: Ranked, z: Ranked)
    requires BetterCandidate(x, Some(y)) && !BetterCandidate(z, Some(y))
    ensures BetterCandidate(x, Some(z))
  {
  }

  /** One more candidate, compared by its pruned count. */
  lemma NextWinner(cands: seq<Candidate>, k: nat, next: nat, all: seq<string>, floor: real, best: Option<Ranked>, w: nat,
                   matched: nat)
    requires k < |cands| && next == k + 1 && cands[k].sampleCoverage >= floor && Winner(cands, k, all, floor, best, w)
    requires matched == PrunedCount(cands[k].re, all, if best.Some? then best.value.matched else -1)
    ensures var result := Ranked(cands[k], matched);
            if BetterCandidate(result, best) then Winner(cands, next, all, floor, Some(result), k)
            else Winner(cands, next, all, floor, best, w)
  {
    var c, result := cands[k], Ranked(cands[k], matched);
    Decide(c, all, if best.Some? then best.value.matched else -1, best);
    if best.Some? {
      PrunedDecision(c, all, best.value);
      if BetterCandidate(result, best) {
        NewWinner(cands, k, next, all, floor, w);
      } else {
        OldWinner(cands, k, next, all, floor, w);
      }
    }
  }

  lemma NewWinner(cands: seq<Candidate>, k: nat, next: nat, all: seq<string>, floor: real, w: nat)
    requires k < |cands| && next == k + 1 && cands[k].sampleCoverage >= floor && Wins(cands, k, all, floor, w)
    requires Beats(cands, all, k, w) && (Count(cands[k].re, all) == Count(cands[w].re, all) ==> !HiddenTie(cands[k], all))
    ensures Wins(cands, next, all, floor, k)
  {
    forall i: nat | i < k && Contends(cands, all, floor, Count(cands[k].re, all), i) ensures Beats(cands, all, k, i) {
      BeatsChain(True(cands[k], all), True(cands[w], all), True(cands[i], all));
    }
  }

  lemma OldWinner(cands: seq<Candidate>, k: nat, next: nat, all: seq<string>, floor: real, w: nat)
    requires k < |cands| && next == k + 1 && cands[k].sampleCoverage >= floor && Wins(cands, k, all, floor, w)
    requires !Beats(cands, all, k, w) || (Count(cands[k].re, all) == Count(cands[w].re, all) && HiddenTie(cands[k], all))
    ensures Wins(cands, next, all, floor, w)
  {
  }

  lemma WinnerIsBest(cands: seq<Candidate>, k: nat, all: seq<string>, floor: real, best: Option<Ranked>, w: nat)
    requires k <= |cands| && Winner(cands, k, all, floor, best, w)
    ensures BestOf(cands, k, all, floor, best)
  {
    if best.Some? {
      assert cands[..k][w] == cands[w];
      forall i | 0 <= i < k && cands[i].sampleCoverage >= floor ensures Settled(cands[i], all, best.value) {
        assert Beats(cands, all, i, w) ==> !Contends(cands, all, floor, Count(cands[w].re, all), i);
      }
    }
  }

  /** The winner tops the full order, in which ties are broken on true counts, exactly when no candidate
      after the first at its count has a hidden tie and beats it. */
  lemma TopsIff(cands: seq<Candidate>, all: seq<string>, floor: real, w: nat)
    requires Wins(cands, |cands|, all, floor, w)
    ensures (forall i: nat :: i < |cands| && cands[i].sampleCoverage >= floor ==> !Beats(cands, all, i, w))
       <==> !exists i: nat :: Hidden(cands, all, floor, Count(cands[w].re, all), i) && Beats(cands, all, i, w)
  {
    forall i: nat | i < |cands| && cands[i].sampleCoverage >= floor && Beats(cands, all, i, w)
      ensures Hidden(cands, all, floor, Count(cands[w].re, all), i)
    {
      assert !Contends(cands, all, floor, Count(cands[w].re, all), i);
    }
  }

  /** A candidate after the first at true count m whose tie at m is hidden. */
  ghost predicate Hidden(cands: seq<Candidate>, all: seq<string>, floor: real, m: nat, i: nat) {
    && i < |cands| && cands[i].sampleCoverage >= floor && Count(cands[i].re, all) == m && HiddenTie(cands[i], all)
    && exists j :: 0 <= j < i && cands[j].sampleCoverage >= floor && Count(cands[j].re, all) == m
  }

  /** What one comparison of a pruned count against the current best decides. */
  lemma Decide(c: Candidate, all: seq<string>, floor: int, best: Option<Ranked>)
    requires floor == if best.Some? then best.value.matched else -1
    ensures var result := Ranked(c, PrunedCount(c.re, all, floor));
            && (BetterCandidate(result, best) ==> result == True(c, all))
            && (best.Some? && !BetterCandidate(result, best) ==> Settled(c, all, best.value))
  {
    PrunedCountDecides(c.re, all, floor);
    if best.Some? && Count(c.re, all) == floor {
      TieIsExactIff(c.re, all, floor);
    }
  }

  /** Ranking by the pruned count decides as ranking by the true count would, except exactly when
      the candidate ties the current best and the tie is hidden. */
  lemma PrunedDecision(c: Candidate, all: seq<string>, best: Ranked)
    ensures BetterCandidate(Ranked(c, PrunedCount(c.re, all, best.matched)), Some(best))
       <==> BetterCandidate(True(c, all), Some(best)) && !(Count(c.re, all) == best.matched && HiddenTie(c, all))
  {
    PrunedCountDecides(c.re, all, best.matched);
    if Count(c.re, all) == best.matched {
      TieIsExactIff(c.re, all, best.matched);
    }
  }

  /** A tie the pruned scan hides: a candidate with more typed captures and the same true count
      loses because its one match is the last line. */
  lemma HiddenTieExample(c: Candidate, best: Ranked)
    requires c.re("b") && !c.re("a") && c.typed > best.cand.typed
    requires best == True(best.cand, ["a", "b"]) && best.matched == 1
    ensures BetterCandidate(True(c, ["a", "b"]), Some(best))
    ensures !BetterCandidate(Ranked(c, PrunedCount(c.re, ["a", "b"], 1)), Some(best))
  {
    var all := ["a", "b"];
    assert Hits(c.re, all, 0, 1) == 0 && Count(c.re, all) == 1;
    PrunedDecision(c, all, best);
  }
}
