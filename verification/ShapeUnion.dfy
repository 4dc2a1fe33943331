/** Alternating complementary shapes into one pattern (tiledUnion in internal/pattern/tiler.go). */
module ShapeUnion {
  import opened Base
  import opened Coverage
  import opened Evaluate
  import opened Sorting

  const TILED_UNION_MIN_BRANCH_LINES := 2
  const TILED_UNION_MAX_BRANCHES := 10
  const TILED_UNION_MIN_COMBINED := 0.90
  const TILED_UNION_MIN_GAIN := 0.15
  const TILING_MIN_PROMOTED := 1

  /** A tiled shape: its compiled grok, if it compiles, and the figures it was ranked by. */
  datatype Shape = Shape(re: Option<Matcher>, matched: nat, promoted: nat)

  predicate Usable(c: Shape) { c.promoted >= TILING_MIN_PROMOTED && c.re.Some? }

  /** Some branch accepts the line: the language of the alternation. */
  predicate AnyBranch(branches: seq<Shape>, line: string) {
    exists b :: 0 <= b < |branches| && branches[b].re.Some? && branches[b].re.value(line)
  }

  function UnionMatcher(branches: seq<Shape>): Matcher { line => AnyBranch(branches, line) }

  /** Lines below k that c accepts and no branch does. */
  function NewLines(c: Shape, branches: seq<Shape>, eval: seq<string>, k: nat): nat
    requires k <= |eval|
  {
    if k == 0 then 0
    else NewLines(c, branches, eval, k - 1)
         + if c.re.Some? && c.re.value(eval[k - 1]) && !AnyBranch(branches, eval[k - 1]) then 1 else 0
  }

  /** Lines below k still unexplained. */
  function Left(remaining: seq<bool>, k: nat): nat
    requires k <= |remaining|
  {
    if k == 0 then 0 else Left(remaining, k - 1) + if remaining[k - 1] then 1 else 0
  }

  ghost predicate Tracks(branches: seq<Shape>, eval: seq<string>, remaining: seq<bool>) {
    |remaining| == |eval| && forall i :: 0 <= i < |eval| ==> (remaining[i] <==> !AnyBranch(branches, eval[i]))
  }

  /** The lines no branch explains are exactly the ones the alternation misses. */
  lemma {:induction false} LeftAreMisses(branches: seq<Shape>, eval: seq<string>, remaining: seq<bool>, k: nat)
    requires Tracks(branches, eval, remaining) && k <= |eval|
    ensures Left(remaining, k) == Misses(UnionMatcher(branches), eval, 0, k)
  {
    if k > 0 { LeftAreMisses(branches, eval, remaining, k - 1); }
  }

  lemma {:induction false} NewLinesShrink(c: Shape, fewer: seq<Shape>, more: seq<Shape>, eval: seq<string>, k: nat)
    requires k <= |eval| && fewer <= more
    ensures NewLines(c, more, eval, k) <= NewLines(c, fewer, eval, k)
  {
    if k > 0 {
      NewLinesShrink(c, fewer, more, eval, k - 1);
      if AnyBranch(fewer, eval[k - 1]) {
        var b :| 0 <= b < |fewer| && fewer[b].re.Some? && fewer[b].re.value(eval[k - 1]);
        assert more[b] == fewer[b];
      }
    }
  }

  lemma AnyBranchAppend(branches: seq<Shape>, c: Shape, line: string)
    ensures AnyBranch(branches + [c], line) <==> AnyBranch(branches, line) || (c.re.Some? && c.re.value(line))
  {
    var more := branches + [c];
    if AnyBranch(branches, line) {
      var b :| 0 <= b < |branches| && branches[b].re.Some? && branches[b].re.value(line);
      assert more[b] == branches[b];
    }
    if c.re.Some? && c.re.value(line) { assert more[|branches|] == c; }
  }

  /** Every branch is usable and explains at least two lines that no earlier branch explains. */
  ghost predicate Earned(branches: seq<Shape>, eval: seq<string>) {
    forall b :: 0 <= b < |branches| ==>
      branches[b].promoted >= 1 && branches[b].re.Some?
      && NewLines(branches[b], branches[..b], eval, |eval|) >= TILED_UNION_MIN_BRANCH_LINES
  }

  /** Counts, and then claims, the unexplained lines a shape accepts. */
  method TryBranch(c: Shape, eval: seq<string>, remaining: array<bool>, ghost branches: seq<Shape>) returns (taken: bool)
    requires Usable(c) && Tracks(branches, eval, remaining[..])
    modifies remaining
    ensures taken <==> NewLines(c, branches, eval, |eval|) >= TILED_UNION_MIN_BRANCH_LINES
    ensures Tracks(if taken then branches + [c] else branches, eval, remaining[..])
  {
    var gained := 0;
    var gainedIdx: seq<nat> := [];
    assert forall i :: 0 <= i < |eval| ==> remaining[i] == remaining[..][i];
    for i := 0 to |eval|
      invariant gained == NewLines(c, branches, eval, i)
      invariant forall k :: 0 <= k < |gainedIdx| ==> gainedIdx[k] < i
      invariant forall j: nat :: j < i ==> (j in gainedIdx <==> remaining[j] && c.re.value(eval[j]))
    {
      if remaining[i] && c.re.value(eval[i]) {
        gained := gained + 1;
        gainedIdx := gainedIdx + [i];
      }
    }
    taken := gained >= TILED_UNION_MIN_BRANCH_LINES;
    if taken {
      ghost var before := remaining[..];
      for k := 0 to |gainedIdx|
        invariant forall j: nat :: j < |eval| ==> remaining[j] == (before[j] && j !in gainedIdx[..k])
      {
        remaining[gainedIdx[k]] := false;
        assert gainedIdx[..k + 1] == gainedIdx[..k] + [gainedIdx[k]];
      }
      assert gainedIdx[..|gainedIdx|] == gainedIdx;
      forall i | 0 <= i < |eval| ensures remaining[i] <==> !AnyBranch(branches + [c], eval[i]) {
        AnyBranchAppend(branches, c, eval[i]);
      }
    }
  }

  predicate ByMatched(a: Shape, b: Shape) { a.matched > b.matched }

  function WithMatched(shapes: seq<Shape>, n: nat): seq<Shape> {
    if shapes == [] then [] else (if shapes[0].matched == n then [shapes[0]] else []) + WithMatched(shapes[1..], n)
  }

  lemma {:induction false} MatchedTies(shapes: seq<Shape>, x: Shape)
    ensures WithMatched(shapes, x.matched) == TiedWith(shapes, x, ByMatched)
  {
    if shapes != [] { MatchedTies(shapes[1..], x); }
  }

  /** The order shapes are offered in, over the fields: none after one that matched fewer lines, and those
      that matched as many as they came. */
  lemma OfferedInOrder(shapes: seq<Shape>)
    ensures var ordered := SortStable(shapes, ByMatched);
            && multiset(ordered) == multiset(shapes)
            && (forall i, j :: 0 <= i < j < |ordered| ==> ordered[i].matched >= ordered[j].matched)
            && (forall n :: WithMatched(ordered, n) == WithMatched(shapes, n))
  {
    SortSorted(shapes, ByMatched);
    forall i, j | 0 <= i < j < |SortStable(shapes, ByMatched)|
      ensures SortStable(shapes, ByMatched)[i].matched >= SortStable(shapes, ByMatched)[j].matched
    {
      assert !ByMatched(SortStable(shapes, ByMatched)[j], SortStable(shapes, ByMatched)[i]);
    }
    forall n ensures WithMatched(SortStable(shapes, ByMatched), n) == WithMatched(shapes, n) {
      var x := Shape(None, n, 0);
      SortKeepsTies(shapes, x, ByMatched);
      MatchedTies(SortStable(shapes, ByMatched), x);
      MatchedTies(shapes, x);
    }
  }

  /** The shape is taken after these branches. */
  predicate Takes(branches: seq<Shape>, c: Shape, eval: seq<string>) {
    && |branches| < TILED_UNION_MAX_BRANCHES && Usable(c)
    && NewLines(c, branches, eval, |eval|) >= TILED_UNION_MIN_BRANCH_LINES
  }

  /** The branches the shapes yield when offered in this order. */
  function Chosen(ordered: seq<Shape>, eval: seq<string>): (branches: seq<Shape>)
    ensures |branches| <= TILED_UNION_MAX_BRANCHES
  {
    if ordered == [] then []
    else
      var n := |ordered| - 1;
      var branches := Chosen(ordered[..n], eval);
      if Takes(branches, ordered[n], eval) then branches + [ordered[n]] else branches
  }

  lemma ChosenNext(ordered: seq<Shape>, k: nat, eval: seq<string>)
    requires k < |ordered|
    ensures Chosen(ordered[..k + 1], eval)
         == if Takes(Chosen(ordered[..k], eval), ordered[k], eval) then Chosen(ordered[..k], eval) + [ordered[k]]
            else Chosen(ordered[..k], eval)
  {
    assert ordered[..k + 1][..k] == ordered[..k];
  }

  /** At the cap nothing more is taken. */
  lemma {:induction false} ChosenFull(ordered: seq<Shape>, k: nat, j: nat, eval: seq<string>)
    requires k <= j <= |ordered| && |Chosen(ordered[..k], eval)| >= TILED_UNION_MAX_BRANCHES
    ensures Chosen(ordered[..j], eval) == Chosen(ordered[..k], eval)
  {
    if k < j {
      ChosenFull(ordered, k, j - 1, eval);
      ChosenNext(ordered, j - 1, eval);
    }
  }

  /** The branches chosen among the first k shapes. */
  ghost predicate Choosing(ordered: seq<Shape>, k: nat, branches: seq<Shape>, eval: seq<string>)
    requires k <= |ordered|
  {
    && branches == Chosen(ordered[..k], eval) && Earned(branches, eval) && TakenFrom(branches, ordered[..k])
    && (|branches| < TILED_UNION_MAX_BRANCHES ==> Exhausted(ordered[..k], branches, eval))
  }

  lemma ChoosingNext(ordered: seq<Shape>, k: nat, before: seq<Shape>, branches: seq<Shape>, eval: seq<string>)
    requires k < |ordered| && Sorted(ordered, ByMatched) && Choosing(ordered, k, before, eval)
    requires |before| < TILED_UNION_MAX_BRANCHES
    requires branches == if Takes(before, ordered[k], eval) then before + [ordered[k]] else before
    ensures Choosing(ordered, k + 1, branches, eval)
  {
    ChosenNext(ordered, k, eval);
    if Takes(before, ordered[k], eval) { EarnedAppend(before, ordered[k], eval); }
    StillExhausted(ordered, k, before, branches, eval);
    TakeInOrder(ordered, k, before, branches);
  }

  lemma ChoosingFull(ordered: seq<Shape>, k: nat, branches: seq<Shape>, eval: seq<string>)
    requires k <= |ordered| && Choosing(ordered, k, branches, eval) && |branches| >= TILED_UNION_MAX_BRANCHES
    ensures Choosing(ordered, |ordered|, branches, eval)
  {
    ChosenFull(ordered, k, |ordered|, eval);
    TakenSoFar(branches, ordered, k);
    assert ordered[..|ordered|] == ordered;
  }

  /** Chooses the branches, best-matching shapes first. */
  method ChooseBranches(shapes: seq<Shape>, eval: seq<string>) returns (branches: seq<Shape>, remaining: array<bool>)
    ensures branches == Chosen(SortStable(shapes, ByMatched), eval)
    ensures fresh(remaining) && Tracks(branches, eval, remaining[..])
    ensures WellChosen(shapes, branches, eval)
  {
    var ordered := SortStable(shapes, ByMatched);
    SortSorted(shapes, ByMatched);
    remaining := new bool[|eval|](_ => true);
    branches := [];
    for k := 0 to |ordered|
      invariant fresh(remaining) && Tracks(branches, eval, remaining[..])
      invariant Choosing(ordered, k, branches, eval)
    {
      var c := ordered[k];
      if |branches| >= TILED_UNION_MAX_BRANCHES {
        ChoosingFull(ordered, k, branches, eval);
        break;
      }
      ghost var before := branches;
      if Usable(c) {
        var taken := TryBranch(c, eval, remaining, branches);
        if taken {
          branches := branches + [c];
        }
      }
      ChoosingNext(ordered, k, before, branches, eval);
    }
    Conclude(shapes, branches, eval);
  }

  /** No usable shape is left that would explain two more lines. */
  ghost predicate NoneLeft(shapes: seq<Shape>, branches: seq<Shape>, eval: seq<string>) {
    forall c :: c in shapes && c.promoted >= 1 && c.re.Some? ==> NewLines(c, branches, eval, |eval|) < TILED_UNION_MIN_BRANCH_LINES
  }

  /** What the chosen branches are worth: few, each earning its place, shapes in order of matches, and
      below the cap nothing left to gain. */
  ghost predicate WellChosen(shapes: seq<Shape>, branches: seq<Shape>, eval: seq<string>) {
    && |branches| <= TILED_UNION_MAX_BRANCHES && Earned(branches, eval)
    && (forall c :: c in branches ==> c in shapes) && Sorted(branches, ByMatched)
    && (|branches| < TILED_UNION_MAX_BRANCHES ==> NoneLeft(shapes, branches, eval))
  }

  lemma ExhaustedAll(shapes: seq<Shape>, seen: seq<Shape>, branches: seq<Shape>, eval: seq<string>)
    requires Exhausted(seen, branches, eval) && forall c :: c in shapes ==> c in seen
    ensures NoneLeft(shapes, branches, eval)
  {
    forall c | c in shapes && Usable(c) ensures NewLines(c, branches, eval, |eval|) < TILED_UNION_MIN_BRANCH_LINES {
      var k :| 0 <= k < |seen| && seen[k] == c;
    }
  }

  lemma ChosenWell(shapes: seq<Shape>, ordered: seq<Shape>, branches: seq<Shape>, eval: seq<string>)
    requires (forall c :: c in ordered <==> c in shapes) && Choosing(ordered, |ordered|, branches, eval)
    ensures branches == Chosen(ordered, eval) && WellChosen(shapes, branches, eval)
  {
    assert ordered[..|ordered|] == ordered;
    if |branches| < TILED_UNION_MAX_BRANCHES { ExhaustedAll(shapes, ordered, branches, eval); }
  }

  lemma Conclude(shapes: seq<Shape>, branches: seq<Shape>, eval: seq<string>)
    requires var ordered := SortStable(shapes, ByMatched); Choosing(ordered, |ordered|, branches, eval)
    ensures branches == Chosen(SortStable(shapes, ByMatched), eval) && WellChosen(shapes, branches, eval)
  {
    SortMembersAll(shapes);
    ChosenWell(shapes, SortStable(shapes, ByMatched), branches, eval);
  }

  /** The branches are among the shapes seen, best-matching first. */
  ghost predicate TakenFrom(branches: seq<Shape>, seen: seq<Shape>) {
    (forall c :: c in branches ==> c in seen) && Sorted(branches, ByMatched)
  }

  lemma TakenSoFar(branches: seq<Shape>, ordered: seq<Shape>, k: nat)
    requires k <= |ordered| && TakenFrom(branches, ordered[..k])
    ensures TakenFrom(branches, ordered)
  {
  }

  lemma TakeInOrder(ordered: seq<Shape>, k: nat, before: seq<Shape>, branches: seq<Shape>)
    requires k < |ordered| && Sorted(ordered, ByMatched) && TakenFrom(before, ordered[..k])
    requires branches == before || branches == before + [ordered[k]]
    ensures TakenFrom(branches, ordered[..k + 1])
  {
    assert ordered[..k + 1] == ordered[..k] + [ordered[k]];
    forall b | 0 <= b < |before| ensures !ByMatched(ordered[k], before[b]) {
      assert before[b] in ordered[..k];
    }
  }

  /** No usable shape seen so far explains two more lines. */
  ghost predicate Exhausted(seen: seq<Shape>, branches: seq<Shape>, eval: seq<string>) {
    forall k :: 0 <= k < |seen| && Usable(seen[k]) ==>
      NewLines(seen[k], branches, eval, |eval|) < TILED_UNION_MIN_BRANCH_LINES
  }

  lemma StillExhausted(ordered: seq<Shape>, k: nat, before: seq<Shape>, branches: seq<Shape>, eval: seq<string>)
    requires k < |ordered| && Exhausted(ordered[..k], before, eval)
    requires branches == before || branches == before + [ordered[k]]
    requires branches == before && Usable(ordered[k]) ==>
               NewLines(ordered[k], before, eval, |eval|) < TILED_UNION_MIN_BRANCH_LINES
    ensures Exhausted(ordered[..k + 1], branches, eval)
  {
    forall j | 0 <= j < k && Usable(ordered[j])
      ensures NewLines(ordered[j], branches, eval, |eval|) < TILED_UNION_MIN_BRANCH_LINES
    {
      assert ordered[..k][j] == ordered[j];
      NewLinesShrink(ordered[j], before, branches, eval, |eval|);
    }
    if branches != before { OwnLinesGone(ordered[k], branches, eval, |eval|); }
  }

  lemma {:induction false} OwnLinesGone(c: Shape, branches: seq<Shape>, eval: seq<string>, k: nat)
    requires k <= |eval| && c in branches
    ensures NewLines(c, branches, eval, k) == 0
  {
    if k > 0 { OwnLinesGone(c, branches, eval, k - 1); }
  }

  lemma EarnedAppend(branches: seq<Shape>, c: Shape, eval: seq<string>)
    requires Earned(branches, eval) && Usable(c)
    requires NewLines(c, branches, eval, |eval|) >= TILED_UNION_MIN_BRANCH_LINES
    ensures Earned(branches + [c], eval)
  {
    var more := branches + [c];
    forall b | 0 <= b < |more|
      ensures Usable(more[b]) && NewLines(more[b], more[..b], eval, |eval|) >= TILED_UNION_MIN_BRANCH_LINES
    {
      assert more[..b] == branches[..b];
      if b == |branches| { assert branches[..b] == branches; }
    }
  }

  lemma SortMembersAll(shapes: seq<Shape>)
    ensures forall c :: c in SortStable(shapes, ByMatched) <==> c in shapes
  {
    forall c ensures c in SortStable(shapes, ByMatched) <==> c in shapes {
      SortMembers(shapes, ByMatched, c);
    }
  }

  /** Lines claimed by the branches in turn, each line by the first branch that accepts it. */
  function Claimed(branches: seq<Shape>, eval: seq<string>): nat {
    if branches == [] then 0
    else
      var n := |branches| - 1;
      Claimed(branches[..n], eval) + NewLines(branches[n], branches[..n], eval, |eval|)
  }

  lemma {:induction false} NewLinesAreHits(branches: seq<Shape>, c: Shape, eval: seq<string>, k: nat)
    requires k <= |eval|
    ensures Hits(UnionMatcher(branches + [c]), eval, 0, k)
         == Hits(UnionMatcher(branches), eval, 0, k) + NewLines(c, branches, eval, k)
  {
    if k > 0 {
      NewLinesAreHits(branches, c, eval, k - 1);
      AnyBranchAppend(branches, c, eval[k - 1]);
    }
  }

  lemma {:induction false} NoBranchNoHits(eval: seq<string>, k: nat)
    requires k <= |eval|
    ensures Hits(UnionMatcher([]), eval, 0, k) == 0
  {
    if k > 0 { NoBranchNoHits(eval, k - 1); }
  }

  /** The alternation matches exactly the lines claimed: what it matches and what is left unclaimed
      add up to the input. */
  lemma {:induction false} UnionConserves(branches: seq<Shape>, eval: seq<string>)
    ensures Count(UnionMatcher(branches), eval) == Claimed(branches, eval)
  {
    if branches == [] {
      NoBranchNoHits(eval, |eval|);
    } else {
      var n := |branches| - 1;
      UnionConserves(branches[..n], eval);
      NewLinesAreHits(branches[..n], branches[n], eval, |eval|);
      assert branches[..n] + [branches[n]] == branches;
    }
  }

  lemma LeftIsTheRest(branches: seq<Shape>, eval: seq<string>, remaining: seq<bool>)
    requires Tracks(branches, eval, remaining)
    ensures Count(UnionMatcher(branches), eval) == |eval| - Left(remaining, |eval|)
  {
    LeftAreMisses(branches, eval, remaining, |eval|);
    HitsPlusMisses(UnionMatcher(branches), eval, 0, |eval|);
  }

  datatype Union = Union(branches: seq<Shape>, matched: nat)

  /** Whether these branches are worth returning, best single shape at bestCov. */
  predicate Worth(branches: seq<Shape>, eval: seq<string>, bestCov: real) {
    var cov := Ratio(Claimed(branches, eval), |eval|);
    |branches| >= 2 && cov >= TILED_UNION_MIN_COMBINED && cov - bestCov >= TILED_UNION_MIN_GAIN
  }

  /** tiledUnion: there is an alternation exactly when the shapes, best first, yield two branches that
      compile together, cover at least 90% and improve on the best single shape by at least 15 points.
      It matches exactly the eval lines its branches claimed, which are all but those left over. */
  method TiledUnion(shapes: seq<Shape>, eval: seq<string>, bestCov: real, unionCompiles: bool, procs: nat, parallelMin: nat)
    returns (u: Option<Union>, ghost remaining: seq<bool>)
    requires procs >= 1
    ensures u.Some? <==> |shapes| >= 2 && unionCompiles && Worth(Chosen(SortStable(shapes, ByMatched), eval), eval, bestCov)
    ensures u.Some? ==> u.value.branches == Chosen(SortStable(shapes, ByMatched), eval)
    ensures u.Some? ==> Accepted(u.value, shapes, eval)
    ensures u.Some? ==> Tracks(u.value.branches, eval, remaining) && u.value.matched == |eval| - Left(remaining, |eval|)
  {
    u, remaining := None, [];
    if |shapes| < 2 {
      return;
    }
    var branches, rest := ChooseBranches(shapes, eval);
    if |branches| < 2 || !unionCompiles {
      return;
    }
    var matched, _ := EvaluateCoverageWithFloorCtl(Some(UnionMatcher(branches)), eval, -1, procs, parallelMin, false);
    UnionConserves(branches, eval);
    LeftIsTheRest(branches, eval, rest[..]);
    var cov := Ratio(matched, |eval|);
    if cov < TILED_UNION_MIN_COMBINED || cov - bestCov < TILED_UNION_MIN_GAIN {
      return;
    }
    return Some(Union(branches, matched)), rest[..];
  }

  ghost predicate Accepted(u: Union, shapes: seq<Shape>, eval: seq<string>) {
    |u.branches| >= 2 && WellChosen(shapes, u.branches, eval) && u.matched == Claimed(u.branches, eval)
  }
}
