/** Relaxing the tail of a tiling (relaxTail and betterTiling in internal/pattern/tiler.go). */
module Relaxation {
  import opened Base
  import opened Coverage
  import opened Evaluate
  import opened Pieces

  const RELAX_TAIL_MAX_CUTS := 24

  datatype Tiling = Tiling(pieces: seq<Piece>, matched: nat, promoted: nat, litFields: nat, typed: nat)

  predicate BetterTiling(a: Tiling, b: Tiling) {
    if a.matched != b.matched then a.matched > b.matched
    else if a.promoted != b.promoted then a.promoted > b.promoted
    else if a.litFields != b.litFields then a.litFields < b.litFields
    else a.typed > b.typed
  }

  /** How a prefix followed by GREEDYDATA compiles, and how many typed captures it renders. */
  datatype Renderer = Renderer(compile: seq<Piece> -> Option<Matcher>, typed: seq<Piece> -> nat)

  /** A boundary worth cutting at: some high-confidence field lies before it, and it does not fall
      inside a run of literals. */
  predicate IsCut(ps: seq<Piece>, i: nat) {
    i + 1 < |ps| && Promoted(ps[..i + 1]) > 0 && !(ps[i].Lit? && ps[i + 1].Lit?)
  }

  function CutsBefore(ps: seq<Piece>, i: nat): nat {
    if i == 0 then 0 else CutsBefore(ps, i - 1) + if IsCut(ps, i - 1) then 1 else 0
  }

  lemma {:induction false} PromotedAppend(ps: seq<Piece>, qs: seq<Piece>)
    ensures Promoted(ps + qs) == Promoted(ps) + Promoted(qs)
  {
    if ps == [] {
      assert ps + qs == qs;
    } else {
      assert (ps + qs)[1..] == ps[1..] + qs;
      PromotedAppend(ps[1..], qs);
    }
  }

  lemma PrefixNext(ps: seq<Piece>, i: nat, next: nat)
    requires i < |ps| && next == i + 1
    ensures Promoted(ps[..next]) == Promoted(ps[..i]) + PromotedOne(ps[i])
    ensures CutsBefore(ps, next) == CutsBefore(ps, i) + if IsCut(ps, i) then 1 else 0
  {
    PromotedAppend(ps[..i], [ps[i]]);
    assert ps[..i] + [ps[i]] == ps[..next];
  }

  function Margin(eval: seq<string>): nat { Max(|eval| / 50, 1) }

  /** A relaxation must gain a fiftieth of the lines, rounded down, and at least one line. */
  lemma MarginIs(eval: seq<string>)
    ensures var m := Margin(eval); m >= 1 && |eval| < 50 * (m + 1) && (m > 1 ==> 50 * m <= |eval|)
  {
  }

  /** The tiling a cut after piece i yields, with its full match count. */
  function CutTiling(rd: Renderer, ps: seq<Piece>, eval: seq<string>, i: nat): Tiling
    requires i < |ps| && rd.compile(ps[..i + 1]).Some?
  {
    Tiling(ps[..i + 1], Count(rd.compile(ps[..i + 1]).value, eval),
           Promoted(ps[..i + 1]), Speculative(ps[..i + 1]), rd.typed(ps[..i + 1]))
  }

  /** The cut is among the first 24, compiles, and by its full count gains at least the margin. */
  predicate Gains(rd: Renderer, best: Tiling, eval: seq<string>, i: nat) {
    && IsCut(best.pieces, i) && CutsBefore(best.pieces, i) < RELAX_TAIL_MAX_CUTS
    && rd.compile(best.pieces[..i + 1]).Some?
    && Count(rd.compile(best.pieces[..i + 1]).value, eval) >= best.matched + Margin(eval)
  }

  /** r is the latest of the best gaining cuts before k, measured by full scans. */
  ghost predicate LatestBest(rd: Renderer, best: Tiling, eval: seq<string>, k: nat, r: Option<nat>) {
    match r
    case None => forall j: nat :: j < k ==> !Gains(rd, best, eval, j)
    case Some(i) =>
      && i < k && Gains(rd, best, eval, i)
      && (forall j: nat :: j < k && Gains(rd, best, eval, j) ==> Yields(rd, best, eval, j, i))
  }

  /** Cut j gives way to cut i. */
  ghost predicate Yields(rd: Renderer, best: Tiling, eval: seq<string>, j: nat, i: nat)
    requires Gains(rd, best, eval, j) && Gains(rd, best, eval, i)
  {
    var cj, ci := CutTiling(rd, best.pieces, eval, j), CutTiling(rd, best.pieces, eval, i);
    !BetterTiling(cj, ci) && (j > i ==> BetterTiling(ci, cj))
  }

  /** Cut j gives way to cut i: it matches fewer lines, or as many with fewer high-confidence fields, or
      with as many and more speculative fields, or with as few and fewer typed captures, or it is the
      same in all four and comes earlier. */
  ghost predicate GivesWay(rd: Renderer, best: Tiling, eval: seq<string>, j: nat, i: nat)
    requires Gains(rd, best, eval, j) && Gains(rd, best, eval, i)
  {
    var cj, ci := CutTiling(rd, best.pieces, eval, j), CutTiling(rd, best.pieces, eval, i);
    && ci.matched >= cj.matched
    && (ci.matched == cj.matched ==>
          && ci.promoted >= cj.promoted
          && (ci.promoted == cj.promoted ==>
                && ci.litFields <= cj.litFields
                && (ci.litFields == cj.litFields ==>
                      && ci.typed >= cj.typed
                      && (ci.typed == cj.typed ==> j <= i))))
  }

  /** Over the fields: every gaining cut gives way to the one kept. */
  lemma KeptInOrder(rd: Renderer, best: Tiling, eval: seq<string>, k: nat, i: nat, j: nat)
    requires LatestBest(rd, best, eval, k, Some(i)) && j < k && Gains(rd, best, eval, j)
    ensures GivesWay(rd, best, eval, j, i)
  {
    assert Yields(rd, best, eval, j, i);
  }

  /** relaxTail: although every scan is pruned at the acceptance floor, the cut returned is the
      one full scans would choose, and its count is exact. */
  method RelaxTail(rd: Renderer, best: Tiling, eval: seq<string>, procs: nat, parallelMin: nat)
    returns (bestVar: Option<Tiling>, cut: Option<nat>)
    requires procs >= 1
    ensures LatestBest(rd, best, eval, |best.pieces|, cut)
    ensures bestVar == if cut.None? then None else Some(CutTiling(rd, best.pieces, eval, cut.value))
  {
    var ps := best.pieces;
    var promoted, cuts, i := 0, 0, 0;
    bestVar, cut := None, None;
    while i + 1 < |ps| && cuts < RELAX_TAIL_MAX_CUTS
      invariant i <= |ps| && promoted == Promoted(ps[..i]) && cuts == CutsBefore(ps, i)
      invariant LatestBest(rd, best, eval, i, cut)
      invariant bestVar == if cut.None? then None else Some(CutTiling(rd, ps, eval, cut.value))
      decreases |ps| - i
    {
      PrefixNext(ps, i, i + 1);
      promoted := promoted + PromotedOne(ps[i]);
      if promoted > 0 && !(ps[i].Lit? && ps[i + 1].Lit?) {
        cuts := cuts + 1;
        bestVar, cut := TryCut(rd, best, eval, i, bestVar, cut, procs, parallelMin);
      } else {
        NoCut(rd, best, eval, i, i + 1, cut);
      }
      i := i + 1;
    }
    NoMoreCuts(rd, best, eval, i, cut);
  }

  lemma NoCut(rd: Renderer, best: Tiling, eval: seq<string>, i: nat, next: nat, cut: Option<nat>)
    requires LatestBest(rd, best, eval, i, cut) && next == i + 1 && !IsCut(best.pieces, i)
    ensures LatestBest(rd, best, eval, next, cut)
  {
  }

  /** One cut: scan it pruned at the floor, and let it replace the incumbent unless the incumbent
      is strictly better. */
  method TryCut(rd: Renderer, best: Tiling, eval: seq<string>, i: nat, bestVar: Option<Tiling>, cut: Option<nat>,
                procs: nat, parallelMin: nat)
    returns (newVar: Option<Tiling>, newCut: Option<nat>)
    requires procs >= 1 && IsCut(best.pieces, i) && CutsBefore(best.pieces, i) < RELAX_TAIL_MAX_CUTS
    requires LatestBest(rd, best, eval, i, cut)
    requires bestVar == if cut.None? then None else Some(CutTiling(rd, best.pieces, eval, cut.value))
    ensures LatestBest(rd, best, eval, i + 1, newCut)
    ensures newVar == if newCut.None? then None else Some(CutTiling(rd, best.pieces, eval, newCut.value))
  {
    newVar, newCut := bestVar, cut;
    var prefix := best.pieces[..i + 1];
    var re := rd.compile(prefix);
    if re.Some? {
      var floor := best.matched + Margin(eval) - 1;
      var matched, _ := EvaluateCoverageWithFloorCtl(re, eval, floor, procs, parallelMin, false);
      PrunedCountDecides(re.value, eval, floor);
      if matched - best.matched >= Margin(eval) {
        var cand := Tiling(prefix, matched, Promoted(prefix), Speculative(prefix), rd.typed(prefix));
        if bestVar.None? || !BetterTiling(bestVar.value, cand) {
          newVar, newCut := Some(cand), Some(i);
        }
      }
    }
    NextCut(rd, best, eval, i, cut);
  }

  /** How the choice moves on when cut i has been tried. */
  lemma NextCut(rd: Renderer, best: Tiling, eval: seq<string>, i: nat, cut: Option<nat>)
    requires LatestBest(rd, best, eval, i, cut)
    ensures !Gains(rd, best, eval, i) ==> LatestBest(rd, best, eval, i + 1, cut)
    ensures Gains(rd, best, eval, i) ==>
              LatestBest(rd, best, eval, i + 1,
                if cut.None? || !BetterTiling(CutTiling(rd, best.pieces, eval, cut.value), CutTiling(rd, best.pieces, eval, i))
                then Some(i) else cut)
  {
    if Gains(rd, best, eval, i) && cut.Some? {
      forall j: nat | j < i && Gains(rd, best, eval, j)
        ensures Yields(rd, best, eval, j, cut.value)
      {
      }
    }
  }

  lemma {:induction false} CutsGrow(ps: seq<Piece>, i: nat, j: nat)
    requires i <= j
    ensures CutsBefore(ps, i) <= CutsBefore(ps, j)
  {
    if i < j { CutsGrow(ps, i, j - 1); }
  }

  lemma NoMoreCuts(rd: Renderer, best: Tiling, eval: seq<string>, i: nat, cut: Option<nat>)
    requires LatestBest(rd, best, eval, i, cut) && i <= |best.pieces|
    requires i + 1 >= |best.pieces| || CutsBefore(best.pieces, i) >= RELAX_TAIL_MAX_CUTS
    ensures LatestBest(rd, best, eval, |best.pieces|, cut)
  {
    forall j: nat | i <= j < |best.pieces| ensures !Gains(rd, best, eval, j) {
      CutsGrow(best.pieces, i, j);
    }
  }
}
