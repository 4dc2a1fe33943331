/** Coverage counting with a floor (internal/pattern/coverage.go).
    The specification is the position of a miss; the scans are proved against it. */
module Coverage {
  import opened Base

  /** Lines in [lo, hi) accepted by re. */
  function Hits(re: Matcher, lines: seq<string>, lo: nat, hi: nat): (n: nat)
    requires hi <= |lines|
  {
    if hi <= lo then 0 else Hits(re, lines, lo, hi - 1) + if re(lines[hi - 1]) then 1 else 0
  }

  /** Lines in [lo, hi) rejected by re. */
  function Misses(re: Matcher, lines: seq<string>, lo: nat, hi: nat): (n: nat)
    requires hi <= |lines|
  {
    if hi <= lo then 0 else Misses(re, lines, lo, hi - 1) + if re(lines[hi - 1]) then 0 else 1
  }

  function Count(re: Matcher, lines: seq<string>): nat { Hits(re, lines, 0, |lines|) }

  lemma {:induction false} HitsPlusMisses(re: Matcher, lines: seq<string>, lo: nat, hi: nat)
    requires lo <= hi <= |lines|
    ensures Hits(re, lines, lo, hi) + Misses(re, lines, lo, hi) == hi - lo
  {
    if lo < hi { HitsPlusMisses(re, lines, lo, hi - 1); }
  }

  lemma {:induction false} MissesSplit(re: Matcher, lines: seq<string>, lo: nat, mid: nat, hi: nat)
    requires lo <= mid <= hi <= |lines|
    ensures Misses(re, lines, lo, hi) == Misses(re, lines, lo, mid) + Misses(re, lines, mid, hi)
  {
    if mid < hi { MissesSplit(re, lines, lo, mid, hi - 1); }
  }

  /** Line i is the one holding the b-th miss. */
  ghost predicate HoldsMiss(re: Matcher, lines: seq<string>, b: int, i: int) {
    0 <= i < |lines| && !re(lines[i]) && Misses(re, lines, 0, i) == b - 1
  }

  function NthMiss(re: Matcher, lines: seq<string>, b: nat, hi: nat): (i: nat)
    requires hi <= |lines| && 1 <= b <= Misses(re, lines, 0, hi)
    ensures i < hi && HoldsMiss(re, lines, b, i)
  {
    if Misses(re, lines, 0, hi - 1) < b then hi - 1 else NthMiss(re, lines, b, hi - 1)
  }

  lemma {:induction false} MissUnique(re: Matcher, lines: seq<string>, b: int, i: int, j: int)
    requires HoldsMiss(re, lines, b, i) && HoldsMiss(re, lines, b, j)
    ensures i == j
  {
    if i < j { MissesSplit(re, lines, 0, i + 1, j); }
    if j < i { MissesSplit(re, lines, 0, j + 1, i); }
  }

  /** What the floor-pruned scan must return: the exact count while fewer than
      B = |lines| - floor lines miss, otherwise the matches seen before the B-th miss.
      With no budget at all the scan stops on its first line. */
  function PrunedCount(re: Matcher, lines: seq<string>, floor: int): (r: nat)
  {
    var b := |lines| - floor;
    HitsPlusMisses(re, lines, 0, |lines|);
    if floor < 0 || Misses(re, lines, 0, |lines|) < b then Count(re, lines)
    else if b <= 0 then (if lines != [] && re(lines[0]) then 1 else 0)
    else
      var i := NthMiss(re, lines, b, |lines|);
      HitsPlusMisses(re, lines, 0, i);
      i + 1 - b
  }

  /** Finding the B-th miss anywhere settles the pruned count. */
  lemma PrunedAtMiss(re: Matcher, lines: seq<string>, floor: nat, i: nat)
    requires |lines| > floor && HoldsMiss(re, lines, |lines| - floor, i)
    ensures PrunedCount(re, lines, floor) == i + 1 - (|lines| - floor)
  {
    MissesSplit(re, lines, 0, i + 1, |lines|);
    MissUnique(re, lines, |lines| - floor, i, NthMiss(re, lines, |lines| - floor, |lines|));
  }

  /** With misses to spare the pruned count is exact. */
  lemma PrunedWithinBudget(re: Matcher, lines: seq<string>, floor: nat)
    requires Misses(re, lines, 0, |lines|) < |lines| - floor
    ensures PrunedCount(re, lines, floor) == |lines| - Misses(re, lines, 0, |lines|)
  {
    HitsPlusMisses(re, lines, 0, |lines|);
  }

  /** A pruned count never exceeds the true count, decides "beats the floor" exactly as the
      true count does, and is exact whenever it reaches the floor. */
  lemma PrunedCountDecides(re: Matcher, lines: seq<string>, floor: int)
    ensures PrunedCount(re, lines, floor) <= Count(re, lines)
    ensures PrunedCount(re, lines, floor) > floor <==> Count(re, lines) > floor
    ensures PrunedCount(re, lines, floor) >= floor ==> PrunedCount(re, lines, floor) == Count(re, lines)
  {
    var n, b := |lines|, |lines| - floor;
    HitsPlusMisses(re, lines, 0, n);
    if !(floor < 0 || Misses(re, lines, 0, n) < b) {
      if b <= 0 {
        if n > 0 {
          HitsPlusMisses(re, lines, 0, 1);
          HitsPlusMisses(re, lines, 1, n);
          MissesSplit(re, lines, 0, 1, n);
        }
      } else {
        var i := NthMiss(re, lines, b, n);
        HitsPlusMisses(re, lines, 0, i);
        HitsPlusMisses(re, lines, i + 1, n);
        MissesSplit(re, lines, 0, i + 1, n);
      }
    }
  }

  /** A candidate that only ties the floor reports its true count exactly when the input's
      last line is a miss (or there is a single line); otherwise it reports strictly less,
      so the caller never reaches its tie-break. */
  lemma TieIsExactIff(re: Matcher, lines: seq<string>, floor: nat)
    requires Count(re, lines) == floor
    ensures PrunedCount(re, lines, floor) == floor <==> |lines| <= 1 || !re(lines[|lines| - 1])
  {
    var n, b := |lines|, |lines| - floor;
    HitsPlusMisses(re, lines, 0, n);
    if n > 0 && b > 0 {
      var i := NthMiss(re, lines, b, n);
      HitsPlusMisses(re, lines, 0, i);
      if !re(lines[n - 1]) {
        MissUnique(re, lines, b, i, n - 1);
      }
    }
  }

  /** The sequential floor-pruned scan. `aborted` reports that the cancellation token was
      observed; a caller without a token passes cancellable = false. */
  method EvaluateCoverageWithFloorSeq(re: Matcher, lines: seq<string>, floor: int, cancellable: bool)
    returns (n: nat, aborted: bool)
    ensures !cancellable ==> !aborted
    ensures !aborted ==> n == PrunedCount(re, lines, floor)
    ensures n <= Count(re, lines)
  {
    n, aborted := 0, false;
    HitsPlusMisses(re, lines, 0, |lines|);
    for i := 0 to |lines|
      invariant n == Hits(re, lines, 0, i)
      invariant floor >= 0 && i > 0 ==> Misses(re, lines, 0, i) < |lines| - floor
    {
      HitsPlusMisses(re, lines, 0, i);
      HitsPlusMisses(re, lines, i, |lines|);
      MissesSplit(re, lines, 0, i, |lines|);
      var observed: bool := *;
      if cancellable && observed {
        return n, true;
      }
      if re(lines[i]) {
        n := n + 1;
      }
      HitsPlusMisses(re, lines, 0, i + 1);
      MissesSplit(re, lines, 0, i + 1, |lines|);
      HitsPlusMisses(re, lines, i + 1, |lines|);
      if floor >= 0 && n + (|lines| - i - 1) <= floor {
        if |lines| > floor {
          PrunedAtMiss(re, lines, floor, i);
        }
        return n, false;
      }
    }
  }
}
