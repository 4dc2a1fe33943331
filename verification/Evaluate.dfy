/** Choosing between the scans (evaluateCoverageWithFloorCtl in internal/pattern/coverage.go). */
module Evaluate {
  import opened Base
  import opened Coverage
  import BitmapScan
  import Scan

  /** The pruned count of an optional pattern; a pattern that did not compile matches nothing. */
  function Pruned(re: Option<Matcher>, lines: seq<string>, floor: int): nat {
    if re.None? then 0 else PrunedCount(re.value, lines, floor)
  }

  /** Whichever scan the machine selects, an un-aborted evaluation returns the same number. */
  method EvaluateCoverageWithFloorCtl(re: Option<Matcher>, lines: seq<string>, floor: int, procs: nat,
                                      parallelMin: nat, cancellable: bool)
    returns (r: nat, aborted: bool)
    requires procs >= 1
    ensures !cancellable ==> !aborted
    ensures !aborted ==> r == Pruned(re, lines, floor)
  {
    if re.None? {
      return 0, false;
    }
    if floor >= 0 && procs >= 2 && |lines| >= parallelMin {
      r, aborted := Scan.ScanMatchesFloor(re.value, lines, floor, procs, cancellable);
    } else if floor < 0 {
      var bitmap;
      ghost var scanned;
      r, bitmap, aborted, scanned :=
        BitmapScan.ScanMatchesInto(re, lines, seq(|lines|, _ => false), procs, parallelMin, cancellable);
    } else {
      r, aborted := EvaluateCoverageWithFloorSeq(re.value, lines, floor, cancellable);
    }
  }
}
