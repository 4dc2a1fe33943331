/** Which inputs lose a blank line in multi-line folding (JoinMultilineStrings in
    pkg/log2grok/multiline.go), read off the lines themselves. */
module BlankLines {
  import opened Base
  import opened Multiline

  // ---------------------------------------------------------------------------
  // Where blocks start
  // ---------------------------------------------------------------------------

  /** Both limits allow these lines in one record; a first line is never tested. */
  predicate Fits(c: Config, lines: seq<string>) {
    |lines| > 1 ==> |lines| - 1 <= c.maxLines && |JoinLines(c, lines)| <= c.maxBytes
  }

  /** The lines after a continue it, and b is the first of them that a record opened at a has no room for. */
  predicate Fills(c: Config, lines: seq<string>, a: nat, b: nat) {
    && a < b < |lines|
    && (forall j :: a < j <= b ==> IsContinuation(c, lines[j]))
    && Fits(c, lines[a..b]) && !Fits(c, lines[a..b + 1])
  }

  /** A line that opens a record whatever stands before it. */
  predicate Heads(c: Config, lines: seq<string>, k: nat) {
    k < |lines| && (k == 0 || !IsContinuation(c, lines[k]))
  }

  /** From a head on, records are filled one after the other, and the next one would open at k. */
  ghost predicate Packed(c: Config, lines: seq<string>, starts: seq<nat>, k: nat) {
    && starts != [] && Heads(c, lines, starts[0]) && starts[|starts| - 1] == k
    && forall i, j :: 0 <= i < j < |starts| && j == i + 1 ==> Fills(c, lines, starts[i], starts[j])
  }

  /** After k lines the record open is that of lines i to k. */
  predicate OpenAt(c: Config, lines: seq<string>, i: nat, k: nat)
    requires k <= |lines|
  {
    var ss := Fold(c, lines[..k]);
    i < k && ss != [] && ss[|ss| - 1] == Block(lines[i..k])
  }

  /** Line k starts afresh. */
  predicate Starts(c: Config, lines: seq<string>, k: nat)
    requires k < |lines|
  {
    !JoinsLast(c, Fold(c, lines[..k]), lines[k])
  }

  lemma JoinNext(c: Config, lines: seq<string>, line: string)
    requires lines != []
    ensures |JoinLines(c, lines + [line])| == |JoinLines(c, lines)| + |c.joiner| + |line|
  {
    assert (lines + [line])[..|lines|] == lines;
  }

  /** A line breaks off a record exactly when it is no continuation or does not fit in. */
  lemma BreaksIff(c: Config, init: seq<string>, line: string)
    requires init != []
    ensures Breaks(c, init, line) <==> !IsContinuation(c, line) || !Fits(c, init + [line])
  {
    JoinNext(c, init, line);
  }

  lemma FitsInit(c: Config, init: seq<string>, line: string)
    requires init != [] && Fits(c, init + [line])
    ensures Fits(c, init)
  {
    JoinNext(c, init, line);
  }

  lemma SliceNext(lines: seq<string>, i: nat, k: nat, next: nat)
    requires i <= k < |lines| && next == k + 1
    ensures lines[i..next] == lines[i..k] + [lines[k]] && lines[..next] == lines[..k] + [lines[k]]
  {
  }

  lemma StartOpens(c: Config, lines: seq<string>, k: nat, next: nat)
    requires k < |lines| && next == k + 1 && Starts(c, lines, k) && lines[k] != ""
    ensures OpenAt(c, lines, k, next)
  {
    SliceNext(lines, k, k, next);
    FoldNext(c, lines[..k], lines[k]);
  }

  lemma OpenNext(c: Config, lines: seq<string>, i: nat, k: nat, next: nat)
    requires k < |lines| && next == k + 1 && OpenAt(c, lines, i, k) && !Starts(c, lines, k)
    ensures OpenAt(c, lines, i, next)
  {
    SliceNext(lines, i, k, next);
    FoldNext(c, lines[..k], lines[k]);
  }

  lemma StartsIff(c: Config, lines: seq<string>, i: nat, k: nat)
    requires k < |lines| && OpenAt(c, lines, i, k)
    ensures Starts(c, lines, k) <==> !IsContinuation(c, lines[k]) || !Fits(c, lines[i..k + 1])
  {
    BreaksIff(c, lines[i..k], lines[k]);
    SliceNext(lines, i, k, k + 1);
  }

  /** A head starts afresh. */
  lemma HeadStarts(c: Config, lines: seq<string>, k: nat)
    requires Heads(c, lines, k)
    ensures Starts(c, lines, k)
  {
  }

  /** A record opened at a takes everything up to the line it has no room for. */
  lemma {:induction false} FillsUp(c: Config, lines: seq<string>, a: nat, k: nat)
    requires a < k < |lines| && Starts(c, lines, a) && lines[a] != "" && Fits(c, lines[a..k])
    requires forall j :: a < j < k ==> IsContinuation(c, lines[j])
    ensures OpenAt(c, lines, a, k)
    decreases k
  {
    var prev := k - 1;
    if prev == a {
      StartOpens(c, lines, a, k);
    } else {
      SliceNext(lines, a, prev, k);
      FitsInit(c, lines[a..prev], lines[prev]);
      FillsUp(c, lines, a, prev);
      StartsIff(c, lines, a, prev);
      OpenNext(c, lines, a, prev, k);
    }
  }

  /** Unless a line is lost before, the last position of a packing starts afresh. */
  lemma {:induction false} PackedStarts(c: Config, lines: seq<string>, starts: seq<nat>, k: nat)
    requires k < |lines| && Packed(c, lines, starts, k)
    ensures Starts(c, lines, k) || LosesBefore(c, lines, |lines|)
    decreases |starts|
  {
    if |starts| == 1 {
      HeadStarts(c, lines, k);
    } else {
      var init, a := starts[..|starts| - 1], starts[|starts| - 2];
      assert Fills(c, lines, a, k);
      PackedStarts(c, lines, init, a);
      if Starts(c, lines, a) {
        if lines[a] == "" {
          assert LeavesNoTrace(c, lines, a);
        } else {
          FillsUp(c, lines, a, k);
          StartsIff(c, lines, a, k);
        }
      }
    }
  }

  /** Where the open record began, and what it holds. */
  lemma {:induction false} OpenSince(c: Config, lines: seq<string>, k: nat) returns (i: nat)
    requires 0 < k <= |lines| && !LosesBefore(c, lines, k)
    ensures i < k && OpenAt(c, lines, i, k) && Starts(c, lines, i) && Fits(c, lines[i..k])
    ensures forall j :: i < j < k ==> IsContinuation(c, lines[j])
  {
    var prev := k - 1;
    if Starts(c, lines, prev) {
      assert !LeavesNoTrace(c, lines, prev);
      StartOpens(c, lines, prev, k);
      i := prev;
    } else {
      assert prev != 0;
      assert !LosesBefore(c, lines, prev);
      i := OpenSince(c, lines, prev);
      StartsIff(c, lines, i, prev);
      OpenNext(c, lines, i, prev, k);
    }
  }

  /** A line that starts afresh, when none was lost before, is where some packing ends. */
  lemma {:induction false} StartsPacked(c: Config, lines: seq<string>, k: nat) returns (starts: seq<nat>)
    requires k < |lines| && Starts(c, lines, k) && !LosesBefore(c, lines, k)
    ensures Packed(c, lines, starts, k)
    decreases k
  {
    if Heads(c, lines, k) {
      starts := [k];
    } else {
      var i := OpenSince(c, lines, k);
      StartsIff(c, lines, i, k);
      assert !LosesBefore(c, lines, i);
      var init := StartsPacked(c, lines, i);
      starts := init + [k];
      assert Fills(c, lines, i, k);
    }
  }

  lemma FirstLoss(c: Config, lines: seq<string>, n: nat) returns (k: nat)
    requires LosesBefore(c, lines, n)
    ensures k < |lines| && LeavesNoTrace(c, lines, k) && !LosesBefore(c, lines, k)
    decreases n
  {
    k :| k < n && k < |lines| && LeavesNoTrace(c, lines, k);
    if LosesBefore(c, lines, k) { k := FirstLoss(c, lines, k); }
  }

  /** Line k is blank and stands where, from a head on, records have been filled to their limits. */
  ghost predicate Misplaced(c: Config, lines: seq<string>, k: nat) {
    k < |lines| && lines[k] == "" && exists starts :: Packed(c, lines, starts, k)
  }

  /** A line is lost exactly when some blank line is so placed. */
  lemma LostIffMisplaced(c: Config, lines: seq<string>)
    ensures Lost in Fold(c, lines) <==> exists k: nat :: Misplaced(c, lines, k)
  {
    NothingLostIff(c, lines);
    if Lost in Fold(c, lines) {
      assert LosesBefore(c, lines, |lines|);
      var k := FirstLoss(c, lines, |lines|);
      var starts := StartsPacked(c, lines, k);
      assert Misplaced(c, lines, k);
    }
    if k: nat :| Misplaced(c, lines, k) {
      var starts :| Packed(c, lines, starts, k);
      PackedStarts(c, lines, starts, k);
      if Starts(c, lines, k) { assert LeavesNoTrace(c, lines, k); }
    }
  }

  // ---------------------------------------------------------------------------
  // Plainer conditions
  // ---------------------------------------------------------------------------

  /** When a blank line continues nothing, as under indentation, every blank line is lost. */
  lemma EveryBlankLost(c: Config, lines: seq<string>)
    requires !IsContinuation(c, "")
    ensures Lost in Fold(c, lines) <==> "" in lines
  {
    LostIffMisplaced(c, lines);
    if "" in lines {
      var k: nat :| k < |lines| && lines[k] == "";
      assert Packed(c, lines, [k], k);
      assert Misplaced(c, lines, k);
    }
  }

  lemma {:induction false} JoinGrows(c: Config, lines: seq<string>, j: nat, k: nat)
    requires j <= k <= |lines|
    ensures |JoinLines(c, lines[..j])| <= |JoinLines(c, lines[..k])|
    decreases k
  {
    if j < k && k > 1 {
      var prev := k - 1;
      SliceNext(lines, 0, prev, k);
      JoinNext(c, lines[..prev], lines[prev]);
      JoinGrows(c, lines, j, prev);
    }
  }

  /** A text is at most as long as one it is part of. */
  lemma {:induction false} JoinTail(c: Config, lines: seq<string>, i: nat)
    requires i < |lines|
    ensures |JoinLines(c, lines[i..])| <= |JoinLines(c, lines)|
    decreases |lines|
  {
    var n := |lines| - 1;
    if i < n {
      var init := lines[..n];
      SliceNext(lines, i, n, |lines|);
      assert lines[i..] == init[i..] + [lines[n]] && lines == init + [lines[n]];
      JoinNext(c, init[i..], lines[n]);
      JoinNext(c, init, lines[n]);
      JoinTail(c, init, i);
    } else if n > 0 {
      assert lines[n..] == [lines[n]];
    }
  }

  lemma PartFits(c: Config, lines: seq<string>, i: nat, k: nat)
    requires i < k <= |lines| && Fits(c, lines)
    ensures Fits(c, lines[i..k])
  {
    JoinGrows(c, lines, k, |lines|);
    assert lines[..|lines|] == lines;
    JoinTail(c, lines[..k], i);
    assert lines[..k][i..] == lines[i..k];
  }

  lemma NothingFilled(c: Config, lines: seq<string>, starts: seq<nat>, k: nat)
    requires Fits(c, lines) && Packed(c, lines, starts, k)
    ensures Heads(c, lines, k)
  {
    if |starts| > 1 {
      var a := starts[|starts| - 2];
      assert Fills(c, lines, a, k);
      PartFits(c, lines, a, k + 1);
    }
  }

  /** When blank lines are continuations and the limits allow the whole input in one record, a line is
      lost only at the very start. */
  lemma OnlyFirstLost(c: Config, lines: seq<string>)
    requires IsContinuation(c, "") && Fits(c, lines)
    ensures Lost in Fold(c, lines) <==> lines != [] && lines[0] == ""
  {
    LostIffMisplaced(c, lines);
    if k: nat :| Misplaced(c, lines, k) {
      var starts :| Packed(c, lines, starts, k);
      NothingFilled(c, lines, starts, k);
    }
    if lines != [] && lines[0] == "" {
      assert Packed(c, lines, [0], 0);
      assert Misplaced(c, lines, 0);
    }
  }

  /** The byte limit is out of reach: no record that the line limit allows comes near it. */
  predicate Roomy(c: Config, lines: seq<string>) {
    forall i, k :: 0 <= i < k <= |lines| && k - i <= c.maxLines + 1 ==> |JoinLines(c, lines[i..k])| <= c.maxBytes
  }

  /** Line k is blank and stands m full records after the head at h, in one run of continuations. */
  predicate AtLineLimit(c: Config, lines: seq<string>, h: nat, m: nat, k: nat) {
    && k < |lines| && lines[k] == "" && k == h + m * (c.maxLines + 1)
    && Heads(c, lines, h) && forall j :: h < j <= k ==> IsContinuation(c, lines[j])
  }

  lemma FullRecord(c: Config, lines: seq<string>, a: nat, k: nat)
    requires c.maxLines >= 0 && Roomy(c, lines) && a < k < |lines| && forall j :: a < j <= k ==> IsContinuation(c, lines[j])
    ensures Fills(c, lines, a, k) <==> k == a + c.maxLines + 1
  {
    if k - a <= c.maxLines { assert |JoinLines(c, lines[a..k + 1])| <= c.maxBytes; }
    if k - a == c.maxLines + 1 { assert |JoinLines(c, lines[a..k])| <= c.maxBytes; }
  }

  /** Full records in a run of continuations, counted. */
  lemma {:induction false} CountRecords(c: Config, lines: seq<string>, starts: seq<nat>, k: nat) returns (h: nat, m: nat)
    requires c.maxLines >= 0 && Roomy(c, lines) && Packed(c, lines, starts, k) && k < |lines|
    ensures h <= k && k == h + m * (c.maxLines + 1) && Heads(c, lines, h)
    ensures forall j :: h < j <= k ==> IsContinuation(c, lines[j])
    decreases |starts|
  {
    if |starts| == 1 {
      h, m := k, 0;
    } else {
      var a := starts[|starts| - 2];
      assert Fills(c, lines, a, k);
      FullRecord(c, lines, a, k);
      h, m := CountRecords(c, lines, starts[..|starts| - 1], a);
      OneMore(m, c.maxLines + 1);
      m := m + 1;
    }
  }

  lemma {:induction false} PackRecords(c: Config, lines: seq<string>, h: nat, m: nat, k: nat) returns (starts: seq<nat>)
    requires c.maxLines >= 0 && Roomy(c, lines) && Heads(c, lines, h) && k < |lines| && k == h + m * (c.maxLines + 1)
    requires forall j :: h < j <= k ==> IsContinuation(c, lines[j])
    ensures Packed(c, lines, starts, k)
    decreases m
  {
    if m == 0 {
      starts := [h];
    } else {
      OneMore(m - 1, c.maxLines + 1);
      var a := h + (m - 1) * (c.maxLines + 1);
      var init := PackRecords(c, lines, h, m - 1, a);
      FullRecord(c, lines, a, k);
      starts := init + [k];
    }
  }

  /** With the byte limit out of reach, a line is lost exactly when a blank line stands a whole number of
      full records after the head of its run. */
  lemma LostAtLineLimitIff(c: Config, lines: seq<string>)
    requires c.maxLines >= 0 && Roomy(c, lines)
    ensures Lost in Fold(c, lines) <==> exists h: nat, m: nat, k: nat :: AtLineLimit(c, lines, h, m, k)
  {
    LostIffMisplaced(c, lines);
    if k: nat :| Misplaced(c, lines, k) {
      var starts :| Packed(c, lines, starts, k);
      var h, m := CountRecords(c, lines, starts, k);
      assert AtLineLimit(c, lines, h, m, k);
    }
    if h: nat, m: nat, k: nat :| AtLineLimit(c, lines, h, m, k) {
      var starts := PackRecords(c, lines, h, m, k);
      assert Misplaced(c, lines, k);
    }
  }
}
