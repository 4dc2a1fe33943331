/** Cutting a matched line into token and literal segments (segmentsFor in
    internal/webapi/webapi.go). */
module LineSegments {
  import opened Base
  import opened Sorting

  /** A non-empty capture: group g matched line[start..end]. */
  datatype Span = Span(start: nat, end: nat, g: nat)

  /** A segment of the line: plain text, or the text of a captured span. */
  datatype Segment = Plain(text: string) | Captured(text: string, span: Span)

  function Join(segs: seq<Segment>): string {
    if segs == [] then "" else Join(segs[..|segs| - 1]) + segs[|segs| - 1].text
  }

  /** The spans emitted as token segments, in order. */
  function Emitted(segs: seq<Segment>): seq<Span> {
    if segs == [] then []
    else Emitted(segs[..|segs| - 1]) + if segs[|segs| - 1].Captured? then [segs[|segs| - 1].span] else []
  }

  /** The sort of the source: earlier start first, then longer first. */
  predicate Before(a: Span, b: Span) {
    if a.start != b.start then a.start < b.start else a.end > b.end
  }

  /** That order with ties in group order: what a stable sort of the groups gives. */
  predicate Precedes(a: Span, b: Span) { Before(a, b) || (!Before(b, a) && a.g < b.g) }

  ghost predicate Ordered(spans: seq<Span>) {
    forall i, j :: 0 <= i < j < |spans| ==> Precedes(spans[i], spans[j])
  }

  ghost predicate ByGroup(spans: seq<Span>) {
    forall i, j :: 0 <= i < j < |spans| ==> spans[i].g < spans[j].g
  }

  lemma {:induction false} InsertOrdered(x: Span, s: seq<Span>)
    requires Ordered(s) && forall k :: 0 <= k < |s| ==> x.g < s[k].g
    ensures Ordered(InsertStable(x, s, Before))
  {
    var r := InsertStable(x, s, Before);
    if s != [] && Before(s[0], x) {
      InsertOrdered(x, s[1..]);
      forall j | 1 <= j < |r| ensures Precedes(r[0], r[j]) {
        assert r[j] in multiset(InsertStable(x, s[1..], Before));
        assert r[j] == x || r[j] in s[1..];
      }
    }
  }

  lemma {:induction false} SortOrdered(spans: seq<Span>)
    requires ByGroup(spans)
    ensures Ordered(SortStable(spans, Before))
  {
    if spans != [] {
      SortOrdered(spans[1..]);
      var t := SortStable(spans[1..], Before);
      forall k | 0 <= k < |t| ensures spans[0].g < t[k].g {
        SortMembers(spans[1..], Before, t[k]);
      }
      InsertOrdered(spans[0], t);
    }
  }

  /** a covers b: b lies inside a, and is smaller or belongs to a later group. */
  predicate Covers(a: Span, b: Span) {
    a.start <= b.start && b.end <= a.end && (a.start < b.start || b.end < a.end || a.g < b.g)
  }

  /** No span covers b: b is maximal, and the first group among identical spans. */
  ghost predicate Top(spans: seq<Span>, b: Span) { b in spans && forall a :: a in spans ==> !Covers(a, b) }

  predicate Apart(a: Span, b: Span) { a.end <= b.start || b.end <= a.start }

  predicate Nested(a: Span, b: Span) {
    (a.start <= b.start && b.end <= a.end) || (b.start <= a.start && a.end <= b.end)
  }

  /** Any two captures are nested or disjoint. */
  ghost predicate Laminar(spans: seq<Span>) {
    forall i, j :: 0 <= i < j < |spans| ==> Apart(spans[i], spans[j]) || Nested(spans[i], spans[j])
  }

  ghost predicate Inside(line: string, spans: seq<Span>) {
    forall k :: 0 <= k < |spans| ==> spans[k].start < spans[k].end <= |line|
  }

  /** Match indices: two for each group, negative when the group took no part. */
  predicate InRange(line: string, idx: seq<int>, groups: nat) {
    |idx| == 2 * groups && forall g :: 0 <= g < groups ==> idx[2 * g] < 0 || idx[2 * g + 1] <= |line|
  }

  /** Group s.g, other than the whole match, took part and matched s.start..s.end, not nothing. */
  predicate IsCapture(idx: seq<int>, groups: nat, s: Span)
    requires |idx| == 2 * groups
  {
    1 <= s.g < groups && idx[2 * s.g] == s.start < s.end == idx[2 * s.g + 1]
  }

  /** The capture spans of a match: groups that did not take part, or matched nothing, are dropped. */
  method CaptureSpans(line: string, idx: seq<int>, groups: nat) returns (spans: seq<Span>)
    requires InRange(line, idx, groups)
    ensures ByGroup(spans) && Inside(line, spans)
    ensures forall s: Span :: s in spans <==> IsCapture(idx, groups, s)
  {
    spans := [];
    for g := 1 to Max(1, groups)
      invariant ByGroup(spans) && Inside(line, spans) && forall k :: 0 <= k < |spans| ==> spans[k].g < g
      invariant forall s: Span :: s in spans <==> s.g < g && IsCapture(idx, groups, s)
    {
      var start, end := idx[2 * g], idx[2 * g + 1];
      if start >= 0 && end > start {
        spans := spans + [Span(start, end, g)];
      }
    }
  }

  /** A token segment carries exactly the text its group captured. */
  ghost predicate Faithful(line: string, segs: seq<Segment>) {
    forall k :: 0 <= k < |segs| && segs[k].Captured? ==>
      segs[k].span.start < segs[k].span.end <= |line| && segs[k].text == line[segs[k].span.start..segs[k].span.end]
  }

  /** The walk has emitted line[..pos]; every emitted span lies below pos and is one of the first k. */
  ghost predicate Walked(line: string, sorted: seq<Span>, k: nat, segs: seq<Segment>, pos: nat)
    requires k <= |sorted|
  {
    && pos <= |line| && Join(segs) == line[..pos] && Faithful(line, segs)
    && (pos == 0 <==> segs == []) && (k > 0 ==> pos > 0)
    && (forall i :: 0 <= i < |Emitted(segs)| ==> Emitted(segs)[i] in sorted[..k] && Emitted(segs)[i].end <= pos)
    && (forall i, j :: 0 <= i < j < |Emitted(segs)| ==> Emitted(segs)[i].end <= Emitted(segs)[j].start)
  }

  /** For nested or disjoint captures, the emitted spans are exactly the tops of the first k, and
      nothing walked past reaches beyond pos. */
  ghost predicate TopsWalked(sorted: seq<Span>, k: nat, emitted: seq<Span>, pos: nat)
    requires k <= |sorted|
  {
    && (forall i :: 0 <= i < k ==> sorted[i].end <= pos)
    && (forall i :: 0 <= i < k ==> (sorted[i] in emitted <==> Top(sorted, sorted[i])))
    && (pos > 0 ==> emitted != [] && emitted[|emitted| - 1].end == pos)
  }

  /** One span of the walk: skipped when it overlaps what has been emitted, else emitted after the
      plain text before it. */
  function WalkOne(line: string, s: Span, segs: seq<Segment>, pos: nat): (seq<Segment>, nat)
    requires s.start < s.end <= |line|
  {
    if s.start < pos then (segs, pos)
    else
      ((if s.start > pos then segs + [Plain(line[pos..s.start])] else segs) + [Captured(line[s.start..s.end], s)], s.end)
  }

  lemma JoinAppend(segs: seq<Segment>, seg: Segment)
    ensures Join(segs + [seg]) == Join(segs) + seg.text
    ensures Emitted(segs + [seg]) == Emitted(segs) + if seg.Captured? then [seg.span] else []
  {
    assert (segs + [seg])[..|segs|] == segs;
  }

  lemma WalkOneEmits(line: string, s: Span, segs: seq<Segment>, pos: nat)
    requires pos <= s.start < s.end <= |line| && Join(segs) == line[..pos]
    ensures var (next, p) := WalkOne(line, s, segs, pos);
            p == s.end && Join(next) == line[..s.end] && Emitted(next) == Emitted(segs) + [s] && next != []
  {
    var mid := if s.start > pos then segs + [Plain(line[pos..s.start])] else segs;
    if s.start > pos { JoinAppend(segs, Plain(line[pos..s.start])); }
    JoinAppend(mid, Captured(line[s.start..s.end], s));
    assert line[..pos] + line[pos..s.start] == line[..s.start];
    assert line[..s.start] + line[s.start..s.end] == line[..s.end];
  }

  lemma WalkedStep(line: string, sorted: seq<Span>, k: nat, segs: seq<Segment>, pos: nat)
    requires k < |sorted| && Inside(line, sorted) && Walked(line, sorted, k, segs, pos)
    ensures var (next, p) := WalkOne(line, sorted[k], segs, pos); Walked(line, sorted, k + 1, next, p)
  {
    TakeNext(sorted, k);
    if sorted[k].start >= pos { WalkOneEmits(line, sorted[k], segs, pos); }
  }

  /** An emitted span is a top: nothing before it in the order reaches it, nothing after covers it. */
  lemma EmittedIsTop(sorted: seq<Span>, k: nat, pos: nat)
    requires k < |sorted| && Ordered(sorted) && pos <= sorted[k].start < sorted[k].end
    requires forall i :: 0 <= i < k ==> sorted[i].end <= pos
    ensures Top(sorted, sorted[k])
  {
    forall a | a in sorted ensures !Covers(a, sorted[k]) {
      var i :| 0 <= i < |sorted| && sorted[i] == a;
      if i > k { assert Precedes(sorted[k], sorted[i]); }
    }
  }

  /** A skipped span is covered by the last emitted one. */
  lemma SkippedIsCovered(sorted: seq<Span>, e: nat, k: nat, pos: nat)
    requires e < k < |sorted| && Ordered(sorted) && Laminar(sorted)
    requires sorted[e].start < sorted[e].end == pos && sorted[k].start < sorted[k].end && sorted[k].start < pos
    ensures Covers(sorted[e], sorted[k]) && sorted[k].end <= pos
  {
    assert Precedes(sorted[e], sorted[k]);
    assert Apart(sorted[e], sorted[k]) || Nested(sorted[e], sorted[k]);
  }

  lemma TopsStep(line: string, sorted: seq<Span>, k: nat, segs: seq<Segment>, pos: nat)
    requires k < |sorted| && Inside(line, sorted) && Ordered(sorted) && Laminar(sorted)
    requires Walked(line, sorted, k, segs, pos) && TopsWalked(sorted, k, Emitted(segs), pos)
    ensures var (next, p) := WalkOne(line, sorted[k], segs, pos); TopsWalked(sorted, k + 1, Emitted(next), p)
  {
    forall i | 0 <= i < k ensures sorted[i] != sorted[k] { assert Precedes(sorted[i], sorted[k]); }
    if sorted[k].start < pos {
      SkipKeepsTops(line, sorted, k, segs, pos);
    } else {
      WalkOneEmits(line, sorted[k], segs, pos);
      EmittedIsTop(sorted, k, pos);
    }
  }

  lemma SkipKeepsTops(line: string, sorted: seq<Span>, k: nat, segs: seq<Segment>, pos: nat)
    requires k < |sorted| && Inside(line, sorted) && Ordered(sorted) && Laminar(sorted)
    requires Walked(line, sorted, k, segs, pos) && TopsWalked(sorted, k, Emitted(segs), pos)
    requires sorted[k].start < pos && forall i :: 0 <= i < k ==> sorted[i] != sorted[k]
    ensures TopsWalked(sorted, k + 1, Emitted(segs), pos)
  {
    SkippedIsNoTop(line, sorted, k, segs, pos);
    NotEmitted(sorted, k, Emitted(segs));
  }

  lemma SkippedIsNoTop(line: string, sorted: seq<Span>, k: nat, segs: seq<Segment>, pos: nat)
    requires k < |sorted| && Inside(line, sorted) && Ordered(sorted) && Laminar(sorted)
    requires Walked(line, sorted, k, segs, pos) && TopsWalked(sorted, k, Emitted(segs), pos) && sorted[k].start < pos
    ensures !Top(sorted, sorted[k]) && sorted[k].end <= pos
  {
    var emitted := Emitted(segs);
    var last := emitted[|emitted| - 1];
    assert last in sorted[..k];
    var e :| 0 <= e < k && sorted[..k][e] == last;
    SkippedIsCovered(sorted, e, k, pos);
    assert sorted[e] in sorted;
  }

  lemma NotEmitted(sorted: seq<Span>, k: nat, emitted: seq<Span>)
    requires k < |sorted| && forall i :: 0 <= i < k ==> sorted[i] != sorted[k]
    requires forall i :: 0 <= i < |emitted| ==> emitted[i] in sorted[..k]
    ensures sorted[k] !in emitted
  {
    forall i | 0 <= i < |emitted| ensures emitted[i] != sorted[k] {
      assert emitted[i] in sorted[..k];
    }
  }

  /** The loop over the sorted spans. */
  method Walk(line: string, sorted: seq<Span>) returns (segs: seq<Segment>, pos: nat)
    requires Inside(line, sorted) && Ordered(sorted)
    ensures Walked(line, sorted, |sorted|, segs, pos)
    ensures Laminar(sorted) ==> TopsWalked(sorted, |sorted|, Emitted(segs), pos)
  {
    segs, pos := [], 0;
    ghost var laminar := Laminar(sorted);
    for k := 0 to |sorted|
      invariant Walked(line, sorted, k, segs, pos)
      invariant laminar ==> TopsWalked(sorted, k, Emitted(segs), pos)
    {
      WalkedStep(line, sorted, k, segs, pos);
      if laminar { TopsStep(line, sorted, k, segs, pos); }
      var (next, p) := WalkOne(line, sorted[k], segs, pos);
      segs, pos := next, p;
    }
  }

  /** The plain text after the last span; a line without spans is one plain segment. */
  function Finish(line: string, segs: seq<Segment>, pos: nat): (r: seq<Segment>)
    requires pos <= |line| && Join(segs) == line[..pos] && Faithful(line, segs)
    ensures Join(r) == line && r != [] && Emitted(r) == Emitted(segs) && Faithful(line, r)
  {
    assert line[..pos] + line[pos..] == line;
    JoinAppend(segs, Plain(line[pos..]));
    JoinAppend([], Plain(line));
    assert pos == |line| ==> line[..pos] == line;
    assert [] + [Plain(line)] == [Plain(line)];
    var r := if pos < |line| then segs + [Plain(line[pos..])] else segs;
    if r == [] then [Plain(line)] else r
  }

  /** The segments always spell the line. When captures are nested or disjoint the token segments are
      exactly the maximal spans, the first group among identical ones, in order. */
  method CutLine(line: string, spans: seq<Span>) returns (segs: seq<Segment>)
    requires Inside(line, spans) && ByGroup(spans)
    ensures Join(segs) == line && segs != [] && Faithful(line, segs)
    ensures forall i, j :: 0 <= i < j < |Emitted(segs)| ==> Emitted(segs)[i].end <= Emitted(segs)[j].start
    ensures forall s :: s in Emitted(segs) ==> s in spans
    ensures Laminar(spans) ==> forall s :: s in Emitted(segs) <==> Top(spans, s)
  {
    var sorted := SortStable(spans, Before);
    SortOrdered(spans);
    SortKeeps(line, spans, sorted);
    var walked, pos := Walk(line, sorted);
    EmittedTops(spans, sorted, Emitted(walked), pos);
    segs := Finish(line, walked, pos);
  }

  /** A capture no other capture covers: maximal, and the first group among identical ones. */
  ghost predicate TopCapture(idx: seq<int>, groups: nat, s: Span)
    requires |idx| == 2 * groups
  {
    IsCapture(idx, groups, s) && forall a :: IsCapture(idx, groups, a) ==> !Covers(a, s)
  }

  /** Any two captures of the match are nested or disjoint. */
  ghost predicate LaminarMatch(idx: seq<int>, groups: nat)
    requires |idx| == 2 * groups
  {
    forall a, b :: IsCapture(idx, groups, a) && IsCapture(idx, groups, b) ==> Apart(a, b) || Nested(a, b)
  }

  /** The segments spell the line, token segments are captures in order, and of nested or disjoint
      captures they are exactly the top ones. */
  ghost predicate Shown(line: string, idx: seq<int>, groups: nat, segs: seq<Segment>)
    requires |idx| == 2 * groups
  {
    && Join(segs) == line && segs != [] && Faithful(line, segs)
    && (forall i, j :: 0 <= i < j < |Emitted(segs)| ==> Emitted(segs)[i].end <= Emitted(segs)[j].start)
    && (forall s :: s in Emitted(segs) ==> IsCapture(idx, groups, s))
    && (LaminarMatch(idx, groups) ==> forall s :: s in Emitted(segs) <==> TopCapture(idx, groups, s))
  }

  lemma CapturesTop(idx: seq<int>, groups: nat, spans: seq<Span>)
    requires |idx| == 2 * groups && forall s: Span :: s in spans <==> IsCapture(idx, groups, s)
    ensures forall s :: Top(spans, s) <==> TopCapture(idx, groups, s)
    ensures LaminarMatch(idx, groups) ==> Laminar(spans)
  {
    if LaminarMatch(idx, groups) {
      forall i, j | 0 <= i < j < |spans| ensures Apart(spans[i], spans[j]) || Nested(spans[i], spans[j]) {
        assert spans[i] in spans && spans[j] in spans;
      }
    }
  }

  /** segmentsFor, for the capture indices of any match. */
  method SegmentsFor(line: string, idx: seq<int>, groups: nat) returns (segs: seq<Segment>)
    requires InRange(line, idx, groups)
    ensures Shown(line, idx, groups, segs)
  {
    var spans := CaptureSpans(line, idx, groups);
    CapturesTop(idx, groups, spans);
    segs := CutLine(line, spans);
  }

  lemma SortKeeps(line: string, spans: seq<Span>, sorted: seq<Span>)
    requires sorted == SortStable(spans, Before) && Inside(line, spans)
    ensures Inside(line, sorted) && (forall s :: s in sorted <==> s in spans)
    ensures Laminar(spans) ==> Laminar(sorted)
  {
    forall s ensures s in sorted <==> s in spans { SortMembers(spans, Before, s); }
    forall k | 0 <= k < |sorted| ensures sorted[k].start < sorted[k].end <= |line| { assert sorted[k] in spans; }
    if Laminar(spans) {
      forall i, j | 0 <= i < j < |sorted| ensures Apart(sorted[i], sorted[j]) || Nested(sorted[i], sorted[j]) {
        assert sorted[i] in spans && sorted[j] in spans;
      }
    }
  }

  lemma EmittedTops(spans: seq<Span>, sorted: seq<Span>, emitted: seq<Span>, pos: nat)
    requires forall s :: s in sorted <==> s in spans
    requires forall i :: 0 <= i < |emitted| ==> emitted[i] in sorted[..|sorted|]
    ensures forall s :: s in emitted ==> s in spans
    ensures TopsWalked(sorted, |sorted|, emitted, pos) ==> forall s :: s in emitted <==> Top(spans, s)
  {
    assert sorted[..|sorted|] == sorted;
    forall s ensures Top(sorted, s) <==> Top(spans, s) {}
  }
}
