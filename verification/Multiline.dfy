/** Folding multi-line records (JoinMultilineStrings in pkg/log2grok/multiline.go). Bytes are
    characters. */
module Multiline {
  import opened Base

  datatype Mode = Header(re: Option<Matcher>) | Indent | Custom(f: Option<Matcher>) | Unknown

  datatype Config = Config(mode: Mode, joiner: string, maxLines: int, maxBytes: int)

  /** validate: an incomplete configuration is an error; unset fields take their defaults. */
  function Validate(c: Config): (r: Option<Config>)
    ensures r.None? <==> c.mode.Unknown? || (c.mode.Header? && c.mode.re.None?) || (c.mode.Custom? && c.mode.f.None?)
    ensures r.Some? ==> r.value.joiner != "" && r.value.maxLines > 0 && r.value.maxBytes > 0
    ensures r.Some? ==> r.value.mode == c.mode
    ensures r.Some? ==> if c.joiner != "" then r.value.joiner == c.joiner else r.value.joiner == " "
    ensures r.Some? ==> if c.maxLines > 0 then r.value.maxLines == c.maxLines else r.value.maxLines == 100
    ensures r.Some? ==> if c.maxBytes > 0 then r.value.maxBytes == c.maxBytes else r.value.maxBytes == 0x10_0000
  {
    if c.mode.Unknown? || (c.mode.Header? && c.mode.re.None?) || (c.mode.Custom? && c.mode.f.None?) then None
    else Some(Config(c.mode,
                     if c.joiner == "" then " " else c.joiner,
                     if c.maxLines <= 0 then 100 else c.maxLines,
                     if c.maxBytes <= 0 then 1048576 else c.maxBytes))
  }

  predicate IsContinuation(c: Config, line: string) {
    match c.mode
    case Header(re) => re.Some? && !re.value(line)
    case Indent => line != "" && (line[0] == ' ' || line[0] == '\t')
    case Custom(f) => f.Some? && f.value(line)
    case Unknown => false
  }

  /** A stretch of the input: a line that left no trace, or the lines of one record. */
  datatype Stretch = Lost | Block(lines: seq<string>)

  function Lines(s: Stretch): seq<string> { if s.Lost? then [""] else s.lines }

  function Flatten(ss: seq<Stretch>): seq<string> {
    if ss == [] then [] else Flatten(ss[..|ss| - 1]) + Lines(ss[|ss| - 1])
  }

  function JoinLines(c: Config, lines: seq<string>): string {
    if lines == [] then "" else if |lines| == 1 then lines[0]
    else JoinLines(c, lines[..|lines| - 1]) + c.joiner + lines[|lines| - 1]
  }

  function Records(c: Config, ss: seq<Stretch>): seq<string> {
    if ss == [] then []
    else Records(c, ss[..|ss| - 1]) + if ss[|ss| - 1].Block? then [JoinLines(c, ss[|ss| - 1].lines)] else []
  }

  /** A record's lines: a non-blank first line, then continuations within both limits. */
  ghost predicate BlockOk(c: Config, lines: seq<string>) {
    && lines != [] && lines[0] != ""
    && (forall k :: 1 <= k < |lines| ==> IsContinuation(c, lines[k]))
    && |lines| - 1 <= c.maxLines
    && (|lines| > 1 ==> |JoinLines(c, lines)| <= c.maxBytes)
  }

  /** The line cannot join the open record: it is no continuation, or a limit is reached. */
  predicate Breaks(c: Config, open: seq<string>, line: string) {
    !IsContinuation(c, line) || |open| - 1 >= c.maxLines || |JoinLines(c, open)| + |line| + |c.joiner| > c.maxBytes
  }

  /** The test of the loop on the open record's text and continuation count. */
  predicate Joins(c: Config, text: string, nLines: int, line: string) {
    IsContinuation(c, line) && !(nLines >= c.maxLines || |text| + |line| + |c.joiner| > c.maxBytes)
  }

  /** Every record is well made, and none ended before it had to. */
  ghost predicate Folded(c: Config, ss: seq<Stretch>) {
    && (forall k :: 0 <= k < |ss| && ss[k].Block? ==> BlockOk(c, ss[k].lines))
    && (forall k :: 0 <= k < |ss| - 1 && ss[k].Block? ==> Breaks(c, ss[k].lines, Lines(ss[k + 1])[0]))
  }

  /** The stretches emitted so far, then the open record. */
  ghost predicate Open(c: Config, ss: seq<Stretch>, open: seq<string>, text: string, nLines: int, out: seq<string>) {
    && Folded(c, ss) && out == Records(c, ss)
    && text == JoinLines(c, open) && (text == "" <==> open == []) && nLines == (if open == [] then 0 else |open| - 1)
    && (open != [] ==> BlockOk(c, open) && (ss != [] && ss[|ss| - 1].Block? ==> Breaks(c, ss[|ss| - 1].lines, open[0])))
    && (open == [] ==> ss == [] || ss[|ss| - 1].Lost?)
  }

  /** The line goes on the open record. */
  lemma Continue(c: Config, ss: seq<Stretch>, open: seq<string>, text: string, nLines: int, out: seq<string>, line: string)
    requires c.joiner != "" && Open(c, ss, open, text, nLines, out) && text != "" && !Breaks(c, open, line)
    ensures Open(c, ss, open + [line], text + c.joiner + line, nLines + 1, out)
  {
    assert (open + [line])[..|open|] == open;
  }

  /** Emitting the open record, if there is one. */
  function Closed(ss: seq<Stretch>, open: seq<string>): seq<Stretch> { if open == [] then ss else ss + [Block(open)] }

  lemma Flush(c: Config, ss: seq<Stretch>, open: seq<string>, text: string, nLines: int, out: seq<string>)
    requires Open(c, ss, open, text, nLines, out)
    ensures Folded(c, Closed(ss, open)) && Records(c, Closed(ss, open)) == (if text == "" then out else out + [text])
    ensures Flatten(Closed(ss, open)) == Flatten(ss) + open
  {
    assert (ss + [Block(open)])[..|ss|] == ss;
    assert open == [] ==> Flatten(ss) + open == Flatten(ss);
  }

  /** A blank line that starts afresh leaves no trace. */
  lemma LoseBlank(c: Config, done: seq<Stretch>)
    requires Folded(c, done) && (done != [] && done[|done| - 1].Block? ==> Breaks(c, done[|done| - 1].lines, ""))
    ensures Folded(c, done + [Lost]) && Records(c, done + [Lost]) == Records(c, done)
    ensures Flatten(done + [Lost]) == Flatten(done) + [""]
  {
    assert (done + [Lost])[..|done|] == done;
  }

  lemma NothingOpen(c: Config, ss: seq<Stretch>, out: seq<string>)
    requires Folded(c, ss) && out == Records(c, ss) && ss != [] && ss[|ss| - 1].Lost?
    ensures Open(c, ss, [], "", 0, out)
  {
  }

  /** Any other line opens a record. */
  lemma RecordOpen(c: Config, ss: seq<Stretch>, out: seq<string>, line: string)
    requires c.maxLines > 0 && Folded(c, ss) && out == Records(c, ss) && line != ""
    requires ss != [] && ss[|ss| - 1].Block? ==> Breaks(c, ss[|ss| - 1].lines, line)
    ensures Open(c, ss, [line], line, 0, out)
  {
  }

  /** What one input line does to the stretches and the open record. */
  ghost function Next(c: Config, ss: seq<Stretch>, open: seq<string>, line: string): (seq<Stretch>, seq<string>) {
    if open != [] && !Breaks(c, open, line) then (ss, open + [line])
    else if line == "" then (Closed(ss, open) + [Lost], [])
    else (Closed(ss, open), [line])
  }

  lemma NextOpen(c: Config, ss: seq<Stretch>, open: seq<string>, text: string, nLines: int, out: seq<string>, line: string)
    requires c.joiner != "" && c.maxLines > 0 && Open(c, ss, open, text, nLines, out)
    ensures var (ss', open') := Next(c, ss, open, line);
            && Flatten(ss') + open' == Flatten(ss) + open + [line]
            && if text != "" && Joins(c, text, nLines, line)
               then Open(c, ss', open', text + c.joiner + line, nLines + 1, out)
               else Open(c, ss', open', line, 0, if text == "" then out else out + [text])
  {
    if text != "" && !Breaks(c, open, line) {
      Continue(c, ss, open, text, nLines, out, line);
      assert Flatten(ss) + (open + [line]) == Flatten(ss) + open + [line];
    } else {
      Flush(c, ss, open, text, nLines, out);
      Afresh(c, Closed(ss, open), if text == "" then out else out + [text], line);
    }
  }

  /** A line that starts afresh after the open record was emitted. */
  lemma Afresh(c: Config, done: seq<Stretch>, records: seq<string>, line: string)
    requires c.maxLines > 0 && Folded(c, done) && records == Records(c, done)
    requires done != [] && done[|done| - 1].Block? ==> Breaks(c, done[|done| - 1].lines, line)
    ensures line == "" ==> Open(c, done + [Lost], [], line, 0, records) && Flatten(done + [Lost]) + [] == Flatten(done) + [line]
    ensures line != "" ==> Open(c, done, [line], line, 0, records)
  {
    if line == "" {
      LoseBlank(c, done);
      NothingOpen(c, done + [Lost], records);
    } else {
      RecordOpen(c, done, records, line);
    }
  }

  /** The body of the loop over the lines: the line joins the open record, or ends it and starts afresh. */
  method FoldLine(c: Config, text: string, nLines: int, records: seq<string>, line: string,
                  ghost ss: seq<Stretch>, ghost open: seq<string>)
    returns (text': string, nLines': int, records': seq<string>, ghost ss': seq<Stretch>, ghost open': seq<string>)
    requires c.joiner != "" && c.maxLines > 0 && Open(c, ss, open, text, nLines, records)
    ensures Open(c, ss', open', text', nLines', records')
    ensures Flatten(ss') + open' == Flatten(ss) + open + [line]
  {
    NextOpen(c, ss, open, text, nLines, records, line);
    ss', open' := Next(c, ss, open, line).0, Next(c, ss, open, line).1;
    if text != "" && Joins(c, text, nLines, line) {
      return text + c.joiner + line, nLines + 1, records, ss', open';
    }
    return line, 0, if text == "" then records else records + [text], ss', open';
  }

  /** One more line would put the record over a limit. */
  predicate Full(c: Config, lines: seq<string>, line: string) {
    |lines| - 1 >= c.maxLines || |JoinLines(c, lines)| + |c.joiner| + |line| > c.maxBytes
  }

  predicate Indented(line: string) { line != "" && line[0] in " \t" }

  /** A stretch's first line. */
  function First(s: Stretch): string { if s.Lost? || s.lines == [] then "" else s.lines[0] }

  /** Every line after a record's first is one that `joins`, and a record ends only before a line that does
      not, or when it is full. */
  ghost predicate Blocks(joins: Matcher, c: Config, ss: seq<Stretch>) {
    && (forall k, j :: 0 <= k < |ss| && ss[k].Block? && 1 <= j < |ss[k].lines| ==> joins(ss[k].lines[j]))
    && (forall k :: 0 <= k < |ss| - 1 && ss[k].Block? ==>
          !joins(First(ss[k + 1])) || Full(c, ss[k].lines, First(ss[k + 1])))
  }

  /** Which lines join a record, in each mode's own terms: those that do not match the header, those that
      start with a space or a tab, those the caller's predicate accepts. */
  ghost predicate ModeBlocks(c: Config, ss: seq<Stretch>) {
    match c.mode
    case Header(re) => re.Some? && Blocks(line => !re.value(line), c, ss)
    case Indent => Blocks(Indented, c, ss)
    case Custom(f) => f.Some? && Blocks(f.value, c, ss)
    case Unknown => false
  }

  /** A folding goes by its mode. */
  lemma FoldedByMode(c: Config, ss: seq<Stretch>)
    requires Folded(c, ss) && Validate(c).Some?
    ensures ModeBlocks(c, ss)
  {
    forall k, j | 0 <= k < |ss| && ss[k].Block? && 1 <= j < |ss[k].lines| ensures IsContinuation(c, ss[k].lines[j]) {
      assert BlockOk(c, ss[k].lines);
    }
    forall k | 0 <= k < |ss| - 1 && ss[k].Block?
      ensures !IsContinuation(c, First(ss[k + 1])) || Full(c, ss[k].lines, First(ss[k + 1]))
    {
      assert Breaks(c, ss[k].lines, Lines(ss[k + 1])[0]);
    }
  }

  /** Line i of the input is line j of stretch k. */
  lemma {:induction false} Locate(ss: seq<Stretch>, i: nat) returns (k: nat, j: nat)
    requires i < |Flatten(ss)|
    ensures k < |ss| && j < |Lines(ss[k])| && i == |Flatten(ss[..k])| + j && Lines(ss[k])[j] == Flatten(ss)[i]
  {
    var n := |ss| - 1;
    if i < |Flatten(ss[..n])| {
      k, j := Locate(ss[..n], i);
      assert ss[..n][..k] == ss[..k];
    } else {
      k, j := n, i - |Flatten(ss[..n])|;
    }
  }

  /** Under the header mode a line that matches always opens a record, or is blank and lost. */
  lemma HeaderOpens(c: Config, ss: seq<Stretch>, re: Matcher, i: nat) returns (k: nat)
    requires c.mode == Header(Some(re)) && ModeBlocks(c, ss) && i < |Flatten(ss)| && re(Flatten(ss)[i])
    ensures k < |ss| && i == |Flatten(ss[..k])| && First(ss[k]) == Flatten(ss)[i]
  {
    var j: nat;
    k, j := Locate(ss, i);
  }

  /** JoinMultilineStrings: the records are the joins of consecutive blocks of the input, in order;
      only blank lines that would have opened a record are lost. */
  method JoinMultilineStrings(lines: seq<string>, cfg: Config) returns (out: Option<seq<string>>, ghost ss: seq<Stretch>)
    ensures out.None? <==> Validate(cfg).None?
    ensures out.Some? ==> Flatten(ss) == lines && Folded(Validate(cfg).value, ss)
    ensures out.Some? ==> ss == Fold(Validate(cfg).value, lines) && out.value == Records(Validate(cfg).value, ss)
    ensures out.Some? ==> ModeBlocks(Validate(cfg).value, ss)
  {
    ss := [];
    var v := Validate(cfg);
    if v.None? {
      return None, ss;
    }
    var c := v.value;
    var records: seq<string>, text, nLines := [], "", 0;
    ghost var open: seq<string> := [];
    for k := 0 to |lines|
      invariant Open(c, ss, open, text, nLines, records)
      invariant Flatten(ss) + open == lines[..k]
    {
      text, nLines, records, ss, open := FoldLine(c, text, nLines, records, lines[k], ss, open);
      TakeNext(lines, k);
    }
    assert lines[..|lines|] == lines;
    Flush(c, ss, open, text, nLines, records);
    if text != "" {
      records := records + [text];
    }
    ss := Closed(ss, open);
    FoldedIsFold(c, ss);
    FoldedByMode(c, ss);
    return Some(records), ss;
  }

  // ---------------------------------------------------------------------------
  // The folding is determined, and what it loses
  // ---------------------------------------------------------------------------

  /** The line goes on the last stretch. */
  predicate JoinsLast(c: Config, ss: seq<Stretch>, line: string) {
    ss != [] && ss[|ss| - 1].Block? && ss[|ss| - 1].lines != [] && !Breaks(c, ss[|ss| - 1].lines, line)
  }

  function FoldOne(c: Config, ss: seq<Stretch>, line: string): seq<Stretch> {
    if JoinsLast(c, ss, line) then ss[..|ss| - 1] + [Block(ss[|ss| - 1].lines + [line])]
    else ss + [if line == "" then Lost else Block([line])]
  }

  function Fold(c: Config, lines: seq<string>): seq<Stretch> {
    if lines == [] then [] else FoldOne(c, Fold(c, lines[..|lines| - 1]), lines[|lines| - 1])
  }

  lemma FoldNext(c: Config, lines: seq<string>, line: string)
    ensures Fold(c, lines + [line]) == FoldOne(c, Fold(c, lines), line)
  {
    assert (lines + [line])[..|lines|] == lines;
  }

  lemma RecordsNext(c: Config, ss: seq<Stretch>, s: Stretch)
    ensures Records(c, ss + [s]) == Records(c, ss) + if s.Block? then [JoinLines(c, s.lines)] else []
  {
    assert (ss + [s])[..|ss|] == ss;
  }

  lemma FlattenNext(ss: seq<Stretch>, s: Stretch)
    ensures Flatten(ss + [s]) == Flatten(ss) + Lines(s)
  {
    assert (ss + [s])[..|ss|] == ss;
  }

  /** A block without its last line is a block that the line does not break. */
  lemma ShorterBlock(c: Config, init: seq<string>, line: string)
    requires init != [] && BlockOk(c, init + [line])
    ensures BlockOk(c, init) && !Breaks(c, init, line)
  {
    var lines := init + [line];
    assert lines[..|init|] == init && lines[|init|] == line;
    assert forall k :: 0 <= k < |init| ==> init[k] == lines[k];
  }

  /** The last stretch breaks off where the next line starts. */
  ghost predicate EndsBefore(c: Config, ss: seq<Stretch>, line: string) {
    ss != [] && ss[|ss| - 1].Block? ==> Breaks(c, ss[|ss| - 1].lines, line)
  }

  lemma ExtendLast(c: Config, ss: seq<Stretch>, init: seq<string>, line: string)
    requires init != [] && !Breaks(c, init, line)
    ensures FoldOne(c, ss + [Block(init)], line) == ss + [Block(init + [line])]
  {
    assert (ss + [Block(init)])[..|ss|] == ss;
  }

  lemma Regroup(a: seq<string>, b: seq<string>, line: string)
    ensures a + (b + [line]) == (a + b) + [line]
  {
  }

  /** A block one line longer. */
  lemma FoldBlockNext(c: Config, ss: seq<Stretch>, flat: seq<string>, init: seq<string>, line: string)
    requires init != [] && !Breaks(c, init, line) && Fold(c, flat + init) == ss + [Block(init)]
    ensures Fold(c, flat + (init + [line])) == ss + [Block(init + [line])]
  {
    Regroup(flat, init, line);
    FoldNext(c, flat + init, line);
    ExtendLast(c, ss, init, line);
  }

  lemma {:induction false} FoldBlock(c: Config, ss: seq<Stretch>, lines: seq<string>)
    requires lines != [] && BlockOk(c, lines) && Fold(c, Flatten(ss)) == ss && EndsBefore(c, ss, lines[0])
    ensures Fold(c, Flatten(ss) + lines) == ss + [Block(lines)]
    decreases |lines|
  {
    if |lines| == 1 {
      FoldNext(c, Flatten(ss), lines[0]);
      assert lines == [lines[0]];
    } else {
      var init, line := lines[..|lines| - 1], lines[|lines| - 1];
      assert lines == init + [line];
      ShorterBlock(c, init, line);
      FoldBlock(c, ss, init);
      FoldBlockNext(c, ss, Flatten(ss), init, line);
    }
  }

  /** There is only one folding of an input: blocks end only when they must, so where they end, and
      which lines are lost, follows from the lines. */
  lemma {:induction false} FoldedIsFold(c: Config, ss: seq<Stretch>)
    requires Folded(c, ss)
    ensures ss == Fold(c, Flatten(ss))
  {
    if ss != [] {
      var n := |ss| - 1;
      var init, last := ss[..n], ss[n];
      assert ss == init + [last];
      FoldedIsFold(c, init);
      FlattenNext(init, last);
      assert EndsBefore(c, init, Lines(last)[0]);
      if last.Lost? {
        FoldNext(c, Flatten(init), "");
      } else {
        FoldBlock(c, init, last.lines);
      }
    }
  }

  /** Line k leaves no trace: it is blank and does not join an open record. */
  predicate LeavesNoTrace(c: Config, lines: seq<string>, k: nat)
    requires k < |lines|
  {
    lines[k] == "" && !JoinsLast(c, Fold(c, lines[..k]), "")
  }

  predicate LosesBefore(c: Config, lines: seq<string>, n: nat) {
    exists k: nat :: k < n && k < |lines| && LeavesNoTrace(c, lines, k)
  }

  lemma LosesNext(c: Config, lines: seq<string>, n: nat, next: nat)
    requires n < |lines| && next == n + 1
    ensures LosesBefore(c, lines, next) <==> LosesBefore(c, lines, n) || LeavesNoTrace(c, lines, n)
  {
    if LosesBefore(c, lines, next) && !LeavesNoTrace(c, lines, n) {
      var k: nat :| k < next && k < |lines| && LeavesNoTrace(c, lines, k);
      assert k < n;
    }
  }

  lemma LostNext(c: Config, lines: seq<string>, n: nat, next: nat)
    requires n < |lines| && next == n + 1
    ensures Lost in Fold(c, lines[..next]) <==> Lost in Fold(c, lines[..n]) || LeavesNoTrace(c, lines, n)
  {
    TakeNext(lines, n);
    FoldNext(c, lines[..n], lines[n]);
    LostAfter(c, Fold(c, lines[..n]), lines[n]);
  }

  lemma {:induction false} LostBefore(c: Config, lines: seq<string>, n: nat)
    requires n <= |lines|
    ensures Lost in Fold(c, lines[..n]) <==> LosesBefore(c, lines, n)
  {
    if n > 0 {
      var prev := n - 1;
      LostBefore(c, lines, prev);
      LostNext(c, lines, prev, n);
      LosesNext(c, lines, prev, n);
    }
  }

  /** No line is lost, as the documentation has it for blank lines, exactly when every blank line joins
      the record open before it. */
  lemma NothingLostIff(c: Config, lines: seq<string>)
    ensures Lost in Fold(c, lines) <==> exists k: nat :: k < |lines| && LeavesNoTrace(c, lines, k)
  {
    LostBefore(c, lines, |lines|);
    assert lines[..|lines|] == lines;
  }

  lemma LostAfter(c: Config, ss: seq<Stretch>, line: string)
    ensures Lost in FoldOne(c, ss, line) <==> Lost in ss || (line == "" && !JoinsLast(c, ss, ""))
  {
    if JoinsLast(c, ss, line) {
      assert ss == ss[..|ss| - 1] + [ss[|ss| - 1]];
      assert ss[|ss| - 1] != Lost;
    }
  }

  /** The blank line between two records is lost. */
  lemma BlankLostExample(c: Config)
    requires c.mode.Indent?
    ensures Fold(c, ["a", "", "b"]) == [Block(["a"]), Lost, Block(["b"])]
    ensures Records(c, Fold(c, ["a", "", "b"])) == ["a", "b"]
  {
    var none: seq<Stretch>, a, ab := [], Block(["a"]), [Block(["a"]), Lost];
    FoldNext(c, [], "a");
    FoldNext(c, ["a"], "");
    FoldNext(c, ["a", ""], "b");
    assert [] + ["a"] == ["a"] && ["a"] + [""] == ["a", ""] && ["a", ""] + ["b"] == ["a", "", "b"];
    assert none + [a] == [a] && [a] + [Lost] == ab && ab + [Block(["b"])] == [a, Lost, Block(["b"])];
    RecordsNext(c, none, a);
    RecordsNext(c, [a], Lost);
    RecordsNext(c, ab, Block(["b"]));
  }
}
