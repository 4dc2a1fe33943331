/** Splitting a template line into structural units (segmentLine and matchComposite in
    internal/pattern/tiler.go). */
module Segmentation {
  import opened Base

  /** A multi-token shape: `prefix` is the length its recogniser matches at the start of a string
      (0 when it does not), `accepts` the Grok expression rendered for the span. */
  datatype Composite = Composite(prefix: string -> nat, expr: string, accepts: Matcher)

  datatype Unit =
    | Literal(text: string)
    | Token(text: string)
    | Quote(text: string)
    | Comp(text: string, comp: Composite)
  {
    /** The stretch of a line on which the unit holds v. */
    function Spell(v: string): string { if Quote? then "\"" + v + "\"" else v }

    /** The stretch of the template the unit came from. */
    function Span(): string { Spell(text) }
  }

  predicate IsDelim(c: char) {
    || c == ' ' || c == '\t' || c == '"' || c == '[' || c == ']' || c == '(' || c == ')'
    || c == '=' || c == ',' || c == '|' || c == '{' || c == '}' || c == '<' || c == '>'
  }

  predicate IsSubSep(c: char) { c == ':' || c == '/' || c == '#' || c == '@' }

  /** A composite may end only at a token boundary or just before an intra-token separator, and
      its expression must accept the span its recogniser selected. */
  predicate CompositeFits(c: Composite, line: string, i: nat)
    requires i <= |line|
  {
    var n := c.prefix(line[i..]);
    && 0 < n <= |line| - i
    && (i + n < |line| ==> IsDelim(line[i + n]) || IsSubSep(line[i + n]))
    && c.accepts(line[i..i + n])
  }

  /** The first composite that fits at offset i. */
  function MatchComposite(comps: seq<Composite>, line: string, i: nat): (r: Option<Composite>)
    requires i <= |line|
    ensures r.Some? ==> CompositeFits(r.value, line, i)
  {
    if comps == [] then None
    else if CompositeFits(comps[0], line, i) then Some(comps[0])
    else MatchComposite(comps[1..], line, i)
  }

  /** First delimiter at or after i. */
  function TokenEnd(line: string, i: nat): (j: nat)
    requires i <= |line|
    ensures i <= j <= |line| && (j < |line| ==> IsDelim(line[j]))
    ensures forall k :: i <= k < j ==> !IsDelim(line[k])
    decreases |line| - i
  {
    if i == |line| || IsDelim(line[i]) then i else TokenEnd(line, i + 1)
  }

  /** First quote at or after i, or the end of the line. */
  function QuoteEnd(line: string, i: nat): (j: nat)
    requires i <= |line|
    ensures i <= j <= |line| && (j < |line| ==> line[j] == '"')
    ensures forall k :: i <= k < j ==> line[k] != '"'
    decreases |line| - i
  {
    if i == |line| || line[i] == '"' then i else QuoteEnd(line, i + 1)
  }

  /** What each kind of unit holds. */
  predicate WellFormed(u: Unit, allowQuotes: bool) {
    match u
    case Literal(t) => t != "" && forall k :: 0 <= k < |t| ==> IsDelim(t[k])
    case Token(t) => t != "" && forall k :: 0 <= k < |t| ==> !IsDelim(t[k])
    case Quote(t) => allowQuotes && '"' !in t
    case Comp(t, c) => t != "" && c.accepts(t)
  }

  /** What starts at a byte: a delimiter that joins the literal run, or a whole unit - a quoted region
      whenever a closing quote follows, else the first composite that fits, else a maximal token. */
  datatype Cut = Delimiter | Whole(u: Unit, next: nat)

  function CutAt(comps: seq<Composite>, line: string, i: nat, allowQuotes: bool): (cut: Cut)
    requires i < |line|
    ensures cut.Delimiter? ==> IsDelim(line[i])
    ensures cut.Whole? ==> i < cut.next <= |line| && !cut.u.Literal? && cut.u.Span() == line[i..cut.next]
    ensures cut.Whole? ==> WellFormed(cut.u, allowQuotes)
  {
    if allowQuotes && line[i] == '"' && QuoteEnd(line, i + 1) < |line| then
      var j := QuoteEnd(line, i + 1);
      assert line[i..j + 1] == "\"" + line[i + 1..j] + "\"";
      Whole(Quote(line[i + 1..j]), j + 1)
    else if IsDelim(line[i]) then Delimiter
    else
      var c := MatchComposite(comps, line, i);
      if c.Some? then
        var n := c.value.prefix(line[i..]);
        Whole(Comp(line[i..i + n], c.value), i + n)
      else
        var j := TokenEnd(line, i);
        Whole(Token(line[i..j]), j)
  }

  /** The first k composites do not fit at offset i. */
  predicate NoneFits(comps: seq<Composite>, line: string, i: nat, k: nat)
    requires i <= |line| && k <= |comps|
  {
    forall j: nat :: j < k ==> !CompositeFits(comps[j], line, i)
  }

  /** The composite matched is the first that fits; k is its index, or the number of composites. */
  lemma {:induction false} MatchesFirst(comps: seq<Composite>, line: string, i: nat) returns (k: nat)
    requires i <= |line|
    ensures k <= |comps| && NoneFits(comps, line, i, k)
    ensures MatchComposite(comps, line, i) == if k < |comps| then Some(comps[k]) else None
  {
    if comps == [] || CompositeFits(comps[0], line, i) {
      k := 0;
    } else {
      k := MatchesFirst(comps[1..], line, i);
      k := k + 1;
      forall j: nat | j < k ensures !CompositeFits(comps[j], line, i) {
        if j > 0 { assert comps[j] == comps[1..][j - 1]; }
      }
    }
  }

  lemma QuoteCloses(line: string, i: nat)
    requires i < |line|
    ensures QuoteEnd(line, i + 1) < |line| <==> '"' in line[i + 1..]
  {
    var j := QuoteEnd(line, i + 1);
    if j < |line| { assert line[i + 1..][j - i - 1] == '"'; }
  }

  /** The priorities at a byte: a quoted region whenever its closing quote follows, else a delimiter,
      else the first composite that fits, else a token running to the next delimiter. */
  lemma CutPriorities(comps: seq<Composite>, line: string, i: nat, allowQuotes: bool) returns (k: nat)
    requires i < |line|
    ensures k <= |comps| && NoneFits(comps, line, i, k)
    ensures var cut := CutAt(comps, line, i, allowQuotes);
            if allowQuotes && line[i] == '"' && '"' in line[i + 1..] then cut.Whole? && cut.u.Quote?
            else if IsDelim(line[i]) then cut.Delimiter?
            else if k < |comps| then cut.Whole? && cut.u.Comp? && cut.u.comp == comps[k]
            else cut.Whole? && cut.u.Token? && (cut.next == |line| || IsDelim(line[cut.next]))
  {
    QuoteCloses(line, i);
    k := MatchesFirst(comps, line, i);
  }

  /** A composite unit is what its recogniser matched: its expression accepts the span, and a delimiter, an
      intra-token separator or the end of the line follows. No composite that could have stood there is
      passed over. */
  lemma CompositeSpans(comps: seq<Composite>, line: string, i: nat, allowQuotes: bool)
    requires i < |line|
    ensures var cut := CutAt(comps, line, i, allowQuotes);
            cut.Whole? && cut.u.Comp? ==>
              && cut.u.comp in comps && cut.next == i + cut.u.comp.prefix(line[i..])
              && cut.u.comp.accepts(line[i..cut.next]) && Bounded(line, cut.next)
    ensures forall c, j :: c in comps && i < j <= |line| && j == i + c.prefix(line[i..]) && !IsDelim(line[i])
                           && c.accepts(line[i..j]) && Bounded(line, j) ==>
              CutAt(comps, line, i, allowQuotes).Whole? && CutAt(comps, line, i, allowQuotes).u.Comp?
  {
    var k := MatchesFirst(comps, line, i);
    forall c, j | c in comps && i < j <= |line| && j == i + c.prefix(line[i..]) && !IsDelim(line[i])
                  && c.accepts(line[i..j]) && Bounded(line, j)
      ensures k < |comps|
    {
      var m: nat :| m < |comps| && comps[m] == c;
      assert CompositeFits(comps[m], line, i);
    }
  }

  predicate Bounded(line: string, j: nat) { j < |line| ==> IsDelim(line[j]) || IsSubSep(line[j]) }

  function Flush(lit: string): seq<Unit> { if lit == "" then [] else [Literal(lit)] }

  /** The units of line[i..] when `lit` is the literal text read so far. */
  function UnitsFrom(comps: seq<Composite>, line: string, i: nat, lit: string, allowQuotes: bool): seq<Unit>
    requires i <= |line|
    decreases |line| - i
  {
    if i == |line| then Flush(lit)
    else
      match CutAt(comps, line, i, allowQuotes)
      case Delimiter => UnitsFrom(comps, line, i + 1, lit + [line[i]], allowQuotes)
      case Whole(u, j) => Flush(lit) + [u] + UnitsFrom(comps, line, j, "", allowQuotes)
  }

  function Segments(comps: seq<Composite>, line: string, allowQuotes: bool): seq<Unit> {
    UnitsFrom(comps, line, 0, "", allowQuotes)
  }

  lemma Regroup(units: seq<Unit>, lit: string, u: Unit, rest: seq<Unit>)
    ensures units + (Flush(lit) + [u] + rest) == (units + Flush(lit) + [u]) + rest
  {
  }

  method SegmentLine(comps: seq<Composite>, line: string, allowQuotes: bool) returns (units: seq<Unit>)
    ensures units == Segments(comps, line, allowQuotes)
  {
    units := [];
    var lit := "";
    var i := 0;
    while i < |line|
      invariant i <= |line|
      invariant units + UnitsFrom(comps, line, i, lit, allowQuotes) == Segments(comps, line, allowQuotes)
    {
      match CutAt(comps, line, i, allowQuotes)
      case Delimiter =>
        lit := lit + [line[i]];
        i := i + 1;
      case Whole(u, j) =>
        Regroup(units, lit, u, UnitsFrom(comps, line, j, "", allowQuotes));
        units, lit := units + Flush(lit) + [u], "";
        i := j;
    }
    units := units + Flush(lit);
  }

  function Spans(units: seq<Unit>): string { if units == [] then "" else units[0].Span() + Spans(units[1..]) }

  lemma {:induction false} SpansConcat(a: seq<Unit>, b: seq<Unit>)
    ensures Spans(a + b) == Spans(a) + Spans(b)
  {
    if a == [] {
      assert a + b == b;
    } else {
      assert (a + b)[1..] == a[1..] + b;
      SpansConcat(a[1..], b);
    }
  }

  predicate NoAdjacentLiterals(units: seq<Unit>) {
    forall k :: 0 <= k < |units| - 1 ==> !(units[k].Literal? && units[k + 1].Literal?)
  }

  /** The units spell out s, no two literals stand side by side, every unit is what its kind says. */
  ghost predicate Tiles(units: seq<Unit>, s: string, allowQuotes: bool) {
    && Spans(units) == s
    && NoAdjacentLiterals(units)
    && forall k :: 0 <= k < |units| ==> WellFormed(units[k], allowQuotes)
  }

  /** Segmentation loses nothing. */
  lemma SegmentsLossless(comps: seq<Composite>, line: string, allowQuotes: bool)
    ensures Tiles(Segments(comps, line, allowQuotes), line, allowQuotes)
  {
    UnitsFromLossless(comps, line, 0, "", allowQuotes);
    assert "" + line[0..] == line;
  }

  lemma {:induction false} UnitsFromLossless(comps: seq<Composite>, line: string, i: nat, lit: string, allowQuotes: bool)
    requires i <= |line| && forall k :: 0 <= k < |lit| ==> IsDelim(lit[k])
    ensures Tiles(UnitsFrom(comps, line, i, lit, allowQuotes), lit + line[i..], allowQuotes)
    decreases |line| - i
  {
    if i == |line| {
      assert lit + line[i..] == lit;
      assert lit != "" ==> Spans(Flush(lit)) == lit + Spans([]);
    } else {
      match CutAt(comps, line, i, allowQuotes)
      case Delimiter =>
        UnitsFromLossless(comps, line, i + 1, lit + [line[i]], allowQuotes);
        Resplit(lit, line, i, i + 1);
      case Whole(u, j) =>
        UnitsFromLossless(comps, line, j, "", allowQuotes);
        Resplit(lit, line, i, j);
        CutOne(lit, u, UnitsFrom(comps, line, j, "", allowQuotes), line[j..], allowQuotes);
    }
  }

  lemma Resplit(lit: string, line: string, i: nat, j: nat)
    requires i <= j <= |line|
    ensures lit + line[i..] == lit + line[i..j] + line[j..] && "" + line[j..] == line[j..]
    ensures j == i + 1 ==> line[i..j] == [line[i]]
  {
  }

  lemma CutSpans(lit: string, u: Unit, rest: seq<Unit>)
    ensures Spans(Flush(lit) + [u] + rest) == lit + u.Span() + Spans(rest)
  {
    SpansConcat(Flush(lit) + [u], rest);
    SpansConcat(Flush(lit), [u]);
    assert Spans([u]) == u.Span() + Spans([]);
    assert Spans(Flush(lit)) == lit;
  }

  lemma CutOne(lit: string, u: Unit, rest: seq<Unit>, s: string, allowQuotes: bool)
    requires forall k :: 0 <= k < |lit| ==> IsDelim(lit[k])
    requires !u.Literal? && WellFormed(u, allowQuotes) && Tiles(rest, s, allowQuotes)
    ensures Tiles(Flush(lit) + [u] + rest, lit + u.Span() + s, allowQuotes)
  {
    CutSpans(lit, u, rest);
  }
}
