/** logfmt pairs (parseLogfmtPairs in internal/pattern/logfmt_keyed.go). Bytes are characters. */
module Logfmt {
  import opened Base

  datatype Quoting = Bare | Double | Single

  datatype Pair = Pair(key: string, value: string, quote: Quoting)

  predicate IsKeyByte(c: char, first: bool) {
    || 'a' <= c <= 'z' || 'A' <= c <= 'Z' || c == '_'
    || (!first && ('0' <= c <= '9' || c == '.' || c == '-'))
  }

  /** Length of the key at the start of s. */
  function KeyLen(s: string, first: bool): (n: nat)
    ensures n <= |s|
  {
    if s == "" || !IsKeyByte(s[0], first) then 0 else 1 + KeyLen(s[1..], false)
  }

  /** Position of the closing double quote, skipping backslash escapes. */
  function DoubleEnd(s: string): (r: Option<nat>)
    ensures r.Some? ==> r.value < |s| && s[r.value] == '"'
  {
    if s == "" then None
    else if s[0] == '"' then Some(0)
    else
      var step := if s[0] == '\\' then 2 else 1;
      if |s| < step then None
      else match DoubleEnd(s[step..]) case None => None case Some(j) => Some(j + step)
  }

  /** Position of the first c in s, or |s|. */
  function IndexOf(s: string, c: char): (n: nat)
    ensures n <= |s| && (n < |s| ==> s[n] == c) && forall k :: 0 <= k < n ==> s[k] != c
  {
    if s == "" || s[0] == c then 0 else 1 + IndexOf(s[1..], c)
  }

  /** The value at the start of s, and what follows it. */
  function ParseValue(s: string): Option<(string, Quoting, string)> {
    if s == "" then None
    else if s[0] == '"' then
      (match DoubleEnd(s[1..]) case None => None case Some(j) => Some((s[1..j + 1], Double, s[j + 2..])))
    else if s[0] == '\'' then
      var j := IndexOf(s[1..], '\'');
      if j == |s| - 1 then None else Some((s[1..j + 1], Single, s[j + 2..]))
    else
      var j := IndexOf(s, ' ');
      if j == 0 then None else Some((s[..j], Bare, s[j..]))
  }

  function ParsePair(s: string): Option<(Pair, string)> {
    var k := KeyLen(s, true);
    if k == 0 || k == |s| || s[k] != '=' then None else WithKey(s[..k], ParseValue(s[k + 1..]))
  }

  /** A key in front of a parsed value. */
  function WithKey(key: string, r: Option<(string, Quoting, string)>): Option<(Pair, string)> {
    match r case None => None case Some((v, q, rest)) => Some((Pair(key, v, q), rest))
  }

  lemma ParseShortens(s: string)
    ensures ParsePair(s).Some? ==> |ParsePair(s).value.1| < |s|
  {
  }

  /** The pairs of a line without its trailing carriage return; no result for anything else. */
  function ParsePairs(s: string): Option<seq<Pair>>
    decreases |s|
  {
    ParseShortens(s);
    match ParsePair(s)
    case None => None
    case Some((p, rest)) =>
      if rest == "" then Some([p])
      else if rest[0] != ' ' || |rest| == 1 || rest[1] == ' ' then None
      else match ParsePairs(rest[1..]) case None => None case Some(ps) => Some([p] + ps)
  }

  function TrimCR(line: string): string {
    if line != "" && line[|line| - 1] == '\r' then line[..|line| - 1] else line
  }

  // ---------------------------------------------------------------------------
  // Printing
  // ---------------------------------------------------------------------------

  function QuoteMark(q: Quoting): string { match q case Bare => "" case Double => "\"" case Single => "'" }

  function PrintValue(v: string, q: Quoting): string { QuoteMark(q) + v + QuoteMark(q) }

  function PrintPair(p: Pair): string { p.key + "=" + PrintValue(p.value, p.quote) }

  function Print(ps: seq<Pair>): string {
    if ps == [] then "" else if |ps| == 1 then PrintPair(ps[0]) else PrintPair(ps[0]) + " " + Print(ps[1..])
  }

  /** Quotes and backslashes are escaped in pairs. */
  predicate Escaped(v: string) {
    v == "" || (v[0] != '"' && if v[0] == '\\' then |v| >= 2 && Escaped(v[2..]) else Escaped(v[1..]))
  }

  predicate WellFormed(p: Pair) {
    && p.key != "" && IsKeyByte(p.key[0], true)
    && (forall k :: 1 <= k < |p.key| ==> IsKeyByte(p.key[k], false))
    && ValueOk(p.value, p.quote)
  }

  predicate ValueOk(v: string, q: Quoting) {
    match q
    case Bare => v != "" && ' ' !in v && v[0] != '"' && v[0] != '\''
    case Double => Escaped(v)
    case Single => '\'' !in v
  }

  predicate AllWellFormed(ps: seq<Pair>) { forall k :: 0 <= k < |ps| ==> WellFormed(ps[k]) }

  // ---------------------------------------------------------------------------
  // Round trips
  // ---------------------------------------------------------------------------

  lemma {:induction false} KeyLenExact(key: string, rest: string, first: bool)
    requires key != "" ==> IsKeyByte(key[0], first)
    requires forall k :: 1 <= k < |key| ==> IsKeyByte(key[k], false)
    requires rest != "" && rest[0] == '='
    ensures KeyLen(key + rest, first) == |key|
  {
    if key == "" {
      assert key + rest == rest;
    } else {
      assert (key + rest)[1..] == key[1..] + rest;
      KeyLenExact(key[1..], rest, false);
    }
  }

  lemma {:induction false} KeyLenGrammar(s: string, first: bool)
    ensures forall k :: 0 <= k < KeyLen(s, first) ==> IsKeyByte(s[k], first && k == 0)
  {
    if s != "" && IsKeyByte(s[0], first) {
      KeyLenGrammar(s[1..], false);
      forall k | 0 <= k < KeyLen(s, first) ensures IsKeyByte(s[k], first && k == 0) {
        if k > 0 { assert s[k] == s[1..][k - 1]; }
      }
    }
  }

  lemma {:induction false} DoubleEndExact(v: string, rest: string)
    requires Escaped(v)
    ensures DoubleEnd(v + "\"" + rest) == Some(|v|)
  {
    var s := v + "\"" + rest;
    if v != "" {
      var step := if v[0] == '\\' then 2 else 1;
      assert s[step..] == v[step..] + "\"" + rest;
      DoubleEndExact(v[step..], rest);
    }
  }

  lemma {:induction false} DoubleEndEscaped(s: string)
    requires DoubleEnd(s).Some?
    ensures Escaped(s[..DoubleEnd(s).value])
  {
    if s[0] != '"' {
      var step := if s[0] == '\\' then 2 else 1;
      DoubleEndEscaped(s[step..]);
      assert s[..DoubleEnd(s).value][step..] == s[step..][..DoubleEnd(s).value - step];
    }
  }

  lemma {:induction false} IndexOfExact(v: string, rest: string, c: char)
    requires c !in v && (rest == "" || rest[0] == c)
    ensures IndexOf(v + rest, c) == |v|
  {
    if v == "" {
      assert v + rest == rest;
    } else {
      assert (v + rest)[1..] == v[1..] + rest;
      IndexOfExact(v[1..], rest, c);
    }
  }

  lemma BareValue(v: string, rest: string)
    requires v != "" && ' ' !in v && v[0] != '"' && v[0] != '\'' && (rest == "" || rest[0] == ' ')
    ensures ParseValue(v + rest) == Some((v, Bare, rest))
  {
    IndexOfExact(v, rest, ' ');
    assert (v + rest)[..|v|] == v && (v + rest)[|v|..] == rest;
  }

  lemma DoubleValue(v: string, rest: string)
    requires Escaped(v)
    ensures ParseValue("\"" + v + "\"" + rest) == Some((v, Double, rest))
  {
    var s := "\"" + v + "\"" + rest;
    assert s[1..] == v + "\"" + rest;
    DoubleEndExact(v, rest);
    assert s[1..|v| + 1] == v && s[|v| + 2..] == rest;
  }

  lemma SingleValue(v: string, rest: string)
    requires '\'' !in v
    ensures ParseValue("'" + v + "'" + rest) == Some((v, Single, rest))
  {
    var s := "'" + v + "'" + rest;
    assert s[1..] == v + ("'" + rest);
    IndexOfExact(v, "'" + rest, '\'');
    assert s[1..|v| + 1] == v && s[|v| + 2..] == rest;
  }

  lemma Regroup(key: string, value: string, rest: string)
    ensures key + "=" + value + rest == key + "=" + (value + rest)
  {
  }

  /** Parsing a printed pair gives the pair back, and leaves what followed it. */
  lemma ParsePrinted(p: Pair, rest: string)
    requires WellFormed(p) && (rest == "" || rest[0] == ' ')
    ensures ParsePair(PrintPair(p) + rest) == Some((p, rest))
  {
    ParseValuePrinted(p, rest);
    ParseAfterKey(p.key, PrintValue(p.value, p.quote) + rest);
    Regroup(p.key, PrintValue(p.value, p.quote), rest);
  }

  lemma ParseValuePrinted(p: Pair, rest: string)
    requires WellFormed(p) && (rest == "" || rest[0] == ' ')
    ensures ParseValue(PrintValue(p.value, p.quote) + rest) == Some((p.value, p.quote, rest))
  {
    match p.quote
    case Bare =>
      BareValue(p.value, rest);
      assert PrintValue(p.value, Bare) == p.value;
    case Double => DoubleValue(p.value, rest);
    case Single => SingleValue(p.value, rest);
  }

  lemma ParseAfterKey(key: string, tail: string)
    requires key != "" && IsKeyByte(key[0], true) && forall k :: 1 <= k < |key| ==> IsKeyByte(key[k], false)
    requires ParseValue(tail).Some?
    ensures var (v, q, rest) := ParseValue(tail).value;
            ParsePair(key + "=" + tail) == Some((Pair(key, v, q), rest))
  {
    var s := key + "=" + tail;
    assert s == key + ("=" + tail);
    KeyLenExact(key, "=" + tail, true);
    assert s[|key|] == '=' && s[|key| + 1..] == tail && s[..|key|] == key;
  }

  lemma CutAtQuotes(s: string, q: string, j: nat)
    requires |q| == 1 && s != "" && s[0] == q[0] && j + 1 < |s| && s[j + 1] == q[0]
    ensures s == q + s[1..j + 1] + q + s[j + 2..] && s[1..][..j] == s[1..j + 1]
  {
  }

  /** A parsed value is well formed for its quoting and prints as the text it was read from. */
  lemma ParsedValue(s: string)
    requires ParseValue(s).Some?
    ensures var (v, q, rest) := ParseValue(s).value;
            && s == PrintValue(v, q) + rest
            && ValueOk(v, q) && (q.Bare? ==> rest == "" || rest[0] == ' ')
  {
    if s[0] == '"' {
      DoubleEndEscaped(s[1..]);
      CutAtQuotes(s, "\"", DoubleEnd(s[1..]).value);
    } else if s[0] == '\'' {
      CutAtQuotes(s, "'", IndexOf(s[1..], '\''));
    } else {
      var j := IndexOf(s, ' ');
      assert PrintValue(s[..j], Bare) == s[..j];
    }
  }

  /** A parsed pair is well formed and prints as the text it was read from. */
  lemma ParsedPrints(s: string)
    requires ParsePair(s).Some?
    ensures var (p, rest) := ParsePair(s).value;
            WellFormed(p) && s == PrintPair(p) + rest && (p.quote.Bare? ==> rest == "" || rest[0] == ' ')
  {
    var k := KeyLen(s, true);
    KeyLenGrammar(s, true);
    ParsedValue(s[k + 1..]);
    var (p, rest) := ParsePair(s).value;
    CutAtEquals(s, k);
    Regroup(p.key, PrintValue(p.value, p.quote), rest);
  }

  lemma CutAtEquals(s: string, k: nat)
    requires k < |s| && s[k] == '='
    ensures s == s[..k] + "=" + s[k + 1..]
  {
  }

  lemma PrintCons(p: Pair, ps: seq<Pair>, text: string)
    requires WellFormed(p) && ps != [] && AllWellFormed(ps) && Print(ps) == text
    ensures AllWellFormed([p] + ps) && Print([p] + ps) == PrintPair(p) + (" " + text)
  {
    assert ([p] + ps)[1..] == ps;
  }

  /** A successful parse prints back to the text it was read from. */
  lemma {:induction false} ParseThenPrint(s: string)
    requires ParsePairs(s).Some?
    ensures ParsePairs(s).value != [] && AllWellFormed(ParsePairs(s).value) && Print(ParsePairs(s).value) == s
    decreases |s|
  {
    ParsedPrints(s);
    ParseShortens(s);
    var (p, rest) := ParsePair(s).value;
    if rest == "" {
      assert PrintPair(p) + rest == PrintPair(p);
    } else {
      ParseThenPrint(rest[1..]);
      PrintCons(p, ParsePairs(rest[1..]).value, rest[1..]);
      assert rest == " " + rest[1..];
    }
  }

  lemma PrintHead(ps: seq<Pair>)
    requires |ps| > 1
    ensures Print(ps) == PrintPair(ps[0]) + (" " + Print(ps[1..]))
  {
    Associate(PrintPair(ps[0]), Print(ps[1..]));
  }

  lemma Associate(head: string, tail: string)
    ensures head + " " + tail == head + (" " + tail)
  {
  }

  lemma ParseLast(p: Pair)
    requires WellFormed(p)
    ensures ParsePairs(PrintPair(p)) == Some([p])
  {
    ParsePrinted(p, "");
    assert PrintPair(p) + "" == PrintPair(p);
    PairHead(PrintPair(p), p, "");
  }

  lemma ParseNext(p: Pair, text: string, qs: seq<Pair>)
    requires WellFormed(p) && text != "" && text[0] != ' ' && ParsePairs(text) == Some(qs)
    ensures ParsePairs(PrintPair(p) + (" " + text)) == Some([p] + qs)
  {
    var rest := " " + text;
    ParsePrinted(p, rest);
    PairHead(PrintPair(p) + rest, p, rest);
    assert rest[1..] == text && Separated(rest, 0);
  }

  lemma PrintStarts(ps: seq<Pair>)
    requires ps != [] && AllWellFormed(ps)
    ensures Print(ps) != "" && Print(ps)[0] != ' '
  {
    assert Print(ps)[0] == PrintPair(ps[0])[0] == ps[0].key[0];
  }

  lemma PrintMore(ps: seq<Pair>)
    requires |ps| > 1 && AllWellFormed(ps) && ParsePairs(Print(ps[1..])) == Some(ps[1..])
    ensures ParsePairs(Print(ps)) == Some([ps[0]] + ps[1..])
  {
    PrintStarts(ps[1..]);
    PrintHead(ps);
    ParseNext(ps[0], Print(ps[1..]), ps[1..]);
  }

  /** Printing any non-empty list of well-formed pairs parses back to the list. */
  lemma {:induction false} PrintThenParse(ps: seq<Pair>)
    requires ps != [] && AllWellFormed(ps)
    ensures ParsePairs(Print(ps)) == Some(ps)
  {
    if |ps| == 1 {
      ParseLast(ps[0]);
      assert ps == [ps[0]];
    } else {
      PrintThenParse(ps[1..]);
      PrintMore(ps);
      assert ps == [ps[0]] + ps[1..];
    }
  }

  /** The grammar decided exactly: a text parses if and only if some well-formed list prints as it. */
  lemma ParsesIffPrinted(s: string)
    ensures ParsePairs(s).Some? <==> exists ps :: ps != [] && AllWellFormed(ps) && Print(ps) == s
  {
    if ParsePairs(s).Some? { ParseThenPrint(s); }
    if exists ps :: ps != [] && AllWellFormed(ps) && Print(ps) == s {
      var ps :| ps != [] && AllWellFormed(ps) && Print(ps) == s;
      PrintThenParse(ps);
    }
  }

  // ---------------------------------------------------------------------------
  // The parser
  // ---------------------------------------------------------------------------

  method ScanKey(line: string, start: nat) returns (i: nat)
    requires start <= |line|
    ensures i == start + KeyLen(line[start..], true) <= |line|
  {
    i := start;
    while i < |line| && IsKeyByte(line[i], i == start)
      invariant start <= i <= |line|
      invariant KeyLen(line[start..], true) == i - start + KeyLen(line[i..], i == start)
    {
      assert line[i..][1..] == line[i + 1..];
      i := i + 1;
    }
  }

  method ScanFor(line: string, from: nat, c: char) returns (j: nat)
    requires from <= |line|
    ensures j == from + IndexOf(line[from..], c) <= |line|
  {
    j := from;
    while j < |line| && line[j] != c
      invariant from <= j <= |line|
      invariant IndexOf(line[from..], c) == j - from + IndexOf(line[j..], c)
    {
      assert line[j..][1..] == line[j + 1..];
      j := j + 1;
    }
  }

  function Shift(r: Option<nat>, d: nat): Option<nat> {
    match r case None => None case Some(j) => Some(j + d)
  }

  /** The scan for the closing quote may be resumed at j. */
  ghost predicate ResumesAt(line: string, from: nat, j: nat)
    requires from <= |line|
  {
    from <= j && DoubleEnd(line[from..]) == if j > |line| then None else Shift(DoubleEnd(line[j..]), j - from)
  }

  /** One byte, or an escaped pair, further on. */
  lemma SkipOne(line: string, j: nat, next: nat)
    requires j < |line| && line[j] != '"' && next == j + if line[j] == '\\' then 2 else 1
    ensures DoubleEnd(line[j..]) == if next > |line| then None else Shift(DoubleEnd(line[next..]), next - j)
  {
    if next <= |line| { assert line[j..][next - j..] == line[next..]; }
  }

  lemma ResumeStep(line: string, from: nat, j: nat, next: nat)
    requires from <= j < |line| && line[j] != '"' && ResumesAt(line, from, j)
    requires next == j + if line[j] == '\\' then 2 else 1
    ensures ResumesAt(line, from, next)
  {
    SkipOne(line, j, next);
  }

  lemma ResumeStart(line: string, from: nat)
    requires from <= |line|
    ensures ResumesAt(line, from, from)
  {
  }

  method ScanDouble(line: string, from: nat) returns (j: nat)
    requires from <= |line|
    ensures match DoubleEnd(line[from..]) case None => j >= |line| case Some(d) => j == from + d < |line|
  {
    j := from;
    ResumeStart(line, from);
    while j < |line| && line[j] != '"'
      invariant ResumesAt(line, from, j)
      decreases |line| - j
    {
      ResumeStep(line, from, j, j + if line[j] == '\\' then 2 else 1);
      if line[j] == '\\' {
        j := j + 1;
      }
      j := j + 1;
    }
    assert j < |line| ==> DoubleEnd(line[j..]) == Some(0);
    assert j == |line| ==> line[j..] == "";
  }

  lemma SliceOfTail(line: string, i: nat, d: nat)
    requires i + d + 1 < |line|
    ensures line[i..][1..d + 1] == line[i + 1..i + 1 + d] && line[i..][d + 2..] == line[i + d + 2..]
  {
  }

  lemma DoubleAt(line: string, i: nat, j: nat)
    requires i < |line| && line[i] == '"'
    requires match DoubleEnd(line[i + 1..]) case None => j >= |line| case Some(d) => j == i + 1 + d < |line|
    ensures ParseValue(line[i..]) == if j >= |line| then None else Some((line[i + 1..j], Double, line[j + 1..]))
  {
    assert line[i..][1..] == line[i + 1..];
    if j < |line| { SliceOfTail(line, i, j - i - 1); }
  }

  lemma SingleAt(line: string, i: nat, j: nat)
    requires i < |line| && line[i] == '\'' && j == i + 1 + IndexOf(line[i + 1..], '\'')
    ensures ParseValue(line[i..]) == if j >= |line| then None else Some((line[i + 1..j], Single, line[j + 1..]))
  {
    assert line[i..][1..] == line[i + 1..];
    if j < |line| { SliceOfTail(line, i, j - i - 1); }
  }

  lemma BareAt(line: string, i: nat, j: nat)
    requires i < |line| && line[i] != '"' && line[i] != '\'' && j == i + IndexOf(line[i..], ' ')
    ensures ParseValue(line[i..]) == if j == i then None else Some((line[i..j], Bare, line[j..]))
  {
    assert line[i..][..j - i] == line[i..j] && line[i..][j - i..] == line[j..];
  }

  /** The value at offset i: the switch on its first byte. */
  method ScanValue(line: string, i: nat) returns (ok: bool, v: string, q: Quoting, next: nat)
    requires i <= |line|
    ensures ok <==> ParseValue(line[i..]).Some?
    ensures ok ==> i < next <= |line| && ParseValue(line[i..]).value == (v, q, line[next..])
  {
    ok, v, q, next := false, "", Bare, i;
    if i >= |line| {
      return;
    }
    if line[i] == '"' {
      var j := ScanDouble(line, i + 1);
      DoubleAt(line, i, j);
      if j >= |line| {
        return;
      }
      return true, line[i + 1..j], Double, j + 1;
    }
    if line[i] == '\'' {
      var j := ScanFor(line, i + 1, '\'');
      SingleAt(line, i, j);
      if j >= |line| {
        return;
      }
      return true, line[i + 1..j], Single, j + 1;
    }
    var j := ScanFor(line, i, ' ');
    BareAt(line, i, j);
    if j == i {
      return;
    }
    return true, line[i..j], Bare, j;
  }

  function PairAt(line: string, start: nat): Option<(Pair, string)>
    requires start <= |line|
  {
    ParsePair(line[start..])
  }

  lemma PairParts(line: string, start: nat, i: nat)
    requires start <= |line| && i == start + KeyLen(line[start..], true)
    ensures i == start || i == |line| || line[i] != '=' ==> PairAt(line, start) == None
    ensures start < i < |line| && line[i] == '=' ==>
              PairAt(line, start) == WithKey(line[start..i], ParseValue(line[i + 1..]))
  {
    var s := line[start..];
    assert i < |line| ==> line[start..i] == s[..i - start] && line[i + 1..] == s[i - start + 1..];
  }

  /** The body of the parse loop: one pair from offset start, and the offset after it. */
  method ParseOne(line: string, start: nat) returns (ok: bool, p: Pair, next: nat)
    requires start < |line|
    ensures ok <==> PairAt(line, start).Some?
    ensures ok ==> start < next <= |line| && PairAt(line, start).value == (p, line[next..])
  {
    ok, p, next := false, Pair("", "", Bare), start;
    var i := ScanKey(line, start);
    PairParts(line, start, i);
    if i == start || i >= |line| || line[i] != '=' {
      return;
    }
    var v, q;
    ok, v, q, next := ScanValue(line, i + 1);
    if ok { p := Pair(line[start..i], v, q); }
  }

  function Prepend(ps: seq<Pair>, r: Option<seq<Pair>>): Option<seq<Pair>> {
    match r case None => None case Some(qs) => Some(ps + qs)
  }

  function ParseFrom(line: string, i: nat): Option<seq<Pair>>
    requires i <= |line|
  {
    ParsePairs(line[i..])
  }

  predicate Separated(line: string, next: nat) {
    next + 1 < |line| && line[next] == ' ' && line[next + 1] != ' '
  }

  lemma PairHead(s: string, p: Pair, rest: string)
    requires ParsePair(s) == Some((p, rest))
    ensures ParsePairs(s) == if rest == "" then Some([p])
                             else if Separated(rest, 0) then Prepend([p], ParsePairs(rest[1..]))
                             else None
  {
    ParseShortens(s);
  }

  lemma PrependTwice(ps: seq<Pair>, p: Pair, r: Option<seq<Pair>>)
    ensures Prepend(ps, Prepend([p], r)) == Prepend(ps + [p], r)
  {
    if r.Some? { assert ps + ([p] + r.value) == ps + [p] + r.value; }
  }

  /** What the text holds when its first pair is p and the rest starts at next. */
  function FromPair(line: string, p: Pair, next: nat): Option<seq<Pair>>
    requires next <= |line|
  {
    if next == |line| then Some([p])
    else if Separated(line, next) then Prepend([p], ParseFrom(line, next + 1))
    else None
  }

  lemma PairMeans(line: string, i: nat, p: Pair, next: nat)
    requires i < next <= |line| && ParsePair(line[i..]) == Some((p, line[next..]))
    ensures ParseFrom(line, i) == FromPair(line, p, next)
  {
    PairHead(line[i..], p, line[next..]);
    assert Separated(line, next) == Separated(line[next..], 0);
    if next < |line| { assert line[next..][1..] == line[next + 1..]; }
  }

  lemma NoPair(line: string, i: nat)
    requires i <= |line| && ParsePair(line[i..]).None?
    ensures ParseFrom(line, i) == None
  {
  }

  method ReadPair(line: string, i: nat) returns (ok: bool, p: Pair, next: nat)
    requires i < |line|
    ensures ok ==> i < next <= |line|
    ensures ParseFrom(line, i) == if ok then FromPair(line, p, next) else None
  {
    ok, p, next := ParseOne(line, i);
    if ok { PairMeans(line, i, p, next); } else { NoPair(line, i); }
  }

  lemma NothingRead(line: string)
    ensures ParseFrom(line, 0) == Prepend([], ParseFrom(line, 0)) && (line == "" ==> ParseFrom(line, 0).None?)
  {
    var r := ParseFrom(line, 0);
    if r.Some? { assert [] + r.value == r.value; }
  }

  lemma SkipSpace(line: string, next: nat, after: nat)
    requires next < |line| && after == next + 1
    ensures ParseFrom(line, next + 1) == ParseFrom(line, after)
  {
  }

  /** The parse loop over a line without its trailing carriage return. */
  method ParseLoop(line: string) returns (pairs: seq<Pair>, ok: bool)
    ensures ParseFrom(line, 0) == if ok then Some(pairs) else None
  {
    pairs := [];
    var i := 0;
    NothingRead(line);
    while i < |line|
      invariant i <= |line| && (line != "" ==> i < |line|)
      invariant ParseFrom(line, 0) == Prepend(pairs, ParseFrom(line, i))
    {
      var good, p, next := ReadPair(line, i);
      if !good {
        return [], false;
      }
      ghost var before := pairs;
      pairs := pairs + [p];
      if next == |line| {
        return pairs, true;
      }
      if !Separated(line, next) {
        return [], false;
      }
      i := next + 1;
      SkipSpace(line, next, i);
      PrependTwice(before, p, ParseFrom(line, i));
    }
    return [], false;
  }

  /** parseLogfmtPairs: succeeds exactly on the texts well-formed pairs print as, with those pairs. */
  method ParseLogfmtPairs(raw: string) returns (pairs: seq<Pair>, ok: bool)
    ensures ok <==> exists ps :: ps != [] && AllWellFormed(ps) && Print(ps) == TrimCR(raw)
    ensures ok ==> AllWellFormed(pairs) && Print(pairs) == TrimCR(raw)
  {
    var line := TrimCR(raw);
    pairs, ok := ParseLoop(line);
    assert line[0..] == line;
    ParsesIffPrinted(line);
    if ok { ParseThenPrint(line); }
  }

  /** Two well-formed lists that print alike are the same list: what the parser returns is the only
      reading of the line. */
  lemma PrintInjective(ps: seq<Pair>, qs: seq<Pair>)
    requires ps != [] && AllWellFormed(ps) && qs != [] && AllWellFormed(qs) && Print(ps) == Print(qs)
    ensures ps == qs
  {
    PrintThenParse(ps);
    PrintThenParse(qs);
  }
}
