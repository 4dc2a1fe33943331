/** The hostname rule on lines (applySyslogHostGrammar in internal/pattern/tiler.go): where it finds
    the host of a syslog line, and what it makes of it. */
module HostLines {
  import opened Base
  import opened Segmentation
  import opened Probe
  import opened Pieces
  import opened Typing

  // ---------------------------------------------------------------------------
  // The host among units
  // ---------------------------------------------------------------------------

  predicate Digits(s: string) { s != "" && forall k :: 0 <= k < |s| ==> '0' <= s[k] <= '9' }

  lemma {:induction false} DigitsEndAt(s: string, i: nat, j: nat)
    requires i <= j <= |s| && (forall k :: i <= k < j ==> '0' <= s[k] <= '9') && (j < |s| ==> !('0' <= s[j] <= '9'))
    ensures DigitsEnd(s, i) == j
    decreases j - i
  {
    if i < j { DigitsEndAt(s, i + 1, j); }
  }

  /** Units `<pri>version `, an ISO 8601 timestamp and white space, whatever else they stand in. */
  lemma Rfc5424Units(units: seq<Unit>, pri: string, version: string)
    requires |units| >= 8 && Digits(pri) && Digits(version)
    requires units[..5] == [Literal("<"), Token(pri), Literal(">"), Token(version), Literal(" ")]
    requires units[5].Comp? && Contains(units[5].comp.expr, "TIMESTAMP_ISO8601")
    requires units[6].Literal? && (forall k :: 0 <= k < |units[6].text| ==> IsSpace(units[6].text[k])) && units[7].Token?
    ensures HostSlot(units) == Some(7)
  {
    Rfc5424Header(pri, version);
    HeaderTexts(pri, version);
    FirstCompositeAt(units, 5);
  }

  lemma {:induction false} FirstCompositeAt(units: seq<Unit>, n: nat)
    requires n < |units| && units[n].Comp? && forall k :: 0 <= k < n ==> !units[k].Comp?
    ensures FirstComposite(units) == n
  {
    if n > 0 { FirstCompositeAt(units[1..], n - 1); }
  }

  lemma HeaderTexts(pri: string, version: string)
    ensures Texts([Literal("<"), Token(pri), Literal(">"), Token(version), Literal(" ")])
         == "<" + pri + ">" + version + " "
  {
    var u0, u1, u2, u3, u4 := Literal("<"), Token(pri), Literal(">"), Token(version), Literal(" ");
    assert [u4][1..] == [] && [u3, u4][1..] == [u4] && [u2, u3, u4][1..] == [u3, u4];
    assert [u1, u2, u3, u4][1..] == [u2, u3, u4] && [u0, u1, u2, u3, u4][1..] == [u1, u2, u3, u4];
    assert Texts([u4]) == " " && Texts([u3, u4]) == version + " ";
    assert Texts([u2, u3, u4]) == ">" + (version + " ") && Texts([u1, u2, u3, u4]) == pri + (">" + (version + " "));
    assert "<" + (pri + (">" + (version + " "))) == "<" + pri + ">" + version + " ";
  }

  lemma Rfc5424Header(pri: string, version: string)
    requires Digits(pri) && Digits(version)
    ensures Rfc5424Prefix("<" + pri + ">" + version + " ")
  {
    var s := "<" + pri + ">" + version + " ";
    var a := 1 + |pri|;
    var b := a + 1 + |version|;
    assert forall k :: 1 <= k < a ==> s[k] == pri[k - 1];
    assert s[a] == '>' && s[b] == ' ' && |s| == b + 1;
    assert forall k :: a + 1 <= k < b ==> s[k] == version[k - a - 1];
    DigitsEndAt(s, 1, a);
    DigitsEndAt(s, a + 1, b);
  }

  /** s is '<', digits, '>', digits and blanks; the numbers are s[1..a] and s[a + 1..b]. */
  predicate IsHeader(s: string, a: nat, b: nat) {
    && 1 < a && a + 1 < b <= |s| && s[0] == '<' && s[a] == '>'
    && (forall k :: 1 <= k < a ==> '0' <= s[k] <= '9') && (forall k :: a + 1 <= k < b ==> '0' <= s[k] <= '9')
    && forall k :: b <= k < |s| ==> IsSpace(s[k])
  }

  ghost predicate HasHeader(s: string) { exists a: nat, b: nat :: IsHeader(s, a, b) }

  predicate Blank(s: string) { forall k :: 0 <= k < |s| ==> IsSpace(s[k]) }

  lemma HeaderIff(s: string)
    ensures Rfc5424Prefix(s) <==> HasHeader(s)
  {
    if a: nat, b: nat :| IsHeader(s, a, b) {
      DigitsEndAt(s, 1, a);
      DigitsEndAt(s, a + 1, b);
    }
    if Rfc5424Prefix(s) {
      var a := DigitsEnd(s, 1);
      DigitsBefore(s, 1);
      DigitsBefore(s, a + 1);
      assert IsHeader(s, a, DigitsEnd(s, a + 1));
    }
  }

  lemma {:induction false} DigitsBefore(s: string, i: nat)
    requires i <= |s|
    ensures forall k :: i <= k < DigitsEnd(s, i) ==> '0' <= s[k] <= '9'
    decreases |s| - i
  {
    if i < |s| && '0' <= s[i] <= '9' { DigitsBefore(s, i + 1); }
  }

  /** Unit i is a token after blanks after a timestamp, the first in the line: a syslog timestamp the line
      opens with, or an ISO 8601 one behind `<pri>version `. */
  ghost predicate AtHost(units: seq<Unit>, i: nat) {
    && 2 <= i < |units| && units[i].Token? && units[i - 1].Literal?
    && Blank(units[i - 1].text)
    && units[i - 2].Comp? && (forall k :: 0 <= k < i - 2 ==> !units[k].Comp?)
    && ((i == 2 && Contains(units[0].comp.expr, "SYSLOGTIMESTAMP"))
        || (Contains(units[i - 2].comp.expr, "TIMESTAMP_ISO8601")
            && HasHeader(Texts(units[..i - 2]))))
  }

  lemma {:induction false} FirstCompositeIs(units: seq<Unit>)
    ensures var n := FirstComposite(units);
            (n < |units| ==> units[n].Comp?) && forall k :: 0 <= k < n ==> !units[k].Comp?
  {
    if units != [] && !units[0].Comp? { FirstCompositeIs(units[1..]); }
  }

  /** The hostname slot is such a token, and only such a one. */
  lemma HostSlotIff(units: seq<Unit>, i: nat)
    ensures HostSlot(units) == Some(i) <==> AtHost(units, i)
  {
    var n := FirstComposite(units);
    FirstCompositeIs(units);
    if i >= 2 { HeaderIff(Texts(units[..Min(i - 2, |units|)])); }
    if AtHost(units, i) { FirstCompositeAt(units, i - 2); }
  }

  // ---------------------------------------------------------------------------
  // Reading a line
  // ---------------------------------------------------------------------------

  /** line[i..j] is a run of delimiters, none of them a quote. */
  ghost predicate RunAt(line: string, i: nat, j: nat) {
    i < j <= |line| && forall k :: i <= k < j ==> IsDelim(line[k]) && line[k] != '"'
  }

  ghost predicate BlankAt(line: string, i: nat, j: nat) {
    i < j <= |line| && forall k :: i <= k < j ==> line[k] == ' ' || line[k] == '\t'
  }

  /** line[i..j] is a maximal run of other bytes, at which no composite fits. */
  ghost predicate TokenAt(comps: seq<Composite>, line: string, i: nat, j: nat) {
    && i < j <= |line| && (forall k :: i <= k < j ==> !IsDelim(line[k])) && (j < |line| ==> IsDelim(line[j]))
    && MatchComposite(comps, line, i).None?
  }

  /** c is the first composite that fits at i, and it matches line[i..j]. */
  ghost predicate CompAt(comps: seq<Composite>, line: string, i: nat, c: Composite, j: nat) {
    && i < j <= |line| && !IsDelim(line[i])
    && MatchComposite(comps, line, i) == Some(c) && c.prefix(line[i..]) == j - i
  }

  function Units(comps: seq<Composite>, line: string, i: nat): seq<Unit>
    requires i <= |line|
  {
    UnitsFrom(comps, line, i, "", true)
  }

  lemma OneMoreByte(line: string, i: nat, next: nat, j: nat, lit: string)
    requires next == i + 1 <= j <= |line|
    ensures lit + [line[i]] + line[next..j] == lit + line[i..j]
  {
  }

  lemma {:induction false} ReadRun(comps: seq<Composite>, line: string, i: nat, j: nat, lit: string)
    requires i <= j <= |line| && forall k :: i <= k < j ==> IsDelim(line[k]) && line[k] != '"'
    ensures UnitsFrom(comps, line, i, lit, true) == UnitsFrom(comps, line, j, lit + line[i..j], true)
    decreases j - i
  {
    if i == j {
      assert lit + line[i..j] == lit;
    } else {
      var next := i + 1;
      ReadRun(comps, line, next, j, lit + [line[i]]);
      OneMoreByte(line, i, next, j, lit);
      assert CutAt(comps, line, i, true).Delimiter?;
    }
  }

  lemma TokenEndAt(line: string, i: nat, j: nat)
    requires i <= j <= |line| && (forall k :: i <= k < j ==> !IsDelim(line[k])) && (j < |line| ==> IsDelim(line[j]))
    ensures TokenEnd(line, i) == j
  {
  }

  lemma ReadToken(comps: seq<Composite>, line: string, i: nat, j: nat, lit: string)
    requires TokenAt(comps, line, i, j)
    ensures UnitsFrom(comps, line, i, lit, true) == Flush(lit) + [Token(line[i..j])] + Units(comps, line, j)
  {
    TokenEndAt(line, i, j);
  }

  lemma ReadComp(comps: seq<Composite>, line: string, i: nat, c: Composite, j: nat, lit: string)
    requires CompAt(comps, line, i, c, j)
    ensures UnitsFrom(comps, line, i, lit, true) == Flush(lit) + [Comp(line[i..j], c)] + Units(comps, line, j)
  {
  }

  /** A literal run and the token after it. */
  lemma RunThenToken(comps: seq<Composite>, line: string, i: nat, j: nat, e: nat)
    requires RunAt(line, i, j) && TokenAt(comps, line, j, e)
    ensures Units(comps, line, i) == [Literal(line[i..j]), Token(line[j..e])] + Units(comps, line, e)
  {
    ReadRun(comps, line, i, j, "");
    assert "" + line[i..j] == line[i..j];
    ReadToken(comps, line, j, e, line[i..j]);
  }

  lemma RunThenComp(comps: seq<Composite>, line: string, i: nat, j: nat, c: Composite, e: nat)
    requires RunAt(line, i, j) && CompAt(comps, line, j, c, e)
    ensures Units(comps, line, i) == [Literal(line[i..j]), Comp(line[j..e], c)] + Units(comps, line, e)
  {
    ReadRun(comps, line, i, j, "");
    assert "" + line[i..j] == line[i..j];
    ReadComp(comps, line, j, c, e, line[i..j]);
  }

  lemma TimestampFirst(comps: seq<Composite>, line: string, c: Composite, a: nat)
    requires CompAt(comps, line, 0, c, a)
    ensures Units(comps, line, 0) == [Comp(line[..a], c)] + Units(comps, line, a)
  {
    ReadComp(comps, line, 0, c, a, "");
    assert line[0..a] == line[..a] && Flush("") + [Comp(line[..a], c)] == [Comp(line[..a], c)];
  }

  /** RFC 3164: in a line that opens with a syslog timestamp, then blanks, then a token, the host slot
      is that token (section 4.1.2). */
  lemma Rfc3164Host(comps: seq<Composite>, line: string, c: Composite, a: nat, b: nat, e: nat)
    requires CompAt(comps, line, 0, c, a) && Contains(c.expr, "SYSLOGTIMESTAMP")
    requires BlankAt(line, a, b) && TokenAt(comps, line, b, e)
    ensures var units := Segments(comps, line, true);
            HostSlot(units) == Some(2) && units[2] == Token(line[b..e])
  {
    TimestampFirst(comps, line, c, a);
    RunThenToken(comps, line, a, b, e);
    var units := Segments(comps, line, true);
    assert units == [Comp(line[..a], c), Literal(line[a..b]), Token(line[b..e])] + Units(comps, line, e);
    assert units[0].Comp? && FirstComposite(units) == 0;
  }

  /** The header `<pri>version ` at the start of a line, up to offset q + 1. */
  ghost predicate HeaderAt(comps: seq<Composite>, line: string, p: nat, q: nat) {
    && TokenAt(comps, line, 1, p) && Digits(line[1..p]) && TokenAt(comps, line, p + 1, q) && Digits(line[p + 1..q])
    && q < |line| && line[0] == '<' && line[p] == '>' && line[q] == ' '
  }

  function Header(line: string, p: nat, q: nat): seq<Unit>
    requires 1 <= p < q <= |line|
  {
    [Literal("<"), Token(line[1..p]), Literal(">"), Token(line[p + 1..q]), Literal(" ")]
  }

  lemma HeaderUnits(comps: seq<Composite>, line: string, p: nat, q: nat, c: Composite, a: nat)
    requires HeaderAt(comps, line, p, q) && CompAt(comps, line, q + 1, c, a)
    ensures Units(comps, line, 0) == Header(line, p, q) + ([Comp(line[q + 1..a], c)] + Units(comps, line, a))
  {
    RunThenToken(comps, line, 0, 1, p);
    RunThenToken(comps, line, p, p + 1, q);
    RunThenComp(comps, line, q, q + 1, c, a);
    assert line[0..1] == "<" && line[p..p + 1] == ">" && line[q..q + 1] == " ";
  }

  /** RFC 5424: in a line that opens with priority, version, an ISO 8601 timestamp and blanks, the
      host slot is the next token (section 6.2.4). */
  lemma Rfc5424Host(comps: seq<Composite>, line: string, p: nat, q: nat, c: Composite, a: nat, b: nat, e: nat)
    requires HeaderAt(comps, line, p, q) && CompAt(comps, line, q + 1, c, a) && Contains(c.expr, "TIMESTAMP_ISO8601")
    requires BlankAt(line, a, b) && TokenAt(comps, line, b, e)
    ensures var units := Segments(comps, line, true);
            HostSlot(units) == Some(7) && units[7] == Token(line[b..e])
  {
    HeaderUnits(comps, line, p, q, c, a);
    RunThenToken(comps, line, a, b, e);
    FromHeader(Segments(comps, line, true), Header(line, p, q), Comp(line[q + 1..a], c), Literal(line[a..b]),
               Token(line[b..e]), Units(comps, line, e));
    Rfc5424Units(Segments(comps, line, true), line[1..p], line[p + 1..q]);
  }

  lemma FromHeader(units: seq<Unit>, header: seq<Unit>, u5: Unit, u6: Unit, u7: Unit, rest: seq<Unit>)
    requires |header| == 5 && units == header + ([u5] + ([u6, u7] + rest))
    ensures |units| >= 8 && units[..5] == header && units[5] == u5 && units[6] == u6 && units[7] == u7
  {
  }

  lemma HostUpgrades(t: Tables, units: seq<Unit>, stats: seq<Option<Stats>>, ps: seq<Piece>, slot: nat, v: string)
    requires t.host.Some? && |ps| == |units| == |stats| && HostSlot(units) == Some(slot)
    requires ps[slot] == Lit(v) && HostShaped(t.host.value, units[slot], stats[slot])
    ensures HostGrammar(t, units, Some(stats), ps)[slot] == Field(t.host.value)
  {
  }

  /** A host that never varies is data, not a keyword: where every aligned line holds the same
      hostname-shaped value, a slot that would have become literal text is rendered HOSTNAME. */
  lemma ConstantHostIsData(t: Tables, units: seq<Unit>, stats: seq<Option<Stats>>, slot: nat, values: seq<string>, v: string)
    requires t.singles != [] && t.host.Some? && |stats| == |units| && HostSlot(units) == Some(slot)
    requires |values| >= 2 && stats[slot] == Some(Collect(values)) && Constant(values, v)
    requires Keyword(t.singles, v) && t.host.value.classify(v)
    ensures TypeToken(t.singles, units[slot].text, stats[slot]) == Lit(v)
    ensures TypeUnits(t, units, Some(stats), 0)[slot] == Field(t.host.value)
  {
    var text := units[slot].text;
    DemotedIff(t.singles, text, values, v);
    CollectConstant(values, v);
    MatchedAll(values);
    var ps := seq(|units|, i requires 0 <= i < |units| => TypeUnit(t, units[i], StatOf(Some(stats), i), 0));
    assert ps[slot] == TypeUnit(t, Token(text), stats[slot], 0) == Lit(v);
    HostUpgrades(t, units, stats, ps, slot, v);
  }

  lemma MatchedAll(values: seq<string>)
    ensures Collect(values).matched == |values|
  {
    CollectSpec(values);
  }
}
