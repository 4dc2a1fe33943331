/** What an expansion looks like as text (expandGrok in internal/pattern/compile.go): no reference is
    left in it, and none comes about where pieces meet. */
module GrokText {
  import opened Base
  import opened FieldNames
  import opened Grok
  import opened GrokNames

  // ---------------------------------------------------------------------------
  // References in text
  // ---------------------------------------------------------------------------

  predicate IsFieldChar(c: char) { IsWordChar(c) || c == '.' || c == '@' || c == '-' }

  /** A character that can stand in a reference. */
  predicate InReference(c: char) { IsFieldChar(c) || c == '%' || c == '{' || c == ':' || c == '}' }

  predicate Word(s: string) { s != "" && forall k :: 0 <= k < |s| ==> IsWordChar(s[k]) }

  predicate FieldText(s: string) { s != "" && forall k :: 0 <= k < |s| ==> IsFieldChar(s[k]) }

  /** NAME, NAME:field or NAME:field:type. */
  ghost predicate IsBody(b: string) {
    || Word(b)
    || (exists name, field :: Word(name) && FieldText(field) && b == name + ":" + field)
    || (exists name, field, cast :: Word(name) && FieldText(field) && Word(cast) && b == name + ":" + field + ":" + cast)
  }

  ghost predicate IsReference(m: string) { exists b :: IsBody(b) && m == "%{" + b + "}" }

  /** Some stretch of the text is a reference. */
  ghost predicate Referring(s: string) { exists i, j :: 0 <= i <= j <= |s| && IsReference(s[i..j]) }

  ghost predicate AllInReference(s: string) { forall k :: 0 <= k < |s| ==> InReference(s[k]) }

  lemma BodyChars(b: string)
    requires IsBody(b)
    ensures AllInReference(b)
  {
  }

  lemma ReferenceChars(m: string)
    requires IsReference(m)
    ensures m != "" && m[0] == '%' && AllInReference(m)
  {
    var b :| IsBody(b) && m == "%{" + b + "}";
    BodyChars(b);
  }

  lemma NotReference(m: string, k: nat)
    requires m == "" || m[0] != '%' || (k < |m| && !InReference(m[k]))
    ensures !IsReference(m)
  {
    if IsReference(m) { ReferenceChars(m); }
  }

  lemma NoPercent(s: string)
    requires '%' !in s
    ensures !Referring(s)
  {
    forall i, j | 0 <= i <= j <= |s| ensures !IsReference(s[i..j]) {
      assert i < j ==> s[i..j][0] == s[i];
      NotReference(s[i..j], 0);
    }
  }

  /** Nothing that starts in s can be a reference that runs past its end. */
  ghost predicate Sealed(s: string) {
    forall i :: 0 <= i < |s| && s[i] == '%' ==> exists k :: i < k < |s| && !InReference(s[k])
  }

  lemma NotAcross(a: string, b: string, i: nat, j: nat)
    requires i < |a| < j <= |a| + |b| && (Sealed(a) || !InReference(b[0]))
    ensures !IsReference((a + b)[i..j])
  {
    var m := (a + b)[i..j];
    assert m[0] == a[i] && m[|a| - i] == b[0];
    if a[i] != '%' {
      NotReference(m, 0);
    } else if InReference(b[0]) {
      var k :| i < k < |a| && !InReference(a[k]);
      assert m[k - i] == a[k];
      NotReference(m, k - i);
    } else {
      NotReference(m, |a| - i);
    }
  }

  /** Where two texts meet no reference comes about, if the first is sealed or the second opens with a
      character no reference holds. */
  lemma NoneAcross(a: string, b: string)
    requires !Referring(a) && !Referring(b) && (Sealed(a) || (b != "" && !InReference(b[0])))
    ensures !Referring(a + b)
  {
    var s := a + b;
    forall i, j | 0 <= i <= j <= |s| ensures !IsReference(s[i..j]) {
      if j <= |a| {
        assert s[i..j] == a[i..j];
      } else if i >= |a| {
        assert s[i..j] == b[i - |a|..j - |a|];
      } else {
        NotAcross(a, b, i, j);
      }
    }
  }

  // ---------------------------------------------------------------------------
  // Expansions as text
  // ---------------------------------------------------------------------------

  function TextOf(o: Out): string {
    match o
    case Raw(s) => s
    case OpenNamed(name) => "(?P<" + name + ">"
    case OpenPlain => "(?:"
    case Close => ")"
  }

  function Render(out: seq<Out>): string { if out == [] then "" else Render(out[..|out| - 1]) + TextOf(out[|out| - 1]) }

  /** Literal pieces hold no reference and never stand side by side; group names hold no '%'. */
  ghost predicate Spaced(out: seq<Out>) {
    && (forall k :: 0 <= k < |out| ==> Clean(out[k]))
    && (forall j, k :: 0 <= j < k < |out| && k == j + 1 ==> !(out[j].Raw? && out[k].Raw?))
  }

  ghost predicate Clean(o: Out) { (o.Raw? ==> !Referring(o.s)) && (o.OpenNamed? ==> '%' !in o.name) }

  lemma BracketText(o: Out)
    requires Clean(o) && !o.Raw?
    ensures TextOf(o) != "" && !InReference(TextOf(o)[0]) && '%' !in TextOf(o) && !Referring(TextOf(o))
  {
    NoPercent(TextOf(o));
  }

  lemma SealedBy(a: string, b: string)
    requires b != "" && !InReference(b[0]) && '%' !in b
    ensures Sealed(a + b)
  {
    var s := a + b;
    assert s[|a|] == b[0] && forall i :: |a| <= i < |s| ==> s[i] == b[i - |a|] && s[i] in b;
  }

  lemma {:induction false} RenderSpaced(out: seq<Out>)
    requires Spaced(out)
    ensures !Referring(Render(out)) && (out == [] || !out[|out| - 1].Raw? ==> Sealed(Render(out)))
  {
    if out == [] {
      NoPercent("");
    } else {
      var init, last := out[..|out| - 1], out[|out| - 1];
      RenderSpaced(init);
      if last.Raw? {
        assert init == [] || !init[|init| - 1].Raw?;
        NoneAcross(Render(init), last.s);
      } else {
        BracketText(last);
        NoneAcross(Render(init), TextOf(last));
        SealedBy(Render(init), TextOf(last));
      }
    }
  }

  // ---------------------------------------------------------------------------
  // Expansion
  // ---------------------------------------------------------------------------

  /** What cutting a text at its references and named-group openers yields: literal stretches hold no
      reference and are maximal, group names are words. */
  ghost predicate Tokenised(p: Pattern) {
    && (forall k :: 0 <= k < |p| ==> CleanTok(p[k]))
    && (forall j, k :: 0 <= j < k < |p| && k == j + 1 ==> !(p[j].Text? && p[k].Text?))
  }

  ghost predicate CleanTok(tok: Tok) {
    (tok.Text? ==> !Referring(tok.s)) && (tok.NamedGroup? ==> '%' !in tok.name)
  }

  ghost predicate TokenisedTables(t: Tables) { forall name :: t.Body(name).Some? ==> Tokenised(t.Body(name).value) }

  lemma SpacedConcat(a: seq<Out>, b: seq<Out>)
    requires Spaced(a) && Spaced(b) && (a == [] || b == [] || !a[|a| - 1].Raw? || !b[0].Raw?)
    ensures Spaced(a + b)
  {
    var s := a + b;
    forall j, k | 0 <= j < k < |s| && k == j + 1 ensures !(s[j].Raw? && s[k].Raw?) {
      if k < |a| {
        assert s[j] == a[j] && s[k] == a[k];
      } else if j >= |a| {
        assert s[j] == b[j - |a|] && s[k] == b[k - |a|];
      } else {
        assert s[j] == a[|a| - 1] && s[k] == b[0];
      }
    }
  }

  lemma UniqueNameClean(name: string, used: Used)
    requires '%' !in name
    ensures '%' !in UniqueName(name, used).0
  {
    var n := Uses(used, name);
    if n > 0 {
      var d := Decimal(n + 1);
      forall k | 0 <= k < |d| ensures d[k] != '%' { assert IsDigit(d[k]); }
    }
  }

  lemma {:induction false} DedupSpaced(out: seq<Out>, used: Used)
    requires Spaced(out)
    ensures Spaced(Dedup(out, used).0) && SameButNames(out, Dedup(out, used).0)
  {
    if out != [] {
      var n := |out| - 1;
      var (head, u) := Dedup(out[..n], used);
      DedupSpaced(out[..n], used);
      if out[n].OpenNamed? { UniqueNameClean(out[n].name, u); }
      var last := if out[n].OpenNamed? then OpenNamed(UniqueName(out[n].name, u).0) else out[n];
      assert Clean(last);
      SpacedConcat(head, [last]);
    }
  }

  /** A reference's expansion stands between brackets. */
  lemma GroupSpaced(e: Expansion, field: string)
    requires Spaced(e.out)
    ensures var group := GroupOf(e, field).0;
            Spaced(group) && group != [] && !group[0].Raw? && group[|group| - 1] == Close
  {
    DedupSpaced(e.out, e.used);
    var (out, u) := Dedup(e.out, e.used);
    var clean := SanitizeFieldName(field);
    if clean != "" { UniqueNameClean(clean, u); }
    var open := if clean == "" then OpenPlain else OpenNamed(UniqueName(clean, u).0);
    SpacedConcat([open], out);
    SpacedConcat([open] + out, [Close]);
  }

  /** Spaced, and ending in literal text only where the pattern does. */
  ghost predicate SpacedAfter(out: seq<Out>, text: bool) {
    Spaced(out) && (out != [] && out[|out| - 1].Raw? ==> text)
  }

  predicate EndsInText(p: Pattern) { p != [] && p[|p| - 1].Text? }

  lemma AfterText(out: seq<Out>, s: string, next: seq<Out>)
    requires SpacedAfter(out, false) && !Referring(s) && next == out + [Raw(s)]
    ensures SpacedAfter(next, true)
  {
    SpacedConcat(out, [Raw(s)]);
  }

  lemma AfterBrackets(out: seq<Out>, group: seq<Out>, next: seq<Out>)
    requires Spaced(out) && Spaced(group) && group != [] && !group[0].Raw? && !group[|group| - 1].Raw?
    requires next == out + group
    ensures SpacedAfter(next, false)
  {
    SpacedConcat(out, group);
  }

  lemma AfterReference(out: seq<Out>, e: Expansion, field: string, next: seq<Out>)
    requires Spaced(out) && Spaced(e.out) && next == out + GroupOf(e, field).0
    ensures SpacedAfter(next, false)
  {
    GroupSpaced(e, field);
    AfterBrackets(out, GroupOf(e, field).0, next);
  }

  ghost predicate Expands(t: Tables, p: Pattern, used: Used, depth: nat) {
    Tokenised(p) && Expand(t, p, used, depth).ok
  }

  ghost predicate ExpandsSpaced(t: Tables, p: Pattern, used: Used, depth: nat) {
    SpacedAfter(Expand(t, p, used, depth).out, EndsInText(p))
  }

  lemma ExpandsInit(t: Tables, p: Pattern, init: Pattern, used: Used, depth: nat)
    requires Expands(t, p, used, depth) && p != [] && init == p[..|p| - 1]
    ensures Expands(t, init, used, depth)
  {
  }

  lemma ExpandsBody(t: Tables, p: Pattern, r: Expansion, used: Used, depth: nat)
    requires TokenisedTables(t) && Expands(t, p, used, depth) && p != [] && p[|p| - 1].Ref?
    requires r == Expand(t, p[..|p| - 1], used, depth)
    ensures depth < MAX_DEPTH && t.Body(p[|p| - 1].name).Some?
    ensures Expands(t, t.Body(p[|p| - 1].name).value, r.used, depth + 1)
  {
    var body := t.Body(p[|p| - 1].name);
    assert body.Some?;
    var e := Expand(t, body.value, r.used, depth + 1);
    assert depth + 1 > MAX_DEPTH ==> !e.ok;
  }

  lemma ExpandOther(t: Tables, p: Pattern, init: Pattern, used: Used, depth: nat)
    requires Expands(t, p, used, depth) && p != [] && !p[|p| - 1].Ref? && init == p[..|p| - 1]
    requires ExpandsSpaced(t, init, used, depth)
    ensures ExpandsSpaced(t, p, used, depth)
  {
    var r, next, last := Expand(t, init, used, depth), Expand(t, p, used, depth).out, p[|p| - 1];
    assert CleanTok(last);
    if last.Text? { AfterText(r.out, last.s, next); } else { AfterBrackets(r.out, [OpenNamed(last.name)], next); }
  }

  lemma ExpandRef(t: Tables, p: Pattern, r: Expansion, body: Pattern, used: Used, depth: nat)
    requires p != [] && p[|p| - 1].Ref? && Expand(t, p, used, depth).ok
    requires r == Expand(t, p[..|p| - 1], used, depth) && t.Body(p[|p| - 1].name) == Some(body)
    requires Spaced(r.out) && ExpandsSpaced(t, body, r.used, depth + 1)
    ensures ExpandsSpaced(t, p, used, depth)
  {
    AfterReference(r.out, Expand(t, body, r.used, depth + 1), p[|p| - 1].field, Expand(t, p, used, depth).out);
  }

  lemma {:induction false} ExpandSpaced(t: Tables, p: Pattern, used: Used, depth: nat)
    requires TokenisedTables(t) && Expands(t, p, used, depth)
    ensures ExpandsSpaced(t, p, used, depth)
    decreases MAX_DEPTH + 1 - depth, |p|, 1
  {
    if p != [] {
      var init := p[..|p| - 1];
      ExpandsInit(t, p, init, used, depth);
      ExpandSpaced(t, init, used, depth);
      if p[|p| - 1].Ref? { ReferenceSpaced(t, p, init, used, depth); } else { ExpandOther(t, p, init, used, depth); }
    }
  }

  lemma {:induction false} ReferenceSpaced(t: Tables, p: Pattern, init: Pattern, used: Used, depth: nat)
    requires TokenisedTables(t) && Expands(t, p, used, depth) && p != [] && p[|p| - 1].Ref? && init == p[..|p| - 1]
    requires ExpandsSpaced(t, init, used, depth)
    ensures ExpandsSpaced(t, p, used, depth)
    decreases MAX_DEPTH + 1 - depth, |p|, 0
  {
    var r := Expand(t, init, used, depth);
    ExpandsBody(t, p, r, used, depth);
    var body := t.Body(p[|p| - 1].name).value;
    ExpandSpaced(t, body, r.used, depth + 1);
    ExpandRef(t, p, r, body, used, depth);
  }

  /** A successful expansion leaves no reference in its text, not even one made up of the end of one
      piece and the start of the next. */
  lemma NoReferenceLeft(t: Tables, p: Pattern, used: Used)
    requires TokenisedTables(t) && Expands(t, p, used, 0)
    ensures !Referring(Render(Expand(t, p, used, 0).out))
  {
    ExpandSpaced(t, p, used, 0);
    RenderSpaced(Expand(t, p, used, 0).out);
  }
}
