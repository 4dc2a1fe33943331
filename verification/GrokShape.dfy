/** What an expansion is, apart from the names of its groups (expandGrok in
    internal/pattern/compile.go): the pattern with every reference replaced by an opener, the expansion of
    what it refers to, and a closer. */
module GrokShape {
  import opened Base
  import opened FieldNames
  import opened Grok
  import opened GrokNames
  import opened GrokText

  /** A pattern's own definitions come before the primitives. */
  ghost predicate Defines(t: Tables, name: string, body: Pattern) {
    if name in t.extras then body == t.extras[name] else name in t.primitives && body == t.primitives[name]
  }

  lemma BodyIff(t: Tables, name: string, body: Pattern)
    ensures t.Body(name) == Some(body) <==> Defines(t, name, body)
    ensures t.Body(name).None? <==> name !in t.extras && name !in t.primitives
  {
  }

  function Nameless(o: Out): Out { if o.OpenNamed? then OpenNamed("") else o }

  /** An expansion with all names erased. */
  function Erased(out: seq<Out>): (r: seq<Out>)
    ensures |r| == |out|
  {
    seq(|out|, i requires 0 <= i < |out| => Nameless(out[i]))
  }

  /** A reference opens a named group exactly when it has a field. */
  function Opener(field: string): Out { if field == "" then OpenPlain else OpenNamed("") }

  /** `out`, free of names, is the pattern with its references replaced. */
  ghost predicate Spells(t: Tables, p: Pattern, out: seq<Out>)
    decreases |out|, |p|
  {
    if p == [] then out == []
    else exists k :: 0 <= k <= |out| && Spells(t, p[..|p| - 1], out[..k]) && SpellsTok(t, p[|p| - 1], out, k)
  }

  /** out[k..] is one token's stretch: a text or an opener as it stands, or the expansion of a definition
      between brackets. */
  ghost predicate SpellsTok(t: Tables, tok: Tok, out: seq<Out>, k: nat)
    requires k <= |out|
    decreases |out|, 0
  {
    match tok
    case Text(s) => out[k..] == [Raw(s)]
    case NamedGroup(_) => out[k..] == [OpenNamed("")]
    case Ref(name, field) =>
      && |out| >= k + 2 && out[k] == Opener(field) && out[|out| - 1] == Close
      && exists body :: Defines(t, name, body) && Spells(t, body, out[k + 1..|out| - 1])
  }

  lemma ErasedConcat(a: seq<Out>, b: seq<Out>)
    ensures Erased(a + b) == Erased(a) + Erased(b)
  {
  }

  lemma {:induction false} DedupErased(out: seq<Out>, used: Used)
    ensures Erased(Dedup(out, used).0) == Erased(out)
  {
    if out != [] {
      var n := |out| - 1;
      var (head, u) := Dedup(out[..n], used);
      DedupErased(out[..n], used);
      var last := if out[n].OpenNamed? then OpenNamed(UniqueName(out[n].name, u).0) else out[n];
      ErasedConcat(head, [last]);
      ErasedConcat(out[..n], [out[n]]);
      assert out == out[..n] + [out[n]];
    }
  }

  lemma GroupErased(e: Expansion, field: string)
    ensures Erased(GroupOf(e, field).0) == [Opener(field)] + Erased(e.out) + [Close]
  {
    DedupErased(e.out, e.used);
    var (out, u) := Dedup(e.out, e.used);
    var clean := SanitizeFieldName(field);
    var open := if clean == "" then OpenPlain else OpenNamed(UniqueName(clean, u).0);
    ErasedConcat([open] + out, [Close]);
    ErasedConcat([open], out);
  }

  lemma SpellsNext(t: Tables, p: Pattern, init: Pattern, tok: Tok, head: seq<Out>, tail: seq<Out>, out: seq<Out>)
    requires p == init + [tok] && out == head + tail
    requires Spells(t, init, head) && SpellsTok(t, tok, out, |head|)
    ensures Spells(t, p, out)
  {
    assert p[..|p| - 1] == init && out[..|head|] == head;
  }

  lemma SpellsRef(t: Tables, name: string, field: string, body: Pattern, head: seq<Out>, inner: seq<Out>)
    requires Defines(t, name, body) && Spells(t, body, inner)
    ensures SpellsTok(t, Ref(name, field), head + ([Opener(field)] + inner + [Close]), |head|)
  {
    var out := head + ([Opener(field)] + inner + [Close]);
    assert out[|head| + 1..|out| - 1] == inner;
  }

  lemma SpellsPlain(t: Tables, p: Pattern, init: Pattern, tok: Tok, r: seq<Out>, o: Out)
    requires p == init + [tok] && !tok.Ref? && Spells(t, init, Erased(r))
    requires o == if tok.Text? then Raw(tok.s) else OpenNamed(tok.name)
    ensures Spells(t, p, Erased(r + [o]))
  {
    ErasedConcat(r, [o]);
    assert Erased([o]) == [Nameless(o)];
    SpellsNext(t, p, init, tok, Erased(r), [Nameless(o)], Erased(r + [o]));
  }

  lemma SpellsReference(t: Tables, p: Pattern, init: Pattern, tok: Tok, body: Pattern, r: seq<Out>, e: Expansion)
    requires p == init + [tok] && tok.Ref? && Spells(t, init, Erased(r)) && t.Body(tok.name) == Some(body)
    requires Spells(t, body, Erased(e.out))
    ensures Spells(t, p, Erased(r + GroupOf(e, tok.field).0))
  {
    GroupErased(e, tok.field);
    ErasedConcat(r, GroupOf(e, tok.field).0);
    BodyIff(t, tok.name, body);
    SpellsRef(t, tok.name, tok.field, body, Erased(r), Erased(e.out));
    SpellsNext(t, p, init, tok, Erased(r), [Opener(tok.field)] + Erased(e.out) + [Close], Erased(r + GroupOf(e, tok.field).0));
  }

  ghost predicate ExpandsTo(t: Tables, p: Pattern, used: Used, depth: nat) {
    Spells(t, p, Erased(Expand(t, p, used, depth).out))
  }

  /** A successful expansion spells the pattern with its references replaced. */
  lemma {:induction false} ExpandSpells(t: Tables, p: Pattern, used: Used, depth: nat)
    requires Expand(t, p, used, depth).ok
    ensures ExpandsTo(t, p, used, depth)
    decreases MAX_DEPTH + 1 - depth, |p|, 1
  {
    if p != [] {
      var init, tok := p[..|p| - 1], p[|p| - 1];
      assert p == init + [tok];
      var r, next := Expand(t, init, used, depth), Expand(t, p, used, depth);
      ExpandNext(t, p, init, tok, used, depth, r, next);
      ExpandSpells(t, init, used, depth);
      if tok.Ref? {
        RefSpells(t, p, init, tok, used, depth, r, next);
      } else {
        SpellsPlain(t, p, init, tok, r.out, if tok.Text? then Raw(tok.s) else OpenNamed(tok.name));
      }
    }
  }

  lemma {:induction false} RefSpells(t: Tables, p: Pattern, init: Pattern, tok: Tok, used: Used, depth: nat, r: Expansion,
                                     next: Expansion)
    requires p == init + [tok] && tok.Ref? && depth < MAX_DEPTH && t.Body(tok.name).Some?
    requires RefersTo(r, Expand(t, t.Body(tok.name).value, r.used, depth + 1), tok.field, next)
    requires Spells(t, init, Erased(r.out))
    ensures Spells(t, p, Erased(next.out))
    decreases MAX_DEPTH + 1 - depth, |p|, 0
  {
    var body := t.Body(tok.name).value;
    ExpandSpells(t, body, r.used, depth + 1);
    SpellsReference(t, p, init, tok, body, r.out, Expand(t, body, r.used, depth + 1));
  }

  /** There is only one such spelling, so it determines the expansion up to the names. */
  lemma {:induction false} SpellingUnique(t: Tables, p: Pattern, a: seq<Out>, b: seq<Out>)
    requires Spells(t, p, a) && Spells(t, p, b)
    ensures a == b
    decreases |a|, |p|, 1
  {
    if p != [] {
      var init, tok := p[..|p| - 1], p[|p| - 1];
      var j :| 0 <= j <= |a| && Spells(t, init, a[..j]) && SpellsTok(t, tok, a, j);
      var k :| 0 <= k <= |b| && Spells(t, init, b[..k]) && SpellsTok(t, tok, b, k);
      SpellingUnique(t, init, a[..j], b[..k]);
      assert a == a[..j] + a[j..] && b == b[..k] + b[k..];
      if tok.Ref? { StretchUnique(t, p, tok, a, j, b, k); }
    }
  }

  lemma {:induction false} StretchUnique(t: Tables, p: Pattern, tok: Tok, a: seq<Out>, j: nat, b: seq<Out>, k: nat)
    requires tok.Ref? && j <= |a| && k <= |b| && SpellsTok(t, tok, a, j) && SpellsTok(t, tok, b, k)
    ensures a[j..] == b[k..]
    decreases |a|, |p|, 0
  {
    var x :| Defines(t, tok.name, x) && Spells(t, x, a[j + 1..|a| - 1]);
    var y :| Defines(t, tok.name, y) && Spells(t, y, b[k + 1..|b| - 1]);
    SpellingUnique(t, x, a[j + 1..|a| - 1], b[k + 1..|b| - 1]);
    Bracketed(a, j);
    Bracketed(b, k);
  }

  lemma Bracketed(out: seq<Out>, k: nat)
    requires k + 2 <= |out|
    ensures out[k..] == [out[k]] + out[k + 1..|out| - 1] + [out[|out| - 1]]
  {
  }

  /** What a successful expansion is, whatever names were in use before. */
  lemma ExpansionIs(t: Tables, p: Pattern, used: Used, depth: nat, out: seq<Out>)
    requires Expand(t, p, used, depth).ok
    ensures Spells(t, p, out) <==> out == Erased(Expand(t, p, used, depth).out)
  {
    ExpandSpells(t, p, used, depth);
    if Spells(t, p, out) { SpellingUnique(t, p, out, Erased(Expand(t, p, used, depth).out)); }
  }

  lemma ExpandText(t: Tables, s: string, used: Used, depth: nat)
    requires depth <= MAX_DEPTH
    ensures Expand(t, [Text(s)], used, depth) == Expansion(true, [Raw(s)], used)
  {
    assert [Text(s)][..0] == [];
    var none: seq<Out> := [];
    assert none + [Raw(s)] == [Raw(s)];
  }

  lemma ExpandReference(t: Tables, name: string, field: string, body: Pattern, e: Expansion)
    requires Defines(t, name, body) && e == Expand(t, body, map[], 1) && e.ok
    ensures Expand(t, [Ref(name, field)], map[], 0) == Expansion(true, GroupOf(e, field).0, GroupOf(e, field).1)
  {
    BodyIff(t, name, body);
    assert [Ref(name, field)][..0] == [];
    var none: seq<Out> := [];
    assert none + GroupOf(e, field).0 == GroupOf(e, field).0;
  }

  lemma TextGroup(s: string, field: string)
    ensures GroupOf(Expansion(true, [Raw(s)], map[]), field).0
         == [if field == "" then OpenPlain else OpenNamed(SanitizeFieldName(field)), Raw(s), Close]
  {
    var none: seq<Out>, inner := [], [Raw(s)];
    assert inner[..0] == none && Dedup(inner, map[]) == (none + [Raw(s)], map[]) && none + [Raw(s)] == inner;
    var open := if field == "" then OpenPlain else OpenNamed(SanitizeFieldName(field));
    assert GroupOf(Expansion(true, inner, map[]), field).0 == [open] + inner + [Close];
  }

  lemma RenderThree(a: Out, b: Out, c: Out)
    ensures Render([a, b, c]) == TextOf(a) + TextOf(b) + TextOf(c)
  {
    assert [a, b, c][..2] == [a, b] && [a, b][..1] == [a] && [a][..0] == [];
    assert Render([a]) == TextOf(a);
  }

  lemma ExpandTextReference(t: Tables, name: string, field: string, s: string)
    requires Defines(t, name, [Text(s)])
    ensures var e := Expand(t, [Ref(name, field)], map[], 0);
            e.ok && e.out == [if field == "" then OpenPlain else OpenNamed(SanitizeFieldName(field)), Raw(s), Close]
  {
    ExpandText(t, s, map[], 1);
    ExpandReference(t, name, field, [Text(s)], Expansion(true, [Raw(s)], map[]));
    TextGroup(s, field);
  }

  /** A reference to a definition that is one literal text expands to that text between brackets, named
      after the reference's field if it has one. */
  lemma TextReference(t: Tables, name: string, field: string, s: string)
    requires Defines(t, name, [Text(s)])
    ensures var e := Expand(t, [Ref(name, field)], map[], 0);
            e.ok && Render(e.out) == if field == "" then "(?:" + s + ")" else "(?P<" + SanitizeFieldName(field) + ">" + s + ")"
  {
    ExpandTextReference(t, name, field, s);
    RenderThree(if field == "" then OpenPlain else OpenNamed(SanitizeFieldName(field)), Raw(s), Close);
  }
}
