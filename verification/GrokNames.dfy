/** How the named groups of an expansion come to their names (uniqueName and dedupNamedGroups in
    internal/pattern/compile.go). */
module GrokNames {
  import opened Base
  import opened FieldNames
  import opened Grok

  // ---------------------------------------------------------------------------
  // The names of the groups
  // ---------------------------------------------------------------------------

  /** Names of the groups an expansion opens, in order. */
  function Groups(out: seq<Out>): seq<string> {
    if out == [] then []
    else
      var n := |out| - 1;
      Groups(out[..n]) + if out[n].OpenNamed? then [out[n].name] else []
  }

  lemma {:induction false} GroupsConcat(a: seq<Out>, b: seq<Out>)
    ensures Groups(a + b) == Groups(a) + Groups(b)
  {
    if b == [] {
      assert a + b == a;
    } else {
      var n := |b| - 1;
      assert (a + b)[..|a| + n] == a + b[..n];
      GroupsConcat(a, b[..n]);
    }
  }

  lemma {:induction false} DedupQuiet(out: seq<Out>, used: Used)
    requires Groups(out) == []
    ensures Dedup(out, used) == (out, used)
  {
    if out != [] {
      DedupQuiet(out[..|out| - 1], used);
      assert out == out[..|out| - 1] + [out[|out| - 1]];
    }
  }

  /** Deduplication gives the named groups of a body the names uniqueName hands out for them, after
      those handed out for `fields` before, and changes nothing else. */
  lemma {:induction false} DedupNames(out: seq<Out>, used: Used, fields: seq<string>)
    requires CountsOccurrences(used, fields)
    ensures Renames(fields, out, Dedup(out, used).0, Dedup(out, used).1)
  {
    if out == [] {
      assert fields + [] == fields;
    } else {
      var init, last := out[..|out| - 1], out[|out| - 1];
      var (head, u) := Dedup(init, used);
      DedupNames(init, used, fields);
      assert out == init + [last];
      if last.OpenNamed? { RenamesOpen(fields, init, head, u, last.name); } else { RenamesOther(fields, init, head, u, last); }
    }
  }

  /** The groups of `out` after `fields`, renamed as uniqueName names them. */
  ghost predicate Renames(fields: seq<string>, out: seq<Out>, renamed: seq<Out>, used: Used) {
    && Names(fields + Groups(out)) == Names(fields) + Groups(renamed)
    && CountsOccurrences(used, fields + Groups(out))
    && SameButNames(out, renamed)
  }

  lemma NamesGrow(fields: seq<string>, groups: seq<string>, renamed: seq<string>, u: Used, name: string)
    requires Names(fields + groups) == Names(fields) + renamed && CountsOccurrences(u, fields + groups)
    ensures Names(fields + (groups + [name])) == Names(fields) + (renamed + [UniqueName(name, u).0])
    ensures CountsOccurrences(UniqueName(name, u).1, fields + (groups + [name]))
  {
    UniqueNameIsNameAt(fields + groups, name, u);
    assert fields + (groups + [name]) == fields + groups + [name];
    assert Names(fields) + (renamed + [UniqueName(name, u).0]) == Names(fields) + renamed + [UniqueName(name, u).0];
  }

  lemma RenamesOpen(fields: seq<string>, init: seq<Out>, head: seq<Out>, u: Used, name: string)
    requires Renames(fields, init, head, u)
    ensures var (unique, u') := UniqueName(name, u);
            Renames(fields, init + [OpenNamed(name)], head + [OpenNamed(unique)], u')
  {
    GroupsAppend(init, OpenNamed(name));
    GroupsAppend(head, OpenNamed(UniqueName(name, u).0));
    NamesGrow(fields, Groups(init), Groups(head), u, name);
  }

  lemma RenamesOther(fields: seq<string>, init: seq<Out>, head: seq<Out>, u: Used, o: Out)
    requires Renames(fields, init, head, u) && !o.OpenNamed?
    ensures Renames(fields, init + [o], head + [o], u)
  {
    GroupsAppend(init, o);
    GroupsAppend(head, o);
  }

  lemma GroupsAppend(out: seq<Out>, o: Out)
    ensures Groups(out + [o]) == if o.OpenNamed? then Groups(out) + [o.name] else Groups(out)
  {
    assert (out + [o])[..|out|] == out;
  }

  predicate SameButNames(a: seq<Out>, b: seq<Out>) {
    |a| == |b| && forall k :: 0 <= k < |a| ==> a[k] == b[k] || (a[k].OpenNamed? && b[k].OpenNamed?)
  }

  lemma GroupsOne(o: Out)
    ensures Groups([o]) == if o.OpenNamed? then [o.name] else []
  {
    assert [o][..0] == [];
  }

  /** Around a quiet body, a reference opens at most its own group. */
  lemma GroupOfQuiet(e: Expansion, field: string)
    requires Groups(e.out) == []
    ensures var (group, u) := GroupOf(e, field);
            var clean := SanitizeFieldName(field);
            if clean == "" then Groups(group) == [] && u == e.used
            else Groups(group) == [UniqueName(clean, e.used).0] && u == UniqueName(clean, e.used).1
  {
    DedupQuiet(e.out, e.used);
    var clean := SanitizeFieldName(field);
    var open := if clean == "" then OpenPlain else OpenNamed(UniqueName(clean, e.used).0);
    GroupsConcat([open] + e.out, [Close]);
    GroupsConcat([open], e.out);
    GroupsOne(open);
    GroupsOne(Close);
  }

  lemma GroupsOfField(unique: string, out: seq<Out>)
    ensures Groups([OpenNamed(unique)] + out + [Close]) == [unique] + Groups(out)
  {
    GroupsAppend([OpenNamed(unique)] + out, Close);
    GroupsConcat([OpenNamed(unique)], out);
    GroupsOne(OpenNamed(unique));
  }

  /** A reference with a field: the groups inside it are named first, then its own, which opens
      before them. */
  lemma GroupOfNames(e: Expansion, field: string, fields: seq<string>)
    requires CountsOccurrences(e.used, fields) && SanitizeFieldName(field) != ""
    ensures var (group, u) := GroupOf(e, field);
            var requested := fields + Groups(e.out) + [SanitizeFieldName(field)];
            && Groups(group) != []
            && Names(requested) == Names(fields) + Groups(group)[1..] + [Groups(group)[0]]
            && CountsOccurrences(u, requested)
  {
    var (out, u) := Dedup(e.out, e.used);
    var clean := SanitizeFieldName(field);
    DedupNames(e.out, e.used, fields);
    UniqueNameIsNameAt(fields + Groups(e.out), clean, u);
    GroupsOfField(UniqueName(clean, u).0, out);
  }

  /** Opens no group and has used no name. */
  ghost predicate Silent(e: Expansion, used: Used) { Groups(e.out) == [] && e.used == used }

  lemma SilentReference(out: seq<Out>, e: Expansion, used: Used)
    requires Groups(out) == [] && Silent(e, used)
    ensures Groups(out + GroupOf(e, "").0) == [] && GroupOf(e, "").1 == used
  {
    GroupOfQuiet(e, "");
    GroupsConcat(out, GroupOf(e, "").0);
  }

  /** The sanitised fields of a pattern's references, in order. */
  function Fields(p: Pattern): seq<string> {
    if p == [] then []
    else
      var n := |p| - 1;
      Fields(p[..n]) + if p[n].Ref? && SanitizeFieldName(p[n].field) != "" then [SanitizeFieldName(p[n].field)] else []
  }

  ghost predicate CountsOccurrences(used: Used, fields: seq<string>) {
    forall f :: Uses(used, f) == Occurrences(fields, f)
  }

  lemma UniqueNameIsNameAt(fields: seq<string>, f: string, used: Used)
    requires CountsOccurrences(used, fields)
    ensures Names(fields + [f]) == Names(fields) + [UniqueName(f, used).0]
    ensures CountsOccurrences(UniqueName(f, used).1, fields + [f])
  {
    var more := fields + [f];
    assert more[..|fields|] == fields;
    forall i | 0 <= i < |fields| ensures NameAt(more, i) == NameAt(fields, i) {
      assert more[..i] == fields[..i];
    }
  }

  /** The groups so far are the names of the fields so far, and the counters agree. */
  ghost predicate NamesSoFar(e: Expansion, fields: seq<string>) {
    Groups(e.out) == Names(fields) && CountsOccurrences(e.used, fields)
  }

  lemma FieldsAppend(p: Pattern, tok: Tok)
    ensures Fields(p + [tok])
         == Fields(p) + if tok.Ref? && SanitizeFieldName(tok.field) != "" then [SanitizeFieldName(tok.field)] else []
  {
    assert (p + [tok])[..|p|] == p;
  }

  lemma AddText(r: Expansion, fields: seq<string>, s: string)
    requires NamesSoFar(r, fields)
    ensures NamesSoFar(r.(out := r.out + [Raw(s)]), fields)
  {
    GroupsAppend(r.out, Raw(s));
  }

  // ---------------------------------------------------------------------------
  // The groups a pattern opens
  // ---------------------------------------------------------------------------

  /** A group as it is spelled where it is opened, and how often uniqueName is asked to name it. */
  datatype Naming = Naming(name: string, times: nat)

  function Again(ns: seq<Naming>, k: nat): (r: seq<Naming>)
    ensures |r| == |ns|
  {
    seq(|ns|, i requires 0 <= i < |ns| => Naming(ns[i].name, ns[i].times + k))
  }

  /** The groups an expansion opens, in order. A reference names the groups of its body once more, and
      the group of its own field for the first time. */
  function Opened(t: Tables, p: Pattern, depth: nat): seq<Naming>
    decreases MAX_DEPTH + 1 - depth, |p| + 1
  {
    if depth > MAX_DEPTH || p == [] then []
    else Opened(t, p[..|p| - 1], depth) + OpenedBy(t, p[|p| - 1], depth)
  }

  function OpenedBy(t: Tables, tok: Tok, depth: nat): seq<Naming>
    requires depth <= MAX_DEPTH
    decreases MAX_DEPTH + 1 - depth, 0
  {
    match tok
    case Text(_) => []
    case NamedGroup(name) => [Naming(name, 0)]
    case Ref(name, field) =>
      OwnGroup(field) + if t.Body(name).Some? then Again(Opened(t, t.Body(name).value, depth + 1), 1) else []
  }

  function OwnGroup(field: string): seq<Naming> {
    if SanitizeFieldName(field) == "" then [] else [Naming(SanitizeFieldName(field), 1)]
  }

  lemma OpenedNext(t: Tables, p: Pattern, init: Pattern, tok: Tok, depth: nat)
    requires p == init + [tok] && depth <= MAX_DEPTH
    ensures Opened(t, p, depth) == Opened(t, init, depth) + OpenedBy(t, tok, depth)
  {
    assert p[..|p| - 1] == init;
  }

  lemma ExpandNext(t: Tables, p: Pattern, init: Pattern, tok: Tok, used: Used, depth: nat, r: Expansion, next: Expansion)
    requires p == init + [tok] && r == Expand(t, init, used, depth) && next == Expand(t, p, used, depth) && next.ok
    ensures depth <= MAX_DEPTH && r.ok
    ensures tok.Text? ==> next == Expansion(true, r.out + [Raw(tok.s)], r.used)
    ensures tok.NamedGroup? ==> next == Expansion(true, r.out + [OpenNamed(tok.name)], r.used)
    ensures tok.Ref? ==> depth < MAX_DEPTH && t.Body(tok.name).Some?
                         && RefersTo(r, Expand(t, t.Body(tok.name).value, r.used, depth + 1), tok.field, next)
  {
    assert p[..|p| - 1] == init;
  }

  /** One more reference, whose body expanded to e. */
  predicate RefersTo(r: Expansion, e: Expansion, field: string, next: Expansion) {
    e.ok && next == Expansion(true, r.out + GroupOf(e, field).0, GroupOf(e, field).1)
  }

  /** A pattern that opens no group names none. */
  lemma {:induction false} ExpandSilent(t: Tables, p: Pattern, used: Used, depth: nat)
    requires Opened(t, p, depth) == [] && Expand(t, p, used, depth).ok
    ensures Silent(Expand(t, p, used, depth), used)
    decreases MAX_DEPTH + 1 - depth, |p|, 1
  {
    if p != [] {
      var init, tok := p[..|p| - 1], p[|p| - 1];
      assert p == init + [tok];
      var r, next := Expand(t, init, used, depth), Expand(t, p, used, depth);
      ExpandNext(t, p, init, tok, used, depth, r, next);
      OpenedNext(t, p, init, tok, depth);
      ExpandSilent(t, init, used, depth);
      if tok.Text? { GroupsAppend(r.out, Raw(tok.s)); } else { SilentRef(t, p, tok, r, next, used, depth); }
    }
  }

  lemma {:induction false} SilentRef(t: Tables, p: Pattern, tok: Tok, r: Expansion, next: Expansion, used: Used, depth: nat)
    requires depth < MAX_DEPTH && tok.Ref? && OpenedBy(t, tok, depth) == [] && t.Body(tok.name).Some?
    requires RefersTo(r, Expand(t, t.Body(tok.name).value, r.used, depth + 1), tok.field, next) && Silent(r, used)
    ensures Silent(next, used)
    decreases MAX_DEPTH + 1 - depth, |p|, 0
  {
    var body := t.Body(tok.name).value;
    assert |Again(Opened(t, body, depth + 1), 1)| == 0;
    ExpandSilent(t, body, r.used, depth + 1);
    SilentReference(r.out, Expand(t, body, r.used, depth + 1), used);
  }

  /** Only the pattern itself opens groups, and only through the fields of its references. What other
      definitions the tables hold does not matter. */
  ghost predicate Flat(t: Tables, p: Pattern, depth: nat) {
    forall k :: 0 <= k < |p| ==>
      !p[k].NamedGroup? && (p[k].Ref? && t.Body(p[k].name).Some? ==> Opened(t, t.Body(p[k].name).value, depth + 1) == [])
  }

  lemma FlatInit(t: Tables, p: Pattern, init: Pattern, tok: Tok, depth: nat)
    requires Flat(t, p, depth) && p == init + [tok]
    ensures Flat(t, init, depth) && !tok.NamedGroup?
    ensures tok.Ref? && t.Body(tok.name).Some? ==> Opened(t, t.Body(tok.name).value, depth + 1) == []
  {
    assert p[|init|] == tok && forall k :: 0 <= k < |init| ==> init[k] == p[k];
  }

  lemma FlatNext(t: Tables, tok: Tok, fields: seq<string>, more: seq<string>, r: Expansion, next: Expansion, depth: nat)
    requires NamesSoFar(r, fields) && !tok.NamedGroup?
    requires more == fields + if tok.Ref? && SanitizeFieldName(tok.field) != "" then [SanitizeFieldName(tok.field)] else []
    requires tok.Text? ==> next == Expansion(true, r.out + [Raw(tok.s)], r.used)
    requires tok.Ref? ==> t.Body(tok.name).Some? && Opened(t, t.Body(tok.name).value, depth + 1) == []
                          && RefersTo(r, Expand(t, t.Body(tok.name).value, r.used, depth + 1), tok.field, next)
    ensures NamesSoFar(next, more)
  {
    if tok.Text? {
      assert more == fields;
      AddText(r, fields, tok.s);
    } else {
      var body := t.Body(tok.name).value;
      ExpandSilent(t, body, r.used, depth + 1);
      AddReference(r, fields, Expand(t, body, r.used, depth + 1), tok.field, next, more);
    }
  }

  lemma {:induction false} FlatNames(t: Tables, p: Pattern, used: Used, depth: nat)
    requires used == map[] && Flat(t, p, depth) && Expand(t, p, used, depth).ok
    ensures NamesSoFar(Expand(t, p, used, depth), Fields(p))
    decreases |p|
  {
    if p != [] {
      var init, tok := p[..|p| - 1], p[|p| - 1];
      assert p == init + [tok];
      var r, next := Expand(t, init, used, depth), Expand(t, p, used, depth);
      ExpandNext(t, p, init, tok, used, depth, r, next);
      FlatInit(t, p, init, tok, depth);
      FlatNames(t, init, used, depth);
      FieldsAppend(init, tok);
      FlatNext(t, tok, Fields(init), Fields(p), r, next, depth);
    }
  }

  /** The groups of a flat pattern are named after its fields, repeated ones by occurrence number. */
  lemma GroupsAreNames(t: Tables, p: Pattern, depth: nat)
    requires Flat(t, p, depth) && Expand(t, p, map[], depth).ok
    ensures NamesSoFar(Expand(t, p, map[], depth), Fields(p))
  {
    FlatNames(t, p, map[], depth);
  }

  /** One more reference around a body that opens no group and uses no name. */
  lemma AddReference(r: Expansion, fields: seq<string>, e: Expansion, field: string, next: Expansion, more: seq<string>)
    requires NamesSoFar(r, fields) && Silent(e, r.used)
    requires next.out == r.out + GroupOf(e, field).0 && next.used == GroupOf(e, field).1
    requires more == fields + if SanitizeFieldName(field) != "" then [SanitizeFieldName(field)] else []
    ensures NamesSoFar(next, more)
  {
    GroupOfQuiet(e, field);
    GroupsConcat(r.out, GroupOf(e, field).0);
    if SanitizeFieldName(field) == "" {
      assert more == fields;
    } else {
      UniqueNameIsNameAt(fields, SanitizeFieldName(field), r.used);
    }
  }

  /** A flat pattern that expands gets pairwise distinct group names exactly when no field clashes with a
      made-up name. */
  lemma GroupsDistinctIff(t: Tables, p: Pattern)
    requires Flat(t, p, 0) && Expand(t, p, map[], 0).ok
    ensures Distinct(Groups(Expand(t, p, map[], 0).out)) <==> NoClash(Fields(p))
  {
    GroupsAreNames(t, p, 0);
    NamesDistinctIff(Fields(p));
  }

  // ---------------------------------------------------------------------------
  // Groups that definitions open
  // ---------------------------------------------------------------------------

  /** n followed by k copies of "_2". */
  function Twos(n: string, k: nat): string { if k == 0 then n else Suffixed(Twos(n, k - 1), 2) }

  /** The counters after the group has been named d times over. */
  function UsedAfter(n: string, d: nat): Used {
    if d == 0 then map[] else UniqueName(Twos(n, (d - 1) / 2), UsedAfter(n, d - 1)).1
  }

  lemma {:induction false} TwosLonger(n: string, j: nat, k: nat)
    requires j < k
    ensures |Twos(n, j)| < |Twos(n, k)|
  {
    LongerThan(Twos(n, k - 1), 2);
    assert |Suffixed(Twos(n, k - 1), 2)| > |Twos(n, k - 1)|;
    if j < k - 1 { TwosLonger(n, j, k - 1); }
  }

  /** After d rounds the name in force has been used once if d is odd and not at all if d is even, and
      no longer name has been used. */
  ghost predicate Rounds(n: string, d: nat) {
    && Uses(UsedAfter(n, d), Twos(n, d / 2)) == d % 2
    && forall f :: Uses(UsedAfter(n, d), f) > 0 ==> |f| <= |Twos(n, d / 2)|
  }

  lemma NextRound(n: string, d: nat)
    requires Rounds(n, d)
    ensures UniqueName(Twos(n, d / 2), UsedAfter(n, d)) == (Twos(n, (d + 1) / 2), UsedAfter(n, d + 1))
    ensures Rounds(n, d + 1)
  {
    var name, u, u' := Twos(n, d / 2), UsedAfter(n, d), UsedAfter(n, d + 1);
    assert u' == UniqueName(name, u).1;
    if d % 2 == 1 {
      assert (d + 1) / 2 == d / 2 + 1;
      TwosLonger(n, d / 2, d / 2 + 1);
      assert Uses(u, Twos(n, d / 2 + 1)) == 0;
    } else {
      assert (d + 1) / 2 == d / 2;
    }
  }

  lemma {:induction false} RoundsHold(n: string, d: nat)
    ensures Rounds(n, d)
  {
    if d > 0 {
      RoundsHold(n, d - 1);
      NextRound(n, d - 1);
    }
  }

  /** A name without the "_2"s it ends in. */
  function Stem(name: string): (stem: string)
    ensures |stem| <= |name|
  {
    if |name| >= 2 && name[|name| - 2..] == "_2" then Stem(name[..|name| - 2]) else name
  }

  lemma StemOfSuffixed(n: string)
    ensures Stem(Suffixed(n, 2)) == Stem(n)
  {
    var s := Suffixed(n, 2);
    assert Decimal(2) == "2";
    assert s == n + "_2" && s[..|s| - 2] == n && s[|s| - 2..] == "_2";
  }

  lemma {:induction false} StemOfTwos(n: string, k: nat)
    ensures Stem(Twos(n, k)) == Stem(n)
  {
    if k > 0 {
      StemOfSuffixed(Twos(n, k - 1));
      StemOfTwos(n, k - 1);
    }
  }

  lemma {:induction false} UsedStem(n: string, d: nat, f: string)
    requires Uses(UsedAfter(n, d), f) > 0
    ensures Stem(f) == Stem(n)
  {
    StemOfTwos(n, (d - 1) / 2);
    if f != Twos(n, (d - 1) / 2) { UsedStem(n, d - 1, f); }
  }

  /** The name a group comes out with. */
  function Final(x: Naming): string { Twos(x.name, x.times / 2) }

  function Finals(ns: seq<Naming>): (r: seq<string>)
    ensures |r| == |ns|
  {
    seq(|ns|, i requires 0 <= i < |ns| => Final(ns[i]))
  }

  /** No two groups are spelled alike, up to trailing "_2"s. */
  predicate Apart(ns: seq<Naming>) {
    forall i, j :: 0 <= i < j < |ns| ==> Stem(ns[i].name) != Stem(ns[j].name)
  }

  ghost predicate Clear(ns: seq<Naming>, more: seq<Naming>) {
    forall x, y :: x in ns && y in more ==> Stem(x.name) != Stem(y.name)
  }

  ghost predicate Among(ns: seq<Naming>, stem: string) { exists x :: x in ns && Stem(x.name) == stem }

  /** For names like x's the counters are as if x were the only group. */
  ghost predicate Agrees(used: Used, x: Naming) {
    forall f :: Stem(f) == Stem(x.name) ==> Uses(used, f) == Uses(UsedAfter(x.name, x.times), f)
  }

  /** The counters after the groups ns have been named. */
  ghost predicate Counted(used: Used, ns: seq<Naming>) {
    && (forall x :: x in ns ==> Agrees(used, x))
    && (forall f :: Uses(used, f) > 0 ==> Among(ns, Stem(f)))
  }

  /** Only which groups have been named matters. */
  lemma SameCounted(used: Used, ns: seq<Naming>, others: seq<Naming>)
    requires Counted(used, ns) && forall x :: x in ns <==> x in others
    ensures Counted(used, others)
  {
    forall f | Uses(used, f) > 0 ensures Among(others, Stem(f)) {
      var x :| x in ns && Stem(x.name) == Stem(f);
      assert x in others;
    }
  }

  lemma NextAgrees(used: Used, x: Naming, y: Naming)
    requires Agrees(used, x) && y == Naming(x.name, x.times + 1)
    ensures UniqueName(Final(x), used).0 == Final(y) && Agrees(UniqueName(Final(x), used).1, y)
  {
    RoundsHold(x.name, x.times);
    NextRound(x.name, x.times);
    StemOfTwos(x.name, x.times / 2);
    SameUses(used, UsedAfter(x.name, x.times), Final(x));
    forall f | Stem(f) == Stem(x.name)
      ensures Uses(UniqueName(Final(x), used).1, f) == Uses(UsedAfter(y.name, y.times), f)
    {
      assert Uses(used, f) == Uses(UsedAfter(x.name, x.times), f);
    }
  }

  /** What uniqueName does depends on one counter and moves one counter. */
  lemma SameUses(used: Used, other: Used, f: string)
    requires Uses(used, f) == Uses(other, f)
    ensures UniqueName(f, used).0 == UniqueName(f, other).0
    ensures forall g :: Uses(used, g) == Uses(other, g) ==> Uses(UniqueName(f, used).1, g) == Uses(UniqueName(f, other).1, g)
  {
  }

  lemma OtherAgrees(used: Used, name: string, x: Naming)
    requires Agrees(used, x) && Stem(name) != Stem(x.name)
    ensures Agrees(UniqueName(name, used).1, x)
  {
  }

  /** Naming one group once more. */
  lemma NameOnce(used: Used, ns: seq<Naming>, x: Naming, y: Naming)
    requires Counted(used, ns + [x]) && Clear(ns, [x]) && y == Naming(x.name, x.times + 1)
    ensures UniqueName(Final(x), used).0 == Final(y) && Counted(UniqueName(Final(x), used).1, ns + [y])
  {
    var u := UniqueName(Final(x), used).1;
    assert x in ns + [x];
    NextAgrees(used, x, y);
    StemOfTwos(x.name, x.times / 2);
    forall z | z in ns + [y] ensures Agrees(u, z) {
      if z in ns {
        assert z in ns + [x] && x in [x];
        OtherAgrees(used, Final(x), z);
      }
    }
    forall f | Uses(u, f) > 0 ensures Among(ns + [y], Stem(f)) {
      if f == Final(x) {
        assert y in ns + [y];
      } else {
        var z :| z in ns + [x] && Stem(z.name) == Stem(f);
        assert (if z == x then y else z) in ns + [y];
      }
    }
  }

  /** A group not heard of before. */
  lemma NameFirst(used: Used, ns: seq<Naming>, name: string)
    requires Counted(used, ns) && Clear(ns, [Naming(name, 0)])
    ensures UniqueName(name, used).0 == name && Counted(UniqueName(name, used).1, ns + [Naming(name, 1)])
  {
    var x := Naming(name, 0);
    Unheard(used, ns, x);
    NameOnce(used, ns, x, Naming(name, 1));
  }

  lemma Unheard(used: Used, ns: seq<Naming>, x: Naming)
    requires Counted(used, ns) && Clear(ns, [x]) && x.times == 0
    ensures Counted(used, ns + [x])
  {
    assert x in [x];
    assert !Among(ns, Stem(x.name));
    forall f | Uses(used, f) > 0 ensures Among(ns + [x], Stem(f)) {
      var z :| z in ns && Stem(z.name) == Stem(f);
      assert z in ns + [x];
    }
  }

  /** The expansion opened the groups `more`, after `ns`. */
  ghost predicate Named(out: seq<Out>, used: Used, ns: seq<Naming>, more: seq<Naming>) {
    Groups(out) == Finals(more) && Counted(used, ns + more)
  }

  lemma FinalsConcat(a: seq<Naming>, b: seq<Naming>)
    ensures Finals(a + b) == Finals(a) + Finals(b)
  {
  }

  lemma AgainNext(ns: seq<Naming>, x: Naming, k: nat)
    ensures Again(ns + [x], k) == Again(ns, k) + [Naming(x.name, x.times + k)]
  {
  }

  lemma DedupOpen(out: seq<Out>, used: Used, name: string)
    ensures var (head, u) := Dedup(out, used);
            Dedup(out + [OpenNamed(name)], used) == (head + [OpenNamed(UniqueName(name, u).0)], UniqueName(name, u).1)
  {
    assert (out + [OpenNamed(name)])[..|out|] == out;
  }

  lemma DedupOther(out: seq<Out>, used: Used, o: Out)
    requires !o.OpenNamed?
    ensures Dedup(out + [o], used) == (Dedup(out, used).0 + [o], Dedup(out, used).1)
  {
    assert (out + [o])[..|out|] == out;
  }

  lemma LastFinal(groups: seq<string>, name: string, fewer: seq<Naming>, x: Naming)
    requires groups + [name] == Finals(fewer + [x])
    ensures groups == Finals(fewer) && name == Final(x)
  {
    FinalsConcat(fewer, [x]);
    assert Finals([x]) == [Final(x)];
    assert Finals(fewer + [x])[..|fewer|] == Finals(fewer) && (groups + [name])[..|groups|] == groups;
  }

  /** One group of a body named once more, after the groups before it. */
  lemma AgainOpen(head: seq<Out>, u: Used, ns: seq<Naming>, fewer: seq<Naming>, x: Naming)
    requires Named(head, u, ns + [x], Again(fewer, 1)) && Clear(ns + fewer, [x])
    ensures var (unique, u') := UniqueName(Final(x), u);
            Named(head + [OpenNamed(unique)], u', ns, Again(fewer + [x], 1))
  {
    var before, y := Again(fewer, 1), Naming(x.name, x.times + 1);
    SameCounted(u, (ns + [x]) + before, (ns + before) + [x]);
    ClearAgain(ns, fewer, x);
    NameOnce(u, ns + before, x, y);
    GroupsAppend(head, OpenNamed(Final(y)));
    AgainNext(fewer, x, 1);
    FinalsConcat(before, [y]);
    assert Finals([y]) == [Final(y)];
    assert ns + (before + [y]) == (ns + before) + [y];
  }

  lemma ClearAgain(ns: seq<Naming>, fewer: seq<Naming>, x: Naming)
    requires Clear(ns + fewer, [x])
    ensures Clear(ns + Again(fewer, 1), [x])
  {
    forall z | z in ns + Again(fewer, 1) ensures Stem(z.name) != Stem(x.name) {
      assert x in [x];
      if z in ns {
        assert z in ns + fewer;
      } else {
        var i :| 0 <= i < |fewer| && Again(fewer, 1)[i] == z;
        assert fewer[i] in ns + fewer;
      }
    }
  }

  lemma ClearLast(ns: seq<Naming>, fewer: seq<Naming>, x: Naming)
    requires Clear(ns, fewer + [x]) && Apart(fewer + [x])
    ensures Clear(ns + [x], fewer) && Apart(fewer) && Clear(ns + fewer, [x])
  {
    var more := fewer + [x];
    assert more[|fewer|] == x && more[..|fewer|] == fewer;
    assert forall i :: 0 <= i < |fewer| ==> fewer[i] == more[i] && Stem(more[i].name) != Stem(more[|fewer|].name);
    assert forall y :: y in fewer ==> y in more && Stem(y.name) != Stem(x.name);
  }

  /** Setting the last group of a body aside. */
  lemma SetAside(init: seq<Out>, name: string, used: Used, ns: seq<Naming>, fewer: seq<Naming>, x: Naming)
    requires Groups(init) + [name] == Finals(fewer + [x]) && Counted(used, ns + (fewer + [x]))
    requires Clear(ns, fewer + [x]) && Apart(fewer + [x])
    ensures Named(init, used, ns + [x], fewer) && name == Final(x)
    ensures Clear(ns + [x], fewer) && Apart(fewer) && Clear(ns + fewer, [x])
  {
    LastFinal(Groups(init), name, fewer, x);
    ClearLast(ns, fewer, x);
    SameCounted(used, ns + (fewer + [x]), (ns + [x]) + fewer);
  }

  lemma AgainOther(out: seq<Out>, init: seq<Out>, o: Out, used: Used, ns: seq<Naming>, more: seq<Naming>)
    requires out == init + [o] && !o.OpenNamed? && Named(Dedup(init, used).0, Dedup(init, used).1, ns, more)
    ensures Named(Dedup(out, used).0, Dedup(out, used).1, ns, more)
  {
    DedupOther(init, used, o);
    GroupsAppend(Dedup(init, used).0, o);
  }

  /** Deduplication names the groups of a body once more. */
  lemma {:induction false} DedupAgain(out: seq<Out>, used: Used, ns: seq<Naming>, more: seq<Naming>)
    requires Named(out, used, ns, more) && Clear(ns, more) && Apart(more)
    ensures Named(Dedup(out, used).0, Dedup(out, used).1, ns, Again(more, 1))
    decreases |out|, 1
  {
    if out == [] {
      assert more == [] == Again(more, 1);
    } else {
      var init, last := out[..|out| - 1], out[|out| - 1];
      assert out == init + [last];
      GroupsAppend(init, last);
      if last.OpenNamed? {
        assert |more| > 0;
        assert more == more[..|more| - 1] + [more[|more| - 1]];
        DedupAgainOpen(out, init, last.name, used, ns, more, more[..|more| - 1], more[|more| - 1]);
      } else {
        DedupAgain(init, used, ns, more);
        AgainOther(out, init, last, used, ns, Again(more, 1));
      }
    }
  }

  lemma {:induction false} DedupAgainOpen(out: seq<Out>, init: seq<Out>, name: string, used: Used, ns: seq<Naming>,
                                          more: seq<Naming>, fewer: seq<Naming>, x: Naming)
    requires out == init + [OpenNamed(name)] && more == fewer + [x] && Groups(init) + [name] == Finals(more)
    requires Counted(used, ns + more) && Clear(ns, more) && Apart(more)
    ensures Named(Dedup(out, used).0, Dedup(out, used).1, ns, Again(more, 1))
    decreases |out|, 0
  {
    SetAside(init, name, used, ns, fewer, x);
    DedupAgain(init, used, ns + [x], fewer);
    AgainOpen(Dedup(init, used).0, Dedup(init, used).1, ns, fewer, x);
    DedupOpen(init, used, name);
  }

  lemma ClearParts(ns: seq<Naming>, a: seq<Naming>, b: seq<Naming>)
    requires Clear(ns, a + b) && Apart(a + b)
    ensures Clear(ns, a) && Apart(a) && Clear(ns + a, b) && Apart(b)
  {
    var s := a + b;
    assert forall i :: 0 <= i < |a| ==> s[i] == a[i] && a[i] in s;
    assert forall j :: 0 <= j < |b| ==> s[|a| + j] == b[j] && b[j] in s;
    forall x, y | x in ns + a && y in b ensures Stem(x.name) != Stem(y.name) {
      var j :| 0 <= j < |b| && b[j] == y;
      if x in a {
        var i :| 0 <= i < |a| && a[i] == x;
        assert Stem(s[i].name) != Stem(s[|a| + j].name);
      } else {
        assert y in s;
      }
    }
  }

  lemma ClearOnce(ns: seq<Naming>, more: seq<Naming>)
    requires Clear(ns, Again(more, 1)) && Apart(Again(more, 1))
    ensures Clear(ns, more) && Apart(more)
  {
    var again := Again(more, 1);
    assert forall i :: 0 <= i < |more| ==> again[i].name == more[i].name && again[i] in again;
    forall x, y | x in ns && y in more ensures Stem(x.name) != Stem(y.name) {
      var i :| 0 <= i < |more| && more[i] == y;
      assert again[i] in again;
    }
  }

  lemma GroupsOfPlain(out: seq<Out>)
    ensures Groups([OpenPlain] + out + [Close]) == Groups(out)
  {
    GroupsAppend([OpenPlain] + out, Close);
    GroupsConcat([OpenPlain], out);
    GroupsOne(OpenPlain);
  }

  /** A reference's own group is named last and opens first. */
  lemma OwnGroupNamed(out: seq<Out>, u: Used, clean: string, ns: seq<Naming>, again: seq<Naming>)
    requires Named(out, u, ns, again) && Clear(ns + again, [Naming(clean, 0)])
    ensures UniqueName(clean, u).0 == clean
    ensures Named([OpenNamed(clean)] + out + [Close], UniqueName(clean, u).1, ns, [Naming(clean, 1)] + again)
  {
    var own := Naming(clean, 1);
    NameFirst(u, ns + again, clean);
    SameCounted(UniqueName(clean, u).1, (ns + again) + [own], ns + ([own] + again));
    GroupsOfField(clean, out);
    FinalsConcat([own], again);
    assert Finals([own]) == [clean];
  }

  lemma ClearOwn(ns: seq<Naming>, clean: string, again: seq<Naming>)
    requires Clear(ns, [Naming(clean, 1)] + again) && Apart([Naming(clean, 1)] + again)
    ensures Clear(ns, again) && Apart(again) && Clear(ns + again, [Naming(clean, 0)])
  {
    var own := Naming(clean, 1);
    ClearParts(ns, [own], again);
    assert own in [own] + again && own in ns + [own];
  }

  lemma GroupNamed(e: Expansion, field: string, ns: seq<Naming>, more: seq<Naming>)
    requires Named(e.out, e.used, ns, more)
    requires Clear(ns, OwnGroup(field) + Again(more, 1)) && Apart(OwnGroup(field) + Again(more, 1))
    ensures Named(GroupOf(e, field).0, GroupOf(e, field).1, ns, OwnGroup(field) + Again(more, 1))
  {
    var clean, again := SanitizeFieldName(field), Again(more, 1);
    if clean == "" {
      assert OwnGroup(field) + again == again;
    } else {
      ClearOwn(ns, clean, again);
    }
    ClearOnce(ns, more);
    DedupAgain(e.out, e.used, ns, more);
    var (out, u) := Dedup(e.out, e.used);
    if clean == "" { GroupsOfPlain(out); } else { OwnGroupNamed(out, u, clean, ns, again); }
  }

  lemma NamedConcat(a: seq<Out>, b: seq<Out>, used: Used, ns: seq<Naming>, first: seq<Naming>, more: seq<Naming>)
    requires Groups(a) == Finals(first) && Named(b, used, ns + first, more)
    ensures Named(a + b, used, ns, first + more)
  {
    GroupsConcat(a, b);
    FinalsConcat(first, more);
    assert ns + (first + more) == (ns + first) + more;
  }

  /** A group the text itself opens. */
  lemma NamedOpen(name: string, used: Used, ns: seq<Naming>)
    requires Counted(used, ns) && Clear(ns, [Naming(name, 0)])
    ensures Named([OpenNamed(name)], used, ns, [Naming(name, 0)])
  {
    GroupsOne(OpenNamed(name));
    Unheard(used, ns, Naming(name, 0));
    assert Finals([Naming(name, 0)]) == [name];
  }

  lemma NamedText(s: string, used: Used, ns: seq<Naming>)
    requires Counted(used, ns)
    ensures Named([Raw(s)], used, ns, [])
  {
    GroupsOne(Raw(s));
    assert ns + [] == ns && Finals([]) == [];
  }

  /** Groups that are spelled apart are named independently of each other. */
  lemma {:induction false} ExpandNamed(t: Tables, p: Pattern, used: Used, depth: nat, ns: seq<Naming>)
    requires Expand(t, p, used, depth).ok && Counted(used, ns)
    requires Clear(ns, Opened(t, p, depth)) && Apart(Opened(t, p, depth))
    ensures Named(Expand(t, p, used, depth).out, Expand(t, p, used, depth).used, ns, Opened(t, p, depth))
    decreases MAX_DEPTH + 1 - depth, |p|, 1
  {
    if p == [] {
      assert ns + [] == ns && Finals([]) == [];
    } else {
      var init, tok := p[..|p| - 1], p[|p| - 1];
      assert p == init + [tok];
      var r, next := Expand(t, init, used, depth), Expand(t, p, used, depth);
      ExpandNext(t, p, init, tok, used, depth, r, next);
      OpenedNext(t, p, init, tok, depth);
      var first, more := Opened(t, init, depth), OpenedBy(t, tok, depth);
      ClearParts(ns, first, more);
      ExpandNamed(t, init, used, depth, ns);
      match tok
      case Text(s) =>
        NamedText(s, r.used, ns + first);
        NamedConcat(r.out, [Raw(s)], r.used, ns, first, more);
      case NamedGroup(name) =>
        NamedOpen(name, r.used, ns + first);
        NamedConcat(r.out, [OpenNamed(name)], r.used, ns, first, more);
      case Ref(name, field) =>
        ReferenceNamed(t, p, tok, r, depth, ns + first);
        NamedConcat(r.out, GroupOf(Expand(t, t.Body(name).value, r.used, depth + 1), field).0, next.used, ns, first, more);
    }
  }

  lemma {:induction false} ReferenceNamed(t: Tables, p: Pattern, tok: Tok, r: Expansion, depth: nat, ns: seq<Naming>)
    requires depth < MAX_DEPTH && tok.Ref? && t.Body(tok.name).Some? && Counted(r.used, ns)
    requires Expand(t, t.Body(tok.name).value, r.used, depth + 1).ok
    requires Clear(ns, OpenedBy(t, tok, depth)) && Apart(OpenedBy(t, tok, depth))
    ensures var (group, u) := GroupOf(Expand(t, t.Body(tok.name).value, r.used, depth + 1), tok.field);
            Named(group, u, ns, OpenedBy(t, tok, depth))
    decreases MAX_DEPTH + 1 - depth, |p|, 0
  {
    var body := t.Body(tok.name).value;
    var inner := Opened(t, body, depth + 1);
    ClearParts(ns, OwnGroup(tok.field), Again(inner, 1));
    ClearInner(ns, OwnGroup(tok.field), inner);
    ExpandNamed(t, body, r.used, depth + 1, ns);
    GroupNamed(Expand(t, body, r.used, depth + 1), tok.field, ns, inner);
  }

  lemma ClearInner(ns: seq<Naming>, own: seq<Naming>, inner: seq<Naming>)
    requires Clear(ns, own + Again(inner, 1)) && Apart(own + Again(inner, 1))
    ensures Clear(ns, inner) && Apart(inner)
  {
    ClearParts(ns, own, Again(inner, 1));
    assert forall x :: x in ns ==> x in ns + own;
    ClearOnce(ns, inner);
  }

  predicate Spelled(groups: seq<string>, ns: seq<Naming>) {
    |groups| == |ns| && forall i :: 0 <= i < |ns| ==> groups[i] == ns[i].name
  }

  /** Groups spelled apart come out with a "_2" for every second time they are named; so they are all
      called what they are spelled exactly when none is named twice, that is, when no definition that
      opens a group is referenced by name more than once over. */
  lemma GroupsApart(t: Tables, p: Pattern)
    requires Expand(t, p, map[], 0).ok && Apart(Opened(t, p, 0))
    ensures Groups(Expand(t, p, map[], 0).out) == Finals(Opened(t, p, 0))
    ensures Spelled(Groups(Expand(t, p, map[], 0).out), Opened(t, p, 0))
       <==> forall i :: 0 <= i < |Opened(t, p, 0)| ==> Opened(t, p, 0)[i].times <= 1
  {
    var ns := Opened(t, p, 0);
    ExpandNamed(t, p, map[], 0, []);
    forall i | 0 <= i < |ns| ensures Final(ns[i]) == ns[i].name <==> ns[i].times <= 1 {
      if ns[i].times > 1 { TwosLonger(ns[i].name, 0, ns[i].times / 2); }
    }
  }

  // ---------------------------------------------------------------------------
  // A pattern behind a chain of references
  // ---------------------------------------------------------------------------

  /** p is q behind d references without a field. */
  ghost predicate Behind(t: Tables, p: Pattern, q: Pattern, d: nat)
    decreases d
  {
    if d == 0 then p == q
    else |p| == 1 && p[0].Ref? && p[0].field == ""
         && t.Body(p[0].name).Some? && Behind(t, t.Body(p[0].name).value, q, d - 1)
  }

  lemma OpenedOne(t: Tables, tok: Tok, depth: nat)
    requires depth <= MAX_DEPTH
    ensures Opened(t, [tok], depth) == OpenedBy(t, tok, depth)
  {
    OpenedNext(t, [tok], [], tok, depth);
  }

  lemma PlainReference(t: Tables, name: string, body: Pattern, depth: nat, ns: seq<Naming>, next: seq<Naming>)
    requires depth <= MAX_DEPTH && t.Body(name) == Some(body) && Opened(t, body, depth + 1) == ns && next == Again(ns, 1)
    ensures OpenedBy(t, Ref(name, ""), depth) == next
  {
    assert OwnGroup("") == [] && [] + next == next;
  }

  /** A reference without a field to a definition that opens ns. */
  lemma ReferenceOpened(t: Tables, p: Pattern, name: string, body: Pattern, depth: nat, ns: seq<Naming>, next: seq<Naming>)
    requires depth <= MAX_DEPTH && p == [Ref(name, "")]
    requires t.Body(name) == Some(body) && Opened(t, body, depth + 1) == ns && next == Again(ns, 1)
    ensures Opened(t, p, depth) == next
  {
    PlainReference(t, name, body, depth, ns, next);
    OpenedOne(t, Ref(name, ""), depth);
  }

  /** Every reference names the groups behind it once more. */
  lemma {:induction false} BehindOpened(t: Tables, p: Pattern, q: Pattern, d: nat, depth: nat, at: nat, ns: seq<Naming>)
    requires Behind(t, p, q, d) && at == depth + d <= MAX_DEPTH && Opened(t, q, at) == ns
    ensures Opened(t, p, depth) == Again(ns, d)
    decreases d
  {
    if d == 0 {
      assert Again(ns, 0) == ns;
    } else {
      var body := t.Body(p[0].name).value;
      BehindOpened(t, body, q, d - 1, depth + 1, at, ns);
      AgainTwice(ns, d - 1, d);
      ReferenceOpened(t, p, p[0].name, body, depth, Again(ns, d - 1), Again(ns, d));
    }
  }

  lemma AgainTwice(ns: seq<Naming>, k: nat, next: nat)
    requires next == k + 1
    ensures Again(Again(ns, k), 1) == Again(ns, next)
  {
  }

  /** A lone group (?P<n>...) behind d references keeps its name exactly when d is at most 1. */
  lemma LoneGroupKeepsNameIff(t: Tables, p: Pattern, n: string, d: nat)
    requires Behind(t, p, [NamedGroup(n)], d) && d <= MAX_DEPTH && Expand(t, p, map[], 0).ok
    ensures Groups(Expand(t, p, map[], 0).out) == [Twos(n, d / 2)]
    ensures Groups(Expand(t, p, map[], 0).out) == [n] <==> d <= 1
  {
    OpenedOne(t, NamedGroup(n), d);
    LoneOpened(t, p, [NamedGroup(n)], n, 0, d, d);
    LoneName(t, p, n, d, Groups(Expand(t, p, map[], 0).out));
  }

  /** A group a field names has been named once by its own reference: behind d more it keeps its name
      exactly when d is 0. */
  lemma FieldKeepsNameIff(t: Tables, p: Pattern, name: string, field: string, d: nat)
    requires Behind(t, p, [Ref(name, field)], d) && d < MAX_DEPTH && Expand(t, p, map[], 0).ok
    requires SanitizeFieldName(field) != "" && t.Body(name).Some? && Opened(t, t.Body(name).value, d + 1) == []
    ensures Groups(Expand(t, p, map[], 0).out) == [Twos(SanitizeFieldName(field), (d + 1) / 2)]
    ensures Groups(Expand(t, p, map[], 0).out) == [SanitizeFieldName(field)] <==> d == 0
  {
    OpenedOne(t, Ref(name, field), d);
    assert Again(Opened(t, t.Body(name).value, d + 1), 1) == [];
    LoneOpened(t, p, [Ref(name, field)], SanitizeFieldName(field), 1, d, d + 1);
    LoneName(t, p, SanitizeFieldName(field), d + 1, Groups(Expand(t, p, map[], 0).out));
  }

  lemma LoneOpened(t: Tables, p: Pattern, q: Pattern, n: string, times: nat, d: nat, total: nat)
    requires Behind(t, p, q, d) && d <= MAX_DEPTH && Opened(t, q, d) == [Naming(n, times)] && total == times + d
    ensures Opened(t, p, 0) == [Naming(n, total)]
  {
    var ns := Opened(t, q, d);
    BehindOpened(t, p, q, d, 0, d, ns);
    AgainLone(ns, n, times, d, total);
  }

  lemma AgainLone(ns: seq<Naming>, n: string, times: nat, k: nat, total: nat)
    requires ns == [Naming(n, times)] && total == times + k
    ensures Again(ns, k) == [Naming(n, total)]
  {
  }

  lemma LoneName(t: Tables, p: Pattern, n: string, times: nat, groups: seq<string>)
    requires Expand(t, p, map[], 0).ok && groups == Groups(Expand(t, p, map[], 0).out)
    requires Opened(t, p, 0) == [Naming(n, times)]
    ensures groups == [Twos(n, times / 2)] && (groups == [n] <==> times <= 1)
  {
    GroupsApart(t, p);
    FinalOne(groups, n, times);
  }

  lemma FinalOne(groups: seq<string>, n: string, times: nat)
    requires groups == Finals([Naming(n, times)])
    ensures groups == [Twos(n, times / 2)] && (groups == [n] <==> times <= 1)
  {
    if times > 1 { TwosLonger(n, 0, times / 2); }
  }

  // ---------------------------------------------------------------------------
  // The definitions that ship with groups
  // ---------------------------------------------------------------------------

  /** The definition is known and opens no group. */
  ghost predicate OpensNothing(t: Tables, name: string, depth: nat) {
    t.Body(name).Some? && Opened(t, t.Body(name).value, depth) == []
  }

  /** A field that is a group name as it stands. */
  predicate IsName(f: string) {
    f != "" && !IsDigit(f[0]) && f[|f| - 1] != '2' && forall k :: 0 <= k < |f| ==> IsWordChar(f[k])
  }

  lemma StemOfName(f: string)
    requires IsName(f)
    ensures Stem(f) == f && OwnGroup(f) == [Naming(f, 1)]
  {
    if |f| >= 2 { assert f[|f| - 2..][1] == f[|f| - 1]; }
  }

  lemma OpenedField(t: Tables, name: string, field: string, depth: nat)
    requires depth < MAX_DEPTH && OpensNothing(t, name, depth + 1)
    ensures OpenedBy(t, Ref(name, field), depth) == OwnGroup(field)
  {
    assert Again(Opened(t, t.Body(name).value, depth + 1), 1) == [];
  }

  lemma OpenedText(t: Tables, init: Pattern, s: string, depth: nat)
    requires depth <= MAX_DEPTH
    ensures Opened(t, init + [Text(s)], depth) == Opened(t, init, depth)
  {
    OpenedNext(t, init + [Text(s)], init, Text(s), depth);
  }

  /** %{prog}, text, %{number:pid}, text: the shape of SYSLOGPROG. */
  function ProgBody(prog: string, s: string, number: string, pid: string, u: string): Pattern {
    ([Ref(prog, "")] + [Text(s)]) + [Ref(number, pid)] + [Text(u)]
  }

  lemma ProgOpened(t: Tables, prog: string, s: string, number: string, pid: string, u: string, depth: nat)
    requires depth < MAX_DEPTH && OpensNothing(t, prog, depth + 1) && OpensNothing(t, number, depth + 1) && IsName(pid)
    ensures Opened(t, ProgBody(prog, s, number, pid, u), depth) == [Naming(pid, 1)]
  {
    StemOfName(pid);
    OpenedField(t, prog, "", depth);
    OpenedField(t, number, pid, depth);
    OpenedOne(t, Ref(prog, ""), depth);
    OpenedText(t, [Ref(prog, "")], s, depth);
    var head := [Ref(prog, "")] + [Text(s)];
    OpenedNext(t, head + [Ref(number, pid)], head, Ref(number, pid), depth);
    OpenedText(t, head + [Ref(number, pid)], u, depth);
  }

  /** %{time:a}, text, %{host:b}, text, %{prog}, text: the shape of SYSLOGBASE. */
  function BaseBody(time: string, a: string, host: string, b: string, prog: string, s: string, u: string): Pattern {
    BaseHead(time, a, host, b, s) + [Ref(prog, "")] + [Text(u)]
  }

  function BaseHead(time: string, a: string, host: string, b: string, s: string): Pattern {
    ([Ref(time, a)] + [Text(s)]) + [Ref(host, b)] + [Text(s)]
  }

  lemma HeadOpened(t: Tables, time: string, a: string, host: string, b: string, s: string, depth: nat)
    requires depth < MAX_DEPTH && OpensNothing(t, time, depth + 1) && OpensNothing(t, host, depth + 1)
    requires IsName(a) && IsName(b)
    ensures Opened(t, BaseHead(time, a, host, b, s), depth) == [Naming(a, 1), Naming(b, 1)]
  {
    StemOfName(a);
    StemOfName(b);
    OpenedField(t, time, a, depth);
    OpenedField(t, host, b, depth);
    OpenedOne(t, Ref(time, a), depth);
    OpenedText(t, [Ref(time, a)], s, depth);
    var head := [Ref(time, a)] + [Text(s)];
    OpenedNext(t, head + [Ref(host, b)], head, Ref(host, b), depth);
    OpenedText(t, head + [Ref(host, b)], s, depth);
  }

  lemma BaseOpened(t: Tables, time: string, a: string, host: string, b: string, prog: string, s: string, u: string,
                   depth: nat, pid: string)
    requires depth < MAX_DEPTH && OpensNothing(t, time, depth + 1) && OpensNothing(t, host, depth + 1)
    requires IsName(a) && IsName(b)
    requires t.Body(prog).Some? && Opened(t, t.Body(prog).value, depth + 1) == [Naming(pid, 1)]
    ensures Opened(t, BaseBody(time, a, host, b, prog, s, u), depth) == [Naming(a, 1), Naming(b, 1), Naming(pid, 2)]
  {
    var head := BaseHead(time, a, host, b, s);
    HeadOpened(t, time, a, host, b, s, depth);
    AgainLone([Naming(pid, 1)], pid, 1, 1, 2);
    OpenedNext(t, head + [Ref(prog, "")], head, Ref(prog, ""), depth);
    PlainReference(t, prog, t.Body(prog).value, depth, [Naming(pid, 1)], [Naming(pid, 2)]);
    OpenedText(t, head + [Ref(prog, "")], u, depth);
  }

  lemma Twice(n: string, x: Naming)
    requires x.name == n && x.times / 2 == 1
    ensures Final(x) == n + "_2"
  {
    assert Twos(n, 1) == Suffixed(Twos(n, 0), 2) && Decimal(2) == "2";
  }

  const SYSLOGPROG := ProgBody("PROG", "(?:\\[", "POSINT", "pid", "\\])?")

  const SYSLOGBASE := BaseBody("SYSLOGTIMESTAMP", "timestamp", "SYSLOGHOST", "logsource", "SYSLOGPROG", " ", ":")

  /** A lone reference to a definition of SYSLOGPROG's shape renames its group. */
  lemma ProgNames(t: Tables, name: string, prog: string, s: string, number: string, pid: string, u: string)
    requires t.Body(name) == Some(ProgBody(prog, s, number, pid, u)) && IsName(pid)
    requires OpensNothing(t, prog, 2) && OpensNothing(t, number, 2)
    requires Expand(t, [Ref(name, "")], map[], 0).ok
    ensures Groups(Expand(t, [Ref(name, "")], map[], 0).out) == [pid + "_2"]
  {
    ProgOpened(t, prog, s, number, pid, u, 1);
    AgainLone([Naming(pid, 1)], pid, 1, 1, 2);
    ReferenceOpened(t, [Ref(name, "")], name, ProgBody(prog, s, number, pid, u), 0, [Naming(pid, 1)], [Naming(pid, 2)]);
    LoneName(t, [Ref(name, "")], pid, 2, Groups(Expand(t, [Ref(name, "")], map[], 0).out));
    Twice(pid, Naming(pid, 2));
  }

  lemma ThreeApart(x: Naming, y: Naming, z: Naming)
    requires Stem(x.name) != Stem(y.name) && Stem(x.name) != Stem(z.name) && Stem(y.name) != Stem(z.name)
    ensures Apart([x, y, z])
  {
  }

  lemma ThreeFinals(x: Naming, y: Naming, z: Naming)
    ensures Finals([x, y, z]) == [Final(x), Final(y), Final(z)]
  {
  }

  lemma ThreeTwice(a: string, b: string, c: string, x: Naming, y: Naming, z: Naming)
    requires IsName(a) && IsName(b) && IsName(c) && a != b && a != c && b != c
    requires x == Naming(a, 2) && y == Naming(b, 2) && z == Naming(c, 3)
    ensures Apart([x, y, z]) && Finals([x, y, z]) == [a + "_2", b + "_2", c + "_2"]
  {
    StemOfName(a);
    StemOfName(b);
    StemOfName(c);
    ThreeApart(x, y, z);
    ThreeFinals(x, y, z);
    Twice(a, x);
    Twice(b, y);
    Twice(c, z);
  }

  lemma AgainThree(a: string, b: string, c: string)
    ensures Again([Naming(a, 1), Naming(b, 1), Naming(c, 2)], 1) == [Naming(a, 2), Naming(b, 2), Naming(c, 3)]
  {
  }

  lemma ApartNames(t: Tables, p: Pattern, ns: seq<Naming>, names: seq<string>)
    requires Expand(t, p, map[], 0).ok && Opened(t, p, 0) == ns && Apart(ns) && Finals(ns) == names
    ensures Groups(Expand(t, p, map[], 0).out) == names
  {
    GroupsApart(t, p);
  }

  /** And one of SYSLOGBASE's shape all three. */
  lemma BaseNames(t: Tables, p: Pattern, name: string, time: string, a: string, host: string, b: string, prog: string,
                  s: string, u: string, pid: string)
    requires p == [Ref(name, "")] && t.Body(name) == Some(BaseBody(time, a, host, b, prog, s, u))
    requires IsName(a) && IsName(b) && IsName(pid) && a != b && a != pid && b != pid
    requires OpensNothing(t, time, 2) && OpensNothing(t, host, 2)
    requires t.Body(prog).Some? && Opened(t, t.Body(prog).value, 2) == [Naming(pid, 1)]
    requires Expand(t, p, map[], 0).ok
    ensures Groups(Expand(t, p, map[], 0).out) == [a + "_2", b + "_2", pid + "_2"]
  {
    BaseOpened(t, time, a, host, b, prog, s, u, 1, pid);
    AgainThree(a, b, pid);
    var x, y, z := Naming(a, 2), Naming(b, 2), Naming(pid, 3);
    ReferenceOpened(t, p, name, BaseBody(time, a, host, b, prog, s, u), 0,
                    [Naming(a, 1), Naming(b, 1), Naming(pid, 2)], [x, y, z]);
    ThreeTwice(a, b, pid, x, y, z);
    ApartNames(t, p, [x, y, z], [a + "_2", b + "_2", pid + "_2"]);
  }

  lemma ShippedNames()
    ensures IsName("pid") && IsName("timestamp") && IsName("logsource")
    ensures "timestamp" != "logsource" && "timestamp" != "pid" && "logsource" != "pid"
    ensures "pid" + "_2" == "pid_2" && "timestamp" + "_2" == "timestamp_2" && "logsource" + "_2" == "logsource_2"
  {
    assert |"pid"| != |"timestamp"|;
    assert "timestamp"[0] != "logsource"[0];
  }

  /** %{SYSLOGPROG} exposes pid_2. */
  lemma SyslogProgNames(t: Tables, p: Pattern)
    requires t.Body("SYSLOGPROG") == Some(SYSLOGPROG) && OpensNothing(t, "PROG", 2) && OpensNothing(t, "POSINT", 2)
    requires p == [Ref("SYSLOGPROG", "")] && Expand(t, p, map[], 0).ok
    ensures Groups(Expand(t, p, map[], 0).out) == ["pid_2"]
  {
    ShippedNames();
    ProgNames(t, "SYSLOGPROG", "PROG", "(?:\\[", "POSINT", "pid", "\\])?");
  }

  /** %{SYSLOGBASE} exposes timestamp_2, logsource_2 and pid_2. */
  lemma SyslogBaseNames(t: Tables, p: Pattern)
    requires t.Body("SYSLOGBASE") == Some(SYSLOGBASE) && t.Body("SYSLOGPROG") == Some(SYSLOGPROG)
    requires OpensNothing(t, "SYSLOGTIMESTAMP", 2) && OpensNothing(t, "SYSLOGHOST", 2)
    requires OpensNothing(t, "PROG", 3) && OpensNothing(t, "POSINT", 3)
    requires p == [Ref("SYSLOGBASE", "")] && Expand(t, p, map[], 0).ok
    ensures Groups(Expand(t, p, map[], 0).out) == ["timestamp_2", "logsource_2", "pid_2"]
  {
    ShippedNames();
    ProgOpened(t, "PROG", "(?:\\[", "POSINT", "pid", "\\])?", 2);
    BaseNames(t, p, "SYSLOGBASE", "SYSLOGTIMESTAMP", "timestamp", "SYSLOGHOST", "logsource", "SYSLOGPROG", " ", ":", "pid");
  }
}
