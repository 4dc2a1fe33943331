/** Grok expansion (expandGrok and dedupNamedGroups in internal/pattern/compile.go). A pattern is a
    sequence of tokens: what the reference and named-group expressions of that file recognise. */
module Grok {
  import opened Base
  import opened FieldNames

  /** Literal regexp text, a reference %{name:field}, or a named-group opener. */
  datatype Tok = Text(s: string) | Ref(name: string, field: string) | NamedGroup(name: string)

  /** Expanded regexp text. */
  datatype Out = Raw(s: string) | OpenNamed(name: string) | OpenPlain | Close

  type Pattern = seq<Tok>

  const MAX_DEPTH := 32

  /** A pattern's own definitions shadow the primitive table. */
  datatype Tables = Tables(extras: map<string, Pattern>, primitives: map<string, Pattern>) {
    function Body(name: string): Option<Pattern> {
      if name in extras then Some(extras[name])
      else if name in primitives then Some(primitives[name])
      else None
    }
  }

  /** Renames every named group of an expansion; names already used get a suffix. */
  function Dedup(out: seq<Out>, used: Used): (seq<Out>, Used) {
    if out == [] then ([], used)
    else
      var n := |out| - 1;
      var (head, u) := Dedup(out[..n], used);
      match out[n]
      case OpenNamed(name) => var (unique, u') := UniqueName(name, u); (head + [OpenNamed(unique)], u')
      case o => (head + [o], u)
  }

  datatype Expansion = Expansion(ok: bool, out: seq<Out>, used: Used)

  /** expandGrok at one depth. */
  function Expand(t: Tables, p: Pattern, used: Used, depth: nat): Expansion
    decreases MAX_DEPTH + 1 - depth, |p|
  {
    if depth > MAX_DEPTH then Expansion(false, [], used)
    else if p == [] then Expansion(true, [], used)
    else
      var n := |p| - 1;
      var r := Expand(t, p[..n], used, depth);
      match p[n]
      case Text(s) => r.(out := r.out + [Raw(s)])
      case NamedGroup(name) => r.(out := r.out + [OpenNamed(name)])
      case Ref(name, field) =>
        match t.Body(name)
        case None => r.(ok := false)
        case Some(body) =>
          var e := Expand(t, body, r.used, depth + 1);
          if !e.ok then Expansion(false, r.out, e.used)
          else
            var (group, u) := GroupOf(e, field);
            Expansion(r.ok, r.out + group, u)
  }

  /** The group a reference becomes: its expanded body, deduplicated, inside a named group if the
      reference has a field. */
  function GroupOf(e: Expansion, field: string): (seq<Out>, Used) {
    var (out, u) := Dedup(e.out, e.used);
    var clean := SanitizeFieldName(field);
    if clean == "" then ([OpenPlain] + out + [Close], u)
    else
      var (unique, u') := UniqueName(clean, u);
      ([OpenNamed(unique)] + out + [Close], u')
  }

  // ---------------------------------------------------------------------------
  // When expansion fails
  // ---------------------------------------------------------------------------

  predicate Mentions(p: Pattern, name: string) {
    exists k :: 0 <= k < |p| && p[k].Ref? && p[k].name == name
  }

  /** Each name is referenced by the pattern or body before it. */
  ghost predicate Chain(t: Tables, p: Pattern, names: seq<string>)
    decreases |names|
  {
    names != [] && Mentions(p, names[0])
    && (|names| > 1 ==> t.Body(names[0]).Some? && Chain(t, t.Body(names[0]).value, names[1..]))
  }

  /** The chain ends in an unknown name, or is nested too deep below a pattern at this depth. */
  ghost predicate Bad(t: Tables, names: seq<string>, depth: nat)
    requires names != []
  {
    t.Body(names[|names| - 1]).None? || depth + |names| > MAX_DEPTH
  }

  ghost predicate HasBadChain(t: Tables, p: Pattern, depth: nat) {
    exists names :: Chain(t, p, names) && Bad(t, names, depth)
  }

  lemma MentionsInit(p: Pattern, name: string)
    requires p != []
    ensures Mentions(p, name) <==> Mentions(p[..|p| - 1], name) || (p[|p| - 1].Ref? && p[|p| - 1].name == name)
  {
    var n := |p| - 1;
    assert p == p[..n] + [p[n]];
    if p[n].Ref? && p[n].name == name { assert p[n].Ref?; }
    if Mentions(p[..n], name) {
      var k :| 0 <= k < n && p[..n][k].Ref? && p[..n][k].name == name;
      assert p[k].Ref?;
    }
  }

  lemma ChainInit(t: Tables, p: Pattern, names: seq<string>)
    requires p != []
    ensures var last := p[|p| - 1];
            Chain(t, p, names) <==>
              Chain(t, p[..|p| - 1], names)
              || (names != [] && last.Ref? && last.name == names[0] && Chain(t, [last], names))
  {
    if names != [] {
      MentionsInit(p, names[0]);
      if p[|p| - 1].Ref? && p[|p| - 1].name == names[0] { assert [p[|p| - 1]][0].Ref?; }
    }
  }

  /** Which chains the last token opens. */
  lemma LastToken(t: Tables, p: Pattern, depth: nat)
    requires p != [] && depth <= MAX_DEPTH
    ensures HasBadChain(t, p, depth) <==> HasBadChain(t, p[..|p| - 1], depth) || BadToken(t, p[|p| - 1], depth)
  {
    var n := |p| - 1;
    forall names ensures Chain(t, p, names) <==>
      Chain(t, p[..n], names) || (names != [] && p[n].Ref? && p[n].name == names[0] && Chain(t, [p[n]], names))
    {
      ChainInit(t, p, names);
    }
    if HasBadChain(t, p, depth) {
      var names :| Chain(t, p, names) && Bad(t, names, depth);
      if !Chain(t, p[..n], names) { TokenChain(t, p[n], names, depth); }
    }
    if HasBadChain(t, p[..n], depth) {
      var names :| Chain(t, p[..n], names) && Bad(t, names, depth);
      assert Chain(t, p, names);
    }
    if BadToken(t, p[n], depth) {
      var names := TokenWitness(t, p[n], depth);
      assert Chain(t, p, names);
    }
  }

  /** A reference fails if its name is unknown or its body has a bad chain one level down. */
  ghost predicate BadToken(t: Tables, tok: Tok, depth: nat) {
    tok.Ref? && (t.Body(tok.name).None? || depth + 1 > MAX_DEPTH || HasBadChain(t, t.Body(tok.name).value, depth + 1))
  }

  lemma TokenChain(t: Tables, tok: Tok, names: seq<string>, depth: nat)
    requires tok.Ref? && Chain(t, [tok], names) && names[0] == tok.name && Bad(t, names, depth) && depth <= MAX_DEPTH
    ensures BadToken(t, tok, depth)
  {
    if |names| > 1 && depth + 1 <= MAX_DEPTH {
      assert Chain(t, t.Body(tok.name).value, names[1..]) && Bad(t, names[1..], depth + 1);
    }
  }

  lemma TokenWitness(t: Tables, tok: Tok, depth: nat) returns (names: seq<string>)
    requires BadToken(t, tok, depth)
    ensures names != [] && names[0] == tok.name && Chain(t, [tok], names) && Bad(t, names, depth)
  {
    assert [tok][0].Ref?;
    if t.Body(tok.name).None? || depth + 1 > MAX_DEPTH {
      names := [tok.name];
    } else {
      var rest :| Chain(t, t.Body(tok.name).value, rest) && Bad(t, rest, depth + 1);
      names := [tok.name] + rest;
      assert names[1..] == rest;
    }
  }

  /** Expansion fails exactly when some reference chain from the pattern ends in an unknown name or
      exceeds the depth bound. */
  lemma {:induction false} ExpandFailsIff(t: Tables, p: Pattern, used: Used, depth: nat)
    requires depth <= MAX_DEPTH
    ensures !Expand(t, p, used, depth).ok <==> HasBadChain(t, p, depth)
    decreases MAX_DEPTH + 1 - depth, |p|
  {
    if p == [] {
      forall names ensures !Chain(t, p, names) {}
    } else {
      var n := |p| - 1;
      LastToken(t, p, depth);
      ExpandFailsIff(t, p[..n], used, depth);
      if p[n].Ref? && t.Body(p[n].name).Some? && depth + 1 <= MAX_DEPTH {
        ExpandFailsIff(t, t.Body(p[n].name).value, Expand(t, p[..n], used, depth).used, depth + 1);
      }
    }
  }

  lemma {:induction false} ChainConcat(t: Tables, p: Pattern, a: seq<string>, b: seq<string>)
    requires Chain(t, p, a) && t.Body(a[|a| - 1]).Some? && Chain(t, t.Body(a[|a| - 1]).value, b)
    ensures Chain(t, p, a + b)
    decreases |a|
  {
    assert (a + b)[1..] == a[1..] + b;
    if |a| == 1 {
      assert a[1..] + b == b;
    } else {
      ChainConcat(t, t.Body(a[0]).value, a[1..], b);
    }
  }

  /** Going round a cycle k more times is still a chain. */
  lemma {:induction false} GoRound(t: Tables, p: Pattern, lead: seq<string>, cycle: seq<string>, k: nat)
    returns (names: seq<string>)
    requires Chain(t, p, lead) && t.Body(lead[|lead| - 1]).Some?
    requires Chain(t, t.Body(lead[|lead| - 1]).value, cycle) && cycle[|cycle| - 1] == lead[|lead| - 1]
    ensures Chain(t, p, names) && |names| > k && names[|names| - 1] == lead[|lead| - 1]
  {
    if k == 0 {
      names := lead;
    } else {
      var shorter := GoRound(t, p, lead, cycle, k - 1);
      ChainConcat(t, p, shorter, cycle);
      names := shorter + cycle;
    }
  }

  /** Every cycle the pattern can reach is an error. */
  lemma CyclesFail(t: Tables, p: Pattern, used: Used, lead: seq<string>, cycle: seq<string>)
    requires Chain(t, p, lead) && t.Body(lead[|lead| - 1]).Some?
    requires Chain(t, t.Body(lead[|lead| - 1]).value, cycle) && cycle[|cycle| - 1] == lead[|lead| - 1]
    ensures !Expand(t, p, used, 0).ok
  {
    var names := GoRound(t, p, lead, cycle, MAX_DEPTH);
    assert Bad(t, names, 0);
    ExpandFailsIff(t, p, used, 0);
  }
}
