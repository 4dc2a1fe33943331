/** Rendering a matched line for the web UI (groupTokens and segmentsFor in
    internal/webapi/webapi.go). */
module WebTokens {
  import opened Base
  import opened FieldNames
  import Grok
  import GrokNames

  // ---------------------------------------------------------------------------
  // groupTokens
  // ---------------------------------------------------------------------------

  /** A reference of the grok text that has a field: the sanitised field and the primitive. */
  datatype FieldRef = FieldRef(field: string, prim: string)

  function FieldsOf(refs: seq<FieldRef>): (r: seq<string>)
    ensures |r| == |refs|
  {
    seq(|refs|, i requires 0 <= i < |refs| => refs[i].field)
  }

  /** Named groups among groups 1 .. g-1. */
  function Rank(names: seq<string>, g: nat): nat
    requires g <= |names|
  {
    if g <= 1 then 0 else Rank(names, g - 1) + if names[g - 1] != "" then 1 else 0
  }

  /** The compiler's output: apart from unnamed groups, the groups carry the unique names of the
      fields, in order. */
  ghost predicate NamedAfter(names: seq<string>, fields: seq<string>) {
    forall g :: 1 <= g < |names| && names[g] != "" ==>
      Rank(names, g) < |fields| && names[g] == NameAt(fields, Rank(names, g))
  }

  type Queues = map<string, seq<string>>

  function Queue(q: Queues, f: string): seq<string> { if f in q then q[f] else [] }

  /** Primitives of the references to f from position r on. */
  function Waiting(refs: seq<FieldRef>, f: string, r: nat): seq<string>
    requires r <= |refs|
    decreases |refs| - r
  {
    if r == |refs| then []
    else (if refs[r].field == f then [refs[r].prim] else []) + Waiting(refs, f, r + 1)
  }

  method BuildQueues(refs: seq<FieldRef>) returns (queues: Queues)
    ensures forall f :: Queue(queues, f) == Waiting(refs, f, 0)
  {
    queues := map[];
    for i := 0 to |refs|
      invariant forall f :: Queue(queues, f) + Waiting(refs, f, i) == Waiting(refs, f, 0)
    {
      var f := refs[i].field;
      forall h ensures Queue(queues, h) + Waiting(refs, h, i)
                    == Queue(queues, h) + (if h == f then [refs[i].prim] else []) + Waiting(refs, h, i + 1)
      {
      }
      queues := queues[f := Queue(queues, f) + [refs[i].prim]];
    }
  }

  /** The queue a group takes its token from, if any: its own name's, else its name's without the
      numeric suffix. */
  function TakeFrom(queues: Queues, name: string): (r: Option<string>)
    ensures r.Some? ==> r.value in queues && queues[r.value] != []
  {
    if Queue(queues, name) != [] then Some(name)
    else
      var base := TrimNumSuffix(name);
      if base != name && Queue(queues, base) != [] then Some(base) else None
  }

  /** The queues hold what the references from position r on still wait for. */
  ghost predicate QueuesAt(refs: seq<FieldRef>, queues: Queues, r: nat) {
    r <= |refs| && forall f :: Queue(queues, f) == Waiting(refs, f, r)
  }

  ghost predicate Assigned(refs: seq<FieldRef>, names: seq<string>, tokens: seq<string>, g: nat) {
    && |tokens| == |names|
    && forall h: nat :: 1 <= h < g && h < |names| && names[h] != "" ==> AssignedAt(refs, names, tokens, h)
  }

  /** If the names are distinct and as compiled, the groups before g have their tokens and the queues
      hold the rest. */
  ghost predicate Paired(refs: seq<FieldRef>, names: seq<string>, queues: Queues, tokens: seq<string>, g: nat)
    requires g <= |names|
  {
    && |tokens| == |names|
    && (NoClash(FieldsOf(refs)) && NamedAfter(names, FieldsOf(refs)) ==>
          QueuesAt(refs, queues, Rank(names, g)) && Assigned(refs, names, tokens, g))
  }

  /** Pairing one group: a token for it and the queues left, or no change when no queue fits. */
  function PairOne(queues: Queues, token: string, name: string): (string, Queues) {
    match TakeFrom(queues, name)
    case None => (token, queues)
    case Some(f) => (queues[f][0], queues[f := queues[f][1..]])
  }

  lemma RankStep(names: seq<string>, g: nat)
    requires 1 <= g < |names|
    ensures Rank(names, g + 1) == Rank(names, g) + if names[g] != "" then 1 else 0
  {
  }

  /** Group h has the token of its reference. */
  ghost predicate AssignedAt(refs: seq<FieldRef>, names: seq<string>, tokens: seq<string>, h: nat)
    requires h < |names| == |tokens|
  {
    Rank(names, h) < |refs| && tokens[h] == refs[Rank(names, h)].prim
  }

  lemma AssignedKept(refs: seq<FieldRef>, names: seq<string>, tokens: seq<string>, longer: seq<string>, h: nat)
    requires h < |names| == |tokens| == |longer| && AssignedAt(refs, names, tokens, h) && longer[h] == tokens[h]
    ensures AssignedAt(refs, names, longer, h)
  {
  }

  lemma AssignedSkip(refs: seq<FieldRef>, names: seq<string>, tokens: seq<string>, g: nat)
    requires 1 <= g < |names| && Assigned(refs, names, tokens, g) && names[g] == ""
    ensures Assigned(refs, names, tokens, g + 1)
  {
    forall h: nat | 1 <= h < g + 1 && h < |names| && names[h] != "" ensures AssignedAt(refs, names, tokens, h) {
      AssignedKept(refs, names, tokens, tokens, h);
    }
  }

  lemma AssignedNext(refs: seq<FieldRef>, names: seq<string>, tokens: seq<string>, g: nat, token: string)
    requires 1 <= g < |names| && Assigned(refs, names, tokens, g)
    requires AssignedAt(refs, names, tokens[g := token], g)
    ensures Assigned(refs, names, tokens[g := token], g + 1)
  {
    var longer := tokens[g := token];
    forall h: nat | 1 <= h < g + 1 && h < |names| && names[h] != "" ensures AssignedAt(refs, names, longer, h) {
      if h < g { AssignedKept(refs, names, tokens, longer, h); }
    }
  }

  /** An unnamed group changes nothing. */
  lemma PairedSkip(refs: seq<FieldRef>, names: seq<string>, queues: Queues, tokens: seq<string>, g: nat)
    requires 1 <= g < |names| && Paired(refs, names, queues, tokens, g) && names[g] == ""
    ensures Paired(refs, names, queues, tokens, g + 1)
  {
    RankStep(names, g);
    if NoClash(FieldsOf(refs)) && NamedAfter(names, FieldsOf(refs)) { AssignedSkip(refs, names, tokens, g); }
  }

  /** A named group takes its token from its queue. */
  lemma PairedStep(refs: seq<FieldRef>, names: seq<string>, queues: Queues, tokens: seq<string>, g: nat)
    requires forall i :: 0 <= i < |refs| ==> refs[i].field != ""
    requires 1 <= g < |names| && Paired(refs, names, queues, tokens, g) && names[g] != ""
    ensures var (token, rest) := PairOne(queues, tokens[g], names[g]);
            Paired(refs, names, rest, tokens[g := token], g + 1)
  {
    RankStep(names, g);
    if NoClash(FieldsOf(refs)) && NamedAfter(names, FieldsOf(refs)) {
      HeadOfQueue(refs, queues, Rank(names, g));
      PopQueue(refs, queues, Rank(names, g));
      AssignedNext(refs, names, tokens, g, PairOne(queues, tokens[g], names[g]).0);
    }
  }

  /** groupTokens: whenever the group names are distinct, the i-th named group gets the primitive of
      the i-th reference with a field. */
  method GroupTokens(refs: seq<FieldRef>, names: seq<string>) returns (tokens: seq<string>)
    requires forall i :: 0 <= i < |refs| ==> refs[i].field != ""
    requires names != []
    ensures |tokens| == |names|
    ensures NoClash(FieldsOf(refs)) && NamedAfter(names, FieldsOf(refs)) ==> Assigned(refs, names, tokens, |names|)
  {
    var queues := BuildQueues(refs);
    tokens := seq(|names|, _ => "");
    for g := 1 to |names|
      invariant Paired(refs, names, queues, tokens, g)
    {
      if names[g] == "" {
        PairedSkip(refs, names, queues, tokens, g);
      } else {
        PairedStep(refs, names, queues, tokens, g);
        var (token, rest) := PairOne(queues, tokens[g], names[g]);
        tokens, queues := tokens[g := token], rest;
      }
    }
  }

  lemma {:induction false} WaitingSkips(refs: seq<FieldRef>, f: string, r: nat)
    requires r <= |refs| && forall i :: r <= i < |refs| ==> refs[i].field != f
    ensures Waiting(refs, f, r) == []
    decreases |refs| - r
  {
    if r < |refs| { WaitingSkips(refs, f, r + 1); }
  }

  /** A repeated field's name is no field itself, and leads back to the field. */
  lemma RepeatedName(fields: seq<string>, r: nat)
    requires r < |fields| && fields[r] != "" && NoClash(fields) && Occurrences(fields[..r], fields[r]) > 0
    ensures TrimNumSuffix(NameAt(fields, r)) == fields[r] != NameAt(fields, r)
    ensures forall i :: 0 <= i < |fields| ==> fields[i] != NameAt(fields, r)
  {
    var n := Occurrences(fields[..r], fields[r]);
    assert fields[..|fields|] == fields;
    OccurrencesGrow(fields, fields[r], r, |fields|);
    TrimSuffixed(fields[r], n + 1);
    LongerThan(fields[r], n + 1);
  }

  /** The r-th named group finds the r-th reference at the head of its field's queue. */
  lemma HeadOfQueue(refs: seq<FieldRef>, queues: Queues, r: nat)
    requires r < |refs| && refs[r].field != "" && NoClash(FieldsOf(refs)) && QueuesAt(refs, queues, r)
    ensures TakeFrom(queues, NameAt(FieldsOf(refs), r)) == Some(refs[r].field)
    ensures Queue(queues, refs[r].field) == [refs[r].prim] + Waiting(refs, refs[r].field, r + 1)
  {
    var fields := FieldsOf(refs);
    assert fields[r] == refs[r].field;
    assert Waiting(refs, refs[r].field, r) == [refs[r].prim] + Waiting(refs, refs[r].field, r + 1);
    if Occurrences(fields[..r], fields[r]) > 0 {
      RepeatedName(fields, r);
      forall i | r <= i < |refs| ensures refs[i].field != NameAt(fields, r) { assert fields[i] != NameAt(fields, r); }
      WaitingSkips(refs, NameAt(fields, r), r);
    }
  }

  /** Taking the head moves every queue on by one reference. */
  lemma PopQueue(refs: seq<FieldRef>, queues: Queues, r: nat)
    requires r < |refs| && QueuesAt(refs, queues, r) && refs[r].field in queues && queues[refs[r].field] != []
    ensures QueuesAt(refs, queues[refs[r].field := queues[refs[r].field][1..]], r + 1)
  {
    var q := queues[refs[r].field := queues[refs[r].field][1..]];
    forall f ensures Queue(q, f) == Waiting(refs, f, r + 1) {
      assert Queue(queues, f) == Waiting(refs, f, r);
    }
  }

  /** The references groupTokens sees in a pattern. */
  function RefsOf(p: Grok.Pattern): (refs: seq<FieldRef>)
    ensures FieldsOf(refs) == GrokNames.Fields(p)
    ensures forall i :: 0 <= i < |refs| ==> refs[i].field != ""
  {
    if p == [] then []
    else
      var n := |p| - 1;
      var rest := RefsOf(p[..n]);
      if p[n].Ref? && SanitizeFieldName(p[n].field) != ""
      then rest + [FieldRef(SanitizeFieldName(p[n].field), p[n].name)] else rest
  }

  /** The references at these positions of the pattern, each with its field sanitised and the primitive it
      names. */
  ghost predicate RefsAt(p: Grok.Pattern, refs: seq<FieldRef>, at: seq<nat>) {
    && Rising(at, |p|) && |at| == |refs|
    && (forall i: nat :: i < |p| ==> (i in at <==> p[i].Ref? && p[i].field != ""))
    && forall j :: 0 <= j < |at| ==> p[at[j]].Ref? && refs[j] == FieldRef(SanitizeFieldName(p[at[j]].field), p[at[j]].name)
  }

  lemma RefsAtNext(p: Grok.Pattern, init: Grok.Pattern, tok: Grok.Tok, refs: seq<FieldRef>, at: seq<nat>, n: nat)
    requires p == init + [tok] && n == |init| && RefsAt(init, refs, at)
    ensures if tok.Ref? && tok.field != ""
            then RefsAt(p, refs + [FieldRef(SanitizeFieldName(tok.field), tok.name)], at + [n]) else RefsAt(p, refs, at)
  {
    RisingNext(at, n);
    assert p[n] == tok && forall i: nat :: i < n ==> p[i] == init[i];
  }

  /** They are the pattern's references with a field, in order. */
  lemma {:induction false} RefsInOrder(p: Grok.Pattern) returns (at: seq<nat>)
    ensures RefsAt(p, RefsOf(p), at)
  {
    if p == [] {
      at := [];
    } else {
      var n := |p| - 1;
      at := RefsInOrder(p[..n]);
      RefsAtNext(p, p[..n], p[n], RefsOf(p[..n]), at, n);
      if p[n].Ref? && p[n].field != "" { at := at + [n]; }
    }
  }

  /** The compiled groups of a flat pattern are named as groupTokens expects. */
  lemma CompiledNames(t: Grok.Tables, p: Grok.Pattern, names: seq<string>)
    requires GrokNames.Flat(t, p, 0) && Grok.Expand(t, p, map[], 0).ok
    requires NamedInOrder(names, GrokNames.Groups(Grok.Expand(t, p, map[], 0).out))
    ensures NamedAfter(names, FieldsOf(RefsOf(p)))
  {
    GrokNames.GroupsAreNames(t, p, 0);
  }

  /** The named entries of a regexp's group list are these names, in order. */
  ghost predicate NamedInOrder(names: seq<string>, groups: seq<string>) {
    forall g :: 1 <= g < |names| && names[g] != "" ==> Rank(names, g) < |groups| && names[g] == groups[Rank(names, g)]
  }
}
