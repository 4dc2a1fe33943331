/** The tiler's two regexp caches racing with configuration writers (ensureCompExprs,
    ensureTileSingles, loadTileSingles and resetTilerCaches in internal/pattern/tiler.go). Builders
    never look at the version again, and resets keep the built slices. */
module TilerCache {
  import opened Base

  /** CompileGrok on one expression against one primitive table. */
  type Compiler = (string, map<string, string>) -> Option<Matcher>

  datatype Kind = CompExprs | TileSingles

  type Regexes = seq<Option<Matcher>>

  /** `built` is the compiled slice, absent before the first build; `helpers` says whether the DATA
      and HOSTNAME entries that belong to the slice are still in place. */
  datatype Cache = Cache(ver: nat, loaded: bool, built: Option<Regexes>, helpers: bool)

  datatype Pc =
    | Idle
    | ReadVersion(kind: Kind)
    | Check(kind: Kind, v: nat)
    | Build(kind: Kind, v: nat, done: Regexes)
    | Store(kind: Kind, v: nat, done: Regexes)
    | Ensured(kind: Kind)

  /** hist[v] is the primitive table of version v; the last one is current. */
  datatype State = State(hist: seq<map<string, string>>, comp: Cache, singles: Cache, pcs: seq<Pc>)

  datatype Event = Commit(primitives: map<string, string>) | Reset(kind: Kind) | Ensure(w: nat, kind: Kind) | Advance(w: nat)

  function Version(s: State): int { |s.hist| - 1 }

  function CacheOf(s: State, k: Kind): Cache { if k.CompExprs? then s.comp else s.singles }

  function WithCache(s: State, k: Kind, c: Cache): State {
    if k.CompExprs? then s.(comp := c) else s.(singles := c)
  }

  /** The expressions each cache compiles, and the token primitive used when none of them compiles. */
  datatype Job = Job(compile: Compiler, comps: seq<string>, tokens: seq<string>, fallback: Matcher) {

    function Names(k: Kind): seq<string> { if k.CompExprs? then comps else tokens + ["DATA", "HOSTNAME"] }

    /** The entries that compiled. */
    function Compiled(done: Regexes): seq<Matcher> {
      if done == [] then []
      else Compiled(done[..|done| - 1]) + match done[|done| - 1] case Some(re) => [re] case None => []
    }

    /** What loadTileSingles publishes of the token entries: those that compiled, or the catch-all. */
    function Slice(done: Regexes): (slice: seq<Matcher>)
      ensures |slice| == Max(|Compiled(done)|, 1)
    {
      var ok := Compiled(done);
      if ok == [] then [fallback] else ok
    }

    /** The slice entry by entry: positions at[0] < at[1] < ... of a build hold the entries that compiled, in
        the slice's order; when none did the slice is the catch-all alone. */
    lemma {:induction false} SliceEntries(done: Regexes) returns (at: seq<nat>)
      ensures Rising(at, |done|) && (forall i: nat :: i < |done| ==> (i in at <==> done[i].Some?))
      ensures |at| == |Compiled(done)| && forall j :: 0 <= j < |at| ==> Some(Compiled(done)[j]) == done[at[j]]
      ensures at != [] ==> Slice(done) == Compiled(done)
      ensures at == [] ==> Slice(done) == [fallback]
    {
      if done == [] {
        at := [];
      } else {
        var n := |done| - 1;
        at := SliceEntries(done[..n]);
        RisingNext(at, n);
        assert forall i: nat :: i < n ==> done[..n][i] == done[i];
        if done[n].Some? { at := at + [n]; }
      }
    }

    /** The single-token slice a reader indexes: empty before the first build, and only then. */
    function Singles(c: Cache): (slice: seq<Matcher>)
      ensures slice == [] <==> c.built.None?
    {
      match c.built
      case None => []
      case Some(done) => Slice(done[..Min(|done|, |tokens|)])
    }

    /** The test that lets a reader skip the build: the composite cache looks at its loaded flag, the
        single-token cache at the length of its slice. */
    predicate Hit(k: Kind, c: Cache, v: int) {
      c.ver == v && if k.CompExprs? then c.loaded else |Singles(c)| > 0
    }

    function CompileAll(names: seq<string>, primitives: map<string, string>): Regexes {
      seq(|names|, i requires 0 <= i < |names| => compile(names[i], primitives))
    }

    /** Resets follow a commit: every caller of resetTilerCaches has just bumped the version. */
    predicate Enabled(s: State, e: Event) {
      && s.hist != []
      && match e
         case Commit(_) => true
         case Reset(_) => |s.hist| > 1
         case Ensure(w, _) => w < |s.pcs| && s.pcs[w].Idle?
         case Advance(w) => w < |s.pcs| && !s.pcs[w].Idle?
                            && (s.pcs[w].Build? ==> |s.pcs[w].done| <= |Names(s.pcs[w].kind)|)
    }

    function Step(s: State, e: Event): State
      requires Enabled(s, e)
    {
      match e
      case Commit(p) => s.(hist := s.hist + [p])
      case Reset(k) =>
        var c := CacheOf(s, k);
        WithCache(s, k, if k.CompExprs? then c.(ver := 0, loaded := false) else c.(ver := 0, helpers := false))
      case Ensure(w, k) => s.(pcs := s.pcs[w := ReadVersion(k)])
      case Advance(w) => Stored(s, s.pcs[w]).(pcs := s.pcs[w := Resume(s, s.pcs[w])])
    }

    /** The caches after a step at pc: a finished build replaces whatever is there, unless that
        already stands at the builder's version. */
    function Stored(s: State, pc: Pc): State {
      if pc.Store? && !Hit(pc.kind, CacheOf(s, pc.kind), pc.v)
      then WithCache(s, pc.kind, Cache(pc.v, true, Some(pc.done), true)) else s
    }

    function Resume(s: State, pc: Pc): Pc
      requires s.hist != [] && !pc.Idle? && (pc.Build? ==> |pc.done| <= |Names(pc.kind)|)
    {
      match pc
      case ReadVersion(k) => Check(k, Version(s))
      case Check(k, v) => if Hit(k, CacheOf(s, k), v) then Ensured(k) else Build(k, v, [])
      case Build(k, v, done) =>
        if |done| == |Names(k)| then Store(k, v, done)
        else Build(k, v, done + [compile(Names(k)[|done|], s.hist[|s.hist| - 1])])
      case Store(k, _, _) => Ensured(k)
      case Ensured(_) => Idle
    }

    predicate Initial(s: State) {
      && |s.hist| == 1
      && s.comp == Cache(0, false, None, false) && s.singles == Cache(0, false, None, false)
      && forall w :: 0 <= w < |s.pcs| ==> s.pcs[w].Idle?
    }

    // -------------------------------------------------------------------------
    // Invariant
    // -------------------------------------------------------------------------

    /** A cache that a reader of the current version would accept holds exactly the regexes of the
        current primitives, helpers included. */
    ghost predicate Fresh(s: State, k: Kind)
      requires s.hist != []
    {
      var c := CacheOf(s, k);
      Hit(k, c, Version(s)) ==> c.built == Some(CompileAll(Names(k), s.hist[|s.hist| - 1])) && c.helpers
    }

    /** Once built, the slice a reader indexes has one entry per expression. */
    ghost predicate Sized(s: State, k: Kind) {
      var c := CacheOf(s, k);
      && c.ver < |s.hist| && (c.loaded ==> c.built.Some?)
      && (c.built.Some? ==> |c.built.value| == |Names(k)|)
    }

    ghost predicate PcOk(s: State, pc: Pc)
      requires s.hist != []
    {
      match pc
      case Idle => true
      case ReadVersion(_) => true
      case Check(_, v) => v < |s.hist|
      case Build(k, v, done) =>
        && v < |s.hist| && |done| <= |Names(k)|
        && (v == |s.hist| - 1 ==> done == CompileAll(Names(k), s.hist[v])[..|done|])
      case Store(k, v, done) =>
        && v < |s.hist| && |done| == |Names(k)|
        && (v == |s.hist| - 1 ==> done == CompileAll(Names(k), s.hist[v]))
      case Ensured(k) => CacheOf(s, k).built.Some?
    }

    ghost predicate Inv(s: State) {
      && s.hist != []
      && Fresh(s, CompExprs) && Fresh(s, TileSingles) && Sized(s, CompExprs) && Sized(s, TileSingles)
      && forall w :: 0 <= w < |s.pcs| ==> PcOk(s, s.pcs[w])
    }

    lemma ResumeOk(s: State, pc: Pc)
      requires s.hist != [] && PcOk(s, pc) && !pc.Idle? && Sized(s, CompExprs) && Sized(s, TileSingles)
      ensures PcOk(Stored(s, pc), Resume(s, pc))
    {
      if pc.Build? {
        var all := CompileAll(Names(pc.kind), s.hist[pc.v]);
        assert |pc.done| == |Names(pc.kind)| ==> all[..|pc.done|] == all;
        assert |pc.done| < |Names(pc.kind)| ==> all[..|pc.done| + 1] == all[..|pc.done|] + [all[|pc.done|]];
      }
    }

    lemma StoredOk(s: State, pc: Pc)
      requires s.hist != [] && PcOk(s, pc)
      requires Fresh(s, CompExprs) && Fresh(s, TileSingles) && Sized(s, CompExprs) && Sized(s, TileSingles)
      ensures var t := Stored(s, pc);
              t.hist == s.hist && Fresh(t, CompExprs) && Fresh(t, TileSingles) && Sized(t, CompExprs) && Sized(t, TileSingles)
    {
    }

    /** A slice once built stays built. */
    lemma OthersOk(s: State, t: State, pc: Pc)
      requires s.hist != [] && PcOk(s, pc) && t.hist == s.hist
      requires forall k :: CacheOf(s, k).built.Some? ==> CacheOf(t, k).built.Some?
      ensures PcOk(t, pc)
    {
    }

    lemma AdvanceKeepsInv(s: State, w: nat)
      requires Inv(s) && Enabled(s, Advance(w))
      ensures Inv(Step(s, Advance(w)))
    {
      var m, t := Stored(s, s.pcs[w]), Step(s, Advance(w));
      assert PcOk(s, s.pcs[w]);
      StoredOk(s, s.pcs[w]);
      ResumeOk(s, s.pcs[w]);
      forall u | 0 <= u < |t.pcs| ensures PcOk(t, t.pcs[u]) {
        if u != w { assert PcOk(s, s.pcs[u]); OthersOk(s, t, s.pcs[u]); } else { OthersOk(m, t, t.pcs[w]); }
      }
    }

    lemma StepKeepsInv(s: State, e: Event)
      requires Inv(s) && Enabled(s, e)
      ensures Inv(Step(s, e))
    {
      if e.Advance? {
        AdvanceKeepsInv(s, e.w);
      } else {
        var t := Step(s, e);
        forall w | 0 <= w < |t.pcs| ensures PcOk(t, t.pcs[w]) { assert PcOk(s, s.pcs[w]); }
      }
    }

    // -------------------------------------------------------------------------
    // Runs
    // -------------------------------------------------------------------------

    /** States before, between and after some events. */
    ghost predicate Path(states: seq<State>, events: seq<Event>) {
      |states| == |events| + 1 && forall k :: 0 <= k < |events| ==> Taken(states, events, k)
    }

    ghost predicate Taken(states: seq<State>, events: seq<Event>, k: nat)
      requires |states| == |events| + 1 && k < |events|
    {
      Enabled(states[k], events[k]) && states[k + 1] == Step(states[k], events[k])
    }

    ghost predicate Run(states: seq<State>, events: seq<Event>) { Path(states, events) && Initial(states[0]) }

    lemma {:induction false} PathKeepsInv(states: seq<State>, events: seq<Event>, k: nat)
      requires Path(states, events) && Inv(states[0]) && k < |states|
      ensures Inv(states[k])
    {
      if k > 0 {
        PathKeepsInv(states, events, k - 1);
        assert Taken(states, events, k - 1);
        StepKeepsInv(states[k - 1], events[k - 1]);
      }
    }

    lemma RunKeepsInv(states: seq<State>, events: seq<Event>, k: nat)
      requires Run(states, events) && k < |states|
      ensures Inv(states[k])
    {
      PathKeepsInv(states, events, k);
    }

    /** One regexp for each name, compiled against these primitives. */
    ghost predicate Holds(done: Regexes, names: seq<string>, primitives: map<string, string>) {
      |done| == |names| && forall i :: 0 <= i < |names| ==> done[i] == compile(names[i], primitives)
    }

    /** In every reachable state, a cache marked with the current version (and loaded) holds only
        regexes built from the current primitives. */
    lemma MarkedCurrentIsCurrent(states: seq<State>, events: seq<Event>, k: nat, kind: Kind)
      requires Run(states, events) && k < |states| && Hit(kind, CacheOf(states[k], kind), Version(states[k]))
      ensures states[k].hist != []
      ensures CacheOf(states[k], kind).built == Some(CompileAll(Names(kind), states[k].hist[|states[k].hist| - 1]))
      ensures kind.CompExprs? ==> Holds(CacheOf(states[k], kind).built.value, comps, states[k].hist[|states[k].hist| - 1])
      ensures kind.TileSingles? ==>
                Holds(CacheOf(states[k], kind).built.value, tokens + ["DATA", "HOSTNAME"], states[k].hist[|states[k].hist| - 1])
    {
      RunKeepsInv(states, events, k);
    }

    /** A reader between its ensure and its index always finds something to index, even when a reset
        or another builder's publication falls in between: as many composite entries as there are
        composites, and at least one token primitive. */
    lemma ReadersInBounds(states: seq<State>, events: seq<Event>, k: nat, w: nat)
      requires Run(states, events) && k < |states| && w < |states[k].pcs| && states[k].pcs[w].Ensured?
      ensures var kind, c := states[k].pcs[w].kind, CacheOf(states[k], states[k].pcs[w].kind);
              && c.built.Some? && |c.built.value| == |Names(kind)|
              && (kind.CompExprs? ==> |c.built.value| == |comps|)
              && (kind.TileSingles? ==> Singles(c) == Slice(c.built.value[..|tokens|]) != [])
    {
      RunKeepsInv(states, events, k);
      assert PcOk(states[k], states[k].pcs[w]);
    }

    /** The first build of a version stays: no step replaces a cache that a reader of its version would
        accept by another build of that version. */
    lemma FirstBuildStays(s: State, e: Event, k: Kind)
      requires Enabled(s, e) && Hit(k, CacheOf(s, k), CacheOf(s, k).ver) && e != Reset(k)
      requires CacheOf(Step(s, e), k).ver == CacheOf(s, k).ver
      ensures CacheOf(Step(s, e), k) == CacheOf(s, k)
    {
      if e.Advance? { assert CacheOf(Step(s, e), k) == CacheOf(Stored(s, s.pcs[e.w]), k); }
    }

    lemma {:induction false} StoredAfterReset(states: seq<State>, events: seq<Event>, r: nat, k: nat, kind: Kind)
      returns (p: nat, u: nat)
      requires Run(states, events) && r < |events| && events[r] == Reset(kind) && r < k < |states|
      requires CacheOf(states[k], kind).ver != 0
      ensures r < p < k && events[p] == Advance(u) && u < |states[p].pcs|
      ensures states[p].pcs[u].Store? && states[p].pcs[u].kind == kind
      decreases k
    {
      assert Taken(states, events, r) && Taken(states, events, k - 1);
      if CacheOf(states[k - 1], kind).ver == 0 || k - 1 == r {
        p, u := k - 1, events[k - 1].w;
      } else {
        p, u := StoredAfterReset(states, events, r, k - 1, kind);
      }
    }

    lemma {:induction false} VersionsGrow(states: seq<State>, events: seq<Event>, a: nat, k: nat)
      requires Path(states, events) && a <= k < |states|
      ensures |states[a].hist| <= |states[k].hist|
      decreases k
    {
      if a < k {
        VersionsGrow(states, events, a, k - 1);
        assert Taken(states, events, k - 1);
      }
    }

    /** After a reset no reader skips the build until a builder has stored again. */
    lemma RebuiltAfterReset(states: seq<State>, events: seq<Event>, r: nat, k: nat, kind: Kind) returns (p: nat, u: nat)
      requires Run(states, events) && r < |events| && events[r] == Reset(kind) && r < k < |states|
      requires Hit(kind, CacheOf(states[k], kind), Version(states[k]))
      ensures r < p < k && events[p] == Advance(u) && u < |states[p].pcs|
      ensures states[p].pcs[u].Store? && states[p].pcs[u].kind == kind
    {
      assert Taken(states, events, r);
      VersionsGrow(states, events, r, k);
      p, u := StoredAfterReset(states, events, r, k, kind);
    }

    // -------------------------------------------------------------------------
    // When a reader sees the current regexes
    // -------------------------------------------------------------------------

    /** The cache holds what the current primitives compile to. */
    ghost predicate Current(s: State, k: Kind) {
      s.hist != [] && CacheOf(s, k).built == Some(CompileAll(Names(k), s.hist[|s.hist| - 1]))
    }

    /** The process is building the cache, and some of what it has compiled is not what the current
        primitives compile to. */
    ghost predicate Stray(s: State, k: Kind, pc: Pc) {
      (pc.Build? || pc.Store?) && pc.kind == k && !(s.hist != [] && pc.done <= CompileAll(Names(k), s.hist[|s.hist| - 1]))
    }

    ghost predicate NoStray(s: State, k: Kind) { forall w :: 0 <= w < |s.pcs| ==> !Stray(s, k, s.pcs[w]) }

    /** What may happen from s on while no configuration is committed. */
    ghost predicate Continues(s: State, states: seq<State>, events: seq<Event>) {
      Path(states, events) && states[0] == s && forall k :: 0 <= k < |events| ==> !events[k].Commit?
    }

    lemma ResumeAgrees(s: State, k: Kind, pc: Pc)
      requires s.hist != [] && PcOk(s, pc) && !pc.Idle? && !Stray(s, k, pc)
      ensures !Stray(s, k, Resume(s, pc))
    {
      if pc.Build? && |pc.done| < |Names(pc.kind)| {
        var all := CompileAll(Names(pc.kind), s.hist[|s.hist| - 1]);
        if pc.kind == k { assert all[..|pc.done| + 1] == pc.done + [all[|pc.done|]]; }
      }
    }

    lemma StoreKeepsCurrent(s: State, k: Kind, pc: Pc)
      requires s.hist != [] && PcOk(s, pc) && Current(s, k) && !Stray(s, k, pc)
      ensures Current(Stored(s, pc), k)
    {
      if pc.Store? && pc.kind == k {
        var all := CompileAll(Names(k), s.hist[|s.hist| - 1]);
        assert pc.done == all[..|pc.done|] == all;
      }
    }

    lemma StepKeepsCurrent(s: State, e: Event, k: Kind)
      requires Inv(s) && Enabled(s, e) && !e.Commit? && Current(s, k) && NoStray(s, k)
      ensures Current(Step(s, e), k) && NoStray(Step(s, e), k)
    {
      var t := Step(s, e);
      if e.Advance? {
        assert PcOk(s, s.pcs[e.w]) && !Stray(s, k, s.pcs[e.w]);
        StoreKeepsCurrent(s, k, s.pcs[e.w]);
        ResumeAgrees(s, k, s.pcs[e.w]);
      }
      assert t.hist == s.hist;
      forall w | 0 <= w < |t.pcs| ensures !Stray(t, k, t.pcs[w]) {
        if !(e.Advance? && w == e.w) { assert !Stray(s, k, s.pcs[w]); }
      }
    }

    lemma {:induction false} StaysCurrent(s: State, states: seq<State>, events: seq<Event>, k: Kind, n: nat)
      requires Inv(s) && Current(s, k) && NoStray(s, k) && Continues(s, states, events) && n < |states|
      ensures Current(states[n], k) && NoStray(states[n], k)
    {
      if n > 0 {
        StaysCurrent(s, states, events, k, n - 1);
        PathKeepsInv(states, events, n - 1);
        assert Taken(states, events, n - 1);
        StepKeepsCurrent(states[n - 1], events[n - 1], k);
      }
    }

    /** The regexes a builder ends up with if nothing is committed before it is done. */
    function Finished(s: State, k: Kind, done: Regexes): Regexes
      requires s.hist != [] && |done| <= |Names(k)|
    {
      done + CompileAll(Names(k), s.hist[|s.hist| - 1])[|done|..]
    }

    /** The state once builder w has stored `done`. */
    function AfterStore(s: State, w: nat, k: Kind, v: nat, done: Regexes): State
      requires w < |s.pcs|
    {
      Stored(s, Store(k, v, done)).(pcs := s.pcs[w := Ensured(k)])
    }

    /** One path, then another from where it ends. */
    lemma JoinPaths(s1: seq<State>, e1: seq<Event>, s2: seq<State>, e2: seq<Event>)
      returns (states: seq<State>, events: seq<Event>)
      requires Path(s1, e1) && Path(s2, e2) && s1[|e1|] == s2[0]
      ensures Path(states, events) && events == e1 + e2 && states[0] == s1[0]
      ensures states[|e1|] == s1[|e1|] && states[|events|] == s2[|e2|]
    {
      states, events := s1 + s2[1..], e1 + e2;
      forall k | 0 <= k < |events| ensures Taken(states, events, k) {
        if k < |e1| { assert Taken(s1, e1, k); } else { assert Taken(s2, e2, k - |e1|); }
      }
    }

    lemma OneStep(s: State, e: Event, t: State)
      requires Enabled(s, e) && t == Step(s, e)
      ensures Path([s, t], [e])
    {
      var states, events := [s, t], [e];
      assert Taken(states, events, 0);
    }

    /** Builder w, left alone, compiles the rest. */
    lemma {:induction false} CompileRest(s: State, w: nat, k: Kind, v: nat, done: Regexes)
      returns (states: seq<State>, events: seq<Event>)
      requires s.hist != [] && w < |s.pcs| && s.pcs[w] == Build(k, v, done) && |done| <= |Names(k)|
      ensures Path(states, events) && states[0] == s && forall i :: 0 <= i < |events| ==> events[i] == Advance(w)
      ensures states[|events|] == s.(pcs := s.pcs[w := Build(k, v, Finished(s, k, done))])
      decreases |Names(k)| - |done|
    {
      if |done| == |Names(k)| {
        assert Finished(s, k, done) == done && s.pcs[w := Build(k, v, done)] == s.pcs;
        states, events := [s], [];
      } else {
        var more := done + [compile(Names(k)[|done|], s.hist[|s.hist| - 1])];
        var t := s.(pcs := s.pcs[w := Build(k, v, more)]);
        OneStep(s, Advance(w), t);
        assert Finished(s, k, done) == Finished(t, k, more);
        states, events := CompileRest(t, w, k, v, more);
        states, events := JoinPaths([s, t], [Advance(w)], states, events);
      }
    }

    /** Builder w, left alone, finishes and stores. */
    lemma FinishBuild(s: State, w: nat, k: Kind, v: nat, done: Regexes) returns (states: seq<State>, events: seq<Event>)
      requires s.hist != [] && w < |s.pcs| && s.pcs[w] == Build(k, v, done) && |done| <= |Names(k)|
      ensures Path(states, events) && states[0] == s && forall i :: 0 <= i < |events| ==> events[i] == Advance(w)
      ensures states[|events|] == AfterStore(s, w, k, v, Finished(s, k, done))
    {
      var full := Finished(s, k, done);
      states, events := CompileRest(s, w, k, v, done);
      var built, t := states[|events|], s.(pcs := s.pcs[w := Store(k, v, full)]);
      OneStep(built, Advance(w), t);
      OneStep(t, Advance(w), AfterStore(s, w, k, v, full));
      states, events := JoinPaths(states, events, [built, t], [Advance(w)]);
      states, events := JoinPaths(states, events, [t, AfterStore(s, w, k, v, full)], [Advance(w)]);
    }

    /** A builder that disagrees with the current primitives has a way to publish what it holds. */
    lemma StrayPublishes(s: State, k: Kind, w: nat) returns (states: seq<State>, events: seq<Event>)
      requires Inv(s) && Hit(k, CacheOf(s, k), Version(s)) && w < |s.pcs| && Stray(s, k, s.pcs[w])
      ensures Continues(s, states, events) && !Current(states[|events|], k)
      ensures |states[|events|].pcs| == |s.pcs| && forall u :: 0 <= u < |s.pcs| && u != w ==> states[|events|].pcs[u] == s.pcs[u]
    {
      var pc := s.pcs[w];
      assert PcOk(s, pc) && pc.v != Version(s);
      if pc.Store? {
        states, events := [s, Step(s, Advance(w))], [Advance(w)];
        OneStep(s, Advance(w), Step(s, Advance(w)));
      } else {
        states, events := FinishBuild(s, w, k, pc.v, pc.done);
        assert pc.done <= Finished(s, k, pc.done);
      }
    }

    /** From a state in which a reader of the current version would accept the cache, every
        continuation without a commit keeps the cache current if and only if no builder of the cache
        holds a regex that the current primitives do not compile to. */
    lemma StaysCurrentIff(s: State, k: Kind)
      requires Inv(s) && Hit(k, CacheOf(s, k), Version(s))
      ensures NoStray(s, k) <==> forall states, events :: Continues(s, states, events) ==> Current(states[|events|], k)
    {
      if NoStray(s, k) {
        forall states, events | Continues(s, states, events) ensures Current(states[|events|], k) {
          StaysCurrent(s, states, events, k, |events|);
        }
      } else {
        var w :| 0 <= w < |s.pcs| && Stray(s, k, s.pcs[w]);
        var states, events := StrayPublishes(s, k, w);
      }
    }

    // -------------------------------------------------------------------------
    // When the single-token slice shrinks
    // -------------------------------------------------------------------------

    /** How many of the names a primitive table compiles. */
    function Compiling(names: seq<string>, primitives: map<string, string>): nat {
      if names == [] then 0
      else Compiling(names[..|names| - 1], primitives) + if compile(names[|names| - 1], primitives).Some? then 1 else 0
    }

    lemma {:induction false} CompiledSize(names: seq<string>, primitives: map<string, string>)
      ensures |Compiled(CompileAll(names, primitives))| == Compiling(names, primitives)
    {
      if names != [] {
        var n := |names| - 1;
        CompiledSize(names[..n], primitives);
        assert CompileAll(names, primitives)[..n] == CompileAll(names[..n], primitives);
      }
    }

    /** The slice of a full build has one entry per token primitive that compiles, or the catch-all. */
    lemma SinglesSize(c: Cache, primitives: map<string, string>)
      requires c.built == Some(CompileAll(Names(TileSingles), primitives))
      ensures |Singles(c)| == Max(Compiling(tokens, primitives), 1)
    {
      CompiledSize(tokens, primitives);
      assert c.built.value[..|tokens|] == CompileAll(tokens, primitives);
    }

    /** In any run, between two instants at which the cache is marked current, the slice has shrunk if
        and only if the later primitives compile fewer of the tokens (the catch-all counting as one). */
    lemma SliceShrinksIff(states: seq<State>, events: seq<Event>, i: nat, j: nat)
      requires Run(states, events) && i <= j < |states|
      requires Hit(TileSingles, states[i].singles, Version(states[i]))
      requires Hit(TileSingles, states[j].singles, Version(states[j]))
      ensures states[i].hist != [] && states[j].hist != []
      ensures |Singles(states[j].singles)| < |Singles(states[i].singles)| <==>
                Max(Compiling(tokens, states[j].hist[|states[j].hist| - 1]), 1)
                < Max(Compiling(tokens, states[i].hist[|states[i].hist| - 1]), 1)
    {
      MarkedCurrentIsCurrent(states, events, i, TileSingles);
      MarkedCurrentIsCurrent(states, events, j, TileSingles);
      SinglesSize(states[i].singles, states[i].hist[|states[i].hist| - 1]);
      SinglesSize(states[j].singles, states[j].hist[|states[j].hist| - 1]);
    }

    /** One step shrinks the slice if and only if it stores a build with fewer compiled tokens. */
    lemma StepShrinksIff(s: State, e: Event)
      requires Inv(s) && Enabled(s, e) && s.singles.built.Some?
      ensures |Singles(Step(s, e).singles)| < |Singles(s.singles)| <==>
                && e.Advance? && s.pcs[e.w].Store? && s.pcs[e.w].kind.TileSingles?
                && !Hit(TileSingles, s.singles, s.pcs[e.w].v)
                && |s.pcs[e.w].done| >= |tokens| && |Slice(s.pcs[e.w].done[..|tokens|])| < |Singles(s.singles)|
    {
      if e.Advance? { assert PcOk(s, s.pcs[e.w]); }
    }

    /** The state once an idle caller has ensured a stale cache. */
    function Rebuilt(s: State, w: nat, k: Kind): State
      requires s.hist != [] && w < |s.pcs|
    {
      WithCache(s, k, Cache(|s.hist| - 1, true, Some(CompileAll(Names(k), s.hist[|s.hist| - 1])), true))
        .(pcs := s.pcs[w := Ensured(k)])
    }

    /** An idle caller finds the cache stale and starts to build. */
    lemma StartBuild(s: State, w: nat, k: Kind) returns (states: seq<State>, events: seq<Event>)
      requires s.hist != [] && w < |s.pcs| && s.pcs[w].Idle? && !Hit(k, CacheOf(s, k), Version(s))
      ensures Path(states, events) && states[0] == s && forall i :: 0 <= i < |events| ==> !events[i].Commit?
      ensures states[|events|] == s.(pcs := s.pcs[w := Build(k, |s.hist| - 1, [])])
    {
      var s1 := s.(pcs := s.pcs[w := ReadVersion(k)]);
      var s2 := s.(pcs := s.pcs[w := Check(k, |s.hist| - 1)]);
      var s3 := s.(pcs := s.pcs[w := Build(k, |s.hist| - 1, [])]);
      assert s1.pcs[w := s2.pcs[w]] == s2.pcs && s2.pcs[w := s3.pcs[w]] == s3.pcs;
      states, events := [s, s1, s2, s3], [Ensure(w, k), Advance(w), Advance(w)];
      forall n | 0 <= n < |events| ensures Taken(states, events, n) {}
    }

    /** An idle caller, left alone, rebuilds a stale cache. */
    lemma Rebuild(s: State, w: nat, k: Kind) returns (states: seq<State>, events: seq<Event>)
      requires s.hist != [] && w < |s.pcs| && s.pcs[w].Idle? && !Hit(k, CacheOf(s, k), Version(s))
      ensures Path(states, events) && states[0] == s && states[|events|] == Rebuilt(s, w, k)
    {
      states, events := StartBuild(s, w, k);
      var building := states[|events|];
      var rest, restEvents := FinishBuild(building, w, k, |s.hist| - 1, []);
      assert Finished(building, k, []) == CompileAll(Names(k), s.hist[|s.hist| - 1]);
      assert building.pcs[w := Ensured(k)] == s.pcs[w := Ensured(k)];
      states, events := JoinPaths(states, events, rest, restEvents);
    }

    /** Whatever the tokens, two tables of which the second compiles fewer of them give a run in which
        the slice a caller has just ensured is longer before the commit than after it. */
    lemma ShrinkingRun(p: map<string, string>, q: map<string, string>)
      returns (states: seq<State>, events: seq<Event>, i: nat)
      requires Max(Compiling(tokens, q), 1) < Max(Compiling(tokens, p), 1)
      ensures Run(states, events) && i < |events|
      ensures states[i].pcs == [Ensured(TileSingles)] && states[|events|].pcs == [Ensured(TileSingles)]
      ensures |Singles(states[|events|].singles)| < |Singles(states[i].singles)|
    {
      var k, empty := TileSingles, Cache(0, false, None, false);
      var s0 := State([p], empty, empty, [Idle]);
      states, events := Rebuild(s0, 0, k);
      i := |events|;
      var s1 := states[i];
      SinglesSize(s1.singles, p);
      assert s1.pcs == [Ensured(k)] && s1.hist == [p];
      var s2 := s1.(pcs := [Idle]);
      var s3 := s2.(hist := [p, q]);
      assert s1.pcs[0 := Idle] == [Idle] && [p] + [q] == [p, q];
      OneStep(s1, Advance(0), s2);
      OneStep(s2, Commit(q), s3);
      var rest, restEvents := Rebuild(s3, 0, k);
      SinglesSize(rest[|restEvents|].singles, q);
      rest, restEvents := JoinPaths([s2, s3], [Commit(q)], rest, restEvents);
      rest, restEvents := JoinPaths([s1, s2], [Advance(0)], rest, restEvents);
      states, events := JoinPaths(states, events, rest, restEvents);
    }

    // -------------------------------------------------------------------------
    // A stale read
    // -------------------------------------------------------------------------

    /** A slow builder: it has compiled everything under p, and has stored nothing, when q is committed. */
    lemma SlowBuilder(k: Kind, p: map<string, string>, q: map<string, string>) returns (states: seq<State>, events: seq<Event>)
      ensures Run(states, events)
      ensures states[|events|] == State([p, q], Unbuilt(), Unbuilt(), [Build(k, 0, CompileAll(Names(k), p)), Idle])
    {
      var s0 := State([p], Unbuilt(), Unbuilt(), [Idle, Idle]);
      states, events := StartBuild(s0, 0, k);
      var s1 := states[|events|];
      var rest, restEvents := CompileRest(s1, 0, k, 0, []);
      assert Finished(s1, k, []) == CompileAll(Names(k), p);
      states, events := JoinPaths(states, events, rest, restEvents);
      var s2 := states[|events|];
      assert s2.pcs == [Build(k, 0, CompileAll(Names(k), p)), Idle];
      var s3 := State([p, q], Unbuilt(), Unbuilt(), s2.pcs);
      assert [p] + [q] == [p, q];
      OneStep(s2, Commit(q), s3);
      states, events := JoinPaths(states, events, [s2, s3], [Commit(q)]);
    }

    function Unbuilt(): Cache { Cache(0, false, None, false) }

    /** Whatever the expressions, two tables that compile them differently give a run in which a reader
        has just ensured the cache and, with no commit in between, indexes regexes that are not those
        of the current primitives: a slow builder published over the fresh slice. */
    lemma StaleRun(k: Kind, p: map<string, string>, q: map<string, string>)
      returns (states: seq<State>, events: seq<Event>, more: seq<State>, moreEvents: seq<Event>)
      requires CompileAll(Names(k), p) != CompileAll(Names(k), q)
      ensures Run(states, events) && Continues(states[|events|], more, moreEvents)
      ensures Hit(k, CacheOf(more[0], k), Version(more[0])) && Current(more[0], k) && !Current(more[|moreEvents|], k)
      ensures |more[0].pcs| == |more[|moreEvents|].pcs| == 2 && more[0].pcs[1] == more[|moreEvents|].pcs[1] == Ensured(k)
    {
      states, events := SlowBuilder(k, p, q);
      var s := states[|events|];
      var rest, restEvents := Rebuild(s, 1, k);
      states, events := JoinPaths(states, events, rest, restEvents);
      var ensured := states[|events|];
      RunKeepsInv(states, events, |events|);
      DifferentIsStray(ensured, k, ensured.pcs[0], p);
      more, moreEvents := StrayPublishes(ensured, k, 0);
    }

    lemma DifferentIsStray(s: State, k: Kind, pc: Pc, p: map<string, string>)
      requires s.hist != [] && pc.Build? && pc.kind == k && pc.done == CompileAll(Names(k), p)
      requires pc.done != CompileAll(Names(k), s.hist[|s.hist| - 1])
      ensures Stray(s, k, pc)
    {
    }
  }
}
