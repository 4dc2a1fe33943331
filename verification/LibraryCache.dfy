/** The compiled-library cache racing with configuration writers (compiledKnownPatterns and
    resetCompiledLibrary in internal/pattern/score.go, the writers of internal/pattern/state.go).
    Each critical section, each CompileGrok and each version read is one step. */
module LibraryCache {
  import opened Base

  datatype Entry = Entry(name: string, pattern: string, extras: map<string, string>)

  /** Everything a version stands for: the primitive table and the composed library. */
  datatype Config = Config(primitives: map<string, string>, library: seq<Entry>)

  /** CompileGrok on one entry against one primitive table. */
  type Compiler = (Entry, map<string, string>) -> Option<Matcher>

  datatype Compiled = Compiled(entry: Entry, re: Matcher)

  /** A build: the entries that compiled, and the names of those that did not. */
  datatype Lib = Lib(entries: seq<Compiled>, errs: seq<string>)

  function AddEntry(lib: Lib, e: Entry, re: Option<Matcher>): Lib {
    match re
    case Some(r) => lib.(entries := lib.entries + [Compiled(e, r)])
    case None => lib.(errs := lib.errs + [e.name])
  }

  /** The library as one primitive table compiles it. */
  function CompileAll(compile: Compiler, primitives: map<string, string>, entries: seq<Entry>): Lib {
    if entries == [] then Lib([], [])
    else
      var n := |entries| - 1;
      AddEntry(CompileAll(compile, primitives, entries[..n]), entries[n], compile(entries[n], primitives))
  }

  function CompileConfig(compile: Compiler, c: Config): Lib { CompileAll(compile, c.primitives, c.library) }

  /** What a build is, entry by entry: positions at[0] < at[1] < ... of the library hold the entries that
      compile, in the build's order and each with its own regexp; positions failed[0] < failed[1] < ...
      hold the others, whose names are the build's errors. */
  ghost predicate Sorts(compile: Compiler, c: Config, lib: Lib, at: seq<nat>, failed: seq<nat>) {
    && Rising(at, |c.library|) && Rising(failed, |c.library|)
    && |at| == |lib.entries| && |failed| == |lib.errs| && |lib.entries| + |lib.errs| == |c.library|
    && (forall i: nat :: i < |c.library| ==> (i in at <==> compile(c.library[i], c.primitives).Some?))
    && (forall i: nat :: i < |c.library| ==> (i in failed <==> compile(c.library[i], c.primitives).None?))
    && (forall j :: 0 <= j < |at| ==>
          lib.entries[j].entry == c.library[at[j]] && Some(lib.entries[j].re) == compile(c.library[at[j]], c.primitives))
    && (forall j :: 0 <= j < |failed| ==> lib.errs[j] == c.library[failed[j]].name)
  }

  ghost predicate IsBuildOf(compile: Compiler, c: Config, lib: Lib) {
    exists at, failed :: Sorts(compile, c, lib, at, failed)
  }

  /** A configuration compiles to exactly the library entries the compiler accepts under its primitives,
      in library order, and the names of the others. */
  lemma {:induction false} ConfigSorted(compile: Compiler, c: Config) returns (at: seq<nat>, failed: seq<nat>)
    ensures Sorts(compile, c, CompileConfig(compile, c), at, failed)
    decreases |c.library|
  {
    if c.library == [] {
      at, failed := [], [];
    } else {
      var n := |c.library| - 1;
      var init := c.(library := c.library[..n]);
      at, failed := ConfigSorted(compile, init);
      RisingNext(at, n);
      RisingNext(failed, n);
      SortOneMore(compile, c, init, CompileConfig(compile, init), at, failed);
      if compile(c.library[n], c.primitives).Some? { at := at + [n]; } else { failed := failed + [n]; }
    }
  }

  lemma SortOneMore(compile: Compiler, c: Config, init: Config, lib: Lib, at: seq<nat>, failed: seq<nat>)
    requires c.library != [] && init == c.(library := c.library[..|c.library| - 1]) && Sorts(compile, init, lib, at, failed)
    ensures var n := |c.library| - 1;
            match compile(c.library[n], c.primitives)
            case Some(re) => Sorts(compile, c, lib.(entries := lib.entries + [Compiled(c.library[n], re)]), at + [n], failed)
            case None => Sorts(compile, c, lib.(errs := lib.errs + [c.library[n].name]), at, failed + [n])
  {
    var n := |c.library| - 1;
    RisingNext(at, n);
    RisingNext(failed, n);
    assert forall i: nat :: i < n ==> init.library[i] == c.library[i];
  }

  lemma BuildIsCompilation(compile: Compiler, c: Config)
    ensures IsBuildOf(compile, c, CompileConfig(compile, c))
  {
    var at, failed := ConfigSorted(compile, c);
  }

  /** Where a call of compiledKnownPatterns stands. */
  datatype Pc =
    | Idle
    | ReadVersion
    | Look(v: nat)
    | Snapshot(v: nat)
    | Compile(v: nat, patterns: seq<Entry>, i: nat, lib: Lib)
    | Recheck(v: nat, lib: Lib)
    | Publish(v: nat, lib: Lib)
    | Returned(v: nat, lib: Lib)

  /** A caller, the version current when its call began, and how often it started over. */
  datatype Caller = Caller(pc: Pc, began: nat, restarts: nat)

  /** The shared state. hist[v] is the configuration of version v; its last element is the current
      one, so version and configuration change together, as under patternStateMu. */
  datatype State = State(
    hist: seq<Config>, compiledVersion: nat, compiledLib: Option<Lib>, callers: seq<Caller>)

  function Version(s: State): int { |s.hist| - 1 }

  function Now(s: State): Config
    requires s.hist != []
  {
    s.hist[|s.hist| - 1]
  }

  datatype Event = Commit(c: Config) | Reset | Call(w: nat) | Advance(w: nat)

  predicate Enabled(s: State, e: Event) {
    && s.hist != []
    && match e
       case Commit(_) => true
       case Reset => true
       case Call(w) => w < |s.callers| && (s.callers[w].pc.Idle? || s.callers[w].pc.Returned?)
       case Advance(w) => w < |s.callers| && !s.callers[w].pc.Idle? && !s.callers[w].pc.Returned?
                          && (s.callers[w].pc.Compile? ==> s.callers[w].pc.i <= |s.callers[w].pc.patterns|)
  }

  function Step(compile: Compiler, s: State, e: Event): State
    requires Enabled(s, e)
  {
    match e
    case Commit(c) => s.(hist := s.hist + [c])
    case Reset => s.(compiledVersion := 0, compiledLib := None)
    case Call(w) => s.(callers := s.callers[w := Caller(ReadVersion, Version(s), 0)])
    case Advance(w) =>
      var t := Published(s, s.callers[w].pc);
      t.(callers := s.callers[w := Resume(compile, s, t, s.callers[w])])
  }

  /** The cache after a step at pc: only a publication changes it, and only when the cache is empty
      or stands at another version. */
  function Published(s: State, pc: Pc): State {
    if pc.Publish? && (s.compiledLib.None? || s.compiledVersion != pc.v)
    then s.(compiledVersion := pc.v, compiledLib := Some(pc.lib)) else s
  }

  /** The caller after its step; t is the state with the cache already updated. */
  function Resume(compile: Compiler, s: State, t: State, c: Caller): Caller
    requires s.hist != [] && !c.pc.Idle? && !c.pc.Returned?
    requires c.pc.Compile? ==> c.pc.i <= |c.pc.patterns|
    requires t == Published(s, c.pc)
  {
    match c.pc
    case ReadVersion => c.(pc := Look(Version(s)))
    case Look(v) =>
      c.(pc := if s.compiledLib.Some? && s.compiledVersion == v then Returned(v, s.compiledLib.value) else Snapshot(v))
    case Snapshot(v) => c.(pc := Compile(v, Now(s).library, 0, Lib([], [])))
    case Compile(v, patterns, i, lib) =>
      c.(pc := if i == |patterns| then Recheck(v, lib)
               else Compile(v, patterns, i + 1, AddEntry(lib, patterns[i], compile(patterns[i], Now(s).primitives))))
    case Recheck(v, lib) =>
      if Version(s) != v then c.(pc := ReadVersion, restarts := c.restarts + 1) else c.(pc := Publish(v, lib))
    case Publish(v, _) => c.(pc := Returned(v, t.compiledLib.value))
  }

  predicate Initial(s: State) {
    && |s.hist| == 1 && s.compiledLib.None?
    && forall w :: 0 <= w < |s.callers| ==> s.callers[w].pc.Idle?
  }

  // ---------------------------------------------------------------------------
  // Invariant
  // ---------------------------------------------------------------------------

  /** lib is the compilation of the whole configuration of version v. */
  ghost predicate Whole(compile: Compiler, s: State, v: nat, lib: Lib) {
    v < |s.hist| && lib == CompileConfig(compile, s.hist[v])
  }

  ghost predicate CacheOk(compile: Compiler, s: State) {
    s.compiledLib.Some? ==> Whole(compile, s, s.compiledVersion, s.compiledLib.value)
  }

  /** What a call knows: until its version is overtaken its partial build is that of the version it
      read; what it publishes or returns is whole. Every restart was paid for by a commit. */
  ghost predicate CallerOk(compile: Compiler, s: State, c: Caller) {
    match c.pc
    case Idle => true
    case ReadVersion => c.began + c.restarts < |s.hist|
    case Look(v) => c.began + c.restarts <= v < |s.hist|
    case Snapshot(v) => c.began + c.restarts <= v < |s.hist|
    case Compile(v, patterns, i, lib) =>
      && c.began + c.restarts <= v < |s.hist| && i <= |patterns|
      && (v == |s.hist| - 1 ==>
            patterns == s.hist[v].library && lib == CompileAll(compile, s.hist[v].primitives, patterns[..i]))
    case Recheck(v, lib) =>
      c.began + c.restarts <= v < |s.hist| && (v == |s.hist| - 1 ==> Whole(compile, s, v, lib))
    case Publish(v, lib) => c.began + c.restarts <= v && Whole(compile, s, v, lib)
    case Returned(v, lib) => c.began + c.restarts <= v && Whole(compile, s, v, lib)
  }

  ghost predicate Inv(compile: Compiler, s: State) {
    && s.hist != []
    && CacheOk(compile, s)
    && forall w :: 0 <= w < |s.callers| ==> CallerOk(compile, s, s.callers[w])
  }

  lemma ResumeOk(compile: Compiler, s: State, c: Caller)
    requires s.hist != [] && CacheOk(compile, s) && CallerOk(compile, s, c) && !c.pc.Idle? && !c.pc.Returned?
    ensures c.pc.Compile? ==> c.pc.i <= |c.pc.patterns|
    ensures CacheOk(compile, Published(s, c.pc))
    ensures CallerOk(compile, s, Resume(compile, s, Published(s, c.pc), c))
  {
    if c.pc.Compile? {
      var Compile(v, patterns, i, lib) := c.pc;
      if i < |patterns| {
        assert patterns[..i + 1][..i] == patterns[..i];
      } else {
        assert patterns[..i] == patterns;
      }
    }
  }

  lemma CommitKeeps(compile: Compiler, s: State, cfg: Config, c: Caller)
    requires s.hist != [] && CallerOk(compile, s, c)
    ensures CallerOk(compile, s.(hist := s.hist + [cfg]), c)
  {
  }

  /** Every step of every reader, builder and writer keeps the invariant. */
  lemma StepKeepsInv(compile: Compiler, s: State, e: Event)
    requires Inv(compile, s) && Enabled(s, e)
    ensures Inv(compile, Step(compile, s, e))
  {
    var t := Step(compile, s, e);
    match e
    case Commit(cfg) =>
      forall w | 0 <= w < |t.callers| ensures CallerOk(compile, t, t.callers[w]) {
        CommitKeeps(compile, s, cfg, s.callers[w]);
      }
    case Reset =>
      forall w | 0 <= w < |t.callers| ensures CallerOk(compile, t, t.callers[w]) {
        assert CallerOk(compile, s, s.callers[w]);
      }
    case Call(w) =>
      forall u | 0 <= u < |t.callers| ensures CallerOk(compile, t, t.callers[u]) {
        assert CallerOk(compile, s, s.callers[u]);
      }
    case Advance(w) =>
      ResumeOk(compile, s, s.callers[w]);
      forall u | 0 <= u < |t.callers| ensures CallerOk(compile, t, t.callers[u]) {
        assert CallerOk(compile, s, s.callers[u]);
      }
  }

  // ---------------------------------------------------------------------------
  // Runs
  // ---------------------------------------------------------------------------

  /** A run: the states before, between and after the events. */
  ghost predicate Run(compile: Compiler, states: seq<State>, events: seq<Event>) {
    && |states| == |events| + 1 && Initial(states[0])
    && forall k :: 0 <= k < |events| ==> Taken(compile, states, events, k)
  }

  ghost predicate Taken(compile: Compiler, states: seq<State>, events: seq<Event>, k: nat)
    requires |states| == |events| + 1 && k < |events|
  {
    Enabled(states[k], events[k]) && states[k + 1] == Step(compile, states[k], events[k])
  }

  lemma {:induction false} RunKeepsInv(compile: Compiler, states: seq<State>, events: seq<Event>, k: nat)
    requires Run(compile, states, events) && k < |states|
    ensures Inv(compile, states[k])
  {
    if k > 0 {
      RunKeepsInv(compile, states, events, k - 1);
      assert Taken(compile, states, events, k - 1);
      StepKeepsInv(compile, states[k - 1], events[k - 1]);
    }
  }

  /** Caller w's call that began with event a is the one in progress, or just finished, at instant k. */
  ghost predicate SameCall(states: seq<State>, events: seq<Event>, w: nat, a: nat, k: nat) {
    && a < k < |states| == |events| + 1 && events[a] == Call(w)
    && forall j :: a < j < k ==> events[j] != Call(w)
  }

  lemma {:induction false} CallRemembersStart(compile: Compiler, states: seq<State>, events: seq<Event>, w: nat, a: nat, k: nat)
    requires Run(compile, states, events) && SameCall(states, events, w, a, k)
    ensures w < |states[k].callers| && !states[k].callers[w].pc.Idle?
    ensures states[k].callers[w].began == Version(states[a]) == Version(states[a + 1])
    decreases k
  {
    assert Taken(compile, states, events, a) && Taken(compile, states, events, k - 1);
    if k > a + 1 { CallRemembersStart(compile, states, events, w, a, k - 1); }
  }

  /** Versions move one commit at a time, so every version between two instants was current at some
      instant between them, with the configuration the history records. */
  lemma {:induction false} WasCurrent(compile: Compiler, states: seq<State>, events: seq<Event>, a: nat, k: nat, v: nat)
    returns (j: nat)
    requires Run(compile, states, events) && a <= k < |states|
    requires Version(states[a]) <= v <= Version(states[k])
    ensures a <= j <= k && Version(states[j]) == v && states[j].hist == states[k].hist[..v + 1]
    decreases k
  {
    RunKeepsInv(compile, states, events, k);
    if Version(states[k]) == v {
      j := k;
      assert states[k].hist[..v + 1] == states[k].hist;
    } else {
      assert Taken(compile, states, events, k - 1);
      j := WasCurrent(compile, states, events, a, k - 1, v);
      assert states[k - 1].hist[..v + 1] == states[k].hist[..v + 1];
    }
  }

  /** Linearizability: what a call returns is the compilation of one single configuration, the one
      in force at some instant of the call, however commits, resets and other builders interleave.
      And the call started over at most once per commit made while it ran. */
  lemma Linearizable(compile: Compiler, states: seq<State>, events: seq<Event>, w: nat, a: nat, k: nat) returns (j: nat)
    requires Run(compile, states, events) && SameCall(states, events, w, a, k)
    requires w < |states[k].callers| && states[k].callers[w].pc.Returned?
    ensures a < j <= k && states[j].hist != []
    ensures states[k].callers[w].pc.lib == CompileConfig(compile, Now(states[j]))
    ensures IsBuildOf(compile, Now(states[j]), states[k].callers[w].pc.lib)
    ensures states[k].callers[w].restarts <= Version(states[k]) - Version(states[a])
  {
    RunKeepsInv(compile, states, events, k);
    CallRemembersStart(compile, states, events, w, a, k);
    assert CallerOk(compile, states[k], states[k].callers[w]);
    j := WasCurrent(compile, states, events, a + 1, k, states[k].callers[w].pc.v);
    BuildIsCompilation(compile, Now(states[j]));
  }

  /** At every instant a non-empty cache is the compilation of the whole configuration of the
      version it is marked with. */
  lemma CacheAlwaysWhole(compile: Compiler, states: seq<State>, events: seq<Event>, k: nat)
    requires Run(compile, states, events) && k < |states| && states[k].compiledLib.Some?
    ensures states[k].compiledVersion < |states[k].hist|
    ensures states[k].compiledLib.value == CompileConfig(compile, states[k].hist[states[k].compiledVersion])
    ensures IsBuildOf(compile, states[k].hist[states[k].compiledVersion], states[k].compiledLib.value)
  {
    RunKeepsInv(compile, states, events, k);
    BuildIsCompilation(compile, states[k].hist[states[k].compiledVersion]);
  }

  /** The first build published for a version stays: no step replaces it by another of that version. */
  lemma FirstBuildStays(compile: Compiler, s: State, e: Event)
    requires Enabled(s, e) && s.compiledLib.Some? && Step(compile, s, e).compiledVersion == s.compiledVersion
    ensures e.Reset? || Step(compile, s, e).compiledLib == s.compiledLib
  {
  }

  /** After a reset nothing is served that was not built again: whatever a later call finds in the cache
      was published since, into a cache found empty. */
  lemma {:induction false} RebuiltAfterReset(compile: Compiler, states: seq<State>, events: seq<Event>, r: nat, k: nat)
    returns (p: nat, u: nat)
    requires Run(compile, states, events) && r < |events| && events[r] == Reset
    requires r < k < |states| && states[k].compiledLib.Some?
    ensures r < p < k && events[p] == Advance(u) && u < |states[p].callers|
    ensures states[p].callers[u].pc.Publish? && states[p].compiledLib.None?
    decreases k
  {
    assert Taken(compile, states, events, r) && Taken(compile, states, events, k - 1);
    if states[k - 1].compiledLib.None? {
      p, u := k - 1, events[k - 1].w;
    } else {
      p, u := RebuiltAfterReset(compile, states, events, r, k - 1);
    }
  }
}
