/** Typing structural units by population vote (typeUnits and its helpers in
    internal/pattern/tiler.go), and the proof that typing never rejects the population it learned
    from. */
module Typing {
  import opened Base
  import opened Segmentation
  import opened SubSplit
  import opened Probe
  import opened Pieces

  /** The primitive tables, and the two decisions left to the regexp engine: how a line aligns with
      a template, and whether a rendered tiling compiles. */
  datatype Tables = Tables(
    singles: seq<Prim>, data: Prim, host: Option<Prim>, comps: seq<Composite>,
    align: Aligner, compiles: seq<Piece> -> bool)

  /** A classifier accepts no more than the primitive it stands for. */
  ghost predicate Narrow(p: Prim) { forall v :: p.classify(v) ==> p.emit(v) }

  /** What the tables promise: classifiers are narrow, the last primitive is the catch-all for
      tokens, DATA takes any quoted value without a line break, and alignments are alignments. */
  ghost predicate Trusted(t: Tables) {
    && t.singles != [] && (forall k :: 0 <= k < |t.singles| ==> Narrow(t.singles[k]))
    && (forall v :: IsToken(v) ==> t.singles[|t.singles| - 1].emit(v))
    && (forall v :: '"' !in v && '\n' !in v ==> t.data.emit(v))
    && (t.host.Some? ==> Narrow(t.host.value))
    && Sound(t.align)
  }

  predicate AllMatch(p: Prim, values: seq<string>) { forall k :: 0 <= k < |values| ==> p.classify(values[k]) }

  /** The most specific primitive matching every value, else the catch-all. */
  function VoteSingle(singles: seq<Prim>, values: seq<string>): Prim
    requires singles != []
  {
    if |singles| == 1 || AllMatch(singles[0], values) then singles[0] else VoteSingle(singles[1..], values)
  }

  lemma {:induction false} VoteAccepts(singles: seq<Prim>, values: seq<string>, v: string)
    requires singles != [] && (forall k :: 0 <= k < |singles| ==> Narrow(singles[k]))
    requires forall w :: IsToken(w) ==> singles[|singles| - 1].emit(w)
    requires v in values && IsToken(v)
    ensures VoteSingle(singles, values).emit(v)
  {
    if |singles| > 1 {
      if AllMatch(singles[0], values) {
        assert singles[0].classify(v) && Narrow(singles[0]);
      } else {
        VoteAccepts(singles[1..], values, v);
      }
    }
  }

  /** The vote goes to the first primitive that matches every value, or to the last of the list. */
  lemma {:induction false} VoteIsFirst(singles: seq<Prim>, values: seq<string>) returns (k: nat)
    requires singles != []
    ensures k < |singles| && VoteSingle(singles, values) == singles[k]
    ensures forall j: nat :: j < k ==> !AllMatch(singles[j], values)
    ensures AllMatch(singles[k], values) || k == |singles| - 1
  {
    if |singles| == 1 || AllMatch(singles[0], values) {
      k := 0;
    } else {
      k := VoteIsFirst(singles[1..], values);
      k := k + 1;
      forall j: nat | j < k ensures !AllMatch(singles[j], values) {
        if j > 0 { assert singles[j] == singles[1..][j - 1]; }
      }
    }
  }

  // ---------------------------------------------------------------------------
  // Sub-token columns
  // ---------------------------------------------------------------------------

  function Dedupe(values: seq<string>): seq<string> {
    if values == [] then []
    else
      var n := |values| - 1;
      var d := Dedupe(values[..n]);
      if values[n] in d then d else d + [values[n]]
  }

  lemma {:induction false} DedupeKeeps(values: seq<string>, v: string)
    ensures v in Dedupe(values) <==> v in values
  {
    if values != [] {
      var n := |values| - 1;
      assert values == values[..n] + [values[n]];
      DedupeKeeps(values[..n], v);
    }
  }

  /** Every value splits with the signature of the first. */
  predicate SharedSignature(core: seq<string>) {
    core != [] && SplitOf(core[0]).Some?
    && forall k :: 0 <= k < |core| ==> SplitOf(core[k]).Some? && SplitOf(core[k]).value.sig == SplitOf(core[0]).value.sig
  }

  /** The non-empty i-th parts of the values. */
  function PartColumn(core: seq<string>, i: nat): seq<string> {
    if core == [] then []
    else
      var c := SplitOf(core[0]);
      (if c.Some? && i < |c.value.parts| && c.value.parts[i] != "" then [c.value.parts[i]] else [])
      + PartColumn(core[1..], i)
  }

  lemma {:induction false} PartColumnHas(core: seq<string>, i: nat, v: string)
    requires v in core && SplitOf(v).Some? && i < |SplitOf(v).value.parts| && SplitOf(v).value.parts[i] != ""
    ensures SplitOf(v).value.parts[i] in PartColumn(core, i)
  {
    if v != core[0] { PartColumnHas(core[1..], i, v); }
  }

  /** A promoted type stays a field, a constant becomes a literal. */
  function TypeValues(prim: Prim, col: seq<string>): Piece {
    if !prim.promote && |col| == 1 then Lit(col[0]) else Field(prim)
  }

  function TypeColumn(singles: seq<Prim>, core: seq<string>, i: nat): Piece
    requires singles != []
  {
    var col := Dedupe(PartColumn(core, i));
    TypeValues(VoteSingle(singles, col), col)
  }

  function ColumnAt(singles: seq<Prim>, core: seq<string>, cuts: Cuts, i: nat): seq<Piece>
    requires singles != [] && i < |cuts.parts|
  {
    if cuts.parts[i] == "" then [] else [TypeColumn(singles, core, i)]
  }

  /** The pieces of columns i, i+1, ... with the separators between them. */
  function ColumnPieces(singles: seq<Prim>, core: seq<string>, cuts: Cuts, i: nat): seq<Piece>
    requires singles != [] && |cuts.parts| == |cuts.seps| + 1 && i <= |cuts.seps|
    decreases |cuts.seps| - i
  {
    ColumnAt(singles, core, cuts, i)
    + if i == |cuts.seps| then [] else [Lit(cuts.seps[i])] + ColumnPieces(singles, core, cuts, i + 1)
  }

  /** Columns whose primitive is high-confidence. */
  function PromotedColumns(singles: seq<Prim>, core: seq<string>, cuts: Cuts, i: nat): nat
    requires singles != [] && |cuts.parts| == |cuts.seps| + 1 && i <= |cuts.seps|
    decreases |cuts.seps| - i
  {
    (if cuts.parts[i] != "" && VoteSingle(singles, Dedupe(PartColumn(core, i))).promote then 1 else 0)
    + if i == |cuts.seps| then 0 else PromotedColumns(singles, core, cuts, i + 1)
  }

  function SubSplitPieces(singles: seq<Prim>, core: seq<string>): Option<seq<Piece>>
    requires singles != []
  {
    if !SharedSignature(core) then None
    else
      var cuts := SplitOf(core[0]).value;
      if PromotedColumns(singles, core, cuts, 0) == 0 then None
      else Some(ColumnPieces(singles, core, cuts, 0))
  }

  lemma ColumnAccepts(t: Tables, core: seq<string>, v: string, c: Cuts, i: nat)
    requires Trusted(t) && v in core && IsToken(v) && SplitOf(v) == Some(c)
    requires i < |c.parts| && c.parts[i] != ""
    ensures AcceptsOne(TypeColumn(t.singles, core, i), c.parts[i])
  {
    var part, column := c.parts[i], PartColumn(core, i);
    PartColumnHas(core, i, v);
    PartOfToken(v, c, i);
    ColumnTakes(t, core, i, part);
  }

  lemma ColumnTakes(t: Tables, core: seq<string>, i: nat, part: string)
    requires Trusted(t) && part in PartColumn(core, i) && IsToken(part)
    ensures AcceptsOne(TypeColumn(t.singles, core, i), part)
  {
    var col := Dedupe(PartColumn(core, i));
    DedupeKeeps(PartColumn(core, i), part);
    VoteAccepts(t.singles, col, part);
    ValuesTaken(VoteSingle(t.singles, col), col, part);
  }

  lemma ValuesTaken(prim: Prim, col: seq<string>, part: string)
    requires part in col && prim.emit(part)
    ensures AcceptsOne(TypeValues(prim, col), part)
  {
  }

  lemma {:induction false} PartOfToken(v: string, c: Cuts, i: nat)
    requires IsTokenText(v) && |c.parts| == |c.seps| + 1 && i < |c.parts| && Interleave(c.parts, c.seps) == v
    requires c.parts[i] != ""
    ensures IsToken(c.parts[i])
    decreases i
  {
    var part := c.parts[i];
    if i == 0 {
      assert forall k :: 0 <= k < |part| ==> part[k] == v[k];
    } else {
      var rest := Interleave(c.parts[1..], c.seps[1..]);
      var d := |c.parts[0] + c.seps[0]|;
      assert forall k :: 0 <= k < |rest| ==> rest[k] == v[d + k];
      PartOfToken(rest, Cuts(c.parts[1..], c.seps[1..], ""), i - 1);
    }
  }

  predicate IsTokenText(v: string) { forall k :: 0 <= k < |v| ==> !IsSpace(v[k]) }

  /** What is left of a cut from part i on. */
  ghost function Rest(c: Cuts, i: nat): string
    requires |c.parts| == |c.seps| + 1 && i <= |c.seps|
  {
    Interleave(c.parts[i..], c.seps[i..])
  }

  lemma ColumnAtAccepts(t: Tables, core: seq<string>, cuts: Cuts, v: string, c: Cuts, i: nat)
    requires Trusted(t) && v in core && IsToken(v) && SplitOf(v) == Some(c)
    requires SameShape(cuts, c) && i < |cuts.parts|
    ensures OneColumnTakes(t.singles, core, cuts, c, i)
  {
    if cuts.parts[i] != "" {
      ColumnAccepts(t, core, v, c, i);
      AcceptsSingle(TypeColumn(t.singles, core, i), c.parts[i]);
    }
  }

  lemma JoinColumn(column: seq<Piece>, sep: string, rest: seq<Piece>, a: string, b: string)
    requires Accepts(column, a) && Accepts(rest, b)
    ensures Accepts(column + ([Lit(sep)] + rest), a + sep + b)
  {
    AcceptsCons(Lit(sep), rest, sep, b);
    AcceptsAppend(column, [Lit(sep)] + rest, a, sep + b);
    Associate(a, sep, b);
  }

  lemma Associate(a: string, b: string, c: string)
    ensures a + (b + c) == a + b + c
  {
  }

  lemma RestStep(c: Cuts, i: nat)
    requires |c.parts| == |c.seps| + 1 && i <= |c.seps|
    ensures Rest(c, i) == if i == |c.seps| then c.parts[i] else c.parts[i] + c.seps[i] + Rest(c, i + 1)
  {
    if i < |c.seps| {
      assert c.parts[i..][1..] == c.parts[i + 1..] && c.seps[i..][1..] == c.seps[i + 1..];
    }
  }

  lemma PiecesStep(singles: seq<Prim>, core: seq<string>, cuts: Cuts, i: nat)
    requires singles != [] && |cuts.parts| == |cuts.seps| + 1 && i <= |cuts.seps|
    ensures ColumnPieces(singles, core, cuts, i)
         == if i == |cuts.seps| then ColumnAt(singles, core, cuts, i)
            else ColumnAt(singles, core, cuts, i) + ([Lit(cuts.seps[i])] + ColumnPieces(singles, core, cuts, i + 1))
  {
    var column := ColumnAt(singles, core, cuts, i);
    assert column + [] == column;
  }

  /** The pieces from column i on accept what is left of the cut c from part i on. */
  ghost predicate ColumnsTake(singles: seq<Prim>, core: seq<string>, cuts: Cuts, c: Cuts, i: nat)
    requires singles != [] && |cuts.parts| == |cuts.seps| + 1 && SameShape(cuts, c) && i <= |cuts.seps|
  {
    Accepts(ColumnPieces(singles, core, cuts, i), Rest(c, i))
  }

  ghost predicate OneColumnTakes(singles: seq<Prim>, core: seq<string>, cuts: Cuts, c: Cuts, i: nat)
    requires singles != [] && SameShape(cuts, c) && i < |cuts.parts|
  {
    Accepts(ColumnAt(singles, core, cuts, i), c.parts[i])
  }

  lemma {:induction false} ColumnPiecesAccept(singles: seq<Prim>, core: seq<string>, cuts: Cuts, c: Cuts, i: nat)
    requires singles != [] && |cuts.parts| == |cuts.seps| + 1 && SameShape(cuts, c) && i <= |cuts.seps|
    requires forall k :: 0 <= k < |cuts.parts| ==> OneColumnTakes(singles, core, cuts, c, k)
    ensures ColumnsTake(singles, core, cuts, c, i)
    decreases |cuts.seps| - i
  {
    if i < |cuts.seps| {
      var next := i + 1;
      ColumnPiecesAccept(singles, core, cuts, c, next);
      PiecesJoin(singles, core, cuts, c, i, next);
    } else {
      PiecesEnd(singles, core, cuts, c, i);
    }
  }

  lemma PiecesEnd(singles: seq<Prim>, core: seq<string>, cuts: Cuts, c: Cuts, i: nat)
    requires singles != [] && |cuts.parts| == |cuts.seps| + 1 && SameShape(cuts, c) && i == |cuts.seps|
    requires OneColumnTakes(singles, core, cuts, c, i)
    ensures ColumnsTake(singles, core, cuts, c, i)
  {
    RestStep(c, i);
    PiecesStep(singles, core, cuts, i);
  }

  lemma PiecesJoin(singles: seq<Prim>, core: seq<string>, cuts: Cuts, c: Cuts, i: nat, next: nat)
    requires singles != [] && |cuts.parts| == |cuts.seps| + 1 && SameShape(cuts, c) && i < |cuts.seps| && next == i + 1
    requires OneColumnTakes(singles, core, cuts, c, i) && ColumnsTake(singles, core, cuts, c, next)
    ensures ColumnsTake(singles, core, cuts, c, i)
  {
    RestStep(c, i);
    PiecesStep(singles, core, cuts, i);
    JoinColumn(ColumnAt(singles, core, cuts, i), c.seps[i], ColumnPieces(singles, core, cuts, i + 1),
               c.parts[i], Rest(c, i + 1));
  }

  /** A sub-tiling accepts every value it was built from. */
  lemma SubSplitSound(t: Tables, core: seq<string>, v: string)
    requires Trusted(t) && v in core && IsToken(v) && SubSplitPieces(t.singles, core).Some?
    ensures Accepts(SubSplitPieces(t.singles, core).value, v)
  {
    var cuts, c := SplitOf(core[0]).value, SplitOf(v).value;
    SignatureInjective(cuts, c);
    forall k | 0 <= k < |cuts.parts| ensures OneColumnTakes(t.singles, core, cuts, c, k) {
      ColumnAtAccepts(t, core, cuts, v, c, k);
    }
    ColumnPiecesAccept(t.singles, core, cuts, c, 0);
    assert c.parts[0..] == c.parts && c.seps[0..] == c.seps;
  }

  // ---------------------------------------------------------------------------
  // Slots
  // ---------------------------------------------------------------------------

  function Without(values: seq<string>, w: string): seq<string> {
    if values == [] then []
    else (if values[0] == w then [] else [values[0]]) + Without(values[1..], w)
  }

  lemma {:induction false} WithoutKeeps(values: seq<string>, w: string, v: string)
    ensures v in Without(values, w) <==> v in values && v != w
  {
    if values != [] { WithoutKeeps(values[1..], w, v); }
  }

  /** What becomes of a vote, the sub-tiling of the values if they have one, and the dashes seen. */
  function FromVote(prim: Prim, sub: Option<seq<Piece>>, core: seq<string>, dashes: bool, overflow: bool): Piece {
    var needDash := dashes && !prim.classify("-");
    if prim.promote then WrapDash([Field(prim)], needDash)
    else if sub.Some? then WrapDash(sub.value, dashes)
    else if !overflow && !dashes && |core| == 1 then Lit(core[0])
    else WrapDash([Field(prim)], needDash)
  }

  function TypeToken(singles: seq<Prim>, tmpl: string, st: Option<Stats>): Piece
    requires singles != []
  {
    if st.None? || st.value.matched < 2 then Field(VoteSingle(singles, [tmpl]))
    else
      var core := Without(st.value.distinct, "-");
      if core == [] then Lit("-")
      else
        FromVote(VoteSingle(singles, core), SubSplitPieces(singles, core), core, "-" in st.value.distinct, st.value.overflow)
  }

  /** A typed token slot accepts every remembered value, dashes included. */
  lemma TokenSound(t: Tables, tmpl: string, st: Stats, v: string)
    requires Trusted(t) && st.matched >= 2 && v in st.distinct
    requires forall w :: w in st.distinct ==> IsToken(w)
    ensures AcceptsOne(TypeToken(t.singles, tmpl, Some(st)), v)
  {
    var dashes, core := "-" in st.distinct, Without(st.distinct, "-");
    WithoutKeeps(st.distinct, "-", v);
    if core != [] {
      var prim := VoteSingle(t.singles, core);
      var needDash := dashes && !prim.classify("-");
      VoteIsListed(t.singles, core);
      assert Narrow(prim);
      if v != "-" {
        VoteAccepts(t.singles, core, v);
      }
      assert prim.emit(v) || (needDash && v == "-");
      if prim.emit(v) { AcceptsSingle(Field(prim), v); }
      WrapDashAccepts([Field(prim)], needDash, v);
      if SubSplitPieces(t.singles, core).Some? {
        if v != "-" { SubSplitSound(t, core, v); }
        WrapDashAccepts(SubSplitPieces(t.singles, core).value, dashes, v);
      }
    }
  }

  predicate Constant(values: seq<string>, v: string) { forall k :: 0 <= k < |values| ==> values[k] == v }

  /** A value that is a keyword when it never varies: it names no high-confidence type, and no part of
      it does. */
  predicate Keyword(singles: seq<Prim>, v: string)
    requires singles != []
  {
    v == "-" || (!VoteSingle(singles, [v]).promote && SubSplitPieces(singles, [v]).None?)
  }

  lemma FirstTwoDiffer(values: seq<string>)
    requires forall i, j :: 0 <= i < j < |values| ==> values[i] != values[j]
    ensures |values| >= 2 ==> values[0] != values[1]
  {
  }

  lemma CollectConstant(values: seq<string>, v: string)
    requires values != []
    ensures Constant(values, v) <==> Collect(values).distinct == [v] && !Collect(values).overflow
  {
    CollectSpec(values);
    var s := Collect(values);
    if Constant(values, v) {
      forall i | 0 <= i < |s.distinct| ensures s.distinct[i] == v { assert s.distinct[i] in values; }
      assert values[0] in values;
      FirstTwoDiffer(s.distinct);
      assert s.distinct == [v];
    } else if s.distinct == [v] && !s.overflow {
      forall k | 0 <= k < |values| ensures values[k] == v {
        assert values[k] in values && values[k] in s.distinct;
      }
    }
  }

  lemma {:induction false} WithoutAll(values: seq<string>, w: string)
    ensures w !in values ==> Without(values, w) == values
    ensures Without(values, w) == [] <==> Constant(values, w)
  {
    if values != [] { WithoutAll(values[1..], w); }
  }

  lemma SubSplitIsLong(singles: seq<Prim>, core: seq<string>)
    requires singles != [] && SubSplitPieces(singles, core).Some?
    ensures |SubSplitPieces(singles, core).value| >= 2
  {
    var cuts := SplitOf(core[0]).value;
    ColumnsAreLong(singles, core, cuts, 0);
  }

  lemma {:induction false} ColumnsAreLong(singles: seq<Prim>, core: seq<string>, cuts: Cuts, i: nat)
    requires singles != [] && |cuts.parts| == |cuts.seps| + 1 && i <= |cuts.seps|
    ensures |ColumnPieces(singles, core, cuts, i)| >= |cuts.seps| - i + PromotedColumns(singles, core, cuts, i)
    decreases |cuts.seps| - i
  {
    if i < |cuts.seps| { ColumnsAreLong(singles, core, cuts, i + 1); }
  }

  /** The literal branches of typeToken. */
  lemma LiteralBranches(singles: seq<Prim>, tmpl: string, st: Stats, v: string)
    requires singles != [] && st.matched >= 2
    ensures var core := Without(st.distinct, "-");
            TypeToken(singles, tmpl, Some(st)) == Lit(v) <==>
              if core == [] then v == "-"
              else core == [v] && "-" !in st.distinct && !st.overflow
                   && !VoteSingle(singles, core).promote && SubSplitPieces(singles, core).None?
  {
    var core := Without(st.distinct, "-");
    if core != [] && SubSplitPieces(singles, core).Some? { SubSplitIsLong(singles, core); }
    assert |core| == 1 ==> core == [core[0]];
  }

  /** A slot is demoted to literal text exactly when every aligned line holds that text in it and the
      text is a keyword: a value that varies, even once and even past the memory cap, stays a field. */
  lemma DemotedIff(singles: seq<Prim>, tmpl: string, values: seq<string>, v: string)
    requires singles != [] && |values| >= 2
    ensures TypeToken(singles, tmpl, Some(Collect(values))) == Lit(v) <==> Constant(values, v) && Keyword(singles, v)
  {
    CollectSpec(values);
    CollectConstant(values, v);
    var st := Collect(values);
    LiteralBranches(singles, tmpl, st, v);
    WithoutAll(st.distinct, "-");
    if Without(st.distinct, "-") == [] {
      OnlyDashes(values);
      assert values[0] == "-";
    } else if st.distinct == [v] {
      assert v != "-";
    }
  }

  lemma OnlyDashes(values: seq<string>)
    requires values != [] && Constant(Collect(values).distinct, "-")
    ensures Constant(values, "-")
  {
    CollectSpec(values);
    CollectConstant(values, "-");
    var d := Collect(values).distinct;
    FirstTwoDiffer(d);
    assert values[0] in values;
    assert |d| == 1 && d == ["-"];
  }

  lemma {:induction false} VoteIsListed(singles: seq<Prim>, values: seq<string>)
    requires singles != []
    ensures VoteSingle(singles, values) in singles
  {
    if |singles| > 1 && !AllMatch(singles[0], values) { VoteIsListed(singles[1..], values); }
  }

  // ---------------------------------------------------------------------------
  // Whole lines
  // ---------------------------------------------------------------------------

  predicate NoQuotes(units: seq<Unit>) { forall k :: 0 <= k < |units| ==> !units[k].Quote? }

  /** A quoted value's inner text, cut without recognising further quotes. */
  function InnerUnits(t: Tables, inner: string): (units: seq<Unit>)
    ensures NoQuotes(units)
  {
    SegmentsLossless(t.comps, inner, false);
    Segments(t.comps, inner, false)
  }

  /** tileInferPieces on a quoted region: segment, probe the observed inner values, type. */
  function InnerTiling(t: Tables, inner: string, values: seq<string>): Option<seq<Piece>>
    requires t.singles != []
    decreases 0, 3
  {
    var units := InnerUnits(t, inner);
    if forall k :: 0 <= k < |units| ==> units[k].Literal? then None
    else Some(TypeUnits(t, units, Some(Observed(t.align, units, values)), 1))
  }

  /** Remembered values an inner tiling accepts. */
  function AcceptedCount(ps: seq<Piece>, values: seq<string>): nat {
    if values == [] then 0 else (if Accepts(ps, values[0]) then 1 else 0) + AcceptedCount(ps, values[1..])
  }

  /** matchesFraction with fraction 0.95. */
  predicate MatchesMost(ps: seq<Piece>, values: seq<string>) {
    values != [] && AcceptedCount(ps, values) as real >= 0.95 * |values| as real
  }

  /** The inner tiling typeQuote keeps: it compiles, explains nearly every remembered value, and
      carries a high-confidence field. */
  function KeptTiling(t: Tables, inner: string, values: seq<string>): Option<seq<Piece>>
    requires t.singles != []
    decreases 0, 4
  {
    if inner == "" then None
    else
      var tiling := InnerTiling(t, inner, values);
      if tiling.Some? && t.compiles(tiling.value) && MatchesMost(tiling.value, values) && Promoted(tiling.value) > 0
      then tiling else None
  }

  function TypeQuote(t: Tables, inner: string, st: Option<Stats>): Piece
    requires t.singles != []
    decreases 0, 5
  {
    if st.None? || st.value.matched < 2 then Quoted(TypeUnits(t, InnerUnits(t, inner), None, 1))
    else if !st.value.overflow && |st.value.distinct| == 1 then Quoted([Lit(st.value.distinct[0])])
    else
      match KeptTiling(t, inner, st.value.distinct)
      case Some(ps) => Quoted(ps)
      case None => Quoted([Field(t.data)])
  }

  function TypeUnit(t: Tables, u: Unit, st: Option<Stats>, depth: nat): Piece
    requires t.singles != [] && (depth > 0 ==> !u.Quote?)
    decreases if depth == 0 then 1 else 0, 1
  {
    match u
    case Literal(text) => Lit(text)
    case Comp(_, c) => Expr(c)
    case Token(text) => TypeToken(t.singles, text, st)
    case Quote(text) => TypeQuote(t, text, st)
  }

  function StatOf(stats: Option<seq<Option<Stats>>>, i: nat): Option<Stats> {
    if stats.Some? && i < |stats.value| then stats.value[i] else None
  }

  /** typeUnits. Quotes are recognised only at depth 0. */
  function TypeUnits(t: Tables, units: seq<Unit>, stats: Option<seq<Option<Stats>>>, depth: nat): (ps: seq<Piece>)
    requires t.singles != [] && (depth > 0 ==> NoQuotes(units))
    ensures |ps| == |units|
    decreases if depth == 0 then 1 else 0, 2
  {
    HostGrammar(t, units, stats,
                seq(|units|, i requires 0 <= i < |units| => TypeUnit(t, units[i], StatOf(stats, i), depth)))
  }

  // The syslog host rule.

  predicate OccursAt(s: string, sub: string, k: nat) { k + |sub| <= |s| && s[k..k + |sub|] == sub }

  predicate Contains(s: string, sub: string) { exists k :: 0 <= k <= |s| && OccursAt(s, sub, k) }

  function DigitsEnd(s: string, i: nat): (j: nat)
    requires i <= |s|
    ensures i <= j <= |s|
    decreases |s| - i
  {
    if i < |s| && '0' <= s[i] <= '9' then DigitsEnd(s, i + 1) else i
  }

  /** `<pri>version ` as section 6.2 of RFC 5424 opens a header: ^<\d+>\d+\s*$. */
  predicate Rfc5424Prefix(s: string) {
    s != "" && s[0] == '<' &&
    var a := DigitsEnd(s, 1);
    1 < a < |s| && s[a] == '>' &&
    var b := DigitsEnd(s, a + 1);
    a + 1 < b && forall k :: b <= k < |s| ==> IsSpace(s[k])
  }

  function Texts(units: seq<Unit>): string { if units == [] then "" else units[0].text + Texts(units[1..]) }

  /** Index of the first composite, or |units|. */
  function FirstComposite(units: seq<Unit>): (i: nat)
    ensures i <= |units| && (i < |units| ==> units[i].Comp?)
  {
    if units == [] || units[0].Comp? then 0 else 1 + FirstComposite(units[1..])
  }

  /** The hostname slot: the token two units after a line-leading syslog timestamp
      (section 4.1.2 of RFC 3164, section 6.2.4 of RFC 5424). */
  function HostSlot(units: seq<Unit>): (slot: Option<nat>)
    ensures slot.Some? ==> slot.value < |units| && units[slot.value].Token?
  {
    var ci := FirstComposite(units);
    if ci == |units| || ci + 2 >= |units| then None
    else
      var leading := if Contains(units[ci].comp.expr, "SYSLOGTIMESTAMP") && ci == 0 then true
                     else Contains(units[ci].comp.expr, "TIMESTAMP_ISO8601") && Rfc5424Prefix(Texts(units[..ci]));
      var sep := units[ci + 1];
      if leading && sep.Literal? && (forall k :: 0 <= k < |sep.text| ==> IsSpace(sep.text[k])) && units[ci + 2].Token?
      then Some(ci + 2) else None
  }

  /** Every observed value - or, without evidence, the template's token - is hostname-shaped. */
  predicate HostShaped(host: Prim, u: Unit, st: Option<Stats>) {
    if st.Some? && st.value.matched >= 2 then AllMatch(host, st.value.distinct) else host.classify(u.text)
  }

  function HostGrammar(t: Tables, units: seq<Unit>, stats: Option<seq<Option<Stats>>>, ps: seq<Piece>): (r: seq<Piece>)
    requires |ps| == |units|
    ensures |r| == |ps|
  {
    var slot := HostSlot(units);
    if t.host.None? || slot.None? then ps
    else
      var p := ps[slot.value];
      if (p.Field? && p.prim.promote) || p.Expr? || p.Group? then ps
      else if !HostShaped(t.host.value, units[slot.value], StatOf(stats, slot.value)) then ps
      else ps[slot.value := Field(t.host.value)]
  }

  // ---------------------------------------------------------------------------
  // Population soundness
  // ---------------------------------------------------------------------------

  /** A quoted region that held one value on every aligned line, and is rendered as that value. */
  predicate SameEverywhere(st: Stats) { !st.overflow && |st.distinct| == 1 }

  /** The value was learned: a token slot holds a remembered value, a composite span satisfies the
      composite's expression, a quoted region that never varied holds its one value, any other is
      accepted by the kept inner tiling or, when no tiling was kept, has no line break. */
  predicate Learned(t: Tables, u: Unit, st: Option<Stats>, v: string)
    requires t.singles != [] && (IsSlot(u) ==> st.Some?)
  {
    match u
    case Literal(_) => true
    case Token(_) => v in st.value.distinct
    case Comp(_, c) => c.accepts(v)
    case Quote(inner) =>
      if SameEverywhere(st.value) then v == st.value.distinct[0]
      else
        match KeptTiling(t, inner, st.value.distinct)
        case Some(ps) => Accepts(ps, v)
        case None => '\n' !in v
  }

  /** The inner tiling a quoted region ends up with, if any. */
  function QuoteTiling(t: Tables, inner: string, st: Stats): Option<seq<Piece>>
    requires t.singles != []
  {
    if SameEverywhere(st) then None else KeptTiling(t, inner, st.distinct)
  }

  /** A kept inner tiling excludes at most one remembered value in twenty. */
  lemma KeptTilingCovers(t: Tables, inner: string, st: Stats)
    requires t.singles != [] && QuoteTiling(t, inner, st).Some?
    ensures 20 * (|st.distinct| - AcceptedCount(QuoteTiling(t, inner, st).value, st.distinct)) <= |st.distinct|
  {
  }

  lemma QuoteSound(t: Tables, inner: string, st: Stats, v: string)
    requires Trusted(t) && st.matched >= 2 && Holds(Quote(inner), v) && Learned(t, Quote(inner), Some(st), v)
    ensures AcceptsOne(TypeQuote(t, inner, Some(st)), "\"" + v + "\"")
  {
    if SameEverywhere(st) {
      AcceptsSingle(Lit(st.distinct[0]), v);
      QuotedAccepts([Lit(st.distinct[0])], v);
    } else {
      match KeptTiling(t, inner, st.distinct)
      case Some(ps) => QuotedAccepts(ps, v);
      case None =>
        AcceptsSingle(Field(t.data), v);
        QuotedAccepts([Field(t.data)], v);
    }
  }

  /** What the probe knows about slot i once at least two lines aligned. */
  ghost predicate Evidence(u: Unit, st: Option<Stats>) {
    IsSlot(u) ==> st.Some? && st.value.matched >= 2 && forall w :: w in st.value.distinct ==> Holds(u, w)
  }

  lemma UnitSound(t: Tables, u: Unit, st: Option<Stats>, v: string)
    requires Trusted(t) && Evidence(u, st) && Holds(u, v) && Learned(t, u, st, v)
    ensures AcceptsOne(TypeUnit(t, u, st, 0), u.Spell(v))
  {
    match u
    case Literal(_) =>
    case Comp(_, _) =>
    case Token(text) => TokenSound(t, text, st.value, v);
    case Quote(inner) => QuoteSound(t, inner, st.value, v);
  }

  /** The whole piece sequence accepts the line, unit by unit. */
  lemma {:induction false} PiecewiseAccepts(ps: seq<Piece>, units: seq<Unit>, vs: seq<string>)
    requires |ps| == |units| == |vs|
    requires forall i :: 0 <= i < |ps| ==> AcceptsOne(ps[i], units[i].Spell(vs[i]))
    ensures Accepts(ps, Line(units, vs))
  {
    if ps != [] {
      PiecewiseAccepts(ps[1..], units[1..], vs[1..]);
      AcceptsCons(ps[0], ps[1..], units[0].Spell(vs[0]), Line(units[1..], vs[1..]));
      assert [ps[0]] + ps[1..] == ps;
    }
  }

  /** The hostname upgrade keeps every remembered value of its slot. */
  lemma HostGrammarSound(t: Tables, units: seq<Unit>, stats: seq<Option<Stats>>, ps: seq<Piece>, vs: seq<string>)
    requires Trusted(t) && |ps| == |units| == |vs| == |stats|
    requires forall i :: 0 <= i < |units| ==> Evidence(units[i], stats[i]) && Learned(t, units[i], stats[i], vs[i])
    requires forall i :: 0 <= i < |ps| ==> AcceptsOne(ps[i], units[i].Spell(vs[i]))
    ensures var r := HostGrammar(t, units, Some(stats), ps);
            forall i :: 0 <= i < |r| ==> AcceptsOne(r[i], units[i].Spell(vs[i]))
  {
    var slot := HostSlot(units);
    if t.host.Some? && slot.Some? {
      assert Learned(t, units[slot.value], stats[slot.value], vs[slot.value]);
      assert Narrow(t.host.value);
    }
  }

  /** Population soundness of typing. Let at least two sample lines align with the template's
      units. Then any line aligned to the units whose values were learned - the values may come
      from different sample lines - is accepted by the typed piece tree. */
  lemma PopulationSound(t: Tables, units: seq<Unit>, samples: seq<string>, line: string, vs: seq<string>)
    requires Trusted(t) && AlignedCount(t.align, units, samples) >= 2
    requires Aligned(units, line, vs)
    requires forall i :: 0 <= i < |units| ==> Learned(t, units[i], Observed(t.align, units, samples)[i], vs[i])
    ensures Accepts(TypeUnits(t, units, Some(Observed(t.align, units, samples)), 0), line)
  {
    var stats := Observed(t.align, units, samples);
    var ps := seq(|units|, i requires 0 <= i < |units| => TypeUnit(t, units[i], StatOf(Some(stats), i), 0));
    forall i | 0 <= i < |units|
      ensures Evidence(units[i], stats[i]) && AcceptsOne(ps[i], units[i].Spell(vs[i]))
    {
      SlotEvidence(t, units, samples, i);
      assert Learned(t, units[i], stats[i], vs[i]);
      UnitSound(t, units[i], stats[i], vs[i]);
    }
    HostGrammarSound(t, units, stats, ps, vs);
    PiecewiseAccepts(HostGrammar(t, units, Some(stats), ps), units, vs);
  }

  lemma SlotEvidence(t: Tables, units: seq<Unit>, samples: seq<string>, i: nat)
    requires Trusted(t) && AlignedCount(t.align, units, samples) >= 2 && i < |units|
    ensures Evidence(units[i], Observed(t.align, units, samples)[i])
  {
    ColumnSpec(t.align, units, samples, i);
    CollectSpec(Column(t.align, units, samples, i));
  }

  /** The probe's own line: a sample line that aligned is accepted, provided no token slot had to
      forget values, its composite spans satisfy their expressions, and its quoted values are
      accepted by the kept inner tilings or, where none was kept, hold no line break. */
  lemma SampleAccepted(t: Tables, units: seq<Unit>, samples: seq<string>, line: string)
    requires Trusted(t) && AlignedCount(t.align, units, samples) >= 2
    requires line in samples && t.align(units, line).Some?
    requires forall i :: 0 <= i < |units| ==>
               Remembered(t, units[i], Observed(t.align, units, samples)[i], t.align(units, line).value[i])
    ensures Accepts(TypeUnits(t, units, Some(Observed(t.align, units, samples)), 0), line)
  {
    var stats, vs := Observed(t.align, units, samples), t.align(units, line).value;
    forall i | 0 <= i < |units| ensures Learned(t, units[i], stats[i], vs[i]) {
      assert Remembered(t, units[i], stats[i], vs[i]);
      ColumnHas(t.align, units, samples, line, i);
      CollectSpec(Column(t.align, units, samples, i));
    }
    PopulationSound(t, units, samples, line, vs);
  }

  predicate Remembered(t: Tables, u: Unit, st: Option<Stats>, v: string)
    requires t.singles != [] && (IsSlot(u) ==> st.Some?)
  {
    match u
    case Literal(_) => true
    case Token(_) => !st.value.overflow
    case Comp(_, c) => c.accepts(v)
    case Quote(inner) =>
      if SameEverywhere(st.value) then true
      else
        match KeptTiling(t, inner, st.value.distinct)
        case Some(ps) => Accepts(ps, v)
        case None => '\n' !in v
  }

  /** The tables as they ship, reduced to a catch-all and DATA: everything but white space, and
      everything without a line break. What is asked of them is not too much. */
  lemma PlainTablesTrusted(t: Tables)
    requires t.singles == [Prim("NOTSPACE", false, IsToken, IsToken)] && t.host.None? && Sound(t.align)
    requires forall v :: t.data.emit(v) <==> '\n' !in v
    ensures Trusted(t)
  {
  }

  lemma {:induction false} ColumnHas(align: Aligner, units: seq<Unit>, samples: seq<string>, line: string, i: nat)
    requires Sound(align) && line in samples && align(units, line).Some? && i < |units|
    ensures align(units, line).value[i] in Column(align, units, samples, i)
  {
    var n := |samples| - 1;
    if samples[n] != line { ColumnHas(align, units, samples[..n], line, i); }
  }
}
