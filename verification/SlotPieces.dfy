/** Which pieces come out of typing (typeToken, subSplitPieces, typeQuote and typeUnits in
    internal/pattern/tiler.go), read off the primitives and the values seen. */
module SlotPieces {
  import opened Base
  import opened Segmentation
  import opened SubSplit
  import opened Probe
  import opened Pieces
  import opened Typing
  import opened HostLines

  // ---------------------------------------------------------------------------
  // The vote
  // ---------------------------------------------------------------------------

  predicate Takes(p: Prim, values: set<string>) { forall v :: v in values ==> p.classify(v) }

  /** k is the first primitive whose classifier accepts every value; the last one stands in when none does. */
  ghost predicate FirstToTake(singles: seq<Prim>, values: set<string>, k: nat) {
    && k < |singles| && (Takes(singles[k], values) || k == |singles| - 1)
    && forall j: nat :: j < k ==> !Takes(singles[j], values)
  }

  /** The vote goes to that primitive. */
  lemma VoteIs(singles: seq<Prim>, values: seq<string>, seen: set<string>) returns (k: nat)
    requires singles != [] && forall v :: v in seen <==> v in values
    ensures FirstToTake(singles, seen, k) && VoteSingle(singles, values) == singles[k]
  {
    k := VoteIsFirst(singles, values);
    forall j: nat | j < |singles| ensures Takes(singles[j], seen) <==> AllMatch(singles[j], values) {
      SameVerdict(singles[j], values, seen);
    }
  }

  lemma SameVerdict(p: Prim, values: seq<string>, seen: set<string>)
    requires forall v :: v in seen <==> v in values
    ensures Takes(p, seen) <==> AllMatch(p, values)
  {
    if Takes(p, seen) {
      forall k | 0 <= k < |values| ensures p.classify(values[k]) { assert values[k] in seen; }
    }
  }

  ghost predicate NoRepeats(values: seq<string>) { forall i, j :: 0 <= i < j < |values| ==> values[i] != values[j] }

  lemma SizeOne(values: seq<string>, seen: set<string>)
    requires NoRepeats(values) && forall v :: v in seen <==> v in values
    ensures |values| == 1 <==> |seen| == 1
    ensures |values| == 1 ==> seen == {values[0]}
  {
    if |values| == 1 {
      assert seen == {values[0]};
    } else if |values| > 1 {
      assert values[0] in seen && values[1] in seen && values[0] != values[1];
      SubsetSize({values[0], values[1]}, seen);
    } else {
      assert seen == {};
    }
  }

  lemma {:induction false} DedupeOnce(values: seq<string>)
    ensures NoRepeats(Dedupe(values)) && forall v :: v in Dedupe(values) <==> v in values
  {
    if values != [] {
      var n := |values| - 1;
      DedupeOnce(values[..n]);
      assert values == values[..n] + [values[n]];
    }
  }

  lemma {:induction false} WithoutOnce(values: seq<string>, w: string)
    requires NoRepeats(values)
    ensures NoRepeats(Without(values, w)) && forall v :: v in Without(values, w) <==> v in values && v != w
  {
    if values != [] {
      assert NoRepeats(values[1..]);
      WithoutOnce(values[1..], w);
      assert values[0] !in values[1..];
    }
  }

  // ---------------------------------------------------------------------------
  // Sub-tilings
  // ---------------------------------------------------------------------------

  /** Every value cuts into this shape: the same separators, and parts empty in the same places. */
  ghost predicate Shaped(core: set<string>, shape: Cuts) {
    && Proper(shape) && shape.seps != []
    && forall v :: v in core ==> SplitOf(v).Some? && SameShape(shape, SplitOf(v).value)
  }

  /** What the values hold in column i. */
  function PartsAt(core: set<string>, i: nat): set<string> {
    set v | v in core && SplitOf(v).Some? && i < |SplitOf(v).value.parts| :: SplitOf(v).value.parts[i]
  }

  /** A column becomes a field of the first primitive to take all its parts - but if that is no
      high-confidence one and the part never varies, it becomes that text. */
  ghost predicate IsColumn(singles: seq<Prim>, parts: set<string>, p: Piece) {
    exists k: nat :: FirstToTake(singles, parts, k) &&
      if !singles[k].promote && |parts| == 1 then p.Lit? && parts == {p.text} else p == Field(singles[k])
  }

  /** Which parts of a shape are not empty. */
  function Filled(shape: Cuts): (full: seq<bool>)
    ensures |full| == |shape.parts|
  {
    seq(|shape.parts|, i requires 0 <= i < |shape.parts| => shape.parts[i] != "")
  }

  function One(full: bool): nat { if full then 1 else 0 }

  /** From column i on: a piece for every part that is not empty, and the separators between them. Columns
      and separators alternate, as only outer parts can be empty. */
  ghost predicate TilingFrom(singles: seq<Prim>, cols: seq<set<string>>, seps: seq<string>, full: seq<bool>, i: nat,
                             ps: seq<Piece>)
    requires |full| == |seps| + 1 == |cols| && i <= |seps| && InnerFull(full)
  {
    var n, a := |seps|, One(full[i]);
    && |ps| == (if i == n then a else 2 * (n - i) - 1 + a + One(full[n]))
    && (forall j :: i <= j < n ==> ps[2 * (j - i) + a] == Lit(seps[j]))
    && (forall j :: i <= j <= n && full[j] ==> IsColumn(singles, cols[j], ps[2 * (j - i) + a - 1]))
  }

  predicate InnerFull(full: seq<bool>) { forall k :: 1 <= k < |full| - 1 ==> full[k] }

  function Columns(core: set<string>, shape: Cuts): (cols: seq<set<string>>)
    ensures |cols| == |shape.parts|
  {
    seq(|shape.parts|, i requires 0 <= i < |shape.parts| => PartsAt(core, i))
  }

  /** The tiling of the values' columns. */
  ghost predicate IsTiling(singles: seq<Prim>, core: set<string>, shape: Cuts, ps: seq<Piece>)
    requires Proper(shape)
  {
    TilingFrom(singles, Columns(core, shape), shape.seps, Filled(shape), 0, ps)
  }

  /** A high-confidence primitive is the first to take the column. */
  ghost predicate Telling(singles: seq<Prim>, core: set<string>, shape: Cuts, j: nat) {
    && j < |shape.parts| && shape.parts[j] != ""
    && exists k: nat :: FirstToTake(singles, PartsAt(core, j), k) && singles[k].promote
  }

  /** The values share the shape, and some column of it is telling. */
  ghost predicate Divides(singles: seq<Prim>, core: set<string>, shape: Cuts) {
    Shaped(core, shape) && exists j: nat :: Telling(singles, core, shape, j)
  }

  ghost predicate Divisible(singles: seq<Prim>, core: set<string>) { exists shape :: Divides(singles, core, shape) }

  lemma {:induction false} PartColumnOf(core: seq<string>, i: nat, part: string)
    ensures part in PartColumn(core, i) <==>
              part != "" && exists v ::
                v in core && SplitOf(v).Some? && i < |SplitOf(v).value.parts| && SplitOf(v).value.parts[i] == part
  {
    if core != [] { PartColumnOf(core[1..], i, part); }
  }

  /** The parts of a column that the shape fills. */
  lemma ColumnHolds(core: seq<string>, seen: set<string>, shape: Cuts, i: nat, part: string)
    requires (forall v :: v in seen <==> v in core) && Shaped(seen, shape) && i < |shape.parts| && shape.parts[i] != ""
    ensures part in PartsAt(seen, i) <==> part in PartColumn(core, i)
  {
    PartColumnOf(core, i, part);
    if part in PartsAt(seen, i) {
      var v :| v in seen && SplitOf(v).Some? && i < |SplitOf(v).value.parts| && SplitOf(v).value.parts[i] == part;
      assert SameShape(shape, SplitOf(v).value);
    }
  }

  lemma ColumnVote(singles: seq<Prim>, core: seq<string>, seen: set<string>, shape: Cuts, i: nat) returns (k: nat)
    requires singles != [] && (forall v :: v in seen <==> v in core) && Shaped(seen, shape)
    requires i < |shape.parts| && shape.parts[i] != ""
    ensures FirstToTake(singles, PartsAt(seen, i), k) && VoteSingle(singles, Dedupe(PartColumn(core, i))) == singles[k]
    ensures IsColumn(singles, PartsAt(seen, i), TypeColumn(singles, core, i))
  {
    var col, parts := Dedupe(PartColumn(core, i)), PartsAt(seen, i);
    DedupeOnce(PartColumn(core, i));
    forall part ensures part in parts <==> part in col { ColumnHolds(core, seen, shape, i, part); }
    k := VoteIs(singles, col, parts);
    SizeOne(col, parts);
  }

  /** A column's stretch of a tiling: one fitting piece, or none for an empty part. */
  ghost predicate ColumnOk(singles: seq<Prim>, parts: set<string>, full: bool, col: seq<Piece>) {
    |col| == One(full) && (full ==> IsColumn(singles, parts, col[0]))
  }

  ghost predicate ColumnsOk(singles: seq<Prim>, core: seq<string>, cols: seq<set<string>>, shape: Cuts)
    requires singles != [] && |shape.parts| == |cols|
  {
    forall j: nat :: j < |shape.parts| ==> ColumnOk(singles, cols[j], Filled(shape)[j], ColumnAt(singles, core, shape, j))
  }

  ghost predicate TiledFrom(singles: seq<Prim>, core: seq<string>, cols: seq<set<string>>, shape: Cuts, full: seq<bool>, i: nat)
    requires singles != [] && |full| == |shape.parts| == |shape.seps| + 1 == |cols| && i <= |shape.seps| && InnerFull(full)
  {
    TilingFrom(singles, cols, shape.seps, full, i, ColumnPieces(singles, core, shape, i))
  }

  lemma {:induction false} TilingIs(singles: seq<Prim>, core: seq<string>, cols: seq<set<string>>, shape: Cuts, full: seq<bool>,
                                    i: nat)
    requires singles != [] && |shape.parts| == |shape.seps| + 1 == |cols| && i <= |shape.seps|
    requires full == Filled(shape) && InnerFull(full) && ColumnsOk(singles, core, cols, shape)
    ensures TiledFrom(singles, core, cols, shape, full, i)
    decreases |shape.seps| - i
  {
    if i < |shape.seps| {
      var next := i + 1;
      TilingIs(singles, core, cols, shape, full, next);
      TilingJoin(singles, core, cols, shape, full, i, next);
    } else {
      TilingEnd(singles, core, cols, shape, full, i);
    }
  }

  lemma TilingJoin(singles: seq<Prim>, core: seq<string>, cols: seq<set<string>>, shape: Cuts, full: seq<bool>, i: nat,
                   next: nat)
    requires singles != [] && |shape.parts| == |shape.seps| + 1 == |cols| && next == i + 1 <= |shape.seps|
    requires full == Filled(shape) && InnerFull(full) && ColumnsOk(singles, core, cols, shape)
    requires TiledFrom(singles, core, cols, shape, full, next)
    ensures TiledFrom(singles, core, cols, shape, full, i)
  {
    var col, rest := ColumnAt(singles, core, shape, i), ColumnPieces(singles, core, shape, next);
    assert ColumnOk(singles, cols[i], full[i], col);
    TilingNext(singles, cols, shape.seps, full, i, next, col, rest);
    PiecesStep(singles, core, shape, i);
  }

  lemma TilingEnd(singles: seq<Prim>, core: seq<string>, cols: seq<set<string>>, shape: Cuts, full: seq<bool>, i: nat)
    requires singles != [] && |shape.parts| == |shape.seps| + 1 == |cols| && i == |shape.seps|
    requires full == Filled(shape) && InnerFull(full) && ColumnsOk(singles, core, cols, shape)
    ensures TiledFrom(singles, core, cols, shape, full, i)
  {
    assert ColumnOk(singles, cols[i], full[i], ColumnAt(singles, core, shape, i));
    TilingLast(singles, cols, shape.seps, full, i, ColumnAt(singles, core, shape, i));
    PiecesStep(singles, core, shape, i);
  }

  lemma TilingLast(singles: seq<Prim>, cols: seq<set<string>>, seps: seq<string>, full: seq<bool>, i: nat, col: seq<Piece>)
    requires |full| == |seps| + 1 == |cols| && InnerFull(full) && i == |seps| && ColumnOk(singles, cols[i], full[i], col)
    ensures TilingFrom(singles, cols, seps, full, i, col)
  {
  }

  lemma TilingNext(singles: seq<Prim>, cols: seq<set<string>>, seps: seq<string>, full: seq<bool>, i: nat, next: nat,
                   col: seq<Piece>, rest: seq<Piece>)
    requires |full| == |seps| + 1 == |cols| && InnerFull(full) && next == i + 1 <= |seps|
    requires TilingFrom(singles, cols, seps, full, next, rest)
    requires ColumnOk(singles, cols[i], full[i], col)
    ensures TilingFrom(singles, cols, seps, full, i, col + ([Lit(seps[i])] + rest))
  {
    var n, a, b := |seps|, One(full[i]), One(full[next]);
    var ps := col + ([Lit(seps[i])] + rest);
    assert next < n ==> b == 1;
    forall j | i <= j < n ensures ps[2 * (j - i) + a] == Lit(seps[j]) {
      if j > i {
        var m := 2 * (j - next) + b;
        assert rest[m] == Lit(seps[j]);
        PlaceInRest(col, Lit(seps[i]), rest, m, 2 * (j - i) + a);
      }
    }
    forall j | i <= j <= n && full[j] ensures IsColumn(singles, cols[j], ps[2 * (j - i) + a - 1]) {
      if j > i {
        assert full[next];
        var m := 2 * (j - next) + b - 1;
        assert IsColumn(singles, cols[j], rest[m]);
        PlaceInRest(col, Lit(seps[i]), rest, m, 2 * (j - i) + a - 1);
      }
    }
  }

  lemma PlaceInRest(col: seq<Piece>, sep: Piece, rest: seq<Piece>, m: int, k: int)
    requires 0 <= m < |rest| && k == m + |col| + 1
    ensures 0 <= k < |col + ([sep] + rest)| && (col + ([sep] + rest))[k] == rest[m]
  {
  }

  lemma TellingIs(singles: seq<Prim>, core: seq<string>, seen: set<string>, shape: Cuts, i: nat)
    requires singles != [] && (forall v :: v in seen <==> v in core) && Shaped(seen, shape) && i < |shape.parts|
    ensures Telling(singles, seen, shape, i)
       <==> shape.parts[i] != "" && VoteSingle(singles, Dedupe(PartColumn(core, i))).promote
  {
    if shape.parts[i] != "" {
      var k := ColumnVote(singles, core, seen, shape, i);
      forall m: nat | FirstToTake(singles, PartsAt(seen, i), m) ensures m == k {}
    }
  }

  predicate PromotedAt(singles: seq<Prim>, core: seq<string>, cuts: Cuts, j: nat)
    requires singles != []
  {
    j < |cuts.parts| && cuts.parts[j] != "" && VoteSingle(singles, Dedupe(PartColumn(core, j))).promote
  }

  ghost predicate PromotedFrom(singles: seq<Prim>, core: seq<string>, cuts: Cuts, i: nat)
    requires singles != []
  {
    exists j: nat :: i <= j && PromotedAt(singles, core, cuts, j)
  }

  lemma PromotedNext(singles: seq<Prim>, core: seq<string>, cuts: Cuts, i: nat, next: nat)
    requires singles != [] && next == i + 1
    ensures PromotedFrom(singles, core, cuts, i)
       <==> PromotedAt(singles, core, cuts, i) || PromotedFrom(singles, core, cuts, next)
  {
    if PromotedFrom(singles, core, cuts, i) {
      var j: nat :| i <= j && PromotedAt(singles, core, cuts, j);
      assert j == i || next <= j;
    }
  }

  lemma PromotedStep(singles: seq<Prim>, core: seq<string>, cuts: Cuts, i: nat, next: nat)
    requires singles != [] && |cuts.parts| == |cuts.seps| + 1 && i <= |cuts.seps| && next == i + 1
    ensures PromotedColumns(singles, core, cuts, i)
         == One(PromotedAt(singles, core, cuts, i)) + if i == |cuts.seps| then 0 else PromotedColumns(singles, core, cuts, next)
  {
  }

  lemma {:induction false} PromotedIs(singles: seq<Prim>, core: seq<string>, cuts: Cuts, i: nat)
    requires singles != [] && |cuts.parts| == |cuts.seps| + 1 && i <= |cuts.seps|
    ensures PromotedColumns(singles, core, cuts, i) > 0 <==> PromotedFrom(singles, core, cuts, i)
    decreases |cuts.seps| - i
  {
    var next := i + 1;
    PromotedStep(singles, core, cuts, i, next);
    PromotedNext(singles, core, cuts, i, next);
    if i < |cuts.seps| { PromotedIs(singles, core, cuts, next); } else { NonePast(singles, core, cuts, next); }
  }

  lemma NonePast(singles: seq<Prim>, core: seq<string>, cuts: Cuts, i: nat)
    requires singles != [] && i >= |cuts.parts|
    ensures !PromotedFrom(singles, core, cuts, i)
  {
  }

  lemma DividesIff(singles: seq<Prim>, core: seq<string>, seen: set<string>, shape: Cuts)
    requires singles != [] && (forall v :: v in seen <==> v in core) && Shaped(seen, shape)
    ensures Divides(singles, seen, shape) <==> PromotedColumns(singles, core, shape, 0) > 0
  {
    PromotedIs(singles, core, shape, 0);
    forall j: nat ensures Telling(singles, seen, shape, j) <==> PromotedAt(singles, core, shape, j) {
      if j < |shape.parts| { TellingIs(singles, core, seen, shape, j); }
    }
  }

  lemma {:induction false} SameShapeSignature(a: Cuts, b: Cuts)
    requires Proper(a) && Proper(b) && SameShape(a, b)
    ensures a.sig == b.sig
    decreases |a.seps|
  {
    if a.seps != [] { SameShapeSignature(Tail(a), Tail(b)); }
  }

  lemma ShapeIsSignature(core: seq<string>, seen: set<string>, shape: Cuts)
    requires core != [] && (forall v :: v in seen <==> v in core) && Shaped(seen, shape)
    ensures SharedSignature(core)
  {
    forall k | 0 <= k < |core| ensures SplitOf(core[k]).Some? && SplitOf(core[k]).value.sig == shape.sig {
      assert core[k] in seen;
      SameShapeSignature(shape, SplitOf(core[k]).value);
    }
  }

  /** Values that share a signature share a shape. */
  lemma SignatureIsShape(core: seq<string>, seen: set<string>)
    requires (forall v :: v in seen <==> v in core) && SharedSignature(core)
    ensures Shaped(seen, SplitOf(core[0]).value)
  {
    var shape := SplitOf(core[0]).value;
    forall v | v in seen ensures SplitOf(v).Some? && SameShape(shape, SplitOf(v).value) {
      var k :| 0 <= k < |core| && core[k] == v;
      SignatureInjective(shape, SplitOf(v).value);
    }
  }

  lemma SameFilled(a: Cuts, b: Cuts, c: Cuts)
    requires SameShape(a, c) && SameShape(b, c)
    ensures Filled(a) == Filled(b)
  {
  }

  lemma SameTelling(singles: seq<Prim>, seen: set<string>, a: Cuts, b: Cuts)
    requires Filled(a) == Filled(b) && Shaped(seen, b) && Divides(singles, seen, a)
    ensures Divides(singles, seen, b)
  {
    var j: nat :| Telling(singles, seen, a, j);
    assert Filled(a)[j] && Filled(b)[j];
    assert Telling(singles, seen, b, j);
  }

  lemma ColumnFits(singles: seq<Prim>, core: seq<string>, seen: set<string>, shape: Cuts, j: nat)
    requires singles != [] && (forall v :: v in seen <==> v in core) && Shaped(seen, shape) && j < |shape.parts|
    ensures ColumnOk(singles, PartsAt(seen, j), Filled(shape)[j], ColumnAt(singles, core, shape, j))
  {
    if shape.parts[j] != "" { var k := ColumnVote(singles, core, seen, shape, j); }
  }

  lemma TilingOf(singles: seq<Prim>, core: seq<string>, seen: set<string>, shape: Cuts)
    requires singles != [] && (forall v :: v in seen <==> v in core) && Shaped(seen, shape)
    ensures IsTiling(singles, seen, shape, ColumnPieces(singles, core, shape, 0))
  {
    forall j: nat | j < |shape.parts|
      ensures ColumnOk(singles, PartsAt(seen, j), Filled(shape)[j], ColumnAt(singles, core, shape, j))
    {
      ColumnFits(singles, core, seen, shape, j);
    }
    TilingIs(singles, core, Columns(seen, shape), shape, Filled(shape), 0);
    assert TiledFrom(singles, core, Columns(seen, shape), shape, Filled(shape), 0);
  }

  lemma SharedShape(singles: seq<Prim>, core: seq<string>, seen: set<string>, shape: Cuts)
    requires singles != [] && (forall v :: v in seen <==> v in core) && SharedSignature(core)
    requires shape == SplitOf(core[0]).value
    ensures SubSplitPieces(singles, core).Some? <==> Divides(singles, seen, shape)
    ensures SubSplitPieces(singles, core).Some? ==> IsTiling(singles, seen, shape, SubSplitPieces(singles, core).value)
  {
    SignatureIsShape(core, seen);
    DividesIff(singles, core, seen, shape);
    TilingOf(singles, core, seen, shape);
  }

  lemma OneShape(singles: seq<Prim>, seen: set<string>, v: string, shape: Cuts, other: Cuts)
    requires v in seen && Shaped(seen, shape) && Divides(singles, seen, other)
    ensures Divides(singles, seen, shape)
  {
    assert SameShape(shape, SplitOf(v).value) && SameShape(other, SplitOf(v).value);
    SameFilled(other, shape, SplitOf(v).value);
    SameTelling(singles, seen, other, shape);
  }

  /** A sub-tiling comes out exactly when the values divide, and it is the tiling of their columns. */
  lemma SubSplitIs(singles: seq<Prim>, core: seq<string>, seen: set<string>) returns (shape: Cuts)
    requires singles != [] && core != [] && forall v :: v in seen <==> v in core
    ensures SubSplitPieces(singles, core).Some? <==> Divisible(singles, seen)
    ensures SubSplitPieces(singles, core).Some? ==>
              Divides(singles, seen, shape) && IsTiling(singles, seen, shape, SubSplitPieces(singles, core).value)
  {
    shape := Cuts([""], [], "");
    assert core[0] in seen;
    if SharedSignature(core) {
      shape := SplitOf(core[0]).value;
      SignatureIsShape(core, seen);
      SharedShape(singles, core, seen, shape);
      if other :| Divides(singles, seen, other) { OneShape(singles, seen, core[0], shape, other); }
    } else if other :| Divides(singles, seen, other) {
      ShapeIsSignature(core, seen, other);
    }
  }

  // ---------------------------------------------------------------------------
  // Tokens
  // ---------------------------------------------------------------------------

  /** The pieces in a row, or in a group with a dash for an alternative. */
  ghost predicate Wrapped(ps: seq<Piece>, dash: bool, p: Piece) {
    p == if dash then Group(ps, true) else if |ps| == 1 then ps[0] else Group(ps, false)
  }

  /** A slot without evidence: the first primitive to take the template's own token. */
  ghost predicate IsTemplatePiece(singles: seq<Prim>, tmpl: string, p: Piece) {
    exists k: nat :: FirstToTake(singles, {tmpl}, k) && p == Field(singles[k])
  }

  /** The values divide, and ps is the tiling of their columns. */
  ghost predicate IsSubTiling(singles: seq<Prim>, core: set<string>, ps: seq<Piece>) {
    exists shape :: Divides(singles, core, shape) && IsTiling(singles, core, shape, ps)
  }

  /** A slot that held the values of core, and dashes or not. Let k be the first primitive to take all of
      core: the piece is its field, if that is a high-confidence one; else the tiling of the values'
      columns, if they divide; else the value itself, if there is only one and no dash; else the field of k.
      The field gets a dash alternative when a dash was seen that k does not take, the tiling whenever one
      was seen. */
  ghost predicate IsVotedPiece(singles: seq<Prim>, core: set<string>, dash: bool, overflow: bool, k: nat, p: Piece) {
    && FirstToTake(singles, core, k)
    && if singles[k].promote then Wrapped([Field(singles[k])], dash && !singles[k].classify("-"), p)
       else if Divisible(singles, core) then exists ps :: IsSubTiling(singles, core, ps) && Wrapped(ps, dash, p)
       else if !overflow && !dash && |core| == 1 then p.Lit? && core == {p.text}
       else Wrapped([Field(singles[k])], dash && !singles[k].classify("-"), p)
  }

  function OtherThan(values: seq<string>, w: string): set<string> { set v | v in values && v != w }

  /** A slot with evidence; where only dashes were seen, it becomes a dash. */
  ghost predicate IsTokenPiece(singles: seq<Prim>, st: Stats, p: Piece) {
    var dash, core := "-" in st.distinct, OtherThan(st.distinct, "-");
    if core == {} then p == Lit("-") else exists k: nat :: IsVotedPiece(singles, core, dash, st.overflow, k, p)
  }

  lemma TemplateTyped(singles: seq<Prim>, tmpl: string, st: Option<Stats>)
    requires singles != [] && (st.Some? ==> st.value.matched < 2)
    ensures IsTemplatePiece(singles, tmpl, TypeToken(singles, tmpl, st))
  {
    var k := VoteIs(singles, [tmpl], {tmpl});
  }

  lemma FromVoteIs(singles: seq<Prim>, core: set<string>, k: nat, sub: Option<seq<Piece>>, values: seq<string>,
                   dash: bool, overflow: bool)
    requires FirstToTake(singles, core, k) && (|values| == 1 <==> |core| == 1) && (|values| == 1 ==> core == {values[0]})
    requires (sub.Some? <==> Divisible(singles, core)) && (sub.Some? ==> IsSubTiling(singles, core, sub.value))
    ensures IsVotedPiece(singles, core, dash, overflow, k, FromVote(singles[k], sub, values, dash, overflow))
  {
    var p := FromVote(singles[k], sub, values, dash, overflow);
    if !singles[k].promote && sub.Some? {
      assert IsSubTiling(singles, core, sub.value) && Wrapped(sub.value, dash, p);
    }
  }

  /** Which piece a token slot becomes. */
  lemma TokenTyped(singles: seq<Prim>, tmpl: string, st: Stats)
    requires singles != [] && st.matched >= 2 && NoRepeats(st.distinct)
    ensures IsTokenPiece(singles, st, TypeToken(singles, tmpl, Some(st)))
  {
    var values, core := Without(st.distinct, "-"), OtherThan(st.distinct, "-");
    WithoutOnce(st.distinct, "-");
    assert forall v :: v in core <==> v in values;
    if values == [] {
      assert core == {};
    } else {
      assert values[0] in values;
      var k := VoteIs(singles, values, core);
      SizeOne(values, core);
      var shape := SubSplitIs(singles, values, core);
      FromVoteIs(singles, core, k, SubSplitPieces(singles, values), values, "-" in st.distinct, st.overflow);
    }
  }

  // ---------------------------------------------------------------------------
  // Whole tilings
  // ---------------------------------------------------------------------------

  ghost predicate HasEvidence(st: Option<Stats>) { st.Some? && st.value.matched >= 2 }

  /** A unit outside quotes: literal text and composites as they stand, a token as its slot is typed. */
  ghost predicate IsPlainPiece(singles: seq<Prim>, u: Unit, st: Option<Stats>, p: Piece) {
    match u
    case Literal(text) => p == Lit(text)
    case Comp(_, c) => p == Expr(c)
    case Token(text) => if HasEvidence(st) then IsTokenPiece(singles, st.value, p) else IsTemplatePiece(singles, text, p)
    case Quote(_) => false
  }

  /** The piece in the host slot gives way to HOSTNAME: it is literal text or a field of low confidence,
      and every value seen - without evidence, the template's token - is shaped like a hostname. */
  ghost predicate Upgraded(t: Tables, units: seq<Unit>, stats: Option<seq<Option<Stats>>>, raw: seq<Piece>, i: nat)
    requires |raw| == |units|
  {
    && t.host.Some? && AtHost(units, i) && (raw[i].Lit? || (raw[i].Field? && !raw[i].prim.promote))
    && var st := StatOf(stats, i);
       if HasEvidence(st) then forall v :: v in st.value.distinct ==> t.host.value.classify(v)
       else t.host.value.classify(units[i].text)
  }

  ghost predicate HostRuled(t: Tables, units: seq<Unit>, stats: Option<seq<Option<Stats>>>, raw: seq<Piece>, ps: seq<Piece>)
    requires |raw| == |units|
  {
    |ps| == |raw| && forall i: nat :: i < |raw| ==>
      ps[i] == if Upgraded(t, units, stats, raw, i) then Field(t.host.value) else raw[i]
  }

  /** The pieces of a line without quotes. */
  ghost predicate IsPlainTiling(t: Tables, units: seq<Unit>, stats: Option<seq<Option<Stats>>>, ps: seq<Piece>) {
    exists raw: seq<Piece> ::
      && |raw| == |units| && HostRuled(t, units, stats, raw, ps)
      && forall i: nat :: i < |units| ==> IsPlainPiece(t.singles, units[i], StatOf(stats, i), raw[i])
  }

  /** Positions of the values a tiling does not accept. */
  ghost function Rejected(ps: seq<Piece>, values: seq<string>): set<nat> {
    set k: nat | k < |values| && !Accepts(ps, values[k])
  }

  /** An inner tiling worth keeping: it compiles, rejects at most one remembered value in twenty, and has a
      high-confidence leaf. */
  ghost predicate WorthKeeping(t: Tables, ps: seq<Piece>, values: seq<string>) {
    && t.compiles(ps) && values != [] && 20 * |Rejected(ps, values)| <= |values|
    && exists k :: 0 <= k < |Leaves(ps)| && HighConfidence(Leaves(ps)[k])
  }

  /** Inside a quoted region: without evidence, the tiling of the template's own text; one value that never
      varied, as it stands; else the tiling of the text learned from the values, if the text is more than
      delimiters and the tiling is worth keeping; else DATA. */
  ghost predicate IsInside(t: Tables, inner: string, st: Option<Stats>, ps: seq<Piece>) {
    var units := Segments(t.comps, inner, false);
    if !HasEvidence(st) then IsPlainTiling(t, units, None, ps)
    else
      var values := st.value.distinct;
      if !st.value.overflow && |values| == 1 then ps == [Lit(values[0])]
      else if forall k :: 0 <= k < |units| ==> units[k].Literal? then ps == [Field(t.data)]
      else
        exists kept ::
          && IsPlainTiling(t, units, Some(Observed(t.align, units, values)), kept)
          && ps == if WorthKeeping(t, kept, values) then kept else [Field(t.data)]
  }

  /** The piece of any unit. */
  ghost predicate IsPiece(t: Tables, u: Unit, st: Option<Stats>, p: Piece) {
    match u
    case Quote(inner) => exists ps :: IsInside(t, inner, st, ps) && p == Group([Lit("\"")] + ps + [Lit("\"")], false)
    case _ => IsPlainPiece(t.singles, u, st, p)
  }

  lemma HostRuleIs(t: Tables, units: seq<Unit>, stats: Option<seq<Option<Stats>>>, raw: seq<Piece>)
    requires |raw| == |units|
    ensures HostRuled(t, units, stats, raw, HostGrammar(t, units, stats, raw))
  {
    forall i: nat | i < |raw|
      ensures HostGrammar(t, units, stats, raw)[i] == if Upgraded(t, units, stats, raw, i) then Field(t.host.value) else raw[i]
    {
      HostSlotIff(units, i);
      UpgradedIff(t, units, stats, raw, i);
    }
  }

  lemma UpgradedIff(t: Tables, units: seq<Unit>, stats: Option<seq<Option<Stats>>>, raw: seq<Piece>, i: nat)
    requires |raw| == |units| && i < |raw|
    ensures Upgraded(t, units, stats, raw, i) <==>
              && t.host.Some? && AtHost(units, i) && !(raw[i].Field? && raw[i].prim.promote) && !raw[i].Expr? && !raw[i].Group?
              && HostShaped(t.host.value, units[i], StatOf(stats, i))
  {
    var st := StatOf(stats, i);
    if t.host.Some? && HasEvidence(st) {
      assert AllMatch(t.host.value, st.value.distinct) <==> forall v :: v in st.value.distinct ==> t.host.value.classify(v);
    }
  }

  /** Statistics the probe can have gathered. */
  ghost predicate Gathered(stats: Option<seq<Option<Stats>>>) {
    forall i: nat :: StatOf(stats, i).Some? ==> NoRepeats(StatOf(stats, i).value.distinct)
  }

  lemma ObservedGathered(align: Aligner, units: seq<Unit>, samples: seq<string>)
    ensures Gathered(Some(Observed(align, units, samples)))
  {
    forall i: nat | i < |units| ensures NoRepeats(Collect(Column(align, units, samples, i)).distinct) {
      CollectSpec(Column(align, units, samples, i));
    }
  }

  lemma PlainTyped(t: Tables, u: Unit, st: Option<Stats>, depth: nat)
    requires t.singles != [] && !u.Quote? && (st.Some? ==> NoRepeats(st.value.distinct))
    ensures IsPlainPiece(t.singles, u, st, TypeUnit(t, u, st, depth))
  {
    if u.Token? {
      if HasEvidence(st) { TokenTyped(t.singles, u.text, st.value); } else { TemplateTyped(t.singles, u.text, st); }
    }
  }

  /** The pieces before the host rule. */
  function Typed(t: Tables, units: seq<Unit>, stats: Option<seq<Option<Stats>>>, depth: nat): (raw: seq<Piece>)
    requires t.singles != [] && (depth > 0 ==> NoQuotes(units))
    ensures |raw| == |units|
  {
    seq(|units|, i requires 0 <= i < |units| => TypeUnit(t, units[i], StatOf(stats, i), depth))
  }

  lemma PlainTilingIs(t: Tables, units: seq<Unit>, stats: Option<seq<Option<Stats>>>)
    requires t.singles != [] && NoQuotes(units) && Gathered(stats)
    ensures IsPlainTiling(t, units, stats, TypeUnits(t, units, stats, 1))
  {
    var raw := Typed(t, units, stats, 1);
    forall i: nat | i < |units| ensures IsPlainPiece(t.singles, units[i], StatOf(stats, i), raw[i]) {
      PlainTyped(t, units[i], StatOf(stats, i), 1);
    }
    HostRuleIs(t, units, stats, raw);
  }

  lemma {:induction false} RejectedSize(ps: seq<Piece>, values: seq<string>)
    ensures |Rejected(ps, values)| + AcceptedCount(ps, values) == |values|
  {
    if values != [] {
      RejectedSize(ps, values[1..]);
      RejectedShift(ps, values);
    }
  }

  lemma RejectedShift(ps: seq<Piece>, values: seq<string>)
    requires values != []
    ensures |Rejected(ps, values)| == |Rejected(ps, values[1..])| + if Accepts(ps, values[0]) then 0 else 1
  {
    var all, moved := Rejected(ps, values), Shifted(Rejected(ps, values[1..]), 1);
    var head: set<nat> := if Accepts(ps, values[0]) then {} else {0};
    forall y ensures y in all <==> y in moved || y in head { ShiftedHas(Rejected(ps, values[1..]), 1, y); }
    forall y | y in moved ensures y !in head { ShiftedHas(Rejected(ps, values[1..]), 1, y); }
    assert all == moved + head;
    ShiftedSize(Rejected(ps, values[1..]), 1);
  }

  lemma NineteenInTwenty(accepted: nat, rejected: nat, n: nat)
    requires rejected + accepted == n
    ensures accepted as real >= 0.95 * n as real <==> 20 * rejected <= n
  {
  }

  lemma MatchesMostIff(ps: seq<Piece>, values: seq<string>)
    ensures MatchesMost(ps, values) <==> values != [] && 20 * |Rejected(ps, values)| <= |values|
  {
    RejectedSize(ps, values);
    NineteenInTwenty(AcceptedCount(ps, values), |Rejected(ps, values)|, |values|);
  }

  lemma WorthKeepingIff(t: Tables, ps: seq<Piece>, values: seq<string>)
    ensures WorthKeeping(t, ps, values) <==> t.compiles(ps) && MatchesMost(ps, values) && Promoted(ps) > 0
  {
    MatchesMostIff(ps, values);
    PromotedIff(ps);
  }

  /** When an inner tiling is kept. */
  lemma KeptIff(t: Tables, inner: string, values: seq<string>)
    requires t.singles != []
    ensures KeptTiling(t, inner, values).Some? <==>
              inner != "" && InnerTiling(t, inner, values).Some? && WorthKeeping(t, InnerTiling(t, inner, values).value, values)
    ensures KeptTiling(t, inner, values).Some? ==> KeptTiling(t, inner, values) == InnerTiling(t, inner, values)
  {
    var tiling := InnerTiling(t, inner, values);
    if tiling.Some? { WorthKeepingIff(t, tiling.value, values); }
  }

  lemma InsideTemplate(t: Tables, inner: string, st: Option<Stats>)
    requires t.singles != [] && !HasEvidence(st)
    ensures IsPiece(t, Quote(inner), st, TypeQuote(t, inner, st))
  {
    var ps := TypeUnits(t, InnerUnits(t, inner), None, 1);
    PlainTilingIs(t, InnerUnits(t, inner), None);
    assert IsInside(t, inner, st, ps);
  }

  lemma InsideLearned(t: Tables, inner: string, st: Stats)
    requires t.singles != [] && st.matched >= 2 && !SameEverywhere(st)
    ensures IsPiece(t, Quote(inner), Some(st), TypeQuote(t, inner, Some(st)))
  {
    var units, stats := InnerUnits(t, inner), Some(Observed(t.align, InnerUnits(t, inner), st.distinct));
    KeptIff(t, inner, st.distinct);
    ObservedGathered(t.align, units, st.distinct);
    PlainTilingIs(t, units, stats);
    var tiling := TypeUnits(t, units, stats, 1);
    var ps := match KeptTiling(t, inner, st.distinct) case Some(kept) => kept case None => [Field(t.data)];
    assert IsInside(t, inner, Some(st), ps) by {
      assert inner == "" ==> units == [];
      if !(forall k :: 0 <= k < |units| ==> units[k].Literal?) {
        assert IsPlainTiling(t, units, stats, tiling);
        assert ps == if WorthKeeping(t, tiling, st.distinct) then tiling else [Field(t.data)];
      }
    }
  }

  /** Which piece a quoted region becomes. */
  lemma QuoteTyped(t: Tables, inner: string, st: Option<Stats>)
    requires t.singles != []
    ensures IsPiece(t, Quote(inner), st, TypeQuote(t, inner, st))
  {
    if !HasEvidence(st) {
      InsideTemplate(t, inner, st);
    } else if SameEverywhere(st.value) {
      assert IsInside(t, inner, st, [Lit(st.value.distinct[0])]);
    } else {
      InsideLearned(t, inner, st.value);
    }
  }

  /** What typing makes of a line: the piece of each unit, and then HOSTNAME in the host slot where it
      belongs. */
  lemma LineTyped(t: Tables, units: seq<Unit>, stats: Option<seq<Option<Stats>>>) returns (raw: seq<Piece>)
    requires t.singles != [] && Gathered(stats)
    ensures |raw| == |units| && forall i: nat :: i < |units| ==> IsPiece(t, units[i], StatOf(stats, i), raw[i])
    ensures HostRuled(t, units, stats, raw, TypeUnits(t, units, stats, 0))
  {
    raw := Typed(t, units, stats, 0);
    forall i: nat | i < |units| ensures IsPiece(t, units[i], StatOf(stats, i), raw[i]) {
      if units[i].Quote? {
        QuoteTyped(t, units[i].text, StatOf(stats, i));
      } else {
        PlainTyped(t, units[i], StatOf(stats, i), 0);
      }
    }
    HostRuleIs(t, units, stats, raw);
  }
}
