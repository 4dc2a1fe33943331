/** The tiler's render tree and the language it denotes (tilePiece, pieceCounts and renderPieces in
    internal/pattern/tiler.go). A rendered pattern is anchored, so it accepts a string exactly when
    the string splits into stretches that the pieces accept in turn. */
module Pieces {
  import opened Base
  import opened Segmentation

  /** A whole-token primitive: `classify` is the recogniser used when voting, `emit` the language
      of the primitive that is rendered. */
  datatype Prim = Prim(name: string, promote: bool, classify: Matcher, emit: Matcher)

  datatype Piece =
    | Lit(text: string)
    | Field(prim: Prim)
    | Expr(comp: Composite)
    | Group(sub: seq<Piece>, dashAlt: bool)

  predicate AcceptsOne(p: Piece, s: string)
    decreases p, 0
  {
    match p
    case Lit(t) => s == t
    case Field(q) => q.emit(s)
    case Expr(c) => c.accepts(s)
    case Group(sub, dash) => (dash && s == "-") || Accepts(sub, s)
  }

  predicate Accepts(ps: seq<Piece>, s: string)
    decreases ps, 1
  {
    if ps == [] then s == ""
    else exists k :: 0 <= k <= |s| && AcceptsOne(ps[0], s[..k]) && Accepts(ps[1..], s[k..])
  }

  /** High-confidence fields; composites are timestamps and count. */
  function Promoted(ps: seq<Piece>): nat {
    if ps == [] then 0 else PromotedOne(ps[0]) + Promoted(ps[1..])
  }

  function PromotedOne(p: Piece): nat {
    match p
    case Lit(_) => 0
    case Field(q) => if q.promote then 1 else 0
    case Expr(_) => 1
    case Group(sub, _) => Promoted(sub)
  }

  /** Non-promoted fields. */
  function Speculative(ps: seq<Piece>): nat {
    if ps == [] then 0 else SpeculativeOne(ps[0]) + Speculative(ps[1..])
  }

  function SpeculativeOne(p: Piece): nat {
    match p
    case Field(q) => if q.promote then 0 else 1
    case Group(sub, _) => Speculative(sub)
    case _ => 0
  }

  /** Everything in a tree but its groups. */
  function Leaves(ps: seq<Piece>): (leaves: seq<Piece>)
    ensures forall k :: 0 <= k < |leaves| ==> !leaves[k].Group?
  {
    if ps == [] then []
    else (if ps[0].Group? then Leaves(ps[0].sub) else [ps[0]]) + Leaves(ps[1..])
  }

  predicate HighConfidence(p: Piece) { p.Expr? || (p.Field? && p.prim.promote) }

  /** Positions of the high-confidence leaves, and of the speculative ones. */
  function Confident(leaves: seq<Piece>): set<nat> { set k: nat | k < |leaves| && HighConfidence(leaves[k]) }

  function Doubtful(leaves: seq<Piece>): set<nat> {
    set k: nat | k < |leaves| && leaves[k].Field? && !leaves[k].prim.promote
  }

  /** Positions moved on by n. */
  function Shifted(v: set<nat>, n: nat): set<nat> { set k | k in v :: k + n }

  lemma ShiftedHas(v: set<nat>, n: nat, y: int)
    ensures y in Shifted(v, n) <==> y - n >= 0 && y - n in v
  {
    if y - n >= 0 && y - n in v {
      var k: nat := y - n;
      assert k in v && y == k + n;
    }
  }

  lemma {:induction false} ShiftedSize(v: set<nat>, n: nat)
    ensures |Shifted(v, n)| == |v|
    decreases v
  {
    if v != {} {
      var x :| x in v;
      ShiftedSize(v - {x}, n);
      forall y ensures y in Shifted(v, n) <==> y in Shifted(v - {x}, n) || y == x + n {
        ShiftedHas(v, n, y);
        ShiftedHas(v - {x}, n, y);
      }
      assert Shifted(v, n) == Shifted(v - {x}, n) + {x + n};
      ShiftedHas(v - {x}, n, x + n);
    }
  }

  lemma ConfidentConcat(a: seq<Piece>, b: seq<Piece>)
    ensures |Confident(a + b)| == |Confident(a)| + |Confident(b)|
  {
    var w, moved := Confident(a + b), Shifted(Confident(b), |a|);
    forall y ensures y in w <==> y in Confident(a) || y in moved { ShiftedHas(Confident(b), |a|, y); }
    forall y | y in moved ensures y !in Confident(a) { ShiftedHas(Confident(b), |a|, y); }
    assert w == Confident(a) + moved;
    ShiftedSize(Confident(b), |a|);
  }

  lemma DoubtfulConcat(a: seq<Piece>, b: seq<Piece>)
    ensures |Doubtful(a + b)| == |Doubtful(a)| + |Doubtful(b)|
  {
    var w, moved := Doubtful(a + b), Shifted(Doubtful(b), |a|);
    forall y ensures y in w <==> y in Doubtful(a) || y in moved { ShiftedHas(Doubtful(b), |a|, y); }
    forall y | y in moved ensures y !in Doubtful(a) { ShiftedHas(Doubtful(b), |a|, y); }
    assert w == Doubtful(a) + moved;
    ShiftedSize(Doubtful(b), |a|);
  }

  /** The counts are those of the leaves: timestamps and promoted fields, and the other fields. */
  lemma {:induction false} CountsOfLeaves(ps: seq<Piece>)
    ensures Promoted(ps) == |Confident(Leaves(ps))| && Speculative(ps) == |Doubtful(Leaves(ps))|
    decreases ps
  {
    if ps != [] {
      var head := if ps[0].Group? then Leaves(ps[0].sub) else [ps[0]];
      CountsOfLeaves(ps[1..]);
      ConfidentConcat(head, Leaves(ps[1..]));
      DoubtfulConcat(head, Leaves(ps[1..]));
      if ps[0].Group? {
        CountsOfLeaves(ps[0].sub);
      } else {
        assert Confident([ps[0]]) == if HighConfidence(ps[0]) then {0} else {};
        assert Doubtful([ps[0]]) == if ps[0].Field? && !ps[0].prim.promote then {0} else {};
      }
    }
  }

  /** A tree counts as carrying a high-confidence field exactly when one of its leaves is one. */
  lemma PromotedIff(ps: seq<Piece>)
    ensures Promoted(ps) > 0 <==> exists k :: 0 <= k < |Leaves(ps)| && HighConfidence(Leaves(ps)[k])
  {
    CountsOfLeaves(ps);
    var leaves := Leaves(ps);
    if k :| 0 <= k < |leaves| && HighConfidence(leaves[k]) {
      assert k in Confident(leaves);
    } else {
      assert Confident(leaves) == {};
    }
  }

  lemma AcceptsCons(p: Piece, ps: seq<Piece>, a: string, b: string)
    requires AcceptsOne(p, a) && Accepts(ps, b)
    ensures Accepts([p] + ps, a + b)
  {
    var whole, s := [p] + ps, a + b;
    assert whole[1..] == ps && s[..|a|] == a && s[|a|..] == b;
  }

  lemma {:induction false} AcceptsAppend(ps: seq<Piece>, qs: seq<Piece>, a: string, b: string)
    requires Accepts(ps, a) && Accepts(qs, b)
    ensures Accepts(ps + qs, a + b)
  {
    if ps == [] {
      assert ps + qs == qs && a + b == b;
    } else {
      var k :| 0 <= k <= |a| && AcceptsOne(ps[0], a[..k]) && Accepts(ps[1..], a[k..]);
      AcceptsAppend(ps[1..], qs, a[k..], b);
      AcceptsCons(ps[0], ps[1..] + qs, a[..k], a[k..] + b);
      Regroup(ps, 1, qs);
      Regroup(a, k, b);
      assert ps[..1] == [ps[0]];
    }
  }

  lemma Regroup<T>(s: seq<T>, k: nat, t: seq<T>)
    requires k <= |s|
    ensures s[..k] + (s[k..] + t) == s + t
  {
  }

  lemma AcceptsSingle(p: Piece, s: string)
    requires AcceptsOne(p, s)
    ensures Accepts([p], s)
  {
    AcceptsCons(p, [], s, "");
    assert [p] + [] == [p] && s + "" == s;
  }

  /** A sequence, optionally with a dash alternative; no group is built when none is needed. */
  function WrapDash(ps: seq<Piece>, dash: bool): Piece {
    if !dash && |ps| == 1 then ps[0] else Group(ps, dash)
  }

  lemma WrapDashAccepts(ps: seq<Piece>, dash: bool, s: string)
    requires Accepts(ps, s) || (dash && s == "-")
    ensures AcceptsOne(WrapDash(ps, dash), s)
  {
    if !dash && |ps| == 1 {
      var k :| 0 <= k <= |s| && AcceptsOne(ps[0], s[..k]) && Accepts(ps[1..], s[k..]);
      assert s[..k] == s;
    }
  }

  function Quoted(sub: seq<Piece>): Piece { Group([Lit("\"")] + sub + [Lit("\"")], false) }

  lemma QuotedAccepts(sub: seq<Piece>, v: string)
    requires Accepts(sub, v)
    ensures AcceptsOne(Quoted(sub), "\"" + v + "\"")
  {
    AcceptsSingle(Lit("\""), "\"");
    AcceptsAppend([Lit("\"")], sub, "\"", v);
    AcceptsAppend([Lit("\"")] + sub, [Lit("\"")], "\"" + v, "\"");
  }
}
