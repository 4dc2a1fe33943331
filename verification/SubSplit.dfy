/** Intra-token structure (splitSub in internal/pattern/tiler.go). */
module SubSplit {
  import opened Base
  import opened Segmentation

  /** A token cut into parts and separator runs, with the signature that encodes the cut. */
  datatype Cuts = Cuts(parts: seq<string>, seps: seq<string>, sig: string)

  function PartEnd(s: string, i: nat): (j: nat)
    requires i <= |s|
    ensures i <= j <= |s| && (j < |s| ==> IsSubSep(s[j]))
    ensures forall k :: i <= k < j ==> !IsSubSep(s[k])
    decreases |s| - i
  {
    if i == |s| || IsSubSep(s[i]) then i else PartEnd(s, i + 1)
  }

  function SepEnd(s: string, i: nat): (j: nat)
    requires i <= |s|
    ensures i <= j <= |s| && (j < |s| ==> !IsSubSep(s[j]))
    ensures i < |s| && IsSubSep(s[i]) ==> i < j
    ensures forall k :: i <= k < j ==> IsSubSep(s[k])
    decreases |s| - i
  {
    if i == |s| || !IsSubSep(s[i]) then i else SepEnd(s, i + 1)
  }

  function Mark(part: string): string { if part == "" then "0" else "P" }

  /** The signature of a cut: separator runs verbatim, parts reduced to empty or not. */
  function Signature(parts: seq<string>, seps: seq<string>): string
    requires |parts| == |seps| + 1
  {
    if seps == [] then Mark(parts[0]) else Mark(parts[0]) + seps[0] + Signature(parts[1..], seps[1..])
  }

  function Interleave(parts: seq<string>, seps: seq<string>): string
    requires |parts| == |seps| + 1
  {
    if seps == [] then parts[0] else parts[0] + seps[0] + Interleave(parts[1..], seps[1..])
  }

  predicate SepRun(s: string) { s != "" && forall k :: 0 <= k < |s| ==> IsSubSep(s[k]) }

  predicate PartRun(s: string) { forall k :: 0 <= k < |s| ==> !IsSubSep(s[k]) }

  /** A proper cut: separators are non-empty runs, parts hold none and only the outer ones may be
      empty, the signature describes it. */
  ghost predicate Proper(c: Cuts) {
    && |c.parts| == |c.seps| + 1
    && (forall k :: 1 <= k < |c.seps| ==> c.parts[k] != "")
    && (forall k :: 0 <= k < |c.seps| ==> SepRun(c.seps[k]))
    && (forall k :: 0 <= k < |c.parts| ==> PartRun(c.parts[k]))
    && c.sig == Signature(c.parts, c.seps)
  }

  /** One more part and separator run in front of a cut. */
  function Cons(part: string, sep: string, rest: Cuts): Cuts {
    Cuts([part] + rest.parts, [sep] + rest.seps, Mark(part) + sep + rest.sig)
  }

  lemma CutTwice(s: string, i: nat, j: nat, k: nat)
    requires i <= j <= k <= |s|
    ensures s[i..] == s[i..j] + s[j..k] + s[k..]
  {
  }

  /** Nothing, or something that does not start with a separator: what follows a whole run. */
  ghost predicate AfterRun(c: Cuts) { c.parts != [] && (c.parts[0] == "" ==> c.seps == []) }

  lemma ConsProper(part: string, sep: string, rest: Cuts)
    requires PartRun(part) && SepRun(sep) && Proper(rest) && AfterRun(rest)
    ensures Proper(Cons(part, sep, rest))
    ensures Interleave(Cons(part, sep, rest).parts, Cons(part, sep, rest).seps) == part + sep + Interleave(rest.parts, rest.seps)
  {
    var c := Cons(part, sep, rest);
    assert c.parts[1..] == rest.parts && c.seps[1..] == rest.seps;
  }

  /** The cut of s[i..]; the source's loop from offset i. */
  function CutFrom(s: string, i: nat): (c: Cuts)
    requires i <= |s|
    ensures Proper(c) && Interleave(c.parts, c.seps) == s[i..]
    ensures i == |s| || !IsSubSep(s[i]) ==> AfterRun(c)
    decreases |s| - i
  {
    var j := PartEnd(s, i);
    if j == |s| then Cuts([s[i..]], [], Mark(s[i..]))
    else
      var k := SepEnd(s, j);
      ConsProper(s[i..j], s[j..k], CutFrom(s, k));
      CutTwice(s, i, j, k);
      Cons(s[i..j], s[j..k], CutFrom(s, k))
  }

  /** splitSub: no result for a token without separators. */
  function SplitOf(s: string): (r: Option<Cuts>)
    ensures r.Some? ==> Proper(r.value) && r.value.seps != [] && Interleave(r.value.parts, r.value.seps) == s
    ensures r.None? <==> PartRun(s)
  {
    var c := CutFrom(s, 0);
    assert s[0..] == s;
    assert PartRun(s) <==> PartEnd(s, 0) == |s|;
    if c.seps == [] then None else Some(c)
  }

  /** What the loop has read, followed by the cut of the rest. */
  function Append(parts: seq<string>, seps: seq<string>, sig: string, rest: Cuts): Cuts {
    Cuts(parts + rest.parts, seps + rest.seps, sig + rest.sig)
  }

  lemma AppendCons(parts: seq<string>, seps: seq<string>, sig: string, part: string, sep: string, rest: Cuts)
    ensures Append(parts, seps, sig, Cons(part, sep, rest))
         == Append(parts + [part], seps + [sep], sig + Mark(part) + sep, rest)
  {
    assert parts + ([part] + rest.parts) == parts + [part] + rest.parts;
    assert seps + ([sep] + rest.seps) == seps + [sep] + rest.seps;
    assert sig + (Mark(part) + sep + rest.sig) == sig + Mark(part) + sep + rest.sig;
  }

  /** One turn of the loop moves a part and a separator run from the rest to what has been read. */
  lemma AppendStep(s: string, i: nat, parts: seq<string>, seps: seq<string>, sig: string)
    requires i <= |s| && PartEnd(s, i) < |s|
    ensures (var j := PartEnd(s, i);
             var k := SepEnd(s, j);
             Append(parts, seps, sig, CutFrom(s, i))
             == Append(parts + [s[i..j]], seps + [s[j..k]], sig + Mark(s[i..j]) + s[j..k], CutFrom(s, k)))
  {
    var j := PartEnd(s, i);
    var k := SepEnd(s, j);
    AppendCons(parts, seps, sig, s[i..j], s[j..k], CutFrom(s, k));
  }

  lemma AppendLast(s: string, i: nat, parts: seq<string>, seps: seq<string>, sig: string)
    requires i <= |s| && PartEnd(s, i) == |s|
    ensures Append(parts, seps, sig, CutFrom(s, i)) == Cuts(parts + [s[i..]], seps, sig + Mark(s[i..]))
  {
    assert seps + [] == seps;
  }

  method SplitSub(s: string) returns (r: Option<Cuts>)
    ensures r == SplitOf(s)
  {
    if s == "" {
      return None;
    }
    var parts: seq<string>, seps: seq<string>, sig: string := [], [], "";
    var i := 0;
    while true
      invariant i < |s| && Append(parts, seps, sig, CutFrom(s, i)) == CutFrom(s, 0)
      decreases |s| - i
    {
      var j := PartEnd(s, i);
      if j >= |s| {
        AppendLast(s, i, parts, seps, sig);
        parts, sig := parts + [s[i..]], sig + Mark(s[i..]);
        break;
      }
      var k := SepEnd(s, j);
      AppendStep(s, i, parts, seps, sig);
      parts, seps, sig := parts + [s[i..j]], seps + [s[j..k]], sig + Mark(s[i..j]) + s[j..k];
      if k >= |s| {
        AppendLast(s, k, parts, seps, sig);
        parts, sig := parts + [""], sig + "0";
        break;
      }
      i := k;
    }
    return if seps == [] then None else Some(Cuts(parts, seps, sig));
  }

  /** Signatures are injective on structure: equal signatures mean the same separators, the same
      number of parts, and the same parts empty. */
  lemma {:induction false} SignatureInjective(a: Cuts, b: Cuts)
    requires Proper(a) && Proper(b) && a.sig == b.sig
    ensures SameShape(a, b)
    decreases |a.seps|
  {
    HeadOfSignature(a);
    HeadOfSignature(b);
    if a.seps != [] && b.seps != [] {
      var ta, tb := Tail(a), Tail(b);
      RunEnds(a.seps[0], ta.sig, b.seps[0], tb.sig);
      SignatureInjective(ta, tb);
      SameShapeCons(a, b);
    }
  }

  lemma HeadOfSignature(c: Cuts)
    requires Proper(c)
    ensures c.sig[0] == (if c.parts[0] == "" then '0' else 'P')
    ensures c.sig[1..] == if c.seps == [] then "" else c.seps[0] + Tail(c).sig
  {
  }

  ghost predicate SameShape(a: Cuts, b: Cuts) {
    && a.seps == b.seps && |a.parts| == |b.parts|
    && forall k :: 0 <= k < |a.parts| ==> (a.parts[k] == "" <==> b.parts[k] == "")
  }

  /** A cut without its first part and separator run. */
  ghost function Tail(c: Cuts): (t: Cuts)
    requires Proper(c) && c.seps != []
    ensures Proper(t) && t.sig != "" && !IsSubSep(t.sig[0])
  {
    Cuts(c.parts[1..], c.seps[1..], Signature(c.parts[1..], c.seps[1..]))
  }

  lemma SameShapeCons(a: Cuts, b: Cuts)
    requires Proper(a) && Proper(b) && a.seps != [] && b.seps != []
    requires a.seps[0] == b.seps[0] && (a.parts[0] == "" <==> b.parts[0] == "") && SameShape(Tail(a), Tail(b))
    ensures SameShape(a, b)
  {
    assert a.seps == [a.seps[0]] + Tail(a).seps && b.seps == [b.seps[0]] + Tail(b).seps;
    forall k | 0 <= k < |a.parts| ensures a.parts[k] == "" <==> b.parts[k] == "" {
      if k > 0 { assert a.parts[k] == Tail(a).parts[k - 1] && b.parts[k] == Tail(b).parts[k - 1]; }
    }
  }

  /** Runs of separators followed by something else end in the same place in equal strings. */
  lemma RunEnds(x: string, xs: string, y: string, ys: string)
    requires SepRun(x) && SepRun(y) && x + xs == y + ys
    requires (xs != "" ==> !IsSubSep(xs[0])) && (ys != "" ==> !IsSubSep(ys[0]))
    ensures x == y && xs == ys
  {
    var z := x + xs;
    assert xs != "" ==> z[|x|] == xs[0];
    assert ys != "" ==> (y + ys)[|y|] == ys[0];
    SameCut(x, xs, y, ys);
  }

  /** Likewise for parts followed by a separator. */
  lemma PartEnds(x: string, xs: string, y: string, ys: string)
    requires PartRun(x) && PartRun(y) && x + xs == y + ys
    requires (xs != "" ==> IsSubSep(xs[0])) && (ys != "" ==> IsSubSep(ys[0]))
    ensures x == y && xs == ys
  {
    var z := x + xs;
    assert xs != "" ==> z[|x|] == xs[0];
    assert ys != "" ==> (y + ys)[|y|] == ys[0];
    SameCut(x, xs, y, ys);
  }

  lemma SameCut(x: string, xs: string, y: string, ys: string)
    requires x + xs == y + ys && |x| == |y|
    ensures x == y && xs == ys
  {
    assert x == (x + xs)[..|x|] && y == (y + ys)[..|y|];
    assert xs == (x + xs)[|x|..] && ys == (y + ys)[|y|..];
  }

  /** A cut's text after its first part: nothing, or the first separator run and the rest. */
  ghost function AfterPart(c: Cuts): string
    requires Proper(c)
  {
    if c.seps == [] then "" else c.seps[0] + Interleave(c.parts[1..], c.seps[1..])
  }

  lemma HeadOfCut(c: Cuts)
    requires Proper(c)
    ensures Interleave(c.parts, c.seps) == c.parts[0] + AfterPart(c)
    ensures AfterPart(c) != "" ==> IsSubSep(AfterPart(c)[0])
    ensures AfterPart(c) == "" <==> c.seps == []
  {
    if c.seps == [] { assert c.parts[0] + "" == c.parts[0]; }
  }

  lemma TailStarts(c: Cuts)
    requires Proper(c) && c.seps != []
    ensures var rest := Interleave(Tail(c).parts, Tail(c).seps); rest != "" ==> !IsSubSep(rest[0])
  {
    var t := Tail(c);
    HeadOfCut(t);
    assert t.seps != [] ==> t.parts[0] == c.parts[1] != "";
  }

  /** There is only one proper cut of a token, so splitSub finds it. */
  lemma {:induction false} CutUnique(a: Cuts, b: Cuts)
    requires Proper(a) && Proper(b) && Interleave(a.parts, a.seps) == Interleave(b.parts, b.seps)
    ensures a == b
    decreases |a.seps|
  {
    HeadOfCut(a);
    HeadOfCut(b);
    PartEnds(a.parts[0], AfterPart(a), b.parts[0], AfterPart(b));
    if a.seps != [] {
      var ta, tb := Tail(a), Tail(b);
      TailStarts(a);
      TailStarts(b);
      RunEnds(a.seps[0], Interleave(ta.parts, ta.seps), b.seps[0], Interleave(tb.parts, tb.seps));
      CutUnique(ta, tb);
      assert a.parts == [a.parts[0]] + ta.parts && b.parts == [b.parts[0]] + tb.parts;
      assert a.seps == [a.seps[0]] + ta.seps && b.seps == [b.seps[0]] + tb.seps;
    } else {
      assert a.parts == [a.parts[0]] && b.parts == [b.parts[0]];
    }
  }
}
