/** Field names made unique by a numeric suffix: uniqueName in internal/pattern/compile.go, which
    does not record the names it makes up, and logfmtFieldName in internal/pattern/logfmt_keyed.go,
    which does. */
module FieldNames {
  import opened Base

  predicate IsDigit(c: char) { '0' <= c <= '9' }

  function Digit(d: nat): char
    requires d < 10
  {
    ['0', '1', '2', '3', '4', '5', '6', '7', '8', '9'][d]
  }

  function Decimal(n: nat): (s: string)
    ensures s != "" && forall k :: 0 <= k < |s| ==> IsDigit(s[k])
  {
    if n < 10 then [Digit(n)] else Decimal(n / 10) + [Digit(n % 10)]
  }

  lemma {:induction false} DecimalInjective(a: nat, b: nat)
    requires Decimal(a) == Decimal(b)
    ensures a == b
  {
    var s, t := Decimal(a), Decimal(b);
    assert s[|s| - 1] == Digit(a % 10) && t[|t| - 1] == Digit(b % 10);
    assert a % 10 == b % 10;
    assert a >= 10 ==> s[..|s| - 1] == Decimal(a / 10);
    assert b >= 10 ==> t[..|t| - 1] == Decimal(b / 10);
    if a >= 10 && b >= 10 { DecimalInjective(a / 10, b / 10); }
  }

  /** The number a row of digits reads as. */
  function Value(s: string): nat
    requires forall k :: 0 <= k < |s| ==> IsDigit(s[k])
  {
    if s == "" then 0
    else
      var last := s[|s| - 1];
      assert IsDigit(last);
      10 * Value(s[..|s| - 1]) + (last as int - '0' as int)
  }

  lemma {:induction false} DecimalReads(n: nat)
    ensures Value(Decimal(n)) == n && (n > 0 ==> Decimal(n)[0] != '0')
  {
    var s := Decimal(n);
    if n >= 10 {
      DecimalReads(n / 10);
      assert s[..|s| - 1] == Decimal(n / 10);
    } else {
      assert s[..0] == "";
    }
  }

  function Suffixed(field: string, k: nat): string { field + "_" + Decimal(k) }

  /** The part before the suffix, and the suffix, can be read back. */
  lemma SuffixedInjective(f: string, j: nat, g: string, k: nat)
    requires Suffixed(f, j) == Suffixed(g, k)
    ensures f == g && j == k
  {
    var s, t := Suffixed(f, j), Suffixed(g, k);
    assert s[|f|] == '_' && t[|g|] == '_';
    assert forall i :: |f| < i < |s| ==> IsDigit(s[i]) by {
      forall i | |f| < i < |s| ensures IsDigit(s[i]) { assert s[i] == Decimal(j)[i - |f| - 1]; }
    }
    assert forall i :: |g| < i < |t| ==> IsDigit(t[i]) by {
      forall i | |g| < i < |t| ensures IsDigit(t[i]) { assert t[i] == Decimal(k)[i - |g| - 1]; }
    }
    assert |f| == |g|;
    assert f == s[..|f|] && g == t[..|g|];
    assert Decimal(j) == s[|f| + 1..] && Decimal(k) == t[|g| + 1..];
    DecimalInjective(j, k);
  }

  /** sanitizeFieldName. */
  function Clean(s: string): (r: string)
    ensures |r| == |s| && (forall k :: 0 <= k < |r| ==> IsWordChar(r[k]))
    ensures (forall k :: 0 <= k < |s| ==> IsWordChar(s[k])) ==> r == s
  {
    if s == "" then "" else [if IsWordChar(s[0]) then s[0] else '_'] + Clean(s[1..])
  }

  predicate IsWordChar(c: char) { 'a' <= c <= 'z' || 'A' <= c <= 'Z' || IsDigit(c) || c == '_' }

  function SanitizeFieldName(s: string): (r: string)
    ensures r == "" <==> s == ""
    ensures r != "" ==> !IsDigit(r[0])
    ensures forall k :: 0 <= k < |r| ==> IsWordChar(r[k])
  {
    var out := Clean(s);
    if out != "" && IsDigit(out[0]) then "_" + out else out
  }

  /** Word characters are kept in place, anything else became an underscore. */
  predicate SameWordChars(s: string, r: string) {
    |r| == |s| && forall k :: 0 <= k < |s| ==> r[k] == if IsWordChar(s[k]) then s[k] else '_'
  }

  lemma {:induction false} CleanIs(s: string)
    ensures SameWordChars(s, Clean(s))
  {
    if s != "" { CleanIs(s[1..]); }
  }

  /** What becomes of a field, byte by byte: an underscore goes before a leading digit. */
  lemma SanitizeIs(s: string)
    requires s != ""
    ensures var r := SanitizeFieldName(s);
            if IsDigit(s[0]) then |r| == |s| + 1 && r[0] == '_' && SameWordChars(s, r[1..]) else SameWordChars(s, r)
  {
    CleanIs(s);
  }

  /** A sanitised name is a legal group name, and sanitising leaves legal names alone. */
  lemma SanitizeIdempotent(s: string)
    ensures SanitizeFieldName(SanitizeFieldName(s)) == SanitizeFieldName(s)
  {
    assert Clean(SanitizeFieldName(s)) == SanitizeFieldName(s);
  }

  // ---------------------------------------------------------------------------
  // uniqueName
  // ---------------------------------------------------------------------------

  type Used = map<string, nat>

  function Uses(used: Used, f: string): nat { if f in used then used[f] else 0 }

  /** The name given to a field, and the counters afterwards. */
  function UniqueName(field: string, used: Used): (string, Used) {
    var n := Uses(used, field);
    if n == 0 then (field, used[field := 1]) else (Suffixed(field, n + 1), used[field := n + 1])
  }

  function Occurrences(fields: seq<string>, f: string): nat {
    if fields == [] then 0
    else Occurrences(fields[..|fields| - 1], f) + if fields[|fields| - 1] == f then 1 else 0
  }

  /** The name the i-th field gets: itself the first time, then with its occurrence number. */
  function NameAt(fields: seq<string>, i: nat): string
    requires i < |fields|
  {
    var n := Occurrences(fields[..i], fields[i]);
    if n == 0 then fields[i] else Suffixed(fields[i], n + 1)
  }

  function Names(fields: seq<string>): (r: seq<string>)
    ensures |r| == |fields|
  {
    seq(|fields|, i requires 0 <= i < |fields| => NameAt(fields, i))
  }

  /** No field is spelled like a name that would be made up for a repeated one. A caller can check
      this on the fields alone. */
  ghost predicate NoClash(fields: seq<string>) {
    forall i, j, k: nat :: 0 <= i < |fields| && 0 <= j < |fields| && 2 <= k <= Occurrences(fields, fields[j]) ==>
      fields[i] != Suffixed(fields[j], k)
  }

  ghost predicate Distinct(names: seq<string>) {
    forall i, j :: 0 <= i < j < |names| ==> names[i] != names[j]
  }

  lemma {:induction false} OccurrencesGrow(fields: seq<string>, f: string, i: nat, j: nat)
    requires i <= j <= |fields|
    ensures Occurrences(fields[..i], f) <= Occurrences(fields[..j], f)
    ensures i < j && fields[i] == f ==> Occurrences(fields[..i], f) < Occurrences(fields[..j], f)
  {
    if i < j {
      assert fields[..j][..j - 1] == fields[..j - 1];
      OccurrencesGrow(fields, f, i, j - 1);
    }
  }

  /** The n-th occurrence can be found. */
  lemma {:induction false} FindOccurrence(fields: seq<string>, f: string, n: nat, hi: nat) returns (i: nat)
    requires hi <= |fields| && n < Occurrences(fields[..hi], f)
    ensures i < hi && fields[i] == f && Occurrences(fields[..i], f) == n
  {
    assert fields[..hi][..hi - 1] == fields[..hi - 1];
    if fields[hi - 1] == f && Occurrences(fields[..hi - 1], f) == n {
      i := hi - 1;
    } else {
      i := FindOccurrence(fields, f, n, hi - 1);
    }
  }

  /** The names uniqueName hands out are pairwise distinct exactly when no field clashes with a
      made-up name. */
  lemma NamesDistinctIff(fields: seq<string>)
    ensures Distinct(Names(fields)) <==> NoClash(fields)
  {
    assert fields[..|fields|] == fields;
    if NoClash(fields) {
      forall i, j | 0 <= i < j < |fields| ensures NameAt(fields, i) != NameAt(fields, j) {
        NamesDiffer(fields, i, j);
      }
    }
    if !NoClash(fields) {
      var i, j, k: nat :| 0 <= i < |fields| && 0 <= j < |fields| && 2 <= k <= Occurrences(fields, fields[j])
                          && fields[i] == Suffixed(fields[j], k);
      ClashCollides(fields, i, j, k);
    }
  }

  lemma ClashCollides(fields: seq<string>, i: nat, j: nat, k: nat)
    requires i < |fields| && j < |fields| && 2 <= k <= Occurrences(fields, fields[j])
    requires fields[i] == Suffixed(fields[j], k)
    ensures !Distinct(Names(fields))
  {
    assert fields[..|fields|] == fields;
    var made := FindOccurrence(fields, fields[j], k - 1, |fields|);
    OccurrencesGrow(fields, fields[i], i, |fields|);
    OccurrencesGrow(fields, fields[i], i, i + 1);
    OccurrencesGrow(fields, fields[i], i + 1, |fields|);
    var first := FindOccurrence(fields, fields[i], 0, |fields|);
    LongerThan(fields[j], k);
    assert made != first && Names(fields)[made] == Names(fields)[first];
  }

  lemma LongerThan(f: string, k: nat)
    ensures Suffixed(f, k) != f
  {
    assert |Suffixed(f, k)| > |f|;
  }

  lemma NamesDiffer(fields: seq<string>, i: nat, j: nat)
    requires i < j < |fields| && NoClash(fields)
    ensures NameAt(fields, i) != NameAt(fields, j)
  {
    var m, n := Occurrences(fields[..i], fields[i]), Occurrences(fields[..j], fields[j]);
    assert fields[..|fields|] == fields;
    OccurrencesGrow(fields, fields[i], i, |fields|);
    OccurrencesGrow(fields, fields[j], j, |fields|);
    if fields[i] == fields[j] {
      OccurrencesGrow(fields, fields[i], i, j);
      if m > 0 && Suffixed(fields[i], m + 1) == Suffixed(fields[j], n + 1) {
        SuffixedInjective(fields[i], m + 1, fields[j], n + 1);
      }
      LongerThan(fields[i], n + 1);
    } else if m > 0 && n > 0 && Suffixed(fields[i], m + 1) == Suffixed(fields[j], n + 1) {
      SuffixedInjective(fields[i], m + 1, fields[j], n + 1);
    }
  }

  /** No field ends in an underscore and digits: enough to rule out a clash. */
  lemma NoSuffixesNoClash(fields: seq<string>)
    requires forall i :: 0 <= i < |fields| ==> TrimNumSuffix(fields[i]) == fields[i] != ""
    ensures NoClash(fields)
  {
    forall i, j, k: nat | 0 <= i < |fields| && 0 <= j < |fields| && 2 <= k <= Occurrences(fields, fields[j])
      ensures fields[i] != Suffixed(fields[j], k)
    {
      TrimSuffixed(fields[j], k);
      LongerThan(fields[j], k);
    }
  }

  /** The smallest clash: n_2, n, n. */
  lemma ClashExample()
    ensures !NoClash(["n_2", "n", "n"]) && !Distinct(Names(["n_2", "n", "n"]))
  {
    var fields := ["n_2", "n", "n"];
    assert fields[..2] == ["n_2", "n"] && ["n_2", "n"][..1] == ["n_2"] && fields[..0] == [] && ["n_2"][..0] == [];
    assert Occurrences(fields[..2], "n") == 1;
    assert Decimal(2) == "2" && Suffixed("n", 2) == "n_2";
    assert Names(fields)[0] == "n_2" && Names(fields)[2] == "n_2";
    NamesDistinctIff(fields);
  }

  // ---------------------------------------------------------------------------
  // Reading the suffix back (trimNumSuffix in internal/webapi/webapi.go)
  // ---------------------------------------------------------------------------

  /** Last underscore, or -1. */
  function LastUnderscore(s: string): (i: int)
    ensures -1 <= i < |s| && (i >= 0 ==> s[i] == '_') && forall k :: i < k < |s| ==> s[k] != '_'
  {
    if s == "" then -1 else if s[|s| - 1] == '_' then |s| - 1 else LastUnderscore(s[..|s| - 1])
  }

  function TrimNumSuffix(s: string): string {
    var i := LastUnderscore(s);
    if i <= 0 || i == |s| - 1 || !(forall k :: i < k < |s| ==> IsDigit(s[k])) then s else s[..i]
  }

  /** s is f, an underscore, and digits. */
  predicate IsNumbered(s: string, f: string) {
    f != "" && |s| > |f| + 1 && s[..|f|] == f && s[|f|] == '_' && forall k :: |f| < k < |s| ==> IsDigit(s[k])
  }

  /** A name loses exactly an underscore and digits at its end, if something stands before them. */
  lemma TrimIff(s: string, f: string)
    requires f != s
    ensures TrimNumSuffix(s) == f <==> IsNumbered(s, f)
  {
    var i := LastUnderscore(s);
    if IsNumbered(s, f) { assert i == |f|; }
  }

  lemma TrimSuffixed(f: string, k: nat)
    requires f != ""
    ensures TrimNumSuffix(Suffixed(f, k)) == f
  {
    var s := Suffixed(f, k);
    assert s[|f|] == '_';
    forall i | |f| < i < |s| ensures IsDigit(s[i]) { assert s[i] == Decimal(k)[i - |f| - 1]; }
    assert LastUnderscore(s) == |f|;
    assert s[..|f|] == f;
  }

  // ---------------------------------------------------------------------------
  // logfmtFieldName
  // ---------------------------------------------------------------------------

  /** The names already taken by suffixing base with 2, ..., n - 1, and base itself. */
  ghost function Tried(base: string, n: nat): (s: set<string>)
    requires n >= 2
  {
    if n == 2 then {base} else Tried(base, n - 1) + {Suffixed(base, n - 1)}
  }

  lemma {:induction false} TriedSize(base: string, n: nat)
    requires n >= 2
    ensures |Tried(base, n)| == n - 1 && forall k: nat :: k >= n ==> Suffixed(base, k) !in Tried(base, n)
  {
    if n == 2 {
      forall k: nat ensures Suffixed(base, k) != base { LongerThan(base, k); }
    } else {
      TriedSize(base, n - 1);
      forall k: nat | k >= n ensures Suffixed(base, k) != Suffixed(base, n - 1) {
        if Suffixed(base, k) == Suffixed(base, n - 1) { SuffixedInjective(base, k, base, n - 1); }
      }
    }
  }

  /** logfmtFieldName, from the already sanitised base: always a name not given before, so the names
      of one pattern never collide. `used` is the set of names with a positive count. */
  method LogfmtFieldName(base: string, used: set<string>) returns (name: string, used': set<string>)
    ensures name !in used && used' == used + {name}
    ensures name == base || exists n: nat :: n >= 2 && name == Suffixed(base, n) && Tried(base, n) <= used
  {
    name := base;
    var n := 2;
    while name in used
      invariant n >= 2 && name == (if n == 2 then base else Suffixed(base, n - 1))
      invariant n > 2 ==> Tried(base, n - 1) <= used
      decreases |used| + 3 - n
    {
      ghost var before := n;
      assert Tried(base, n) <= used;
      TriedSize(base, n);
      SubsetSize(Tried(base, n), used);
      name := Suffixed(base, n);
      n := n + 1;
    }
    used' := used + {name};
  }
}
