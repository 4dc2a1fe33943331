/** Definitions shared by every component of the model. */
module Base {

  datatype Option<+T> = None | Some(value: T)

  /** A compiled regular expression, seen only through the strings it accepts. */
  type Matcher = string -> bool

  function Min(a: int, b: int): int { if a <= b then a else b }

  /** A share, 0 of nothing. */
  function Ratio(num: nat, denom: nat): real { if denom == 0 then 0.0 else num as real / denom as real }

  function Max(a: int, b: int): int { if a >= b then a else b }

  /** Increasing positions below n. */
  ghost predicate Rising(at: seq<nat>, n: nat) {
    && (forall j :: 0 <= j < |at| ==> at[j] < n)
    && (forall i, j :: 0 <= i < j < |at| ==> at[i] < at[j])
  }

  lemma RisingNext(at: seq<nat>, n: nat)
    requires Rising(at, n)
    ensures Rising(at, n + 1) && Rising(at + [n], n + 1) && n !in at
  {
  }

  lemma SubsetSize<T>(a: set<T>, b: set<T>)
    requires a <= b
    ensures |a| <= |b|
  {
    assert b == a + (b - a);
  }

  lemma OneMore(a: nat, b: nat)
    ensures (a + 1) * b == a * b + b >= 0
  {
  }

  lemma TakeNext<T>(s: seq<T>, k: nat)
    requires k < |s|
    ensures s[..k + 1] == s[..k] + [s[k]]
  {
  }
}
