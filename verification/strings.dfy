/** Small facts about strings and sequences shared by the other modules. */
module Strings {

  /** `p` is a prefix of `s`. */
  predicate StartsWith(s: string, p: string) {
    |p| <= |s| && s[..|p|] == p
  }

  /** Two prefixes of the same string agree on their common length. */
  lemma SharedPrefix(s: string, a: string, b: string, n: nat)
    requires StartsWith(s, a) && n <= |a| && n <= |b|
    ensures StartsWith(s, b) ==> a[..n] == b[..n]
  {
    assert a[..n] == s[..n];
    if StartsWith(s, b) {
      assert b[..n] == s[..n];
    }
  }

  /** `p` is a suffix of `s`. */
  predicate EndsWith(s: string, p: string) {
    |p| <= |s| && s[|s| - |p|..] == p
  }

  /** `n` copies of `c`, as Python's `c * n`. */
  function Repeat(c: char, n: nat): (s: string)
    ensures |s| == n
    ensures forall k :: 0 <= k < n ==> s[k] == c
  {
    seq(n, _ => c)
  }

  /** No element occurs twice. */
  predicate Distinct<T(==)>(xs: seq<T>) {
    forall i, j :: 0 <= i < j < |xs| ==> xs[i] != xs[j]
  }

  function Min(a: int, b: int): int {
    if a <= b then a else b
  }

  function Max(a: int, b: int): int {
    if a >= b then a else b
  }
}
