/** Order-preserving selection over sequences: JavaScript's `Array.prototype.filter`. */
module Sequences {

  /** `a` can be obtained from `b` by deleting elements, keeping the rest in order. */
  predicate IsSubsequence<T(==)>(a: seq<T>, b: seq<T>)
    decreases |b|
  {
    if a == [] then true
    else if b == [] then false
    else (a[0] == b[0] && IsSubsequence(a[1..], b[1..])) || IsSubsequence(a, b[1..])
  }

  /**
   * The elements of `s` that satisfy `p`, in their original order: every
   * kept element satisfies `p`, and every element that satisfies `p` is
   * kept as often as it occurs.
   */
  function Filter<T(==,!new)>(s: seq<T>, p: T -> bool): (r: seq<T>)
    ensures |r| <= |s|
    ensures forall i :: 0 <= i < |r| ==> p(r[i])
    ensures forall x :: multiset(r)[x] == if p(x) then multiset(s)[x] else 0
    ensures IsSubsequence(r, s)
  {
    if s == [] then []
    else
      assert s == [s[0]] + s[1..];
      var rest := Filter(s[1..], p);
      if p(s[0]) then [s[0]] + rest else rest
  }

  /** An element that fails `p` is dropped, so the result is shorter. */
  lemma {:induction false} FilterDrops<T(!new)>(s: seq<T>, p: T -> bool, k: int)
    requires 0 <= k < |s| && !p(s[k])
    ensures |Filter(s, p)| < |s|
  {
    var rest := Filter(s[1..], p);
    if k > 0 {
      assert s[1..][k - 1] == s[k];
      FilterDrops(s[1..], p, k - 1);
    }
    assert Filter(s, p) == if p(s[0]) then [s[0]] + rest else rest;
  }

  /** When every element satisfies `p`, filtering returns the sequence unchanged. */
  lemma {:induction false} FilterKeepsAll<T(!new)>(s: seq<T>, p: T -> bool)
    requires forall i :: 0 <= i < |s| ==> p(s[i])
    ensures Filter(s, p) == s
  {
    if s != [] {
      var t := s[1..];
      assert p(s[0]);
      assert forall i :: 0 <= i < |t| ==> p(t[i]) by {
        forall i | 0 <= i < |t| ensures p(t[i]) {
          assert t[i] == s[i + 1];
        }
      }
      FilterKeepsAll(t, p);
      assert s == [s[0]] + t;
    }
  }
}
