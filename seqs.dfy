// Sequence helpers shared by the scoring, ranking and driver models:
// `np.delete` on a vector, zipping two lists, mapping and index ranges.
module Seqs {

  /** `np.delete(s, i)`: the vector without its entry at position i. */
  function Delete<T>(s: seq<T>, i: nat): (r: seq<T>)
    requires i < |s|
    ensures |r| == |s| - 1
    ensures forall k :: 0 <= k < |r| ==> r[k] == if k < i then s[k] else s[k + 1]
  {
    s[..i] + s[i + 1..]
  }

  lemma DeleteMultiset<T>(s: seq<T>, i: nat)
    requires i < |s|
    ensures multiset(Delete(s, i)) + multiset{s[i]} == multiset(s)
  {
    assert s == s[..i] + [s[i]] + s[i + 1..];
  }

  lemma AppendAssoc<T>(a: seq<T>, b: seq<T>, c: seq<T>)
    ensures (a + b) + c == a + (b + c)
  {
  }

  /** The list of (a[k], b[k]) pairs. */
  function Pairs<A, B>(a: seq<A>, b: seq<B>): seq<(A, B)>
    requires |a| == |b|
  {
    seq(|a|, k requires 0 <= k < |a| => (a[k], b[k]))
  }

  /** The list [f(a[0]), f(a[1]), ...]. */
  function Map<A, B>(a: seq<A>, f: A -> B): seq<B>
  {
    seq(|a|, k requires 0 <= k < |a| => f(a[k]))
  }

  /** The list [0, 1, ..., n-1]. */
  function Range(n: nat): seq<int>
  {
    seq(n, k => k)
  }

  predicate StrictlyIncreasing(s: seq<int>)
  {
    forall p, q :: 0 <= p < q < |s| ==> s[p] < s[q]
  }

  predicate Distinct<T(==)>(s: seq<T>)
  {
    forall p, q :: 0 <= p < q < |s| ==> s[p] != s[q]
  }
}
