// The ranking that `Requester.compute_top_k` performs (a selection sort that
// repeatedly takes the first position holding the largest remaining score),
// and the `int(s * 1000)` scaling the driver applies to the ranked scores.
module Ranking {
  import opened Seqs
  import opened Scoring

  /** `np.where(s == v)[0][0]`: the first position holding v. */
  function FirstIndexOf(s: seq<real>, v: real): (i: nat)
    requires v in s
    ensures i < |s| && s[i] == v
    ensures forall j :: 0 <= j < i ==> s[j] != v
  {
    if s[0] == v then 0 else 1 + FirstIndexOf(s[1..], v)
  }

  /** The position selected from the remaining scores in one step. */
  function Pick(s: seq<real>): (i: nat)
    requires |s| > 0
    ensures i < |s|
  {
    MaxOfIn(s);
    FirstIndexOf(s, MaxOf(s))
  }

  /** The ranked labels and ranked scores: pick, emit, delete, repeat. */
  function TopK<A>(a: seq<A>, s: seq<real>): (r: (seq<A>, seq<real>))
    requires |a| == |s|
    ensures |r.0| == |s| && |r.1| == |s|
    decreases |s|
  {
    if |s| == 0 then ([], [])
    else
      var i := Pick(s);
      var rest := TopK(Delete(a, i), Delete(s, i));
      ([a[i]] + rest.0, [s[i]] + rest.1)
  }

  predicate NonIncreasing(s: seq<real>)
  {
    forall p, q :: 0 <= p < q < |s| ==> s[p] >= s[q]
  }

  predicate NonIncreasingInts(s: seq<int>)
  {
    forall p, q :: 0 <= p < q < |s| ==> s[p] >= s[q]
  }

  // ---------------------------------------------------------------- lemmas

  /** One unfolding of TopK: the picked entry followed by the ranking of the rest. */
  lemma TopKStep<A>(a: seq<A>, s: seq<real>)
    requires |a| == |s| > 0
    ensures var i := Pick(s);
      var rest := TopK(Delete(a, i), Delete(s, i));
      TopK(a, s).0 == [a[i]] + rest.0 && TopK(a, s).1 == [s[i]] + rest.1
  {
  }

  /** The state of the selection loop: the ranked output so far and the
      labels and scores still to be ranked. */
  datatype Selection<A> = Selection(outA: seq<A>, outS: seq<real>, restA: seq<A>, restS: seq<real>)

  /** One pass of the loop body: move the first maximum to the output. */
  function SelectOnce<A>(st: Selection<A>): (r: Selection<A>)
    requires |st.restA| == |st.restS| > 0
    ensures |r.restA| == |r.restS| == |st.restS| - 1
  {
    var i := Pick(st.restS);
    Selection(st.outA + [st.restA[i]], st.outS + [st.restS[i]], Delete(st.restA, i), Delete(st.restS, i))
  }

  /** The loop state after j passes. */
  function SelectN<A>(a: seq<A>, s: seq<real>, j: nat): (r: Selection<A>)
    requires |a| == |s| && j <= |s|
    ensures |r.restA| == |r.restS| == |s| - j
  {
    if j == 0 then Selection([], [], a, s) else SelectOnce(SelectN(a, s, j - 1))
  }

  /** What a loop state will have produced once the loop ends: its output
      followed by the ranking of what remains. */
  function Eventual<A>(st: Selection<A>): (seq<A>, seq<real>)
    requires |st.restA| == |st.restS|
  {
    (st.outA + TopK(st.restA, st.restS).0, st.outS + TopK(st.restA, st.restS).1)
  }

  /** A pass of the loop body does not change what the loop will produce. */
  lemma SelectOnceKeepsEventual<A>(st: Selection<A>)
    requires |st.restA| == |st.restS| > 0
    ensures Eventual(SelectOnce(st)) == Eventual(st)
  {
    var i := Pick(st.restS);
    var rest := TopK(Delete(st.restA, i), Delete(st.restS, i));
    TopKStep(st.restA, st.restS);
    assert (st.outA + [st.restA[i]]) + rest.0 == st.outA + ([st.restA[i]] + rest.0);
    assert (st.outS + [st.restS[i]]) + rest.1 == st.outS + ([st.restS[i]] + rest.1);
  }

  /** After any number of passes the loop is still on course for the ranking. */
  lemma {:induction false} SelectNRanks<A>(a: seq<A>, s: seq<real>, j: nat)
    requires |a| == |s| && j <= |s|
    ensures Eventual(SelectN(a, s, j)) == TopK(a, s)
  {
    if j > 0 {
      SelectNRanks(a, s, j - 1);
      SelectOnceKeepsEventual(SelectN(a, s, j - 1));
    } else {
      var r := TopK(a, s);
      assert [] + r.0 == r.0 && [] + r.1 == r.1;
    }
  }

  /** The loop run to the end produces exactly the ranking. */
  lemma SelectAllRanks<A>(a: seq<A>, s: seq<real>)
    requires |a| == |s|
    ensures SelectN(a, s, |s|).outA == TopK(a, s).0 && SelectN(a, s, |s|).outS == TopK(a, s).1
  {
    SelectNRanks(a, s, |s|);
    var st := SelectN(a, s, |s|);
    assert TopK(st.restA, st.restS) == ([], []);
    assert st.outA + [] == st.outA && st.outS + [] == st.outS;
  }

  lemma DeletePairs<A, B>(a: seq<A>, b: seq<B>, i: nat)
    requires |a| == |b| && i < |a|
    ensures Pairs(Delete(a, i), Delete(b, i)) == Delete(Pairs(a, b), i)
  {
  }

  lemma PairsCons<A, B>(x: A, y: B, a: seq<A>, b: seq<B>)
    requires |a| == |b|
    ensures Pairs([x] + a, [y] + b) == [(x, y)] + Pairs(a, b)
  {
  }

  /** The ranked (label, score) pairs are a permutation of the input pairs. */
  lemma {:induction false} TopKPermutation<A>(a: seq<A>, s: seq<real>)
    requires |a| == |s|
    ensures multiset(Pairs(TopK(a, s).0, TopK(a, s).1)) == multiset(Pairs(a, s))
    decreases |s|
  {
    if |s| > 0 {
      var i := Pick(s);
      var rest := TopK(Delete(a, i), Delete(s, i));
      TopKStep(a, s);
      TopKPermutation(Delete(a, i), Delete(s, i));
      PairsCons(a[i], s[i], rest.0, rest.1);
      DeletePairs(a, s, i);
      DeleteMultiset(Pairs(a, s), i);
    }
  }

  /** The ranked scores are a permutation of the input scores. */
  lemma {:induction false} TopKScoresPermutation<A>(a: seq<A>, s: seq<real>)
    requires |a| == |s|
    ensures multiset(TopK(a, s).1) == multiset(s)
    decreases |s|
  {
    if |s| > 0 {
      var i := Pick(s);
      TopKScoresPermutation(Delete(a, i), Delete(s, i));
      DeleteMultiset(s, i);
    }
  }

  /** The ranked scores never increase. */
  lemma {:induction false} TopKNonIncreasing<A>(a: seq<A>, s: seq<real>)
    requires |a| == |s|
    ensures NonIncreasing(TopK(a, s).1)
    decreases |s|
  {
    if |s| > 0 {
      var i := Pick(s);
      var rest := TopK(Delete(a, i), Delete(s, i)).1;
      TopKNonIncreasing(Delete(a, i), Delete(s, i));
      TopKScoresPermutation(Delete(a, i), Delete(s, i));
      DeleteMultiset(s, i);
      TopKStep(a, s);
      MaxOfBound(s);
      forall k | 0 <= k < |rest| ensures rest[k] <= s[i] {
        assert rest[k] in multiset(rest);
        assert rest[k] in multiset(s);
        var k' :| 0 <= k' < |s| && s[k'] == rest[k];
      }
      ConsNonIncreasing(s[i], rest);
    }
  }

  lemma ConsNonIncreasing(x: real, s: seq<real>)
    requires NonIncreasing(s) && forall k :: 0 <= k < |s| ==> s[k] <= x
    ensures NonIncreasing([x] + s)
  {
  }

  /** Tags carried alongside the labels come out in the same ranked order:
      if label k is base[tag k] and score k is scores0[tag k] going in,
      the same holds of the ranked labels, scores and tags. */
  lemma {:induction false} TopKFollowsTags<A>(a: seq<A>, tags: seq<int>, s: seq<real>, base: seq<A>, scores0: seq<real>)
    requires |a| == |tags| == |s|
    requires forall k :: 0 <= k < |a| ==>
      0 <= tags[k] < |base| && tags[k] < |scores0| && a[k] == base[tags[k]] && s[k] == scores0[tags[k]]
    ensures forall k :: 0 <= k < |s| ==> 0 <= TopK(tags, s).0[k] < |base| && TopK(tags, s).0[k] < |scores0|
    ensures forall k :: 0 <= k < |s| ==>
      TopK(a, s).0[k] == base[TopK(tags, s).0[k]] && TopK(a, s).1[k] == scores0[TopK(tags, s).0[k]]
    decreases |s|
  {
    if |s| > 0 {
      var i := Pick(s);
      TopKFollowsTags(Delete(a, i), Delete(tags, i), Delete(s, i), base, scores0);
      TopKStep(a, s);
      TopKStep(tags, s);
    }
  }

  /** Any later-ranked entry whose score equals the picked maximum carries a
      larger tag than the picked one, since the pick is the first maximum. */
  lemma PickedFirstAmongEquals(tags: seq<int>, s: seq<real>)
    requires |tags| == |s| > 0 && StrictlyIncreasing(tags)
    ensures var i := Pick(s);
      var rest := TopK(Delete(tags, i), Delete(s, i));
      forall k :: 0 <= k < |rest.1| && rest.1[k] == s[i] ==> tags[i] < rest.0[k]
  {
    var i := Pick(s);
    var dt, ds := Delete(tags, i), Delete(s, i);
    var rest := TopK(dt, ds);
    var positions := Range(|ds|);
    var order := TopK(positions, ds).0;
    TopKFollowsTags(dt, positions, ds, dt, ds);
    forall k | 0 <= k < |rest.1| && rest.1[k] == s[i]
      ensures tags[i] < rest.0[k]
    {
      LaterEqualHasLargerTag(tags, s, order[k]);
    }
  }

  /** A remaining position whose score equals the picked maximum held a larger tag. */
  lemma LaterEqualHasLargerTag(tags: seq<int>, s: seq<real>, t: int)
    requires |tags| == |s| > 0 && StrictlyIncreasing(tags)
    requires 0 <= t < |s| - 1 && Delete(s, Pick(s))[t] == s[Pick(s)]
    ensures tags[Pick(s)] < Delete(tags, Pick(s))[t]
  {
    var i := Pick(s);
    var mx := MaxOf(s);
    assert i == FirstIndexOf(s, mx);
    if t < i {
      assert false;
    }
  }

  /** Among equal ranked scores, the tag that was earlier in the input (when
      the tags increase) comes first: the selection takes the first maximum. */
  lemma {:induction false} TopKStable(tags: seq<int>, s: seq<real>)
    requires |tags| == |s| && StrictlyIncreasing(tags)
    ensures forall p, q :: 0 <= p < q < |s| && TopK(tags, s).1[p] == TopK(tags, s).1[q] ==>
      TopK(tags, s).0[p] < TopK(tags, s).0[q]
    decreases |s|
  {
    if |s| > 0 {
      var i := Pick(s);
      var dt, ds := Delete(tags, i), Delete(s, i);
      assert StrictlyIncreasing(dt);
      TopKStable(dt, ds);
      TopKStep(tags, s);
      PickedFirstAmongEquals(tags, s);
    }
  }

  /** The ranking as a reordering of input positions: `order` lists every
      position exactly once, the k-th ranked label and score are those at
      order[k], scores never increase along it, and equal scores keep their
      input order. */
  lemma RankingOrder<A>(a: seq<A>, s: seq<real>) returns (order: seq<int>)
    requires |a| == |s|
    ensures order == TopK(Range(|s|), s).0
    ensures multiset(order) == multiset(Range(|s|))
    ensures |order| == |s|
    ensures forall k :: 0 <= k < |s| ==>
      0 <= order[k] < |s| && TopK(a, s).0[k] == a[order[k]] && TopK(a, s).1[k] == s[order[k]]
    ensures forall p, q :: 0 <= p < q < |s| ==> s[order[p]] >= s[order[q]]
    ensures forall p, q :: 0 <= p < q < |s| && s[order[p]] == s[order[q]] ==> order[p] < order[q]
  {
    var n := |s|;
    order := TopK(Range(n), s).0;
    TopKFollowsTags(a, Range(n), s, a, s);
    TopKFollowsTags(Range(n), Range(n), s, Range(n), s);
    TopKNonIncreasing(Range(n), s);
    TopKStable(Range(n), s);
    TopKLabelsPermutation(Range(n), s);
  }

  /** The ranked labels are a permutation of the input labels. */
  lemma {:induction false} TopKLabelsPermutation<A>(a: seq<A>, s: seq<real>)
    requires |a| == |s|
    ensures multiset(TopK(a, s).0) == multiset(a)
    decreases |s|
  {
    if |s| > 0 {
      var i := Pick(s);
      TopKLabelsPermutation(Delete(a, i), Delete(s, i));
      DeleteMultiset(a, i);
    }
  }

  // --------------------------------------------------------------- scaling

  /** Python's `int(x)` on a float: truncation toward zero. */
  function Truncate(x: real): int
  {
    if x >= 0.0 then x.Floor else -((-x).Floor)
  }

  /** `[int(i * 1000) for i in s]` */
  function Scale(s: seq<real>): (r: seq<int>)
  {
    seq(|s|, k requires 0 <= k < |s| => Truncate(s[k] * 1000.0))
  }

  /** Truncation never inverts an order: it may merge two scores, never swap them. */
  lemma TruncateMonotone(x: real, y: real)
    requires x <= y
    ensures Truncate(x) <= Truncate(y)
  {
    if 0.0 <= x {
      assert x.Floor as real <= x <= y < y.Floor as real + 1.0;
    } else if y < 0.0 {
      assert (-y).Floor as real <= -y <= -x < (-x).Floor as real + 1.0;
    }
  }

  /** Scaling keeps ranked scores non-increasing, never swaps two scores,
      and maps scores in [0,1] into [0,1000]. */
  lemma ScaleOrder(s: seq<real>)
    ensures |Scale(s)| == |s|
    ensures NonIncreasing(s) ==> NonIncreasingInts(Scale(s))
    ensures forall p, q :: 0 <= p < |s| && 0 <= q < |s| && s[p] <= s[q] ==> Scale(s)[p] <= Scale(s)[q]
    ensures forall k :: 0 <= k < |s| && 0.0 <= s[k] <= 1.0 ==> 0 <= Scale(s)[k] <= 1000
  {
    forall p, q | 0 <= p < |s| && 0 <= q < |s| && s[p] <= s[q]
      ensures Scale(s)[p] <= Scale(s)[q]
    {
      TruncateMonotone(s[p] * 1000.0, s[q] * 1000.0);
    }
    forall k | 0 <= k < |s| && 0.0 <= s[k] <= 1.0
      ensures 0 <= Scale(s)[k] <= 1000
    {
      TruncateMonotone(0.0, s[k] * 1000.0);
      TruncateMonotone(s[k] * 1000.0, 1000.0);
    }
  }
}
