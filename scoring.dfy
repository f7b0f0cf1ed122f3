// The "blockflow" contribution scoring that `Requester.calc_overall_scores`
// computes, stated over a square score matrix M where M[i][j] is the score
// evaluator i gave worker j and the diagonal holds each evaluator's sentinel.
//
//   m[j]       median of column j with M[j][j] removed
//   t[i][j]    |M[i][j] - m[j]|                          (i != j)
//   ts[i][j]   max(0, (0.5 - t[i][j]) / (0.5 + t[i][j]))  (i != j, -1.0 on the diagonal)
//   d[i]       smallest ts[i][j] over j != i
//   overall[i] min(m[i] / max(m), d[i] / max(d))
module Scoring {
  import opened Seqs

  function Abs(x: real): real { if x < 0.0 then -x else x }
  function Min(x: real, y: real): real { if x <= y then x else y }
  function Max(x: real, y: real): real { if x >= y then x else y }

  /** `np.array(s).max()` */
  function MaxOf(s: seq<real>): real
    requires |s| > 0
  {
    if |s| == 1 then s[0] else Max(s[0], MaxOf(s[1..]))
  }

  /** The largest of three values. */
  lemma MaxOfTriple(a: real, b: real, c: real)
    ensures MaxOf([a, b, c]) == Max(a, Max(b, c))
  {
    assert [a, b, c][1..] == [b, c];
    assert [b, c][1..] == [c];
    assert MaxOf([c]) == c;
    assert MaxOf([b, c]) == Max(b, c);
  }

  /** `np.array(s).min()` */
  function MinOf(s: seq<real>): real
    requires |s| > 0
  {
    if |s| == 1 then s[0] else Min(s[0], MinOf(s[1..]))
  }

  /** The largest value is one of the values. */
  lemma {:induction false} MaxOfIn(s: seq<real>)
    requires |s| > 0
    ensures MaxOf(s) in s
  {
    if |s| > 1 {
      MaxOfIn(s[1..]);
      assert MaxOf(s[1..]) in s;
    }
  }

  /** No value exceeds the largest. */
  lemma {:induction false} MaxOfBound(s: seq<real>)
    requires |s| > 0
    ensures forall k :: 0 <= k < |s| ==> s[k] <= MaxOf(s)
  {
    if |s| > 1 {
      MaxOfBound(s[1..]);
      assert forall k :: 1 <= k < |s| ==> s[k] == s[1..][k - 1];
    }
  }

  /** No value is below the smallest. */
  lemma {:induction false} MinOfBound(s: seq<real>)
    requires |s| > 0
    ensures forall k :: 0 <= k < |s| ==> MinOf(s) <= s[k]
  {
    if |s| > 1 {
      MinOfBound(s[1..]);
      assert forall k :: 1 <= k < |s| ==> s[k] == s[1..][k - 1];
    }
  }

  /** The smallest value is one of the values. */
  lemma {:induction false} MinOfIn(s: seq<real>)
    requires |s| > 0
    ensures MinOf(s) in s
  {
    if |s| > 1 {
      MinOfIn(s[1..]);
      assert MinOf(s[1..]) in s;
    }
  }

  // ---------------------------------------------------------------- median

  predicate Ascending(s: seq<real>)
  {
    forall p, q :: 0 <= p < q < |s| ==> s[p] <= s[q]
  }

  function Insert(x: real, s: seq<real>): (r: seq<real>)
    ensures |r| == |s| + 1
  {
    if s == [] || x <= s[0] then [x] + s
    else [s[0]] + Insert(x, s[1..])
  }

  /** Inserting adds x to the values and keeps the others. */
  lemma {:induction false} InsertMultiset(x: real, s: seq<real>)
    ensures multiset(Insert(x, s)) == multiset(s) + multiset{x}
  {
    if s != [] && x > s[0] {
      InsertMultiset(x, s[1..]);
      assert s == [s[0]] + s[1..];
    }
  }

  lemma {:induction false} InsertAscending(x: real, s: seq<real>)
    requires Ascending(s)
    ensures Ascending(Insert(x, s))
  {
    if s != [] && x > s[0] {
      var tail := Insert(x, s[1..]);
      InsertAscending(x, s[1..]);
      InsertMultiset(x, s[1..]);
      forall k | 0 <= k < |tail| ensures s[0] <= tail[k] {
        assert tail[k] in multiset(tail);
        if tail[k] != x {
          assert tail[k] in multiset(s[1..]);
        }
      }
    }
  }

  /** The values of s in ascending order (insertion sort). */
  function Sort(s: seq<real>): (r: seq<real>)
    ensures |r| == |s|
  {
    if s == [] then [] else Insert(s[0], Sort(s[1..]))
  }

  /** Sorting yields an ascending rearrangement of the values. */
  lemma {:induction false} SortSpec(s: seq<real>)
    ensures Ascending(Sort(s))
    ensures multiset(Sort(s)) == multiset(s)
  {
    if s != [] {
      SortSpec(s[1..]);
      InsertAscending(s[0], Sort(s[1..]));
      InsertMultiset(s[0], Sort(s[1..]));
      assert s == [s[0]] + s[1..];
    }
  }

  /** `np.median`: the middle value of the sorted vector, or the mean of the
      two middle values when the length is even. */
  function Median(s: seq<real>): real
    requires |s| > 0
  {
    var t := Sort(s);
    var h := |t| / 2;
    if |t| % 2 == 1 then t[h] else (t[h - 1] + t[h]) / 2.0
  }

  /** The median of two values is their mean, whichever order they come in. */
  lemma MedianOfPair(a: real, b: real)
    ensures Median([a, b]) == (a + b) / 2.0
  {
    assert [a, b][1..] == [b];
    assert Sort([b]) == [b] by {
      assert [b][1..] == [];
      assert Sort([b]) == Insert(b, []);
    }
    assert Sort([a, b]) == Insert(a, [b]);
    if a > b {
      assert [b][1..] == [];
      assert Insert(a, [b]) == [b, a];
    }
  }

  /** The median lies between the smallest and the largest value. */
  lemma MedianWithin(s: seq<real>)
    requires |s| > 0
    ensures MinOf(s) <= Median(s) <= MaxOf(s)
  {
    var t := Sort(s);
    var h := |t| / 2;
    SortSpec(s);
    assert t[h] in multiset(t);
    WithinMinMax(s, t[h]);
    if |t| % 2 == 0 {
      assert t[h - 1] in multiset(t);
      WithinMinMax(s, t[h - 1]);
    }
  }

  /** Every value of s lies between its smallest and its largest. */
  lemma WithinMinMax(s: seq<real>, x: real)
    requires x in multiset(s)
    ensures MinOf(s) <= x <= MaxOf(s)
  {
    assert x in s;
    MinOfBound(s);
    MaxOfBound(s);
  }


  // ---------------------------------------------------------- score matrix

  predicate IsSquare(M: seq<seq<real>>)
  {
    forall i :: 0 <= i < |M| ==> |M[i]| == |M|
  }

  /** `scores[:, j]`: the scores worker j received, its own included. */
  function Column(M: seq<seq<real>>, j: nat): seq<real>
    requires IsSquare(M) && j < |M|
  {
    seq(|M|, i requires 0 <= i < |M| => M[i][j])
  }

  /** m: the median of each column with the diagonal entry deleted. */
  function Medians(M: seq<seq<real>>): (m: seq<real>)
    requires IsSquare(M) && |M| >= 2
    ensures |m| == |M|
  {
    seq(|M|, j requires 0 <= j < |M| => Median(Delete(Column(M, j), j)))
  }

  /** The evaluation-quality transform applied to a deviation t >= 0. */
  function Transform(t: real): real
    requires t >= 0.0
  {
    Max(0.0, (0.5 - t) / (0.5 + t))
  }

  /** Row i of `t_scaled`: transformed deviations of evaluator i from the
      medians, with the -1.0 fill left on the diagonal. */
  function QualityRow(M: seq<seq<real>>, m: seq<real>, i: nat): seq<real>
    requires IsSquare(M) && |m| == |M| && i < |M|
  {
    seq(|M|, j requires 0 <= j < |M| =>
      if i != j then Transform(Abs(M[i][j] - m[j])) else -1.0)
  }

  /** d: each evaluator's least accurate (smallest) transformed quality. */
  function LeastAccurate(M: seq<seq<real>>): (d: seq<real>)
    requires IsSquare(M) && |M| >= 2
    ensures |d| == |M|
  {
    LeastAccurateGiven(M, Medians(M))
  }

  /** d for given column medians m. */
  function LeastAccurateGiven(M: seq<seq<real>>, m: seq<real>): (d: seq<real>)
    requires IsSquare(M) && |M| >= 2 && |m| == |M|
    ensures |d| == |M|
  {
    seq(|M|, i requires 0 <= i < |M| => MinOf(Delete(QualityRow(M, m, i), i)))
  }

  /** The division by the largest median is defined. With a zero largest
      median some scaled median is NaN, the overall score that takes it is NaN
      too, and `compute_top_k` then raises, since no position equals a NaN
      maximum. A zero largest d is no failure: see `MinScaled`. */
  predicate WellPosed(M: seq<seq<real>>)
  {
    IsSquare(M) && |M| >= 2 && MaxOf(Medians(M)) != 0.0
  }

  function OverallScores(M: seq<seq<real>>): (r: seq<real>)
    requires WellPosed(M)
    ensures |r| == |M|
  {
    Combine(Medians(M), LeastAccurate(M))
  }

  /** Python's `min(a, b / maxB)` on floats, for b >= 0. A zero maxB makes
      b / maxB NaN (b == 0) or +inf (b > 0); `min` keeps its first argument
      unless the second compares below it, which neither does. */
  function MinScaled(a: real, b: real, maxB: real): real
  {
    if maxB == 0.0 then a else Min(a, b / maxB)
  }

  /** overall[i] = min(m[i] / max(m), d[i] / max(d)) */
  function Combine(m: seq<real>, d: seq<real>): (r: seq<real>)
    requires |m| == |d| > 0 && MaxOf(m) != 0.0
    ensures |r| == |m|
  {
    var maxMedian := MaxOf(m);
    var maxD := MaxOf(d);
    seq(|m|, i requires 0 <= i < |m| => MinScaled(m[i] / maxMedian, d[i], maxD))
  }

  // ---------------------------------------------------------------- lemmas

  /** The scores worker j received from the other n-1 workers, in evaluator order. */
  function Received(M: seq<seq<real>>, j: nat): (r: seq<real>)
    requires IsSquare(M) && j < |M|
  {
    seq(|M| - 1, k requires 0 <= k < |M| - 1 => M[if k < j then k else k + 1][j])
  }

  /** m[j] is the median of exactly the scores others gave worker j. */
  lemma MedianOfReceived(M: seq<seq<real>>, j: nat)
    requires IsSquare(M) && |M| >= 2 && j < |M|
    ensures Medians(M)[j] == Median(Received(M, j))
  {
    assert Delete(Column(M, j), j) == Received(M, j);
  }

  /** M and M' agree everywhere off the diagonal. */
  predicate SameOffDiagonal(M: seq<seq<real>>, M': seq<seq<real>>)
    requires IsSquare(M) && IsSquare(M') && |M| == |M'|
  {
    forall i, j :: 0 <= i < |M| && 0 <= j < |M| && i != j ==> M[i][j] == M'[i][j]
  }

  lemma ReceivedIgnoresDiagonal(M: seq<seq<real>>, M': seq<seq<real>>, j: nat)
    requires IsSquare(M) && IsSquare(M') && |M| == |M'| && j < |M|
    requires SameOffDiagonal(M, M')
    ensures Received(M, j) == Received(M', j)
  {
    var r, r' := Received(M, j), Received(M', j);
    forall k | 0 <= k < |r| ensures r[k] == r'[k] {
      var i := if k < j then k else k + 1;
      assert r[k] == M[i][j] && r'[k] == M'[i][j];
    }
  }

  lemma MediansIgnoreDiagonal(M: seq<seq<real>>, M': seq<seq<real>>)
    requires IsSquare(M) && IsSquare(M') && |M| == |M'| >= 2
    requires SameOffDiagonal(M, M')
    ensures Medians(M) == Medians(M')
  {
    forall j | 0 <= j < |M|
      ensures Medians(M)[j] == Medians(M')[j]
    {
      MedianOfReceived(M, j);
      MedianOfReceived(M', j);
      ReceivedIgnoresDiagonal(M, M', j);
    }
  }

  lemma QualityRowIgnoresDiagonal(M: seq<seq<real>>, M': seq<seq<real>>, m: seq<real>, i: nat)
    requires IsSquare(M) && IsSquare(M') && |M| == |M'| == |m| && i < |M|
    requires SameOffDiagonal(M, M')
    ensures QualityRow(M, m, i) == QualityRow(M', m, i)
  {
    var row, row' := QualityRow(M, m, i), QualityRow(M', m, i);
    forall j | 0 <= j < |M| ensures row[j] == row'[j] {
      if i != j { assert M[i][j] == M'[i][j]; }
    }
  }

  lemma LeastAccurateIgnoresDiagonal(M: seq<seq<real>>, M': seq<seq<real>>)
    requires IsSquare(M) && IsSquare(M') && |M| == |M'| >= 2
    requires SameOffDiagonal(M, M')
    ensures LeastAccurate(M) == LeastAccurate(M')
  {
    MediansIgnoreDiagonal(M, M');
    var m := Medians(M);
    forall i | 0 <= i < |M|
      ensures LeastAccurate(M)[i] == LeastAccurate(M')[i]
    {
      QualityRowIgnoresDiagonal(M, M', m, i);
    }
  }

  /** Altering any diagonal entry (a self-evaluation sentinel) changes nothing:
      not the medians, not d, not whether the scores are defined, not the scores. */
  lemma SelfExclusion(M: seq<seq<real>>, M': seq<seq<real>>)
    requires IsSquare(M) && IsSquare(M') && |M| == |M'| >= 2
    requires SameOffDiagonal(M, M')
    ensures Medians(M) == Medians(M')
    ensures LeastAccurate(M) == LeastAccurate(M')
    ensures WellPosed(M) <==> WellPosed(M')
    ensures WellPosed(M) ==> OverallScores(M) == OverallScores(M')
  {
    MediansIgnoreDiagonal(M, M');
    LeastAccurateIgnoresDiagonal(M, M');
  }

  /** The transform maps every deviation into [0,1]: a zero deviation scores 1,
      a deviation of 0.5 or more scores 0, and a larger deviation never scores higher. */
  lemma TransformBounds(t: real, u: real)
    requires 0.0 <= t <= u
    ensures 0.0 <= Transform(t) <= 1.0
    ensures Transform(t) == 1.0 <==> t == 0.0
    ensures Transform(t) == 0.0 <==> t >= 0.5
    ensures Transform(u) <= Transform(t)
  {
    var q := (0.5 - t) / (0.5 + t);
    assert q * (0.5 + t) == 0.5 - t;
    MulSign(q, 0.5 + t);
    var p := (0.5 - u) / (0.5 + u);
    assert p * (0.5 + u) == 0.5 - u;
    // p <= q  because  (0.5 - u)(0.5 + t) <= (0.5 - t)(0.5 + u), i.e. t <= u
    assert p <= q by {
      assert (0.5 - u) * (0.5 + t) <= (0.5 - t) * (0.5 + u);
      assert p * (0.5 + u) * (0.5 + t) == (0.5 - u) * (0.5 + t);
      assert q * (0.5 + t) * (0.5 + u) == (0.5 - t) * (0.5 + u);
      assert (p - q) * ((0.5 + u) * (0.5 + t)) <= 0.0;
      MulSign(p - q, (0.5 + u) * (0.5 + t));
    }
  }

  /** Off the diagonal every t_scaled entry lies in [0,1]. */
  lemma QualityBounds(M: seq<seq<real>>, m: seq<real>, i: nat, j: nat)
    requires IsSquare(M) && |m| == |M| && i < |M| && j < |M| && i != j
    ensures 0.0 <= QualityRow(M, m, i)[j] <= 1.0
  {
    var t := Abs(M[i][j] - m[j]);
    TransformBounds(t, t);
  }

  /** d[i] is the worst of evaluator i's off-diagonal qualities, and lies in [0,1]. */
  lemma LeastAccurateBounds(M: seq<seq<real>>, i: nat)
    requires IsSquare(M) && |M| >= 2 && i < |M|
    ensures 0.0 <= LeastAccurate(M)[i] <= 1.0
    ensures forall j :: 0 <= j < |M| && j != i ==>
      LeastAccurate(M)[i] <= QualityRow(M, Medians(M), i)[j]
    ensures exists j :: 0 <= j < |M| && j != i &&
                        LeastAccurate(M)[i] == QualityRow(M, Medians(M), i)[j]
  {
    var m := Medians(M);
    var row := QualityRow(M, m, i);
    assert LeastAccurate(M)[i] == MinOf(Delete(row, i));
    var j := MinOfDelete(row, i);
    QualityBounds(M, m, i, j);
  }

  /** The smallest entry of a vector with position i deleted is at most every
      other entry, and is the entry at some position j other than i. */
  lemma MinOfDelete(row: seq<real>, i: nat) returns (j: nat)
    requires |row| >= 2 && i < |row|
    ensures j < |row| && j != i && MinOf(Delete(row, i)) == row[j]
    ensures forall j' :: 0 <= j' < |row| && j' != i ==> MinOf(Delete(row, i)) <= row[j']
  {
    var others := Delete(row, i);
    var d := MinOf(others);
    MinOfIn(others);
    MinOfBound(others);
    var k :| 0 <= k < |others| && others[k] == d;
    j := if k < i then k else k + 1;
    forall j' | 0 <= j' < |row| && j' != i
      ensures d <= row[j']
    {
      var k' := if j' < i then j' else j' - 1;
      assert others[k'] == row[j'];
    }
  }

  /** Scores that are never negative have medians that are never negative,
      and scores in [0,1] have medians in [0,1]. */
  lemma MedianBounds(M: seq<seq<real>>, lo: real, hi: real, j: nat)
    requires IsSquare(M) && |M| >= 2 && j < |M|
    requires forall i, k :: 0 <= i < |M| && 0 <= k < |M| && i != k ==> lo <= M[i][k] <= hi
    ensures lo <= Medians(M)[j] <= hi
  {
    var others := Delete(Column(M, j), j);
    MedianWithin(others);
    assert lo <= MinOf(others) && MaxOf(others) <= hi by {
      MinOfIn(others);
      MaxOfIn(others);
      var a :| a in others && a == MinOf(others);
      var b :| b in others && b == MaxOf(others);
      var ka :| 0 <= ka < |others| && others[ka] == a;
      var kb :| 0 <= kb < |others| && others[kb] == b;
    }
  }

  /** With a positive largest median and non-negative medians, each overall
      score lies in [0,1] and is at most the scaled median. When the largest d
      is positive, it is also at most the scaled d and equals the smaller of
      the two. When the largest d is zero, every d[i] is zero, so d[i] / max(d)
      is 0/0, and the score is the scaled median. */
  lemma OverallBounds(M: seq<seq<real>>, i: nat)
    requires WellPosed(M) && i < |M|
    requires forall j :: 0 <= j < |M| ==> Medians(M)[j] >= 0.0
    ensures var m, d := Medians(M), LeastAccurate(M);
      var s := OverallScores(M)[i];
      0.0 <= s <= 1.0 && s <= m[i] / MaxOf(m) &&
      (MaxOf(d) != 0.0 ==>
        s <= d[i] / MaxOf(d) && (s == m[i] / MaxOf(m) || s == d[i] / MaxOf(d))) &&
      (MaxOf(d) == 0.0 ==> d[i] == 0.0 && s == m[i] / MaxOf(m))
  {
    var m, d := Medians(M), LeastAccurate(M);
    var maxD := MaxOf(d);
    MaxOfIn(d);
    MaxOfBound(d);
    MaxOfBound(m);
    var k :| 0 <= k < |d| && d[k] == maxD;
    LeastAccurateBounds(M, k);
    LeastAccurateBounds(M, i);
    if maxD == 0.0 {
      assert OverallScores(M)[i] == m[i] / MaxOf(m);
      DivUnit(m[i], MaxOf(m));
    } else {
      assert OverallScores(M)[i] == Min(m[i] / MaxOf(m), d[i] / maxD);
      ScaledMin(m[i], MaxOf(m), d[i], maxD);
    }
  }

  /** Every d[i] lies in [0,1], whatever column medians it is measured against. */
  lemma LeastAccurateGivenBounds(M: seq<seq<real>>, m: seq<real>)
    requires IsSquare(M) && |M| >= 2 && |m| == |M|
    ensures forall i :: 0 <= i < |M| ==> 0.0 <= LeastAccurateGiven(M, m)[i] <= 1.0
  {
    forall i | 0 <= i < |M|
      ensures 0.0 <= LeastAccurateGiven(M, m)[i] <= 1.0
    {
      var j := MinOfDelete(QualityRow(M, m, i), i);
      QualityBounds(M, m, i, j);
    }
  }

  /** `m_scaled = m / max(m)` puts the largest median at exactly 1.0. When
      that largest median is positive, every scaled median is at most 1.0, as
      the source intends; when it is negative, every scaled median is at
      least 1.0 instead. */
  lemma ScaledByMax(m: seq<real>)
    requires |m| > 0 && MaxOf(m) != 0.0
    ensures exists k :: 0 <= k < |m| && m[k] / MaxOf(m) == 1.0
    ensures MaxOf(m) > 0.0 ==> forall k :: 0 <= k < |m| ==> m[k] / MaxOf(m) <= 1.0
    ensures MaxOf(m) < 0.0 ==> forall k :: 0 <= k < |m| ==> m[k] / MaxOf(m) >= 1.0
  {
    var top := MaxOf(m);
    MaxOfIn(m);
    var j :| 0 <= j < |m| && m[j] == top;
    DivSelf(top);
    assert m[j] / top == 1.0;
    ScaledBelowMax(m, top);
  }

  /** Dividing by a bound from above: each quotient is at most 1 for a
      positive bound and at least 1 for a negative one. */
  lemma ScaledBelowMax(m: seq<real>, top: real)
    requires |m| > 0 && top == MaxOf(m) && top != 0.0
    ensures top > 0.0 ==> forall k :: 0 <= k < |m| ==> m[k] / top <= 1.0
    ensures top < 0.0 ==> forall k :: 0 <= k < |m| ==> m[k] / top >= 1.0
  {
    MaxOfBound(m);
    forall k | 0 <= k < |m|
      ensures top > 0.0 ==> m[k] / top <= 1.0
      ensures top < 0.0 ==> m[k] / top >= 1.0
    {
      DivByLarger(m[k], top);
    }
  }

  /** A non-zero value divided by itself is 1. */
  lemma DivSelf(y: real)
    requires y != 0.0
    ensures y / y == 1.0
  {
  }

  /** x / y against 1 for x <= y: at most 1 for a positive y, at least 1 for a negative y. */
  lemma DivByLarger(x: real, y: real)
    requires x <= y && y != 0.0
    ensures y > 0.0 ==> x / y <= 1.0
    ensures y < 0.0 ==> x / y >= 1.0
  {
    assert (x / y) * y == x;
    if y > 0.0 {
      MulSign(x / y - 1.0, y);
    } else {
      MulSign(1.0 - x / y, -y);
    }
  }

  lemma ScaledMin(a: real, maxA: real, b: real, maxB: real)
    requires 0.0 <= a <= maxA && maxA != 0.0
    requires 0.0 <= b <= maxB && maxB != 0.0
    ensures var s := Min(a / maxA, b / maxB);
      s <= a / maxA && s <= b / maxB && (s == a / maxA || s == b / maxB) && 0.0 <= s <= 1.0
  {
    DivUnit(a, maxA);
    DivUnit(b, maxB);
  }

  lemma MulSign(a: real, b: real)
    requires b > 0.0
    ensures a > 0.0 ==> a * b > 0.0
    ensures a <= 0.0 ==> a * b <= 0.0
  {
  }

  lemma DivUnit(x: real, y: real)
    requires 0.0 <= x <= y && y != 0.0
    ensures 0.0 <= x / y <= 1.0
  {
    assert (x / y) * y == x;
  }
}
