// The requester's round bookkeeping (client/Requester.py): the n x n score
// matrix that workers push their rows into, its reset at task start and at
// every round change, the blockflow scoring over it, the ranking, and the
// building of the reverse-auction request. The ledger transactions around
// these steps are recorded by the driver as trace events.
module RequesterModel {
  import opened Seqs
  import Scoring
  import Ranking

  /** A worker's ledger account. The model only compares accounts and uses
      them as dictionary keys, so their hexadecimal text is left abstract. */
  type Address(==)

  /** One reverse-auction tuple: (address, scaled score, bid). */
  type AuctionEntry = (Address, int, int)

  datatype Result<T, E> = Ok(value: T) | Err(error: E)

  /** What stops the auction request from being built: `overall_scores[i]`
      out of range (IndexError), or a candidate with no bid (KeyError). */
  datatype AuctionError = IndexOutOfRange(position: nat) | MissingBid(address: Address)

  /** The values of a 2-D array as a list of rows. */
  ghost function Grid(a: array2<real>): seq<seq<real>>
    reads a
  {
    seq(a.Length0, i requires 0 <= i < a.Length0 reads a =>
      seq(a.Length1, j requires 0 <= j < a.Length1 reads a => a[i, j]))
  }

  /** The row a Python index selects in a list of length n (negative counts from the end). */
  function WrapIndex(index: int, n: nat): int
  {
    if index < 0 then index + n else index
  }

  /** The row numpy stores for `np.array(scores)`: the values themselves, or a
      single value repeated across the row. */
  function Broadcast(scores: seq<real>, n: nat): seq<real>
    requires |scores| == n || |scores| == 1
  {
    if |scores| == n then scores else seq(n, _ => scores[0])
  }

  /** Candidate p gets an auction tuple: it has a score and a bid. */
  predicate EntryOk(scores: seq<int>, addresses: seq<Address>, bids: map<Address, int>, p: nat)
    requires p < |addresses|
  {
    p < |scores| && addresses[p] in bids
  }

  /** The first loop of `calc_overall_scores`: m[i] is the median of column i
      with the diagonal entry deleted. */
  method MedianScores(matrix: array2<real>, n: int) returns (m: seq<real>)
    requires matrix.Length0 == n && matrix.Length1 == n && n >= 2
    ensures m == Scoring.Medians(Grid(matrix))
  {
    ghost var M := Grid(matrix);
    m := [];
    var i := 0;
    while i < n
      invariant 0 <= i <= n
      invariant m == Scoring.Medians(M)[..i]
    {
      var column := seq(n, k requires 0 <= k < n reads matrix => matrix[k, i]);
      assert column == Scoring.Column(M, i);
      m := m + [Scoring.Median(Delete(column, i))];
      i := i + 1;
    }
  }

  /** The nested loops of `calc_overall_scores` that fill `t` and `t_scaled`
      (both start as -1.0 everywhere; the diagonal keeps that fill). */
  method QualityScores(matrix: array2<real>, n: int, m: seq<real>) returns (tScaled: array2<real>)
    requires matrix.Length0 == n && matrix.Length1 == n && |m| == n
    ensures fresh(tScaled) && tScaled.Length0 == n && tScaled.Length1 == n
    ensures forall p, q :: 0 <= p < n && 0 <= q < n ==>
      tScaled[p, q] == Scoring.QualityRow(Grid(matrix), m, p)[q]
  {
    ghost var M := Grid(matrix);
    var t := new real[n, n]((_, _) => -1.0);
    tScaled := new real[n, n]((_, _) => -1.0);
    var i := 0;
    while i < n
      invariant 0 <= i <= n
      invariant forall p, q :: 0 <= p < i && 0 <= q < n ==> tScaled[p, q] == Scoring.QualityRow(M, m, p)[q]
      invariant forall p, q :: i <= p < n && 0 <= q < n ==> tScaled[p, q] == -1.0
    {
      var j := 0;
      while j < n
        invariant 0 <= j <= n
        invariant forall p, q :: 0 <= p < i && 0 <= q < n ==> tScaled[p, q] == Scoring.QualityRow(M, m, p)[q]
        invariant forall q :: 0 <= q < j ==> tScaled[i, q] == Scoring.QualityRow(M, m, i)[q]
        invariant forall p, q :: i <= p < n && 0 <= q < n && (p > i || q >= j) ==> tScaled[p, q] == -1.0
      {
        if i != j {
          t[i, j] := Scoring.Abs(matrix[i, j] - m[j]);
          tScaled[i, j] := Scoring.Transform(t[i, j]);
        }
        j := j + 1;
      }
      i := i + 1;
    }
  }

  /** The loop of `calc_overall_scores` that takes, per evaluator, the least
      entry of its `t_scaled` row with its own entry deleted. */
  method LeastAccurateScores(ghost M: seq<seq<real>>, n: int, m: seq<real>, tScaled: array2<real>)
    returns (d: seq<real>)
    requires Scoring.IsSquare(M) && |M| == n && n >= 2 && |m| == n
    requires tScaled.Length0 == n && tScaled.Length1 == n
    requires forall p, q :: 0 <= p < n && 0 <= q < n ==> tScaled[p, q] == Scoring.QualityRow(M, m, p)[q]
    ensures d == Scoring.LeastAccurateGiven(M, m)
  {
    ghost var L := Scoring.LeastAccurateGiven(M, m);
    d := [];
    var i := 0;
    while i < n
      invariant 0 <= i <= n
      invariant |d| == i
      invariant forall k :: 0 <= k < i ==> d[k] == L[k]
    {
      var quality := seq(n, q requires 0 <= q < n reads tScaled => tScaled[i, q]);
      var least := Scoring.MinOf(Delete(quality, i));
      assert least == L[i] by {
        assert quality == Scoring.QualityRow(M, m, i);
      }
      d := d + [least];
      i := i + 1;
    }
  }

  /** `m_scaled = m / max(m)`. Dividing by the largest median puts that
      median at exactly 1.0 and, when it is positive, every other at most at
      1.0 (`Scoring.ScaledByMax`). */
  method DivideAll(m: seq<real>, divisor: real) returns (r: seq<real>)
    requires divisor != 0.0
    ensures |r| == |m| && forall k :: 0 <= k < |m| ==> r[k] == m[k] / divisor
    ensures |m| > 0 && divisor == Scoring.MaxOf(m) ==>
      (exists k :: 0 <= k < |r| && r[k] == 1.0) &&
      (divisor > 0.0 ==> forall k :: 0 <= k < |r| ==> r[k] <= 1.0)
  {
    r := [];
    var i := 0;
    while i < |m|
      invariant 0 <= i <= |m|
      invariant |r| == i
      invariant forall k :: 0 <= k < i ==> r[k] == m[k] / divisor
    {
      r := r + [m[i] / divisor];
      i := i + 1;
    }
    if |m| > 0 && divisor == Scoring.MaxOf(m) {
      Scoring.ScaledByMax(m);
    }
  }

  /** The last loop of `calc_overall_scores`: overall[i] = min(m_scaled[i], d[i] / max(d)).
      The d values are never negative, so a zero max(d) makes the quotient NaN
      or +inf, and `min` keeps m_scaled[i]. */
  method PairwiseMin(mScaled: seq<real>, d: seq<real>, maxD: real) returns (r: seq<real>)
    requires |mScaled| == |d|
    requires maxD == 0.0 ==> forall k :: 0 <= k < |d| ==> d[k] >= 0.0
    ensures |r| == |d| && forall k :: 0 <= k < |d| ==> r[k] == Scoring.MinScaled(mScaled[k], d[k], maxD)
  {
    r := [];
    var i := 0;
    while i < |d|
      invariant 0 <= i <= |d|
      invariant |r| == i
      invariant forall k :: 0 <= k < i ==> r[k] == Scoring.MinScaled(mScaled[k], d[k], maxD)
    {
      var overall := if maxD == 0.0 then mScaled[i] else Scoring.Min(mScaled[i], d[i] / maxD);
      r := r + [overall];
      i := i + 1;
    }
  }

  class Requester {
    var numWorkers: nat
    var scoreMatrix: array2?<real>
    /** Rows of the current matrix that a push has written since it was created. */
    ghost var written: set<int>
    /** `start_task` has set `num_workers`; before that the field does not exist. */
    ghost var started: bool

    ghost predicate Valid()
      reads this
    {
      (scoreMatrix != null ==>
        scoreMatrix.Length0 == numWorkers && scoreMatrix.Length1 == numWorkers) &&
      (forall i :: i in written ==> 0 <= i < numWorkers)
    }

    /** Every row of the current matrix has been pushed. */
    ghost predicate Complete()
      reads this
    {
      scoreMatrix != null && forall i :: 0 <= i < numWorkers ==> i in written
    }

    constructor ()
      ensures Valid() && scoreMatrix == null && numWorkers == 0 && written == {} && !started
    {
      numWorkers := 0;
      scoreMatrix := null;
      written := {};
      started := false;
    }

    /** A fresh n x n matrix whose cells are unspecified: no row is written.
        It reads `num_workers`, which only `start_task` sets. */
    method InitScoreMatrix()
      requires started
      modifies this
      ensures Valid() && numWorkers == old(numWorkers) && started
      ensures scoreMatrix != null && fresh(scoreMatrix)
      ensures written == {}
    {
      scoreMatrix := new real[numWorkers, numWorkers];
      written := {};
    }

    /** The matrix part of `start_task`: the worker count read back from the
      ledger, then a fresh matrix. */
    method StartTask(joinedWorkers: nat)
      modifies this
      ensures Valid() && numWorkers == joinedWorkers && started
      ensures scoreMatrix != null && fresh(scoreMatrix)
      ensures written == {}
    {
      numWorkers := joinedWorkers;
      started := true;
      InitScoreMatrix();
    }

    /** The matrix part of `next_round`: the previous round's rows are dropped. */
    method NextRound()
      requires started
      modifies this
      ensures Valid() && numWorkers == old(numWorkers) && started
      ensures scoreMatrix != null && fresh(scoreMatrix)
      ensures written == {}
    {
      InitScoreMatrix();
    }

    /** `score_matrix[index] = np.array(scores)`. A repeated index overwrites.
        An index outside [-n, n) or a row of another width (other than a single
        broadcast value) is the IndexError / ValueError case: ok is false and
        nothing changes. */
    method PushScores(index: int, scores: seq<real>) returns (ok: bool)
      requires Valid() && scoreMatrix != null
      modifies this, scoreMatrix
      ensures Valid() && scoreMatrix == old(scoreMatrix) && numWorkers == old(numWorkers) && started == old(started)
      ensures ok == (-(numWorkers as int) <= index < numWorkers && (|scores| == numWorkers || |scores| == 1))
      ensures ok ==>
        var row := WrapIndex(index, numWorkers);
        written == old(written) + {row} &&
        (forall j :: 0 <= j < numWorkers ==> scoreMatrix[row, j] == Broadcast(scores, numWorkers)[j]) &&
        (forall i, j :: 0 <= i < numWorkers && 0 <= j < numWorkers && i != row ==>
          scoreMatrix[i, j] == old(scoreMatrix[i, j]))
      ensures !ok ==> written == old(written) && unchanged(scoreMatrix)
    {
      var n: int := numWorkers;
      if !(-n <= index < n && (|scores| == n || |scores| == 1)) {
        return false;
      }
      var row := WrapIndex(index, n);
      var values := Broadcast(scores, n);
      var matrix := scoreMatrix;
      var j := 0;
      while j < n
        invariant 0 <= j <= n
        invariant forall q :: 0 <= q < j ==> matrix[row, q] == values[q]
        invariant forall i, q :: 0 <= i < n && 0 <= q < n && i != row ==>
          matrix[i, q] == old(matrix[i, q])
        modifies matrix
      {
        matrix[row, j] := values[j];
        j := j + 1;
      }
      written := written + {row};
      ok := true;
    }

    method GetScoreMatrix() returns (matrix: array2?<real>)
      ensures matrix == scoreMatrix
    {
      matrix := scoreMatrix;
    }

    /** `calc_overall_scores`: the blockflow overall score of every worker.
        When it is the requester's own matrix, every row must have been pushed. */
    method CalcOverallScores(matrix: array2<real>, numWorkers: int) returns (overallScores: seq<real>)
      requires matrix.Length0 == numWorkers && matrix.Length1 == numWorkers
      requires matrix == scoreMatrix ==> Complete()
      requires Scoring.WellPosed(Grid(matrix))
      ensures |overallScores| == numWorkers
      ensures overallScores == Scoring.OverallScores(Grid(matrix))
    {
      ghost var M := Grid(matrix);
      var n := numWorkers;

      // median of each column, the evaluator's own entry deleted
      var m := MedianScores(matrix, n);
      var mScaled := DivideAll(m, Scoring.MaxOf(m));

      // deviations from the medians and their transform, off the diagonal
      var tScaled := QualityScores(matrix, n, m);

      // each evaluator's least accurate evaluation, its own entry deleted
      var d := LeastAccurateScores(M, n, m, tScaled);
      Scoring.LeastAccurateGivenBounds(M, m);
      overallScores := PairwiseMin(mScaled, d, Scoring.MaxOf(d));
      assert overallScores == Scoring.Combine(m, d);
    }

    /** `compute_top_k`: every worker, ranked by score (the k limit is not applied). */
    method ComputeTopK(addresses: seq<Address>, scores: seq<real>)
      returns (topKAddresses: seq<Address>, topKScores: seq<real>)
      requires |addresses| == |scores|
      ensures (topKAddresses, topKScores) == Ranking.TopK(addresses, scores)
      ensures |topKAddresses| == |scores| && |topKScores| == |scores|
      ensures Ranking.NonIncreasing(topKScores)
      ensures multiset(Pairs(topKAddresses, topKScores)) == multiset(Pairs(addresses, scores))
    {
      var tempAddresses, tempScores := addresses, scores;
      topKAddresses, topKScores := [], [];
      ghost var passes := 0;
      ghost var st := Ranking.Selection(topKAddresses, topKScores, tempAddresses, tempScores);
      while |tempScores| > 0
        invariant |tempAddresses| == |tempScores|
        invariant st == Ranking.Selection(topKAddresses, topKScores, tempAddresses, tempScores)
        invariant passes <= |scores|
        invariant st == Ranking.SelectN(addresses, scores, passes)
        decreases |tempScores|
      {
        Scoring.MaxOfIn(tempScores);
        var index := Ranking.FirstIndexOf(tempScores, Scoring.MaxOf(tempScores));
        assert index == Ranking.Pick(tempScores);
        st := Ranking.SelectOnce(st);
        passes := passes + 1;
        topKAddresses := topKAddresses + [tempAddresses[index]];
        topKScores := topKScores + [tempScores[index]];
        tempScores := Delete(tempScores, index);
        tempAddresses := Delete(tempAddresses, index);
      }
      assert passes == |scores|;
      Ranking.SelectAllRanks(addresses, scores);
      Ranking.TopKNonIncreasing(addresses, scores);
      Ranking.TopKPermutation(addresses, scores);
    }

    /** The request-building loop of `reverse_auction`: one (address, score, bid)
        tuple per candidate, in candidate order, the bid looked up by address.
        The first candidate without a score or a bid stops it with that error. */
    method ReverseAuction(overallScores: seq<int>, overallAddresses: seq<Address>, workerBidDict: map<Address, int>)
      returns (r: Result<seq<AuctionEntry>, AuctionError>)
      ensures r.Ok? <==> forall p :: 0 <= p < |overallAddresses| ==>
        EntryOk(overallScores, overallAddresses, workerBidDict, p)
      ensures r.Ok? ==>
        |r.value| == |overallAddresses| &&
        forall k :: 0 <= k < |overallAddresses| ==>
          k < |overallScores| && overallAddresses[k] in workerBidDict &&
          r.value[k] == (overallAddresses[k], overallScores[k], workerBidDict[overallAddresses[k]])
      ensures r.Err? ==>
        exists p :: 0 <= p < |overallAddresses| &&
          !EntryOk(overallScores, overallAddresses, workerBidDict, p) &&
          (forall q :: 0 <= q < p ==> EntryOk(overallScores, overallAddresses, workerBidDict, q)) &&
          r.error == (if p >= |overallScores| then IndexOutOfRange(p) else MissingBid(overallAddresses[p]))
    {
      var data: seq<AuctionEntry> := [];
      var i := 0;
      while i < |overallAddresses|
        invariant 0 <= i <= |overallAddresses|
        invariant forall q :: 0 <= q < i ==> EntryOk(overallScores, overallAddresses, workerBidDict, q)
        invariant |data| == i
        invariant forall k :: 0 <= k < i ==>
          k < |overallScores| && overallAddresses[k] in workerBidDict &&
          data[k] == (overallAddresses[k], overallScores[k], workerBidDict[overallAddresses[k]])
      {
        var address := overallAddresses[i];
        if i >= |overallScores| {
          assert !EntryOk(overallScores, overallAddresses, workerBidDict, i);
          return Err(IndexOutOfRange(i));
        }
        var score := overallScores[i];
        if address !in workerBidDict {
          assert !EntryOk(overallScores, overallAddresses, workerBidDict, i);
          return Err(MissingBid(address));
        }
        var bid := workerBidDict[address];
        data := data + [(address, score, bid)];
        i := i + 1;
      }
      r := Ok(data);
      forall k | 0 <= k < |overallAddresses|
        ensures k < |overallScores| && overallAddresses[k] in workerBidDict
        ensures r.value[k] == (overallAddresses[k], overallScores[k], workerBidDict[overallAddresses[k]])
      {
        assert r.value[k] == data[k];
      }
      assert |r.value| == |overallAddresses|;
      assert forall k :: 0 <= k < |overallAddresses| ==>
          k < |overallScores| && overallAddresses[k] in workerBidDict &&
          r.value[k] == (overallAddresses[k], overallScores[k], workerBidDict[overallAddresses[k]]);
    }
  }
}
