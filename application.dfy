// The driver `Application` (client/Application.py): it registers the workers
// and their bids, starts the training job, and then runs every round: all workers
// train, each worker evaluates the others and pushes its score row (with the
// -1 self-sentinel inserted), the requester scores and ranks the workers, and
// the ranked, scaled scores go to the reverse auction before rewards are
// distributed, the round is verified and the next round starts.
//
// Workers, the ledger and the hash library are outside the model: every call
// the driver makes into them is appended to `trace`, and what those calls
// return (a worker's evaluation scores, the verification verdict, the
// accounts and prices read from the environment) are parameters of `Run`.
module ApplicationModel {
  import opened Seqs
  import Scoring
  import Ranking
  import opened RequesterModel

  datatype Option<T> = None | Some(value: T)

  /** What the driver keeps of a `Worker`: its position, its account address,
      whether it is one of the evil workers, and its bid. */
  datatype Worker = Worker(index: nat, address: Address, isEvil: bool, bid: int)

  /** The deposit `run` sends with `init_task`. */
  const Deposit: nat := 10000000000000000000

  /** A call from the driver into a worker or into the ledger. */
  datatype Event =
    | DeployContract
    | InitTask(deposit: nat, modelUri: string, numRounds: nat, k: int)
    | JoinTask(worker: nat)
    | StartTask
    | Train(worker: nat, round: nat)
    | Evaluate(worker: nat, round: nat)
    | Push(worker: nat, row: seq<real>)
    | UpdateModel(worker: nat, round: nat)
    | Auction(round: nat, request: seq<AuctionEntry>)
    | GetWorkerScores(round: nat)
    | GetCommitteeScores(round: nat)
    | DistributeRewards(round: nat)
    | VerifyRound(round: nat, preimage: nat, verdict: bool)
    | NextRound(round: nat)

  // ------------------------------------------------------ sentinel and matrix

  /** `s.insert(idx, x)` for a non-negative idx: past the end it appends. */
  function InsertAt(s: seq<real>, idx: nat, x: real): seq<real>
  {
    var p := if idx <= |s| then idx else |s|;
    s[..p] + [x] + s[p..]
  }

  /** Inserting at a position inside the list puts x there and keeps every
      other entry in order (deleting it again gives the list back); past the
      end it appends. */
  lemma InsertAtSentinel(s: seq<real>, idx: nat, x: real)
    ensures |InsertAt(s, idx, x)| == |s| + 1
    ensures idx <= |s| ==> InsertAt(s, idx, x)[idx] == x && Delete(InsertAt(s, idx, x), idx) == s
    ensures idx > |s| ==> InsertAt(s, idx, x) == s + [x]
  {
    if idx <= |s| {
      var r := InsertAt(s, idx, x);
      assert Delete(r, idx) == r[..idx] + r[idx + 1..];
      assert r[..idx] == s[..idx] && r[idx + 1..] == s[idx..];
      assert s[..idx] + s[idx..] == s;
    }
  }

  /** One round's evaluations have the shape `run` relies on: at least two
      workers, each scoring the n-1 others. */
  predicate RoundShaped(rows: seq<seq<real>>)
  {
    |rows| >= 2 && forall i :: 0 <= i < |rows| ==> |rows[i]| == |rows| - 1
  }

  /** The score matrix one evaluate pass fills: row i is worker i's scores
      with -1 inserted at position i. */
  function RoundMatrix(rows: seq<seq<real>>): (M: seq<seq<real>>)
    ensures |M| == |rows|
  {
    seq(|rows|, i requires 0 <= i < |rows| => InsertAt(rows[i], i, -1.0))
  }

  /** The round matrix is square, holds -1 on the diagonal, and off the
      diagonal holds worker i's scores in their original order. */
  lemma RoundMatrixShape(rows: seq<seq<real>>)
    requires RoundShaped(rows)
    ensures Scoring.IsSquare(RoundMatrix(rows))
    ensures forall i :: 0 <= i < |rows| ==> RoundMatrix(rows)[i][i] == -1.0
    ensures forall i, j :: 0 <= i < |rows| && 0 <= j < |rows| && i != j ==>
      RoundMatrix(rows)[i][j] == rows[i][if j < i then j else j - 1]
  {
    forall i | 0 <= i < |rows|
      ensures |RoundMatrix(rows)[i]| == |rows|
      ensures RoundMatrix(rows)[i][i] == -1.0
      ensures Delete(RoundMatrix(rows)[i], i) == rows[i]
    {
      InsertAtSentinel(rows[i], i, -1.0);
    }
    forall i, j | 0 <= i < |rows| && 0 <= j < |rows| && i != j
      ensures RoundMatrix(rows)[i][j] == rows[i][if j < i then j else j - 1]
    {
      var k := if j < i then j else j - 1;
      assert Delete(RoundMatrix(rows)[i], i)[k] == rows[i][k];
    }
  }

  // ------------------------------------------------------------- registries

  /** `self.workers` after the registration loop. */
  function Registry(accounts: seq<Address>, prices: seq<int>, numEvil: nat): seq<Worker>
    requires |accounts| == |prices|
  {
    seq(|accounts|, i requires 0 <= i < |accounts| => Worker(i, accounts[i], i < numEvil, prices[i]))
  }

  /** `worker_bid_dict` after the registration loop: account i maps to
      price i, a later duplicate account overwriting an earlier one. Every
      registered account, and nothing else, has a bid. */
  function BidMap(accounts: seq<Address>, prices: seq<int>): (bids: map<Address, int>)
    requires |accounts| == |prices|
    ensures forall i :: 0 <= i < |accounts| ==> accounts[i] in bids
  {
    if |accounts| == 0 then map[]
    else
      var n := |accounts| - 1;
      BidMap(accounts[..n], prices[..n])[accounts[n] := prices[n]]
  }

  /** Exactly the registered accounts have a bid. */
  lemma {:induction false} BidMapKeys(accounts: seq<Address>, prices: seq<int>)
    requires |accounts| == |prices|
    ensures forall a :: a in BidMap(accounts, prices) <==> a in accounts
  {
    if |accounts| > 0 {
      var n := |accounts| - 1;
      BidMapKeys(accounts[..n], prices[..n]);
      assert accounts == accounts[..n] + [accounts[n]];
    }
  }

  /** Registering account i extends both registries built from the first i. */
  lemma RegistrationStep(accounts: seq<Address>, prices: seq<int>, numEvil: nat, i: nat)
    requires |accounts| == |prices| && i < |accounts|
    ensures Registry(accounts[..i + 1], prices[..i + 1], numEvil) ==
      Registry(accounts[..i], prices[..i], numEvil) + [Worker(i, accounts[i], i < numEvil, prices[i])]
    ensures BidMap(accounts[..i + 1], prices[..i + 1]) == BidMap(accounts[..i], prices[..i])[accounts[i] := prices[i]]
    ensures JoinEvents(i + 1) == JoinEvents(i) + [JoinTask(i)]
  {
    assert accounts[..i + 1][..i] == accounts[..i] && prices[..i + 1][..i] == prices[..i];
  }

  /** With distinct accounts, worker i's account maps to worker i's price. */
  lemma {:induction false} BidMapLookup(accounts: seq<Address>, prices: seq<int>, i: nat)
    requires |accounts| == |prices| && Distinct(accounts) && i < |accounts|
    ensures BidMap(accounts, prices)[accounts[i]] == prices[i]
  {
    var n := |accounts| - 1;
    if i < n {
      assert Distinct(accounts[..n]);
      BidMapLookup(accounts[..n], prices[..n], i);
      assert accounts[i] != accounts[n];
    }
  }

  /** `list(worker_dict.values())` for a dictionary filled with keys
      0, 1, ..., n-1 in that order: the values in key order. */
  function DictValues(d: map<nat, Address>, n: nat): (r: seq<Address>)
    requires forall i: nat :: i < n ==> i in d
    ensures |r| == n && forall i :: 0 <= i < n ==> r[i] == d[i]
  {
    seq(n, i requires 0 <= i < n => d[i])
  }

  // ------------------------------------------------------- auction request

  /** Every ranked address has a bid when every account has one: the ranked
      addresses are a rearrangement of the accounts. */
  lemma RankedHaveBids(accounts: seq<Address>, bids: map<Address, int>, scores: seq<real>)
    requires |accounts| == |scores|
    requires forall a :: a in accounts ==> a in bids
    ensures forall p :: 0 <= p < |scores| ==> Ranking.TopK(accounts, scores).0[p] in bids
  {
    var ranked := Ranking.TopK(accounts, scores).0;
    Ranking.TopKLabelsPermutation(accounts, scores);
    forall p | 0 <= p < |scores|
      ensures ranked[p] in bids
    {
      assert ranked[p] in multiset(ranked);
    }
  }

  /** The request `reverse_auction` sends for the given overall scores: the
      ranked addresses, their scores scaled by 1000 and truncated, and their
      bids. */
  function AuctionRequest(accounts: seq<Address>, bids: map<Address, int>, scores: seq<real>): seq<AuctionEntry>
    requires |accounts| == |scores|
    requires forall a :: a in accounts ==> a in bids
  {
    var ranked := Ranking.TopK(accounts, scores);
    RankedHaveBids(accounts, bids, scores);
    var scaled := Ranking.Scale(ranked.1);
    seq(|ranked.0|, p requires 0 <= p < |ranked.0| => (ranked.0[p], scaled[p], bids[ranked.0[p]]))
  }

  /** The request of one round: the overall scores of its round matrix. */
  function RoundRequest(accounts: seq<Address>, bids: map<Address, int>, rows: seq<seq<real>>): seq<AuctionEntry>
    requires |accounts| == |rows| && Scoring.WellPosed(RoundMatrix(rows))
    requires forall a :: a in accounts ==> a in bids
  {
    AuctionRequest(accounts, bids, Scoring.OverallScores(RoundMatrix(rows)))
  }

  /** `RoundRequest` behind `delay` unfoldings that do nothing else. This is
      a proof device, not a part of the driver: its value is always the
      round's request (`LazyRoundRequestIs`), and `Run`'s contract states the
      requests through `RoundRequest` itself.

      Why it exists: the verifier unfolds a function call only a fixed number
      of levels when the argument it recurses on is a literal. The driver's
      method contracts name a round's request as
      `LazyRoundRequest(..., numWorkers + 2)`, whose delay is not a literal,
      so the verifier never unfolds it there. Reasoning about calls, trace
      concatenations and the round loop therefore never pulls in the median,
      quality and ranking definitions behind `RoundRequest`. The value
      `numWorkers + 2` has no meaning of its own; any non-literal delay
      would do. Where the value matters, `LazyRoundRequestIs` is called. */
  function LazyRoundRequest(accounts: seq<Address>, bids: map<Address, int>, rows: seq<seq<real>>,
                            delay: nat): seq<AuctionEntry>
    decreases delay
  {
    if delay > 0 then LazyRoundRequest(accounts, bids, rows, delay - 1)
    else if |accounts| == |rows| && Scoring.WellPosed(RoundMatrix(rows)) && forall a :: a in accounts ==> a in bids
    then RoundRequest(accounts, bids, rows)
    else []
  }

  /** However long the delay, the request is the round's request. */
  lemma {:induction false} LazyRoundRequestIs(accounts: seq<Address>, bids: map<Address, int>,
                                             rows: seq<seq<real>>, delay: nat)
    requires |accounts| == |rows| && Scoring.WellPosed(RoundMatrix(rows))
    requires forall a :: a in accounts ==> a in bids
    ensures LazyRoundRequest(accounts, bids, rows, delay) == RoundRequest(accounts, bids, rows)
  {
    if delay > 0 {
      LazyRoundRequestIs(accounts, bids, rows, delay - 1);
    }
  }

  /** The same, for the requests of the first |requests| rounds. */
  lemma LazyRoundRequestsAre(accounts: seq<Address>, bids: map<Address, int>, evaluations: seq<seq<seq<real>>>,
                             requests: seq<seq<AuctionEntry>>, delay: nat)
    requires |requests| <= |evaluations| && ValidRounds(accounts, evaluations)
    requires forall a :: a in accounts ==> a in bids
    requires forall r :: 0 <= r < |requests| ==>
      requests[r] == LazyRoundRequest(accounts, bids, evaluations[r], delay)
    ensures forall r :: 0 <= r < |requests| ==>
      RoundOk(accounts, evaluations[r]) && requests[r] == RoundRequest(accounts, bids, evaluations[r])
  {
    forall r | 0 <= r < |requests|
      ensures RoundOk(accounts, evaluations[r]) && requests[r] == RoundRequest(accounts, bids, evaluations[r])
    {
      assert RoundOk(accounts, evaluations[r]);
      LazyRoundRequestIs(accounts, bids, evaluations[r], delay);
    }
  }

  /** The request has one tuple per worker; its addresses are the accounts
      rearranged, its scores never increase, and each bid is the bid
      registered for that address. */
  lemma AuctionRequestFacts(accounts: seq<Address>, bids: map<Address, int>, scores: seq<real>)
    requires |accounts| == |scores|
    requires forall a :: a in accounts ==> a in bids
    ensures var req := AuctionRequest(accounts, bids, scores);
      |req| == |accounts| &&
      multiset(seq(|req|, p requires 0 <= p < |req| => req[p].0)) == multiset(accounts) &&
      (forall p, q :: 0 <= p < q < |req| ==> req[p].1 >= req[q].1) &&
      (forall p :: 0 <= p < |req| ==> req[p].0 in bids && req[p].2 == bids[req[p].0])
  {
    var req := AuctionRequest(accounts, bids, scores);
    var ranked := Ranking.TopK(accounts, scores);
    Ranking.TopKLabelsPermutation(accounts, scores);
    Ranking.TopKNonIncreasing(accounts, scores);
    Ranking.ScaleOrder(ranked.1);
    RankedHaveBids(accounts, bids, scores);
    assert seq(|req|, p requires 0 <= p < |req| => req[p].0) == ranked.0;
    assert forall p :: 0 <= p < |req| ==> req[p].1 == Ranking.Scale(ranked.1)[p];
    assert Ranking.NonIncreasingInts(Ranking.Scale(ranked.1));
  }

  /** Entries built from the ranking of the scores, position by position,
      form the auction request. */
  lemma AuctionRequestIs(accounts: seq<Address>, bids: map<Address, int>, scores: seq<real>,
                         ranked: seq<Address>, rankedScores: seq<real>, data: seq<AuctionEntry>)
    requires |accounts| == |scores| && forall a :: a in accounts ==> a in bids
    requires ranked == Ranking.TopK(accounts, scores).0 && rankedScores == Ranking.TopK(accounts, scores).1
    requires |data| == |ranked|
    requires forall p :: 0 <= p < |ranked| ==>
      ranked[p] in bids && data[p] == (ranked[p], Ranking.Scale(rankedScores)[p], bids[ranked[p]])
    ensures data == AuctionRequest(accounts, bids, scores)
  {
  }

  // ---------------------------------------------------------------- trace

  /** The preimage `Web3.solidityKeccak(['uint8'], [round + 1])` hashes. The
      model gives it only while round + 1 fits in a single byte; the encoding
      of a larger value is not modelled, and is `None` here. */
  function Preimage(round: nat): (r: Option<nat>)
    ensures r.Some? <==> round < 255
    ensures r.Some? ==> r.value == round + 1 && 1 <= r.value < 256
  {
    if round + 1 <= 255 then Some(round + 1) else None
  }

  function SetupEvents(n: nat, numRounds: nat, fspath: string, k: int): seq<Event>
  {
    [DeployContract, InitTask(Deposit, fspath, numRounds, k)] + JoinEvents(n) + [StartTask]
  }

  function JoinEvents(n: nat): seq<Event>
  {
    seq(n, i requires 0 <= i < n => JoinTask(i))
  }

  function TrainEvents(n: nat, round: nat): seq<Event>
  {
    seq(n, i requires 0 <= i < n => Train(i, round))
  }

  /** The evaluate pass over the first `count` workers. */
  function EvalEvents(rows: seq<seq<real>>, round: nat, count: nat): seq<Event>
    requires count <= |rows|
  {
    if count == 0 then []
    else
      var i := count - 1;
      EvalEvents(rows, round, i) + [Evaluate(i, round), Push(i, InsertAt(rows[i], i, -1.0)), UpdateModel(i, round)]
  }

  function SettleEvents(round: nat, request: seq<AuctionEntry>, verdict: bool): seq<Event>
    requires round < 255
  {
    [Auction(round, request), GetWorkerScores(round), GetCommitteeScores(round), DistributeRewards(round),
     VerifyRound(round, Preimage(round).value, verdict), NextRound(round)]
  }

  function RoundEvents(n: nat, round: nat, rows: seq<seq<real>>, request: seq<AuctionEntry>, verdict: bool): seq<Event>
    requires n == |rows| && round < 255
  {
    TrainEvents(n, round) + EvalEvents(rows, round, n) + SettleEvents(round, request, verdict)
  }

  /** The evaluations of one round have the shape and scores `run` relies on. */
  predicate RoundOk(accounts: seq<Address>, rows: seq<seq<real>>)
  {
    |rows| == |accounts| && RoundShaped(rows) && Scoring.WellPosed(RoundMatrix(rows))
  }

  /** The inputs of every round have the shape and scores `run` relies on. */
  predicate ValidRounds(accounts: seq<Address>, evaluations: seq<seq<seq<real>>>)
  {
    (forall r :: 0 <= r < |evaluations| ==> |evaluations[r]| == |accounts|) &&
    forall r {:trigger RoundOk(accounts, evaluations[r])} :: 0 <= r < |evaluations| ==> RoundOk(accounts, evaluations[r])
  }

  /** Three workers' evaluations in which every evaluator is 0.5 away from
      the median of each column it scored. */
  const ZeroSpreadRows: seq<seq<real>> := [[0.0, 1.0], [1.0, 0.0], [0.0, 1.0]]

  /** A round whose d values are all zero is still a round `run` completes.
      Every quality is 0, so the largest d is 0. The division by it gives NaN,
      which `min` passes over, so each overall score is the worker's scaled
      median, here 1.0. */
  lemma ZeroSpreadRound(accounts: seq<Address>)
    requires |accounts| == 3
    ensures RoundOk(accounts, ZeroSpreadRows)
    ensures Scoring.MaxOf(Scoring.LeastAccurate(RoundMatrix(ZeroSpreadRows))) == 0.0
    ensures Scoring.OverallScores(RoundMatrix(ZeroSpreadRows)) == [1.0, 1.0, 1.0]
  {
    RoundMatrixShape(ZeroSpreadRows);
    ZeroSpreadMedians();
    ZeroSpreadLeastAccurate();
    Scoring.MaxOfTriple(0.5, 0.5, 0.5);
    Scoring.MaxOfTriple(0.0, 0.0, 0.0);
  }

  /** Every column of the example round has the off-diagonal scores 0 and 1. */
  lemma ZeroSpreadMedians()
    ensures RoundShaped(ZeroSpreadRows)
    ensures Scoring.Medians(RoundMatrix(ZeroSpreadRows)) == [0.5, 0.5, 0.5]
  {
    var M := RoundMatrix(ZeroSpreadRows);
    RoundMatrixShape(ZeroSpreadRows);
    var m := Scoring.Medians(M);
    forall j | 0 <= j < 3
      ensures m[j] == 0.5
    {
      var c := Delete(Scoring.Column(M, j), j);
      assert c == [c[0], c[1]];
      assert c[0] + c[1] == 1.0;
      Scoring.MedianOfPair(c[0], c[1]);
    }
  }

  /** Every evaluator of the example round is 0.5 away from every median. */
  lemma ZeroSpreadLeastAccurate()
    ensures RoundShaped(ZeroSpreadRows)
    ensures Scoring.LeastAccurate(RoundMatrix(ZeroSpreadRows)) == [0.0, 0.0, 0.0]
  {
    var M := RoundMatrix(ZeroSpreadRows);
    RoundMatrixShape(ZeroSpreadRows);
    ZeroSpreadMedians();
    var m := Scoring.Medians(M);
    var d := Scoring.LeastAccurate(M);
    forall i | 0 <= i < 3
      ensures d[i] == 0.0
    {
      var row := Scoring.QualityRow(M, m, i);
      var j := Scoring.MinOfDelete(row, i);
      assert M[i][j] == 0.0 || M[i][j] == 1.0;
      assert Scoring.Abs(M[i][j] - m[j]) == 0.5;
      assert Scoring.Transform(0.5) == 0.0;
    }
  }

  /** The events of the first |requests| rounds, round r sending requests[r]
      to the auction. */
  function RoundsTrace(n: nat, evaluations: seq<seq<seq<real>>>, requests: seq<seq<AuctionEntry>>,
                       verdicts: seq<bool>): seq<Event>
    requires |requests| <= |evaluations| && |requests| <= |verdicts| && |requests| <= 255
    requires forall r :: 0 <= r < |requests| ==> |evaluations[r]| == n
  {
    if |requests| == 0 then []
    else
      var r := |requests| - 1;
      RoundsTrace(n, evaluations, requests[..r], verdicts) +
      RoundEvents(n, r, evaluations[r], requests[r], verdicts[r])
  }

  // --------------------------------------------------------- trace lemmas

  /** One more round appends that round's events. */
  lemma RoundsTraceAppend(n: nat, evaluations: seq<seq<seq<real>>>, requests: seq<seq<AuctionEntry>>,
                          request: seq<AuctionEntry>, verdicts: seq<bool>)
    requires |requests| < |evaluations| && |requests| < |verdicts| && |requests| < 255
    requires forall r :: 0 <= r <= |requests| ==> |evaluations[r]| == n
    ensures RoundsTrace(n, evaluations, requests + [request], verdicts) ==
      RoundsTrace(n, evaluations, requests, verdicts) +
      RoundEvents(n, |requests|, evaluations[|requests|], request, verdicts[|requests|])
  {
    assert (requests + [request])[..|requests|] == requests;
  }

  /** The evaluate pass, worker by worker: worker i's Evaluate, Push (of its
      row with the sentinel) and UpdateModel, at positions 3i, 3i+1, 3i+2. */
  lemma {:induction false} EvalEventsAt(rows: seq<seq<real>>, round: nat, count: nat)
    requires count <= |rows|
    ensures |EvalEvents(rows, round, count)| == 3 * count
    ensures forall i :: 0 <= i < count ==>
      EvalEvents(rows, round, count)[3 * i] == Evaluate(i, round) &&
      EvalEvents(rows, round, count)[3 * i + 1] == Push(i, InsertAt(rows[i], i, -1.0)) &&
      EvalEvents(rows, round, count)[3 * i + 2] == UpdateModel(i, round)
  {
    if count > 0 {
      var j := count - 1;
      EvalEventsAt(rows, round, j);
      var prev := EvalEvents(rows, round, j);
      var last := [Evaluate(j, round), Push(j, InsertAt(rows[j], j, -1.0)), UpdateModel(j, round)];
      assert EvalEvents(rows, round, count) == prev + last;
      forall i | 0 <= i < count
        ensures (prev + last)[3 * i] == Evaluate(i, round)
        ensures (prev + last)[3 * i + 1] == Push(i, InsertAt(rows[i], i, -1.0))
        ensures (prev + last)[3 * i + 2] == UpdateModel(i, round)
      {
        if i < j {
          assert (prev + last)[3 * i] == prev[3 * i];
          assert (prev + last)[3 * i + 1] == prev[3 * i + 1];
          assert (prev + last)[3 * i + 2] == prev[3 * i + 2];
        }
      }
    }
  }

  /** Every event of the evaluate pass sits in one of the three slots of the
      worker it names. */
  lemma EvalEventsCovered(rows: seq<seq<real>>, round: nat, count: nat, p: nat)
    requires count <= |rows| && p < 3 * count
    ensures |EvalEvents(rows, round, count)| == 3 * count
    ensures var e := EvalEvents(rows, round, count)[p];
      (e.Evaluate? && p == 3 * e.worker) || (e.Push? && p == 3 * e.worker + 1) ||
      (e.UpdateModel? && p == 3 * e.worker + 2)
  {
    EvalEventsAt(rows, round, count);
    var i := p / 3;
    assert p == 3 * i || p == 3 * i + 1 || p == 3 * i + 2;
  }

  /** In the evaluate pass each worker's row is pushed exactly once, with the
      sentinel at the worker's own position, and before its UpdateModel. */
  lemma PushedOnce(rows: seq<seq<real>>, round: nat, i: nat)
    requires RoundShaped(rows) && i < |rows|
    ensures var E := EvalEvents(rows, round, |rows|);
      |E| == 3 * |rows| &&
      (forall p :: 0 <= p < |E| && E[p].Push? && E[p].worker == i ==> p == 3 * i + 1) &&
      E[3 * i + 1] == Push(i, InsertAt(rows[i], i, -1.0)) &&
      (forall p :: 0 <= p < |E| && E[p].UpdateModel? && E[p].worker == i ==> p == 3 * i + 2) &&
      |E[3 * i + 1].row| == |rows| && E[3 * i + 1].row[i] == -1.0 && Delete(E[3 * i + 1].row, i) == rows[i]
  {
    var E := EvalEvents(rows, round, |rows|);
    EvalEventsAt(rows, round, |rows|);
    InsertAtSentinel(rows[i], i, -1.0);
    forall p | 0 <= p < |E|
      ensures E[p].Push? && E[p].worker == i ==> p == 3 * i + 1
      ensures E[p].UpdateModel? && E[p].worker == i ==> p == 3 * i + 2
    {
      EvalEventsCovered(rows, round, |rows|, p);
    }
  }

  /** Where each kind of event of a round sits: training first, then the
      evaluate pass, then the six settlement calls. */
  lemma RoundLayout(n: nat, round: nat, rows: seq<seq<real>>, request: seq<AuctionEntry>, verdict: bool, p: nat)
    requires n == |rows| && round < 255
    requires p < 4 * n + 6
    ensures var R := RoundEvents(n, round, rows, request, verdict);
      |R| == 4 * n + 6 &&
      (R[p].Train? <==> p < n) &&
      (R[p].Evaluate? ==> n <= p < 4 * n) &&
      (R[p].NextRound? <==> p == 4 * n + 5)
  {
    var R := RoundEvents(n, round, rows, request, verdict);
    var E := EvalEvents(rows, round, n);
    EvalEventsAt(rows, round, n);
    if p < n {
      assert R[p] == Train(p, round);
    } else if p < 4 * n {
      EvalEventsCovered(rows, round, n, p - n);
      assert R[p] == E[p - n];
    } else {
      assert R[p] == SettleEvents(round, request, verdict)[p - 4 * n];
    }
  }

  /** Within a round, all workers train, in index order, before any worker
      evaluates. */
  lemma TrainBeforeEvaluate(n: nat, round: nat, rows: seq<seq<real>>, request: seq<AuctionEntry>, verdict: bool)
    requires n == |rows| && round < 255
    ensures var R := RoundEvents(n, round, rows, request, verdict);
      (forall i :: 0 <= i < n ==> R[i] == Train(i, round)) &&
      (forall p, q :: 0 <= p < |R| && 0 <= q < |R| && R[p].Train? && R[q].Evaluate? ==> p < q)
  {
    var R := RoundEvents(n, round, rows, request, verdict);
    EvalEventsAt(rows, round, n);
    forall p | 0 <= p < |R|
      ensures R[p].Train? ==> p < n
      ensures R[p].Evaluate? ==> n <= p
    {
      RoundLayout(n, round, rows, request, verdict, p);
    }
  }

  /** A round ends with the auction, the rewards, the verification of the
      preimage round + 1, and exactly one NextRound, whatever the verdict. */
  lemma SettleOrder(n: nat, round: nat, rows: seq<seq<real>>, request: seq<AuctionEntry>, verdict: bool)
    requires n == |rows| && round < 255
    ensures var R := RoundEvents(n, round, rows, request, verdict);
      |R| == 4 * n + 6 &&
      R[|R| - 6] == Auction(round, request) &&
      R[|R| - 3] == DistributeRewards(round) &&
      R[|R| - 2] == VerifyRound(round, round + 1, verdict) &&
      R[|R| - 1] == NextRound(round) &&
      (forall p :: 0 <= p < |R| && R[p].NextRound? ==> p == |R| - 1)
  {
    var R := RoundEvents(n, round, rows, request, verdict);
    EvalEventsAt(rows, round, n);
    forall p | 0 <= p < |R|
      ensures R[p].NextRound? ==> p == |R| - 1
    {
      RoundLayout(n, round, rows, request, verdict, p);
    }
  }

  function CountNextRounds(t: seq<Event>): nat
  {
    if |t| == 0 then 0 else CountNextRounds(t[..|t| - 1]) + (if t[|t| - 1].NextRound? then 1 else 0)
  }

  lemma {:induction false} CountNextRoundsAppend(a: seq<Event>, b: seq<Event>)
    ensures CountNextRounds(a + b) == CountNextRounds(a) + CountNextRounds(b)
    decreases |b|
  {
    if |b| > 0 {
      var b' := b[..|b| - 1];
      assert (a + b)[..|a + b| - 1] == a + b';
      CountNextRoundsAppend(a, b');
    } else {
      assert a + b == a;
    }
  }

  lemma {:induction false} CountNextRoundsNone(t: seq<Event>)
    requires forall p :: 0 <= p < |t| ==> !t[p].NextRound?
    ensures CountNextRounds(t) == 0
  {
    if |t| > 0 {
      CountNextRoundsNone(t[..|t| - 1]);
    }
  }

  /** Each round holds exactly one NextRound. */
  lemma OneNextRoundPerRound(n: nat, round: nat, rows: seq<seq<real>>, request: seq<AuctionEntry>, verdict: bool)
    requires n == |rows| && round < 255
    ensures CountNextRounds(RoundEvents(n, round, rows, request, verdict)) == 1
  {
    var R := RoundEvents(n, round, rows, request, verdict);
    SettleOrder(n, round, rows, request, verdict);
    CountNextRoundsNone(R[..|R| - 1]);
  }

  /** The rounds hold one NextRound each. */
  lemma {:induction false} RoundsCount(n: nat, evaluations: seq<seq<seq<real>>>, requests: seq<seq<AuctionEntry>>,
                                       verdicts: seq<bool>)
    requires |requests| <= |evaluations| && |requests| <= |verdicts| && |requests| <= 255
    requires forall r :: 0 <= r < |requests| ==> |evaluations[r]| == n
    ensures CountNextRounds(RoundsTrace(n, evaluations, requests, verdicts)) == |requests|
  {
    if |requests| > 0 {
      var r := |requests| - 1;
      RoundsCount(n, evaluations, requests[..r], verdicts);
      OneNextRoundPerRound(n, r, evaluations[r], requests[r], verdicts[r]);
      CountNextRoundsAppend(RoundsTrace(n, evaluations, requests[..r], verdicts),
                            RoundEvents(n, r, evaluations[r], requests[r], verdicts[r]));
    }
  }

  /** The setup holds no NextRound, so a run of numRounds rounds calls
      next_round exactly numRounds times. */
  lemma RunNextRounds(n: nat, numRounds: nat, fspath: string, k: int, evaluations: seq<seq<seq<real>>>,
                      requests: seq<seq<AuctionEntry>>, verdicts: seq<bool>)
    requires numRounds == |requests| == |evaluations| == |verdicts| <= 255
    requires forall r :: 0 <= r < numRounds ==> |evaluations[r]| == n
    ensures CountNextRounds(SetupEvents(n, numRounds, fspath, k) +
      RoundsTrace(n, evaluations, requests, verdicts)) == numRounds
  {
    CountNextRoundsNone(SetupEvents(n, numRounds, fspath, k));
    RoundsCount(n, evaluations, requests, verdicts);
    CountNextRoundsAppend(SetupEvents(n, numRounds, fspath, k), RoundsTrace(n, evaluations, requests, verdicts));
  }

  // ------------------------------------------------------------------ driver

  class Application {
    const numWorkers: nat
    const numRounds: nat
    const fspath: string
    const numEvil: nat
    const k: int
    var workers: seq<Worker>
    var workerDict: map<nat, Address>
    var workerBidDict: map<Address, int>
    var requester: Requester?
    /** The calls made into workers and into the ledger, oldest first. */
    var trace: seq<Event>

    /** Nothing registered, no requester, nothing called yet. */
    ghost predicate Unstarted()
      reads this
    {
      workers == [] && workerDict == map[] && workerBidDict == map[] && requester == null && trace == []
    }

    /** The registries describe the given accounts and prices. */
    ghost predicate Registered(accounts: seq<Address>, prices: seq<int>)
      reads this
    {
      |accounts| == |prices| == numWorkers &&
      workers == Registry(accounts, prices, numEvil) &&
      (forall i: nat :: i in workerDict <==> i < numWorkers) &&
      (forall i: nat :: i < numWorkers ==> workerDict[i] == accounts[i]) &&
      workerBidDict == BidMap(accounts, prices)
    }

    /** The requester holds a matrix sized for the registered workers. */
    ghost predicate Ready()
      reads this, requester
    {
      requester != null && requester.Valid() && requester.started &&
      requester.numWorkers == numWorkers && requester.scoreMatrix != null
    }

    constructor (numWorkers: nat, numRounds: nat, fspath: string, numEvil: nat := 0, k: int := 1)
      ensures this.numWorkers == numWorkers && this.numRounds == numRounds && this.fspath == fspath
      ensures this.numEvil == numEvil && this.k == k
      ensures Unstarted()
    {
      this.numWorkers := numWorkers;
      this.numRounds := numRounds;
      this.fspath := fspath;
      this.numEvil := numEvil;
      this.k := k;
      workers := [];
      workerDict := map[];
      workerBidDict := map[];
      requester := null;
      trace := [];
    }

    /** `run`: the whole task, from deployment to the last round. The ghost
        `requests` are the auction requests the rounds send, each the one the
        round's evaluations determine. */
    method Run(accounts: seq<Address>, prices: seq<int>, evaluations: seq<seq<seq<real>>>, verdicts: seq<bool>)
      returns (ghost requests: seq<seq<AuctionEntry>>)
      requires Unstarted()
      requires |accounts| == |prices| == numWorkers
      requires |evaluations| == |verdicts| == numRounds <= 255
      requires ValidRounds(accounts, evaluations)
      modifies this
      ensures Registered(accounts, prices)
      ensures |requests| == numRounds
      ensures forall r :: 0 <= r < numRounds ==>
        RoundOk(accounts, evaluations[r]) && requests[r] == RoundRequest(accounts, BidMap(accounts, prices), evaluations[r])
      ensures trace == SetupEvents(numWorkers, numRounds, fspath, k) +
        RoundsTrace(numWorkers, evaluations, requests, verdicts)
    {
      requester := new Requester();
      trace := trace + [DeployContract, InitTask(Deposit, fspath, numRounds, k)];
      Register(accounts, prices);
      requester.StartTask(|workers|);
      trace := trace + [StartTask];
      assert trace == SetupEvents(numWorkers, numRounds, fspath, k);
      requests := PlayRounds(accounts, prices, evaluations, verdicts);
      LazyRoundRequestsAre(accounts, workerBidDict, evaluations, requests, numWorkers + 2);
    }

    /** The round loop of `run`: round after round, each appending its events
        and sending its own request. */
    method PlayRounds(ghost accounts: seq<Address>, ghost prices: seq<int>,
                      evaluations: seq<seq<seq<real>>>, verdicts: seq<bool>)
      returns (ghost requests: seq<seq<AuctionEntry>>)
      requires |evaluations| == |verdicts| == numRounds <= 255
      requires Registered(accounts, prices) && ValidRounds(accounts, evaluations)
      requires Ready() && requester.written == {}
      modifies this, requester, requester.scoreMatrix
      ensures Registered(accounts, prices)
      ensures |requests| == numRounds
      ensures forall r :: 0 <= r < numRounds ==>
        requests[r] == LazyRoundRequest(accounts, workerBidDict, evaluations[r], numWorkers + 2)
      ensures trace == old(trace) + RoundsTrace(numWorkers, evaluations, requests, verdicts)
    {
      requests := [];
      var round := 0;
      while round < numRounds
        invariant 0 <= round <= numRounds
        invariant Registered(accounts, prices)
        invariant requester == old(requester) && Ready() && requester.written == {}
        invariant requester.scoreMatrix == old(requester.scoreMatrix) || fresh(requester.scoreMatrix)
        invariant |requests| == round
        invariant forall r :: 0 <= r < round ==>
          requests[r] == LazyRoundRequest(accounts, workerBidDict, evaluations[r], numWorkers + 2)
        invariant trace == old(trace) + RoundsTrace(numWorkers, evaluations, requests, verdicts)
      {
        ghost var played := RoundsTrace(numWorkers, evaluations, requests, verdicts);
        var request := PlayRound(round, accounts, prices, evaluations, verdicts);
        RoundsTraceAppend(numWorkers, evaluations, requests, request, verdicts);
        AppendAssoc(old(trace), played, RoundEvents(numWorkers, round, evaluations[round], request, verdicts[round]));
        assert trace == old(trace) + RoundsTrace(numWorkers, evaluations, requests + [request], verdicts);
        assert forall r :: 0 <= r < round ==> (requests + [request])[r] == requests[r];
        requests := requests + [request];
        round := round + 1;
      }
    }

    /** One round: training, evaluation, settlement. */
    method PlayRound(round: nat, ghost accounts: seq<Address>, ghost prices: seq<int>,
                     evaluations: seq<seq<seq<real>>>, verdicts: seq<bool>)
      returns (request: seq<AuctionEntry>)
      requires round < |evaluations| && round < |verdicts| && round < 255
      requires Registered(accounts, prices) && ValidRounds(accounts, evaluations)
      requires Ready() && requester.written == {}
      modifies this, requester, requester.scoreMatrix
      ensures Registered(accounts, prices)
      ensures request == LazyRoundRequest(accounts, workerBidDict, evaluations[round], numWorkers + 2)
      ensures trace == old(trace) + RoundEvents(numWorkers, round, evaluations[round], request, verdicts[round])
      ensures requester == old(requester) && Ready() && fresh(requester.scoreMatrix) && requester.written == {}
    {
      var rows := evaluations[round];
      assert RoundOk(accounts, rows);
      TrainAndEvaluate(round, rows);
      request := SettleRound(round, accounts, prices, rows, verdicts[round]);
      assert trace == old(trace) + (TrainEvents(numWorkers, round) + EvalEvents(rows, round, numWorkers)) +
        SettleEvents(round, request, verdicts[round]);
    }

    /** The first two passes of a round; the matrix they leave is the round
        matrix of the evaluations. */
    method TrainAndEvaluate(round: nat, rows: seq<seq<real>>)
      requires Ready() && requester.written == {}
      requires |rows| == numWorkers && RoundShaped(rows)
      modifies this, requester, requester.scoreMatrix
      ensures trace == old(trace) + (TrainEvents(numWorkers, round) + EvalEvents(rows, round, numWorkers))
      ensures workers == old(workers) && workerDict == old(workerDict) && workerBidDict == old(workerBidDict)
      ensures requester == old(requester) && Ready() && requester.Complete()
      ensures requester.scoreMatrix == old(requester.scoreMatrix)
      ensures Grid(requester.scoreMatrix) == RoundMatrix(rows)
    {
      TrainPass(round);
      EvaluatePass(round, rows);
    }

    /** The registration loop: one worker per account, evil exactly when its
        index is below numEvil, recorded in both dictionaries, then joined. */
    method Register(accounts: seq<Address>, prices: seq<int>)
      requires |accounts| == |prices| == numWorkers
      requires workers == [] && workerDict == map[] && workerBidDict == map[]
      modifies this
      ensures Registered(accounts, prices)
      ensures requester == old(requester)
      ensures trace == old(trace) + JoinEvents(numWorkers)
    {
      var i := 0;
      while i < numWorkers
        invariant 0 <= i <= numWorkers
        invariant requester == old(requester)
        invariant workers == Registry(accounts[..i], prices[..i], numEvil)
        invariant forall j: nat :: j in workerDict <==> j < i
        invariant forall j: nat :: j < i ==> workerDict[j] == accounts[j]
        invariant workerBidDict == BidMap(accounts[..i], prices[..i])
        invariant trace == old(trace) + JoinEvents(i)
      {
        RegistrationStep(accounts, prices, numEvil, i);
        AppendAssoc(old(trace), JoinEvents(i), [JoinTask(i)]);
        workers := workers + [Worker(i, accounts[i], i < numEvil, prices[i])];
        workerDict := workerDict[i := workers[i].address];
        workerBidDict := workerBidDict[workers[i].address := workers[i].bid];
        trace := trace + [JoinTask(i)];
        i := i + 1;
      }
      assert accounts[..numWorkers] == accounts && prices[..numWorkers] == prices;
    }

    /** The training pass of one round: every worker trains, in index order. */
    method TrainPass(round: nat)
      modifies this
      ensures trace == old(trace) + TrainEvents(numWorkers, round)
      ensures workers == old(workers) && workerDict == old(workerDict) && workerBidDict == old(workerBidDict)
      ensures requester == old(requester)
    {
      var idx := 0;
      while idx < numWorkers
        invariant 0 <= idx <= numWorkers
        invariant trace == old(trace) + TrainEvents(idx, round)
        invariant workers == old(workers) && workerDict == old(workerDict) && workerBidDict == old(workerBidDict)
        invariant requester == old(requester)
      {
        trace := trace + [Train(idx, round)];
        idx := idx + 1;
      }
    }

    /** The evaluate pass of one round: each worker's scores, with -1 inserted
        at its own index, become its row of the matrix; afterwards every row
        has been written and the matrix is the round matrix. */
    method EvaluatePass(round: nat, rows: seq<seq<real>>)
      requires Ready() && requester.written == {}
      requires |rows| == numWorkers && RoundShaped(rows)
      modifies this, requester, requester.scoreMatrix
      ensures trace == old(trace) + EvalEvents(rows, round, numWorkers)
      ensures workers == old(workers) && workerDict == old(workerDict) && workerBidDict == old(workerBidDict)
      ensures requester == old(requester) && Ready() && requester.Complete()
      ensures requester.scoreMatrix == old(requester.scoreMatrix)
      ensures Grid(requester.scoreMatrix) == RoundMatrix(rows)
    {
      var n := numWorkers;
      var matrix := requester.scoreMatrix;
      RoundMatrixShape(rows);
      var idx := 0;
      while idx < n
        invariant 0 <= idx <= n
        invariant trace == old(trace) + EvalEvents(rows, round, idx)
        invariant workers == old(workers) && workerDict == old(workerDict) && workerBidDict == old(workerBidDict)
        invariant requester == old(requester) && Ready() && requester.scoreMatrix == matrix
        invariant forall p :: p in requester.written <==> 0 <= p < idx
        invariant forall p, q :: 0 <= p < idx && 0 <= q < n ==> matrix[p, q] == RoundMatrix(rows)[p][q]
      {
        var scores := rows[idx];
        trace := trace + [Evaluate(idx, round)];
        var row := InsertAt(scores, idx, -1.0);
        InsertAtSentinel(scores, idx, -1.0);
        var ok := requester.PushScores(idx, row);
        assert ok;
        trace := trace + [Push(idx, row)];
        trace := trace + [UpdateModel(idx, round)];
        idx := idx + 1;
      }
      forall p | 0 <= p < n
        ensures Grid(matrix)[p] == RoundMatrix(rows)[p]
      {
        assert forall q :: 0 <= q < n ==> Grid(matrix)[p][q] == matrix[p, q];
      }
    }

    /** The end of one round: score, rank, scale and auction, the two ledger
        reads, rewards, verification of the preimage round + 1, and the next
        round, whatever the verification returned. */
    method SettleRound(round: nat, ghost accounts: seq<Address>, ghost prices: seq<int>,
                       ghost rows: seq<seq<real>>, verdict: bool)
      returns (request: seq<AuctionEntry>)
      requires round < 255
      requires Registered(accounts, prices)
      requires Ready() && requester.Complete()
      requires |rows| == numWorkers && Scoring.WellPosed(RoundMatrix(rows))
      requires Grid(requester.scoreMatrix) == RoundMatrix(rows)
      modifies this, requester
      ensures workers == old(workers) && workerDict == old(workerDict) && workerBidDict == old(workerBidDict)
      ensures request == LazyRoundRequest(accounts, workerBidDict, rows, numWorkers + 2)
      ensures trace == old(trace) + SettleEvents(round, request, verdict)
      ensures requester == old(requester) && Ready() && fresh(requester.scoreMatrix) && requester.written == {}
    {
      request := ScoreRound(accounts, prices, rows);
      var preimage := Preimage(round);
      var calls := [Auction(round, request), GetWorkerScores(round), GetCommitteeScores(round),
        DistributeRewards(round), VerifyRound(round, preimage.value, verdict)];
      trace := trace + calls;
      requester.NextRound();
      trace := trace + [NextRound(round)];
      assert calls + [NextRound(round)] == SettleEvents(round, request, verdict);
    }

    /** The scoring steps of `run`'s round body, from `get_score_matrix` to
        `reverse_auction`: the overall scores of the complete matrix, ranked, scaled and sent as
        the auction request of the round. */
    method ScoreRound(ghost accounts: seq<Address>, ghost prices: seq<int>, ghost rows: seq<seq<real>>)
      returns (request: seq<AuctionEntry>)
      requires Registered(accounts, prices)
      requires Ready() && requester.Complete()
      requires |rows| == numWorkers && Scoring.WellPosed(RoundMatrix(rows))
      requires Grid(requester.scoreMatrix) == RoundMatrix(rows)
      ensures request == LazyRoundRequest(accounts, workerBidDict, rows, numWorkers + 2)
    {
      var matrix := requester.GetScoreMatrix();
      var overallScores := requester.CalcOverallScores(matrix, numWorkers);
      request := RankAndAuction(accounts, prices, overallScores);
      LazyRoundRequestIs(accounts, workerBidDict, rows, numWorkers + 2);
    }

    /** The ranking and auction steps of `run`'s round body, `compute_top_k`
        to `reverse_auction`: the workers' addresses in registration order are ranked
        by their overall scores, the ranked scores are scaled, and the auction
        request is built; it cannot fail, since every ranked address has a
        bid. */
    method RankAndAuction(ghost accounts: seq<Address>, ghost prices: seq<int>, overallScores: seq<real>)
      returns (request: seq<AuctionEntry>)
      requires requester != null
      requires Registered(accounts, prices) && |overallScores| == numWorkers
      ensures request == AuctionRequest(accounts, workerBidDict, overallScores)
    {
      var addresses := DictValues(workerDict, numWorkers);
      assert addresses == accounts;
      var topKAddresses, topKScores := requester.ComputeTopK(addresses, overallScores);
      var scaled := Ranking.Scale(topKScores);
      RankedHaveBids(accounts, workerBidDict, overallScores);
      var result := requester.ReverseAuction(scaled, topKAddresses, workerBidDict);
      assert result.Ok?;
      AuctionRequestIs(accounts, workerBidDict, overallScores, topKAddresses, topKScores, result.value);
      request := result.value;
    }
  }
}
