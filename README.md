# Round coordinator of the federated-learning requester, in Dafny

This project models the round coordinator of a multi-round federated-learning
task whose incentives are settled on a ledger. It covers two parts of the
client:

- `Requester` (client/Requester.py) keeps the round bookkeeping. It holds an
  n x n score matrix. Each worker pushes one row into it; the matrix is
  recreated when training starts and at every round change. The requester
  turns the matrix into one overall score per worker with the "blockflow"
  procedure, ranks the workers by a selection sort, and builds the
  `(address, score, bid)` request of the reverse auction.
- `Application.run` (client/Application.py) is the driver. It registers the
  workers and their bids and starts training. Then, round after round, it
  has every worker train, has every worker evaluate the others and push its
  row with a -1 sentinel at its own position, scores and ranks the workers,
  scales the ranked scores by 1000, sends the auction request, distributes
  rewards, verifies the round against the preimage round + 1, and advances
  to the next round.

Files:

- `seqs.dfy` (module `Seqs`): `np.delete` on a vector, plus small sequence
  helpers.
- `scoring.dfy` (module `Scoring`): the blockflow procedure as pure functions
  over a matrix of reals: `np.median` as a sort-based median, column
  medians, the quality transform, the least accurate evaluation, and the
  overall scores. The module also proves self-exclusion and the bounds.
- `ranking.dfy` (module `Ranking`): `compute_top_k` as the function `TopK`,
  the loop state of its selection sort, and the permutation, order and tie
  lemmas. It also holds the `int(s * 1000)` scaling.
- `requester.dfy` (module `RequesterModel`): the `Requester` class. Its
  score matrix is an `array2<real>`, and a ghost set records which rows
  have been pushed. The module has one method per operation. The loops of
  `calc_overall_scores`, `compute_top_k` and `reverse_auction` are proved
  against the functions above.
- `application.dfy` (module `ApplicationModel`): the `Application` class
  with its registries, its requester, and a trace of the calls it makes into
  workers and the ledger. It also holds the round request each round sends,
  and lemmas on the order of events in the trace.

The outside world enters `Application.Run` as parameters:

- the accounts and prices the environment supplies;
- each worker's evaluation scores for each round;
- the verdict of each round's verification.

Every call into a worker or into the ledger is recorded as an `Event` in
`trace`.

## Model

| member | source | states |
|---|---|---|
| `RequesterModel.Requester.constructor` | client/Requester.py:12-17 | a new requester has no matrix (`score_matrix = None`) and no pushed row, and is not started: its worker count, unset in the source until `start_task`, starts at 0 and may not yet be read |
| `RequesterModel.Requester.InitScoreMatrix` | client/Requester.py:59-60 | callable only once `start_task` has set `num_workers`; the matrix is replaced by a fresh `num_workers` x `num_workers` array, no row of it counts as written, and the worker count is kept |
| `RequesterModel.Requester.StartTask` | client/Requester.py:62-77 | the worker count becomes the number of joined workers, which marks the requester started, and a fresh, unwritten matrix of that size is created |
| `RequesterModel.Requester.NextRound` | client/Requester.py:79-93 | callable only once `start_task` has run; the matrix is recreated, so no row written in the previous round survives, and the worker count is kept |
| `RequesterModel.Requester.PushScores` | client/Requester.py:95-98 | the push succeeds exactly when the index is in [-n, n) and the row has n values or a single value. On success the wrapped row becomes the values (a single value is broadcast), every other row is unchanged, and the row is marked written, so a repeated index overwrites. Otherwise nothing changes |
| `RequesterModel.Requester.GetScoreMatrix` | client/Requester.py:100-101 | hands back the requester's own matrix object, not a copy, so what `run` scores is exactly what the pushes wrote |
| `RequesterModel.Requester.CalcOverallScores` | client/Requester.py:106-145 | returns one value per worker, equal to the blockflow overall scores `Scoring.OverallScores` of the matrix's contents; when scoring the requester's own matrix, every row must have been pushed |
| `RequesterModel.MedianScores` | client/Requester.py:117-120 | the loop yields, for each column i, the median of the column with entry i deleted |
| `RequesterModel.DivideAll` | client/Requester.py:122-126 | each median divided by the divisor, same length and order; when the divisor is the largest median, one result is exactly 1.0, and if that median is positive no result exceeds 1.0 |
| `RequesterModel.QualityScores` | client/Requester.py:128-132 | the fresh `t_scaled` array holds, for every i != j, the transform of abs(s[i][j] - m[j]) and -1 on the diagonal (row i equals `Scoring.QualityRow`) |
| `RequesterModel.LeastAccurateScores` | client/Requester.py:134-137 | d[i] is the smallest entry of row i of `t_scaled` with entry i deleted |
| `RequesterModel.PairwiseMin` | client/Requester.py:139-143 | overall[i] is min(m_scaled[i], d[i] / max_d) for every i; when max_d is 0 every quotient is NaN and Python's `min` keeps m_scaled[i] (`Scoring.MinScaled`) |
| `RequesterModel.Requester.ComputeTopK` | client/Requester.py:149-163 | the selection loop returns the ranking `Ranking.TopK`; both lists have the input's length, the scores never increase, and the (address, score) pairs are a permutation of the input pairs |
| `RequesterModel.Requester.ReverseAuction` | client/Requester.py:165-174 | succeeds exactly when every candidate has a score and a bid, returning one tuple per candidate, in candidate order, with the bid looked up by address; otherwise fails at the first candidate without a score (IndexError) or without a bid (KeyError) |
| `Seqs.Delete` | client/Requester.py:119 | `np.delete`: one entry shorter, the entries before i kept and the later ones shifted down by one |
| `Seqs.DeleteMultiset` | client/Requester.py:160-161 | deleting position i removes exactly the value s[i] from the values |
| `Scoring.MaxOfIn` | client/Requester.py:122 | the largest value of a non-empty vector is one of its values |
| `Scoring.MaxOfBound` | client/Requester.py:122 | no value exceeds the largest |
| `Scoring.MinOfIn` | client/Requester.py:137 | the smallest value of a non-empty vector is one of its values |
| `Scoring.MinOfBound` | client/Requester.py:137 | no value is below the smallest |
| `Scoring.InsertMultiset` | client/Requester.py:120 | the insertion step of the median's sort adds exactly x to the values |
| `Scoring.InsertAscending` | client/Requester.py:120 | inserting into an ascending vector keeps it ascending |
| `Scoring.SortSpec` | client/Requester.py:120 | the sort behind the median yields an ascending permutation of the values |
| `Scoring.MedianWithin` | client/Requester.py:120 | the median lies between the smallest and the largest value |
| `Scoring.WithinMinMax` | client/Requester.py:120 | every value of a vector lies between its smallest and its largest |
| `Scoring.MedianOfPair` | client/Requester.py:120 | the median of two values is their mean, in either order |
| `Scoring.MedianOfReceived` | client/Requester.py:117-120 | m[j] is the median of exactly the n-1 scores the other workers gave worker j, in evaluator order |
| `Scoring.ReceivedIgnoresDiagonal` | client/Requester.py:118-119 | the scores a worker received do not depend on any diagonal entry |
| `Scoring.MediansIgnoreDiagonal` | client/Requester.py:117-120 | two matrices that agree off the diagonal have the same medians |
| `Scoring.QualityRowIgnoresDiagonal` | client/Requester.py:128-132 | two matrices that agree off the diagonal have the same `t_scaled` rows |
| `Scoring.LeastAccurateIgnoresDiagonal` | client/Requester.py:134-137 | two matrices that agree off the diagonal have the same d |
| `Scoring.SelfExclusion` | client/Requester.py:106-145 | altering any self-evaluation entry changes neither the medians, nor d, nor whether the scores are defined, nor the overall scores |
| `Scoring.TransformBounds` | client/Requester.py:132 | max(0, (0.5-t)/(0.5+t)) lies in [0,1], is 1 exactly at t = 0, is 0 exactly from t = 0.5 on, and never increases with t |
| `Scoring.QualityBounds` | client/Requester.py:128-132 | every off-diagonal `t_scaled` entry lies in [0,1] |
| `Scoring.MinOfDelete` | client/Requester.py:136-137 | the minimum of a row with entry i deleted is some other entry of the row and is at most every other entry |
| `Scoring.LeastAccurateBounds` | client/Requester.py:134-137 | d[i] lies in [0,1], is at most every off-diagonal quality of evaluator i, and equals one of them |
| `Scoring.MedianBounds` | client/Requester.py:117-120 | when every off-diagonal score lies in [lo, hi], so does every median |
| `Scoring.ScaledByMax` | client/Requester.py:122-126 | dividing by the largest median gives exactly 1.0 at that median; with a positive largest median no scaled median exceeds 1.0, as the comment on the scaling promises, while with a negative one every scaled median is at least 1.0 |
| `Scoring.ScaledBelowMax` | client/Requester.py:122-126 | each value divided by the largest is at most 1 for a positive largest and at least 1 for a negative one |
| `Scoring.LeastAccurateGivenBounds` | client/Requester.py:134-137 | every d[i] lies in [0,1], whatever medians the deviations are measured against |
| `Scoring.OverallBounds` | client/Requester.py:122-143 | with non-negative medians, each overall score lies in [0,1] and is at most m[i]/max(m); when max(d) is positive it is also at most d[i]/max(d) and equals the smaller of the two; when max(d) is 0, every d[i] is 0 and the score is m[i]/max(m) |
| `Ranking.FirstIndexOf` | client/Requester.py:157 | `np.where(s == v)[0][0]`: a position holding v with no earlier position holding v |
| `Ranking.SelectOnceKeepsEventual` | client/Requester.py:156-161 | one pass of the loop body does not change what the loop will produce |
| `Ranking.SelectNRanks` | client/Requester.py:156-161 | after any number of passes, the output so far followed by the ranking of the remainder is the full ranking |
| `Ranking.SelectAllRanks` | client/Requester.py:156-163 | the loop run to the end yields exactly the ranking |
| `Ranking.TopKPermutation` | client/Requester.py:149-163 | the ranked (address, score) pairs are a permutation of the input pairs |
| `Ranking.TopKScoresPermutation` | client/Requester.py:149-163 | the ranked scores are a permutation of the input scores |
| `Ranking.TopKLabelsPermutation` | client/Requester.py:149-163 | the ranked addresses are a permutation of the input addresses |
| `Ranking.TopKNonIncreasing` | client/Requester.py:149-163 | the ranked scores never increase |
| `Ranking.TopKFollowsTags` | client/Requester.py:158-161 | tags deleted alongside the addresses come out in the same ranked order, each naming the input position its address and score came from |
| `Ranking.PickedFirstAmongEquals` | client/Requester.py:157 | the picked maximum carries a smaller tag than every later-ranked entry with the same score |
| `Ranking.LaterEqualHasLargerTag` | client/Requester.py:157 | a remaining entry equal to the picked maximum held a larger tag |
| `Ranking.TopKStable` | client/Requester.py:157 | among equal ranked scores, the entry from the earlier input position comes first |
| `Ranking.RankingOrder` | client/Requester.py:149-163 | the ranking is a reordering of the input positions, with non-increasing scores and ties in input order |
| `Ranking.TruncateMonotone` | client/Application.py:69 | `int()` truncation never inverts an order |
| `Ranking.ScaleOrder` | client/Application.py:69 | `int(s * 1000)` keeps a non-increasing list non-increasing, never swaps two scores, and maps [0,1] into [0,1000] |
| `ApplicationModel.Application.constructor` | client/Application.py:15-25 | stores the worker count, rounds, path, evil count and k; the registries and the trace start empty and there is no requester |
| `ApplicationModel.Application.Run` | client/Application.py:27-85 | afterwards the registries describe the accounts and prices; round r sends the round request its evaluations determine; the trace is the setup calls followed by every round's events |
| `ApplicationModel.Application.Register` | client/Application.py:38-44 | worker i gets account i and price i and is evil exactly when i < num_evil; `worker_dict[i]` is account i; `worker_bid_dict` is the bid map of the accounts; each worker joins in index order |
| `ApplicationModel.RegistrationStep` | client/Application.py:38-44 | registering account i extends the worker list, the bid map and the join calls built from the first i accounts |
| `ApplicationModel.BidMap` | client/Application.py:43 | every registered account has a bid |
| `ApplicationModel.BidMapKeys` | client/Application.py:43 | exactly the registered accounts have a bid |
| `ApplicationModel.BidMapLookup` | client/Application.py:43 | with distinct accounts, account i's bid is price i |
| `ApplicationModel.DictValues` | client/Application.py:67 | for a dictionary filled with keys 0..n-1 in that order, `list(worker_dict.values())` is the n values in key order, so position i holds worker i's address |
| `ApplicationModel.Application.PlayRounds` | client/Application.py:48-85 | the round loop runs `num_rounds` rounds, round r sending the request of its own evaluations and appending its own events |
| `ApplicationModel.Application.PlayRound` | client/Application.py:48-85 | one round appends its training, evaluate and settlement events and sends the request of its evaluations; afterwards the requester holds a fresh, unwritten matrix |
| `ApplicationModel.Application.TrainAndEvaluate` | client/Application.py:49-64 | the two passes of a round leave a fully written matrix equal to the round matrix of the evaluations |
| `ApplicationModel.Application.TrainPass` | client/Application.py:49-53 | every worker trains, in index order, and nothing else changes |
| `ApplicationModel.Application.EvaluatePass` | client/Application.py:57-64 | each worker evaluates, pushes its scores with -1 inserted at its own index, then updates its model; afterwards every row has been pushed and the matrix is the round matrix |
| `ApplicationModel.InsertAtSentinel` | client/Application.py:61 | `insert(idx, -1)` gives a list one longer with -1 at idx whose deletion gives the scores back; past the end it appends |
| `ApplicationModel.RoundMatrixShape` | client/Application.py:57-63 | the pushed rows form a square matrix with -1 on the diagonal and worker i's scores, in order, off it |
| `ApplicationModel.Application.SettleRound` | client/Application.py:66-85 | a round ends with the auction, the two ledger reads, rewards, verification of preimage round + 1, and one next-round call whatever the verdict, leaving a fresh matrix |
| `ApplicationModel.Application.ScoreRound` | client/Application.py:66-71 | the overall scores of the round matrix are ranked, scaled and sent as the round's request |
| `ApplicationModel.Application.RankAndAuction` | client/Application.py:67-71 | the addresses in registration order are ranked by the overall scores; the auction request cannot fail and is the ranked, scaled request |
| `ApplicationModel.RankedHaveBids` | client/Application.py:67-71 | every ranked address has a bid, because the ranked addresses are a permutation of the registered accounts |
| `ApplicationModel.AuctionRequestFacts` | client/Application.py:67-71 | the request has one tuple per worker; its addresses are the accounts rearranged, its scores never increase, and each bid is the bid registered for that address |
| `ApplicationModel.ZeroSpreadRound` | client/Requester.py:139-143 | a round whose d values are all 0 (three workers, each 0.5 away from every median) is still a round `run` completes, and every overall score is the scaled median, 1.0 |
| `ApplicationModel.ZeroSpreadMedians` | client/Requester.py:117-120 | in that example round every column's two received scores are 0 and 1, so every median is 0.5 |
| `ApplicationModel.ZeroSpreadLeastAccurate` | client/Requester.py:128-137 | in that example round every evaluator is 0.5 away from every median, so every quality and every d is 0 |
| `ApplicationModel.Preimage` | client/Application.py:81 | the preimage of round r is the value round + 1, given exactly while it fits in a single byte (r < 255); a larger value's encoding is outside the model |
| `ApplicationModel.EvalEventsAt` | client/Application.py:57-64 | in the evaluate pass, worker i's evaluate, push and model update sit at positions 3i, 3i+1 and 3i+2 |
| `ApplicationModel.EvalEventsCovered` | client/Application.py:57-64 | every evaluate-pass event sits in the slot of the worker it names |
| `ApplicationModel.PushedOnce` | client/Application.py:57-64 | each worker's row is pushed exactly once, with the sentinel at its own position, before its model update |
| `ApplicationModel.RoundLayout` | client/Application.py:48-85 | a round has 4n + 6 events: the n training calls first, then the evaluate pass, then the settlement, with the next-round call last |
| `ApplicationModel.TrainBeforeEvaluate` | client/Application.py:48-58 | all workers train, in index order, before any worker evaluates |
| `ApplicationModel.SettleOrder` | client/Application.py:71-85 | the auction precedes the rewards, the rewards precede verification of preimage round + 1, and the single next-round call comes last |
| `ApplicationModel.OneNextRoundPerRound` | client/Application.py:85 | each round calls `next_round` exactly once |
| `ApplicationModel.RoundsCount` | client/Application.py:48-85 | r rounds hold exactly r next-round calls |
| `ApplicationModel.RunNextRounds` | client/Application.py:48-85 | a run of `num_rounds` rounds calls `next_round` exactly `num_rounds` times, none during setup |

Behaviour of the code that the contracts make explicit:

- A second push for the same index overwrites the row; nothing rejects it.
- Nothing checks that every row was pushed before scoring. Completeness is
  therefore a precondition of `CalcOverallScores`, and `EvaluatePass`
  proves that `run` meets it.
- A candidate without a bid makes the bid lookup raise a KeyError;
  `ReverseAuction` returns `MissingBid` for it.
- Scaled scores are truncated by `int()`.
- The overall score is min(m/max(m), d/max(d)). When every d is 0, the
  quotient is NaN, Python's `min` keeps the scaled median, and the round goes
  on with the scaled medians as overall scores.

The function `LazyRoundRequest` is a proof device and not part of the
client: it is `RoundRequest` behind a number of unfoldings the verifier does
not count down by itself, which keeps the scoring arithmetic out of the
driver's proofs. `LazyRoundRequestIs` shows it always equals
`RoundRequest`, and `Run`'s contract is stated with `RoundRequest`.

## Left out

- Ledger transactions and reads (`deploy_contract`, `init_task`, the ledger
  side of `start_task`, `next_round`, `reverse_auction` and
  `distribute_rewards`, and `getWorkerScores`, `getCommitteeScores` and
  `verifyRound`) are trace events only. The contract's auction rule,
  committee and rewards are not part of this model.
- Keccak-256 in `Web3.solidityKeccak` is a foreign library. Only its
  one-byte preimage is modelled.
- Worker training, evaluation and model updates, and torch device selection,
  are external. Their results (the score lists) are parameters of `Run`.
- dotenv key loading, the JSON contract artifact and the prints are I/O.
- The unused `bid_list` and `topk` fields are not modelled. `k` is only
  forwarded to `init_task`, so it appears only in the trace.
- Addresses are an abstract type with equality, because the model only
  compares them and uses them as keys. Their hexadecimal text is not
  modelled.
- `np.empty` leaves garbage in the matrix. Unwritten cells are tracked by the
  ghost set `written`, not by particular values.
- Floating point is modelled as exact reals. NaN and infinities are not
  values of the model; the one place the client goes on after producing a
  NaN, a zero largest d, is modelled by its outcome (`Scoring.MinScaled`).
- `RequesterModel.Requester.CalcOverallScores`: requires n >= 2 and a
  non-zero largest median (`Scoring.WellPosed`). With a zero largest median
  the worker holding it gets the score NaN, and `compute_top_k` then raises
  an IndexError, because no position equals a NaN maximum. With n = 1 the
  `min()` of an empty row raises a ValueError. A zero largest d is covered.
- `RequesterModel.Requester.CalcOverallScores`: requires the matrix to be
  `num_workers` x `num_workers` for the `num_workers` argument, as at the
  only call site. The source also runs on a matrix of another size, where it
  computes something else or raises; that is not modelled.
- `RequesterModel.Requester.ComputeTopK`: requires as many addresses as
  scores, as the driver always supplies. With fewer addresses the source
  raises an IndexError; with more, it silently drops the extra addresses.
- `RequesterModel.Requester.PushScores`: requires an existing matrix. Before
  `start_task` the source fails on `None`.
- `RequesterModel.Requester.InitScoreMatrix`: requires a started requester.
  Before `start_task` sets `num_workers` the source raises an AttributeError.
- `RequesterModel.Requester.NextRound`: requires a started requester, for the
  same reason: it calls `init_score_matrix`.
- `ApplicationModel.Application.Run`: requires the following:
  - at least two workers;
  - every worker's evaluation yields n-1 scores;
  - every round's matrix has a non-zero largest median (see
    `CalcOverallScores`);
  - at most 255 rounds. Only then is the preimage round + 1 a single
    byte; the encoding of a larger value is not modelled.

  Outside these the model promises nothing. Where the source raises an
  exception part-way through a run, the model has no partial run for it.
- `ApplicationModel.Application.Run`: uses the number of registered workers
  as `getNumWorkers()`, which the ledger reports back in `start_task`.
- `ApplicationModel.Application.Run`: the round requests it returns are
  ghost values. The auction request the source sends is visible in the
  `Auction` events of `trace`.
