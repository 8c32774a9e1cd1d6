# μKV: eviction, scoring and scheduling, verified

This project models the decision logic of the μKV key-value-cache benchmark and proves properties of
it. It covers what is kept and evicted in the cache, how positions are renumbered, how results are
scored, and the stateful helpers around the decode loop.

- **Exact paired statistics** (`Combinatorics`, `Ranks`, `Wilcoxon`, `McNemar`, `Holm`). Tie-averaged
  ranks, the in-place knapsack behind the exact Wilcoxon null, the exact McNemar test and Holm's
  adjustment. P-values are rationals over 2^n, written as reals. They are proved equal to permutation
  tail probabilities, which are set cardinalities over all sign assignments.
- **The cache as a state machine** (`KvCache`, `Eviction`, `Selection`, `Anchoring`, `SllmWindow`,
  `PaddedWindow`, `Sliding`, `Sparse`, `DecodeEviction`, `Controller`). A sequence is its live cells
  `(position, token)` in position order. Removal is a filter by a position range, renumbering a shift of a
  range, and decoding appends after the largest position. Runs of these calls are proved to refine short
  descriptions of what is live: any number of evictions behind the same prefix is one cut of the untrimmed
  cache, with the gap closed (`Sliding`) or left open (`Sparse`, quantized keys).
- **The buffer behind it** (`CellIndex`, `CellBuffer`). Slots and tensors: removal by cell index, which a
  multimodal cache needs, and the compaction in place, which is proved to move every cell with its rows.
- **The base64 codec** (`Base64`), sections 4 and 5 of RFC 4648. The decoder's two-variable bit machine
  is proved against the bit string of its input, in its copying and its in-place form.
- **Stateful helpers** (`Slope`, `AttnHistory`, `Hysteresis`, `Scheduler`, `PruneProbe`, `AttnSidecar`,
  `Pareto`, `Learning`). The attention ring buffer, the thermal and battery controllers, the ladder
  walk, the probe that measures inside a decode loop, the attention sidecar file, the Pareto flags, and
  the two learners on the simulated phone.

The two scoring scripts share their ranking loop and Holm's adjustment
(eval_pipeline/run_phi3_sigtests.py:144-154 and 200-211, eval_pipeline/score_sig.py:155-166 and 214-226),
so each is modelled once: one sorts indices by magnitude, the other pairs of magnitude and index, which is
the same order. `Basics` holds what several modules share. Floats are modelled as `real`, and
counts as unbounded integers, except where the file format or the alphabet fixes a width. Loops and
state that the source updates in place are methods with loops, arrays or classes. Each is proved against
a specification function or predicate, and the lemmas are about that specification.
`dafny verify dfyconfig.toml` checks the whole project.

Places where the model follows the code and not its documentation, or where the code does something a
reader of its output might not expect:

- `mcnemar_exact` is documented as mid-p. The code computes the plain exact two-sided value, and that is
  what `McNemar.McNemarExact` states (eval_pipeline/score_sig.py:190-205).
- `kept_kv_after` in the pruning probe's output never differs from `n_kv_before`: it is one more than
  the largest position, which removing the oldest positions leaves alone
  (`PruneProbe.KeptColumnIsSizeBefore`, `PruneProbe.PrunedCellsAreFewer`).
- The battery controller's "must fall this far past a threshold to descend" is tested against the
  threshold of the new level only. From level 0, a charge just under the lower threshold keeps level 0
  although a slightly higher charge gives level 1 (`Hysteresis.HeldPastTheUpperBand`).
- The ladder walk's time stop is described as a monotone limit. It is one only among plans of equal
  quality. `Scheduler.TimeStopCanLose` gives a ladder where it hides a plan inside every limit, and
  `Scheduler.SeesEveryFit` states exactly when it hides none.
- The comment on base64 decoding names a `required_decode_size` that does not exist. The bound that the
  code uses, and the one proved, is `max_decode_size` (llama.cpp/common/base64.hpp:185, 324-327).
- The eviction count of `apply_eviction` is the number of positions named, which is the number of cells
  that leave exactly when all of them were live (`Eviction.CountMatchesCells`).
- `evicted_prefill` after selective anchoring counts every position outside the anchors once more, so
  what the gate had already evicted is counted twice, and the number can exceed the prompt
  (`Anchoring.ReportedBeyondPrompt`). It is right exactly when the gate kept every position or the anchor
  budget has room for all survivors (`Anchoring.ReportedIsExact`).
- The recency eviction of `v1_fa` runs on a cache left sparse by the prefill. The number it returns is
  then a span of positions, at least the cells that went (`DecodeEviction.RecencyCount`).
- With quantized keys the positions are not renumbered, so past the threshold every step evicts and returns
  a span that starts from the protected prefix again. The sum of these is what went exactly up to the first
  eviction (`DecodeEviction.TieredCountedAgain`, `DecodeEviction.RecencyCountedAgain`), and after e evictions
  it has grown with the square of e (`Sparse.OneTrim`, `Sparse.SumOfSpansGrows`).
- A captured `n_kv` padded beyond the prompt shortens StreamingLLM's first window.
  `PaddedWindow.PaddingEmptiesWindow` gives an input on which only the sinks are left of 300 prompt tokens
  and 448 evictions are counted for 296 cells. The window is the full one exactly when nothing was cut or as
  many tokens have been decoded as were padded, or as the recency window holds if that is less
  (`PaddedWindow.PaddedRunHeals`), and the counters agree with the cells exactly under the condition of
  `PaddedWindow.PaddedCounters`.
- With K <= n_sink StreamingLLM has no window at all: a token is removed in the step that decodes it once
  the sinks are full (`SllmWindow.NoWindow`, `SllmWindow.Run`).

## Model

| member | source | states |
|---|---|---|
| Combinatorics.SignVectorsCard | eval_pipeline/run_phi3_sigtests.py:171 | the null has 2^n equally likely sign assignments |
| Combinatorics.SubsetCountIsCard | eval_pipeline/run_phi3_sigtests.py:165-170 | the knapsack recurrence counts the sign assignments whose positive ranks sum to s |
| Combinatorics.SubsetCountOutside | eval_pipeline/run_phi3_sigtests.py:166 | no assignment sums outside 0..total, so the table needs no other entry |
| Combinatorics.CumulativeCountIsLowTail | eval_pipeline/run_phi3_sigtests.py:172 | the prefix sum of the table is the size of the lower tail |
| Combinatorics.FlipSymmetry | eval_pipeline/run_phi3_sigtests.py:161-174 | the two tails are the same size, and entries s and total - s are equal |
| Combinatorics.CountsTotal | eval_pipeline/run_phi3_sigtests.py:165-171 | the whole table sums to 2^n |
| Combinatorics.PositiveSumFlip | eval_pipeline/run_phi3_sigtests.py:155-156 | W+ and W- add up to the rank total |
| Ranks.SortedOrder | eval_pipeline/run_phi3_sigtests.py:144 | the sort by key lists every index once, by non-decreasing key |
| Ranks.SortedOrderIsStable | eval_pipeline/run_phi3_sigtests.py:144 | equal keys stay in the order of their indices |
| Ranks.RunMidRank | eval_pipeline/run_phi3_sigtests.py:148-153 | the average over a maximal run of ties in any sorted order is the mid-rank: the values below, plus half the ties, plus one half |
| Ranks.AverageRanks | eval_pipeline/run_phi3_sigtests.py:144-154 | the ranking loop gives every value its mid-rank |
| Ranks.MidRanksTotal | eval_pipeline/run_phi3_sigtests.py:162-163 | the doubled ranks sum to n(n+1), ties or not |
| Wilcoxon.SubsetSumCounts | eval_pipeline/run_phi3_sigtests.py:166-170 | the descending in-place loop leaves at s the number of sign assignments summing to s |
| Wilcoxon.ExactPValue | eval_pipeline/run_phi3_sigtests.py:160-174 | the capped doubled lower tail over 2^n |
| Wilcoxon.ExactBranch | eval_pipeline/run_phi3_sigtests.py:159-174 | the exact branch returns the permutation p-value of the observed signs |
| Wilcoxon.DoubledTailIsPermutationP | eval_pipeline/run_phi3_sigtests.py:173-174 | the capped doubled tail is the share of assignments at least as extreme as the observed one |
| Wilcoxon.ExtremeCard | eval_pipeline/run_phi3_sigtests.py:172-174 | below the middle the extreme assignments are twice the lower tail |
| Wilcoxon.StatisticsFromRanks | eval_pipeline/run_phi3_sigtests.py:155-164 | the rounded target is the smaller of the two doubled rank sums |
| Wilcoxon.SignedRank | eval_pipeline/run_phi3_sigtests.py:136-186 | no data exactly when every delta is zero; otherwise n is the number of nonzero deltas, the p-value is exact up to 25 of them, and then it is the permutation p-value |
| Wilcoxon.NonZeroKeeps | eval_pipeline/run_phi3_sigtests.py:139 | exactly the zeros go: every other delta is kept as often as it occurs |
| Wilcoxon.ThreeDeltas | eval_pipeline/run_phi3_sigtests.py:136-186 | 0.5, 0.0, 0.25 and -0.125: statistic 5, p = 0.5, n = 3 |
| Wilcoxon.ExactLevel | eval_pipeline/run_phi3_sigtests.py:159-174 | rejecting at p <= alpha is a test of level alpha: at most an alpha share of the sign assignments is rejected |
| Wilcoxon.NegationInvariance | eval_pipeline/run_phi3_sigtests.py:139-174 | swapping the two systems, which negates every delta, keeps the p-value |
| McNemar.UnitCountsAreBinomial | eval_pipeline/score_sig.py:200-204 | with unit ranks the table is a row of Pascal's triangle |
| McNemar.McNemarExact | eval_pipeline/score_sig.py:190-205 | the capped double cumulative sum is the two-sided sign-test p-value |
| McNemar.DoubledTailIsSignTestP | eval_pipeline/score_sig.py:201-205 | the doubled lower tail, capped, is the share of outcomes at least as lopsided |
| McNemar.CapInactiveIffUnequal | eval_pipeline/score_sig.py:205 | the cap at one is inactive exactly when the two counts differ |
| McNemar.EqualMagnitudeCounts | eval_pipeline/run_phi3_sigtests.py:165-170 | with equal magnitudes the entry at k(n+1) is the binomial coefficient |
| McNemar.EqualMagnitudesAgree | eval_pipeline/run_phi3_sigtests.py:159-174 | with equal magnitudes the exact signed-rank p-value is the McNemar p-value of the sign counts |
| Holm.HolmBonferroni | eval_pipeline/run_phi3_sigtests.py:200-211 | along the sorted order each adjusted value is the capped running maximum of scaled p-values |
| Holm.AdjustAlong | eval_pipeline/score_sig.py:220-225 | the loop with the running cap computes exactly that |
| Holm.CappedStep | eval_pipeline/score_sig.py:223 | capping at every step instead of once changes nothing |
| Holm.AdjustedIffStepDown | eval_pipeline/score_sig.py:214-226 | for alpha < 1, adjusted <= alpha exactly when the sequential step-down procedure rejects |
| Holm.OrderFree | eval_pipeline/score_sig.py:219-225 | the decision depends on the p-values alone, not on how ties are sorted |
| Holm.AdjustedBounds | eval_pipeline/score_sig.py:214-226 | adjusted values lie in [0,1] and never below their p-value |
| Holm.AdjustedMonotone | eval_pipeline/score_sig.py:214-226 | adjusted values keep the order of the p-values |
| Holm.NoFalseRejection | eval_pipeline/score_sig.py:214-226 | if every p of a set T exceeds alpha/size(T), no member of T is rejected at alpha |
| KvCache.Cache.SeqRm | entropy_probe/eviction_bench.cpp:1631 | the memory call removes exactly the cells in the range |
| KvCache.Cache.SeqAdd | entropy_probe/eviction_bench.cpp:1600 | the memory call shifts exactly the cells in the range |
| KvCache.Cache.Decode | entropy_probe/eviction_bench.cpp:3175 | a one-token batch lands after the largest live position |
| KvCache.Prefilled | entropy_probe/eviction_bench.cpp:2143 | a prompt decoded into an empty sequence is dense from zero, token by token |
| KvCache.WithoutTwice | entropy_probe/eviction_bench.cpp:1626-1633 | removals compose to the removal of the union |
| KvCache.WithoutLength | entropy_probe/eviction_bench.cpp:1632 | a removal shortens the cache by the live positions it names |
| KvCache.WithoutIncreasing | entropy_probe/eviction_bench.cpp:1631 | a removal keeps the cells in position order |
| Eviction.RemoveRuns | entropy_probe/eviction_bench.cpp:1625-1633 | the calls per maximal run together are one filter by the mask, and the count is the number of unset positions |
| Eviction.KeepMask | entropy_probe/eviction_bench.cpp:1610-1614 | a position is marked exactly when some layer keeps it and it is below n_kv |
| Eviction.ApplyEviction | entropy_probe/eviction_bench.cpp:1607-1644 | addressed by position, the live set loses exactly the complement of the union of keep sets, and the count is n_kv minus the union's size |
| Eviction.CountMatchesCells | entropy_probe/eviction_bench.cpp:1616-1643 | the count equals the cells removed exactly when every named position was live |
| Selection.NthElement | entropy_probe/eviction_bench.cpp:2466-2467 | a permutation whose first k keys are at least every later key |
| Selection.PartitionIsTop | entropy_probe/eviction_bench.cpp:2466-2473 | the first k of a partition are a top-k set of the candidates |
| Selection.TopHasBestScore | entropy_probe/controller_probe.cpp:236-239 | a top-k set has the largest total score among all subsets of its size |
| Anchoring.RankedSurvivors | entropy_probe/eviction_bench.cpp:2403-2425 | the ranked list is the gate's survivors, each once |
| Anchoring.ProtectSink | entropy_probe/eviction_bench.cpp:744-749 | every layer's keep set gains exactly the first n_sink positions below n_kv |
| Anchoring.ProtectedSurvivors | entropy_probe/eviction_bench.cpp:2173-2174 | the survivors are then what the gate keeps and all the sinks |
| Anchoring.AnchorSurvivors | entropy_probe/eviction_bench.cpp:2464-2504 | the fixed top-k form leaves a top set of the survivors, sinks ranked first, and reports the positions outside it when any survivor went |
| Anchoring.GateThenAnchor | entropy_probe/eviction_bench.cpp:2173-2504 | protection, gate and anchoring together are one filter down to a top set of the survivors; with room for n_sink anchors every sink is in it; the number reported is the gate's plus, once any survivor went, all the positions outside the anchors again |
| Anchoring.ReportedIsExact | entropy_probe/eviction_bench.cpp:2478-2504 | the number reported is what went from a dense prompt exactly when the gate kept every position or the anchor budget has room for all its survivors |
| Anchoring.ReportedBeyondPrompt | entropy_probe/eviction_bench.cpp:2478-2504 | five positions, three survivors and one anchor: six evictions are reported |
| Anchoring.SinksAreAnchors | entropy_probe/eviction_bench.cpp:2414-2473 | a top set of the protected survivors holds every sink when the anchor budget is at least n_sink |
| Anchoring.ExtraSinks | entropy_probe/eviction_bench.cpp:2464-2473 | sinks that are extra take no room: next to all of them min(top, other survivors) stay; otherwise min(top, survivors) in all |
| Anchoring.AttentionIsBelowSinks | entropy_probe/eviction_bench.cpp:2418-2425 | averaged attention, which is at most one, never outranks a sink |
| Anchoring.LiveAnchors | entropy_probe/eviction_bench.cpp:2491-2498 | the positions left below n_kv are exactly the anchors that were live, all of them on a dense prompt |
| Anchoring.AnchorGuarantees | entropy_probe/eviction_bench.cpp:2414-2473 | size min(top, survivors), all surviving sinks when there is room, and no dropped non-sink outscores a kept one |
| Sliding.CutTwice | entropy_probe/eviction_bench.cpp:1592-1601 | evicting behind the same prefix twice is evicting once |
| Sliding.CutMembers | entropy_probe/eviction_bench.cpp:1592-1601 | a removal with its shift leaves exactly the cells before it in place and the cells after it moved down |
| Sliding.CutCount | entropy_probe/eviction_bench.cpp:1598-1602 | the span returned is at least the cells that went, and equal to them exactly when the whole span was live |
| Sliding.SpanGrows | entropy_probe/eviction_bench.cpp:3175 | a decoded token extends the cache that was cut as it would extend the uncut one |
| Sliding.SpanCut | entropy_probe/eviction_bench.cpp:1592-1601 | an eviction widens the one cut that separates the cache from the uncut one |
| Sliding.SpanTail | entropy_probe/eviction_bench.cpp:1582-1584 | the newest tokens stand in order at the end |
| Sliding.SpanCells | entropy_probe/eviction_bench.cpp:1582-1601 | cells of the sink positions have not moved, and a cell behind the cut is where it was less the cut |
| Sliding.SpanCount | entropy_probe/eviction_bench.cpp:3328-3330 | over a run the positions counted are at least the cells that went, and as many exactly when the missing stretch was all live |
| Sliding.TrimSpacing | entropy_probe/eviction_bench.cpp:1565-1567 | an extent that grows by one and is trimmed past a limit is trimmed exactly limit - low + 1 steps apart |
| Sliding.DenseStartKeepsEnds | entropy_probe/eviction_bench.cpp:1582-1603 | from a dense start the live tokens are the first n_sink and the newest of the stream, dense from zero |
| SllmWindow.Policy | entropy_probe/eviction_bench.cpp:1296-1321 | every layer keeps exactly the sinks and the recency window |
| SllmWindow.PolicyDrops | entropy_probe/eviction_bench.cpp:1311-1315 | for every K and n_sink what the policy drops is one middle stretch; min(n, K) positions stay when K > n_sink, and min(n, n_sink + max(1, K - 1)) otherwise |
| SllmWindow.Prefill | entropy_probe/eviction_bench.cpp:2587-2598 | the cells kept and the count for any captured n_kv, K and n_sink, and on an unpadded capture with K > n_sink the window with a gap behind the sinks |
| SllmWindow.PrefillHoldsWindow | entropy_probe/eviction_bench.cpp:2597-2598 | the pruned prompt holds the window of the prompt |
| SllmWindow.DecodeStep | entropy_probe/eviction_bench.cpp:3336-3347 | one step appends, trims the excess and renumbers, and reports the constant one, for every K and n_sink |
| SllmWindow.StepKeepsWindow | entropy_probe/eviction_bench.cpp:3332-3347 | one step moves the window along, makes it dense from zero, and removes exactly the cells it reports, also the first step after a sparse prefill |
| SllmWindow.StepKeepsSpan | entropy_probe/eviction_bench.cpp:3332-3347 | from any start, sparse or padded, a step keeps the cache the uncut one with a single stretch missing |
| SllmWindow.NoWindow | entropy_probe/eviction_bench.cpp:3336-3347 | with K <= n_sink every cell behind the sinks goes, the token just decoded included |
| SllmWindow.Run | entropy_probe/eviction_bench.cpp:3332-3347 | for every prompt, stream, captured n_kv, K and n_sink: with a window one stretch is missing from what the prefill left and the tokens, and the count is the prefill's plus one per trim; without one only the first n_sink tokens are live once a token was decoded; on an unpadded capture the counters and the live cells add up to all tokens seen |
| SllmWindow.RunRefinesWindow | entropy_probe/eviction_bench.cpp:3332-3347 | after any run the live tokens are the first n_sink and the newest K - n_sink of the stream, at positions 0..size-1 once a step has run |
| SllmWindow.NarrowNext | entropy_probe/eviction_bench.cpp:3336-3347 | with K <= n_sink a step leaves the first n_sink tokens of the stream, from the pruned prompt as from any later state |
| PaddedWindow.PaddedSize | entropy_probe/eviction_bench.cpp:1311-1315 | exactly how many cells are live after any number of steps on a padded capture |
| PaddedWindow.PaddedRunHeals | entropy_probe/eviction_bench.cpp:2590-2598 | on a padded capture the live tokens are the window exactly when n_kv <= K, or the prompt is all sinks, or as many tokens were decoded as were padded or as the recency window holds if fewer; and then dense |
| PaddedWindow.PaddedCounters | entropy_probe/eviction_bench.cpp:2598 | by how much the counters exceed the cells that went, and exactly when they agree |
| PaddedWindow.TrimsCount | entropy_probe/eviction_bench.cpp:3341-3346 | the steps that report an eviction are those after the extent has reached K |
| PaddedWindow.PaddingEmptiesWindow | entropy_probe/eviction_bench.cpp:2590-2598 | four sinks, K = 64, 300 prompt tokens and n_kv = 512: after one token only the sinks and it are live, and 448 evictions stand for 296 cells |
| Sparse.ThinnedCut | entropy_probe/eviction_bench.cpp:1595-1601 | without renumbering a second removal behind the same prefix leaves the longer of the two holes |
| Sparse.ThinnedCount | entropy_probe/eviction_bench.cpp:1595-1602 | one more removal takes only what is live behind the hole already there |
| Sparse.HoldsThinNext | entropy_probe/eviction_bench.cpp:3315-3330 | a step keeps the cache the uncut one with one hole, or the bare prefix when nothing recent stays |
| Sparse.ExtentOnlyGrows | entropy_probe/eviction_bench.cpp:1574-1578 | while something recent stays the extent grows by one per step whatever is evicted |
| Sparse.EvictionBounds | entropy_probe/eviction_bench.cpp:1555-1572 | after a step that evicts no more is live than the prefix and the recent positions |
| Sparse.OneTrim | entropy_probe/eviction_bench.cpp:1566-1579 | under one budget every step past the limit evicts, and the run returns the sum of spans that each start at the prefix |
| Sparse.SumOfSpansGrows | entropy_probe/eviction_bench.cpp:1571-1579 | twice that sum is e(2d + e + 1), and it is the last span exactly up to one eviction |
| Sparse.CountedAgain | entropy_probe/eviction_bench.cpp:3315-3330 | the number returned over a run is what went exactly up to the first eviction |
| DecodeEviction.ApplyTiered | entropy_probe/eviction_bench.cpp:1561-1580 | the guarded removal, the shift unless keys are quantized, nothing on a cell-indexed cache, and the span returned |
| DecodeEviction.TieredKeepsTail | entropy_probe/eviction_bench.cpp:1555-1580 | anchors untouched, the tail dense behind them and made of the newest tokens |
| DecodeEviction.TieredStep | entropy_probe/eviction_bench.cpp:3315-3321 | one step from any state of a run, in each way of addressing: renumbered the newest tokens are held and those no longer held are reported, with quantized keys one hole, by cell index nothing |
| DecodeEviction.TieredRun | entropy_probe/eviction_bench.cpp:3259-3321 | the same over any run with a budget per step: renumbered the counts sum to the tokens not held, with quantized keys to the spans from the anchors |
| DecodeEviction.TieredExtent | entropy_probe/eviction_bench.cpp:1565-1567 | renumbered: a step evicts exactly when its token takes the extent past B + B/4 and then leaves B, the step's budget; otherwise the extent grows by one; it is never more than B + B/4 |
| DecodeEviction.HeldIsSawTooth | entropy_probe/eviction_bench.cpp:3315-3321 | under one budget the extent of the run is the saw tooth of the threshold |
| DecodeEviction.TieredSpacing | entropy_probe/eviction_bench.cpp:1566-1570 | renumbered, once the budget of a run stays at B its evictions are exactly B/4 + 1 steps apart |
| DecodeEviction.TieredThinBound | entropy_probe/eviction_bench.cpp:1555-1578 | with quantized keys no more than the budget is live after a step that evicts |
| DecodeEviction.TieredCountedAgain | entropy_probe/eviction_bench.cpp:3317-3321 | with quantized keys and one budget the count is what went exactly up to the first eviction |
| DecodeEviction.QuantizedKeepsExtent | entropy_probe/eviction_bench.cpp:1571-1578 | an eviction with quantized keys leaves the extent as it is while something recent stays |
| DecodeEviction.ApplyRecency | entropy_probe/eviction_bench.cpp:1585-1603 | the guarded removal, the shift unless keys are quantized, nothing on a cell-indexed cache, and the span returned |
| DecodeEviction.RecencyStep | entropy_probe/eviction_bench.cpp:3323-3331 | one step from any state of a run, with the K of the step and in each way of addressing; the count is at least the cells that went, equal exactly when the positions named were live |
| DecodeEviction.RecencyKeepsSpan | entropy_probe/eviction_bench.cpp:1585-1603 | an eviction keeps the cache the uncut one with a single stretch behind the sinks missing |
| DecodeEviction.RecencyCount | entropy_probe/eviction_bench.cpp:1598-1602 | the count of one eviction against the cells that went, with its exact condition, renumbered or not |
| DecodeEviction.RecencyRun | entropy_probe/eviction_bench.cpp:3323-3331 | from any cache in position order, sparse after the prefill or not, and a K per step: renumbered one stretch is missing and the counts add up to the positions given up, with quantized keys one hole stays open and the counts are the spans from the sinks, by cell index nothing is done |
| DecodeEviction.RecencyRunMeaning | entropy_probe/eviction_bench.cpp:1582-1603 | renumbered: live sinks unmoved, newest tokens in order at the end, no more cells gone than counted and when exactly as many |
| DecodeEviction.RecencyThinMeaning | entropy_probe/eviction_bench.cpp:1592-1601 | with quantized keys: the extent has grown by one per step, one hole behind the sinks is missing from the uncut cache, and a step that evicts leaves at most K cells live, n_sink + K for K <= n_sink |
| DecodeEviction.RecencyCountedAgain | entropy_probe/eviction_bench.cpp:3323-3330 | with quantized keys and one K the count is what went exactly up to the first eviction |
| DecodeEviction.RecencyBound | entropy_probe/eviction_bench.cpp:3323-3331 | renumbered, in K itself: for K > n_sink a step evicts exactly past 3K/2 and leaves K; for 0 < K <= n_sink the same with n_sink + K; without a K nothing goes |
| DecodeEviction.RecencySpacing | entropy_probe/eviction_bench.cpp:3323-3331 | renumbered, once the K of a run stays its evictions are exactly K/2 + 1 steps apart, (n_sink + K)/2 + 1 for K <= n_sink |
| DecodeEviction.RecencyOnThirteen | entropy_probe/eviction_bench.cpp:3323-3331 | twelve cells, four sinks, K = 8 and one token: five go, and the sinks and the newest four stay |
| CellIndex.RemovedTwice | entropy_probe/eviction_bench.cpp:2486-2488 | removing by index in two goes is removing what either mask drops |
| CellIndex.EmptiedIfUnused | llama.cpp/src/llama-kv-cache.cpp:353-362 | a slot is emptied exactly when its mask drops it and no other sequence uses it, and otherwise only leaves the sequence |
| CellIndex.OthersKeepTheirs | llama.cpp/src/llama-kv-cache.cpp:353-362 | the cells of every other sequence are untouched |
| CellIndex.IndexIsPosition | entropy_probe/eviction_bench.cpp:1617-1633 | where every slot holds the position of its own index the two branches of the eviction leave the same cells |
| CellIndex.PositionsExpress | entropy_probe/eviction_bench.cpp:1617-1619 | a removal by position can do what a mask says exactly when the mask treats the cells of one position alike |
| CellBuffer.Buffer.RmCells | llama.cpp/src/llama-kv-cache.cpp:340-375 | exactly the unkept cells of the sequence are freed, and the count is the cells that went |
| CellBuffer.Buffer.ApplyEviction | entropy_probe/eviction_bench.cpp:1607-1622 | the cell-index branch: a slot below n_kv that no layer keeps is freed, and the count is exact |
| CellBuffer.RunLength | llama.cpp/src/llama-kv-cache.cpp:446-451 | the longest run of consecutive sources within a chunk |
| CellBuffer.CopyRun | llama.cpp/src/llama-kv-cache.cpp:453-463 | one staged copy moves the run as it was before, overlap or not |
| CellBuffer.MoveRows | llama.cpp/src/llama-kv-cache.cpp:445-479 | in place, row j becomes the row of the j-th survivor, for any chunk size |
| CellBuffer.Gather | llama.cpp/src/llama-kv-cache.cpp:484-492 | the slots become the survivors in order and nothing behind them |
| CellBuffer.Buffer.Compact | llama.cpp/src/llama-kv-cache.cpp:388-497 | declines exactly when another sequence has a cell; otherwise the live slots are a dense prefix and the sequence of cells with their rows is what it was, in every tensor |
| CellBuffer.CompactedCells | llama.cpp/src/llama-kv-cache.cpp:384-386 | the cells, their positions and their order are those before, and the live slots are the first ones |
| CellBuffer.UsedByAll | llama.cpp/src/llama-kv-cache.cpp:404-411 | the count of used slots equals the sequence's exactly when no other sequence has a cell |
| Controller.SpreadGateNarrows | entropy_probe/controller_probe.cpp:208-214 | the gate narrows with the largest score, from 1.3 budgets to 0.7, and keeps at least one |
| Controller.SpreadGateIsLinear | entropy_probe/controller_probe.cpp:208-214 | in between it falls in a straight line, through the budget itself at a largest score of 0.6 |
| Controller.Normalise | entropy_probe/controller_probe.cpp:199-206 | the scores divided, and their largest value, at least zero |
| Controller.ScoresAreMeans | entropy_probe/controller_probe.cpp:199-202 | the score gated is the mean over the heads of the layers seen, and the sum itself when none was |
| Controller.KeepBest | entropy_probe/controller_probe.cpp:224-248 | exactly kt positions stay, the protected among them, with the largest total score such a set can have |
| Controller.TopAndProtectedIsBest | entropy_probe/controller_probe.cpp:217-242 | protected positions plus a top set of the others are a best set of their size |
| Controller.SelectPositions | entropy_probe/controller_probe.cpp:192-249 | the removal list is descending and leaves a best kept set of the gate's size, or is empty when nothing needs to go |
| Controller.EndsAreProtected | entropy_probe/controller_probe.cpp:217-226 | whatever the scores, the first protect_sink and the last protect_recent positions are never removed, as far as a quarter of the gate reaches |
| Controller.OthersStayByScore | entropy_probe/controller_probe.cpp:232-242 | no other position that stays has a lower score than one that goes |
| Controller.RunEnd | entropy_probe/controller_probe.cpp:374-378 | the run found is consecutive and maximal |
| Controller.RemoveGrouped | entropy_probe/controller_probe.cpp:371-386 | the grouped calls remove exactly the listed positions |
| Controller.DenseCacheKeepsKt | entropy_probe/controller_probe.cpp:368-386 | on a dense cache the caller leaves exactly kt cells at the selected positions |
| Base64.EmitBits | llama.cpp/common/base64.hpp:218-223 | the byte written is the pending bits followed by the top bits of the new value |
| Base64.TableCodes | llama.cpp/common/base64.hpp:84-108 | in both literal alphabets the code written for a value is the one read back as it, and detection settles at the two characters that differ |
| Base64.TableIsAlphabet | llama.cpp/common/base64.hpp:83-108 | nothing else is in an alphabet, and the padding character, "=", is in neither |
| Base64.DecodeBody | llama.cpp/common/base64.hpp:205-229 | the bytes are the whole octets of the body's bit string, or an error on the first character outside the alphabet, with detection of the alphabet |
| Base64.OnlyPadding | llama.cpp/common/base64.hpp:231-241 | the padding check |
| Base64.Decode | llama.cpp/common/base64.hpp:200-244 | accepts exactly the inputs the alphabet and the behaviour allow, and then returns their decoding |
| Base64.DecodingUnique | llama.cpp/common/base64.hpp:200-244 | a body has one decoding |
| Base64.DecodedLength | llama.cpp/common/base64.hpp:324-337 | the decoded length is floor(3n/4), at most max_decode_size, which lies within three bytes of 3n/4 and is a multiple of three |
| Base64.LagsBehind | llama.cpp/common/base64.hpp:181-184 | at every loop head the bytes written are at most three quarters of the characters read |
| Base64.DecodeBodyInPlace | llama.cpp/common/base64.hpp:294-313 | decoding over its own input gives the bytes of the copying form and never overwrites an unread character |
| Base64.DecodeInPlace | llama.cpp/common/base64.hpp:294-313 | the in-place form accepts the same inputs as the copying one and leaves the same bytes |
| Base64.EncodeGroup | llama.cpp/common/base64.hpp:88-141 | one turn of the encoding loop writes the sextets of up to three bytes and their padding |
| Base64.Encode | llama.cpp/common/base64.hpp:80-144 | length required_encode_size, alphabet characters then padding, carrying the input's bits followed by zeros |
| Base64.EncodingUnique | llama.cpp/common/base64.hpp:80-144 | a byte string has one encoding in each alphabet |
| Base64.RoundTrip | llama.cpp/common/base64.hpp:80-244 | decoding an encoding returns the input: both alphabets, detection, both behaviours, any trailing padding stripped |
| Base64.LetterM | llama.cpp/common/base64.hpp:80-244 | "M" is encoded as "TQ==" and as nothing else, which is accepted by every behaviour and decodes to "M" and to nothing else |
| Base64.Refusals | llama.cpp/common/base64.hpp:205-241 | with another character for the padding only the loose behaviour accepts; the special characters of both alphabets together are refused |
| Slope.SlopeShiftInvariant | entropy_probe/eviction_bench.cpp:1464-1477 | adding a constant to a history keeps its slope |
| Slope.RisingHistory | entropy_probe/eviction_bench.cpp:1464-1477 | a non-decreasing history has a slope of at least zero |
| Slope.NumeratorMoments | entropy_probe/eviction_bench.cpp:1464-1477 | the numerator is that of the normal equations: the samples weighted by time, less the mean time for each |
| AttnHistory.Restride | entropy_probe/eviction_bench.cpp:1419-1431 | growing re-strides every row and pads it with zeros |
| AttnHistory.AverageHeads | entropy_probe/eviction_bench.cpp:1436-1441 | the row written is the mean over heads |
| AttnHistory.MeanRowIsMean | entropy_probe/eviction_bench.cpp:1433-1441 | as many times the row as there are heads is their sum at each position, and it is zero without heads |
| AttnHistory.PushLayer | entropy_probe/eviction_bench.cpp:1408-1444 | one push continues the layer's history, or starts it again after a shrink |
| AttnHistory.GrowthKeeps | entropy_probe/eviction_bench.cpp:1411-1431 | a push that grows the row or keeps its width keeps the whole history; the first one and a shrink start it again |
| AttnHistory.HistoryIsSinceRestart | entropy_probe/eviction_bench.cpp:1404-1445 | over any run of pushes the history is exactly the mean rows since the last push that started it again |
| AttnHistory.GrowingRow | entropy_probe/eviction_bench.cpp:1404-1478 | three pushes of widths 3, 4 and 5 with 1, 2 and 3 at a position: its slope is two |
| AttnHistory.WalkIsHistory | entropy_probe/eviction_bench.cpp:1462-1469 | for every ring size W the oldest-to-newest walk reads the last min(count, W) rows, each padded to the current width |
| AttnHistory.ColumnSlope | entropy_probe/eviction_bench.cpp:1460-1477 | the two passes compute the regression numerator of a position's values |
| AttnHistory.SlopeAt | entropy_probe/eviction_bench.cpp:1449-1478 | nothing below three samples or outside the row, and the numerator otherwise |
| AttnHistory.ColumnIsHistory | entropy_probe/eviction_bench.cpp:1464-1477 | those values are the position's history since the last shrink |
| AttnHistory.History.Push | entropy_probe/eviction_bench.cpp:1404-1445 | a capture adds its width and mean row to the log of each captured layer and to no other; the history of a layer is that of its log |
| AttnHistory.History.Slope | entropy_probe/eviction_bench.cpp:1449-1478 | the slope of a position is the numerator of its history in the log of the layer, and none below three samples or outside the row |
| Hysteresis.Tdak.Poll | entropy_probe/eviction_bench.cpp:3221-3257 | the new tier and its K, never milder than the plain ladder |
| Hysteresis.TierCountsThresholds | entropy_probe/eviction_bench.cpp:3228-3232 | each threshold begins its tier: the plain ladder counts the thresholds reached |
| Hysteresis.RatchetMoves | entropy_probe/eviction_bench.cpp:3233-3239 | one poll goes up to the tier reached at once, down one tier exactly below the entry less the width, and stays otherwise |
| Hysteresis.RatchetCoversLadder | entropy_probe/eviction_bench.cpp:3229-3239 | over any run of polls the ratchet is at or above the plain ladder |
| Hysteresis.RatchetDoesNotChatter | entropy_probe/eviction_bench.cpp:3228-3239 | over readings spanning at most the hysteresis width the tiers are monotone |
| Hysteresis.RatchetWidthIsExact | entropy_probe/eviction_bench.cpp:3234-3236 | one unit more and they need not be |
| Hysteresis.CoolsOneTierPerPoll | entropy_probe/eviction_bench.cpp:3234-3236 | below every band the tier falls by exactly one per poll until it is zero |
| Hysteresis.RemembersOnlyInBands | entropy_probe/eviction_bench.cpp:2023-2038 | outside the two bands the battery level is that of the charge alone, inside it may be the milder one persisted, and on mains it is the mildest |
| Hysteresis.LevelIs | entropy_probe/eviction_bench.cpp:2023-2038 | the level for every charge, mains flag and persisted level, without a sensor too: the one persisted exactly within three points of the threshold crossed |
| Hysteresis.BatteryDoesNotChatter | entropy_probe/eviction_bench.cpp:2030-2037 | the same for the persisted battery level over charges spanning at most 3 points |
| Hysteresis.BatteryWidthIsExact | entropy_probe/eviction_bench.cpp:2030-2037 | with a span of four points it can turn around |
| Hysteresis.HeldPastTheUpperBand | entropy_probe/eviction_bench.cpp:2030-2036 | exactly when a charge well below the upper threshold keeps level 0 |
| Scheduler.LeverShares | energy_rl/sched_policy.py:27-33 | for every lever position the weights are shares of one and every parameter stays between its anchors |
| Scheduler.LeverAnchors | energy_rl/sched_policy.py:27-33 | the weights, floor, exchange rate and slack at full saving, in the middle and at full performance |
| Scheduler.PiecewiseAnchors | energy_rl/sched_policy.py:30-32 | the anchors at 0, 0.5 and 1 are met |
| Scheduler.PiecewiseIsLinear | energy_rl/sched_policy.py:30 | and each half is a straight line |
| Scheduler.CandidateIff | energy_rl/sched_policy.py:50-57 | exactly the plans that the phone allows are candidates, each at the price of the request |
| Scheduler.CandidatesInOrder | energy_rl/sched_policy.py:53-54 | in the order of the table |
| Scheduler.UtilityCompares | energy_rl/sched_policy.py:58-61 | one candidate is preferred exactly when its quality is worth the time and energy it takes more, in units of the quickest and the cheapest |
| Scheduler.Favourite | energy_rl/sched_policy.py:60-62 | the first candidate of the greatest utility |
| Scheduler.LadderDescending | energy_rl/sched_policy.py:63 | no rung of the sorted ladder precedes an earlier one |
| Scheduler.DescendingMeans | energy_rl/sched_policy.py:63 | so quality never rises along it, nor does time fall among equals |
| Scheduler.LadderIsStable | energy_rl/sched_policy.py:63 | and rungs the sort cannot tell apart stay in the order of the table |
| Scheduler.WalkDown | energy_rl/sched_policy.py:64-77 | the loop ends on the plan of the walk, or on the division by a plan that costs nothing |
| Scheduler.Choose | energy_rl/sched_policy.py:50-79 | on any table: the walk down the favourite backend's ladder, or the error when there is no candidate or a zero to divide by |
| Scheduler.ChoiceIsPick | energy_rl/sched_policy.py:50-79 | when both minima are positive the choice is the walk's pick and nothing is divided by zero |
| Scheduler.MinimaAreCosts | energy_rl/sched_policy.py:55-58 | on a table of costs that are not negative the two minima are not negative |
| Scheduler.PickIsSound | energy_rl/sched_policy.py:64-79 | the pick costs no more than the best-quality rung, fits the slack of its time, and is above the floor unless it is that rung |
| Scheduler.PaysMeans | energy_rl/sched_policy.py:72-73 | a step is taken exactly when it saves energy and takes no more time, or saves lambda times the share of time it costs |
| Scheduler.WalkIsWorthItsTime | energy_rl/sched_policy.py:65-77 | the exchange rate over a whole walk: the energy saved is at least lambda times the time lost, in units of the energy of the pick over the time budget |
| Scheduler.LooserWalkSavesMore | energy_rl/sched_policy.py:65-77 | a stricter walk is a prefix: more time or a lower floor never raises the energy |
| Scheduler.LooserPickSavesMore | energy_rl/sched_policy.py:64-77 | the same for the chosen plan, slack and floor |
| Scheduler.StaysIffNothingPays | energy_rl/sched_policy.py:65-77 | the start is the pick exactly when no rung looked at pays from it |
| Scheduler.SeesEveryFit | energy_rl/sched_policy.py:66-71 | the stops hide no plan inside the limits exactly when none stands behind one over the time budget |
| Scheduler.StopLosesNothing | energy_rl/sched_policy.py:66-71 | then stopping ends on the plan that skipping would; a condition on the ladder alone |
| Scheduler.StopCostsNothingIff | energy_rl/sched_policy.py:66-71 | stopping and skipping end on the same plan exactly when no rung behind the stop that fits pays from the pick |
| Scheduler.StopsAreFree | energy_rl/sched_policy.py:66-71 | with every time inside the budget, or one quality only, both stops are free |
| Scheduler.TimeStopCanLose | energy_rl/sched_policy.py:66-71 | a ladder where the time stop hides a plan of half the energy |
| Scheduler.UnitsDoNotMatter | energy_rl/sched_policy.py:50-79 | scaling all energies or all times by positive factors keeps the choice |
| PruneProbe.ArgMaxLogits | entropy_probe/entropy_probe.cpp:114-121 | the first greatest logit |
| PruneProbe.Context.Greedy | entropy_probe/entropy_probe.cpp:211-255 | the plain loop: tokens, stop and the state at every step |
| PruneProbe.Context.Probe | entropy_probe/prune_probe.cpp:228-344 | for any list of K the tokens, stop and states are those of the plain loop, decode failures included, and the rows are those of the loop's states |
| PruneProbe.Context.MeasureAll | entropy_probe/prune_probe.cpp:258-301 | each measurement starts from the same saved state, and a failed one leaves no row |
| PruneProbe.RowMeasures | entropy_probe/prune_probe.cpp:258-301 | a row's full logits are the step's, and its pruned ones those of decoding the token before again on the state of the step before without the positions below K; at the first step, or with K past the cache, they are the full ones |
| PruneProbe.EveryKHasItsRow | entropy_probe/prune_probe.cpp:258-301 | and every K has its row: all at the first step, later each positive one whose decode succeeds or is not tried |
| PruneProbe.RowRanOnFewer | entropy_probe/prune_probe.cpp:271-292 | on a dense prompt the decode behind the pruned logits of a row ran on exactly K cells fewer than the step held |
| PruneProbe.TraceIsChained | entropy_probe/entropy_probe.cpp:249-254 | each state follows from the one before by decoding its token |
| PruneProbe.TraceEnds | entropy_probe/entropy_probe.cpp:211-255 | the loop ends early only at an end-of-generation token, which is the last and is not decoded, or at a failed decode |
| PruneProbe.EosIsTheEog | entropy_probe/entropy_probe.cpp:212-247 | the step reported is that of the only such token, and -1 without one |
| PruneProbe.KeptColumnIsSizeBefore | entropy_probe/prune_probe.cpp:291-300 | in every row the kept column equals the size before pruning |
| PruneProbe.PrunedCellsAreFewer | entropy_probe/prune_probe.cpp:271-292 | although the pruned decode held K cells fewer |
| AttnSidecar.AverageHeads | entropy_probe/attention_probe.cpp:309-316 | the values written are the means over heads at each position |
| AttnSidecar.HeadMeansAreMeans | entropy_probe/attention_probe.cpp:309-316 | for a capture of equally wide heads the row is as wide and, as many times as there are heads, their sum; without heads it is empty |
| AttnSidecar.WriteBlock | entropy_probe/attention_probe.cpp:298-321 | one layer's block, and a zero width for a layer not captured |
| AttnSidecar.Sink.Open | entropy_probe/attention_probe.cpp:273-285 | the placeholder header |
| AttnSidecar.Sink.WriteStep | entropy_probe/attention_probe.cpp:287-324 | an empty capture leaves no step, and the first step fixes the layers and heads |
| AttnSidecar.Sink.Close | entropy_probe/attention_probe.cpp:326-335 | the patched file is the finished file of the steps written |
| AttnSidecar.HeaderLayout | entropy_probe/attention_probe.cpp:276-284 | the magic and the numbers of steps, layers and heads, modulo 2^32, are the first four words |
| AttnSidecar.SmallFile | entropy_probe/attention_probe.cpp:273-335 | one step of one layer with two heads of two positions, word by word, in both formats |
| AttnSidecar.LoadRow | scripts/08_plot_attention.py:31-33 | a width and its floats, or the shorter row of a truncated file |
| AttnSidecar.LoadLayers | scripts/08_plot_attention.py:29-33 | the rows of one step and where the cursor stops |
| AttnSidecar.LoadSteps | scripts/08_plot_attention.py:27-34 | the rows of every step and where the cursor stops |
| AttnSidecar.Load | scripts/08_plot_attention.py:20-35 | the header counts and all rows, or the error |
| AttnSidecar.RoundTrip | scripts/08_plot_attention.py:20-35 | reading a finished head-averaged file gives the counts and, per step, the first step's layers, empty where not captured |
| AttnSidecar.PerHeadFileIsRefused | scripts/08_plot_attention.py:22-24 | a per-head file is refused by its magic |
| AttnSidecar.TruncatedFiles | scripts/08_plot_attention.py:20-35 | a file cut in its header is an error, and one cut in a row is read with the shorter row |
| AttnSidecar.UnpatchedFileReadsEmpty | entropy_probe/attention_probe.cpp:326-332 | before the header is patched the file reads as having no steps |
| Pareto.IsDominated | eval_pipeline/wave11_final_report.py:296-305 | the flag of the inner loop is set exactly when some other policy dominates |
| Pareto.NoMeansBeaten | eval_pipeline/wave11_final_report.py:289-304 | what "no" means for the rows: another policy of the model, complete, has no higher perplexity, no higher temperature, no lower throughput, and differs |
| Pareto.BeatenMeansNo | eval_pipeline/wave11_final_report.py:289-304 | and any such policy makes it "no" |
| Pareto.NotAvailableMeans | eval_pipeline/wave11_final_report.py:286-292 | the flag is "N/A" exactly when an axis is missing |
| Pareto.FlagModel | eval_pipeline/wave11_final_report.py:283-306 | every row of a model gets its flag |
| Pareto.ParetoFlags | eval_pipeline/wave11_final_report.py:275-307 | every cell of the table gets the flag of its model's front, and nothing else is flagged |
| Pareto.NoHasAYesAbove | eval_pipeline/wave11_final_report.py:295-306 | every "no" is dominated by a "yes" of its model |
| Pareto.FrontIsMutual | eval_pipeline/wave11_final_report.py:295-306 | no "yes" dominates another |
| Pareto.FrontIsNotEmpty | eval_pipeline/wave11_final_report.py:284-306 | a model with a complete row has a "yes" |
| Learning.Interp | energy_rl/sim.py:33-40 | flat outside the knots and linear on the segment around x |
| Learning.InterpolateAtKnot | energy_rl/sim.py:36-39 | every knot is met |
| Learning.InterpolateIsLinear | energy_rl/sim.py:36-39 | between two knots the values move in proportion |
| Learning.InterpHull | energy_rl/sim.py:33-40 | nothing leaves the range of the knots |
| Learning.Measure | energy_rl/sim.py:42-55 | throughput and power at a cache size and a clock |
| Learning.BucketsCount | energy_rl/agents.py:34-36 | a bucket is the number of thresholds reached |
| Learning.MeasuredPoints | energy_rl/sim.py:10-31 | the three cache sizes at the reference clock give the throughput and power measured there |
| Learning.MeasuredClocks | energy_rl/sim.py:10-31 | and the five clocks theirs, relative to the reference clock |
| Learning.BetweenMeasurements | energy_rl/sim.py:33-55 | and in between cache sizes and clocks count in proportion |
| Learning.SteadyStates | energy_rl/sim.py:22-26 | the bounds on the temperature are the steady states of the least and the most power of the table |
| Learning.Phone.Step | energy_rl/sim.py:69-88 | the whole next state of the phone, throttle count included, and every field of the report |
| Learning.StepMeans | energy_rl/sim.py:69-88 | a step in the terms of physics: the duration is tokens over throughput, the energy power times duration, the temperature closes on 30 degrees plus its share of the power with a time constant of 221 seconds, the charge pays the energy, and from 62 degrees the clock is 883 |
| Learning.QualityIs | energy_rl/sim.py:91-99 | the quality is the fitted curve over retention, capped at one |
| Learning.Utility | energy_rl/agents.py:25-32 | the utility lies in [-0.25, 1] |
| Learning.WeightsByState | energy_rl/agents.py:16-23 | the weights in literals, by charge and charger |
| Learning.UtilityOfParts | energy_rl/agents.py:12-32 | quality, throughput up to the best observed and energy per token up to the worst case count in proportion by their weights, and the last two no more beyond |
| Learning.UtilityOfPerfection | energy_rl/agents.py:25-32 | a perfect step has utility one |
| Learning.UtilityOfThrottling | energy_rl/agents.py:31 | throttling costs a quarter |
| Learning.LearningStaysBounded | energy_rl/agents.py:66-69 | one learning step keeps values in [-5, 20] |
| Learning.ClosedIntervals | energy_rl/agents.py:66-69 | an interval is closed under learning exactly when it holds [-5, 20] |
| Learning.LearningCloses | energy_rl/agents.py:66-69 | n steps towards one target leave 0.85^n of the distance |
| Learning.QLearn.Act | energy_rl/agents.py:61-65 | the explored pick, or the first action of the greatest value |
| Learning.QLearn.Update | energy_rl/agents.py:66-69 | the table after a learning step |
| Learning.PickAction | energy_rl/agents.py:44-48 | the explored pick, or the first action of the greatest value, for either learner |
| Learning.GreedyMeans | energy_rl/agents.py:47-48 | the first of the nine actions of the greatest value, where an action not yet tried counts zero |
| Learning.PicksAre | energy_rl/agents.py:44-48 | an explored pick is the draw; otherwise the learner looks at its whole state and the bandit at the battery and the charger only |
| Learning.RunningMean | energy_rl/agents.py:49-51 | the running update moves one mean to the next |
| Learning.Bandit.Update | energy_rl/agents.py:49-51 | every estimate is the mean of all rewards of its arm |
| Learning.Bandit.Act | energy_rl/agents.py:44-48 | the bandit's pick in its context |
| Learning.MeanInRange | energy_rl/agents.py:49-51 | a mean of utilities is within the range of the utility |
| Learning.EstimatesInRange | energy_rl/agents.py:49-51 | so every estimate of a bandit that an episode trained is in [-0.25, 1] |
| Learning.Act | energy_rl/agents.py:83 | each agent's action is its pick, and one of the table |
| Learning.Update | energy_rl/agents.py:88 | an update with a utility teaches the agent that reward, exactly, and keeps it healthy |
| Learning.LessonOfLearner | energy_rl/agents.py:66-69 | a lesson of the learner: 0.85 of the distance to the reward plus 0.95 of the best value after it is left, no such value at the end, and nothing else changes |
| Learning.LessonOfBandit | energy_rl/agents.py:49-51 | a lesson of the bandit: one reward more in the count and in the mean of its arm, and nothing else changes |
| Learning.Episode | energy_rl/agents.py:78-92 | over any episode of the learner, the bandit or a fixed action, and any draws: a session of turns, each the pick of what the agent knew, 256 tokens on the phone at that cache size and clock, and a lesson; it ends early only on an empty battery; the report is the mean utility of the turns, in range, with the tokens, the share throttled and the temperature |
| Learning.SessionNext | energy_rl/agents.py:78-92 | a session is extended by a turn on the phone and with the agent that the last one left |
| Learning.TurnRuns | energy_rl/agents.py:84-86 | a turn decodes 256 tokens at the cache size of the pick and its clock, or at 883 MHz from 62 degrees on; the charge pays the energy and the reward is the utility at what is left |
| Learning.TurnTeaches | energy_rl/agents.py:86-88 | what is learned from it, the last turn of a battery having nothing after it |
| Learning.ChargeFalls | energy_rl/agents.py:82-89 | over a session the charge never rises |
| Learning.SameMind | energy_rl/agents.py:82-89 | without learning, what the agent knows in the beginning decides every turn |
| Learning.ActionTable | energy_rl/agents.py:9-11 | the nine actions: three cache sizes, each at three clocks |

## Left out

- Wilcoxon.SignedRank: above 25 nonzero deltas no p-value is stated, because the normal approximation is not modelled; neither are the SciPy branches of the scoring scripts.
- KvCache.Cache.Decode: a decode that fails, which ends the benchmark's run, is not represented.
- Eviction.ApplyEviction: one sequence addressed by position; removal by cell index is `CellBuffer.Buffer.ApplyEviction`, on the slots.
- Anchoring.AnchorSurvivors: the fixed top-k form, addressed by position; a coverage target and the bypass of the per-head gate are not modelled.
- Anchoring.GateThenAnchor: that every sink is kept needs every score below the 1e30 that marks a sink, as averaged attention is.
- DecodeEviction.TieredRun: a negative recent budget, which the command line would accept, is not modelled; by cell index both variants do nothing, and that the tokens of an image share a position is not represented there.
- SllmWindow.RunRefinesWindow: needs K > n_sink and an unpadded capture; `SllmWindow.Run` states what is live for K <= n_sink, and `PaddedWindow.PaddedRunHeals` when the same holds on a padded capture.
- CellBuffer.Buffer.Compact: tensors are arrays of rows, one per embedding dimension where the values are stored transposed, and each is moved in turn; the search head, which only says where the next free slot is looked for, and the release of the dead tail to the operating system are not modelled.
- Scheduler: the text trace of the walk and the parsing of the table are left out.
- Floating point: rounding, NaN and infinities are not modelled; `real` arithmetic takes their place, and `-INFINITY` becomes "no slope".
- Integer width: counts, sizes and positions are unbounded, except the 32-bit counts of the sidecar file. A sidecar row of 2^32 positions or more, whose width the file cannot hold, is not modelled.
- The paired t-test, effect sizes, bootstrap and odds ratios: floating-point numerics.
- The cache behind the memory calls: `KvCache.Cache` states the contract of removal, shift and one-token decode that the eviction code relies on. Of the fork's own cache code, removal by cell index and compaction are modelled, and the rest is not part of this model.
- Attention scores: the policies that compute them (H2O, TOVA, SnapKV, AdaKV, KeyDiff, the entropy and predictive policies) are inputs here. What is modelled is what is done with a score vector or a keep set.
- Anchoring.AnchorGuarantees: needs every score below the 1e30 that marks a sink, as averaged attention is.
- AttnHistory.History.Push: the four maps of the source that are keyed by layer are one map of ring records, and each layer's capture is given as a list of head rows.
- Keep sets are given in some iteration order; the diagnostics printed are left out.
- PruneProbe.Context.Probe: decoding is a deterministic function of the cache and the token that may fail, the state after a failure is unspecified, and absent logits are not modelled. Rows carry the two logit vectors that entropy, divergence and probabilities are computed from, and not those numbers or the timings.
- AttnSidecar.Load: the file is a sequence of four-byte words, so a file cut inside a word, or a count read where a float was written, is only an error here.
- Learning.Episode: the random draws are an input, the exponential is any function into (0, 1] on non-positive arguments.
- Energy-aware tiers: reading the battery sensors and the state file is I/O; the charge, the mains flag and the previous level are inputs.
- Plotting, table and workload generation, report rendering, model conversion and the on-device scripts.
