# hodlx weight computation, modelled in Dafny

This project models the weight-computation core of `hodlx.py`. It has two
parts:

- **The capper**, `compute_weights`. It starts from supplied weights, or from
  the proportional allocation `market_cap / market_cap.sum()`. If
  `max_weight` is given, a ceiling loop runs: entries strictly above the cap
  are clamped to it, and their excess goes to the free entries in proportion
  to market cap. An entry is free when it is neither above nor exactly at the
  cap. If `min_weight` is given, a floor loop then does the mirror image.
- **The tiered 4.5%/20%/50% scheme**, `compute_modified_weights`. It
  optionally truncates the universe to the first `n` assets and normalises
  it. It then splits the assets into a large bucket (weight above 4.5%, plus
  the first five positions when fewer than five qualify) and a small bucket.
  Each bucket is rescaled to total 0.5. The capper runs on each bucket, with
  [5%, 20%] bounds for the large bucket and a 4.5% ceiling for the small one.
  The results are merged back into place and sorted by weight, largest first.

Weights are exact `real`s instead of float64, so the `==` tests of the two
loops are exact. Both loops are one side-parameterised fixed point
(`Capper.Pass`, with `Side = Ceiling | Floor`). Each iteration is a
`Capper.Step`. The loop terminates because every step pins at least one more
entry exactly at the bound; the measure is the number of entries not yet
pinned. The source has no iteration guard, and the model adds none.

Files:

- `vectors.dfy`: sums, scaling, counting and masks.
- `capper.dfy`: `compute_weights`.
- `sorting.dfy`: the final descending sort.
- `tiered.dfy`: `compute_modified_weights`.
- `scenarios.dfy`: a worked six-asset example.

The tiered scheme is described in the code only as the "4.5%/20%/50% capping
method from MVIS" (hodlx.py:92). Where the code departs from what that name
suggests, or from what a caller might expect, the model follows the code:

- The code forces the first five *positions* into the large bucket
  (`large_weights[:5] = True`), not the five largest weights. The two agree
  whenever the first five positions hold the five largest weights, as they do
  for a market-cap ranking.
- No error is raised for infeasible bounds, empty or zero-sum input, or
  non-convergence. Feasibility is a hypothesis of the properties that need
  it, never a precondition of the operations. With infeasible bounds every
  entry can end up clamped, with no free entry left to pay or be paid. The
  ceiling loop then silently loses weight and the floor loop silently creates
  it (`Scenarios.CeilingLosesWeight`, `Scenarios.FloorCreatesWeight`).
- The output need not total 1. Suppose every asset lands in the large bucket,
  and the large bucket is feasible: three to ten assets, so that 0.5 fits
  within [5%, 20%] per asset. Then the small half is missing and the weights
  total 0.5. Any universe of three to five assets does this
  (`Tiered.SmallUniverseTotalsHalf`). With fewer than three or more than ten
  large assets, the large half itself is off 0.5.
- An empty universe gives an empty result, as numpy does, rather than an
  error.

## Model

| member | source | states |
|---|---|---|
| Capper.Step | hodlx.py:59-82 | One iteration of either loop. Over-bound entries end exactly at the bound, and entries already at it are unchanged. While some entry is out of bound, every free entry moves strictly toward the bound: up under a ceiling, down under a floor. A floor step raises an entry only by clamping it up to exactly `min_weight`. When a free entry exists, the total is unchanged. Any two free entries change in the ratio of their market caps. |
| Capper.RedistributeProportional | hodlx.py:65-66 | Whatever the per-unit share, the changes of any two free entries stand in the ratio of their market caps. |
| Capper.Redistribute | hodlx.py:65-66 | Entry by entry: an entry beyond the bound is clamped to it, an entry at the bound is kept, and a free entry gains the share times its market cap. The length is unchanged. |
| Capper.Share | hodlx.py:64-66 | The per-unit share of the excess, times the free entries' total market cap, gives back exactly the excess whenever that total is non-zero. |
| Capper.ShareConserves | hodlx.py:64-66 | The excess cut off the clamped entries equals the amount paid to the free entries, in proportion to market cap, whenever a free entry exists. |
| Capper.FeasibleHasFree | hodlx.py:63-66 | If `max_weight * count >= total` (or `min_weight * count <= total` for the floor) and some entry is out of bound, some entry is free. So the redistribution has a recipient. |
| Capper.StepPinsMore | hodlx.py:59-66 | A step taken while some entry is out of bound strictly increases the number of entries exactly at the bound. |
| Capper.Pass | hodlx.py:56-84 | The whole ceiling or floor loop. On exit no entry is out of bound. An entry that started at or beyond the bound ends exactly at it. Any other entry ends between its start and the bound, so under a ceiling free entries only increase. With a feasible bound the total is preserved. |
| Capper.RunPass | hodlx.py:57-69 | The `while` loop as written computes `Pass`, and its number of rounds is at most the number of entries not yet at the bound, hence at most `count`. |
| Capper.PassFixedPoint | hodlx.py:62-69 | A vector with no entry out of bound leaves the loop unchanged. |
| Capper.MaybePass | hodlx.py:56-84 | An absent bound skips its loop and leaves the weights as they are. A present bound settles every entry against it. With a feasible bound the total is kept. |
| Capper.CeilingSurvivesFloor | hodlx.py:56-84 | After both loops every entry is at least `min_weight`. If `min_weight <= max_weight`, no entry is above `max_weight` either: the floor loop never lifts an entry over the ceiling. |
| Capper.Start | hodlx.py:53-54 | Supplied weights are used as given. Without them, each starting weight times the cap total equals that entry's cap, and the weights total 1 for a non-empty input. |
| Capper.Proportional | hodlx.py:54 | Each initial weight times the cap total equals that entry's cap. The weights are positive, and they total 1 for a non-empty input. |
| Capper.ComputeWeights | hodlx.py:52-85 | `compute_weights` before rounding. With no bounds the starting weights come back unchanged. With `min_weight` set, no entry is below it. With `max_weight` set, no entry is above it; this still holds after the floor pass when `min_weight <= max_weight`. With only a ceiling every entry is settled against it. Feasible bounds keep the starting total. |
| Capper.UnboundedIsProportional | hodlx.py:53-54 | With no starting weights and no bounds, the result is exactly the proportional allocation `market_cap / sum`. |
| Capper.ComputeWeightsIdempotent | hodlx.py:52-85 | Feeding the result back in as the starting weights, with the same bounds, returns it unchanged (when `min_weight <= max_weight`). |
| Tiered.Truncate | hodlx.py:88-89 | The universe is a prefix of the input: the first `n` assets when `0 <= n <= len`, the whole input when `n` is absent or larger, and Python's negative-slice length otherwise. |
| Tiered.LargeBucket | hodlx.py:98-100 | Every entry with normalised weight above 0.045 is large. When at least five qualify, exactly those are large. Otherwise the large bucket is those plus the first five positions. It always has at least `min(5, count)` members. |
| Tiered.Select | hodlx.py:103-113 | `s[mask]` has one entry per set mask bit, and `s[~mask]` one per clear bit. |
| Tiered.SelectMembers | hodlx.py:103-113 | Every selected entry comes from the input, and every entry on the chosen side of the mask is selected. |
| Tiered.Merge | hodlx.py:107-113 | Writing the two bucket results back into place gives each position a value from its own bucket's result, and the merged total is the sum of the two bucket totals. |
| Tiered.MergeSelect | hodlx.py:101-113 | Splitting a vector into the large bucket and its complement (the small bucket), then merging them back, restores the vector. |
| Tiered.SelectMerge | hodlx.py:101-113 | Merging two bucket vectors and splitting again by the same mask gives back each bucket unchanged. |
| Tiered.RescaleFactor | hodlx.py:103-104 | The factor `0.5 / bucket.sum()` brings a non-empty bucket's total to 0.5, and it is positive. |
| Tiered.Rescale | hodlx.py:103-104 | A non-empty bucket rescaled to target 0.5 totals 0.5, and the ratio between any two of its entries is unchanged. |
| Tiered.MergeKeeps | hodlx.py:107-113 | A property every large-bucket result has, and a property every small-bucket result has, hold at the merged positions drawn from that bucket. |
| Tiered.LargeWeights | hodlx.py:103-110 | The large bucket's capped weights, one per large asset, each lie within [0.05, 0.2]. They total 0.5 when 0.5 fits between 5% and 20% per large asset. |
| Tiered.SmallWeights | hodlx.py:104-113 | The small bucket's capped weights, one per small asset, each lie within (0, 0.045]. They total 0.5 when the bucket is non-empty and 0.5 fits under 4.5% per small asset. |
| Tiered.BucketWeights | hodlx.py:90-113 | In input order, large-bucket weights end within [0.05, 0.2] and small-bucket weights within (0, 0.045]. When both capper calls are feasible the weights total 1. When every entry is large and the large call is feasible (three to ten entries), they total 0.5. |
| Tiered.Holdings | hodlx.py:90-113 | Before sorting, each asset of the universe keeps its symbol and position, and its weight is the one `BucketWeights` gives its position. Every weight lies in (0, 0.2]. The total is 1 when both capper calls are feasible. It is 0.5 when every asset is large and the large call is feasible (three to ten assets). |
| Tiered.ModifiedWeights | hodlx.py:87-115 | The output is sorted by weight in descending order. It is a permutation of the truncated universe's holdings: same length, same symbols. |
| Tiered.ModifiedWeightsWithin | hodlx.py:87-115 | Every output weight lies in (0, 0.2]. The output totals 1 when both capper calls are feasible. It totals 0.5 when every asset is in the large bucket and that call is feasible (three to ten assets). |
| Tiered.SmallUniverseTotalsHalf | hodlx.py:98-113 | With three to five assets every asset is forced into the large bucket, and the output totals 0.5. |
| Sorting.DescendingOrdered | hodlx.py:115 | If each holding weighs at least as much as the next, every holding weighs at least as much as every later one. |
| Sorting.Insert | hodlx.py:115 | Inserting adds exactly the new holding to the multiset of holdings, and the new front is either the new holding or the old front. |
| Sorting.InsertKeepsOrder | hodlx.py:115 | Inserting into a descending sequence keeps it descending. |
| Sorting.SortDescending | hodlx.py:115 | The sorted holdings are descending by weight and a permutation of the input. |
| Sorting.SortKeepsSymbols | hodlx.py:115 | Sorting keeps the multiset of symbols. |
| Sorting.SortKeepsWeight | hodlx.py:115 | Sorting keeps the total weight. |
| Scenarios.CeilingExample | hodlx.py:56-69 | Market caps 500, 300, 100, 60, 25 and 15 under a 35% ceiling give 35%, 35%, 15%, 9%, 3.75% and 2.25%. |
| Scenarios.FloorCreatesWeight | hodlx.py:71-84 | Two equal caps under a 50% floor go from weights 0.3, 0.3 to 0.5, 0.5, so the total grows from 0.6 to 1. |
| Scenarios.CeilingLosesWeight | hodlx.py:56-69 | Two equal caps under a 30% ceiling go from weights 0.6, 0.6 to 0.3, 0.3, so the total shrinks from 1.2 to 0.6. |
| Scenarios.ForcedTopFive | hodlx.py:98-100 | For those six assets only four exceed 4.5%, so the large bucket is the first five positions. |

## Left out

- Fetching, caching and saving data (`make_get_request`, `fetch_cmc_ranking`, `save_weights`, the storage path and API base URL): HTTP and CSV I/O with no algorithmic content.
- The `__main__` example and the plotting import: presentation only.
- Rounding to `decimals` places (hodlx.py:85): every result is the exact value before rounding. This includes the per-bucket capper results inside the tiered scheme, which the code rounds to 4 places. Float tolerance reasoning is out of scope.
- float64 arithmetic: exact reals are used throughout. The code computes `excess * cap / free_cap`, while the model pays `excess / free_cap` per unit of cap; the two are equal over the reals.
- Zero or negative market caps: every operation requires strictly positive caps. If the free caps summed to zero, numpy would produce NaN, which the model does not represent.
- Tie-breaking in the final sort: pandas' default sort is not stable, so only "descending and a permutation" is stated.
- pandas label alignment when bucket results are written back: the model writes them back by position. This is the same as label alignment when asset symbols are unique.
- In-place update of supplied weights: when `weights` is passed, `compute_weights` adjusts that Series in place (hodlx.py:65-66, 81-82) as well as returning it. The model is pure and returns a new vector. The difference is invisible to `compute_modified_weights`, which passes a fresh Series made by boolean indexing (hodlx.py:107-113).
- Error signalling and an iteration cap for infeasible bounds, bad input or non-convergence: the code has none. The loops provably terminate over the reals, and feasibility appears only as a hypothesis of the properties that need it.
