# Roster search core of formulab, modelled in Dafny

formulab helps build an F1 Fantasy roster: five drivers and two teams whose
total price stays within a cap of 100 (million). The user pins some drivers and
teams; the search enumerates every way to fill the remaining slots from the
unpinned catalog rows, keeps the completions that fit the remaining budget,
ranks them by points (highest first, ties in enumeration order) and returns the
best `top_n`. A second function counts the same completions with a cheaper
pruned loop, a third maps a points total to an approximate rank, and an offline
script walks the whole unpinned space to count the rosters within the cap and
find the lowest- and highest-scoring ones.

The model is functional. Catalog rows are immutable `Item` records, prices and
points are exact `real`s (the code only adds and compares them), picks come
from a recursive `Combinations` that yields them in `itertools.combinations`
order, and the ranking is a stable insertion sort. The offline scan is a method
whose nested loops mirror the script.

| file | module | models |
|---|---|---|
| results.dfy | `Results` | `Option` / `Result` for `None` and raised exceptions |
| combinatorics.dfy | `Combinatorics` | `itertools.combinations`, subsequences, binomial counts |
| items.dfy | `Items` | catalog rows, column sums, the `isin` / `~isin` masks |
| ranking.dfy | `Ranking` | the driver-major feasibility loop, the stable descending sort, `[:top_n]` |
| search.dfy | `Search` | `find_best_combinations`, `count_valid_combinations` (app.py) |
| rank_estimate.dfy | `RankEstimate` | `estimate_rank` (app.py) |
| offline_stats.dfy | `OfflineStats` | `find_all_valid_combinations` (compute_stats.py) |

Modelling choices, all following the code:

- Pinned names are looked up with `isin`. A pinned name that no catalog row
  carries adds no cost and no points (app.py:31, 39, 45). It still takes a slot,
  because the slot count is `5 - len(selected_drivers)` (app.py:50). This is not
  an error.
- More than five pinned drivers, or more than two pinned teams, give a negative
  pick size. `itertools.combinations` then raises `ValueError`, modelled as
  `Failure(NegativeSlotCount)`.
- The fourth field of a ranked entry is the cost of the ADDED rows only. The
  points field includes the pinned points.
- `top_n` follows Python slice semantics, so a negative value drops entries from
  the end.
- The slot counts 5 and 2 are hardcoded at app.py:50-51 and compute_stats.py:21-22,
  and are constants here.
- `estimate_rank` uses `int()`, which rounds toward zero. Above `max_points`
  the scaled quotient is negative, so the result is one more than rounding down
  would give whenever that quotient is not a whole number (1750 points: -171
  against -172). With the literal `+ 1`, the minimum score maps to 297308, one past the
  total.
- `estimate_rank` raises `ZeroDivisionError` when the maximum equals the
  minimum, modelled as `Failure(ZeroPointsRange)`.
- `selected_drivers=None` and `selected_teams=None` are modelled as empty
  sequences of names. The code treats the two alike: every `if selected_...`
  test is false for both, and the slot count subtracts 0 (app.py:30, 50).
- The defaults `max_cost=100` (app.py:21, 77 and compute_stats.py:13) and
  `top_n=5` (app.py:21) are not built in: every caller passes
  `maxCost` and `topN` explicitly.

## Model

| member | source | states |
|---|---|---|
| Combinatorics.Combinations | app.py:53-54 | the picks of `k` rows in `itertools.combinations` order (the definition: picks with the first row, then picks without it); characterised by CombinationsSound, CombinationsComplete, CombinationsCount and CombinationsDistinct |
| Combinatorics.CombinationsSound | app.py:53-54 | every pick has exactly `k` elements and is a subsequence of the pool |
| Combinatorics.CombinationsComplete | app.py:53-54 | every `k`-element subsequence of the pool is among the picks |
| Combinatorics.CombinationsCount | app.py:53-54 | there are exactly Binomial(pool size, k) picks (Pascal's rule as the independent count) |
| Combinatorics.CombinationsDistinct | app.py:53-54 | over a pool without repeated rows no pick is listed twice and no pick repeats a row |
| Combinatorics.CombinationsTooFew | app.py:53-54 | a pool smaller than `k` yields no picks rather than an error |
| Items.SumCost | app.py:31-33 | the `cost` column sum of some rows, 0 for none (the definition); MasksSplitSums and SumCostNonNegative characterise it |
| Items.SumPoints | app.py:39-41 | the `points` column sum of some rows, 0 for none (the definition); MasksSplitSums characterises it |
| Items.Pinned | app.py:29-41 | a row is pinned exactly when it is in the catalog and its name is among the pinned names |
| Items.Unpinned | app.py:43-47 | a row stays in the pool exactly when it is in the catalog and its name is not pinned |
| Items.PinnedIsSubseq | app.py:31-39 | the `isin` mask keeps the pinned rows in catalog order |
| Items.MasksPartition | app.py:31-47 | the `isin` and `~isin` masks split the catalog: the two results together hold every row exactly as often as the catalog does |
| Items.MasksSplitSums | app.py:31-47 | the pinned rows' price plus the pool's price is the catalog's price, and likewise for points, so every pinned row is counted once in `used_budget` and `selected_points` |
| Items.UnpinnedIsSubseq | app.py:43-47 | dropping pinned rows keeps the rest in catalog order |
| Items.NoPins | app.py:30-47 | with no pins nothing is pinned and the pool is the whole catalog, matching the skipped `if selected_...` branches |
| Items.UnknownNameIgnored | app.py:29-47 | pinning a name no row carries changes neither the pinned rows nor the pool |
| Ranking.Assemble | app.py:60-69 | the tuple appended for a driver pick and a team pick: both picks, pinned points plus both picks' points, and both picks' cost (the definition) |
| Ranking.Row | app.py:59-69 | the inner loop for one driver pick (the definition); characterised by RowMembership |
| Ranking.Feasible | app.py:58-69 | both loops, driver-major (the definition); characterised by FeasibleMembership and ExactBudgetAccepted |
| Ranking.RowMembership | app.py:59-69 | a record is collected for a driver pick exactly when it is some team pick's record and fits the budget |
| Ranking.FeasibleMembership | app.py:58-69 | a record is collected exactly when both picks were enumerated, its points and added cost are the pair's, and the added cost is at most the budget |
| Ranking.ExactBudgetAccepted | app.py:60-61 | a pair whose cost equals the budget exactly is kept (inclusive test) |
| Ranking.RowPruneSound | app.py:107-110 | a driver pick that alone exceeds the budget contributes no record when team-pick costs are non-negative |
| Ranking.Insert | app.py:74 | inserting adds exactly the new record to the multiset of records |
| Ranking.InsertSorted | app.py:74 | inserting into a descending list keeps it descending |
| Ranking.SortDesc | app.py:74 | the sort returns a permutation of its input, ordered by points from highest to lowest |
| Ranking.SortDescStable | app.py:74 | for every points value the records with that value keep their enumeration order |
| Ranking.SlicePrefix | app.py:75 | `s[:n]` is a prefix of `s` of length min(n, len(s)) for non-negative `n`, and of length max(len(s) + n, 0) for negative `n` |
| Search.PinnedCost | app.py:29-33 | `used_budget`: the price of the catalog rows carrying a pinned name (the definition); MasksSplitSums fixes its multiplicity |
| Search.PinnedPoints | app.py:37-41 | `selected_points`: the points of the catalog rows carrying a pinned name (the definition); MasksSplitSums fixes its multiplicity |
| Search.FullRanking | app.py:53-69 | the feasible list of a prepared search before sorting (the definition); characterised by FindBestEntries and FindBestEmptyIff |
| Search.Prepare | app.py:28-51 | fails exactly when more than 5 drivers or 2 teams are pinned; otherwise every pinned name takes a slot, the budget is the cap minus the pinned rows' cost, and the pools are the unpinned catalog rows |
| Search.FindBestCombinations | app.py:21-75 | fails exactly when a slot count goes negative; otherwise returns a list descending in points with at most `top_n` entries |
| Search.FindBestEntries | app.py:29-69 | each entry adds exactly the open number of drivers and teams, all catalog rows with unpinned names; its cost is the added rows' cost and at most cap minus pinned cost; its points are pinned points plus added points |
| Search.FindBestLength | app.py:71-75 | for non-negative `top_n` the result has min(top_n, number of feasible completions) entries |
| Search.FindBestPrefix | app.py:74-75 | the result for `n` is a prefix of the result for any `m >= n` |
| Search.FindBestOptimal | app.py:74-75 | every feasible completion left out scores at most every returned entry |
| Search.FindBestStable | app.py:74-75 | for every points value the returned entries with that value are the earliest such completions, in enumeration order |
| Search.FindBestPoolTooSmall | app.py:50-72 | a pool smaller than its open slot count gives an empty list, not an error |
| Search.FindBestEmptyIff | app.py:58-72 | for positive `top_n` the result is empty exactly when no pair of picks fits the remaining budget |
| Search.FindBestDistinctPicks | app.py:43-54 | over a catalog without repeated rows the added drivers and added teams have no repeats |
| Search.UnknownPinTakesSlot | app.py:29-51 | pinning a driver name absent from the catalog leaves budget, pinned points and pools unchanged but removes one open slot |
| Search.CountRow | app.py:112-115 | the inner counting loop (the definition); CountRowMatches equates it with the length of the ranker's row |
| Search.CountPruned | app.py:107-115 | the outer counting loop with its `continue` (the definition); CountPrunedMatches equates it with the length of the ranker's list |
| Search.CountValidCombinations | app.py:77-117 | fails exactly when a slot count goes negative |
| Search.CountRowMatches | app.py:112-115 | the inner counting loop counts exactly the records the ranker's inner loop collects |
| Search.CountPrunedMatches | app.py:107-117 | with non-negative team-pick costs the pruned count equals the length of the ranker's feasible list |
| Search.CountAgreesWithRanker | app.py:77-117 | with non-negative team prices the counter fails exactly when the ranker fails, and otherwise equals the ranker's untruncated list length, which a large enough `top_n` returns in full |
| RankEstimate.Trunc | app.py:125 | the result is the integer nearest to its argument on the side of zero, as Python's `int()` on a float |
| RankEstimate.EstimateRank | app.py:119-126 | fails exactly when the points range is empty |
| RankEstimate.RankAtMaximum | app.py:119-126 | 1749 points give rank 1 |
| RankEstimate.RankAtMinimum | app.py:119-126 | 25 points give rank 297308, one past the number of rosters |
| RankEstimate.TruncMonotone | app.py:125 | rounding toward zero preserves order |
| RankEstimate.EstimateRankMonotone | app.py:123-126 | more points never give a larger rank number |
| RankEstimate.EstimateRankBounds | app.py:119-126 | scores within the observed range get a rank from 1 to the total plus one |
| RankEstimate.RankAboveMaximumTruncates | app.py:125 | 1750 points give -171 where rounding down would give -172 |
| OfflineStats.AllFeasible | compute_stats.py:21-48 | the rosters the offline scan keeps, driver-major (the definition); OfflineIsUnpinnedSearch equates it with the unpinned interactive list |
| OfflineStats.Observe | compute_stats.py:48-56 | one step of the scan: count the roster and apply the strict `<` and `>` updates (the definition); ObserveTracked characterises it |
| OfflineStats.Scan | compute_stats.py:24-56 | the scan's state after a list of rosters, starting from no minimum (`inf`) and a maximum of `0` (the definition); ScanTracked characterises it |
| OfflineStats.FindAllValidCombinations | compute_stats.py:13-58 | the count is the number of (5-driver, 2-team) rosters within the cap; the minimum is absent exactly when there are none and is otherwise the first roster with the fewest points; the maximum is absent exactly when no roster scores above 0 and is otherwise the first roster with the most points; both record that roster's total cost, which is within the cap |
| OfflineStats.ScanRow | compute_stats.py:35-56 | after the inner loop the running count, minimum and maximum are exactly the per-roster update folded over every roster seen so far, this driver pick's row included |
| OfflineStats.ScanTracked | compute_stats.py:24-56 | folding the per-roster update over a list gives its length, its first minimum (absent only for an empty list) and its first maximum (absent exactly when nothing scores above 0) |
| OfflineStats.ObserveTracked | compute_stats.py:48-56 | accounting for one more feasible roster keeps count, first minimum and first maximum correct for the longer list |
| OfflineStats.OfflineIsUnpinnedSearch | compute_stats.py:21-48 | with nothing pinned the interactive search collects exactly the rosters the offline scan visits, in the same order |
| OfflineStats.RankerHeadIsFirstMax | compute_stats.py:54-56 | the head of the stable ranking is the first roster in enumeration order that reaches the highest score |
| OfflineStats.TopOneIsOfflineMax | compute_stats.py:54-56 | with nothing pinned, `top_n=1` returns the roster the offline scan records as its maximum |

## Left out

- `load_data` in both files: CSV reading and the `str.replace` / `str.title`
  name normalisation are I/O and library behaviour. The catalog is given as
  sequences of `Item`.
- `main` in app.py: Streamlit widgets, session state, reruns and rendering,
  including the value ratio and contribution percentages. This is display code
  and float formatting.
- `print_combo_details`, `main` and the progress printing in compute_stats.py.
  This is console output.
- The `points_2024` to `points` column rename and the dataframe copies. Rows
  carry `points` from the start.
- Floating-point rounding. Prices, points and the division in `estimate_rank`
  are exact reals, so sums do not depend on evaluation order.
- Idempotence of the queries holds by construction: every operation is a pure
  function of its arguments.
- Search.CountAgreesWithRanker: requires non-negative team prices. With a
  negative team price, the prune at app.py:109 can skip a driver pick that
  some team pick would bring back within budget. The two functions then
  disagree, as the code does.
- Search.CountPrunedMatches and Ranking.RowPruneSound: require non-negative
  team-pick costs for the same reason. The catalog's prices are non-negative.
