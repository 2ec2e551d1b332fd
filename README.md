# Cell calling and barcode correction, modelled in Dafny

This project models two parts of the cell_cosmo single-cell pipeline and proves properties of the model.

1. **Cell calling** (`cell_cosmo/tools/aa/stats.py`). It has five modules.
   - The order-of-magnitude filter and its fixed-cutoff variant (`OrdMag`).
   - The ambient background profile built from the barcodes with the fewest UMIs (`Background`).
   - The observed multinomial log-likelihood of every barcode, computed chunk by chunk (`Likelihood`).
   - The Monte-Carlo null distribution of log-likelihoods for every distinct UMI total (`NullSim`). This is the incremental simulation algorithm of Lun et al.
   - The empirical p-values (`PValues`).
2. **Barcode correction** (`cell_cosmo/util/BarcodeCorrectUtil/get_correct_dict.py`). This is `BarcodeCorrect`. The intended/neighbour barcode table carries a `filter_reason` column and a scratch `rank` column, both updated in place.
   - Six filters stamp reasons on the rows they reject.
   - The rows left unmarked are stamped `Passed:NeedCorrectBarcode`.
   - Those rows give the correction dictionary, mapping neighbour to intended barcode.

Shared vocabulary lives in two more modules.
- `Common` holds the Python exceptions, sums and counts.
- `Sorting` holds the numpy ordering primitives: `argsort`, `sort`, `[::-1]`, `[:n]`, `searchsorted` and `flatnonzero`.

## Modelling choices

- **Imperative code stays imperative.**
  - The chunk loop of `eval_multinomial_loglikelihoods` is a method with a loop.
  - The simulator is a family of methods. They work over an `array2<real>` table, an `array<int>` of running counts and an `array<nat>` feature buffer.
  - The p-value loop writes into an array.
  - The pandas table of the filter chain is a class, `ItdNbrTable`. Its `reason` and `rank` columns are arrays that each filter method updates under a `modifies` clause.
- **Specification functions.** Every method is proved against a function on values. For example, `NullSim.Run` gives the running counts and log-likelihood after row `i` of replicate `s`. `BarcodeCorrect.AfterStep1` … `AfterStep6`, `FinalReasons` and `CorrectDict` give the reason column after each filter. The lemmas are about those functions.
- **numpy primitives are definitions.** `Sorting.Reverse`, `Background.BarcodeTotals`, `CumSum`, `CumFrac`, `FeatureRow`, `FeatureSums`, `Normalize`, `NullSim.Bincount`, `LogProfile`, `PValues.Row` and `OrdMag.BootstrapTopN` define a numpy operation entry by entry. Their pointwise `ensures` spell out that definition. The properties that matter are proved about them separately: `ReverseMultiset`, `CumSumLast`, `ThresholdPrefix`, `NormalizeSum`, `DistinctValuesCorrect` and `BootstrapMeanBounds`.
- **Pure numerics are functions.** The order-of-magnitude filter and the background profile are functions over exact integers and rationals.
- **Randomness, floating point and scipy calls are parameters.**
  - The bootstrap resamples are `draws`.
  - The multinomial draws are `rvs(sim, row, n)`.
  - The pooled feature stream of `np.random.choice` is `pool(q)`.
  - `logpmf` and `log` are function parameters.
  - Shares, fractions and p-values are exact `real`s.
- **The multinomial recurrence** (`curr_loglk += log p[j] + log(n / c[j])`) is proved exact under one stated hypothesis, `NullSim.MultinomialStep`. This is the log-pmf identity for adding one UMI. With it, every entry of the simulated table is the exact log-pmf of the running counts, whichever branch filled the row.
- **Rank steps.** Each pandas `groupby(...).rank(...)` is described by counting the rows of the same group that rank ahead: `Preceding`, `RankOf`. Rows outside the slice keep rank 10000.
  - `method='first'` counts rows with a smaller key, or an equal key earlier in the table.
  - `method='max'` counts rows with a key no larger.
  - From this the model proves what each step keeps: `Step2Survivor`, `Step4Survivor`.
  - Step 3 never marks anything (`Step3NoOp`). After step 2 every (intended, neighbour) group has at most one unmarked row left (`Step2Unique`).
- **Code versus documented intent.** Where the code and the documented behaviour differ, the model follows the code.
  - `bottom_frac = 1` does not build the background from every barcode. The left `searchsorted` stops at the last cumulative share, 1.0, so the barcode with the most UMIs is always left out (`Background.FullFractionExcludesLargest`).
  - `compute_ambient_pvalues` does not require a barcode's total to appear among the simulated totals. `searchsorted` picks the first simulated total at or above it. Only a total above every simulated one fails, with an IndexError.
  - The p-value is exactly 1 when every simulated value is lower (`PValues.PValueBounds`). A higher observed log-likelihood never lowers the p-value (`PValues.BarcodePValueMonotone`).
  - The ordmag filter returns the "no barcodes" warning before it checks the recovered-cell ceiling. So a non-positive `recovered_cells` fails only when some count is positive.
  - The step-6 reason text reads "percent of nbr umis < limit", but the rows it marks are those whose group percent is above the limit.

## Model

| member | source | states |
|---|---|---|
| OrdMag.RoundHalfEven | cell_cosmo/tools/aa/stats.py:42 | the result is an integer nearest to `a / b` (within half of `b`), and on a tie it is the even one, as Python's `round` does |
| OrdMag.Cutoff | cell_cosmo/tools/aa/stats.py:49 | `max(1, round(baseline / 10))`: the cutoff is 1 exactly when the baseline is at most 14, and otherwise ten times the cutoff is within 5 of the baseline; for a positive baseline it never exceeds the baseline |
| OrdMag.FindWithinOrdmag | cell_cosmo/tools/aa/stats.py:46-51 | `len(x) - searchsorted(sorted, cutoff)` is the number of values at or above the cutoff, at most `len(x)` |
| OrdMag.BaselineRanked | cell_cosmo/tools/aa/stats.py:47-48 | the baseline is a value of `x`; at least `baseline_idx` values reach it and fewer exceed it; index 0 gives the minimum |
| OrdMag.BaselineAt | cell_cosmo/tools/aa/stats.py:47-48 | the baseline is the ascending sort at `len - baseline_idx`, or at 0 |
| OrdMag.SortedRank | cell_cosmo/tools/aa/stats.py:47-48 | in ascending order, `s[at]` is reached by at least `len - at` entries and exceeded by fewer |
| OrdMag.FindWithinOrdmagLowerBound | cell_cosmo/tools/aa/stats.py:46-51 | for positive counts a replicate keeps at least max(1, baseline_idx) barcodes, and all of them when the index is 0 |
| OrdMag.Nonzero | cell_cosmo/tools/aa/stats.py:69 | `bc_counts[bc_counts > 0]` has one entry per positive count, all positive, and holds every positive value exactly as often as `bc_counts` does |
| OrdMag.CeilingAssertion | cell_cosmo/tools/aa/stats.py:75-77 | `assert baseline_bc_idx < max_filtered_bcs` holds exactly when `recovered_cells >= 1` |
| OrdMag.BaselineRankNonNegative | cell_cosmo/tools/aa/stats.py:75-77 | once the assertion passes, the baseline index is a valid rank into the nonzero counts |
| OrdMag.ReplicateBounds | cell_cosmo/tools/aa/stats.py:80-84 | every bootstrap replicate keeps between 1 and #nonzero barcodes |
| OrdMag.BootstrapTopN | cell_cosmo/tools/aa/stats.py:80-84 | one `find_within_ordmag` result per bootstrap resample, each on the resampled nonzero counts |
| OrdMag.RoundedMeanBounds | cell_cosmo/tools/aa/stats.py:42 | the rounded mean of values in [lo, hi] lies in [lo, hi] |
| OrdMag.BootstrapMeanBounds | cell_cosmo/tools/aa/stats.py:80-89 | `filtered_bcs` lies between 1 and the number of nonzero counts |
| OrdMag.ReversedArgSorted | cell_cosmo/tools/aa/stats.py:90 | reversing a stable ascending argsort gives a permutation by non-increasing count |
| OrdMag.DescendingOrder | cell_cosmo/tools/aa/stats.py:90 | `argsort(bc_counts)[::-1]` lists every index once, by non-increasing count |
| OrdMag.TopOfDescending | cell_cosmo/tools/aa/stats.py:90 | any ascending rearrangement of a prefix of the descending order is a top selection |
| OrdMag.PositiveHead | cell_cosmo/tools/aa/stats.py:90 | in non-increasing values, the first #positive entries are positive |
| OrdMag.PositiveOfDescending | cell_cosmo/tools/aa/stats.py:90 | a prefix no longer than #positive selects only positive counts |
| OrdMag.TopPrefix | cell_cosmo/tools/aa/stats.py:90 | `[:top_n]` is a repetition-free prefix of the descending permutation |
| OrdMag.DescendingValues | cell_cosmo/tools/aa/stats.py:90 | the counts read in descending order are a rearrangement of the counts |
| OrdMag.SortedPrefix | cell_cosmo/tools/aa/stats.py:90 | the outer `np.sort` gives a strictly ascending rearrangement of the prefix |
| OrdMag.TopBarcodesCorrect | cell_cosmo/tools/aa/stats.py:90 | `np.sort(argsort[::-1][:top_n])` is strictly ascending, no unselected barcode has a larger count, and it keeps min(top_n, n) barcodes (negative `top_n` drops from the end) |
| OrdMag.TopBarcodesPositive | cell_cosmo/tools/aa/stats.py:90 | when `top_n` does not exceed #nonzero, every kept barcode has a positive count |
| OrdMag.FilterOrdMagCorrect | cell_cosmo/tools/aa/stats.py:54-91 | all-zero counts give no indices and the warning; otherwise it fails exactly when `recovered_cells <= 0`; on success it keeps 1..#nonzero top barcodes, all positive, as many as `filtered_bcs`, and `max_filtered_bcs = 6 * recovered_cells` (3000 by default) |
| OrdMag.FilterFixedCutoffCorrect | cell_cosmo/tools/aa/stats.py:94-106 | `top_n = min(cutoff, #nonzero)`; the returned indices are a top selection; for a non-negative cutoff they are `top_n` barcodes, all with positive counts |
| OrdMag.FixedCutoffExample | cell_cosmo/tools/aa/stats.py:94-97 | counts [5, 0, 3, 9, 1] with cutoff 2 keep barcodes [0, 3] |
| OrdMag.ExampleNonzero | cell_cosmo/tools/aa/stats.py:95 | [5, 0, 3, 9, 1] has four nonzero counts |
| OrdMag.ExampleTopTwo | cell_cosmo/tools/aa/stats.py:97 | the only top selection of two from [5, 0, 3, 9, 1] is [0, 3] |
| Sorting.Insert | cell_cosmo/tools/aa/stats.py:119 | inserting an index keeps the row of indices valid and one longer |
| Sorting.InsertMultiset | cell_cosmo/tools/aa/stats.py:119 | insertion adds exactly the inserted index |
| Sorting.ArgSortPermutation | cell_cosmo/tools/aa/stats.py:119 | `np.argsort` returns a permutation of the index range |
| Sorting.InsertArgSorted | cell_cosmo/tools/aa/stats.py:119 | insertion keeps the stable ascending order |
| Sorting.ArgSortSorted | cell_cosmo/tools/aa/stats.py:119 | `np.argsort` orders indices by value, ties by index |
| Sorting.ArgSortFacts | cell_cosmo/tools/aa/stats.py:119 | `np.argsort` lists every index exactly once, in stable ascending order |
| Sorting.ArgSort | cell_cosmo/tools/aa/stats.py:119 | `np.argsort` returns as many indices as values, each a valid index |
| Sorting.RangePermutationDistinct | cell_cosmo/tools/aa/stats.py:119 | a permutation of the index range has no repetitions |
| Sorting.ValuesArgSortPrefix | cell_cosmo/tools/aa/stats.py:121 | the values gathered by the argsort are a rearrangement of the input |
| Sorting.SortCorrect | cell_cosmo/tools/aa/stats.py:47 | `np.sort` returns an ascending permutation of its input |
| Sorting.SortDistinctStrict | cell_cosmo/tools/aa/stats.py:90 | sorting a repetition-free sequence gives a strictly ascending one |
| Sorting.Reverse | cell_cosmo/tools/aa/stats.py:90 | `[::-1]` has the same length and entry `k` is entry `len - 1 - k` of the input |
| Sorting.ReverseMultiset | cell_cosmo/tools/aa/stats.py:90 | `[::-1]` is a rearrangement |
| Sorting.PyPrefix | cell_cosmo/tools/aa/stats.py:90 | Python `s[:n]` is a prefix of length min(n, len), or len + n for negative `n` (at least 0) |
| Sorting.SearchSortedLeft | cell_cosmo/tools/aa/stats.py:239 | `np.searchsorted(side='left')` is the first index whose value is at least `v`, every earlier value below it |
| Sorting.SearchSortedLeftCounts | cell_cosmo/tools/aa/stats.py:51 | on sorted input, `len - searchsorted(v)` equals the number of values `>= v` |
| Sorting.FlatNonzero | cell_cosmo/tools/aa/stats.py:125 | `np.flatnonzero` lists, strictly ascending, exactly the nonzero positions |
| Background.CumSum | cell_cosmo/tools/aa/stats.py:121 | entry `k` of `np.cumsum` is the sum of the first `k + 1` values |
| Background.BarcodeTotals | cell_cosmo/tools/aa/stats.py:118 | `matrix.sum(0)`: one total per barcode, the sum of its column |
| Background.CumFrac | cell_cosmo/tools/aa/stats.py:121 | entry `k` is the cumulative total of the first `k + 1` sorted barcodes over the grand total |
| Background.CumSumLast | cell_cosmo/tools/aa/stats.py:121 | the last cumulative total is the grand total |
| Background.SearchSortedLeftReal | cell_cosmo/tools/aa/stats.py:122 | the left insertion point: every earlier share below `bottom_frac`, the one at it reaching it |
| Background.BackgroundSizeBound | cell_cosmo/tools/aa/stats.py:122 | `max_bg_idx` never exceeds the number of barcodes |
| Background.BackgroundBarcodes | cell_cosmo/tools/aa/stats.py:123 | `barcode_order[0:max_bg_idx]` holds valid barcode indices |
| Background.BackgroundProfileCorrect | cell_cosmo/tools/aa/stats.py:109-130 | a fraction outside [0, 1] or an all-zero matrix fails the assertion; otherwise it fails exactly when every background feature sum is zero; on success `nz_feat` lists, ascending, exactly the features with positive background counts and `p` holds their positive shares summing to 1 |
| Background.FeatureSumsNonNegative | cell_cosmo/tools/aa/stats.py:125-126 | background feature sums of UMI counts are non-negative |
| Background.FeatureSums | cell_cosmo/tools/aa/stats.py:125-126 | `bg_mat.sum(1)`: one sum per feature, over the selected barcodes only |
| Background.Normalize | cell_cosmo/tools/aa/stats.py:127 | `bg_profile / float(np.sum(bg_profile))`, entry by entry |
| Background.NormalizeSum | cell_cosmo/tools/aa/stats.py:127-128 | the normalised profile sums to the total over the divisor |
| Background.ProfileEmpty | cell_cosmo/tools/aa/stats.py:125-127 | the selected sums total zero exactly when every background feature sum is zero |
| Background.NoNonzero | cell_cosmo/tools/aa/stats.py:125 | an all-zero vector has no nonzero features |
| Background.ProfileShares | cell_cosmo/tools/aa/stats.py:125-128 | with a nonzero total, each kept feature gets a positive share and the shares sum to 1 |
| Background.SharesPositive | cell_cosmo/tools/aa/stats.py:127 | positive counts over a positive total give positive shares |
| Background.NonzeroMembers | cell_cosmo/tools/aa/stats.py:125 | a feature is in `nz_feat` exactly when its background count is positive |
| Background.BackgroundBottom | cell_cosmo/tools/aa/stats.py:119-123 | the background is `max_bg_idx` distinct barcodes, none with more UMIs than a barcode left out |
| Background.BackgroundThreshold | cell_cosmo/tools/aa/stats.py:121-122 | every included barcode's cumulative total is below `bottom_frac * total`, and the first excluded one reaches it |
| Background.ThresholdPrefix | cell_cosmo/tools/aa/stats.py:121-122 | comparing cumulative shares with the fraction is comparing cumulative totals with fraction times total |
| Background.ShareBelow | cell_cosmo/tools/aa/stats.py:121-122 | for a positive total, `a / t < frac` exactly when `a < frac * t` |
| Background.BottomOfArgSort | cell_cosmo/tools/aa/stats.py:123 | a prefix of the stable argsort lists distinct barcodes, none above one left out |
| Background.FullFractionExcludesLargest | cell_cosmo/tools/aa/stats.py:117-122 | with `bottom_frac = 1` and a nonzero total, every barcode except the one with the most UMIs is in the background |
| Background.LastShare | cell_cosmo/tools/aa/stats.py:121-122 | only the last cumulative share reaches 1 |
| Background.ZeroFractionEmpty | cell_cosmo/tools/aa/stats.py:122 | with `bottom_frac = 0` the background is empty |
| Background.LargestPositive | cell_cosmo/tools/aa/stats.py:121 | ascending non-negative totals with a nonzero sum end in a positive one |
| Background.CumSumBelowTotal | cell_cosmo/tools/aa/stats.py:121 | before the last entry the running total stays below the full sum |
| Likelihood.ChunkSize | cell_cosmo/tools/aa/stats.py:143 | `bcs_per_chunk` is at least 1 and equals the memory ratio when that is positive |
| Likelihood.EvalMultinomialLoglikelihoods | cell_cosmo/tools/aa/stats.py:133-153 | an empty feature axis is a ZeroDivisionError; otherwise one value per barcode, each the log-pmf of its column at its own total, whatever the chunk size; every entry is written exactly once, by chunk `b / bcs_per_chunk` |
| Likelihood.ChunkOfBarcode | cell_cosmo/tools/aa/stats.py:148-149 | the chunks `[c * size, c * size + size)` partition the barcodes: barcode `b` lies in chunk `b / size` and no other; the chunk loop uses this to show each entry is written by that chunk alone |
| NullSim.MaxOf | cell_cosmo/tools/aa/stats.py:176 | `np.max` is an element at least every element |
| NullSim.Bincount | cell_cosmo/tools/aa/stats.py:173 | `np.bincount` has length max + 1 and entry `v` counts the occurrences of `v` |
| NullSim.DistinctValuesCorrect | cell_cosmo/tools/aa/stats.py:173 | `distinct_n` lists each UMI total once, strictly increasing, and is empty only for empty input |
| NullSim.LogProfile | cell_cosmo/tools/aa/stats.py:185 | `np.log(profile_p)` entry by entry |
| NullSim.Units | cell_cosmo/tools/aa/stats.py:206-215 | the pooled-feature loop keeps a non-negative count vector over the features |
| NullSim.Run | cell_cosmo/tools/aa/stats.py:191-215 | after every row the running counts are a non-negative vector over the features |
| NullSim.Column | cell_cosmo/tools/aa/stats.py:195-217 | the column of replicate `s` has one entry per row |
| NullSim.NextFeature | cell_cosmo/tools/aa/stats.py:207-213 | reads the next feature of the pooled stream, drawing a new block when the current one is used up |
| NullSim.AddPooledFeature | cell_cosmo/tools/aa/stats.py:207-215 | one UMI: the pooled feature gains a count and the log-likelihood gains `log p[j] + log(n / c[j])` |
| NullSim.DrawUnits | cell_cosmo/tools/aa/stats.py:206-215 | the inner loop matches the specification `Units`; it fails exactly when it must read from an empty block |
| NullSim.JumpRowDraw | cell_cosmo/tools/aa/stats.py:199-203 | a gap of at least `jump` adds one multinomial draw and recomputes the log-pmf |
| NullSim.IncrementalRowDraw | cell_cosmo/tools/aa/stats.py:204-215 | a smaller gap adds one pooled feature per UMI |
| NullSim.AdvanceRow | cell_cosmo/tools/aa/stats.py:197-217 | row `i` takes the state of `Run(i - 1)` to `Run(i)` and moves the stream position to the next row's base |
| NullSim.FirstRow | cell_cosmo/tools/aa/stats.py:191-195 | row 0 is one multinomial draw of `distinct_n[0]` UMIs and its log-pmf |
| NullSim.SimulateReplicate | cell_cosmo/tools/aa/stats.py:187-217 | one replicate yields the specified column and consumes exactly its share of the pooled stream |
| NullSim.WriteColumn | cell_cosmo/tools/aa/stats.py:217 | writing a finished column extends the filled part of the table by one replicate |
| NullSim.RunReplicates | cell_cosmo/tools/aa/stats.py:182-217 | the replicate loop fills a `len(distinct_n) x num_sims` table cell by cell with the specified log-likelihoods |
| NullSim.SimulateMultinomialLoglikelihoods | cell_cosmo/tools/aa/stats.py:156-222 | negative totals, a negative `num_sims`, empty input, a negative block or a `profile_p` that is not a distribution (empty, a negative entry, or entries not summing to one) are ValueErrors, and nothing else is; an empty block is an IndexError exactly when there is at least one simulation and some row is filled from the pool; otherwise it returns `distinct_n` and every table entry `loglk[i, s]` equals the specified log-likelihood |
| NullSim.UnitStep | cell_cosmo/tools/aa/stats.py:207-215 | one pass of the inner loop advances the specification by one pooled feature |
| NullSim.JumpRow | cell_cosmo/tools/aa/stats.py:199-203 | a row drawn at once matches the specification |
| NullSim.IncrementalRow | cell_cosmo/tools/aa/stats.py:204-215 | a row filled from the pool matches the specification |
| NullSim.ReplicateEnd | cell_cosmo/tools/aa/stats.py:187-217 | after its last row a replicate has used exactly `UnitsPerSim` pooled features |
| NullSim.ColumnEntries | cell_cosmo/tools/aa/stats.py:195-217 | entry `i` of a replicate's column is the log-likelihood of row `i` |
| NullSim.UnitsBeforeBound | cell_cosmo/tools/aa/stats.py:206-213 | no row starts past the replicate's share of the stream |
| NullSim.UnitsSum | cell_cosmo/tools/aa/stats.py:206-214 | the pooled-feature loop adds exactly one UMI per pass |
| NullSim.RunSum | cell_cosmo/tools/aa/stats.py:191-215 | after row `i` the running counts total `distinct_n[i]`, whichever branch filled the row |
| NullSim.ExactStep | cell_cosmo/tools/aa/stats.py:214-215 | under the log-pmf identity, one pooled UMI keeps the running log-likelihood exact |
| NullSim.UnitsExact | cell_cosmo/tools/aa/stats.py:206-215 | under the identity, the incremental loop keeps the log-likelihood equal to the exact log-pmf |
| NullSim.RunExact | cell_cosmo/tools/aa/stats.py:191-217 | under the identity, every recorded log-likelihood is the exact log-pmf of the running counts at `distinct_n[i]` |
| NullSim.UnitsBeforePositive | cell_cosmo/tools/aa/stats.py:206-212 | the rows before `i` read from the pool exactly when one of them has a gap below `jump` |
| PValues.ComputeAmbientPvalues | cell_cosmo/tools/aa/stats.py:225-248 | mismatched lengths fail the assertions; a total above every simulated total is an IndexError; otherwise entry `i` is `(1 + #simulated values below obs[i]) / (1 + num_sims)` in the row `searchsorted` picks |
| PValues.Row | cell_cosmo/tools/aa/stats.py:247 | `sim_loglk[row, :]` has one entry per simulation, read from the table |
| PValues.PValueBounds | cell_cosmo/tools/aa/stats.py:248 | a p-value lies in [1 / (1 + num_sims), 1], is never 0, and is 1 exactly when every simulated value is lower |
| PValues.PValueMonotone | cell_cosmo/tools/aa/stats.py:247-248 | counting more lower values never lowers the p-value |
| PValues.BarcodePValueBounds | cell_cosmo/tools/aa/stats.py:239-248 | every barcode's p-value lies in [1 / (1 + num_sims), 1] |
| PValues.BarcodePValueMonotone | cell_cosmo/tools/aa/stats.py:239-248 | for a fixed total, a higher observed log-likelihood never has a lower p-value |
| BarcodeCorrect.Preceding | cell_cosmo/util/BarcodeCorrectUtil/get_correct_dict.py:59-61 | at most `n` of the first `n` rows rank ahead |
| BarcodeCorrect.Initial | cell_cosmo/util/BarcodeCorrectUtil/get_correct_dict.py:200-201 | a fresh column of `n` empty reasons |
| BarcodeCorrect.SizeStep | cell_cosmo/util/BarcodeCorrectUtil/get_correct_dict.py:45-47 | step 1 yields one reason per row |
| BarcodeCorrect.Ranks | cell_cosmo/util/BarcodeCorrectUtil/get_correct_dict.py:57-61 | one rank per row |
| BarcodeCorrect.MarkUnranked | cell_cosmo/util/BarcodeCorrectUtil/get_correct_dict.py:62-63 | marking rows of rank other than 1 never changes a reason already set |
| BarcodeCorrect.RankedStep | cell_cosmo/util/BarcodeCorrectUtil/get_correct_dict.py:57-63 | a rank step never changes a reason already set |
| BarcodeCorrect.ItdInNbrStep | cell_cosmo/util/BarcodeCorrectUtil/get_correct_dict.py:105-108 | step 5 never changes a reason already set |
| BarcodeCorrect.GroupKeys | cell_cosmo/util/BarcodeCorrectUtil/get_correct_dict.py:122 | the group keys are distinct, each comes from an unmarked row, and every unmarked row's key is among them |
| BarcodeCorrect.KeyPositive | cell_cosmo/util/BarcodeCorrectUtil/get_correct_dict.py:136 | every group key has a positive intended size, so `nbr_size / itd_s` is defined |
| BarcodeCorrect.GetFilterSlice | cell_cosmo/util/BarcodeCorrectUtil/get_correct_dict.py:149-151 | a barcode is in the slice exactly when some group of it has percent above `limit` |
| BarcodeCorrect.LimitStep | cell_cosmo/util/BarcodeCorrectUtil/get_correct_dict.py:162-165 | step 6 never changes a reason already set |
| BarcodeCorrect.Finalize | cell_cosmo/util/BarcodeCorrectUtil/get_correct_dict.py:177-179 | the final pass never changes a reason already set |
| BarcodeCorrect.AfterStep2 | cell_cosmo/util/BarcodeCorrectUtil/get_correct_dict.py:206-207 | step 2 only adds reasons to the column step 1 left |
| BarcodeCorrect.AfterStep3 | cell_cosmo/util/BarcodeCorrectUtil/get_correct_dict.py:207-208 | step 3 only adds reasons |
| BarcodeCorrect.AfterStep4 | cell_cosmo/util/BarcodeCorrectUtil/get_correct_dict.py:208-209 | step 4 only adds reasons |
| BarcodeCorrect.AfterStep5 | cell_cosmo/util/BarcodeCorrectUtil/get_correct_dict.py:209-210 | step 5 only adds reasons |
| BarcodeCorrect.AfterStep6 | cell_cosmo/util/BarcodeCorrectUtil/get_correct_dict.py:212-217 | step 6 only adds reasons |
| BarcodeCorrect.FinalReasons | cell_cosmo/util/BarcodeCorrectUtil/get_correct_dict.py:217-218 | the final pass only adds reasons |
| BarcodeCorrect.AfterStep1 | cell_cosmo/util/BarcodeCorrectUtil/get_correct_dict.py:206 | step 1 on an empty column gives one reason per row |
| BarcodeCorrect.Step5Positive | cell_cosmo/util/BarcodeCorrectUtil/get_correct_dict.py:45-47 | every row unmarked after step 5 has a positive intended size, because it passed step 1 |
| BarcodeCorrect.ExtendsUnmarked | cell_cosmo/util/BarcodeCorrectUtil/get_correct_dict.py:206-218 | a row unmarked after a filter was unmarked before it |
| BarcodeCorrect.PrecedingZero | cell_cosmo/util/BarcodeCorrectUtil/get_correct_dict.py:59-61 | no row is counted ahead exactly when no row of the group beats row `i` |
| BarcodeCorrect.RankOneIff | cell_cosmo/util/BarcodeCorrectUtil/get_correct_dict.py:57-62 | rank 1 exactly when the row is in the slice and nothing in its group ranks ahead of it |
| BarcodeCorrect.RankRange | cell_cosmo/util/BarcodeCorrectUtil/get_correct_dict.py:57-61 | a ranked row's rank lies in [1, table size]; every other row keeps 10000 |
| BarcodeCorrect.PrecedingBound | cell_cosmo/util/BarcodeCorrectUtil/get_correct_dict.py:59-61 | a row never ranks ahead of itself |
| BarcodeCorrect.AheadTotal | cell_cosmo/util/BarcodeCorrectUtil/get_correct_dict.py:59-61 | of two different rows, one ranks ahead of the other |
| BarcodeCorrect.RankedSurvivor | cell_cosmo/util/BarcodeCorrectUtil/get_correct_dict.py:57-63 | a rank step leaves a row unmarked exactly when the row is in the slice and nothing in its group ranks ahead; a row it marks gets the step's reason |
| BarcodeCorrect.RankedUnique | cell_cosmo/util/BarcodeCorrectUtil/get_correct_dict.py:57-63 | after a rank step no two unmarked rows share a group |
| BarcodeCorrect.Step1Marks | cell_cosmo/util/BarcodeCorrectUtil/get_correct_dict.py:45-47 | step 1 marks exactly the rows with intended size at most the neighbour size |
| BarcodeCorrect.Step2Survivor | cell_cosmo/util/BarcodeCorrectUtil/get_correct_dict.py:56-63 | step 2 keeps exactly the deletions (`-` base) that come first by position, ties in table order, among their (intended, neighbour) group |
| BarcodeCorrect.Step2Unique | cell_cosmo/util/BarcodeCorrectUtil/get_correct_dict.py:56-63 | after step 2 every unmarked row is a deletion and no two share an (intended, neighbour) pair |
| BarcodeCorrect.Step3NoOp | cell_cosmo/util/BarcodeCorrectUtil/get_correct_dict.py:72-79 | step 3 never marks a row |
| BarcodeCorrect.Step4Survivor | cell_cosmo/util/BarcodeCorrectUtil/get_correct_dict.py:89-96 | step 4 keeps a row exactly when its intended size is strictly below that of every other unmarked row with the same neighbour; tied minima are all marked |
| BarcodeCorrect.Step4Unique | cell_cosmo/util/BarcodeCorrectUtil/get_correct_dict.py:89-96 | after step 4 no two unmarked rows share a neighbour barcode |
| BarcodeCorrect.Step5Survivor | cell_cosmo/util/BarcodeCorrectUtil/get_correct_dict.py:105-108 | step 5 marks exactly the unmarked rows whose intended barcode is some row's neighbour, marked or not |
| BarcodeCorrect.Step6Survivor | cell_cosmo/util/BarcodeCorrectUtil/get_correct_dict.py:162-165 | step 6 keeps a row exactly when no group of its intended barcode has percent above `limit` |
| BarcodeCorrect.GroupRowsNonEmpty | cell_cosmo/util/BarcodeCorrectUtil/get_correct_dict.py:122 | a key with an unmarked row has a nonempty `ddf` |
| BarcodeCorrect.GroupTotalNonNegative | cell_cosmo/util/BarcodeCorrectUtil/get_correct_dict.py:126-132 | a group's neighbour UMI total is non-negative |
| BarcodeCorrect.AggregateEntry | cell_cosmo/util/BarcodeCorrectUtil/get_correct_dict.py:122-136 | row `g` of `grouped_df` describes key `g`: a positive intended size, at least one neighbour, a non-negative percent |
| BarcodeCorrect.AggregateNonEmpty | cell_cosmo/util/BarcodeCorrectUtil/get_correct_dict.py:122-136 | every `grouped_df` row has at least one neighbour and a positive intended size, and, with UMI counts, a non-negative percent |
| BarcodeCorrect.AggregateDistinct | cell_cosmo/util/BarcodeCorrectUtil/get_correct_dict.py:122 | no (intended barcode, intended size) appears twice in `grouped_df` |
| BarcodeCorrect.AggregateCovers | cell_cosmo/util/BarcodeCorrectUtil/get_correct_dict.py:119-122 | every unmarked row has its group in `grouped_df` |
| BarcodeCorrect.ChainNoPassed | cell_cosmo/util/BarcodeCorrectUtil/get_correct_dict.py:206-217 | none of the six filters stamps `Passed:NeedCorrectBarcode` |
| BarcodeCorrect.FinalizeMarks | cell_cosmo/util/BarcodeCorrectUtil/get_correct_dict.py:177-179 | after the final pass no row is unmarked, and exactly the previously unmarked rows are passed |
| BarcodeCorrect.CountFinalize | cell_cosmo/util/BarcodeCorrectUtil/get_correct_dict.py:177-179 | as many rows are stamped passed as were unmarked |
| BarcodeCorrect.DictOfKeys | cell_cosmo/util/BarcodeCorrectUtil/get_correct_dict.py:227 | the dictionary's keys are exactly the neighbours of the unmarked rows |
| BarcodeCorrect.DictOfUnmarked | cell_cosmo/util/BarcodeCorrectUtil/get_correct_dict.py:227 | with distinct neighbours, each unmarked row's neighbour maps to its intended barcode and there is one entry per row |
| BarcodeCorrect.FinalMarksAll | cell_cosmo/util/BarcodeCorrectUtil/get_correct_dict.py:176-179 | the chain leaves no row unmarked; a row is passed exactly when it survived all six filters |
| BarcodeCorrect.Step6Distinct | cell_cosmo/util/BarcodeCorrectUtil/get_correct_dict.py:206-217 | the rows surviving step 6 have distinct neighbours |
| BarcodeCorrect.CorrectDictEntries | cell_cosmo/util/BarcodeCorrectUtil/get_correct_dict.py:218-227 | the correction dictionary has exactly the passed rows' neighbours as keys, maps each to its intended barcode, and has one entry per passed row |
| BarcodeCorrect.PassedRow | cell_cosmo/util/BarcodeCorrectUtil/get_correct_dict.py:206-218 | a passed row is a deletion with intended size above neighbour size; its intended barcode is nobody's neighbour; no group of it exceeds the limit; no other passed row has its neighbour |
| BarcodeCorrect.ItdNbrTable.constructor | cell_cosmo/util/BarcodeCorrectUtil/get_correct_dict.py:200-201 | every reason starts empty and every rank starts at 100000 |
| BarcodeCorrect.ItdNbrTable.FilterItdSizeLeNbrSize | cell_cosmo/util/BarcodeCorrectUtil/get_correct_dict.py:45-47 | the reason column becomes step 1 of the old one |
| BarcodeCorrect.ItdNbrTable.AssignRanks | cell_cosmo/util/BarcodeCorrectUtil/get_correct_dict.py:57-61 | the rank column becomes the step's ranks: the group rank in the slice, 10000 elsewhere |
| BarcodeCorrect.ItdNbrTable.MarkRankNotOne | cell_cosmo/util/BarcodeCorrectUtil/get_correct_dict.py:62-63 | unmarked rows whose rank is not 1 get the reason; others keep theirs |
| BarcodeCorrect.ItdNbrTable.FilterDuplicateSameBaseInItd | cell_cosmo/util/BarcodeCorrectUtil/get_correct_dict.py:56-63 | ranks and reasons become step 2 of the old reasons |
| BarcodeCorrect.ItdNbrTable.FilterDuplicateBySubstitutionWithIdl | cell_cosmo/util/BarcodeCorrectUtil/get_correct_dict.py:72-79 | ranks and reasons become step 3 of the old reasons |
| BarcodeCorrect.ItdNbrTable.FilterItdWithMultNbr | cell_cosmo/util/BarcodeCorrectUtil/get_correct_dict.py:89-96 | ranks and reasons become step 4 of the old reasons |
| BarcodeCorrect.ItdNbrTable.FilterItdInNbr | cell_cosmo/util/BarcodeCorrectUtil/get_correct_dict.py:105-108 | the reason column becomes step 5 of the old one |
| BarcodeCorrect.ItdNbrTable.AggItdAllNbr | cell_cosmo/util/BarcodeCorrectUtil/get_correct_dict.py:117-147 | the nested loops build `grouped_df`: per key, the neighbour count and total of its `ddf` and their ratio to the intended size |
| BarcodeCorrect.ItdNbrTable.FilterBarcodeNbrUMIsLtLimit | cell_cosmo/util/BarcodeCorrectUtil/get_correct_dict.py:162-165 | the reason column becomes step 6 of the old one for the given slice |
| BarcodeCorrect.ItdNbrTable.NeedCorrectBarcode | cell_cosmo/util/BarcodeCorrectUtil/get_correct_dict.py:176-186 | returns the unmarked rows in table order and stamps them passed |
| BarcodeCorrect.GetCorrectDict | cell_cosmo/util/BarcodeCorrectUtil/get_correct_dict.py:189-230 | the filters in order over one table give the final reason column and the correction dictionary of the specification |

## Left out

- Randomness is supplied from outside: bootstrap indices, multinomial draws and the pooled feature stream. The model proves properties for every such input and says nothing about distributions.
- Floating point is not modelled. Shares, cumulative fractions, profile probabilities and p-values are exact rationals. `logpmf` and `log` are parameters.
- `np.log` of a zero entry of `profile_p` is not modelled; the parameter `log` is total.
- NullSim.SimulateMultinomialLoglikelihoods: `np.random.choice` accepts a `profile_p` whose sum is within about `1e-8` of one. The model demands a sum of exactly one, which matches the exact rationals used here.
- The NaN assertion after a jump row is not modelled (stats.py:203); NaN cannot arise without floating point.
- The `np.isclose` tolerance check is stated as an exact sum of 1 (stats.py:128). An all-zero background therefore fails with the same error.
- `summarize_bootstrapped_top_n`'s variance and the commented-out bounds are not modelled; only the rounded mean is.
- `round(0.1 * baseline)` is modelled as exact round-half-even of `baseline / 10`. `round(recovered_cells * (1 - 0.99))` is modelled as rounding halves up, for the reason given on `OrdMag.BaselineRank`.
- Likelihood.EvalMultinomialLoglikelihoods: the memory ratio `int(round(max_mem_gb / gb_per_bc))` is an integer parameter, because its floating-point evaluation is not modelled.
- `np.argsort` is modelled by the stable order. numpy's default sort may break ties differently. The lemmas about `Sorting.ArgSort` itself (`ArgSortSorted`, `InsertArgSorted`, `ArgSortFacts`) state the stable order, which numpy does not promise. The properties of the filters' results do not depend on the tie order: `OrdMag.IsTopSelection`, `Background.NoneSmallerLeftOut` and the size bounds. Where counts tie at the boundary of a selection, the concrete background set and top indices may differ from numpy's. The index list in `OrdMag.FixedCutoffExample` is exact because its counts are distinct.
- Progress bars, verbose printing, logging and database and CSV I/O are left out (get_correct_dict.py:197, 203-204, 214, 223-226).
- The `neighbors` description string of `grouped_df` and the dropped `id`/`rank` columns are not modelled.
- BarcodeCorrect.ItdNbrTable.AggItdAllNbr: `percent` is the exact ratio `nbr_size / itd_s`, not `round(..., 2)`. So step 6 compares the unrounded ratio with the limit.
- BarcodeCorrect.GroupKeys: groups appear in order of first occurrence. pandas `groupby` sorts the keys. Only the written `grouped_df` depends on the order; the slice and the dictionary do not.
- Reason strings are constructors of `Reason`. The step-6 string, which embeds the limit, is the single constructor `NbrUmisOverLimit`.
- Pandas `rank` on a missing key (NaN) is not modelled; every key is present.
- BarcodeCorrect.GetCorrectDict requires non-negative neighbour sizes (`CountSizes`), because they are UMI counts. Negative sizes in the database are not considered.
- NullSim.RunExact: the exactness of the incremental recurrence is proved under the log-pmf identity `MultinomialStep`, which is stated and not derived from scipy.
- NullSim.RunReplicates: each replicate's column is gathered into a sequence and written into the table when the replicate ends. The source writes each row as it goes; the final table is the same.
