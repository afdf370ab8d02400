# Rank selection for probabilistic PCA: the driver, in Dafny

This project models the rank-selection driver `dimreduction/model_selection.py`
of the wide-field calcium-imaging analysis scripts, and proves properties of
the model. The driver cuts the recording into 16 equal time windows. For each
window and each sample size of a grid, it does the following:

- raises if the sample size is not a multiple of the fold count;
- draws a random sample of frames from the window;
- cuts the sample into 4 contiguous folds;
- picks a PPCA rank four ways:
  - the singular-value hard threshold, minus one;
  - the AIC and BIC minima of the full-sample fit;
  - the fold-averaged held-out log-likelihood, maximised over a fixed grid of ranks;
- stores the ranks in per-window arrays and pickles the curves behind them.

What the model keeps is the driver's exact index and ordering logic:

- window arithmetic and the two grids;
- the divisibility check and the fold reshape;
- train/test splits;
- first-argmin and first-argmax tie-breaking;
- the parameter count `m(p)`;
- the column mean;
- the loops that fill `LLs_xval`, `err_xval` and the four rank arrays;
- the way a raised error ends the whole run.

The numerical library calls become oracle parameters (`Driver.Oracles`): the
PPCA fit, the SVHT cutoff, the held-out log-likelihood, `log` and the random
draw.

Modules:

- `Outcomes` (`outcomes.dfy`): the driver's errors, `Result`, and the trace of
  a run that stops at the first raised error.
- `Grids` (`grids.dfy`): constants, windows, `np.arange`, the sample-size grid
  and the rank grid `ps`.
- `Folds` (`folds.dfy`): samples, the divisibility check, the reshape into
  folds, and training sets.
- `Criteria` (`criteria.dfy`): first argmin/argmax, the threshold rank, `m(p)`,
  the AIC/BIC curves and ranks, the column mean, and the cross-validated rank.
- `Driver` (`driver.dfy`): one unit (one window, one sample size) as a
  specification function. The imperative part is written as methods with loop
  invariants, proved against that specification:
  - filling `LLs_xval` and `err_xval`;
  - the per-window loop that fills `p_threshold`, `p_xval`, `p_bic` and `p_aic`;
  - the loop over windows.

Facts about the code that the model records:

- **Threshold rank.** The code takes the first index with `s < tau`, minus
  one (`model_selection.py:46`). For a descending spectrum that is the count of
  values at or above `tau`, minus one (`Criteria.ThresholdRankIsCount`). When
  no value is below `tau`, the code raises.
- **AIC/BIC grid.** The code scores every rank `p = 1..min(n, d)`
  (`model_selection.py:49`).
- **Cross-validation grid.** `ps` is fixed at `1, 25, ..., 8175` whatever `d`
  and `n` are (`model_selection.py:25`).
- **Failures.** An error in one unit is not caught: it ends the run. The
  model's `Run` returns the selections completed before the error, and the
  error.

## Model

| member | source | states |
|---|---|---|
| `Outcomes.StopSpec` | dimreduction/model_selection.py:31-34 | a run that raises keeps exactly the longest prefix of completed units, and the error of the unit right after it; a run with no error keeps every unit |
| `Outcomes.StopAt` | dimreduction/model_selection.py:31-34 | when the first `k` units complete and unit `k` raises (or there is none), the trace is those `k` results and that error |
| `Outcomes.StopAppend` | dimreduction/model_selection.py:20-31 | running two batches of units in sequence: the second batch runs only if the first raised nothing |
| `Grids.WindowLength` | dimreduction/model_selection.py:18 | `Twin = int(Tmax/winDiv)`: the windows fit in `Tmax` frames and leave fewer than `winDiv` frames over |
| `Grids.WindowsTile` | dimreduction/model_selection.py:18-21 | window `idx+1` starts where window `idx` ends, and every window ends at or before `Tmax` |
| `Grids.WindowOfFrame` | dimreduction/model_selection.py:21 | a frame is in window `idx` exactly when its frame number divided by `Twin` is `idx` |
| `Grids.WindowsDisjoint` | dimreduction/model_selection.py:21 | two different windows share no frame |
| `Grids.Arange` | dimreduction/model_selection.py:23 | `np.arange(start, stop, step)`: `ceil((stop-start)/step)` entries, entry `k` being `start + k*step` |
| `Grids.ArangeBounds` | dimreduction/model_selection.py:23 | every `np.arange` entry lies in `[start, stop)` and the entries strictly increase |
| `Grids.SampleGrid` | dimreduction/model_selection.py:23 | the sample sizes strictly increase, and each is positive and at most `Twin` |
| `Grids.SourceSampleGrid` | dimreduction/model_selection.py:16-24 | with the script's constants, `Twin = 21744`, the grid is `[16308]`, and 16308 is a multiple of `n_folds = 4` |
| `Grids.RankGrid` | dimreduction/model_selection.py:25 | `ps` has 328 entries: `ps[0] = 1`, `ps[k] = 25k` for `k >= 1`, and the last is 8175 |
| `Grids.RankGridIncreasing` | dimreduction/model_selection.py:25 | `ps` strictly increases and every rank in it lies in `1..8175` |
| `Folds.SampleFitsWindow` | dimreduction/model_selection.py:38 | `n` distinct frames from one window exist only when `n <= Twin` |
| `Folds.SampleInFrames` | dimreduction/model_selection.py:18-38 | every frame of a window sample lies in `[0, Tmax)` |
| `Folds.FoldSizes` | dimreduction/model_selection.py:33-36 | the unit proceeds exactly when `n % n_folds == 0`, and otherwise fails with the divisibility error naming `n` and `n_folds`; on success `testSize * n_folds == n` and `trainSize + testSize == n` |
| `Folds.TrainShare` | dimreduction/model_selection.py:35-36 | `trainSize = (n_folds-1)*testSize` is `n - testSize` |
| `Folds.Partition` | dimreduction/model_selection.py:39 | the reshape yields `n_folds` folds of `testSize` entries each |
| `Folds.FlattenFolds` | dimreduction/model_selection.py:39 | folds `a..b-1`, concatenated, are the stretch `[a*testSize, b*testSize)` of `perm` |
| `Folds.PartitionExact` | dimreduction/model_selection.py:39 | `n_folds` folds of `testSize` entries, which concatenated in order give back `perm` |
| `Folds.FoldEntry` | dimreduction/model_selection.py:39 | position `p` of fold `i` is `perm[i*testSize + p]` |
| `Folds.FoldsDisjoint` | dimreduction/model_selection.py:38-39 | two different folds of a repeat-free `perm` share no index |
| `Folds.EntryInFold` | dimreduction/model_selection.py:39 | entry `j` of `perm` is in fold `j / testSize` |
| `Folds.PartitionDisjointCover` | dimreduction/model_selection.py:38-39 | for repeat-free `perm`: no fold has a repeat, folds are pairwise disjoint, and a frame is in `perm` exactly when it is in some fold |
| `Folds.TrainSetComplement` | dimreduction/model_selection.py:59-60 | the training set of fold `i` is `perm` with fold `i`'s stretch cut out, the other folds kept in increasing order |
| `Folds.TrainTestSizes` | dimreduction/model_selection.py:58-60 | the training set has `(n_folds-1)*testSize` entries, and training set plus test fold is `perm` as a multiset |
| `Folds.TrainTestDisjoint` | dimreduction/model_selection.py:59-60 | for repeat-free `perm`: the training set has no repeat and shares no index with the test fold |
| `Criteria.FirstArgMin` | dimreduction/model_selection.py:53-54 | `np.argmin` returns an index whose value is `<=` every entry and `<` every earlier entry |
| `Criteria.FirstArgMax` | dimreduction/model_selection.py:69-72 | `np.argmax` returns an index whose value is `>=` every entry and `>` every earlier entry |
| `Criteria.ArgMinUnique` | dimreduction/model_selection.py:53-54 | the two properties above determine the argmin index |
| `Criteria.FirstBelow` | dimreduction/model_selection.py:46 | `np.where(s < tau)[0][0]` is the first index below `tau`; there is none exactly when every value is `>= tau` |
| `Criteria.ThresholdRank` | dimreduction/model_selection.py:46 | fails with an IndexError exactly when no value is below `tau`; otherwise it is at least -1 and at most `len(s)-2`, entry `rank+1` is below `tau`, and every entry up to `rank` is at or above it |
| `Criteria.FirstBelowCounts` | dimreduction/model_selection.py:44-46 | for descending `s`, the first index below `tau` equals the number of values `>= tau` |
| `Criteria.ThresholdRankIsCount` | dimreduction/model_selection.py:44-46 | for descending `s`, the threshold rank is the count of values `>= tau`, minus one, and it fails exactly when all values are `>= tau` |
| `Criteria.ParamCountWhole` | dimreduction/model_selection.py:50 | `p(p-1)` is even, so `m(p) = d*p + 1 - 0.5*p*(p-1)` is the whole number `d*p + 1 - p(p-1)/2` |
| `Criteria.ParamCountIncreasing` | dimreduction/model_selection.py:50 | up to `p = d`, `m(p)` strictly increases with `p` |
| `Criteria.Aic` | dimreduction/model_selection.py:51 | the AIC curve has one entry per rank of the training curve |
| `Criteria.Bic` | dimreduction/model_selection.py:52 | the BIC curve has one entry per rank of the training curve |
| `Criteria.BicIsAicPlusPenalty` | dimreduction/model_selection.py:51-52 | `bic[k] = aic[k] + m(k+1)*(log n - 2)` |
| `Criteria.InfoRank` | dimreduction/model_selection.py:53-54 | `argmin + 1` lies in `1..len(curve)`, its value is `<=` every entry and `<` every entry for a lower rank |
| `Criteria.WeightsIncreasing` | dimreduction/model_selection.py:50 | the vector `m(1..n)` strictly increases when `n <= d` |
| `Criteria.ScaledKeepsOrder` | dimreduction/model_selection.py:52 | multiplying strictly increasing weights by `log n - 2 >= 0` keeps them in order |
| `Criteria.PenaltyMovesMinimumDown` | dimreduction/model_selection.py:53-54 | adding a penalty that never decreases along a curve moves its first minimum to the same or an earlier index |
| `Criteria.BicRankAtMostAicRank` | dimreduction/model_selection.py:49-54 | once `log n >= 2` and the curve covers ranks up to at most `d`, `p_bic <= p_aic` |
| `Criteria.ColumnMeans` | dimreduction/model_selection.py:71 | `np.mean(LLs_xval, axis=0)` has one entry per grid rank |
| `Criteria.MeanWithin` | dimreduction/model_selection.py:71 | each averaged entry lies between the smallest and largest fold value for that rank |
| `Criteria.MeanOfEqualRows` | dimreduction/model_selection.py:71 | when every fold gives the same row, the mean is that row |
| `Criteria.CvRank` | dimreduction/model_selection.py:69-72 | `ps[argmax(curve)]` is a rank of the grid |
| `Criteria.CvRankLowestBest` | dimreduction/model_selection.py:69-72 | on the increasing grid, the chosen rank attains the maximum, and every lower grid rank scores strictly less |
| `Driver.DrawIsSample` | dimreduction/model_selection.py:38 | `choice(arange(Twin), n, replace=False) + Tstart` gives `n` distinct frames of window `idx` |
| `Driver.UnitPerm` | dimreduction/model_selection.py:38 | the unit's `perm` is a sample of its window |
| `Driver.FoldBests` | dimreduction/model_selection.py:69 | `err_xval` has one entry per fold, each a grid rank |
| `Driver.UnitSpec` | dimreduction/model_selection.py:32-77 | a sample size not divisible by `n_folds` fails with the divisibility error before anything is drawn; a divisible one larger than `Twin` fails in the draw |
| `Driver.UnitSucceeds` | dimreduction/model_selection.py:33-54 | a unit completes exactly when: both size checks pass, some singular value is below `tau`, and the training curve has `min(d, n) > 0` entries |
| `Driver.UnitSelectionRanges` | dimreduction/model_selection.py:38-72 | a completed unit holds a sample of its window; `p_threshold >= -1`, with the next singular value below `tau`; AIC/BIC curves of `min(d, n)` entries with ranks in `1..min(d, n)`; per-fold ranks and `p_xval` taken from `ps`; a mean curve of `len(ps)` entries |
| `Driver.UnitXvalBest` | dimreduction/model_selection.py:71-72 | `p_xval` attains the highest mean held-out log-likelihood, and every lower grid rank scores strictly less |
| `Driver.UnitBicAtMostAic` | dimreduction/model_selection.py:51-54 | in a completed unit with `log n >= 2`, `p_bic <= p_aic` |
| `Driver.UnitSplitsSound` | dimreduction/model_selection.py:35-39 | every held-out split of a completed unit: test fold of `n/n_folds` rows, training set of `(n_folds-1)*(n/n_folds)` rows, disjoint, together the sample as a multiset |
| `Driver.SourceUnitsPassChecks` | dimreduction/model_selection.py:16-34 | with the script's constants, no unit fails either sample-size check |
| `Driver.FillRow` | dimreduction/model_selection.py:67-68 | after the rank loop, row `i` of `LLs_xval` holds the held-out score of every grid rank; the other rows are unchanged |
| `Driver.CrossValidate` | dimreduction/model_selection.py:56-69 | the filled `LLs_xval` is the table of held-out scores of every (fold, grid rank) pair; `err_xval` is each row's first-argmax grid rank |
| `Driver.SelectUnit` | dimreduction/model_selection.py:32-72 | the statements of one unit, in the script's order, compute the unit's specification |
| `Driver.NewZeros` | dimreduction/model_selection.py:26-29 | `np.zeros` gives a fresh array of zeros |
| `Driver.Record` | dimreduction/model_selection.py:46 | storing the next unit's rank extends the recorded prefix by one, leaving zeros after it |
| `Driver.RanksAppend` | dimreduction/model_selection.py:46 | the ranks of the completed units grow by the new unit's rank |
| `Driver.RecordUnit` | dimreduction/model_selection.py:46-72 | the four stores of a completed unit extend all four rank arrays |
| `Driver.SelectAndRecord` | dimreduction/model_selection.py:32-72 | one unit followed by its four stores: the result is the unit's specification, and the arrays grow by its ranks exactly when it completes |
| `Driver.WindowUnits` | dimreduction/model_selection.py:31 | one unit per entry of the sample-size grid |
| `Driver.RunWindow` | dimreduction/model_selection.py:20-77 | a window's trace is its units' results up to the first error; each rank array holds the ranks of the completed units in grid order, followed by zeros |
| `Driver.NextWindow` | dimreduction/model_selection.py:20-31 | after windows that raised nothing, the next window's completed units and error are appended to the trace |
| `Driver.StopStays` | dimreduction/model_selection.py:20-34 | once a window raises, later windows change nothing in the trace |
| `Driver.Run` | dimreduction/model_selection.py:20-81 | the whole run gives the selections of every unit, window by window, up to the first raised error, and that error |

## Left out

- The PPCA fit, its eigenvalues, `LLtrain` and `logLikelihood`, and `optimal_svht_coef`, `np.sqrt` and `np.median` are oracle parameters (`Oracles.fit`, `Oracles.score`). `pca.py` and `optimal_svht_coef.py` are not part of this model. Their own errors are not modelled, for example the SVHT domain error or a score for a grid rank above the data's dimension.
- `np.log(n_samples)` is the oracle `Oracles.logOf`. `Driver.UnitBicAtMostAic` takes `log n >= 2` as a hypothesis rather than deriving it.
- `np.random.choice` is the oracle `Oracles.draw`, which is bound by what `choice` promises (`Driver.DrawsValid`). The generator's state is not modelled: the model draws the same sample for the same (window, sample size) pair.
- HDF5 loading (lines 8-14) is not modelled. The data matrix only reaches the model through the oracles, and `n_features` is the parameter `d`.
- `f.close()` (line 81) is not modelled.
- Progress prints to `output.txt` (lines 22, 32, 40) are not modelled.
- The pickle files (lines 74-77) and their names are not modelled. `Driver.Selection` holds every pickled value plus the window and sample size that name the file.
- Floating point: the curves are exact reals, with no rounding, NaN or infinity.
- `p_threshold`, `p_xval`, `p_bic` and `p_aic` are float arrays in the script; the model stores whole numbers in `int` arrays.
- `Grids.SampleGrid`: only for `Tmax` a multiple of 64, so that `3*Tmax/64` and `Tmax/32` (true division in the script) are whole numbers. `347904 = 64*5436` is one.
- `Folds.FoldSizes`, `Folds.Partition`: the script divides with true division, so `testSize` (line 35) and `trainSize` (line 36) are floats, and line 39 passes the float `testSize` to `np.reshape`. The model takes `testSize` as the whole number `n / n_folds` and assumes a numpy that accepts a whole float there. Versions of numpy that raise `TypeError` for a float dimension would fail every unit at line 39; the model does not raise there.
- `Driver.UnitSpec`: any training curve whose length is not `min(d, n)` is reported as a shape mismatch. The model leaves out numpy's broadcasting of a length-1 curve or a length-1 parameter vector. An empty curve is reported as the `argmin` error.
- `Driver.RunWindow`: when a unit fails after its threshold rank is computed, the script has already stored that rank in `p_threshold` (line 46). The model's array keeps 0 there. The exception discards the array either way.
- `p_xval`, `p_aic` and `p_bic` are only saved by code that is commented out (lines 79-80). `Driver.Run` drops the arrays once each window ends.
- `widefield/dimreduction/nmf.py` and the other driver scripts of the repository are outside this model. They are floating-point fitting code and file-handling scripts.
