# Pairs-trading pipeline: a Dafny model

This project models the decision and accounting logic of a five-step
pairs-trading pipeline for ASX-listed stocks:

1. **Ingestion** (`scripts/01_download_prepare.py`) splits the ticker list into
   download batches. It normalises the listed company codes into a sorted,
   duplicate-free list of `.AX` tickers. It flags each trading day as up (1)
   or down (0).
2. **Correlation screen** (`scripts/02_correlation_pairs.py`) computes the
   Pearson correlation of close prices over the dates both tickers share. The
   value is undefined below a minimum overlap of 252 dates. Every pair with a
   defined value is kept, and the pairs are ranked by absolute correlation.
3. **Chi-square screen** (`scripts/03_chi_square_pairs.py`) builds, for each
   pair, the 2x2 contingency table of up/down flags on shared dates. A pair
   whose table is not 2x2 is skipped. The pairs are ranked by the chi-square
   statistic.
4. **Stationarity stage** (`scripts/04_common_pairs_stationarity.py`)
   intersects the two top-N lists as oriented `(stock_1, stock_2)` tuples. For
   each common pair it builds the spread and the ratio, runs the unit-root
   test on each, and chooses the metric to trade.
5. **Backtest** (`scripts/05_backtest_pairs_strategy.py`):
   - turns the z-score of the chosen metric into positions in {-1, 0, +1} with
     a threshold state machine;
   - earns one-unit P&L on the previous day's position;
   - summarises each pair;
   - adds all pairs' P&L on the full date index to form the portfolio.

Modules:

| module | contents |
|---|---|
| `Basics` | `Option`/`Result`, sums, running sums and equity, Python slicing |
| `Order` | Python's `<` on strings and tuples, `sorted(set(...))` |
| `Frame` | wide tables, `concat(...).dropna()` alignment, `combinations`, and the collect-and-skip loop |
| `Ranking` | `sort_values(ascending=False)` and `.head(n)` |
| `Ingest` | step 1 |
| `Correlation` | step 2 |
| `ChiSquare` | step 3 |
| `Stationarity` | step 4 |
| `Signals` | step 5, the position state machine |
| `Backtest` | step 5, P&L, summaries and the portfolio |

Modelling choices:

- Dates are the row positions of a table sorted by date.
- A missing cell (NaN) is `None`.
- Prices and P&L are exact `real`s.
- The library statistics are function parameters, so every property holds
  whatever those functions return. They are Pearson's coefficient, the
  chi-square test of independence and the augmented Dickey-Fuller test.
- The z-score is computed from trailing rolling windows. It is modelled as a
  function `zAt` of the metric up to and including the date.
- The constants are those of the source:
  - entry threshold 1.25 and exit band 1.0;
  - 100 observations minimum for the unit-root test, and significance 0.05;
  - 30 aligned rows minimum to trade a pair.
- The minimum correlation overlap and the initial capital are command-line
  arguments, so they are parameters here (`minPeriods`, `capital`). The
  scripts default them to 252 and 10,000,000,000.
- The other stages handle an empty list of rows: the correlation and
  chi-square screens build their frames with explicit columns
  (`scripts/02_correlation_pairs.py:34`, `scripts/03_chi_square_pairs.py:44`),
  so an empty list still sorts, and the stationarity stage guards its counts
  with `if not out.empty` (`scripts/04_common_pairs_stationarity.py:79-84`).
  The backtest builds its summary frame without columns, so it fails when no
  pair is traded: there is no `total_pnl` column to sort on. The model
  follows the code and records the difference under Findings.

## Model

| member | source | states |
|---|---|---|
| `Ingest.UpFlag` | scripts/01_download_prepare.py:66 | the flag is 1 exactly when the adjusted close is strictly above the open, and 0 otherwise, including when they are equal |
| `Ingest.Chunked` | scripts/01_download_prepare.py:28-29 | a zero size is an error (the `range()` step). A negative size yields no chunks. A positive size yields chunks that concatenate back to the input. Each chunk is non-empty and holds at most `size` items, and all but the last hold exactly `size`. There are ceil(n/size) chunks: `(k-1)*size < n <= k*size`, and none for an empty input |
| `Ingest.ChunksOf` | scripts/01_download_prepare.py:29 | the comprehension over `range(0, len(s), size)` for a positive size. It has the concatenation, chunk-size and chunk-count properties, proved through the recursive calls |
| `Ingest.ChunkingIsUnique` | scripts/01_download_prepare.py:29 | any list of chunks that concatenates to `s`, is non-empty, is at most `size` long, and is exactly `size` long except the last, is the list `chunked` returns |
| `Ingest.Strip` | scripts/01_download_prepare.py:20 | the result is a contiguous run of the input. Only whitespace (Python's `isspace` set) lies before and after it, and it neither starts nor ends with whitespace |
| `Ingest.StripIdempotent` | scripts/01_download_prepare.py:20 | stripping a stripped code changes nothing |
| `Ingest.Normalize` | scripts/01_download_prepare.py:20 | the normalised code is the upper-cased code with its surrounding whitespace removed, so `" bhp "` gives `"BHP"`. It has no surrounding whitespace and no lower-case ASCII letter |
| `Ingest.StripUpperCommute` | scripts/01_download_prepare.py:20 | stripping then upper-casing gives the same code as upper-casing then stripping |
| `Ingest.NormalizeIdempotent` | scripts/01_download_prepare.py:20 | normalising a normalised code changes nothing |
| `Ingest.TickerOfIsTicker` | scripts/01_download_prepare.py:19-21 | every ticker produced is a non-empty, non-"N/A", normalised code followed by ".AX" |
| `Ingest.Universe` | scripts/01_download_prepare.py:19-22 | the tickers are strictly ascending in code-point order, so they have no duplicates. A ticker is listed exactly when some non-missing code normalises to a kept code that yields it. Every entry is a well-formed ticker |
| `Ingest.GetTickers` | scripts/01_download_prepare.py:17-25 | the result is strictly ascending and is a prefix of the full sorted list. Without a limit it is the whole list. With a limit `n >= 0` it has `min(n, len)` entries. Every entry is a well-formed ticker |
| `Basics.Head` | scripts/01_download_prepare.py:24 | Python's `xs[:n]` and `head(n)`: a prefix of the input, of length `min(n, len)` for `n >= 0` and `max(len + n, 0)` for negative `n` |
| `Order.StrLessIsStrictTotal` | scripts/01_download_prepare.py:22 | Python's string `<` (code-point lexicographic) is irreflexive, transitive and total, so `sorted` on strings has a unique answer |
| `Order.SortedUnique` | scripts/04_common_pairs_stationarity.py:36 | `sorted(set(xs))` is strictly ascending and holds exactly the elements of `xs` |
| `Order.SortedListingIsUnique` | scripts/04_common_pairs_stationarity.py:36 | two strictly ascending sequences with the same elements are equal |
| `Frame.AlignedRows` | scripts/03_chi_square_pairs.py:15 | the rows kept by `concat([x, y]).dropna()` are strictly increasing. They are exactly the positions at which both columns hold a value |
| `Frame.AlignedRowsSymmetric` | scripts/02_correlation_pairs.py:24 | the aligned rows do not depend on the order of the two columns |
| `Frame.Present` | scripts/04_common_pairs_stationarity.py:14 | `series.dropna()` is the values at the dates that hold one, each once and in date order. So its length is the number of present dates, and a value occurs in it exactly when the series holds it |
| `Frame.CombinationsShape` | scripts/02_correlation_pairs.py:29 | `combinations(range(n), 2)` emits each index pair `i < j < n` exactly once, and no other pair. There are n(n-1)/2 of them |
| `Frame.CombinationsFromBounds` | scripts/03_chi_square_pairs.py:37 | from row `i` on, every emitted pair `(a, b)` has `i <= a < b < n` |
| `Frame.CombinationsFromComplete` | scripts/03_chi_square_pairs.py:37 | from row `i` on, every pair `i <= a < b < n` is emitted |
| `Frame.CombinationsFromOrdered` | scripts/03_chi_square_pairs.py:37 | from row `i` on, the pairs come in strictly increasing lexicographic order, so none repeats |
| `Frame.CombinationsFromCount` | scripts/03_chi_square_pairs.py:37 | from row `i` on, there are (n-i)(n-i-1)/2 pairs |
| `Frame.CombinationsMembership` | scripts/03_chi_square_pairs.py:37 | a pair is emitted exactly when `i < j < n` |
| `Frame.Kept` | scripts/04_common_pairs_stationarity.py:40-74 | the positions at which the loop body yields a row are listed in increasing order, and a position is listed exactly when its input yields a row |
| `Frame.FilterMap` | scripts/04_common_pairs_stationarity.py:40-74 | the collect-and-skip loop collects one row for each input that yields one, in input order: the k-th row is what the k-th yielding input produced. A row occurs exactly when some input yields it |
| `Frame.FilterMapByPositions` | scripts/04_common_pairs_stationarity.py:40-74 | any increasing listing of the yielding positions is the loop's own, and the rows follow it one for one |
| `Frame.FilterMapDistinct` | scripts/04_common_pairs_stationarity.py:40-74 | when no two inputs yield the same row, no row is collected twice |
| `Frame.FilterMapKeepsOrder` | scripts/04_common_pairs_stationarity.py:40-74 | when each row names the input it came from and the inputs are strictly sorted, the rows are strictly sorted by the inputs they name |
| `Frame.PairScanMembership` | scripts/02_correlation_pairs.py:29-32 | the loop over `combinations(range(n), 2)` collects a row exactly when some pair `i < j < n` yields it |
| `Frame.PairScanDistinct` | scripts/02_correlation_pairs.py:29-32 | when only one pair yields each row, the loop over the pairs collects no row twice |
| `Frame.NamesAreUnique` | scripts/02_correlation_pairs.py:28 | two column positions carry the same name exactly when they are the same position |
| `Ranking.SortDesc` | scripts/03_chi_square_pairs.py:45 | `sort_values(ascending=False)` is a permutation of its input with non-increasing keys |
| `Ranking.TopN` | scripts/02_correlation_pairs.py:35 | `sort_values(...).head(n)`: non-increasing keys, `min(n, len)` rows drawn from the input (a sub-multiset), and no dropped row has a key above a kept one |
| `Ranking.SumByPermutation` | scripts/05_backtest_pairs_strategy.py:99 | reordering the summary rows does not change the sum of their total P&L |
| `Correlation.CorrAt` | scripts/02_correlation_pairs.py:24 | the coefficient is undefined when the tickers share fewer than `min_periods` dates. Otherwise it is Pearson's coefficient over the shared dates |
| `Correlation.CorrAtSymmetric` | scripts/02_correlation_pairs.py:24 | the correlation matrix is symmetric whenever the coefficient is |
| `Correlation.PairRow` | scripts/02_correlation_pairs.py:30-32 | a pair yields a row exactly when its correlation is defined. The row names the two tickers in column order and carries the coefficient and its absolute value |
| `Correlation.AllPairs` | scripts/02_correlation_pairs.py:27-32 | the candidate rows are exactly the column pairs `i < j` with a defined coefficient: `stock_1` is column `i`, `stock_2` is column `j`, and `abs_correlation` is the coefficient's absolute value. No row is listed twice |
| `Correlation.ScanPairsDistinct` | scripts/02_correlation_pairs.py:29-32 | each pair of columns is visited once and each row names its columns, so the loop lists no row twice |
| `Correlation.ShortOverlapIsDropped` | scripts/02_correlation_pairs.py:24-32 | a pair sharing fewer than `min_periods` dates has no row |
| `Correlation.Abs` | scripts/02_correlation_pairs.py:32 | the absolute value is non-negative and equals the value or its negation |
| `Correlation.Screen` | scripts/02_correlation_pairs.py:35 | the top list is sorted by absolute correlation, descending. It has `min(top_n, candidates)` rows drawn from the candidates, and no candidate left out has a larger absolute correlation than a kept one |
| `ChiSquare.Tabulate` | scripts/03_chi_square_pairs.py:18 | cell (i, j) counts the observations with x = i and y = j, and the four cells add up to the number of observations |
| `ChiSquare.TwoByTwoIffBothVary` | scripts/03_chi_square_pairs.py:18-20 | the crosstab is 2x2 exactly when both series take both values 0 and 1 |
| `ChiSquare.PairChiSquareMeaning` | scripts/03_chi_square_pairs.py:14-22 | a result exists exactly when both series take both values on the shared dates, which rules out no shared dates. The result is the test applied to the table of those dates |
| `ChiSquare.ConstantFirstIsSkipped` | scripts/03_chi_square_pairs.py:18-20 | when the first series never takes one of the two values, the pair has no result |
| `ChiSquare.ConstantSecondIsSkipped` | scripts/03_chi_square_pairs.py:18-20 | when the second series never takes one of the two values, the pair has no result |
| `ChiSquare.ConstantSeriesIsSkipped` | scripts/03_chi_square_pairs.py:18-20 | a series that never takes one of the two values pairs with nothing, in either position |
| `ChiSquare.PairRow` | scripts/03_chi_square_pairs.py:38-42 | a pair yields a row exactly when its test result exists. The row names the two tickers in column order |
| `ChiSquare.AllPairs` | scripts/03_chi_square_pairs.py:35-42 | the rows are exactly the column pairs `i < j` with a result, `stock_1` being column `i` and `stock_2` column `j`. No row is listed twice |
| `ChiSquare.ScanPairsDistinct` | scripts/03_chi_square_pairs.py:36-42 | each pair of columns is visited once and each row names its columns, so the loop lists no row twice |
| `ChiSquare.Screen` | scripts/03_chi_square_pairs.py:44-45 | the top list is sorted by chi2, descending. It has `min(top_n, pairs)` rows drawn from the full list, and no pair left out has a larger chi2 than a kept one |
| `Stationarity.AdfTest` | scripts/04_common_pairs_stationarity.py:13-18 | fewer than `min_obs` values present gives (None, None, False). Otherwise the test runs on the values present. The p-value is defined exactly when there are enough values, and the series is stationary exactly when the p-value is defined and below 0.05 |
| `Stationarity.Preferred` | scripts/04_common_pairs_stationarity.py:54-60 | the preference policy: "spread" or "ratio" only when that metric is stationary; "none" exactly when neither is; with both stationary, "spread" exactly when both p-values are known and sp_p <= rt_p, so ties favour spread |
| `Stationarity.PreferredOnTestResults` | scripts/04_common_pairs_stationarity.py:51-60 | on unit-root results the choice reduces to this: spread exactly when it is stationary and not beaten by a stationary ratio; ratio exactly when it is stationary and strictly beats a stationary spread |
| `Stationarity.CommonPairs` | scripts/04_common_pairs_stationarity.py:34-36 | the common list is strictly sorted, hence free of duplicates, and holds exactly the oriented tuples found in both lists |
| `Stationarity.CommonPairsIsCanonical` | scripts/04_common_pairs_stationarity.py:36 | every strictly sorted listing of the intersection is the common list |
| `Stationarity.OrientationMatters` | scripts/04_common_pairs_stationarity.py:34-36 | (a, b) in one list does not meet (b, a) in the other |
| `Stationarity.SpreadSeries` | scripts/04_common_pairs_stationarity.py:48 | the spread is defined on every shared date, and spread + p2 = p1 there |
| `Stationarity.RatioSeries` | scripts/04_common_pairs_stationarity.py:49 | the ratio is defined exactly where p2 is non-zero, and ratio * p2 = p1 there |
| `Stationarity.ClassifyPair` | scripts/04_common_pairs_stationarity.py:41-74 | a common pair is reported exactly when both tickers are price columns with at least one shared date. The row names the pair. Its spread and ratio results are the unit-root test of p1 - p2 and p1 / p2 over the shared dates. Its choice is consistent with its flags and p-values, including the tie rule: with both stationary, spread exactly when its p-value is at most the ratio's |
| `Stationarity.ReportedPositions` | scripts/04_common_pairs_stationarity.py:40-45 | the positions of the reported common pairs, in increasing order: exactly the pairs whose tickers are columns with a shared date |
| `Stationarity.Classify` | scripts/04_common_pairs_stationarity.py:40-74 | one row for each reported common pair, in the order of the common list: the k-th row is the result for the k-th reported pair. Every row's pair is common and its choice is consistent. With the common list sorted, the rows are strictly sorted by pair, so no pair has two rows |
| `Signals.Step` | scripts/05_backtest_pairs_strategy.py:21-34 | one step of the loop keeps positions in {-1, 0, +1}. An undefined z-score holds the position, and a held position only goes flat or stays. It leaves flat only on a z-score beyond the entry threshold, and goes flat only on a z-score inside the exit band |
| `Signals.Positions` | scripts/05_backtest_pairs_strategy.py:19-34 | the position series is as long as the z-score series, and every position is in {-1, 0, +1} |
| `Signals.PositionsOfPrefix` | scripts/05_backtest_pairs_strategy.py:21-34 | running the loop on a prefix of the z-scores yields the same prefix of the positions |
| `Signals.PositionsAreCausal` | scripts/05_backtest_pairs_strategy.py:21-34 | appending later z-scores never changes positions already decided |
| `Signals.PositionsFollowStep` | scripts/05_backtest_pairs_strategy.py:21-34 | the position at each date is one step from the previous position, starting flat |
| `Signals.PositionsUnique` | scripts/05_backtest_pairs_strategy.py:19-34 | any series that starts flat and moves by one step per date is the position series |
| `Signals.UndefinedHolds` | scripts/05_backtest_pairs_strategy.py:22-24 | an undefined z-score keeps the previous position, or 0 at the start |
| `Signals.EntryFromFlat` | scripts/05_backtest_pairs_strategy.py:26-30 | from flat: -1 when z > entry, +1 when z < -entry, 0 otherwise |
| `Signals.ExitFromHeld` | scripts/05_backtest_pairs_strategy.py:31-33 | from a held position: flat exactly when -exit_band <= z <= exit_band, otherwise the same position |
| `Signals.AllowedTransitions` | scripts/05_backtest_pairs_strategy.py:26-34 | between consecutive dates the position never jumps between +1 and -1. It leaves flat only beyond the entry threshold and goes flat only inside the exit band |
| `Signals.NoSignalStaysFlat` | scripts/05_backtest_pairs_strategy.py:19-24 | with no defined z-score the position stays flat throughout |
| `Signals.BuildPositions` | scripts/05_backtest_pairs_strategy.py:19-34 | the loop as written, with its mutable `current`, computes the position series |
| `Backtest.Diff` | scripts/05_backtest_pairs_strategy.py:40-41 | `diff().fillna(0.0)` is 0 on the first row and the change from the previous row after it |
| `Backtest.DiffTelescopes` | scripts/05_backtest_pairs_strategy.py:40-41 | the daily changes add up to the last price less the first |
| `Backtest.PairPnL` | scripts/05_backtest_pairs_strategy.py:39-46 | P&L is 0 on the first row. For t >= 1 it is pos[t-1] * ((p1[t]-p1[t-1]) - (p2[t]-p2[t-1])), so it is 0 whenever the previous position is flat |
| `Backtest.HeldPositionEarnsSpreadChange` | scripts/05_backtest_pairs_strategy.py:42-45 | holding a position c throughout earns c times the change in p1 - p2 over the series |
| `Backtest.WorkedExamplePnL` | scripts/05_backtest_pairs_strategy.py:39-46 | prices [100, 101, 99] and [50, 50, 50] with positions [1, 1, 0] give P&L [0, 1, -2] |
| `Backtest.TradeSwitches` | scripts/05_backtest_pairs_strategy.py:80 | the switch count is at most len - 1, and it is 0 exactly when the position never changes |
| `Backtest.TradeSwitchesCountsChanges` | scripts/05_backtest_pairs_strategy.py:80 | the switch count is the number of rows t >= 1 with pos[t] != pos[t-1] |
| `Basics.Equity` | scripts/05_backtest_pairs_strategy.py:78 | `capital + pnl.cumsum()`: the equity at each row less the capital is the P&L summed up to that row, and the last equity less the capital is the total P&L |
| `Backtest.RunPair` | scripts/05_backtest_pairs_strategy.py:65-91 | a selected pair is traded exactly when it prefers spread or ratio, both tickers are price columns, and they share at least 30 dates. Its summary names the pair and metric, and its rows are the shared dates. Its P&L is the lagged P&L of the two prices on those dates under the positions the state machine derives from the z-scores of the chosen metric (the spread for "spread", the ratio otherwise). Its switch count is the switch count of those positions, total P&L = final equity - capital, and the switch count is below the row count |
| `Backtest.TradedPositions` | scripts/05_backtest_pairs_strategy.py:60-72 | the positions of the traded candidates, in increasing order: exactly the candidates that pass the filters of `RunPair` |
| `Backtest.TradedPairs` | scripts/05_backtest_pairs_strategy.py:60-72 | one run for each traded candidate, in the order of the stationarity results: the k-th run is the run of the k-th traded candidate. Every run has rows on the date index and total P&L equal to the sum of its P&L, and a run occurs exactly when some candidate yields it |
| `Backtest.ScatterAt` | scripts/05_backtest_pairs_strategy.py:93 | the re-indexed P&L on each date is the pair's contribution on that date |
| `Backtest.AtDateMeaning` | scripts/05_backtest_pairs_strategy.py:93 | a pair contributes its own P&L on its rows and 0 on every other date |
| `Backtest.ScatterSum` | scripts/05_backtest_pairs_strategy.py:93 | re-indexing neither adds nor loses P&L |
| `Backtest.PortfolioPnlAt` | scripts/05_backtest_pairs_strategy.py:93-94 | the portfolio P&L on each date is the sum of every traded pair's contribution that day |
| `Backtest.PortfolioPnlSum` | scripts/05_backtest_pairs_strategy.py:93-94 | over all dates the portfolio P&L is the sum of the pairs' total P&L |
| `Backtest.BuildReport` | scripts/05_backtest_pairs_strategy.py:93-101 | the summary is a permutation of the pairs' summaries, sorted by total P&L descending. The daily P&L on each date is the sum of the pairs' contributions. The equity curve less the capital is the running sum of daily P&L, and the final equity less the capital is the sum of the pairs' total P&L |
| `Backtest.RunBacktest` | scripts/05_backtest_pairs_strategy.py:60-101 | as written: it fails exactly when no pair is traded, and otherwise returns the report on the traded pairs |
| `Backtest.NothingTradedFails` | scripts/05_backtest_pairs_strategy.py:60-99 | as written: when no candidate prefers a metric, the backtest fails |
| `Backtest.RunBacktestTotal` | scripts/05_backtest_pairs_strategy.py:60-101 | the corrected backtest: it returns the same report whenever a pair is traded, and otherwise keeps the portfolio properties |
| `Backtest.NothingTradedIsFlat` | scripts/05_backtest_pairs_strategy.py:62-101 | corrected: with no pair traded the summary is empty, the daily P&L is 0, and the equity is the capital on every date |

## Left out

- Network, files and the command line: the ASX listing fetch, the price download and its reshaping into long and wide tables, parquet and CSV reads and writes, the per-pair debug files, argument parsing and printing. Tables and candidate lists are given as values.
- The long-to-wide pivot (`scripts/01_download_prepare.py:87-88`): the model starts from wide tables whose columns are the tickers.
- The rolling mean, rolling standard deviation and z-score division (`scripts/05_backtest_pairs_strategy.py:14-17`): the z-score is a function parameter of the trailing metric, and `None` stands for NaN.
- The statistics `DataFrame.corr`, `chi2_contingency` and `adfuller`: each is a function parameter, so no property depends on their numerics.
- Floating point: all arithmetic is exact over the reals. Rounding in cumulative sums, and infinities from a near-zero divisor, are not modelled.
- Stationarity.RatioSeries: a zero price in the denominator gives a missing value. pandas gives inf, which `dropna` keeps, so the unit-root test would see it.
- Ingest.Normalize: `str.upper` is modelled for ASCII letters only. Python also maps other letters, and some expand to two characters (for example 'ß' to "SS").
- Ingest.Universe: `.astype(str)` is not modelled. Codes are taken as strings already, so a non-text cell is not rendered by `str()`.
- Tie order of `sort_values`: pandas' default sort is not stable. The ranking contracts say which rows are kept and that keys descend, not how ties are ordered.
- Dates: the date index is the row position of a date-sorted table, so re-indexing onto the full index uses row positions.
- The counts printed after the stationarity table (`scripts/04_common_pairs_stationarity.py:79-88`) and the "pairs traded" line (`scripts/05_backtest_pairs_strategy.py:104`) are output only.

## Findings

| source | as written | input that shows it | evidently intended | confidence | as-written member | corrected member |
|---|---|---|---|---|---|---|
| scripts/05_backtest_pairs_strategy.py:99 | `pd.DataFrame(summary_rows).sort_values("total_pnl", ...)` with no rows builds a frame with no columns, and sorting it raises `KeyError` | a stationarity table in which no pair prefers spread or ratio, or in which every preferred pair has fewer than 30 shared dates | an empty summary and a flat equity curve at the initial capital, as the other stages produce empty results from empty inputs (`scripts/02_correlation_pairs.py:34`, `scripts/03_chi_square_pairs.py:44`, `scripts/04_common_pairs_stationarity.py:79-84`) | not executed; medium (pandas raises `KeyError` for a missing sort column) | `Backtest.RunBacktest`, `Backtest.NothingTradedFails` | `Backtest.RunBacktestTotal`, `Backtest.NothingTradedIsFlat` |
