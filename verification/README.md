# Refurbished iPhone market analysis — a Dafny model

This project models the deterministic core of a small market study of refurbished
and second-hand iPhones. It also proves properties of that model.

The study has four stages:

1. **Scraper.** A scraper walks the pages of a marketplace's search results for the
   iPhone 8. It accepts or rejects every listing through a fixed chain of checks
   and classifies the accepted ones by model type and storage capacity. It writes
   them to a dated CSV file (`iPhone8Scrape.py`).
2. **Cleaner.** A cleaner loads the CSV files of each product series by file-name
   prefix and converts prices and dates. It removes outliers per model with an
   inter-quartile fence and concatenates the series (`dataclean.py`).
3. **Rolling averages and report tables.** The plotting and table scripts select a
   model by case-insensitive substring. They average its listing prices over
   rolling windows of distinct dates, then tabulate:
   - spreads (`Visualisations/figure2.py`, `Tables/table5.py`);
   - daily and seven-day series (`Visualisations/figure1.py`, `Visualisations/figure4.py`);
   - growth from the first to the last window (`Tables/table2_fullgrowthratio.py`).
4. **Forecast evaluation.** It normalises model names and averages the prices per
   date and model. It lays them out on a daily grid with forward fill and splits
   each model's column 60/40. It then grid-searches twelve ARIMA orders for the
   least mean absolute error (`Tables/table3full.py`).

## How the model is organised

Every stage is a pure function over immutable data:

- A listing is a record of the browser reads made on it. Each read either succeeds
  or raises.
- A page is its listings plus the state of its "next" control.
- A directory is a sequence of named files of CSV rows.
- A date is a day number. Prices are exact `real`s, and NaN or NaT is `None`.

| module | file | models |
|---|---|---|
| `Wrappers`, `Seqs`, `Ordering`, `Text` | `wrappers.dfy`, `seqs.dfy`, `ordering.dfy`, `text.dfy` | options and results; filters; sorting; Python's whitespace, `lower()`, substring search and case-insensitive replacement |
| `Price` | `price.dfy` | `is_valid_price` and the zero-price spelling |
| `Listing` | `listing.dfy` | the loop body for one listing: the rejection chain, model-type and capacity classification |
| `Scrape` | `scrape.dfy` | the page loop with `check_next_page` |
| `Csv`, `Calendar` | `csv.dfy`, `calendar.dfy` | the written CSV file and its reading back; ISO dates and day numbers |
| `Loader` | `loader.dfy` | `load_and_combine_csv` |
| `Outliers` | `outliers.dfy` | `remove_outliers` with its quartiles and fence |
| `Combine` | `combine.dfy` | `get_combined_clean_data` |
| `Stats` | `stats.dfy` | column means and the sample variance |
| `Rolling` | `rolling.dfy` | `calculate_rolled_prices` and the inline copies of it |
| `Reports` | `reports.dfy` | the wrappers of figures 1, 2 and 4 and tables 2 and 5 |
| `Forecast` | `forecast.dfy` | the bookkeeping of `table3full.py` around the ARIMA fits |

Inputs are parameters instead of I/O:

- the browser's reads;
- the run date;
- the directory listing with file contents;
- the ARIMA fit-and-score step, as a function from an order and the training and
  test parts to an optional mean absolute error.

Five behaviours of the code are easy to misread; the model follows the code:

- **Price column.** `remove_outliers` returns a table without a `listing_price`
  column unchanged. That table never arrives, though. `load_and_combine_csv`
  first renames `Price` to `listing_price` and then converts that column
  unconditionally (`dataclean.py:11-13`). So it already raises on a file whose
  header names neither `Price` nor `listing_price`, or names both, which gives
  two columns of that name. The model raises there (`Loader.ReadFile`).
- **Bare-string prefixes.** The plotting and table scripts pass each series a
  bare string as its prefix. `load_and_combine_csv` iterates it character by
  character, so every `.csv` file is loaded once per occurrence of its first
  letter in that string (`Loader.BareStringCountsFirstLetter`).
- **Box-plot columns.** The box-plot table of `figure2.py` is built from lists
  of unequal lengths whenever some model has between 1 and 13 distinct dates.
  `pd.DataFrame` raises on that, and the model says exactly when it happens
  (`Reports.Figure2Builds`).
- **Empty series.** A series that loads no rows is replaced by a table without
  columns (`dataclean.py:59-60`). When every series is empty, the combined table
  has only its `Series` column, and the first column each report script reads
  raises `KeyError` (`Reports.ReadTable`, `Forecast.Table3`). A series that does
  load rows but has no `Model` column raises in `remove_outliers`'s `groupby`
  (`dataclean.py:37`, `Combine.CleanSeries`).
- **Empty growth table.** The `Average` row of `table2_fullgrowthratio.py` reads
  a column of an empty table when no model has seven distinct dates. That raises,
  and the model returns an error (`Reports.Table2Rows`).

## Model

| member | source | states |
|---|---|---|
| Price.ValidPriceIff | iPhone8Scrape.py:27-28 | a price text is valid exactly when it is a euro sign, optional whitespace (U+00A0 included), one or more digits, a comma and exactly two digits, optionally followed by one newline |
| Price.ThousandsSeparatorRejected | iPhone8Scrape.py:27-28 | `€ 1.234,56` is not a valid price: no thousands separator is allowed |
| Price.ZeroPriceIff | iPhone8Scrape.py:94 | a valid price is skipped as zero exactly when its text without the newline is `€ 0,00` with a plain or a non-breaking space |
| Price.ZeroSpellings | iPhone8Scrape.py:94 | `€0,00` passes both the pattern and the zero check, while `€ 0,00` is caught |
| Price.NormalizeValidIdempotent | iPhone8Scrape.py:94 | the stored price text of a valid price is itself valid, and normalising it again changes nothing |
| Listing.FirstRule | iPhone8Scrape.py:105-110 | a rule table yields the result of the first rule whose keywords all occur, and nothing when none fires |
| Listing.ClassifyModelIsRuleTable | iPhone8Scrape.py:105-110 | the model-type chain is the rule table Plus-then-plain read top to bottom |
| Listing.ClassifyModelIff | iPhone8Scrape.py:105-110 | Plus needs `8`, `plus` and `iphone` in the lowered title; plain needs `iphone` and `8` without `plus`; no type otherwise |
| Listing.EightFromAnyNumber | iPhone8Scrape.py:105-110 | the `8` may come from any number: `iphone 11 128gb` is classified as an iPhone 8 |
| Listing.ClassifyCapacityIsTable | iPhone8Scrape.py:116-127 | the capacity is the first of 64, 128, 256, 512, 1TB whose token occurs in the title or the description |
| Listing.TerabyteOnlyFromDescription | iPhone8Scrape.py:116-127 | `1TB` never matches the lowered title, so only the description can supply that capacity |
| Listing.Process | iPhone8Scrape.py:62-144 | the seen set grows by the description exactly when the five checks pass; a listing is recorded exactly when the checks pass, its link and title are read and the lowered title names a model type, and the record then carries the classified type and capacity (unknown capacity included), the normalised price, the description and the link |
| Listing.ProcessPrecedence | iPhone8Scrape.py:70-96 | each skip reason (sub-images, invalid price, banned words, duplicate, zero price) fires exactly when every earlier check passed and its own fails; otherwise only a failed read or an unknown type drops the listing |
| Listing.ProcessFaults | iPhone8Scrape.py:71-144 | a listing is dropped for a failed read exactly when the first read the loop body reaches raises: the sub-image lookup, the price, the description, then, once the checks passed, the link and the title |
| Listing.AdmittedBlocksLater | iPhone8Scrape.py:89-99 | once a description passed the checks, a later listing with the same description is never recorded, even if the first was dropped afterwards |
| Listing.BannedRejectedRegardlessOfTitle | iPhone8Scrape.py:84-86 | a description mentioning `garantie` is rejected at the content filter whatever the title says |
| Listing.SecondOfTwinsIsDuplicate | iPhone8Scrape.py:89-91 | of two listings with one description, the second is skipped as a duplicate |
| Scrape.Step | iPhone8Scrape.py:62-144 | a listing yields a record exactly when the loop body records it, and that same record; the seen set is the one the loop body leaves; a collected record passed every check and its description was new and is now seen |
| Scrape.ScrapeListingsRecords | iPhone8Scrape.py:62-144 | a page's records are the records of the listings the loop body records, in listing order, each listing met with the seen set the earlier listings left |
| Scrape.ScrapeListingsAppend | iPhone8Scrape.py:62-144 | a pass over two runs of listings is the pass over the first followed by the pass over the second from the seen set the first left |
| Scrape.ScrapeListings | iPhone8Scrape.py:62-144 | a page yields at most one record per listing, with pairwise distinct, previously unseen descriptions |
| Scrape.ScrapePages | iPhone8Scrape.py:57-150 | the collected records have pairwise distinct descriptions, all checked and all new to the initial seen set; no more pages are scraped than exist |
| Scrape.ScrapePagesStops | iPhone8Scrape.py:57-150 | every scraped page showed its listings and every scraped page but the last had an enabled next control; the run ends normally exactly when the last scraped page's control is not enabled; an aborted run ran out of pages or met a page whose listings never loaded |
| Scrape.ScrapePagesIsOnePass | iPhone8Scrape.py:57-150 | the page loop's records and final seen set are those of one pass over the listings of the scraped pages, one page after the other |
| Scrape.ScrapeRun | iPhone8Scrape.py:57-153 | a run whose consent overlay cannot be dismissed collects nothing and aborts; every run's records are distinct and checked |
| Scrape.ScrapeRunCollects | iPhone8Scrape.py:57-153 | a run past the consent overlay collects, in order, exactly the records the loop body makes for the listings of the scraped pages, starting from no seen description |
| Scrape.PaginationStopsAtLastPage | iPhone8Scrape.py:30-45 | with N loading pages whose next control is enabled before page N and not on it, exactly N pages are scraped and the run ends normally |
| Scrape.AbortKeepsEarlierRecords | iPhone8Scrape.py:146-153 | a page whose listings never load aborts the run and keeps the records of the pages before it |
| Csv.RowsRoundTrip | iPhone8Scrape.py:172-180 | a file of non-empty rows written with minimal quoting reads back as exactly those rows |
| Csv.WrittenFileReadsBack | iPhone8Scrape.py:172-180 | the written file reads back as the header followed by one row per record in collection order |
| Csv.SwappedColumns | iPhone8Scrape.py:176-180 | the column headed `Link` holds the description, the one headed `Description` holds the link, and the capacity cell is empty exactly when the capacity is unknown |
| Calendar.NextIsOneMore | Visualisations/figure2.py:50-56 | the next calendar day has the next day number, so stepping back a day is subtracting one |
| Calendar.OrderPreserved | dataclean.py:14 | day numbers follow calendar order and are distinct for distinct dates |
| Calendar.FormatThenParse | dataclean.py:14 | every date a timestamp can hold, written as `YYYY-MM-DD`, parses back to itself |
| Calendar.ParseThenFormat | dataclean.py:14 | a cell that parses as a date is exactly the written form of that date |
| Loader.Prefixes | dataclean.py:6 | a list of prefixes is iterated as its elements and a bare string as its one-letter characters |
| Loader.SelectedCount | dataclean.py:6-8 | a file is loaded as many times as it is listed, times the number of prefixes its name starts with, for `.csv` names |
| Loader.BareStringCountsFirstLetter | dataclean.py:6-8 | with a bare-string prefix a `.csv` file is loaded once per occurrence of its first letter in the string |
| Loader.BareStringTakesTwice | dataclean.py:6-8 | with the prefix string `iphone_8_2024-`, a file whose name starts with `2` is loaded twice |
| Loader.NothingSelectedIff | dataclean.py:6-8 | no file is loaded exactly when no `.csv` name starts with any of the prefixes |
| Loader.LoadAndCombine | dataclean.py:4-20 | with no matching file the result is the empty table |
| Loader.Cell | dataclean.py:10 | a cell is present exactly when the row reaches that column and the text is not one of pandas' missing-value spellings |
| Loader.ParsePrices | dataclean.py:13 | the price column converts exactly when every cell does, keeping the order; the first unconvertible text raises |
| Loader.RenamedColumn | dataclean.py:11 | after the renaming a column is absent exactly when the header names neither the old nor the new name, doubled exactly when it names both, and otherwise stands at a column carrying one of them |
| Loader.RenamedHeaderReads | dataclean.py:11 | a header that already says `date` and `listing_price` reads those columns; one with both `Price` and `listing_price` has a doubled price column |
| Loader.ReadFileIff | dataclean.py:10-14 | a file reads exactly when it has a header, no data row is longer than the header, the header names exactly one of `Price` and `listing_price` and exactly one of `Date` and `date`, and every price cell is missing or parses |
| Loader.ReadFileRows | dataclean.py:10-14 | a readable file gives one row per data line, with the converted date, the model cell and the converted price |
| Loader.ValidPriceReadsAsAmount | dataclean.py:13 | a price text the scraper accepts loads as its units plus its cents as hundredths |
| Loader.PlainPriceExample | dataclean.py:13 | `€ 199,00` loads as 199 |
| Loader.ThousandsSeparatorRaises | dataclean.py:13 | `€ 1.234,56` becomes `1.234.56`, which does not convert, and the load raises |
| Loader.NanTextExample | dataclean.py:13 | a price cell reading `nan` loads as a missing price |
| Loader.LoadFiles | dataclean.py:16-20 | the load succeeds exactly when every selected file reads, and otherwise fails with the first file's error |
| Loader.LoadFilesCount | dataclean.py:16-20 | a successful load has one row per data line of every selected file |
| Loader.ScrapedFileLoads | dataclean.py:10-14 | a file written by a scraper run loads with one row per record, the run's day as date, the model type as model and a non-negative price |
| Outliers.Keys | dataclean.py:37 | the group keys are the models present, sorted and without repetition |
| Outliers.Quartiles | dataclean.py:28-29 | a group has quartiles exactly when it has a price that is not NaN |
| Outliers.QuantileBetween | dataclean.py:28-29 | pandas' linear quantile lies between the sorted values at its position rounded down and up, and is the value itself at a whole position |
| Outliers.QuantileMonotone | dataclean.py:28-29 | a higher quantile level never gives a lower quantile |
| Outliers.QuartileOrder | dataclean.py:28-34 | Q1 is at most Q3, both lie between the least and the greatest price, and the fence contains them |
| Outliers.InterQuartileKept | dataclean.py:28-34 | every price between the group's quartiles passes the fence |
| Outliers.EqualPricesKept | dataclean.py:28-34 | a group of equal prices has a zero-width fence that keeps every row |
| Outliers.FloorKeepsGroup | dataclean.py:40 | the size floor keeps a large enough group whole and in order |
| Outliers.FloorZeroKeepsModels | dataclean.py:40 | the default floor of 0 drops only rows without a model |
| Outliers.FenceStepCount | dataclean.py:42 | the fence step keeps every copy of each row its group's fence admits, and nothing else |
| Outliers.RemoveOutliers | dataclean.py:44-47 | the removed count is the number of input rows minus the number of output rows |
| Outliers.RemoveOutliersCount | dataclean.py:22-47 | a row keeps all its copies when its group is large enough and its price lies within its group's fence, and none otherwise |
| Outliers.RemoveOutliersShrinks | dataclean.py:44-47 | the cleaned table is a sub-multiset of the input and the removed count lies between 0 and the input size |
| Outliers.NothingFencedKeepsOrder | dataclean.py:42 | when the fence removes nothing, the surviving rows keep the table's order |
| Outliers.FencedResultSorted | dataclean.py:42 | when the fence removes a row, the result lists the groups in ascending model order |
| Wrappers.Collect | dataclean.py:50 | a sequence of steps that may raise succeeds exactly when each does, giving their values in order, and otherwise fails with the first failure |
| Combine.LoadAll | dataclean.py:50 | every series is loaded with its own prefixes, in mapping order; the first load that raises ends it |
| Combine.Cleaned | dataclean.py:22-47 | an empty table comes back empty with nothing removed; otherwise the cleaned table is a sub-multiset of the input and the removed count is the difference in size |
| Combine.CleanSeries | dataclean.py:22-60 | an empty series stays empty with nothing removed; a series with rows but no `Model` column raises exactly then; otherwise the cleaned series is a sub-multiset of the loaded one and the removed count is the difference in size |
| Combine.CleanAll | dataclean.py:54-62 | the total removed is the number of loaded rows minus the number combined, and every row carries a series name of the mapping |
| Combine.GetCombinedCleanData | dataclean.py:49-66 | the call succeeds exactly when there is a series, every load succeeds and every series with rows has a `Model` column; a failed load passes its error on, a series without `Model` raises and an empty mapping has nothing to concatenate; the removed total is the loaded rows minus the combined rows, every row carries a series name, and the table has columns exactly when some series loaded rows |
| Combine.CombinedSeries | dataclean.py:54-62 | the rows tagged with a series are exactly its cleaned rows in order, and an empty series contributes none |
| Combine.CombinedCount | dataclean.py:54-62 | a listing appears under a series as often as it was loaded for it when it survives that series' cleaning, and otherwise not at all |
| Combine.CombinedPricesPresent | dataclean.py:42-62 | every combined row has a price, so dropping rows without one later removes nothing |
| Stats.ColumnMean | Tables/table2_fullgrowthratio.py:118-129 | a column mean is NaN exactly when the column holds no number |
| Stats.SampleVariance | Tables/table5.py:93-98 | the sample variance is NaN exactly when there are fewer than two values, and is never negative |
| Stats.ConstantVarianceZero | Tables/table5.py:93-98 | a series that never changes has zero spread |
| Stats.MeanOfDifferences | Tables/table2_fullgrowthratio.py:118-129 | without NaN entries, the mean of a difference column is the difference of the means |
| Rolling.Mean | Visualisations/figure2.py:58-62 | the mean of a window's rows is NaN exactly when none of them has a price |
| Rolling.MeanBetween | Visualisations/figure2.py:58-62 | a window's mean lies within any bounds of the prices it averages |
| Rolling.UniqueDates | Visualisations/figure2.py:107 | the distinct dates are strictly increasing and are exactly the dates of the rows |
| Rolling.CollectDates | Visualisations/figure2.py:50-56 | the backward walk collects `k` dates exactly when `k` is between 0 and the number of dates up to the current one, and they are then the `k` latest of those |
| Rolling.CalculateRolledPrices | Visualisations/figure2.py:45-64 | the loop computes the window definition: for each date with `k` dates up to it, the mean of the rows on those dates |
| Rolling.NoWindowNoPrices | Visualisations/figure2.py:45-64 | a window of size 0 or less yields no rolled price |
| Rolling.RolledShape | Visualisations/figure2.py:45-64 | for `k >= 1` there are `n - k + 1` rolled prices over `n` distinct dates (none when `n < k`), the `j`-th dated on date `j + k - 1` and averaging every row of dates `j` to `j + k - 1` |
| Rolling.DailyMeans | Tables/table5.py:43-62 | with a one-day window every distinct date gets exactly one rolled price, the mean of that day's rows |
| Rolling.RolledDatesIncrease | Visualisations/figure2.py:45-64 | the rolled dates are strictly increasing |
| Reports.Priced | Visualisations/figure2.py:76 | dropping unpriced rows leaves only rows with a price |
| Reports.PricedKeepsAll | Visualisations/figure2.py:76 | when every row has a price, dropping unpriced rows keeps the table as it was |
| Reports.ModelDataCount | Visualisations/figure2.py:102 | the model selection keeps every copy of a row whose model contains the name case-insensitively, and nothing else |
| Reports.ExtensionSelected | Visualisations/figure2.py:102 | a name also selects the longer model names that extend it, as `iPhone 8` selects `iPhone 8 Plus` |
| Reports.ModelRolledShape | Visualisations/figure2.py:99-119 | a model's rolled series has `n - k + 1` priced points over its `n` distinct dates, the `j`-th on date `j + k - 1` |
| Reports.Figure1DailyMeans | Visualisations/figure1.py:10-60 | each model's series has one point per distinct date of its rows, in ascending order, each the mean of that day's rows |
| Reports.SweepAtCount | Visualisations/figure2.py:99-119 | at window size `k` a model contributes a spread exactly when it has at least `k` distinct dates |
| Reports.ReachMonotone | Visualisations/figure2.py:99-119 | fewer models reach a larger window size, and equally many reach two sizes exactly when no model's count lies in between |
| Reports.Sweep | Visualisations/figure2.py:93-119 | the sweep has one list per window size from 1 to 14 |
| Reports.Figure2Builds | Visualisations/figure2.py:99-122 | the box-plot table can be built exactly when no model has between 1 and 13 distinct dates |
| Reports.TrimDropsEarliestDate | Visualisations/figure4.py:39-40 | the trim removes exactly the earliest distinct date |
| Reports.Figure4Start | Visualisations/figure4.py:11-66 | a model's seven-day series starts at its seventh distinct date, and for `iPhone 12` at the eighth date of its untrimmed rows |
| Reports.Ratio | Tables/table2_fullgrowthratio.py:102 | the ratio is NaN when the first price is zero and the quotient of last over first otherwise |
| Reports.GrowthRowsCount | Tables/table2_fullgrowthratio.py:87-112 | a model gets a growth row exactly when it has at least seven distinct dates |
| Reports.GrowthOfModel | Tables/table2_fullgrowthratio.py:99-103 | a model's first and last prices are the means over its first and last seven distinct dates, the difference is last minus first, and the ratio is NaN exactly when the first is zero |
| Reports.Table2 | Tables/table2_fullgrowthratio.py:118-132 | a built growth table ends with the `Average` row |
| Reports.Table2Rows | Tables/table2_fullgrowthratio.py:87-132 | the growth table can be built exactly when some model has seven distinct dates, and then has one row per such model plus the `Average` row |
| Reports.AverageDifference | Tables/table2_fullgrowthratio.py:118-129 | the average difference is the difference of the average last and first prices |
| Reports.Table5 | Tables/table5.py:83-103 | every listed model gets exactly one row, in order |
| Reports.SpreadDefined | Tables/table5.py:93-98 | a spread over window `k` is a number exactly when the model has `k + 1` distinct dates |
| Reports.Table5Defined | Tables/table5.py:83-100 | the one-day spread is a number exactly when the model has two distinct dates, and the seven-day spread exactly when it has eight |
| Reports.ReadTable | dataclean.py:55-62 | reading a column of the combined table succeeds exactly when some series had rows, and otherwise raises for that column |
| Reports.Figure1Script | Visualisations/figure1.py:26-27 | figure 1 raises on `listing_price` exactly when the combined table has no columns, and otherwise draws one daily series per model |
| Reports.Figure2Script | Visualisations/figure2.py:67-76 | figure 2 raises on `price` when the combined table has no columns, and otherwise builds the sweep table or fails as it does |
| Reports.Figure4Script | Visualisations/figure4.py:27-28 | figure 4 raises on `listing_price` exactly when the combined table has no columns, and otherwise draws one seven-day series per model |
| Reports.Table2Script | Tables/table2_fullgrowthratio.py:70-71 | table 2 raises on `listing_price` when the combined table has no columns, and otherwise builds the growth table or fails as it does |
| Reports.Table5Script | Tables/table5.py:65-66 | table 5 raises on `listing_price` exactly when the combined table has no columns, and otherwise has one row per listed model, in order |
| Forecast.NormalizeName | Tables/table3full.py:25-26 | normalising a name changes only the case of letters |
| Forecast.NormalizedIsStable | Tables/table3full.py:25-26 | on a normalised name both replacements find nothing to change |
| Forecast.NormalizeIdempotent | Tables/table3full.py:25-26 | normalising twice is the same as normalising once |
| Forecast.NormalizedOccurrences | Tables/table3full.py:25-26 | in a normalised name every case-insensitive `mini` reads `Mini` and every case-insensitive `xr` reads `Xr` |
| Forecast.NormalizeRow | Tables/table3full.py:25-26 | normalisation keeps the date and price, keeps a missing model missing, and changes only letter case |
| Forecast.KeyDates | Tables/table3full.py:37 | the grouped dates are strictly increasing and are exactly the dates of rows with both a date and a model |
| Forecast.KeyModels | Tables/table3full.py:37-40 | the pivot's columns are sorted and are exactly the models of rows with both a date and a model |
| Forecast.Grouped | Tables/table3full.py:37 | every aggregated cell has rows with its key, and its price is their mean |
| Forecast.GroupedKeysDistinct | Tables/table3full.py:37 | no two aggregated cells share a (date, model) key |
| Forecast.GroupedCovers | Tables/table3full.py:37 | there is a cell for a (date, model) key exactly when some row has that key |
| Forecast.PivotIsGroupMean | Tables/table3full.py:37-40 | every pivot entry is the mean of its (date, model) group, and NaN where no row has that key |
| Forecast.PivotColumns | Tables/table3full.py:40 | a model is a pivot column exactly when some aggregated cell has that model |
| Forecast.Days | Tables/table3full.py:41 | the daily index runs over consecutive days from the first to the last grouped date and contains every grouped date |
| Forecast.RawColumn | Tables/table3full.py:40-41 | a model's unfilled daily column holds its group mean for each day |
| Forecast.FFill | Tables/table3full.py:42 | a filled entry is missing exactly when every entry up to it is missing, and otherwise equals the latest value up to it |
| Forecast.FilledFromLatestDay | Tables/table3full.py:40-42 | a filled entry is the group mean of the latest day up to it that has one, and days before the model's first value stay missing |
| Forecast.TrainSize | Tables/table3full.py:56 | the training size is the integer part of three fifths of the column length |
| Forecast.Split | Tables/table3full.py:56-57 | training part followed by test part is the column, with the training size as the first part's length |
| Forecast.OrdersNested | Tables/table3full.py:64-66 | the twelve orders are tried with `p` outermost in 1..2, then `d` in 1..2, then `q` in 7..9 |
| Forecast.Consider | Tables/table3full.py:67-77 | an attempt that raises leaves the best unchanged, and a change installs the order just tried with its error |
| Forecast.GridSearch | Tables/table3full.py:59-77 | the result is the least error over the orders that did not raise, the earliest order among equal least errors, and no order exactly when every attempt raised |
| Forecast.BestUnique | Tables/table3full.py:59-77 | the description of the search result determines it uniquely |
| Forecast.SearchEach | Tables/table3full.py:55-77 | one search result per column, in column order, each the best order for that column's scores |
| Forecast.EvaluateModels | Tables/table3full.py:25-77 | one result per pivot column in column order, each the best order for that model's filled daily column split 60/40 |
| Forecast.Table3 | Tables/table3full.py:22-77 | the script raises on `Model` exactly when the combined table has no columns, and otherwise gives one best order per pivot column |

## Left out

- Browser automation: the browser session, waiting, scrolling, clicking and sleeping in `iPhone8Scrape.py` are not modelled. Each read the loop makes is an input that either yields a value or raises.
- ScrapeListings: its own contract states only that the records are distinct, new and checked. Which records a page pass collects is stated by `Scrape.ScrapeListingsRecords`. That lemma is kept apart so that the per-listing outcomes do not come into every proof that uses a page pass.
- ScrapePages: its own contract states only that the records are distinct, new and checked, and bounds the pages scraped. Where the loop stops is stated by `Scrape.ScrapePagesStops`, and which records it collects by `Scrape.ScrapePagesIsOnePass`.
- ScrapeRun: its own contract states what an undismissed overlay does and that the records are distinct and checked. Which records a run collects is stated by `Scrape.ScrapeRunCollects`.
- Clock: the run date is a parameter, because it comes from the system clock.
- File system: directory listing, file reading and file writing are not modelled. Files are in-memory sequences of rows, and the CSV text the scraper writes is a string.
- Printing and plotting: console output, matplotlib figures, `rcParams` and the Excel exports have no effect on the data and are not modelled.
- Reports.SeriesSpread: pandas' `std()` is the square root of the sample variance. The model keeps the sample variance and leaves out the square root and floating point, so spreads are defined and undefined in exactly the same cases but their values are the variances.
- Reports.Ratio: the ratio is not rounded to three decimals. `round` on floating point is not modelled, and neither are the other `round` calls of the tables.
- Rolling.Mean: prices are exact reals, so every mean is exact. Floating-point summation is not modelled.
- Forecast.GridSearch: the ARIMA fit, forecast and mean absolute error are an uninterpreted scoring function that may fail. A failure covers both an exception and a NaN error, which can never compare smaller.
- Forecast.EvaluateModels: the standardised error is left out. It divides by the test range in floating point, and its result is only printed (`Tables/table3full.py:79-93`).
- Forecast.TrainSize: `int(n * 0.6)` is modelled as the integer part of `3n/5`. That is what the floating-point product truncates to for every table size below 2^53; larger sizes are not modelled.
- `np.polyfit` trend lines in `Visualisations/figure4.py` and the coefficient of variation in `Tables/table1_full.py` are not modelled: they are floating-point library results.
- `Visualisations/figure9.py` is not part of this model: it is a single ARIMA fit and a plot, and its name normalisation repeats `Tables/table3full.py:25-26`. `Tables/table1_full.py` is not part of this model either: it is a pandas `describe()` call.
- Lowercasing: `str.lower()` is modelled for ASCII letters only. `\d` matches ASCII digits only, not other Unicode decimal digits.
- Case-insensitive matching: it folds ASCII letters together with the four non-ASCII characters that match them: U+0130 and U+0131 fold to `i`, U+017F to `s` and U+212A to `k`. That is the whole of Python's case-insensitive matching for the ASCII patterns the scripts use. Case-insensitive matching of non-ASCII patterns is not modelled.
- Loader.ParseFloat: Python's `float()` is modelled on its decimal subset: whitespace, an optional sign, digits with at most one decimal point, and `nan` in any case. Exponents, `inf` and underscores raise in the model although Python accepts them; no price text the scraper writes contains them.
- Loader.ParseDate: only `YYYY-MM-DD` dates are read; other text becomes NaT. The scraper writes only that form, while pandas would also infer other formats.
- Loader.ReadFile: `read_csv`'s treatment of a data row longer than the header is simplified to an error. pandas raises for such a row unless every data row is longer by the same amount, in which case it turns the leading columns into the index; that inference is not modelled. A shorter row is padded with missing cells, as in pandas.
- The `sort_values('Date')` calls before rolling are not modelled. Rolling reads the distinct dates in ascending order and every row of a window's dates, so the row order does not matter to it.
- `figure2.py` also exports a summary of the one- and seven-day windows to a spreadsheet. It repeats the sweep's computation and writes it to a file, so it is not modelled.
- Combine.GetCombinedCleanData: a non-empty series whose rows all fall to the size floor or the fence is taken to keep its columns. pandas' `groupby(...).apply` on an empty grouping may return a table without them; that case is not modelled.
- The `Series` column that `get_combined_clean_data` adds is carried as a label on every combined row (`Combine.SeriesRow`). The report scripts ignore it.
