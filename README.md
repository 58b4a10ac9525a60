# Anki study analytics: a verified model of the integer pipeline

This project models, in Dafny, the integer analytics pipeline of
anki-study-analytics. The pipeline turns a table of per-day review counts
(learning, review, relearn, total) into derived series and rollups. It has
four parts:

- **Export** (`scripts/export_anki_reviews.py`). The per-day counts the review
  log query returns become a dense table with one row for every day from
  2023-06-11 to today. Days without reviews get zero counts. The preview
  statistics are printed over that table.
- **Honest-total rewrite** (`scripts/reorganize_csv.py`). Every row is
  rewritten with `Total = Learning + Review`, and `Relearn` moves to the last
  column. A second pass folds statistics over the rewritten rows.
- **Dashboard table** (`dashboard/data_loader.py`). The rows are sorted by
  date. They are enriched with:
  - the centred moving-window sums behind `Total_MA7` and `Total_MA30`;
  - the four cumulative columns;
  - the `IsActive` and `IsZero` flags;
  - the `Streak` column.

  The table is then summarised in four ways: the gap list, the summary
  statistics, the monthly table and the weekday-by-week heatmap.
- **Monthly plot data** (`scripts/plot_anki_data.py`). Rows are filed under
  their year-month in a dictionary of accumulators. The months are then read
  out in sorted key order as aligned series.

Each part has its own module. Code that changes state step by step is modelled
imperatively:

- The DataFrame is the class `DataLoader.Frame`. Its columns are sequence
  fields, and each `_add_*` helper is a method that assigns its columns in
  place.
- The row loops are `while` or `for` loops with invariants:
  - `Frame.AddStreaks` (the streak loop);
  - `GapDetection.FindGaps`;
  - `ExportReviews.FillDateRange`;
  - `ReorganizeCsv.Reorganize` and `ReorganizeCsv.Statistics`;
  - `PlotMonthly.AggregateByMonth`.

Each loop is proved equal to a specification function. The properties the
program promises are then proved about those functions as lemmas.

The supporting modules are:

- `Series`: the counter record, column sums and counts.
- `Ordering`: Python's `str` order, and `sorted` over distinct keys.
- `Grouping`: group sums, and the lemma that grouping keeps a column's total.
- `Decimal`: `str()`, `zfill` and fixed-width digits, with their round trips
  and their order.

Dates in the dashboard and export models are day numbers. These calendar
fields are given as fields of each row rather than derived from the date:
weekday, ISO week, calendar year and `MonthStr`. The rows of the plot model
keep their date text, which the model parses. Ratios are exact `real`s.
Moving averages are kept as window sums with a "defined" flag, so the
division by the window width is not modelled.

In a few places the code does something other than what its names, comments or
docstrings suggest. The model follows the code:

- **Monthly `RelearnRate`.** It is not 0 on every month whose total is 0. The
  `fillna(0)` at `dashboard/data_loader.py:168` only replaces `0/0`, so a
  month with relearns and a zero total gets an infinity
  (`Aggregates.RelearnRate`).
- **Heatmap rows.** The heatmap has one row per weekday that occurs in the
  data, not always seven. Its `y_labels` are always the seven names
  (`Aggregates.PrepareHeatmap`).
- **Heatmap columns.** The columns are in string order of the `YearWeek` key.
  For four-digit years that order is chronological by (year, week)
  (`DataLoader.YearWeekKeyChronological`). But the key pairs the calendar year
  with the ISO week, so two different weeks can share a key
  (`DataLoader.YearWeekKeyCollision`).
- **Summary of an empty table.** It fails instead of returning zeros: at
  line 114, `int(NaN)` raises. The model returns `None`
  (`Aggregates.SummaryStats`).
- **Relearn rate range.** `relearn_rate` stays within [0, 100] only when
  relearns do not exceed the `Total` column. That holds on the exported file,
  where every total counts all three kinds. On the honest file
  (`Total = Learning + Review`) the rate can exceed 100.
- **Honest total.** The rewrite computes `Learning + Review` with no
  subtraction of any other count. Its two averages are unguarded divisions
  (`ReorganizeCsv.Averages`).

## Model

| member | source | states |
|---|---|---|
| DataLoader.SortByDate | dashboard/data_loader.py:21 | the rows reordered: sorted by non-decreasing date, and a permutation (same multiset) of the input |
| DataLoader.SortByDateReversesTies | dashboard/data_loader.py:21 | the model's fixed order for rows sharing a date: two such rows come out in reverse input order |
| DataLoader.InsertByDate | dashboard/data_loader.py:21 | one insertion step keeps the table sorted, adds exactly the one row, and its first row is the new row when that is no later than the old first row, else the old first row |
| DataLoader.YearWeekKey | dashboard/data_loader.py:41 | the `YearWeek` text: the year's decimal digits, then "-W", then the week in exactly two digits, four characters longer than the year |
| DataLoader.YearWeekKeySplit | dashboard/data_loader.py:41 | for a four-digit year the key is the year's four digits, "-W" and the week's two digits |
| DataLoader.KeyOf2024Week1 | dashboard/data_loader.py:41 | week 1 of 2024 gets the key "2024-W01" |
| DataLoader.YearWeekKeyChronological | dashboard/data_loader.py:39-41 | for years 1000-9999, `str(Year) + '-W' + zfill(Week)` keys compare as strings exactly as (year, week) pairs compare |
| DataLoader.YearWeekKeyCollision | dashboard/data_loader.py:39-41 | two different days, 2024-01-01 and 2024-12-30, both of calendar year 2024 and ISO week 1, receive the same key "2024-W01" |
| DataLoader.WindowStart | dashboard/data_loader.py:50 | the first row of the centred window of width w around row i lies `w // 2` rows before it |
| DataLoader.WindowEnd | dashboard/data_loader.py:50 | the last row of that window is at or after row i, and the window spans exactly w rows |
| DataLoader.CenteredWindowSums | dashboard/data_loader.py:47-52 | one value per row, defined exactly when the centred window of width w lies inside the table |
| DataLoader.CenteredWindowSumsSpec | dashboard/data_loader.py:50 | a defined window covers exactly w rows, with at most one extra row before the centre (i-3..i+3 for 7, i-15..i+14 for 30), and its sum is a difference of two cumulative totals |
| DataLoader.ShortTableUndefined | dashboard/data_loader.py:50 | on a table shorter than the window every centred value is undefined (NaN) |
| DataLoader.PrefixSums | dashboard/data_loader.py:55-62 | `cumsum()`: one value per row, the last one the column sum |
| DataLoader.PrefixSumsRecurrence | dashboard/data_loader.py:55-62 | `Cumulative_X[0] = X[0]`, `Cumulative_X[i] = Cumulative_X[i-1] + X[i]`, and the last value is the column sum |
| DataLoader.PrefixSumsStep | dashboard/data_loader.py:57-60 | one step of the running total: each cumulative value is the previous one plus the row's value |
| DataLoader.PrefixSumsMonotone | dashboard/data_loader.py:57-60 | with non-negative counts the cumulative column never decreases |
| DataLoader.ActiveFlags | dashboard/data_loader.py:67 | `IsActive[i]` holds exactly when `Total[i] >= MIN_CARDS_FOR_ACTIVE_DAY` |
| DataLoader.ZeroFlags | dashboard/data_loader.py:68 | `IsZero[i]` holds exactly when `Total[i] == 0` |
| DataLoader.ActiveIsNonZero | dashboard/data_loader.py:67-68 | with threshold 1 and non-negative totals, a row is active exactly when it is not zero |
| DataLoader.Streaks | dashboard/data_loader.py:78-87 | the streak column: one value per row, positive exactly on active rows, and never more than the row's position plus one |
| DataLoader.StreaksPrefix | dashboard/data_loader.py:78-87 | the streak column of a prefix of rows is the prefix of the streak column (the scan looks only backwards) |
| DataLoader.StreaksLast | dashboard/data_loader.py:82-87 | the last streak value is one more than the one before it on an active row, else 0 |
| DataLoader.StreakStep | dashboard/data_loader.py:81-87 | `Streak[i] = Streak[i-1] + 1` on an active row (1 on the first row), 0 on an inactive one |
| DataLoader.StreakIsActiveRun | dashboard/data_loader.py:73-89 | `Streak[i]` is the length of the run of active rows ending at row i: `Streak[i] <= i+1`, `Streak[i] > 0` exactly when row i is active, every row of the run is active and the row before it is not |
| DataLoader.StreakCoversRun | dashboard/data_loader.py:81-87 | any run of active rows ending at row hi makes `Streak[hi]` at least its length |
| DataLoader.Frame.constructor | dashboard/data_loader.py:17-21 | the table as read: its rows sorted by date, no derived columns yet |
| DataLoader.Frame.AddMovingAverages | dashboard/data_loader.py:47-52 | adds one `Total_MA{w}` column per configured window, each the centred window sums, leaving other columns as they were |
| DataLoader.Frame.AddCumulativeMetrics | dashboard/data_loader.py:55-62 | assigns the four cumulative columns, each the running totals of its counter |
| DataLoader.Frame.AddActivityFlags | dashboard/data_loader.py:65-70 | assigns `IsActive` and `IsZero` from the `Total` column |
| DataLoader.Frame.AddStreaks | dashboard/data_loader.py:73-89 | the loop that starts the column at 0 and carries `current_streak` writes exactly the streak fold of `IsActive` |
| DataLoader.Frame.Enrich | dashboard/data_loader.py:25-28 | the four helpers in order leave every derived column equal to its specification |
| DataLoader.LoadAnkiData | dashboard/data_loader.py:9-30 | a fresh table whose rows are the sorted input and whose derived columns all meet their specification |
| GapDetection.Scan | dashboard/data_loader.py:206-223 | the loop state after n rows: an open gap has a start row, its start date and a length reaching row n; a closed one has length 0 |
| GapDetection.ScanStep | dashboard/data_loader.py:210-223 | one row of the loop keeps the scan invariant |
| GapDetection.ScanInactive | dashboard/data_loader.py:211-214 | an inactive row opens a gap at its own row or extends the open one |
| GapDetection.ScanActive | dashboard/data_loader.py:215-223 | an active row closes the open gap and reports it only when it has at least `min_gap_days` rows |
| GapDetection.ScanIsScanned | dashboard/data_loader.py:210-223 | after any number of rows, the reported runs are exactly the long enough maximal inactive runs ended so far, in order, and the open gap is the inactive run in progress |
| GapDetection.ScanEnd | dashboard/data_loader.py:225-231 | the check after the loop reports a trailing gap when it is long enough, and the result is then complete |
| GapDetection.Finish | dashboard/data_loader.py:225-231 | the gaps after the final check: the loop's gaps, plus one trailing gap (from the open gap's start date to the last date, with its length) exactly when a gap is open and at least `min_gap_days` long, else the loop's gaps unchanged |
| GapDetection.FinishFindsGaps | dashboard/data_loader.py:195-233 | the gaps are the records (first date, last date, row count) of exactly the maximal inactive runs of at least `min_gap_days` rows, in row order, each separated from the next by an active row |
| GapDetection.FindGaps | dashboard/data_loader.py:195-233 | the loop with `current_gap_start` and `gap_length` returns the scan's gaps, and so exactly the gaps `FinishFindsGaps` describes |
| Aggregates.Percent | dashboard/data_loader.py:111-122 | a guarded percentage: 0 when the denominator is not positive; otherwise it is 0 exactly when the part is 0, 100 exactly when the part is the whole, and within [0, 100] for a part between 0 and the whole |
| Aggregates.PercentsOfSplit | dashboard/data_loader.py:118-119 | the shares of two parts that make up a positive whole add up to 100 |
| Aggregates.Average | dashboard/data_loader.py:108-109 | 0 with no days; otherwise 0 exactly when the total is 0, and between 0 and the total for a non-negative total |
| Aggregates.MaxOf | dashboard/data_loader.py:114 | `max()` of a non-empty column: at least every element and equal to one of them |
| Aggregates.MinOf | dashboard/data_loader.py:146 | `min()` of a non-empty column: at most every element and equal to one of them |
| Aggregates.SummaryStats | dashboard/data_loader.py:92-147 | none for an empty table; otherwise the column sums, day counts with `active + inactive = total`, `active_days_pct` the guarded percentage of active days (in [0, 100], 100 exactly when every day is active), guarded averages and percentages, `max_streak` the largest streak, `current_streak` the last row's, and `first_date`/`last_date` the smallest and largest date of the table |
| Aggregates.LearningReviewShares | dashboard/data_loader.py:118-119 | on a table whose totals are learning plus review, with at least one card, the learning and review percentages add up to 100 |
| Aggregates.SummaryStreaksAreRuns | dashboard/data_loader.py:114-115 | with the loader's streak column, `current_streak` is the length of the active run that ends the table (0 if the last day is inactive), and `max_streak` is the length of the longest active run |
| Aggregates.LastStreakIsTrailingRun | dashboard/data_loader.py:115 | the last streak value is the length of the trailing run of active rows |
| Aggregates.LargestStreakIsLongestRun | dashboard/data_loader.py:114 | the largest streak value bounds every active run, and some active run has exactly that length |
| Aggregates.RelearnRate | dashboard/data_loader.py:168 | `(Relearn / Total * 100).fillna(0)`: infinite exactly when the total is 0 and relearns are not |
| Aggregates.RelearnRateCases | dashboard/data_loader.py:168 | the rate is 0 exactly when there are no relearns; with a non-zero total it is the relearn share in percent |
| Aggregates.MonthlyStats | dashboard/data_loader.py:157-168 | one row per distinct `MonthStr`, in strictly ascending key order; each row holds its month's sums of the four counters and its count of active days, plus its relearn rate |
| Aggregates.GroupByMonthTotal | dashboard/data_loader.py:157-163 | grouping a column by the sorted distinct keys keeps its total |
| Aggregates.MonthlyStatsTotals | dashboard/data_loader.py:157-165 | the monthly counter columns sum to the daily column sums, and the months' active days add up to the number of active days |
| Aggregates.WeekdaysFrom | dashboard/data_loader.py:244-253 | the weekdays from w to 6 that occur, strictly ascending, each exactly once |
| Aggregates.PresentWeekdays | dashboard/data_loader.py:244-253 | the pivot's index after `sort_index`: exactly the weekdays present, ascending |
| Aggregates.WeekLabels | dashboard/data_loader.py:259 | the pivot's columns: exactly the `YearWeek` keys present, strictly ascending as strings |
| Aggregates.HeatmapRow | dashboard/data_loader.py:244-250 | one matrix row: for each week label, the sum of `Total` over the rows of that weekday and week |
| Aggregates.PrepareHeatmap | dashboard/data_loader.py:236-264 | `y_labels` are always the seven names; the columns are the week labels, the rows the present weekdays, and each cell the sum of `Total` over its weekday and week |
| Aggregates.HeatmapEmptyCell | dashboard/data_loader.py:244-250 | a weekday and week with no row get 0 (`fill_value=0`) |
| Aggregates.HeatmapRowsMatchLabels | dashboard/data_loader.py:253-256 | when every weekday occurs, the rows are weekdays 0..6, in the order the seven labels name them |
| Aggregates.AllWeekdaysPresent | dashboard/data_loader.py:253 | when every weekday occurs, the sorted index is 0..6 |
| Aggregates.ProductDistinct | dashboard/data_loader.py:244-250 | the cells of the matrix have distinct (weekday, week) keys |
| Aggregates.FlattenIsGroupSums | dashboard/data_loader.py:244-250 | the matrix read row by row is the list of group sums over all its cell keys |
| Aggregates.HeatmapTotal | dashboard/data_loader.py:244-250 | the heatmap's cells add up to the sum of the `Total` column: no card is lost or counted twice |
| Grouping.GroupSum | dashboard/data_loader.py:157-163 | one group's sum; when every row carries the key it is the column sum |
| Grouping.GroupSums | dashboard/data_loader.py:157-163 | one group sum per listed key, in the order of the keys |
| Grouping.GroupSumAbsent | dashboard/data_loader.py:249 | a key that no row carries has group sum 0 |
| Grouping.GroupSumBounds | dashboard/data_loader.py:157-163 | with non-negative values a group sum lies between 0 and the column sum |
| Grouping.GroupSumsTotal | dashboard/data_loader.py:157-163 | when every row's key appears once among the listed keys, the group sums add up to the column sum |
| Series.SumAsIntsIsCount | dashboard/data_loader.py:105 | summing a boolean column as 0/1 counts its true entries |
| Series.CountTrue | dashboard/data_loader.py:105 | the number of true entries: at most the length, the length exactly when all are true, 0 exactly when none is |
| Ordering.LexLess | scripts/plot_anki_data.py:48 | Python's `<` on strings: a proper prefix is smaller, and nothing is smaller than its own prefix |
| Ordering.LexLessFirstDifference | scripts/plot_anki_data.py:48 | two strings that agree up to position k and differ there compare as their characters at k |
| Ordering.LexLessTrichotomy | scripts/plot_anki_data.py:48 | Python's string order is total and asymmetric |
| Ordering.LexLessTransitive | scripts/plot_anki_data.py:48 | Python's string order is transitive |
| Ordering.SortedKeys | scripts/plot_anki_data.py:48 | `sorted()` of the distinct keys: strictly ascending and holding exactly the keys |
| Decimal.Dec | dashboard/data_loader.py:41 | `str(n)` of a natural number: at least one character, all of them digits |
| Decimal.ZeroFill | dashboard/data_loader.py:41 | `zfill(w)`: the text left-padded with '0' to width w, unchanged when already that wide, and ending in the original text |
| Decimal.FixedDigits | scripts/plot_anki_data.py:38-39 | a number written in exactly w digits |
| Decimal.FixedDigitsRoundTrip | scripts/plot_anki_data.py:38-39 | reading w digits and writing the number back in width w gives the same digits |
| Decimal.FixedDigitsValue | scripts/plot_anki_data.py:38-39 | the w-digit text of a number below 10^w reads back as that number |
| Decimal.FixedDigitsOrder | scripts/plot_anki_data.py:48 | w-digit texts compare as strings exactly as the numbers compare |
| Decimal.DecIsFixed | dashboard/data_loader.py:41 | `str(n)` of a w-digit number is its w-digit text |
| Decimal.ZeroFillTwoDigits | dashboard/data_loader.py:41 | `str(week).zfill(2)` of a week below 100 is its two-digit text |
| ExportReviews.StartConstantsAgree | scripts/export_anki_reviews.py:19-22 | `START_DATE` is day 19519, and `START_DATE_MS` is the first millisecond of that day |
| ExportReviews.DaysFromCivilNextDay | scripts/export_anki_reviews.py:64-69 | `current_date += timedelta(days=1)`: the next day number is the next calendar day, the next day of the month, the first of the next month after a month's last day, and January 1 after December 31 |
| ExportReviews.LastOfFebruary | scripts/export_anki_reviews.py:69 | March 1 follows the last of February in every year, leap or not |
| ExportReviews.CountedYearLength | scripts/export_anki_reviews.py:69 | a year counted from March to February has 366 days exactly when the year in which it ends is a leap year |
| ExportReviews.Lookup | scripts/export_anki_reviews.py:67 | `review_data.get(day, (0, 0, 0, 0))`: the day's entry if present, else zeros |
| ExportReviews.DenseRange | scripts/export_anki_reviews.py:59-69 | `today - START_DATE + 1` rows, or none when today is before the start |
| ExportReviews.FillDateRange | scripts/export_anki_reviews.py:59-69 | the `while current_date <= today` loop builds exactly the dense table |
| ExportReviews.DenseRangeIsConsecutive | scripts/export_anki_reviews.py:61-69 | the table starts at the start date, ends today, and each row's day follows the previous row's by one |
| ExportReviews.DenseRangeCoversReviews | scripts/export_anki_reviews.py:54-68 | every reviewed day in range has its row, at its offset, with its counts; every row lies in range; a row with non-zero counts is a reviewed day |
| ExportReviews.DenseRangeBalanced | scripts/export_anki_reviews.py:37-44 | when the query's totals count all three kinds, every row of the table keeps `Total = Learning + Review + Relearn`, zero-filled rows included |
| ExportReviews.PreviewStats | scripts/export_anki_reviews.py:85-112 | none for an empty table; otherwise the sums of the learning, review, relearn and total columns, days with a positive total, days without as the rest, the all-days average of the total, and the active-day average of the total present exactly when some day has reviews |
| ExportReviews.PreviewActiveDays | scripts/export_anki_reviews.py:96-101 | with non-negative counts, there are reviews in total exactly when some day has reviews, and every day is without reviews exactly when every total is 0 |
| ExportReviews.SumAtLeastElement | scripts/export_anki_reviews.py:99-100 | a sum of non-negative totals is at least each of them |
| ExportReviews.SumZeroWhenAllZero | scripts/export_anki_reviews.py:99-100 | a column of zero totals sums to 0 |
| ReorganizeCsv.Honest | scripts/reorganize_csv.py:44-54 | the rewritten row keeps the date and the three counts and has total learning plus review |
| ReorganizeCsv.HonestRows | scripts/reorganize_csv.py:43-56 | one rewritten row per input row, in order |
| ReorganizeCsv.Reorganize | scripts/reorganize_csv.py:36-56 | the header is always the new one, the output is exactly the rewritten rows, and `rows_processed` is their number |
| ReorganizeCsv.HonestIgnoresOldTotal | scripts/reorganize_csv.py:44-54 | rows that differ only in the old total are rewritten alike |
| ReorganizeCsv.HonestOfBalanced | scripts/reorganize_csv.py:51 | on an exported row, the honest total is the old total less the relearns |
| ReorganizeCsv.StatisticsOf | scripts/reorganize_csv.py:80-110 | the statistics of a file: honest work is learning plus review, at most one day with work per row, `total_days` is `rows_processed`, and no day has work exactly when every total is at most 0 |
| ReorganizeCsv.Statistics | scripts/reorganize_csv.py:80-102 | the accumulator loop computes exactly the column sums, the days with work, the honest work and the day count |
| ReorganizeCsv.StatisticsStep | scripts/reorganize_csv.py:94-99 | one more row adds its counts to the sums and its work flag to the count |
| ReorganizeCsv.SumHonestTotals | scripts/reorganize_csv.py:101 | over the rewritten rows the total column sums to the learning sum plus the review sum |
| ReorganizeCsv.StatisticsOfRewrite | scripts/reorganize_csv.py:85-102 | over the rewritten file: the honest work is the sum of the written total column, the three sums are those of the input, and `days_with_work <= total_days = rows_processed` |
| ReorganizeCsv.Averages | scripts/reorganize_csv.py:109-110 | the two printed averages: they fail exactly when there are no rows or no day of work; otherwise each times its denominator is the honest work |
| ReorganizeCsv.AveragesFailWithoutWork | scripts/reorganize_csv.py:109-110 | a file holding one all-relearn day makes the second average fail |
| ReorganizeCsv.AveragesDefined | scripts/reorganize_csv.py:98-110 | with non-negative counts and at least one row, the averages exist exactly when some row has learning or review work |
| PlotMonthly.DaysInMonth | scripts/plot_anki_data.py:38 | the calendar's month lengths, between 28 and 31 |
| PlotMonthly.ParseDate | scripts/plot_anki_data.py:38 | `strptime(s, '%Y-%m-%d')`: a date only for zero-padded 'YYYY-MM-DD' text naming a real calendar day |
| PlotMonthly.FormatDate | scripts/export_anki_reviews.py:65 | `strftime('%Y-%m-%d')`: ten characters, four digits, '-', two digits, '-', two digits |
| PlotMonthly.ParseFormatDate | scripts/plot_anki_data.py:38 | parsing the text a valid date is written as gives the date back |
| PlotMonthly.FormatParseDate | scripts/plot_anki_data.py:38 | writing back a parsed date gives the text that was parsed |
| PlotMonthly.MonthKey | scripts/plot_anki_data.py:39 | `strftime('%Y-%m')` is seven characters long |
| PlotMonthly.MonthKeyIsPrefix | scripts/plot_anki_data.py:38-39 | the month key of a well-formed date text is its first seven characters |
| PlotMonthly.MonthKeyOrder | scripts/plot_anki_data.py:48 | month keys compare as strings exactly as (year, month) pairs compare |
| PlotMonthly.ParseMonthKey | scripts/plot_anki_data.py:51 | `strptime(month, '%Y-%m')`: a year in 1..9999 and a month in 1..12, or failure |
| PlotMonthly.ParseMonthKeyOf | scripts/plot_anki_data.py:51 | a month key reads back as the year and month it was written from |
| PlotMonthly.FirstSeen | scripts/plot_anki_data.py:23-45 | the dictionary's keys in insertion order: distinct, and exactly the keys seen |
| PlotMonthly.AddRow | scripts/plot_anki_data.py:42-45 | filing one row's counts under key k: k is added to the keys and listed at the end if new, its entry grows by the counts, and every other entry is unchanged |
| PlotMonthly.FileAll | scripts/plot_anki_data.py:30-45 | after filing every row, the dictionary and its key order hold exactly the keys seen |
| PlotMonthly.Accumulate | scripts/plot_anki_data.py:30-45 | the months of the dictionary are exactly the months of the rows' dates |
| PlotMonthly.FileUnder | scripts/plot_anki_data.py:42-45 | the four `+=` on a `defaultdict` entry: the key is listed on first use and its entry grows by the row's counts |
| PlotMonthly.PrefixParses | scripts/plot_anki_data.py:30-38 | a row that parses, after rows that all parse, extends the parsed prefix |
| PlotMonthly.AccumulateStep | scripts/plot_anki_data.py:30-45 | the dictionary after one more row is the previous dictionary with that row filed under its month |
| PlotMonthly.AggregateByMonth | scripts/plot_anki_data.py:23-45 | the row loop fails exactly when some date does not parse; otherwise it yields the dictionary of all rows filed under their months |
| PlotMonthly.AddRowGroupCounts | scripts/plot_anki_data.py:42-45 | filing one more row keeps every month's entry equal to the month's sums |
| PlotMonthly.FileAllIsGroupSums | scripts/plot_anki_data.py:23-45 | filing rows one at a time leaves exactly the keys seen, in order of first appearance, each holding the sums of the four counters over its rows |
| PlotMonthly.AccumulateIsGroupSums | scripts/plot_anki_data.py:23-45 | each month's four accumulators are the sums over the rows whose date falls in that month, and the months are exactly those seen |
| PlotMonthly.ExtractSeries | scripts/plot_anki_data.py:48-55 | `sorted_months` is the sorted distinct keys; `dates` and the four lists have its length, and position j describes month j |
| PlotMonthly.AccumulateWellFormed | scripts/plot_anki_data.py:23-48 | every key of the accumulated dictionary has an entry and reads back as a year-month |
| PlotMonthly.SeriesMonths | scripts/plot_anki_data.py:48-51 | the plotted months are exactly the months of the rows, strictly ascending, and their dates are in calendar order |
| PlotMonthly.SeriesTotalsOf | scripts/plot_anki_data.py:41-55 | for any keys and counts, each read-out series sums to its column's total |
| PlotMonthly.ColumnTotal | scripts/plot_anki_data.py:52-55 | a per-month column over every month of the rows adds up to the column's total |
| PlotMonthly.SeriesTotals | scripts/plot_anki_data.py:41-55 | each plotted series sums to its column's total over all rows: no row is lost or counted twice |
| PlotMonthly.Peaks | scripts/plot_anki_data.py:87-93 | the printed statistics fail without a month; otherwise they give the month count, the first and last month, and each series' maximum |
| PlotMonthly.NoRowsNoPeaks | scripts/plot_anki_data.py:23-55 | an empty file gives no months, so no statistics |
| PlotMonthly.RowsHavePeaks | scripts/plot_anki_data.py:87-93 | with at least one row whose date parses, there is a month and the statistics exist |

## Left out

- Reading and writing CSV files (the export's header and rows at
  `scripts/export_anki_reviews.py:74-77` included), the SQLite connection and
  query (`scripts/export_anki_reviews.py:27-55`), `os.path`, and every `print`:
  these are I/O. The query result is a parameter (a map from day numbers to
  counts); files are sequences of rows.
- `date.today()`: the clock is a parameter (`today`).
- `int(row[k])` parsing of counter text: rows arrive with integer counters.
  A non-numeric field, which raises `ValueError`, is not modelled.
- The CSV header line of the input to the rewrite: `next(reader)` on an
  empty file raises `StopIteration`, which is not modelled. The input header
  is a parameter, which the rewrite ignores.
- `_add_time_features` (`dashboard/data_loader.py:33-44`): `day_name`,
  `dayofweek`, `isocalendar` and `strftime('%Y-%m')` are calendar library
  code. Weekday, ISO week, calendar year and `MonthStr` are fields of
  `DataLoader.Day`. Only the `YearWeek` string is built from them.
- The `date_range` text at `dashboard/data_loader.py:146`: it needs month
  names; the summary keeps the first and last day numbers instead.
- Floating point: every ratio is an exact `real`. Rounding, and the formatted
  printing with one decimal, are not modelled.
- CenteredWindowSums: the division by the window width in `rolling().mean()`
  is not modelled; the model gives the window sum and whether it is defined.
- `calculate_weekday_stats` (`dashboard/data_loader.py:173-192`): its mean,
  median and standard deviation are floating-point statistics, and the
  categorical mutation at line 183 is a pandas type detail.
- SortByDate: pandas' default sort is not stable, so the order of rows that
  share a date is unspecified. The model puts them in one fixed order: its
  insertion sort leaves equal-date rows in reverse input order
  (`DataLoader.SortByDateReversesTies`). Every property proved about the sorted
  table holds for any order of equal-date rows.
- CenteredWindowSums: a window width of 0 gives a column of undefined values,
  as pandas' `rolling(window=0).mean()` gives a column of NaN.
- ParseDate: `strptime` also accepts some non-padded forms such as
  '2023-6-1'; the model rejects such text. The plot reads
  `anki_daily_reviews_honest.csv` (`scripts/plot_anki_data.py:19`), which the
  rewrite writes (`scripts/reorganize_csv.py:16`). The rewrite copies each date
  from the exported file (`scripts/reorganize_csv.py:44-55`), and the export
  writes every date with `strftime('%Y-%m-%d')`
  (`scripts/export_anki_reviews.py:65`), so the dates are zero-padded.
- ParseDate: years below 1000 are not modelled as `strftime('%Y')` writes
  them, because that depends on the C library. The month-key lemmas cover
  years 1 to 9999 in four digits.
- `Total` is taken from the CSV as given (`dashboard/data_loader.py:17`) and
  is not recomputed. `ExportReviews.DenseRangeBalanced` states the relation
  that holds on the exported file.
- Everything outside the four core files is not part of this model:
  `dashboard/chart_builders.py`, `scripts/create_dashboard.py`,
  `scripts/create_dashboard_tabs.py` and `scripts/create_median_pdf.py` are
  presentation, and `dashboard/config.py` holds only constants. `dashboard/config.py`'s
  `MIN_CARDS_FOR_ACTIVE_DAY` and `MOVING_AVERAGES` become parameters, and so
  does `min_gap_days`.
