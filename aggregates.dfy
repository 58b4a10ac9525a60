/**
 * The dashboard's aggregate views of the enriched table
 * (dashboard/data_loader.py): the summary statistics, the per-month table and
 * the weekday-by-week heatmap matrix.
 *
 * Ratios are exact `real`s; the floating-point rounding of the original is
 * not modelled.
 */
module Aggregates {
  import opened Series
  import opened Ordering
  import opened Grouping
  import opened DataLoader

  // ---------------------------------------------------------------------------
  // Guarded ratios
  // ---------------------------------------------------------------------------

  /** `part / whole * 100 if whole > 0 else 0`. */
  function Percent(part: int, whole: int): (r: real)
    ensures whole <= 0 ==> r == 0.0
    ensures whole > 0 ==> (r == 0.0 <==> part == 0) && (r == 100.0 <==> part == whole)
    ensures 0 <= part <= whole ==> 0.0 <= r <= 100.0
  {
    if whole > 0 then
      var r := (part as real) / (whole as real) * 100.0;
      PercentScales(part, whole, r);
      r
    else 0.0
  }

  /** A positive-denominator percentage times the denominator is `100 * part`. */
  lemma PercentScales(part: int, whole: int, r: real)
    requires whole > 0 && r == (part as real) / (whole as real) * 100.0
    ensures r * (whole as real) == (part as real) * 100.0
    ensures r == 0.0 <==> part == 0
    ensures r == 100.0 <==> part == whole
    ensures 0 <= part <= whole ==> 0.0 <= r <= 100.0
  {
    var w := whole as real;
    assert r * w == (part as real) * 100.0;
    assert r == 100.0 ==> (part as real) * 100.0 == 100.0 * w;
  }

  /** The shares of two parts that make up a positive whole add up to 100 %. */
  lemma PercentsOfSplit(a: int, b: int, whole: int)
    requires whole > 0 && a + b == whole
    ensures Percent(a, whole) + Percent(b, whole) == 100.0
  {
    var w := whole as real;
    var pa, pb := Percent(a, whole), Percent(b, whole);
    PercentIsShare(a, whole);
    PercentIsShare(b, whole);
    assert (pa + pb) * w == pa * w + pb * w;
    assert (pa + pb - 100.0) * w == 0.0;
  }

  /** With a positive denominator, `Percent` is the share of `part` in `whole`, in percent. */
  lemma PercentIsShare(part: int, whole: int)
    requires whole > 0
    ensures Percent(part, whole) * (whole as real) == (part as real) * 100.0
  {
    PercentScales(part, whole, Percent(part, whole));
  }

  /** `total / count if count > 0 else 0`. */
  function Average(total: int, count: int): (r: real)
    ensures count <= 0 ==> r == 0.0
    ensures count > 0 ==> (r == 0.0 <==> total == 0)
    ensures count > 0 && total >= 0 ==> 0.0 <= r <= total as real
  {
    if count > 0 then
      var r := (total as real) / (count as real);
      assert r * (count as real) == total as real;
      r
    else 0.0
  }

  /** With a positive count, the average times the count is the total. */
  lemma AverageTimesCount(total: int, count: int)
    requires count > 0
    ensures Average(total, count) * (count as real) == total as real
  {
  }

  /** Largest element (`Series.max()`). */
  function MaxOf(s: seq<int>): (m: int)
    requires |s| > 0
    ensures forall i :: 0 <= i < |s| ==> s[i] <= m
    ensures exists i :: 0 <= i < |s| && s[i] == m
  {
    if |s| == 1 then s[0]
    else
      var p := MaxOf(s[..|s| - 1]);
      assert forall i :: 0 <= i < |s| - 1 ==> s[..|s| - 1][i] == s[i];
      if s[|s| - 1] > p then s[|s| - 1] else p
  }

  /** Smallest element (`Series.min()`). */
  function MinOf(s: seq<int>): (m: int)
    requires |s| > 0
    ensures forall i :: 0 <= i < |s| ==> m <= s[i]
    ensures exists i :: 0 <= i < |s| && s[i] == m
  {
    if |s| == 1 then s[0]
    else
      var p := MinOf(s[..|s| - 1]);
      assert forall i :: 0 <= i < |s| - 1 ==> s[..|s| - 1][i] == s[i];
      if s[|s| - 1] < p then s[|s| - 1] else p
  }

  function Dates(days: seq<Day>): (r: seq<int>)
    ensures |r| == |days| && forall i :: 0 <= i < |days| ==> r[i] == days[i].date
  {
    seq(|days|, i requires 0 <= i < |days| => days[i].date)
  }

  function AsIntColumn(s: seq<nat>): (r: seq<int>)
    ensures |r| == |s| && forall i :: 0 <= i < |s| ==> r[i] == s[i]
  {
    seq(|s|, i requires 0 <= i < |s| => s[i] as int)
  }

  // ---------------------------------------------------------------------------
  // Summary statistics
  // ---------------------------------------------------------------------------

  /**
   * The dictionary `calculate_summary_stats` returns. The date range is kept
   * as the first and last day numbers; its text formatting is not modelled.
   */
  datatype Summary = Summary(
    totalCards: int, totalLearning: int, totalReview: int, totalRelearn: int,
    totalDays: nat, activeDays: nat, inactiveDays: int, activeDaysPct: real,
    avgPerDay: real, avgPerActiveDay: real, relearnRate: real,
    maxStreak: int, currentStreak: int,
    learningPct: real, reviewPct: real,
    firstDate: int, lastDate: int)

  /**
   * `calculate_summary_stats(df)`. On an empty table `int(df['Streak'].max())`
   * converts NaN and fails, so there is no summary; otherwise the counters are
   * the column sums, the active days are the true `IsActive` rows, the
   * percentages are guarded by a positive denominator, `max_streak` is the
   * largest streak and `current_streak` the last row's.
   */
  function SummaryStats(days: seq<Day>, isActive: seq<bool>, streak: seq<nat>): (r: Option<Summary>)
    requires |isActive| == |days| && |streak| == |days|
    ensures r.None? <==> days == []
    ensures r.Some? ==>
              var s := r.value;
              && s.totalCards == Sum(TotalsOf(days))
              && s.totalLearning == Sum(Learnings(CountsOf(days)))
              && s.totalReview == Sum(Reviews(CountsOf(days)))
              && s.totalRelearn == Sum(Relearns(CountsOf(days)))
              && s.totalDays == |days|
              && s.activeDays == CountTrue(isActive)
              && s.activeDays + s.inactiveDays == s.totalDays && 0 <= s.inactiveDays
              && s.activeDaysPct == Percent(s.activeDays, s.totalDays)
              && 0.0 <= s.activeDaysPct <= 100.0
              && (s.activeDaysPct == 100.0 <==> s.activeDays == s.totalDays)
              && s.avgPerDay == Average(s.totalCards, s.totalDays)
              && s.avgPerActiveDay == Average(s.totalCards, s.activeDays)
              && (forall i :: 0 <= i < |streak| ==> streak[i] <= s.maxStreak)
              && (exists i :: 0 <= i < |streak| && streak[i] == s.maxStreak)
              && s.currentStreak == streak[|streak| - 1]
              && s.learningPct == Percent(s.totalLearning, s.totalCards)
              && s.reviewPct == Percent(s.totalReview, s.totalCards)
              && s.relearnRate == Percent(s.totalRelearn, s.totalCards)
              && (forall i :: 0 <= i < |days| ==> s.firstDate <= days[i].date <= s.lastDate)
              && s.firstDate == MinOf(Dates(days)) && s.lastDate == MaxOf(Dates(days))
  {
    if days == [] then None
    else
      var cs := CountsOf(days);
      var totalCards := Sum(Totals(cs));
      var totalLearning := Sum(Learnings(cs));
      var totalReview := Sum(Reviews(cs));
      var totalRelearn := Sum(Relearns(cs));
      var totalDays := |days|;
      var activeDays := CountTrue(isActive);
      var activeDaysPct := Percent(activeDays, totalDays);
      Some(Summary(
        totalCards, totalLearning, totalReview, totalRelearn,
        totalDays, activeDays, totalDays - activeDays, activeDaysPct,
        Average(totalCards, totalDays), Average(totalCards, activeDays),
        Percent(totalRelearn, totalCards),
        MaxOf(AsIntColumn(streak)), streak[|streak| - 1],
        Percent(totalLearning, totalCards), Percent(totalReview, totalCards),
        MinOf(Dates(days)), MaxOf(Dates(days))))
  }

  /** Column sums of a table whose `Total` is `Learning + Review` keep that split. */
  lemma {:induction false} SumHonestSplit(cs: seq<Counts>)
    requires forall i :: 0 <= i < |cs| ==> cs[i].total == cs[i].learning + cs[i].review
    ensures Sum(Totals(cs)) == Sum(Learnings(cs)) + Sum(Reviews(cs))
    decreases |cs|
  {
    if cs != [] {
      var p := cs[..|cs| - 1];
      assert Totals(cs)[..|cs| - 1] == Totals(p);
      assert Learnings(cs)[..|cs| - 1] == Learnings(p);
      assert Reviews(cs)[..|cs| - 1] == Reviews(p);
      SumHonestSplit(p);
    }
  }

  /**
   * On the honest table (`Total = Learning + Review` on every row) with at
   * least one card, the learning and review shares add up to 100 %.
   */
  lemma LearningReviewShares(days: seq<Day>, isActive: seq<bool>, streak: seq<nat>)
    requires |isActive| == |days| && |streak| == |days|
    requires forall i :: 0 <= i < |days| ==> days[i].counts.total == days[i].counts.learning + days[i].counts.review
    requires SummaryStats(days, isActive, streak).Some?
    requires SummaryStats(days, isActive, streak).value.totalCards > 0
    ensures SummaryStats(days, isActive, streak).value.learningPct
          + SummaryStats(days, isActive, streak).value.reviewPct == 100.0
  {
    SumHonestSplit(CountsOf(days));
    var s := SummaryStats(days, isActive, streak).value;
    PercentsOfSplit(s.totalLearning, s.totalReview, s.totalCards);
  }

  /** Rows `lo .. hi` are all active. */
  predicate ActiveRun(active: seq<bool>, lo: int, hi: int) {
    0 <= lo <= hi < |active| && forall j :: lo <= j <= hi ==> active[j]
  }

  /** The `len` rows ending at row `hi` are all active. */
  predicate ActiveRunEndingAt(active: seq<bool>, hi: int, len: int) {
    ActiveRun(active, hi - len + 1, hi)
  }

  /**
   * With the `Streak` column of the loader, `current_streak` is the length of
   * the run of active days that ends the table, and `max_streak` is the length
   * of the longest run of active days.
   */
  lemma SummaryStreaksAreRuns(days: seq<Day>, isActive: seq<bool>)
    requires |isActive| == |days| && |days| > 0
    ensures var s := SummaryStats(days, isActive, Streaks(isActive)).value;
            && TrailingRun(isActive, s.currentStreak)
            && (forall lo, hi :: ActiveRun(isActive, lo, hi) ==> hi - lo + 1 <= s.maxStreak)
            && (s.maxStreak == 0 || exists hi :: ActiveRunEndingAt(isActive, hi, s.maxStreak))
  {
    var s := SummaryStats(days, isActive, Streaks(isActive)).value;
    LastStreakIsTrailingRun(isActive);
    LargestStreakIsLongestRun(isActive, s.maxStreak);
  }

  /**
   * The last `len` rows are active and the row before them (if any) is not:
   * `len` is the length of the run of active rows that ends the table.
   */
  predicate TrailingRun(active: seq<bool>, len: int) {
    && 0 <= len <= |active|
    && (forall j :: |active| - len <= j < |active| ==> active[j])
    && (len < |active| ==> !active[|active| - 1 - len])
  }

  /** The last value of the `Streak` column is the length of the trailing run of active rows. */
  lemma LastStreakIsTrailingRun(a: seq<bool>)
    requires |a| > 0
    ensures TrailingRun(a, Streaks(a)[|a| - 1])
  {
    StreakIsActiveRun(a, |a| - 1);
  }

  /** The largest value of the `Streak` column is the length of the longest run of active rows. */
  lemma LargestStreakIsLongestRun(a: seq<bool>, m: int)
    requires forall i :: 0 <= i < |a| ==> Streaks(a)[i] <= m
    requires exists i :: 0 <= i < |a| && Streaks(a)[i] == m
    ensures forall lo, hi :: ActiveRun(a, lo, hi) ==> hi - lo + 1 <= m
    ensures m == 0 || exists hi :: ActiveRunEndingAt(a, hi, m)
  {
    var st := Streaks(a);
    forall lo, hi | ActiveRun(a, lo, hi)
      ensures hi - lo + 1 <= m
    {
      StreakCoversRun(a, lo, hi);
      assert st[hi] <= m;
    }
    var hi :| 0 <= hi < |a| && st[hi] == m;
    StreakIsActiveRun(a, hi);
    if m != 0 {
      assert ActiveRunEndingAt(a, hi, m);
    }
  }

  // ---------------------------------------------------------------------------
  // Monthly statistics
  // ---------------------------------------------------------------------------

  /**
   * A float ratio as pandas computes it: finite, or an infinity of the given
   * sign (a non-zero count divided by a zero one).
   */
  datatype Rate = Finite(value: real) | Infinite(positive: bool)

  /**
   * `(Relearn / Total * 100).fillna(0)`: `0 / 0` is NaN, which `fillna` turns
   * into 0; a non-zero relearn count over a zero total is an infinity, which
   * `fillna` keeps.
   */
  function RelearnRate(relearn: int, total: int): (r: Rate)
    ensures r.Infinite? <==> total == 0 && relearn != 0
  {
    if total != 0 then Finite((relearn as real) / (total as real) * 100.0)
    else if relearn == 0 then Finite(0.0)
    else Infinite(relearn > 0)
  }

  /** The rate is 0 exactly when nothing was relearnt, and infinite exactly when a month with no total relearnt something. */
  lemma RelearnRateCases(relearn: int, total: int)
    ensures RelearnRate(relearn, total) == Finite(0.0) <==> relearn == 0
    ensures total != 0 ==> RelearnRate(relearn, total).value * (total as real) == (relearn as real) * 100.0
    ensures 0 <= relearn <= total && total > 0 ==> RelearnRate(relearn, total) == Finite(Percent(relearn, total))
  {
    if total != 0 {
      var v := RelearnRate(relearn, total).value;
      var t := total as real;
      assert v * t == (relearn as real) * 100.0;
      assert v == 0.0 <==> (relearn as real) * 100.0 == 0.0;
    }
  }

  /** One row of the monthly table. */
  datatype MonthRow = MonthRow(month: string, counts: Counts, activeDays: int, relearnRate: Rate)

  function MonthKeys(days: seq<Day>): (r: seq<string>)
    ensures |r| == |days| && forall i :: 0 <= i < |days| ==> r[i] == days[i].monthStr
  {
    seq(|days|, i requires 0 <= i < |days| => days[i].monthStr)
  }

  /** The group sums of the four counters for one key. */
  function GroupCounts(keys: seq<string>, cs: seq<Counts>, k: string): Counts
    requires |keys| == |cs|
  {
    Counts(GroupSum(keys, Learnings(cs), k), GroupSum(keys, Reviews(cs), k),
           GroupSum(keys, Relearns(cs), k), GroupSum(keys, Totals(cs), k))
  }

  /**
   * `calculate_monthly_stats(df)`: one row per distinct `MonthStr`, in
   * ascending key order (`groupby` sorts its keys), holding the month's sums of
   * the four counters, its number of active days and its relearn rate.
   */
  function MonthlyStats(days: seq<Day>, isActive: seq<bool>): (r: seq<MonthRow>)
    requires |isActive| == |days|
    ensures MonthNames(r) == SortedKeys(MonthKeys(days))
    ensures forall j, k :: 0 <= j < k < |r| ==> LexLess(r[j].month, r[k].month)
    ensures forall m :: m in MonthNames(r) <==> m in MonthKeys(days)
    ensures forall j :: 0 <= j < |r| ==>
              && r[j].counts == GroupCounts(MonthKeys(days), CountsOf(days), r[j].month)
              && r[j].activeDays == GroupSum(MonthKeys(days), AsInts(isActive), r[j].month)
              && r[j].relearnRate == RelearnRate(r[j].counts.relearn, r[j].counts.total)
  {
    var keys := MonthKeys(days);
    var cs := CountsOf(days);
    var months := SortedKeys(keys);
    var r := seq(|months|, j requires 0 <= j < |months| =>
               var c := GroupCounts(keys, cs, months[j]);
               MonthRow(months[j], c, GroupSum(keys, AsInts(isActive), months[j]), RelearnRate(c.relearn, c.total)));
    assert MonthNames(r) == months;
    r
  }

  /** Every entry of a strictly ascending list is different. */
  lemma AscendingIsDistinct(s: seq<string>)
    requires StrictlyAscending(s)
    ensures Distinct(s)
  {
    forall i, j | 0 <= i < j < |s|
      ensures s[i] != s[j]
    {
      StrictlyAscendingDistinct(s, i, j);
    }
  }

  /** Grouping a column by a key that every row carries among the sorted keys keeps its total. */
  lemma GroupByMonthTotal(keys: seq<string>, vals: seq<int>)
    requires |keys| == |vals|
    ensures Sum(GroupSums(keys, vals, SortedKeys(keys))) == Sum(vals)
  {
    var ks := SortedKeys(keys);
    AscendingIsDistinct(ks);
    assert forall i :: 0 <= i < |keys| ==> keys[i] in ks by {
      forall i | 0 <= i < |keys| ensures keys[i] in ks {
        assert keys[i] in keys;
      }
    }
    GroupSumsTotal(keys, vals, ks);
  }

  function MonthLearnings(r: seq<MonthRow>): (c: seq<int>)
    ensures |c| == |r| && forall j :: 0 <= j < |r| ==> c[j] == r[j].counts.learning
  {
    seq(|r|, j requires 0 <= j < |r| => r[j].counts.learning)
  }

  function MonthReviews(r: seq<MonthRow>): (c: seq<int>)
    ensures |c| == |r| && forall j :: 0 <= j < |r| ==> c[j] == r[j].counts.review
  {
    seq(|r|, j requires 0 <= j < |r| => r[j].counts.review)
  }

  function MonthRelearns(r: seq<MonthRow>): (c: seq<int>)
    ensures |c| == |r| && forall j :: 0 <= j < |r| ==> c[j] == r[j].counts.relearn
  {
    seq(|r|, j requires 0 <= j < |r| => r[j].counts.relearn)
  }

  function MonthTotals(r: seq<MonthRow>): (c: seq<int>)
    ensures |c| == |r| && forall j :: 0 <= j < |r| ==> c[j] == r[j].counts.total
  {
    seq(|r|, j requires 0 <= j < |r| => r[j].counts.total)
  }

  function MonthActiveDays(r: seq<MonthRow>): (c: seq<int>)
    ensures |c| == |r| && forall j :: 0 <= j < |r| ==> c[j] == r[j].activeDays
  {
    seq(|r|, j requires 0 <= j < |r| => r[j].activeDays)
  }

  /**
   * The monthly table neither loses nor double-counts a day: each counter
   * column sums to the daily column's total, and the active days of all
   * months add up to the number of active days.
   */
  lemma MonthlyStatsTotals(days: seq<Day>, isActive: seq<bool>)
    requires |isActive| == |days|
    ensures var r := MonthlyStats(days, isActive);
            && Sum(MonthLearnings(r)) == Sum(Learnings(CountsOf(days)))
            && Sum(MonthReviews(r)) == Sum(Reviews(CountsOf(days)))
            && Sum(MonthRelearns(r)) == Sum(Relearns(CountsOf(days)))
            && Sum(MonthTotals(r)) == Sum(TotalsOf(days))
            && Sum(MonthActiveDays(r)) == CountTrue(isActive)
  {
    var r := MonthlyStats(days, isActive);
    var keys := MonthKeys(days);
    var cs := CountsOf(days);
    var ks := SortedKeys(keys);
    assert MonthLearnings(r) == GroupSums(keys, Learnings(cs), ks);
    assert MonthReviews(r) == GroupSums(keys, Reviews(cs), ks);
    assert MonthRelearns(r) == GroupSums(keys, Relearns(cs), ks);
    assert MonthTotals(r) == GroupSums(keys, Totals(cs), ks);
    assert MonthActiveDays(r) == GroupSums(keys, AsInts(isActive), ks);
    GroupByMonthTotal(keys, Learnings(cs));
    GroupByMonthTotal(keys, Reviews(cs));
    GroupByMonthTotal(keys, Relearns(cs));
    GroupByMonthTotal(keys, Totals(cs));
    GroupByMonthTotal(keys, AsInts(isActive));
    SumAsIntsIsCount(isActive);
  }

  function MonthNames(r: seq<MonthRow>): (c: seq<string>)
    ensures |c| == |r| && forall j :: 0 <= j < |r| ==> c[j] == r[j].month
  {
    seq(|r|, j requires 0 <= j < |r| => r[j].month)
  }

  // ---------------------------------------------------------------------------
  // Heatmap
  // ---------------------------------------------------------------------------

  /**
   * What `prepare_heatmap_data` returns: the matrix `z` (one row per weekday
   * present, one column per `YearWeek` present), the column labels, and the
   * fixed weekday labels; `weekdays` names the weekday of each matrix row.
   */
  datatype Heatmap = Heatmap(z: seq<seq<int>>, xLabels: seq<string>, yLabels: seq<string>, weekdays: seq<int>)

  const WeekdayLabels: seq<string> := ["Mon", "Tue", "Wed", "Thu", "Fri", "Sat", "Sun"]

  function WeekdayColumn(days: seq<Day>): (r: seq<int>)
    ensures |r| == |days| && forall i :: 0 <= i < |days| ==> r[i] == days[i].weekday
  {
    seq(|days|, i requires 0 <= i < |days| => days[i].weekday as int)
  }

  function YearWeekColumn(days: seq<Day>): (r: seq<string>)
    ensures |r| == |days| && forall i :: 0 <= i < |days| ==> r[i] == YearWeek(days[i])
  {
    seq(|days|, i requires 0 <= i < |days| => YearWeek(days[i]))
  }

  /** The pivot's cell key of each row: (`DayOfWeekNum`, `YearWeek`). */
  function CellKeys(days: seq<Day>): (r: seq<(int, string)>)
    ensures |r| == |days| && forall i :: 0 <= i < |days| ==> r[i] == (days[i].weekday as int, YearWeek(days[i]))
  {
    seq(|days|, i requires 0 <= i < |days| => (days[i].weekday as int, YearWeek(days[i])))
  }

  /**
   * The weekdays from `w` to 6 that occur in `col`, ascending (the pivot's
   * row index after `sort_index`).
   */
  function WeekdaysFrom(col: seq<int>, w: int): (r: seq<int>)
    requires 0 <= w <= 7
    ensures forall i, j :: 0 <= i < j < |r| ==> r[i] < r[j]
    ensures forall x :: x in r <==> w <= x <= 6 && x in col
    decreases 7 - w
  {
    if w == 7 then []
    else
      var rest := WeekdaysFrom(col, w + 1);
      assert forall i :: 0 <= i < |rest| ==> rest[i] in rest;
      (if w in col then [w] else []) + rest
  }

  /** The pivot's row index: the weekdays that occur, ascending. */
  function PresentWeekdays(days: seq<Day>): (r: seq<int>)
    ensures forall i, j :: 0 <= i < j < |r| ==> r[i] < r[j]
    ensures forall w :: w in r <==> w in WeekdayColumn(days)
  {
    WeekdaysFrom(WeekdayColumn(days), 0)
  }

  /** The pivot's columns: the `YearWeek` keys that occur, in ascending string order. */
  function WeekLabels(days: seq<Day>): (r: seq<string>)
    ensures StrictlyAscending(r)
    ensures forall k :: k in r <==> k in YearWeekColumn(days)
  {
    SortedKeys(YearWeekColumn(days))
  }

  /** One matrix row: the cells of weekday `y` for each week label. */
  function HeatmapRow(keys: seq<(int, string)>, totals: seq<int>, y: int, xs: seq<string>): (r: seq<int>)
    requires |keys| == |totals|
    ensures |r| == |xs| && forall b :: 0 <= b < |xs| ==> r[b] == GroupSum(keys, totals, (y, xs[b]))
  {
    seq(|xs|, b requires 0 <= b < |xs| => GroupSum(keys, totals, (y, xs[b])))
  }

  /**
   * `prepare_heatmap_data(df)`: `pivot_table(values='Total',
   * index='DayOfWeekNum', columns='YearWeek', aggfunc='sum', fill_value=0)`
   * then `sort_index()`. The rows are the weekdays present, ascending; the
   * columns are the `YearWeek` keys present, in ascending string order; each
   * cell is the sum of `Total` over the rows of that weekday and week (0 when
   * there are none); the row labels are always the seven weekday names.
   */
  function PrepareHeatmap(days: seq<Day>): (h: Heatmap)
    ensures h.yLabels == WeekdayLabels
    ensures h.xLabels == WeekLabels(days) && h.weekdays == PresentWeekdays(days)
    ensures |h.z| == |h.weekdays|
    ensures forall a :: 0 <= a < |h.z| ==> h.z[a] == HeatmapRow(CellKeys(days), TotalsOf(days), h.weekdays[a], h.xLabels)
  {
    var ys := PresentWeekdays(days);
    var xs := WeekLabels(days);
    var z := seq(|ys|, a requires 0 <= a < |ys| => HeatmapRow(CellKeys(days), TotalsOf(days), ys[a], xs));
    Heatmap(z, xs, WeekdayLabels, ys)
  }

  /** A weekday and week with no row get 0 (`fill_value=0`). */
  lemma HeatmapEmptyCell(days: seq<Day>, a: nat, b: nat)
    requires a < |PrepareHeatmap(days).z| && b < |PrepareHeatmap(days).xLabels|
    requires forall i :: 0 <= i < |days| ==>
               days[i].weekday != PrepareHeatmap(days).weekdays[a] || YearWeek(days[i]) != PrepareHeatmap(days).xLabels[b]
    ensures PrepareHeatmap(days).z[a][b] == 0
  {
    var h := PrepareHeatmap(days);
    var keys := CellKeys(days);
    assert h.z[a][b] == GroupSum(keys, TotalsOf(days), (h.weekdays[a], h.xLabels[b]));
    assert (h.weekdays[a], h.xLabels[b]) !in keys;
    GroupSumAbsent(keys, TotalsOf(days), (h.weekdays[a], h.xLabels[b]));
  }

  /**
   * When every weekday occurs, the matrix has the seven weekdays in order, so
   * row `a` is the weekday `y_labels[a]` names.
   */
  lemma HeatmapRowsMatchLabels(days: seq<Day>)
    requires forall w :: 0 <= w <= 6 ==> w in WeekdayColumn(days)
    ensures PrepareHeatmap(days).weekdays == [0, 1, 2, 3, 4, 5, 6]
    ensures |PrepareHeatmap(days).z| == |PrepareHeatmap(days).yLabels|
  {
    AllWeekdaysPresent(days);
  }

  /** When every weekday from `w` on occurs, `WeekdaysFrom` lists `w .. 6`. */
  lemma {:induction false} WeekdaysFromAll(col: seq<int>, w: int)
    requires 0 <= w <= 7
    requires forall x :: w <= x <= 6 ==> x in col
    ensures WeekdaysFrom(col, w) == seq(7 - w, k requires 0 <= k < 7 - w => w + k)
    decreases 7 - w
  {
    if w < 7 {
      WeekdaysFromAll(col, w + 1);
      var rest := seq(6 - w, k requires 0 <= k < 6 - w => w + 1 + k);
      assert seq(7 - w, k requires 0 <= k < 7 - w => w + k) == [w] + rest;
    }
  }

  /** When every weekday occurs, the pivot's row index is 0 .. 6. */
  lemma AllWeekdaysPresent(days: seq<Day>)
    requires forall w :: 0 <= w <= 6 ==> w in WeekdayColumn(days)
    ensures PresentWeekdays(days) == [0, 1, 2, 3, 4, 5, 6]
  {
    WeekdaysFromAll(WeekdayColumn(days), 0);
    WeekRange();
  }

  lemma WeekRange()
    ensures seq(7, k requires 0 <= k < 7 => 0 + k) == [0, 1, 2, 3, 4, 5, 6]
  {
    var r := seq(7, k requires 0 <= k < 7 => 0 + k);
    assert r[0] == 0 && r[1] == 1 && r[2] == 2 && r[3] == 3 && r[4] == 4 && r[5] == 5 && r[6] == 6;
  }

  // Total preservation of the pivot

  /** The matrix read row after row. */
  function Flatten(z: seq<seq<int>>): seq<int> {
    if z == [] then [] else Flatten(z[..|z| - 1]) + z[|z| - 1]
  }

  /** The cell keys of one matrix row. */
  function Pairs(y: int, xs: seq<string>): (r: seq<(int, string)>)
    ensures |r| == |xs| && forall b :: 0 <= b < |xs| ==> r[b] == (y, xs[b])
  {
    seq(|xs|, b requires 0 <= b < |xs| => (y, xs[b]))
  }

  /** The cell keys of the matrix, row after row. */
  function Product(ys: seq<int>, xs: seq<string>): seq<(int, string)> {
    if ys == [] then [] else Product(ys[..|ys| - 1], xs) + Pairs(ys[|ys| - 1], xs)
  }

  lemma {:induction false} ProductMember(ys: seq<int>, xs: seq<string>, p: (int, string))
    ensures p in Product(ys, xs) <==> p.0 in ys && p.1 in xs
    decreases |ys|
  {
    if ys != [] {
      var init := ys[..|ys| - 1];
      ProductMember(init, xs, p);
      assert ys == init + [ys[|ys| - 1]];
      if p in Pairs(ys[|ys| - 1], xs) {
        var b :| 0 <= b < |xs| && Pairs(ys[|ys| - 1], xs)[b] == p;
      }
      if p.0 == ys[|ys| - 1] && p.1 in xs {
        var b :| 0 <= b < |xs| && xs[b] == p.1;
        assert Pairs(ys[|ys| - 1], xs)[b] == p;
      }
    }
  }

  lemma DistinctAppend<K>(a: seq<K>, b: seq<K>)
    requires Distinct(a) && Distinct(b)
    requires forall x :: x in a ==> x !in b
    ensures Distinct(a + b)
  {
    var c := a + b;
    forall i, j | 0 <= i < j < |c|
      ensures c[i] != c[j]
    {
      if i < |a| && j >= |a| {
        assert c[i] in a && c[j] == b[j - |a|];
      }
    }
  }

  /** Distinct weekdays and distinct week labels give distinct cell keys. */
  lemma {:induction false} ProductDistinct(ys: seq<int>, xs: seq<string>)
    requires forall i, j :: 0 <= i < j < |ys| ==> ys[i] < ys[j]
    requires Distinct(xs)
    ensures Distinct(Product(ys, xs))
    decreases |ys|
  {
    if ys != [] {
      var init, y := ys[..|ys| - 1], ys[|ys| - 1];
      ProductDistinct(init, xs);
      forall p | p in Product(init, xs)
        ensures p !in Pairs(y, xs)
      {
        ProductMember(init, xs, p);
        var i :| 0 <= i < |init| && init[i] == p.0;
        assert ys[i] < ys[|ys| - 1];
      }
      DistinctAppend(Product(init, xs), Pairs(y, xs));
    }
  }

  lemma GroupSumsAppend<K>(keys: seq<K>, vals: seq<int>, a: seq<K>, b: seq<K>)
    requires |keys| == |vals|
    ensures GroupSums(keys, vals, a + b) == GroupSums(keys, vals, a) + GroupSums(keys, vals, b)
  {
  }

  lemma {:induction false} SumFlattenAppend(z: seq<seq<int>>, row: seq<int>)
    ensures Flatten(z + [row]) == Flatten(z) + row
  {
    assert (z + [row])[..|z|] == z;
  }

  /** The matrix read row after row is the list of group sums over all cell keys. */
  lemma {:induction false} FlattenIsGroupSums(keys: seq<(int, string)>, totals: seq<int>, ys: seq<int>, xs: seq<string>)
    requires |keys| == |totals|
    ensures Flatten(seq(|ys|, a requires 0 <= a < |ys| => HeatmapRow(keys, totals, ys[a], xs)))
         == GroupSums(keys, totals, Product(ys, xs))
    decreases |ys|
  {
    var z := seq(|ys|, a requires 0 <= a < |ys| => HeatmapRow(keys, totals, ys[a], xs));
    if ys != [] {
      var init := ys[..|ys| - 1];
      var y := ys[|ys| - 1];
      var z' := seq(|init|, a requires 0 <= a < |init| => HeatmapRow(keys, totals, init[a], xs));
      FlattenIsGroupSums(keys, totals, init, xs);
      assert z == z' + [HeatmapRow(keys, totals, y, xs)];
      SumFlattenAppend(z', HeatmapRow(keys, totals, y, xs));
      GroupSumsAppend(keys, totals, Product(init, xs), Pairs(y, xs));
      assert HeatmapRow(keys, totals, y, xs) == GroupSums(keys, totals, Pairs(y, xs));
    }
  }

  /**
   * The heatmap neither loses nor double-counts a card: its cells add up to
   * the sum of the `Total` column.
   */
  lemma HeatmapTotal(days: seq<Day>)
    ensures Sum(Flatten(PrepareHeatmap(days).z)) == Sum(TotalsOf(days))
  {
    var keys, totals := CellKeys(days), TotalsOf(days);
    var ys, xs := PresentWeekdays(days), WeekLabels(days);
    FlattenIsGroupSums(keys, totals, ys, xs);
    assert PrepareHeatmap(days).z == seq(|ys|, a requires 0 <= a < |ys| => HeatmapRow(keys, totals, ys[a], xs));
    AscendingIsDistinct(xs);
    ProductDistinct(ys, xs);
    forall i | 0 <= i < |keys|
      ensures keys[i] in Product(ys, xs)
    {
      ProductMember(ys, xs, keys[i]);
      assert WeekdayColumn(days)[i] in WeekdayColumn(days);
      assert YearWeekColumn(days)[i] in YearWeekColumn(days);
    }
    GroupSumsTotal(keys, totals, Product(ys, xs));
  }
}
