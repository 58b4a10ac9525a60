/**
 * The export script (scripts/export_anki_reviews.py): the per-day counters
 * read from the review log become a dense table with one row for every
 * calendar day from the start date to today, followed by the preview
 * statistics printed over that table.
 *
 * Days are day numbers (days since 1970-01-01). The script keys its dictionary
 * by the 'YYYY-MM-DD' text of the day, and both the SQL `DATE(...)` and
 * `strftime('%Y-%m-%d')` write that same text for a day, so looking a day's text
 * up is looking its number up.
 */
module ExportReviews {
  import opened Series
  import Aggregates
  import PlotMonthly

  /** One exported row: `(date_str, learning, review, relearn, total)`. */
  datatype DayRow = DayRow(date: int, counts: Counts)

  /** `START_DATE_MS`: 2023-06-11 00:00:00 UTC in milliseconds. */
  const StartDateMs: int := 1686441600000

  const MsPerDay: int := 86400000

  /**
   * Day number of a proleptic Gregorian date (the count `date.toordinal()`
   * keeps, shifted to 1970-01-01 = 0).
   */
  function DaysFromCivil(y: int, m: int, d: int): int
    requires 1 <= m <= 12 && 1 <= d <= 31
  {
    var y' := if m <= 2 then y - 1 else y;
    var era := y' / 400;
    var yoe := y' - era * 400;
    var mp := if m > 2 then m - 3 else m + 9;
    var doy := (153 * mp + 2) / 5 + d - 1;
    var doe := yoe * 365 + yoe / 4 - yoe / 100 + doy;
    era * 146097 + doe - 719468
  }

  /**
   * The day after a calendar date has the next day number, at the end of a
   * month and of a year too: day numbers count calendar days.
   */
  lemma DaysFromCivilNextDay(y: int, m: int, d: int)
    requires 1 <= m <= 12 && 1 <= d <= PlotMonthly.DaysInMonth(y, m)
    ensures d < PlotMonthly.DaysInMonth(y, m) ==> DaysFromCivil(y, m, d + 1) == DaysFromCivil(y, m, d) + 1
    ensures d == PlotMonthly.DaysInMonth(y, m) && m < 12 ==> DaysFromCivil(y, m + 1, 1) == DaysFromCivil(y, m, d) + 1
    ensures d == PlotMonthly.DaysInMonth(y, m) && m == 12 ==> DaysFromCivil(y + 1, 1, 1) == DaysFromCivil(y, m, d) + 1
  {
    if d == PlotMonthly.DaysInMonth(y, m) && m == 2 {
      LastOfFebruary(y);
    }
  }

  /**
   * The day count restarts its year at March, so the step from February to
   * March crosses into the next counted year.
   */
  lemma LastOfFebruary(y: int)
    ensures DaysFromCivil(y, 3, 1) == DaysFromCivil(y, 2, PlotMonthly.DaysInMonth(y, 2)) + 1
  {
    CountedYearLength(y);
  }

  /**
   * Days from the start of the 400-year era to the March that begins counted
   * year `y` (March of `y` to February of `y + 1`).
   */
  function CountedYearStart(y: int): int {
    var era := y / 400;
    var yoe := y - era * 400;
    era * 146097 + yoe * 365 + yoe / 4 - yoe / 100
  }

  /** Counted year `q` of era `e` starts `e * 146097` days plus its offset within the era. */
  lemma CountedYearInEra(e: int, q: int)
    requires 0 <= q < 400
    ensures CountedYearStart(e * 400 + q) == e * 146097 + q * 365 + q / 4 - q / 100
  {
    assert (e * 400 + q) / 400 == e;
  }

  /** Within an era, year `q` is a leap year by the offset alone. */
  lemma LeapYearInEra(e: int, q: int)
    requires 0 <= q < 400
    ensures PlotMonthly.IsLeapYear(e * 400 + q) <==> q % 4 == 0 && (q % 100 != 0 || q == 0)
  {
    var y := e * 400 + q;
    assert y / 4 == 100 * e + q / 4 && y % 4 == q % 4;
    assert y / 100 == 4 * e + q / 100 && y % 100 == q % 100;
    assert y / 400 == e && y % 400 == q;
  }

  /** One step of the within-era offset adds a leap day exactly on the leap years. */
  lemma EraOffsetStep(q: int)
    requires 1 <= q < 400
    ensures (q * 365 + q / 4 - q / 100) - ((q - 1) * 365 + (q - 1) / 4 - (q - 1) / 100)
            == 365 + (if q % 4 == 0 && q % 100 != 0 then 1 else 0)
  {
    assert (q - 1) / 4 == if q % 4 == 0 then q / 4 - 1 else q / 4;
    assert (q - 1) / 100 == if q % 100 == 0 then q / 100 - 1 else q / 100;
    assert q % 100 == 0 ==> q % 4 == 0;
  }

  /** The counted year from March of `y - 1` has 366 days exactly when `y` is a leap year. */
  lemma CountedYearLength(y: int)
    ensures CountedYearStart(y) - CountedYearStart(y - 1) == 365 + (if PlotMonthly.IsLeapYear(y) then 1 else 0)
  {
    var e := (y - 1) / 400;
    var q := (y - 1) - e * 400;
    assert 0 <= q < 400;
    CountedYearInEra(e, q);
    if q == 399 {
      assert y == (e + 1) * 400 + 0;
      CountedYearInEra(e + 1, 0);
      LeapYearInEra(e + 1, 0);
    } else {
      assert y == e * 400 + (q + 1);
      CountedYearInEra(e, q + 1);
      LeapYearInEra(e, q + 1);
      EraOffsetStep(q + 1);
    }
  }



  /** `START_DATE`: `date(2023, 6, 11)` as a day number. */
  const StartDate: int := DaysFromCivil(2023, 6, 11)

  /**
   * The two start constants name the same instant: `START_DATE_MS` is the
   * first millisecond of the day `START_DATE`.
   */
  lemma StartConstantsAgree()
    ensures DaysFromCivil(1970, 1, 1) == 0
    ensures StartDate == 19519
    ensures StartDate * MsPerDay == StartDateMs
  {
  }

  /** `review_data.get(date_str, (0, 0, 0, 0))`. */
  function Lookup(reviewData: map<int, Counts>, day: int): (c: Counts)
    ensures day in reviewData ==> c == reviewData[day]
    ensures day !in reviewData ==> c == Zero
  {
    if day in reviewData then reviewData[day] else Zero
  }

  /**
   * The dense table: one row per day from `startDate` to `today` inclusive
   * (none when `today` is before `startDate`), each with that day's counters
   * or zeros.
   */
  function DenseRange(reviewData: map<int, Counts>, startDate: int, today: int): (r: seq<DayRow>)
    ensures |r| == if today >= startDate then today - startDate + 1 else 0
  {
    var n := if today >= startDate then today - startDate + 1 else 0;
    seq(n, i requires 0 <= i < n => DayRow(startDate + i, Lookup(reviewData, startDate + i)))
  }

  /**
   * The fill loop: `current_date` walks from the start date to today, one day
   * at a time, appending the day's counters or zeros.
   */
  method FillDateRange(reviewData: map<int, Counts>, startDate: int, today: int) returns (allDates: seq<DayRow>)
    ensures allDates == DenseRange(reviewData, startDate, today)
  {
    var currentDate := startDate;
    allDates := [];
    while currentDate <= today
      invariant currentDate >= startDate
      invariant currentDate <= today + 1 || currentDate == startDate
      invariant |allDates| == currentDate - startDate
      invariant forall i :: 0 <= i < |allDates| ==>
                  allDates[i] == DayRow(startDate + i, Lookup(reviewData, startDate + i))
      decreases today - currentDate
    {
      var data := Lookup(reviewData, currentDate);
      allDates := allDates + [DayRow(currentDate, data)];
      currentDate := currentDate + 1;
    }
  }

  /**
   * The table is dense: it starts at the start date, each row is the day after
   * the previous one, and it ends today.
   */
  lemma DenseRangeIsConsecutive(reviewData: map<int, Counts>, startDate: int, today: int)
    requires startDate <= today
    ensures var r := DenseRange(reviewData, startDate, today);
            && r[0].date == startDate && r[|r| - 1].date == today
            && forall i :: 0 < i < |r| ==> r[i].date == r[i - 1].date + 1
  {
  }

  /**
   * Every reviewed day in range has its row, at its offset from the start,
   * with its counters; every row's day lies in range; a row has non-zero
   * counters only for a day the review log has.
   */
  lemma DenseRangeCoversReviews(reviewData: map<int, Counts>, startDate: int, today: int)
    ensures var r := DenseRange(reviewData, startDate, today);
            && (forall d :: d in reviewData && startDate <= d <= today ==>
                  0 <= d - startDate < |r| && r[d - startDate] == DayRow(d, reviewData[d]))
            && (forall i :: 0 <= i < |r| ==> startDate <= r[i].date <= today)
            && (forall i :: 0 <= i < |r| && r[i].counts != Zero ==> r[i].date in reviewData)
  {
    var r := DenseRange(reviewData, startDate, today);
    forall d | d in reviewData && startDate <= d <= today
      ensures 0 <= d - startDate < |r| && r[d - startDate] == DayRow(d, reviewData[d])
    {
      assert r[d - startDate].counts == Lookup(reviewData, d);
    }
    forall i | 0 <= i < |r| && r[i].counts != Zero
      ensures r[i].date in reviewData
    {
      assert r[i].counts == Lookup(reviewData, r[i].date);
    }
  }

  /**
   * When every day the query returned has its total equal to the sum of its
   * three kinds, so does every row of the table, zero-filled days included.
   */
  lemma DenseRangeBalanced(reviewData: map<int, Counts>, startDate: int, today: int)
    requires forall d :: d in reviewData ==> Balanced(reviewData[d])
    ensures var r := DenseRange(reviewData, startDate, today);
            forall i :: 0 <= i < |r| ==> Balanced(r[i].counts)
  {
    var r := DenseRange(reviewData, startDate, today);
    forall i | 0 <= i < |r|
      ensures Balanced(r[i].counts)
    {
      assert r[i].counts == Lookup(reviewData, startDate + i);
    }
  }

  // ---------------------------------------------------------------------------
  // Preview statistics
  // ---------------------------------------------------------------------------

  /** The statistics printed after the export. */
  datatype Preview = Preview(
    totalLearning: int, totalReview: int, totalRelearn: int, totalReviews: int,
    daysWithReviews: nat, daysWithoutReviews: int,
    avgPerDay: real, avgPerActiveDay: Option<real>)

  /** The counters of the exported rows (the loader's `Day` records have their own projection). */
  function RowCounts(rows: seq<DayRow>): (r: seq<Counts>)
    ensures |r| == |rows| && forall i :: 0 <= i < |rows| ==> r[i] == rows[i].counts
  {
    seq(|rows|, i requires 0 <= i < |rows| => rows[i].counts)
  }

  /** `row[4] > 0` for each row. */
  function HasReviews(rows: seq<DayRow>): (r: seq<bool>)
    ensures |r| == |rows| && forall i :: 0 <= i < |rows| ==> (r[i] <==> rows[i].counts.total > 0)
  {
    seq(|rows|, i requires 0 <= i < |rows| => rows[i].counts.total > 0)
  }

  /**
   * The statistics block, which runs only when the table is non-empty: the
   * column sums, the days with a positive total and the others, the average
   * over all days, and the average over active days, printed only when there
   * is one.
   */
  function PreviewStats(results: seq<DayRow>): (p: Option<Preview>)
    ensures p.None? <==> results == []
    ensures p.Some? ==>
              && p.value.totalLearning == Sum(Learnings(RowCounts(results)))
              && p.value.totalReview == Sum(Reviews(RowCounts(results)))
              && p.value.totalRelearn == Sum(Relearns(RowCounts(results)))
              && p.value.totalReviews == Sum(Totals(RowCounts(results)))
              && p.value.daysWithReviews == CountTrue(HasReviews(results))
              && p.value.daysWithReviews + p.value.daysWithoutReviews == |results|
              && 0 <= p.value.daysWithoutReviews
              && p.value.avgPerDay == Aggregates.Average(p.value.totalReviews, |results|)
              && p.value.avgPerActiveDay
                 == if p.value.daysWithReviews > 0
                    then Some(Aggregates.Average(p.value.totalReviews, p.value.daysWithReviews))
                    else None
  {
    if results == [] then None
    else
      var cs := RowCounts(results);
      var total := Sum(Totals(cs));
      var withReviews := CountTrue(HasReviews(results));
      Some(Preview(
        Sum(Learnings(cs)), Sum(Reviews(cs)), Sum(Relearns(cs)), total,
        withReviews, |results| - withReviews,
        Aggregates.Average(total, |results|),
        if withReviews > 0 then Some(Aggregates.Average(total, withReviews)) else None))
  }

  /**
   * With non-negative counters, the table has reviews in total exactly when
   * some day has reviews, and the days without reviews are the days whose
   * total is zero.
   */
  lemma PreviewActiveDays(results: seq<DayRow>)
    requires results != []
    requires forall i :: 0 <= i < |results| ==> NonNegative(results[i].counts)
    ensures var p := PreviewStats(results).value;
            && (p.totalReviews > 0 <==> p.daysWithReviews > 0)
            && (p.daysWithoutReviews == |results| <==> forall i :: 0 <= i < |results| ==> results[i].counts.total == 0)
  {
    var p := PreviewStats(results).value;
    var totals := Totals(RowCounts(results));
    SumNonNegative(totals);
    if p.daysWithReviews == 0 {
      SumZeroWhenAllZero(totals);
    } else {
      var i :| 0 <= i < |results| && HasReviews(results)[i];
      SumAtLeastElement(totals, i);
    }
  }

  lemma {:induction false} SumZeroWhenAllZero(s: seq<int>)
    requires forall i :: 0 <= i < |s| ==> s[i] == 0
    ensures Sum(s) == 0
    decreases |s|
  {
    if s != [] {
      SumZeroWhenAllZero(s[..|s| - 1]);
    }
  }

  /** A sum of non-negative values is at least each of them. */
  lemma {:induction false} SumAtLeastElement(s: seq<int>, i: nat)
    requires forall j :: 0 <= j < |s| ==> s[j] >= 0
    requires i < |s|
    ensures Sum(s) >= s[i]
    decreases |s|
  {
    var p := s[..|s| - 1];
    SumNonNegative(p);
    if i < |s| - 1 {
      SumAtLeastElement(p, i);
    }
  }
}
