/**
 * Loading and enriching the dashboard's study table (dashboard/data_loader.py,
 * `load_anki_data` and its `_add_*` helpers).
 *
 * A DataFrame is a `Frame` object whose columns are sequence fields; each
 * `_add_*` helper is a method that assigns its new columns in place. Each
 * column is specified by a function of the input columns, and the lemmas
 * below state what those functions promise.
 */
module DataLoader {
  import opened Series
  import opened Ordering
  import opened Decimal

  /** `DayOfWeekNum`: 0 = Monday ... 6 = Sunday. */
  type Weekday = w: int | 0 <= w <= 6

  /** ISO week number. */
  type IsoWeek = w: int | 1 <= w <= 53 witness 1

  /**
   * One row of the table: the day (a day number), its counters as read
   * from the CSV (`Total` is taken as given, not recomputed), and the calendar
   * fields pandas derives from the date, which are given here: weekday,
   * `MonthStr` ('YYYY-MM'), calendar `Year` and ISO `Week`.
   */
  datatype Day = Day(date: int, counts: Counts, weekday: Weekday, monthStr: string, year: nat, week: IsoWeek)

  function CountsOf(days: seq<Day>): (r: seq<Counts>)
    ensures |r| == |days| && forall i :: 0 <= i < |days| ==> r[i] == days[i].counts
  {
    seq(|days|, i requires 0 <= i < |days| => days[i].counts)
  }

  function TotalsOf(days: seq<Day>): seq<int> {
    Totals(CountsOf(days))
  }

  // ---------------------------------------------------------------------------
  // Calendar key (time features)
  // ---------------------------------------------------------------------------

  /**
   * `YearWeek`: `str(Year) + '-W' + str(Week).zfill(2)`; an ISO week number
   * always takes exactly two digits.
   */
  function YearWeekKey(year: nat, week: IsoWeek): (k: string)
    ensures k == Dec(year) + ("-W" + FixedDigits(week, 2))
    ensures |k| == |Dec(year)| + 4
  {
    ZeroFillTwoDigits(week);
    Dec(year) + ("-W" + ZeroFill(Dec(week), 2))
  }

  function YearWeek(d: Day): string {
    YearWeekKey(d.year, d.week)
  }

  /**
   * For four-digit years the key sorts as (year, week) pairs do, so the
   * heatmap's lexicographic column order is chronological by (Year, Week).
   */
  lemma YearWeekKeyChronological(y1: nat, w1: IsoWeek, y2: nat, w2: IsoWeek)
    requires 1000 <= y1 <= 9999 && 1000 <= y2 <= 9999
    ensures LexLess(YearWeekKey(y1, w1), YearWeekKey(y2, w2))
            <==> y1 < y2 || (y1 == y2 && w1 < w2)
  {
    var a1, a2 := FixedDigits(y1, 4), FixedDigits(y2, 4);
    var b1, b2 := FixedDigits(w1, 2), FixedDigits(w2, 2);
    YearWeekKeySplit(y1, w1);
    YearWeekKeySplit(y2, w2);
    LexLessConcat(a1, "-W" + b1, a2, "-W" + b2);
    LexLessConcat("-W", b1, "-W", b2);
    LexLessIrreflexive("-W");
    assert Pow10(4) == 10000 && Pow10(2) == 100;
    FixedDigitsOrder(y1, y2, 4);
    FixedDigitsOrder(w1, w2, 2);
    FixedDigitsValue(y1, 4);
    FixedDigitsValue(y2, 4);
  }

  /** A four-digit year's key is its four digits, "-W" and the two week digits. */
  lemma YearWeekKeySplit(y: nat, w: IsoWeek)
    requires 1000 <= y <= 9999
    ensures YearWeekKey(y, w) == FixedDigits(y, 4) + ("-W" + FixedDigits(w, 2))
  {
    assert Pow10(3) == 1000 && Pow10(4) == 10000;
    DecIsFixed(y, 4);
  }

  /**
   * The key pairs the calendar year with the ISO week: 2024-01-01 (Monday of
   * ISO week 1 of 2024) and 2024-12-30 (Monday of ISO week 1 of 2025, calendar
   * year 2024) share the key "2024-W01". Day numbers 19723 and 20087 are
   * those two Mondays.
   */
  lemma YearWeekKeyCollision()
    ensures var jan1 := Day(19723, Zero, 0, "2024-01", 2024, 1);
            var dec30 := Day(20087, Zero, 0, "2024-12", 2024, 1);
            jan1.date != dec30.date && YearWeek(jan1) == YearWeek(dec30) == "2024-W01"
  {
    KeyOf2024Week1();
  }

  /** The key of calendar year 2024 and ISO week 1. */
  lemma KeyOf2024Week1()
    ensures YearWeekKey(2024, 1) == "2024-W01"
  {
    assert Dec(2024) == "2024" by {
      assert Dec(2) == "2";
      assert Dec(20) == Dec(2) + "0";
      assert Dec(202) == Dec(20) + "2";
    }
    assert FixedDigits(1, 2) == "01" by {
      assert FixedDigits(0, 1) == FixedDigits(0, 0) + [DigitChar(0)];
      assert FixedDigits(1, 2) == FixedDigits(0, 1) + [DigitChar(1)];
    }
    assert "2024" + ("-W" + "01") == "2024-W01";
  }



  // ---------------------------------------------------------------------------
  // Sorting by date
  // ---------------------------------------------------------------------------

  predicate DateSorted(days: seq<Day>) {
    forall i, j :: 0 <= i < j < |days| ==> days[i].date <= days[j].date
  }

  /**
   * One insertion step: `d` goes in front of the first row dated no earlier
   * than it, so it precedes the rows that share its date.
   */
  function InsertByDate(sorted: seq<Day>, d: Day): (r: seq<Day>)
    requires DateSorted(sorted)
    ensures DateSorted(r)
    ensures multiset(r) == multiset(sorted) + multiset{d}
    ensures r[0] == if sorted == [] || d.date <= sorted[0].date then d else sorted[0]
  {
    if sorted == [] then [d]
    else if d.date <= sorted[0].date then
      ConsSorted(d, sorted);
      [d] + sorted
    else
      var t := InsertByDate(sorted[1..], d);
      assert sorted == [sorted[0]] + sorted[1..];
      ConsSorted(sorted[0], t);
      [sorted[0]] + t
  }

  /** A row dated no later than the head of a sorted table can go in front of it. */
  lemma ConsSorted(x: Day, t: seq<Day>)
    requires DateSorted(t) && (t != [] ==> x.date <= t[0].date)
    ensures DateSorted([x] + t)
  {
    var r := [x] + t;
    forall i, j | 0 <= i < j < |r| ensures r[i].date <= r[j].date {
      assert r[j] == t[j - 1];
      if i > 0 {
        assert r[i] == t[i - 1];
      } else {
        assert t[0].date <= t[j - 1].date;
      }
    }
  }

  /**
   * `df.sort_values('Date')`: the rows reordered by non-decreasing date.
   * Inserting the rows in input order leaves rows of equal date in reverse
   * input order (see `SortByDateReversesTies`).
   */
  function SortByDate(rows: seq<Day>): (r: seq<Day>)
    ensures DateSorted(r)
    ensures multiset(r) == multiset(rows)
    ensures |r| == |rows|
  {
    if rows == [] then []
    else
      var p := rows[..|rows| - 1];
      assert rows == p + [rows[|rows| - 1]];
      var r := InsertByDate(SortByDate(p), rows[|rows| - 1]);
      assert |r| == |multiset(r)|;
      r
  }

  /** Two rows of the same date come out of the sort in reverse order. */
  lemma SortByDateReversesTies()
    ensures var a, b := Day(5, Zero, 0, "2000-01", 2000, 1), Day(5, Counts(1, 0, 0, 1), 0, "2000-01", 2000, 1);
            SortByDate([a, b]) == [b, a]
  {
    var a, b := Day(5, Zero, 0, "2000-01", 2000, 1), Day(5, Counts(1, 0, 0, 1), 0, "2000-01", 2000, 1);
    assert [a, b][..1] == [a];
    assert [a][..0] == [];
  }

  // ---------------------------------------------------------------------------
  // Centred moving windows
  // ---------------------------------------------------------------------------

  /** First row of the centred window of width `w` at row `i` (pandas `center=True`). */
  function WindowStart(i: int, w: nat): (s: int)
    requires w >= 1
    ensures s <= i && i - s == w / 2
  {
    i - (w - 1 - (w - 1) / 2)
  }

  /** Last row of that window. */
  function WindowEnd(i: int, w: nat): (e: int)
    requires w >= 1
    ensures i <= e && e - WindowStart(i, w) + 1 == w
  {
    i + (w - 1) / 2
  }

  /** A rolling mean with the default `min_periods = w` is defined only on a full window. */
  predicate WindowDefined(n: nat, i: int, w: nat) {
    w >= 1 && 0 <= WindowStart(i, w) && WindowEnd(i, w) < n
  }

  /**
   * `Total_MA{w}` without the division by `w`: the sum of `Total` over the
   * centred window, or `None` (NaN) where the window leaves the table.
   */
  function CenteredWindowSums(totals: seq<int>, w: nat): (r: seq<Option<int>>)
    ensures |r| == |totals|
    ensures forall i :: 0 <= i < |r| ==> (r[i].Some? <==> WindowDefined(|totals|, i, w))
  {
    seq(|totals|, i requires 0 <= i < |totals| =>
      if WindowDefined(|totals|, i, w) then Some(Sum(totals[WindowStart(i, w)..WindowEnd(i, w) + 1]))
      else None)
  }

  /**
   * A defined window sum covers exactly `w` rows, straddles its row with at
   * most one extra row before it, and equals the difference of two cumulative
   * totals.
   */
  lemma {:induction false} CenteredWindowSumsSpec(totals: seq<int>, w: nat, i: nat)
    requires i < |totals| && CenteredWindowSums(totals, w)[i].Some?
    ensures WindowEnd(i, w) - WindowStart(i, w) + 1 == w
    ensures 0 <= (i - WindowStart(i, w)) - (WindowEnd(i, w) - i) <= 1
    ensures w == 7 ==> WindowStart(i, w) == i - 3 && WindowEnd(i, w) == i + 3
    ensures w == 30 ==> WindowStart(i, w) == i - 15 && WindowEnd(i, w) == i + 14
    ensures CenteredWindowSums(totals, w)[i].value
            == PrefixSums(totals)[WindowEnd(i, w)]
               - (if WindowStart(i, w) == 0 then 0 else PrefixSums(totals)[WindowStart(i, w) - 1])
  {
    var lo, hi := WindowStart(i, w), WindowEnd(i, w);
    assert totals[..hi + 1] == totals[..lo] + totals[lo..hi + 1];
    SumAppend(totals[..lo], totals[lo..hi + 1]);
    if lo > 0 {
      assert totals[..lo - 1 + 1] == totals[..lo];
    }
  }

  /** With fewer rows than the window width, every value is undefined. */
  lemma ShortTableUndefined(totals: seq<int>, w: nat)
    requires |totals| < w
    ensures forall i :: 0 <= i < |totals| ==> CenteredWindowSums(totals, w)[i].None?
  {
  }

  // ---------------------------------------------------------------------------
  // Cumulative sums
  // ---------------------------------------------------------------------------

  /** `cumsum()`: at each row, the total of the column up to and including that row. */
  function PrefixSums(xs: seq<int>): (r: seq<int>)
    ensures |r| == |xs|
    ensures |xs| > 0 ==> r[|xs| - 1] == Sum(xs)
  {
    assert xs[..|xs|] == xs;
    seq(|xs|, i requires 0 <= i < |xs| => Sum(xs[..i + 1]))
  }

  /**
   * `Cumulative_X[0] = X[0]`, `Cumulative_X[i] = Cumulative_X[i-1] + X[i]`,
   * and the last value is the column sum.
   */
  lemma PrefixSumsRecurrence(xs: seq<int>)
    ensures |xs| > 0 ==> PrefixSums(xs)[0] == xs[0]
    ensures forall i :: 0 < i < |xs| ==> PrefixSums(xs)[i] == PrefixSums(xs)[i - 1] + xs[i]
    ensures |xs| > 0 ==> PrefixSums(xs)[|xs| - 1] == Sum(xs)
  {
    if |xs| > 0 {
      var s := xs[..1];
      assert s[..0] == [];
      assert Sum(s) == Sum(s[..0]) + s[0];
      assert PrefixSums(xs)[0] == Sum(s);
      assert xs[..|xs|] == xs;
    }
    forall i | 0 < i < |xs| ensures PrefixSums(xs)[i] == PrefixSums(xs)[i - 1] + xs[i] {
      PrefixSumsStep(xs, i);
    }
  }

  lemma PrefixSumsStep(xs: seq<int>, i: nat)
    requires 0 < i < |xs|
    ensures PrefixSums(xs)[i] == PrefixSums(xs)[i - 1] + xs[i]
  {
    var s := xs[..i + 1];
    assert s[..i] == xs[..i];
  }

  /** With non-negative counts the cumulative column never decreases. */
  lemma PrefixSumsMonotone(xs: seq<int>)
    requires forall i :: 0 <= i < |xs| ==> xs[i] >= 0
    ensures forall i, j :: 0 <= i <= j < |xs| ==> PrefixSums(xs)[i] <= PrefixSums(xs)[j]
  {
    PrefixSumsRecurrence(xs);
    forall i, j | 0 <= i <= j < |xs| ensures PrefixSums(xs)[i] <= PrefixSums(xs)[j] {
      var k := i;
      while k < j
        invariant i <= k <= j
        invariant PrefixSums(xs)[i] <= PrefixSums(xs)[k]
      {
        k := k + 1;
      }
    }
  }

  // ---------------------------------------------------------------------------
  // Activity flags
  // ---------------------------------------------------------------------------

  /** `IsActive = Total >= MIN_CARDS_FOR_ACTIVE_DAY`. */
  function ActiveFlags(totals: seq<int>, threshold: int): (r: seq<bool>)
    ensures |r| == |totals|
    ensures forall i :: 0 <= i < |totals| ==> (r[i] <==> totals[i] >= threshold)
  {
    seq(|totals|, i requires 0 <= i < |totals| => totals[i] >= threshold)
  }

  /** `IsZero = Total == 0`. */
  function ZeroFlags(totals: seq<int>): (r: seq<bool>)
    ensures |r| == |totals|
    ensures forall i :: 0 <= i < |totals| ==> (r[i] <==> totals[i] == 0)
  {
    seq(|totals|, i requires 0 <= i < |totals| => totals[i] == 0)
  }

  /** With the configured threshold 1 and non-negative totals, active means not zero. */
  lemma ActiveIsNonZero(totals: seq<int>)
    requires forall i :: 0 <= i < |totals| ==> totals[i] >= 0
    ensures forall i :: 0 <= i < |totals| ==> (ActiveFlags(totals, 1)[i] <==> !ZeroFlags(totals)[i])
  {
  }

  // ---------------------------------------------------------------------------
  // Streaks
  // ---------------------------------------------------------------------------

  /**
   * The `Streak` column as a left fold over `IsActive`: one more than the
   * previous row's streak on an active row, 0 on an inactive one.
   */
  function Streaks(active: seq<bool>): (r: seq<nat>)
    ensures |r| == |active|
    ensures forall i :: 0 <= i < |r| ==> (r[i] > 0 <==> active[i]) && r[i] <= i + 1
  {
    if active == [] then []
    else
      var p := Streaks(active[..|active| - 1]);
      p + [if active[|active| - 1] then (if p == [] then 1 else p[|p| - 1] + 1) else 0]
  }

  /** The streaks of a prefix are the prefix of the streaks. */
  lemma {:induction false} StreaksPrefix(a: seq<bool>, k: nat)
    requires k <= |a|
    ensures Streaks(a[..k]) == Streaks(a)[..k]
    decreases |a|
  {
    if k == |a| {
      assert a[..k] == a;
    } else {
      var p := a[..|a| - 1];
      assert a[..k] == p[..k];
      StreaksPrefix(p, k);
    }
  }

  /** The last value of the fold, in terms of the one before it. */
  lemma StreaksLast(q: seq<bool>)
    requires q != []
    ensures Streaks(q)[|q| - 1] == if q[|q| - 1] then (if |q| == 1 then 1 else Streaks(q)[|q| - 2] + 1) else 0
  {
    var p := Streaks(q[..|q| - 1]);
    assert Streaks(q) == p + [if q[|q| - 1] then (if p == [] then 1 else p[|p| - 1] + 1) else 0];
    if |q| > 1 {
      assert Streaks(q)[|q| - 2] == p[|q| - 2];
    }
  }

  /** `Streak[i]` is `Streak[i-1] + 1` on an active row and 0 otherwise. */
  lemma StreakStep(a: seq<bool>, i: nat)
    requires i < |a|
    ensures Streaks(a)[i] == if a[i] then (if i == 0 then 1 else Streaks(a)[i - 1] + 1) else 0
  {
    var q := a[..i + 1];
    StreaksPrefix(a, i + 1);
    StreaksLast(q);
    assert q[i] == a[i];
    assert Streaks(a)[i] == Streaks(q)[i];
    if i > 0 {
      assert Streaks(a)[i - 1] == Streaks(q)[i - 1];
    }
  }

  /**
   * `Streak[i]` is the length of the run of active rows ending at row `i`:
   * every row of the run is active, and the row before it (if any) is not.
   * Hence `Streak[i] > 0` exactly on active rows and `Streak[i] <= i + 1`.
   */
  lemma {:induction false} StreakIsActiveRun(a: seq<bool>, i: nat)
    requires i < |a|
    ensures Streaks(a)[i] <= i + 1
    ensures Streaks(a)[i] > 0 <==> a[i]
    ensures forall j :: i - Streaks(a)[i] < j <= i ==> a[j]
    ensures Streaks(a)[i] <= i ==> !a[i - Streaks(a)[i]]
    decreases i
  {
    StreakStep(a, i);
    if i > 0 && a[i] {
      StreakIsActiveRun(a, i - 1);
    }
  }

  /** A run of active rows `lo..hi` makes the streak at `hi` at least its length. */
  lemma {:induction false} StreakCoversRun(a: seq<bool>, lo: nat, hi: nat)
    requires lo <= hi < |a|
    requires forall j :: lo <= j <= hi ==> a[j]
    ensures Streaks(a)[hi] >= hi - lo + 1
    decreases hi - lo
  {
    StreakStep(a, hi);
    if lo < hi {
      StreakCoversRun(a, lo, hi - 1);
    }
  }

  // ---------------------------------------------------------------------------
  // The table object
  // ---------------------------------------------------------------------------

  /** The `Total_MA{w}` columns: the centred window sums of `Total`. */
  ghost predicate MovingAveragesOf(days: seq<Day>, movingSums: map<nat, seq<Option<int>>>, windows: seq<nat>) {
    forall w :: w in windows ==> w in movingSums && movingSums[w] == CenteredWindowSums(TotalsOf(days), w)
  }

  /** The `Cumulative_*` columns: the running totals of the four counters. */
  ghost predicate CumulativeMetricsOf(days: seq<Day>, total: seq<int>, learning: seq<int>, review: seq<int>, relearn: seq<int>) {
    && total == PrefixSums(TotalsOf(days))
    && learning == PrefixSums(Learnings(CountsOf(days)))
    && review == PrefixSums(Reviews(CountsOf(days)))
    && relearn == PrefixSums(Relearns(CountsOf(days)))
  }

  /** `IsActive` and `IsZero`. */
  ghost predicate ActivityFlagsOf(days: seq<Day>, isActive: seq<bool>, isZero: seq<bool>, threshold: int) {
    isActive == ActiveFlags(TotalsOf(days), threshold) && isZero == ZeroFlags(TotalsOf(days))
  }

  /**
   * The enriched DataFrame. `days` holds the columns read from the CSV and the
   * calendar features; the other fields are the columns the `_add_*` helpers
   * assign (empty until assigned). `movingSums[w]` is the column `Total_MA{w}`.
   */
  class Frame {
    const days: seq<Day>
    var movingSums: map<nat, seq<Option<int>>>
    var cumulativeTotal: seq<int>
    var cumulativeLearning: seq<int>
    var cumulativeReview: seq<int>
    var cumulativeRelearn: seq<int>
    var isActive: seq<bool>
    var isZero: seq<bool>
    var streak: seq<nat>

    /** Every derived column agrees with its specification on the current rows. */
    ghost predicate Enriched(threshold: int, windows: seq<nat>)
      reads this
    {
      && MovingAveragesOf(days, movingSums, windows)
      && CumulativeMetricsOf(days, cumulativeTotal, cumulativeLearning, cumulativeReview, cumulativeRelearn)
      && ActivityFlagsOf(days, isActive, isZero, threshold)
      && streak == Streaks(isActive)
    }

    /** The table as read: rows sorted by date, no derived columns yet. */
    constructor (rows: seq<Day>)
      ensures days == SortByDate(rows)
      ensures movingSums == map[]
      ensures cumulativeTotal == cumulativeLearning == cumulativeReview == cumulativeRelearn == []
      ensures isActive == isZero == [] && streak == []
    {
      days := SortByDate(rows);
      movingSums := map[];
      cumulativeTotal, cumulativeLearning, cumulativeReview, cumulativeRelearn := [], [], [], [];
      isActive, isZero, streak := [], [], [];
    }

    /** `_add_moving_averages`: one `Total_MA{w}` column per configured window. */
    method AddMovingAverages(windows: seq<nat>)
      modifies this`movingSums
      ensures movingSums.Keys == old(movingSums).Keys + (set w | w in windows)
      ensures MovingAveragesOf(days, movingSums, windows)
      ensures forall w :: w in old(movingSums) && w !in windows ==> movingSums[w] == old(movingSums)[w]
    {
      var totals := TotalsOf(days);
      for k := 0 to |windows|
        invariant movingSums.Keys == old(movingSums).Keys + (set w | w in windows[..k])
        invariant forall w :: w in windows[..k] ==> movingSums[w] == CenteredWindowSums(totals, w)
        invariant forall w :: w in old(movingSums) && w !in windows[..k] ==> movingSums[w] == old(movingSums)[w]
      {
        assert windows[..k + 1] == windows[..k] + [windows[k]];
        movingSums := movingSums[windows[k] := CenteredWindowSums(totals, windows[k])];
      }
      assert windows[..|windows|] == windows;
    }

    /** `_add_cumulative_metrics`: running totals of the four counters. */
    method AddCumulativeMetrics()
      modifies this`cumulativeTotal, this`cumulativeLearning, this`cumulativeReview, this`cumulativeRelearn
      ensures CumulativeMetricsOf(days, cumulativeTotal, cumulativeLearning, cumulativeReview, cumulativeRelearn)
    {
      var cs := CountsOf(days);
      cumulativeTotal := PrefixSums(Totals(cs));
      cumulativeLearning := PrefixSums(Learnings(cs));
      cumulativeReview := PrefixSums(Reviews(cs));
      cumulativeRelearn := PrefixSums(Relearns(cs));
    }

    /** `_add_activity_flags`: `IsActive` and `IsZero`. */
    method AddActivityFlags(threshold: int)
      modifies this`isActive, this`isZero
      ensures ActivityFlagsOf(days, isActive, isZero, threshold)
    {
      var totals := TotalsOf(days);
      isActive := ActiveFlags(totals, threshold);
      isZero := ZeroFlags(totals);
    }

    /** The four `_add_*` helpers in the order `load_anki_data` calls them. */
    method Enrich(threshold: int, windows: seq<nat>)
      modifies this
      ensures Enriched(threshold, windows)
    {
      AddMovingAverages(windows);
      AddCumulativeMetrics();
      AddActivityFlags(threshold);
      AddStreaks();
    }

    /**
     * `_add_streaks`: the column starts at 0 and a left-to-right scan carries
     * `current_streak`, writing each row's value in place.
     */
    method AddStreaks()
      requires |isActive| == |days|
      modifies this`streak
      ensures streak == Streaks(isActive)
    {
      var n := |days|;
      streak := seq(n, _ => 0);
      var currentStreak: nat := 0;
      var idx := 0;
      while idx < n
        invariant 0 <= idx <= n && |streak| == n
        invariant streak[..idx] == Streaks(isActive[..idx])
        invariant forall j :: idx <= j < n ==> streak[j] == 0
        invariant currentStreak == if idx == 0 then 0 else streak[idx - 1]
      {
        assert isActive[..idx + 1][..idx] == isActive[..idx];
        if isActive[idx] {
          currentStreak := currentStreak + 1;
          streak := streak[idx := currentStreak];
        } else {
          currentStreak := 0;
          streak := streak[idx := 0];
        }
        assert streak[..idx + 1] == streak[..idx] + [streak[idx]];
        idx := idx + 1;
      }
      assert isActive[..n] == isActive;
      assert streak[..n] == streak;
    }
  }

  /**
   * `load_anki_data`: read, sort by date, then add the moving averages, the
   * cumulative columns, the activity flags and the streaks, in that order.
   */
  method LoadAnkiData(rows: seq<Day>, threshold: int, windows: seq<nat>) returns (df: Frame)
    ensures fresh(df)
    ensures df.days == SortByDate(rows)
    ensures df.Enriched(threshold, windows)
  {
    df := new Frame(rows);
    df.Enrich(threshold, windows);
  }
}
