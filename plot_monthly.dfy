/**
 * The monthly plot's data preparation (scripts/plot_anki_data.py): each row of
 * the honest CSV is filed under its year-month, the per-month accumulators are
 * summed in a dictionary, and the months are read out in sorted order as
 * aligned series.
 */
module PlotMonthly {
  import opened Series
  import opened Ordering
  import opened Grouping
  import opened Decimal
  import Aggregates
  import opened ReorganizeCsv

  // ---------------------------------------------------------------------------
  // Dates as text
  // ---------------------------------------------------------------------------

  predicate IsLeapYear(y: int) {
    y % 4 == 0 && (y % 100 != 0 || y % 400 == 0)
  }

  function DaysInMonth(y: int, m: int): (d: nat)
    requires 1 <= m <= 12
    ensures 28 <= d <= 31
  {
    if m == 2 then (if IsLeapYear(y) then 29 else 28)
    else if m == 4 || m == 6 || m == 9 || m == 11 then 30
    else 31
  }

  datatype CivilDate = CivilDate(year: nat, month: nat, day: nat)

  /** A date `datetime` accepts: years 1 to 9999, real months and days. */
  predicate ValidDate(d: CivilDate) {
    1 <= d.year <= 9999 && 1 <= d.month <= 12 && 1 <= d.day <= DaysInMonth(d.year, d.month)
  }

  /** `d.strftime('%Y-%m-%d')`. */
  function FormatDate(d: CivilDate): (s: string)
    ensures |s| == 10
    ensures DateShape(s)
  {
    FixedDigits(d.year, 4) + "-" + FixedDigits(d.month, 2) + "-" + FixedDigits(d.day, 2)
  }

  /** The 'YYYY-MM-DD' layout: four, two and two digits separated by hyphens. */
  predicate DateShape(s: string) {
    |s| == 10 && s[4] == '-' && s[7] == '-'
    && AllDigits(s[..4]) && AllDigits(s[5..7]) && AllDigits(s[8..])
  }

  /**
   * `datetime.strptime(s, '%Y-%m-%d')` on zero-padded text; `None` stands for
   * the `ValueError` it raises on anything else or on a day the calendar does
   * not have.
   */
  function ParseDate(s: string): (r: Option<CivilDate>)
    ensures r.Some? ==> DateShape(s) && ValidDate(r.value)
  {
    if !DateShape(s) then None
    else
      var d := CivilDate(DigitsValue(s[..4]), DigitsValue(s[5..7]), DigitsValue(s[8..]));
      if ValidDate(d) then Some(d) else None
  }

  lemma Pow10Values()
    ensures Pow10(2) == 100 && Pow10(4) == 10000
  {
  }

  /** Parsing what `FormatDate` writes gives the date back. */
  lemma ParseFormatDate(d: CivilDate)
    requires ValidDate(d)
    ensures ParseDate(FormatDate(d)) == Some(d)
  {
    var s := FormatDate(d);
    var y, m, dd := FixedDigits(d.year, 4), FixedDigits(d.month, 2), FixedDigits(d.day, 2);
    assert s[..4] == y && s[5..7] == m && s[8..] == dd;
    Pow10Values();
    FixedDigitsValue(d.year, 4);
    FixedDigitsValue(d.month, 2);
    FixedDigitsValue(d.day, 2);
  }

  /** Writing back a parsed date gives the text that was parsed. */
  lemma FormatParseDate(s: string)
    requires ParseDate(s).Some?
    ensures FormatDate(ParseDate(s).value) == s
  {
    var d := ParseDate(s).value;
    FixedDigitsRoundTrip(s[..4]);
    FixedDigitsRoundTrip(s[5..7]);
    FixedDigitsRoundTrip(s[8..]);
    assert s == s[..4] + "-" + s[5..7] + "-" + s[8..];
  }

  /** `date_obj.strftime('%Y-%m')`. */
  function MonthKey(d: CivilDate): (k: string)
    ensures |k| == 7
  {
    FixedDigits(d.year, 4) + "-" + FixedDigits(d.month, 2)
  }

  /** The month key of a well-formed date text is its first seven characters. */
  lemma MonthKeyIsPrefix(s: string)
    requires ParseDate(s).Some?
    ensures MonthKey(ParseDate(s).value) == s[..7]
  {
    var d := ParseDate(s).value;
    FormatParseDate(s);
    assert FormatDate(d) == MonthKey(d) + "-" + FixedDigits(d.day, 2);
    assert FormatDate(d)[..7] == MonthKey(d);
  }

  /** Month keys sort as their months do: by year, then by month. */
  lemma MonthKeyOrder(a: CivilDate, b: CivilDate)
    requires ValidDate(a) && ValidDate(b)
    ensures LexLess(MonthKey(a), MonthKey(b)) <==> a.year < b.year || (a.year == b.year && a.month < b.month)
  {
    Pow10Values();
    var ya, yb := FixedDigits(a.year, 4), FixedDigits(b.year, 4);
    var ma, mb := FixedDigits(a.month, 2), FixedDigits(b.month, 2);
    LexLessConcat(ya, "-" + ma, yb, "-" + mb);
    LexLessConcat("-", ma, "-", mb);
    FixedDigitsOrder(a.year, b.year, 4);
    FixedDigitsOrder(a.month, b.month, 2);
    FixedDigitsValue(a.year, 4);
    FixedDigitsValue(b.year, 4);
    assert MonthKey(a) == ya + ("-" + ma) && MonthKey(b) == yb + ("-" + mb);
    assert ya == yb <==> a.year == b.year;
  }

  /**
   * `datetime.strptime(month, '%Y-%m')`: the year and month of a key;
   * `None` for text of another layout.
   */
  function ParseMonthKey(k: string): (r: Option<(nat, nat)>)
    ensures r.Some? ==> 1 <= r.value.0 <= 9999 && 1 <= r.value.1 <= 12
  {
    if |k| == 7 && k[4] == '-' && AllDigits(k[..4]) && AllDigits(k[5..]) then
      var y, m := DigitsValue(k[..4]), DigitsValue(k[5..]);
      if 1 <= y && 1 <= m <= 12 then Some((y, m)) else None
    else None
  }

  /** A month key reads back as the year and month it was written from. */
  lemma ParseMonthKeyOf(d: CivilDate)
    requires ValidDate(d)
    ensures ParseMonthKey(MonthKey(d)) == Some((d.year, d.month))
  {
    var k := MonthKey(d);
    assert k[..4] == FixedDigits(d.year, 4) && k[5..] == FixedDigits(d.month, 2);
    Pow10Values();
    FixedDigitsValue(d.year, 4);
    FixedDigitsValue(d.month, 2);
  }

  // ---------------------------------------------------------------------------
  // The per-month accumulators
  // ---------------------------------------------------------------------------

  function Plus(a: Counts, b: Counts): Counts {
    Counts(a.learning + b.learning, a.review + b.review, a.relearn + b.relearn, a.total + b.total)
  }

  /** `data_by_month`: its keys in insertion order, and the accumulators per key. */
  datatype MonthTable = MonthTable(order: seq<string>, data: map<string, Counts>)

  predicate AllDatesParse(rows: seq<CsvRow>) {
    forall i :: 0 <= i < |rows| ==> ParseDate(rows[i].date).Some?
  }

  function RowMonth(row: CsvRow): string
    requires ParseDate(row.date).Some?
  {
    MonthKey(ParseDate(row.date).value)
  }

  function MonthColumn(rows: seq<CsvRow>): (r: seq<string>)
    requires AllDatesParse(rows)
    ensures |r| == |rows| && forall i :: 0 <= i < |rows| ==> r[i] == RowMonth(rows[i])
  {
    seq(|rows|, i requires 0 <= i < |rows| => RowMonth(rows[i]))
  }

  /** The distinct keys of a column in order of first appearance. */
  function FirstSeen(keys: seq<string>): (r: seq<string>)
    ensures Distinct(r)
    ensures forall k :: k in r <==> k in keys
  {
    if keys == [] then []
    else
      var p := keys[..|keys| - 1];
      var k := keys[|keys| - 1];
      assert keys == p + [k];
      var f := FirstSeen(p);
      if k in f then f else f + [k]
  }

  /** One row filed under month `k`: the key is listed on first use and its entry grows by `c`. */
  function AddRow(t: MonthTable, k: string, c: Counts): (r: MonthTable)
    ensures r.data.Keys == t.data.Keys + {k}
    ensures r.data[k] == Plus(if k in t.data then t.data[k] else Zero, c)
    ensures forall k' :: k' in t.data && k' != k ==> r.data[k'] == t.data[k']
    ensures r.order == if k in t.data then t.order else t.order + [k]
  {
    var acc := if k in t.data then t.data[k] else Zero;
    MonthTable(if k in t.data then t.order else t.order + [k], t.data[k := Plus(acc, c)])
  }

  /** The dictionary after filing counters `cs` under keys `keys`, one row at a time. */
  function FileAll(keys: seq<string>, cs: seq<Counts>): (t: MonthTable)
    requires |keys| == |cs|
    ensures forall k :: k in t.data <==> k in keys
    ensures forall k :: k in t.order <==> k in keys
  {
    if keys == [] then MonthTable([], map[])
    else
      var n := |keys| - 1;
      AddRow(FileAll(keys[..n], cs[..n]), keys[n], cs[n])
  }

  /** The dictionary after the rows so far: the fold the row loop performs. */
  function Accumulate(rows: seq<CsvRow>): (t: MonthTable)
    requires AllDatesParse(rows)
    ensures forall k :: k in t.data <==> exists i :: 0 <= i < |rows| && RowMonth(rows[i]) == k
  {
    FileAll(MonthColumn(rows), RowCounts(rows))
  }

  /** A date that parses, after a prefix whose dates all parse, extends the prefix. */
  lemma PrefixParses(rows: seq<CsvRow>, i: nat)
    requires i < |rows| && AllDatesParse(rows[..i]) && ParseDate(rows[i].date).Some?
    ensures AllDatesParse(rows[..i + 1])
  {
    var q := rows[..i + 1];
    forall j | 0 <= j < |q| ensures ParseDate(q[j].date).Some? {
      if j < i {
        assert q[j] == rows[..i][j];
      }
    }
  }

  lemma AccumulateStep(rows: seq<CsvRow>, i: nat)
    requires i < |rows| && AllDatesParse(rows[..i + 1])
    ensures AllDatesParse(rows[..i])
    ensures Accumulate(rows[..i + 1]) == AddRow(Accumulate(rows[..i]), RowMonth(rows[i]), rows[i].counts)
  {
    var p, q := rows[..i], rows[..i + 1];
    assert q[..i] == p;
    assert MonthColumn(q)[..i] == MonthColumn(p);
    assert RowCounts(q)[..i] == RowCounts(p);
  }

  /**
   * The row loop: each date is parsed (a date that does not parse stops the
   * script) and the row's four counters are added to its month's entry,
   * created with zeros on first use.
   */
  method AggregateByMonth(rows: seq<CsvRow>) returns (r: Option<MonthTable>)
    ensures r.None? <==> !AllDatesParse(rows)
    ensures r.Some? ==> AllDatesParse(rows) && r.value == Accumulate(rows)
  {
    var order: seq<string> := [];
    var data: map<string, Counts> := map[];
    for i := 0 to |rows|
      invariant AllDatesParse(rows[..i])
      invariant MonthTable(order, data) == Accumulate(rows[..i])
    {
      var row := rows[i];
      var parsed := ParseDate(row.date);
      if parsed.None? {
        assert !ParseDate(rows[i].date).Some?;
        return None;
      }
      PrefixParses(rows, i);
      AccumulateStep(rows, i);
      var monthKey := MonthKey(parsed.value);
      assert monthKey == RowMonth(rows[i]);
      order, data := FileUnder(order, data, monthKey, row.counts);
    }
    assert rows[..|rows|] == rows;
    r := Some(MonthTable(order, data));
  }

  /**
   * `data_by_month[month_key][...] += ...` for the four counters, the entry
   * being created with zeros by the `defaultdict` on first use.
   */
  method FileUnder(order: seq<string>, data: map<string, Counts>, monthKey: string, c: Counts)
    returns (order': seq<string>, data': map<string, Counts>)
    ensures MonthTable(order', data') == AddRow(MonthTable(order, data), monthKey, c)
  {
    order', data' := order, data;
    if monthKey !in data' {
      order' := order' + [monthKey];
      data' := data'[monthKey := Zero];
    }
    var acc := data'[monthKey];
    data' := data'[monthKey := Counts(acc.learning + c.learning, acc.review + c.review,
                                      acc.relearn + c.relearn, acc.total + c.total)];
  }

  /** The group sums of the four counters over all rows but the last, plus the last if it is in the group. */
  lemma GroupCountsLast(keys: seq<string>, cs: seq<Counts>, k: string)
    requires |keys| == |cs| > 0
    ensures var n := |keys| - 1;
            Aggregates.GroupCounts(keys, cs, k)
            == Plus(Aggregates.GroupCounts(keys[..n], cs[..n], k), if keys[n] == k then cs[n] else Zero)
  {
    var n := |keys| - 1;
    assert Learnings(cs)[..n] == Learnings(cs[..n]);
    assert Reviews(cs)[..n] == Reviews(cs[..n]);
    assert Relearns(cs)[..n] == Relearns(cs[..n]);
    assert Totals(cs)[..n] == Totals(cs[..n]);
  }

  /**
   * Filing rows one at a time leaves exactly the keys seen, in order of first
   * appearance, each holding the sums of the four counters over its rows.
   */
  lemma {:induction false} FileAllIsGroupSums(keys: seq<string>, cs: seq<Counts>)
    requires |keys| == |cs|
    ensures var t := FileAll(keys, cs);
            && (forall k :: k in t.data <==> k in keys)
            && t.order == FirstSeen(keys)
            && forall k :: k in t.data ==> t.data[k] == Aggregates.GroupCounts(keys, cs, k)
    decreases |keys|
  {
    if keys != [] {
      var n := |keys| - 1;
      var p, q := keys[..n], cs[..n];
      FileAllIsGroupSums(p, q);
      var t, t0 := FileAll(keys, cs), FileAll(p, q);
      assert keys == p + [keys[n]];
      forall k | k in t.data
        ensures t.data[k] == Aggregates.GroupCounts(keys, cs, k)
      {
        AddRowGroupCounts(t0, keys, cs, k);
      }
    }
  }

  /** Filing the last row keeps every month's entry equal to its group sums. */
  lemma AddRowGroupCounts(t0: MonthTable, keys: seq<string>, cs: seq<Counts>, k: string)
    requires |keys| == |cs| > 0
    requires forall k :: k in t0.data <==> k in keys[..|keys| - 1]
    requires forall k :: k in t0.data ==> t0.data[k] == Aggregates.GroupCounts(keys[..|keys| - 1], cs[..|cs| - 1], k)
    requires k in AddRow(t0, keys[|keys| - 1], cs[|cs| - 1]).data
    ensures AddRow(t0, keys[|keys| - 1], cs[|cs| - 1]).data[k] == Aggregates.GroupCounts(keys, cs, k)
  {
    var n := |keys| - 1;
    var p, q := keys[..n], cs[..n];
    GroupCountsLast(keys, cs, k);
    if k != keys[n] {
      assert k in t0.data;
    } else if k !in t0.data {
      GroupSumAbsent(p, Learnings(q), k);
      GroupSumAbsent(p, Reviews(q), k);
      GroupSumAbsent(p, Relearns(q), k);
      GroupSumAbsent(p, Totals(q), k);
    }
  }

  /**
   * The accumulated dictionary holds exactly the months seen, in order of
   * first appearance, and each month's accumulators are the sums of the four
   * counters over the rows of that month.
   */
  lemma AccumulateIsGroupSums(rows: seq<CsvRow>)
    requires AllDatesParse(rows)
    ensures var t, keys := Accumulate(rows), MonthColumn(rows);
            && (forall k :: k in t.data <==> k in keys)
            && t.order == FirstSeen(keys)
            && forall k :: k in t.data ==> t.data[k] == Aggregates.GroupCounts(keys, RowCounts(rows), k)
  {
    FileAllIsGroupSums(MonthColumn(rows), RowCounts(rows));
  }

  // ---------------------------------------------------------------------------
  // The plotted series
  // ---------------------------------------------------------------------------

  /** Every key the dictionary lists has an entry and is a year-month. */
  predicate WellFormedTable(t: MonthTable) {
    forall k :: k in t.order ==> k in t.data && ParseMonthKey(k).Some?
  }

  /** `sorted_months`, `dates` and the four value lists. */
  datatype PlotSeries = PlotSeries(
    months: seq<string>, dates: seq<(nat, nat)>,
    learning: seq<int>, review: seq<int>, total: seq<int>, relearn: seq<int>)

  /**
   * The series read out of the dictionary: the months in ascending key order,
   * and position `j` of every list describing month `months[j]`.
   */
  function ExtractSeries(t: MonthTable): (s: PlotSeries)
    requires WellFormedTable(t)
    ensures s.months == SortedKeys(t.order)
    ensures |s.dates| == |s.learning| == |s.review| == |s.total| == |s.relearn| == |s.months|
    ensures forall j :: 0 <= j < |s.months| ==>
              && s.months[j] in t.data
              && ParseMonthKey(s.months[j]) == Some(s.dates[j])
              && s.learning[j] == t.data[s.months[j]].learning
              && s.review[j] == t.data[s.months[j]].review
              && s.total[j] == t.data[s.months[j]].total
              && s.relearn[j] == t.data[s.months[j]].relearn
  {
    var ms := SortedKeys(t.order);
    assert forall j :: 0 <= j < |ms| ==> ms[j] in t.order by {
      forall j | 0 <= j < |ms| ensures ms[j] in t.order {
        assert ms[j] in ms;
      }
    }
    PlotSeries(ms,
      seq(|ms|, j requires 0 <= j < |ms| => ParseMonthKey(ms[j]).value),
      seq(|ms|, j requires 0 <= j < |ms| => t.data[ms[j]].learning),
      seq(|ms|, j requires 0 <= j < |ms| => t.data[ms[j]].review),
      seq(|ms|, j requires 0 <= j < |ms| => t.data[ms[j]].total),
      seq(|ms|, j requires 0 <= j < |ms| => t.data[ms[j]].relearn))
  }

  /** The table the row loop builds is one the series can be read from. */
  lemma AccumulateWellFormed(rows: seq<CsvRow>)
    requires AllDatesParse(rows)
    ensures WellFormedTable(Accumulate(rows))
  {
    var t := Accumulate(rows);
    AccumulateIsGroupSums(rows);
    forall k | k in t.order
      ensures k in t.data && ParseMonthKey(k).Some?
    {
      var i :| 0 <= i < |rows| && MonthColumn(rows)[i] == k;
      ParseMonthKeyOf(ParseDate(rows[i].date).value);
    }
  }

  /**
   * The plotted months are exactly the months of the rows, strictly ascending
   * and so in calendar order, and each plotted date is the first day of its
   * month's key.
   */
  lemma SeriesMonths(rows: seq<CsvRow>)
    requires AllDatesParse(rows)
    ensures WellFormedTable(Accumulate(rows))
    ensures var s := ExtractSeries(Accumulate(rows));
            && (forall k :: k in s.months <==> k in MonthColumn(rows))
            && StrictlyAscending(s.months)
            && forall j, k :: 0 <= j < k < |s.months| ==>
                 s.dates[j].0 < s.dates[k].0 || (s.dates[j].0 == s.dates[k].0 && s.dates[j].1 < s.dates[k].1)
  {
    AccumulateWellFormed(rows);
    AccumulateIsGroupSums(rows);
    var s := ExtractSeries(Accumulate(rows));
    forall j, k | 0 <= j < k < |s.months|
      ensures s.dates[j].0 < s.dates[k].0 || (s.dates[j].0 == s.dates[k].0 && s.dates[j].1 < s.dates[k].1)
    {
      var a, b := SourceDate(rows, s.months[j]), SourceDate(rows, s.months[k]);
      MonthKeyOrder(a, b);
    }
  }

  /** A date of the rows whose month key is `k`. */
  ghost function SourceDate(rows: seq<CsvRow>, k: string): (d: CivilDate)
    requires AllDatesParse(rows) && k in MonthColumn(rows)
    ensures ValidDate(d) && MonthKey(d) == k && ParseMonthKey(k) == Some((d.year, d.month))
  {
    var i :| 0 <= i < |rows| && MonthColumn(rows)[i] == k;
    var d := ParseDate(rows[i].date).value;
    ParseMonthKeyOf(d);
    d
  }

  lemma SeriesTotalsOf(keys: seq<string>, cs: seq<Counts>)
    requires |keys| == |cs| && WellFormedTable(FileAll(keys, cs))
    ensures var s := ExtractSeries(FileAll(keys, cs));
            && Sum(s.learning) == Sum(Learnings(cs))
            && Sum(s.review) == Sum(Reviews(cs))
            && Sum(s.total) == Sum(Totals(cs))
            && Sum(s.relearn) == Sum(Relearns(cs))
  {
    FileAllIsGroupSums(keys, cs);
    var t := FileAll(keys, cs);
    var s := ExtractSeries(t);
    var ks := s.months;
    Aggregates.AscendingIsDistinct(ks);
    forall i | 0 <= i < |keys| ensures keys[i] in ks {
      assert keys[i] in keys;
    }
    forall j | 0 <= j < |ks|
      ensures && s.learning[j] == GroupSum(keys, Learnings(cs), ks[j])
              && s.review[j] == GroupSum(keys, Reviews(cs), ks[j])
              && s.total[j] == GroupSum(keys, Totals(cs), ks[j])
              && s.relearn[j] == GroupSum(keys, Relearns(cs), ks[j])
    {
      assert t.data[ks[j]] == Aggregates.GroupCounts(keys, cs, ks[j]);
    }
    ColumnTotal(keys, Learnings(cs), ks, s.learning);
    ColumnTotal(keys, Reviews(cs), ks, s.review);
    ColumnTotal(keys, Totals(cs), ks, s.total);
    ColumnTotal(keys, Relearns(cs), ks, s.relearn);
  }

  /** A column of per-month sums over every month of the rows adds up to the column's total. */
  lemma ColumnTotal(keys: seq<string>, vals: seq<int>, ks: seq<string>, col: seq<int>)
    requires |keys| == |vals| && Distinct(ks)
    requires forall i :: 0 <= i < |keys| ==> keys[i] in ks
    requires |col| == |ks| && forall j :: 0 <= j < |ks| ==> col[j] == GroupSum(keys, vals, ks[j])
    ensures Sum(col) == Sum(vals)
  {
    assert col == GroupSums(keys, vals, ks);
    GroupSumsTotal(keys, vals, ks);
  }

  /**
   * Nothing is lost or counted twice: each plotted series sums to its column's
   * total over all rows.
   */
  lemma SeriesTotals(rows: seq<CsvRow>)
    requires AllDatesParse(rows)
    ensures WellFormedTable(Accumulate(rows))
    ensures var s, cs := ExtractSeries(Accumulate(rows)), RowCounts(rows);
            && Sum(s.learning) == Sum(Learnings(cs))
            && Sum(s.review) == Sum(Reviews(cs))
            && Sum(s.total) == Sum(Totals(cs))
            && Sum(s.relearn) == Sum(Relearns(cs))
  {
    AccumulateWellFormed(rows);
    SeriesTotalsOf(MonthColumn(rows), RowCounts(rows));
  }

  // ---------------------------------------------------------------------------
  // The printed statistics
  // ---------------------------------------------------------------------------

  datatype MonthlyPeaks = MonthlyPeaks(
    months: nat, first: string, last: string,
    maxLearning: int, maxReview: int, maxTotal: int, maxRelearn: int)

  /**
   * The statistics printed after the plot: the month count, the first and last
   * month and the largest value of each series. `sorted_months[0]` and `max`
   * of an empty list both raise, so there is none without a month.
   */
  function Peaks(s: PlotSeries): (r: Option<MonthlyPeaks>)
    requires |s.learning| == |s.review| == |s.total| == |s.relearn| == |s.months|
    ensures r.None? <==> s.months == []
    ensures r.Some? ==>
              && r.value.months == |s.months|
              && r.value.first == s.months[0] && r.value.last == s.months[|s.months| - 1]
              && (forall j :: 0 <= j < |s.months| ==> s.learning[j] <= r.value.maxLearning)
              && (exists j :: 0 <= j < |s.months| && s.learning[j] == r.value.maxLearning)
              && (forall j :: 0 <= j < |s.months| ==> s.review[j] <= r.value.maxReview)
              && (exists j :: 0 <= j < |s.months| && s.review[j] == r.value.maxReview)
              && (forall j :: 0 <= j < |s.months| ==> s.total[j] <= r.value.maxTotal)
              && (exists j :: 0 <= j < |s.months| && s.total[j] == r.value.maxTotal)
              && (forall j :: 0 <= j < |s.months| ==> s.relearn[j] <= r.value.maxRelearn)
              && (exists j :: 0 <= j < |s.months| && s.relearn[j] == r.value.maxRelearn)
  {
    if s.months == [] then None
    else
      Some(MonthlyPeaks(|s.months|, s.months[0], s.months[|s.months| - 1],
        Aggregates.MaxOf(s.learning), Aggregates.MaxOf(s.review),
        Aggregates.MaxOf(s.total), Aggregates.MaxOf(s.relearn)))
  }

  /** A file without data rows yields no month, so the statistics fail. */
  lemma NoRowsNoPeaks()
    ensures WellFormedTable(Accumulate([]))
    ensures Peaks(ExtractSeries(Accumulate([]))).None?
  {
  }

  /** With at least one row there is a month, and the statistics exist. */
  lemma RowsHavePeaks(rows: seq<CsvRow>)
    requires AllDatesParse(rows) && rows != []
    ensures WellFormedTable(Accumulate(rows))
    ensures Peaks(ExtractSeries(Accumulate(rows))).Some?
  {
    SeriesMonths(rows);
    var s := ExtractSeries(Accumulate(rows));
    assert MonthColumn(rows)[0] in MonthColumn(rows);
    assert MonthColumn(rows)[0] in s.months;
  }
}
