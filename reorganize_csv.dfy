/**
 * The "honest total" rewrite (scripts/reorganize_csv.py): every exported row
 * `Date, Learning, Review, Relearn, Total` becomes
 * `Date, Learning, Review, Total, Relearn` whose total is learning plus review
 * only, followed by the statistics the script folds over the file it wrote.
 *
 * A CSV row is its date text and its four counters; which column each counter
 * sits in is a matter of the header, so the same record serves both files.
 */
module ReorganizeCsv {
  import opened Series

  datatype CsvRow = CsvRow(date: string, counts: Counts)

  /** The header written to the new file, whatever the input header was. */
  const NewHeader: seq<string> := ["Date", "Learning", "Review", "Total", "Relearn"]

  /** One rewritten row: the old total is dropped, the new one is learning plus review. */
  function Honest(row: CsvRow): (r: CsvRow)
    ensures r.date == row.date
    ensures r.counts.learning == row.counts.learning
    ensures r.counts.review == row.counts.review
    ensures r.counts.relearn == row.counts.relearn
    ensures r.counts.total == row.counts.learning + row.counts.review
  {
    CsvRow(row.date, Counts(row.counts.learning, row.counts.review, row.counts.relearn,
                            row.counts.learning + row.counts.review))
  }

  function HonestRows(rows: seq<CsvRow>): (r: seq<CsvRow>)
    ensures |r| == |rows| && forall i :: 0 <= i < |rows| ==> r[i] == Honest(rows[i])
  {
    seq(|rows|, i requires 0 <= i < |rows| => Honest(rows[i]))
  }

  /**
   * The rewrite loop: one output row per input row, in order, and
   * `rows_processed` counts them.
   */
  method Reorganize(header: seq<string>, rows: seq<CsvRow>)
    returns (newHeader: seq<string>, output: seq<CsvRow>, rowsProcessed: nat)
    ensures newHeader == NewHeader
    ensures output == HonestRows(rows)
    ensures rowsProcessed == |rows| == |output|
  {
    newHeader := NewHeader;
    output := [];
    rowsProcessed := 0;
    for i := 0 to |rows|
      invariant rowsProcessed == i == |output|
      invariant forall j :: 0 <= j < i ==> output[j] == Honest(rows[j])
    {
      var row := rows[i];
      var honestTotal := row.counts.learning + row.counts.review;
      var newRow := CsvRow(row.date, Counts(row.counts.learning, row.counts.review, row.counts.relearn, honestTotal));
      output := output + [newRow];
      rowsProcessed := rowsProcessed + 1;
    }
  }

  /** The old total plays no part: rows that differ only there are rewritten alike. */
  lemma HonestIgnoresOldTotal(a: CsvRow, b: CsvRow)
    requires a.date == b.date
    requires a.counts.learning == b.counts.learning
    requires a.counts.review == b.counts.review
    requires a.counts.relearn == b.counts.relearn
    ensures Honest(a) == Honest(b)
  {
  }

  /**
   * On an exported row, whose total counts all three kinds, the honest total
   * is the old total less the relearns, and the learning, review and relearn
   * counts still add up to the old total.
   */
  lemma HonestOfBalanced(row: CsvRow)
    requires Balanced(row.counts)
    ensures Honest(row).counts.total == row.counts.total - row.counts.relearn
    ensures Honest(row).counts.total + Honest(row).counts.relearn == row.counts.total
  {
  }

  // ---------------------------------------------------------------------------
  // Statistics over the rewritten file
  // ---------------------------------------------------------------------------

  datatype HonestStats = HonestStats(
    totalLearning: int, totalReview: int, totalRelearn: int,
    daysWithWork: nat, totalHonestWork: int, totalDays: nat)

  /** The counters of the CSV rows (the loader's `Day` records have their own projection). */
  function RowCounts(rows: seq<CsvRow>): (r: seq<Counts>)
    ensures |r| == |rows| && forall i :: 0 <= i < |rows| ==> r[i] == rows[i].counts
  {
    seq(|rows|, i requires 0 <= i < |rows| => rows[i].counts)
  }

  /** `honest_total > 0` for each row of the rewritten file (the export's test is on its own rows). */
  function HasWork(rows: seq<CsvRow>): (r: seq<bool>)
    ensures |r| == |rows| && forall i :: 0 <= i < |rows| ==> (r[i] <==> rows[i].counts.total > 0)
  {
    seq(|rows|, i requires 0 <= i < |rows| => rows[i].counts.total > 0)
  }

  /**
   * The statistics of a file as a function of its rows: the learning, review
   * and relearn column sums, the number of rows with a positive total, the
   * honest work (learning plus review) and the day count.
   */
  function StatisticsOf(rows: seq<CsvRow>, rowsProcessed: nat): (s: HonestStats)
    ensures s.totalHonestWork == s.totalLearning + s.totalReview
    ensures s.daysWithWork <= |rows| && s.totalDays == rowsProcessed
    ensures s.daysWithWork == 0 <==> forall i :: 0 <= i < |rows| ==> rows[i].counts.total <= 0
  {
    var cs := RowCounts(rows);
    var l := Sum(Learnings(cs));
    var r := Sum(Reviews(cs));
    HonestStats(l, r, Sum(Relearns(cs)), CountTrue(HasWork(rows)), l + r, rowsProcessed)
  }

  /**
   * The accumulator loop over the rewritten rows: the three column sums, the
   * days with a positive total, then the honest work and the day count
   * (`rows_processed` from the rewrite).
   */
  method Statistics(rows: seq<CsvRow>, rowsProcessed: nat) returns (s: HonestStats)
    ensures s == StatisticsOf(rows, rowsProcessed)
  {
    var totalLearning, totalReview, totalRelearn := 0, 0, 0;
    var daysWithWork: nat := 0;
    for i := 0 to |rows|
      invariant var p := StatisticsOf(rows[..i], rowsProcessed);
                totalLearning == p.totalLearning && totalReview == p.totalReview
                && totalRelearn == p.totalRelearn && daysWithWork == p.daysWithWork
    {
      StatisticsStep(rows, i, rowsProcessed);
      var row := rows[i];
      totalLearning := totalLearning + row.counts.learning;
      totalReview := totalReview + row.counts.review;
      totalRelearn := totalRelearn + row.counts.relearn;
      if row.counts.total > 0 {
        daysWithWork := daysWithWork + 1;
      }
    }
    assert rows[..|rows|] == rows;
    s := HonestStats(totalLearning, totalReview, totalRelearn, daysWithWork,
                     totalLearning + totalReview, rowsProcessed);
  }

  /** One more row adds its counters to the sums and its work flag to the count. */
  lemma StatisticsStep(rows: seq<CsvRow>, i: nat, rowsProcessed: nat)
    requires i < |rows|
    ensures var c, p, q := rows[i].counts, StatisticsOf(rows[..i], rowsProcessed), StatisticsOf(rows[..i + 1], rowsProcessed);
            && q.totalLearning == p.totalLearning + c.learning
            && q.totalReview == p.totalReview + c.review
            && q.totalRelearn == p.totalRelearn + c.relearn
            && q.daysWithWork == p.daysWithWork + (if c.total > 0 then 1 else 0)
  {
    var cs, cp := RowCounts(rows[..i + 1]), RowCounts(rows[..i]);
    assert Learnings(cs)[..i] == Learnings(cp);
    assert Reviews(cs)[..i] == Reviews(cp);
    assert Relearns(cs)[..i] == Relearns(cp);
    assert HasWork(rows[..i + 1])[..i] == HasWork(rows[..i]);
  }

  lemma {:induction false} SumHonestTotals(rows: seq<CsvRow>)
    ensures var cs := RowCounts(HonestRows(rows));
            Sum(Totals(cs)) == Sum(Learnings(cs)) + Sum(Reviews(cs))
    decreases |rows|
  {
    if rows != [] {
      var p := rows[..|rows| - 1];
      var cs := RowCounts(HonestRows(rows));
      var cp := RowCounts(HonestRows(p));
      assert Totals(cs)[..|rows| - 1] == Totals(cp);
      assert Learnings(cs)[..|rows| - 1] == Learnings(cp);
      assert Reviews(cs)[..|rows| - 1] == Reviews(cp);
      SumHonestTotals(p);
    }
  }

  /**
   * Over the file the rewrite produced: the honest work is the sum of the
   * written total column, the learning and review sums are those of the input,
   * every day is counted once, and no more days have work than there are days.
   */
  lemma StatisticsOfRewrite(rows: seq<CsvRow>)
    ensures var out := HonestRows(rows);
            var s := StatisticsOf(out, |rows|);
            && s.totalHonestWork == Sum(Totals(RowCounts(out)))
            && s.totalLearning == Sum(Learnings(RowCounts(rows)))
            && s.totalReview == Sum(Reviews(RowCounts(rows)))
            && s.totalRelearn == Sum(Relearns(RowCounts(rows)))
            && s.daysWithWork <= s.totalDays == |rows|
  {
    var out := HonestRows(rows);
    SumHonestTotals(rows);
    assert Learnings(RowCounts(out)) == Learnings(RowCounts(rows));
    assert Reviews(RowCounts(out)) == Reviews(RowCounts(rows));
    assert Relearns(RowCounts(out)) == Relearns(RowCounts(rows));
  }

  /**
   * The two averages printed last. Neither division is guarded: with no rows
   * the first, and with no day of work the second, raises `ZeroDivisionError`
   * and the script stops; `None` stands for that failure.
   */
  function Averages(s: HonestStats): (r: Option<(real, real)>)
    ensures r.None? <==> s.totalDays == 0 || s.daysWithWork == 0
    ensures r.Some? ==>
              r.value.0 * (s.totalDays as real) == s.totalHonestWork as real
              && r.value.1 * (s.daysWithWork as real) == s.totalHonestWork as real
  {
    if s.totalDays == 0 || s.daysWithWork == 0 then None
    else
      var all := (s.totalHonestWork as real) / (s.totalDays as real);
      var active := (s.totalHonestWork as real) / (s.daysWithWork as real);
      Some((all, active))
  }

  /**
   * The averages fail on a file of rows none of which has any learning or
   * review work, even though every row was rewritten: a single all-relearn day
   * is enough.
   */
  lemma AveragesFailWithoutWork()
    ensures var rows := [CsvRow("2023-06-11", Counts(0, 0, 3, 3))];
            var s := StatisticsOf(HonestRows(rows), |rows|);
            s.totalDays == 1 && Averages(s).None?
  {
    var rows := [CsvRow("2023-06-11", Counts(0, 0, 3, 3))];
    var out := HonestRows(rows);
    assert HasWork(out) == [false];
  }

  /** With non-negative counters, the averages exist exactly when some row has work. */
  lemma AveragesDefined(rows: seq<CsvRow>)
    requires rows != []
    requires forall i :: 0 <= i < |rows| ==> NonNegative(rows[i].counts)
    ensures var s := StatisticsOf(HonestRows(rows), |rows|);
            Averages(s).Some? <==> exists i :: 0 <= i < |rows| && rows[i].counts.learning + rows[i].counts.review > 0
  {
    var out := HonestRows(rows);
    var s := StatisticsOf(out, |rows|);
    if s.daysWithWork == 0 {
      forall i | 0 <= i < |rows|
        ensures rows[i].counts.learning + rows[i].counts.review <= 0
      {
        assert !HasWork(out)[i];
      }
    } else {
      var i :| 0 <= i < |out| && HasWork(out)[i];
      assert rows[i].counts.learning + rows[i].counts.review > 0;
    }
  }
}
