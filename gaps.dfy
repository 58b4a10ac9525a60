/**
 * Gap detection in the dashboard table (`find_gaps` in
 * dashboard/data_loader.py): a left-to-right scan carrying an open gap's start
 * and length, emitting each maximal run of inactive rows that is long enough.
 */
module GapDetection {
  import opened Series
  import opened DataLoader

  /** One reported gap: first and last inactive date and the number of rows. */
  datatype Gap = Gap(start: int, end: int, length: nat)

  /** A run of rows by position: rows `start .. start + length - 1`. */
  datatype Run = Run(start: nat, length: nat)

  /** One past the last row of a run. */
  function RunEnd(r: Run): nat {
    r.start + r.length
  }

  /**
   * `r` is a maximal run of inactive rows: it is non-empty, every row in it is
   * inactive, and the rows just before and just after it (where they exist)
   * are active.
   */
  ghost predicate MaximalInactiveRun(active: seq<bool>, r: Run) {
    && 1 <= r.length
    && RunEnd(r) <= |active|
    && (forall j :: r.start <= j < RunEnd(r) ==> !active[j])
    && (r.start == 0 || active[r.start - 1])
    && (RunEnd(r) == |active| || active[RunEnd(r)])
  }

  /** A run that `find_gaps` reports: maximal and at least `minGapDays` long. */
  ghost predicate GapRun(active: seq<bool>, r: Run, minGapDays: int) {
    MaximalInactiveRun(active, r) && r.length >= minGapDays
  }

  /** The gap record for a run: dates of its first and last rows, and its length. */
  function GapOf(days: seq<Day>, r: Run): Gap
    requires 1 <= r.length && RunEnd(r) <= |days|
  {
    Gap(days[r.start].date, days[RunEnd(r) - 1].date, r.length)
  }

  /** `gaps` are the records of `runs`, one for one. */
  ghost predicate Reported(days: seq<Day>, gaps: seq<Gap>, runs: seq<Run>) {
    && |gaps| == |runs|
    && forall j :: 0 <= j < |runs| ==>
         1 <= runs[j].length && RunEnd(runs[j]) <= |days| && gaps[j] == GapOf(days, runs[j])
  }

  /** Reporting one more run appends its record. */
  lemma ReportedAppend(days: seq<Day>, gaps: seq<Gap>, runs: seq<Run>, r: Run)
    requires Reported(days, gaps, runs)
    requires 1 <= r.length && RunEnd(r) <= |days|
    ensures Reported(days, gaps + [GapOf(days, r)], runs + [r])
  {
  }

  /** The runs are in row order, each one ending before the next one starts. */
  ghost predicate Separated(runs: seq<Run>) {
    forall i, j :: 0 <= i < j < |runs| ==> RunEnd(runs[i]) < runs[j].start
  }

  /**
   * The state of the scan after the rows before `idx`: `runs` are the gaps
   * that ended before `idx` (all of them, in order), and when `open` the rows
   * `startRow .. idx - 1` are the inactive run still being measured.
   */
  ghost predicate Scanned(active: seq<bool>, minGapDays: int, runs: seq<Run>,
                          idx: nat, open: bool, startRow: nat, len: nat) {
    && idx <= |active|
    && (forall r :: r in runs ==> GapRun(active, r, minGapDays) && RunEnd(r) < idx)
    && Separated(runs)
    && (open ==>
          && startRow + len == idx && len >= 1
          && (startRow == 0 || active[startRow - 1])
          && (forall j :: startRow <= j < idx ==> !active[j])
          && (forall j :: 0 <= j < |runs| ==> RunEnd(runs[j]) < startRow))
    && (!open ==> len == 0 && (idx == 0 || active[idx - 1]))
    && (forall r :: GapRun(active, r, minGapDays) && RunEnd(r) < idx ==> r in runs)
  }

  /** The runs after the open gap, if any, is closed and is long enough. */
  function Close(runs: seq<Run>, open: bool, startRow: nat, len: nat, minGapDays: int): seq<Run> {
    if open && len >= minGapDays then runs + [Run(startRow, len)] else runs
  }

  /** An inactive row opens a gap or extends the open one. */
  lemma ScanInactive(active: seq<bool>, minGapDays: int, runs: seq<Run>,
                     idx: nat, open: bool, startRow: nat, len: nat)
    requires Scanned(active, minGapDays, runs, idx, open, startRow, len)
    requires idx < |active| && !active[idx]
    ensures Scanned(active, minGapDays, runs, idx + 1, true, if open then startRow else idx, len + 1)
  {
    forall r | GapRun(active, r, minGapDays) && RunEnd(r) < idx + 1
      ensures r in runs
    {
      assert RunEnd(r) != idx;
    }
  }

  /** An active row closes the open gap, reporting it when it is long enough. */
  lemma ScanActive(active: seq<bool>, minGapDays: int, runs: seq<Run>,
                   idx: nat, open: bool, startRow: nat, len: nat)
    requires Scanned(active, minGapDays, runs, idx, open, startRow, len)
    requires idx < |active| && active[idx]
    ensures Scanned(active, minGapDays, Close(runs, open, startRow, len, minGapDays), idx + 1, false, startRow, 0)
  {
    var runs' := Close(runs, open, startRow, len, minGapDays);
    if open && len >= minGapDays {
      assert MaximalInactiveRun(active, Run(startRow, len));
    }
    forall r | GapRun(active, r, minGapDays) && RunEnd(r) < idx + 1
      ensures r in runs'
    {
      if RunEnd(r) == idx {
        SameRunEndSameStart(active, r, open, startRow, idx);
        assert r == Run(startRow, len);
      }
    }
  }

  /**
   * What `find_gaps` returns: the records of exactly the maximal inactive runs
   * of at least `minGapDays` rows, in row order, consecutive ones separated by
   * an active row.
   */
  ghost predicate GapsFound(days: seq<Day>, active: seq<bool>, minGapDays: int, gaps: seq<Gap>, runs: seq<Run>) {
    && Reported(days, gaps, runs)
    && (forall r :: r in runs <==> GapRun(active, r, minGapDays))
    && (forall i, j :: 0 <= i < j < |runs| ==>
          RunEnd(runs[i]) < runs[j].start && RunEnd(runs[i]) < |active| && active[RunEnd(runs[i])])
  }

  /** After the last row the open gap is closed in the same way, and the scan is complete. */
  lemma ScanEnd(days: seq<Day>, active: seq<bool>, minGapDays: int, gaps: seq<Gap>, runs: seq<Run>,
                open: bool, startRow: nat, len: nat)
    requires |active| == |days|
    requires Scanned(active, minGapDays, runs, |active|, open, startRow, len)
    requires Reported(days, gaps, runs)
    ensures open && len >= minGapDays ==>
              GapsFound(days, active, minGapDays, gaps + [GapOf(days, Run(startRow, len))], runs + [Run(startRow, len)])
    ensures !(open && len >= minGapDays) ==> GapsFound(days, active, minGapDays, gaps, runs)
  {
    var runs' := Close(runs, open, startRow, len, minGapDays);
    if open && len >= minGapDays {
      assert MaximalInactiveRun(active, Run(startRow, len));
      ReportedAppend(days, gaps, runs, Run(startRow, len));
    }
    forall r | GapRun(active, r, minGapDays)
      ensures r in runs'
    {
      if RunEnd(r) == |active| {
        SameRunEndSameStart(active, r, open, startRow, |active|);
        assert r == Run(startRow, len);
      }
    }
  }

  /**
   * A maximal inactive run ending just before `end` is the scan's open gap:
   * there is one, and it starts where the run does.
   */
  lemma SameRunEndSameStart(active: seq<bool>, r: Run, open: bool, startRow: nat, end: nat)
    requires MaximalInactiveRun(active, r) && RunEnd(r) == end
    requires open ==> startRow < end && (startRow == 0 || active[startRow - 1])
                      && (forall j :: startRow <= j < end ==> !active[j])
    requires !open ==> end == 0 || active[end - 1]
    ensures open && r.start == startRow
  {
    assert !active[end - 1];
    assert startRow <= r.start;
    assert r.start <= startRow;
  }

  /**
   * The loop state of `find_gaps` after a number of rows: the gaps reported so
   * far, the open gap's start date and length, and (for the proofs) the rows
   * of the reported gaps and the first row of the open gap.
   */
  datatype ScanState = ScanState(gaps: seq<Gap>, runs: seq<Run>, open: Option<int>, startRow: nat, len: nat)

  /**
   * The state after the first `n` rows. An inactive row opens a gap at its
   * date or extends the open one; an active row reports the open gap when it
   * has at least `minGapDays` rows, with the previous row's date as its end,
   * and closes it.
   */
  function Scan(days: seq<Day>, active: seq<bool>, minGapDays: int, n: nat): (st: ScanState)
    requires |active| == |days| && n <= |days|
    ensures st.open.Some? ==> 1 <= st.len && st.startRow + st.len == n && st.open.value == days[st.startRow].date
    ensures st.open.None? ==> st.len == 0
    decreases n
  {
    if n == 0 then ScanState([], [], None, 0, 0)
    else
      var st := Scan(days, active, minGapDays, n - 1);
      var idx := n - 1;
      if !active[idx] then
        if st.open.None? then st.(open := Some(days[idx].date), startRow := idx, len := 1)
        else st.(len := st.len + 1)
      else if st.open.Some? && st.len >= minGapDays then
        ScanState(st.gaps + [Gap(st.open.value, days[idx - 1].date, st.len)], st.runs + [Run(st.startRow, st.len)],
                  None, st.startRow, 0)
      else st.(open := None, len := 0)
  }

  /** The check after the loop: a gap still open at the last row is reported when long enough. */
  function Finish(days: seq<Day>, active: seq<bool>, minGapDays: int): (st: ScanState)
    requires |active| == |days|
    ensures var s := Scan(days, active, minGapDays, |days|);
            && |s.gaps| <= |st.gaps| && st.gaps[..|s.gaps|] == s.gaps
            && (|st.gaps| == |s.gaps| + 1 <==> s.open.Some? && s.len >= minGapDays)
            && (|st.gaps| == |s.gaps| + 1 ==>
                  st.gaps[|s.gaps|] == Gap(days[s.startRow].date, days[|days| - 1].date, s.len))
            && (|st.gaps| != |s.gaps| + 1 ==> st.gaps == s.gaps)
  {
    var st := Scan(days, active, minGapDays, |days|);
    if st.open.Some? && st.len >= minGapDays then
      st.(gaps := st.gaps + [Gap(st.open.value, days[|days| - 1].date, st.len)],
          runs := st.runs + [Run(st.startRow, st.len)])
    else st
  }

  /** The scan's state after `n` rows is described by `Scanned`, and its records by `Reported`. */
  ghost predicate ScanInvariant(days: seq<Day>, active: seq<bool>, minGapDays: int, n: nat)
    requires |active| == |days| && n <= |days|
  {
    var st := Scan(days, active, minGapDays, n);
    Scanned(active, minGapDays, st.runs, n, st.open.Some?, st.startRow, st.len)
    && Reported(days, st.gaps, st.runs)
  }

  /** One row of the scan keeps the invariant. */
  lemma ScanStep(days: seq<Day>, active: seq<bool>, minGapDays: int, idx: nat)
    requires |active| == |days| && idx < |days|
    requires ScanInvariant(days, active, minGapDays, idx)
    ensures ScanInvariant(days, active, minGapDays, idx + 1)
  {
    var st := Scan(days, active, minGapDays, idx);
    var st' := Scan(days, active, minGapDays, idx + 1);
    if !active[idx] {
      ScanInactive(active, minGapDays, st.runs, idx, st.open.Some?, st.startRow, st.len);
      assert st'.gaps == st.gaps && st'.runs == st.runs && st'.open.Some?;
      assert st'.startRow == (if st.open.Some? then st.startRow else idx) && st'.len == st.len + 1;
    } else {
      ScanActive(active, minGapDays, st.runs, idx, st.open.Some?, st.startRow, st.len);
      assert st'.runs == Close(st.runs, st.open.Some?, st.startRow, st.len, minGapDays);
      assert st'.open.None? && st'.len == 0;
      if st.open.Some? && st.len >= minGapDays {
        ReportedAppend(days, st.gaps, st.runs, Run(st.startRow, st.len));
      }
    }
  }

  /** After any number of rows the scan is in the state that `Scanned` describes. */
  lemma {:induction false} ScanIsScanned(days: seq<Day>, active: seq<bool>, minGapDays: int, n: nat)
    requires |active| == |days| && n <= |days|
    ensures ScanInvariant(days, active, minGapDays, n)
    decreases n
  {
    if n > 0 {
      ScanIsScanned(days, active, minGapDays, n - 1);
      ScanStep(days, active, minGapDays, n - 1);
    }
  }

  /**
   * The scan finds exactly the gaps: the records of the maximal inactive runs
   * of at least `minGapDays` rows, in row order, consecutive ones separated by
   * an active row.
   */
  lemma FinishFindsGaps(days: seq<Day>, active: seq<bool>, minGapDays: int)
    requires |active| == |days|
    ensures GapsFound(days, active, minGapDays, Finish(days, active, minGapDays).gaps, Finish(days, active, minGapDays).runs)
  {
    var st := Scan(days, active, minGapDays, |days|);
    ScanIsScanned(days, active, minGapDays, |days|);
    assert Scanned(active, minGapDays, st.runs, |days|, st.open.Some?, st.startRow, st.len);
    ScanEnd(days, active, minGapDays, st.gaps, st.runs, st.open.Some?, st.startRow, st.len);
  }

  /**
   * `find_gaps(df, min_gap_days)`: the row loop and the check after it. The
   * result is the scan's, and so (with the runs the scan names) exactly the
   * records of the maximal inactive runs of at least `minGapDays` rows.
   */
  method FindGaps(days: seq<Day>, isActive: seq<bool>, minGapDays: int) returns (gaps: seq<Gap>)
    requires |isActive| == |days|
    ensures gaps == Finish(days, isActive, minGapDays).gaps
    ensures GapsFound(days, isActive, minGapDays, gaps, Finish(days, isActive, minGapDays).runs)
  {
    gaps := [];
    var currentGapStart: Option<int> := None;
    var gapLength: nat := 0;
    var idx := 0;
    while idx < |days|
      invariant idx <= |days|
      invariant var st := Scan(days, isActive, minGapDays, idx);
                gaps == st.gaps && currentGapStart == st.open && gapLength == st.len
    {
      if !isActive[idx] {
        if currentGapStart.None? {
          currentGapStart := Some(days[idx].date);
        }
        gapLength := gapLength + 1;
      } else {
        if currentGapStart.Some? && gapLength >= minGapDays {
          gaps := gaps + [Gap(currentGapStart.value, days[idx - 1].date, gapLength)];
        }
        currentGapStart := None;
        gapLength := 0;
      }
      idx := idx + 1;
    }
    if currentGapStart.Some? && gapLength >= minGapDays {
      gaps := gaps + [Gap(currentGapStart.value, days[|days| - 1].date, gapLength)];
    }
    FinishFindsGaps(days, isActive, minGapDays);
  }
}
