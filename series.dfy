/**
 * Integer series shared by every stage of the pipeline: the four per-day
 * card counters, sums of integer columns, and counts of true flags.
 */
module Series {

  datatype Option<T> = None | Some(value: T)

  /** The four counters every table in the pipeline carries per day (or per group). */
  datatype Counts = Counts(learning: int, review: int, relearn: int, total: int)

  const Zero: Counts := Counts(0, 0, 0, 0)

  /** All four counters are non-negative, as the review log guarantees. */
  predicate NonNegative(c: Counts) {
    c.learning >= 0 && c.review >= 0 && c.relearn >= 0 && c.total >= 0
  }

  /**
   * The total counts every review of the three kept kinds (learning, review,
   * relearn), as the export query's `COUNT(*)` over `type IN (0, 1, 2)` does.
   */
  predicate Balanced(c: Counts) {
    c.total == c.learning + c.review + c.relearn
  }

  /** Sum of an integer column, folded from the left (the last element is added last). */
  function Sum(s: seq<int>): int {
    if s == [] then 0 else Sum(s[..|s| - 1]) + s[|s| - 1]
  }

  /** Number of true entries of a boolean column. */
  function CountTrue(s: seq<bool>): (n: nat)
    ensures n <= |s|
    ensures n == |s| <==> forall i :: 0 <= i < |s| ==> s[i]
    ensures n == 0 <==> forall i :: 0 <= i < |s| ==> !s[i]
  {
    if s == [] then 0
    else
      var p := s[..|s| - 1];
      assert forall i :: 0 <= i < |p| ==> p[i] == s[i];
      CountTrue(p) + (if s[|s| - 1] then 1 else 0)
  }

  /** A boolean column read as 0/1 integers, as pandas sums a bool column. */
  function AsInts(s: seq<bool>): (r: seq<int>)
    ensures |r| == |s|
    ensures forall i :: 0 <= i < |s| ==> r[i] == if s[i] then 1 else 0
  {
    seq(|s|, i requires 0 <= i < |s| => if s[i] then 1 else 0)
  }

  lemma {:induction false} SumAppend(a: seq<int>, b: seq<int>)
    ensures Sum(a + b) == Sum(a) + Sum(b)
    decreases |b|
  {
    if b == [] {
      assert a + b == a;
    } else {
      var b' := b[..|b| - 1];
      assert (a + b)[..|a + b| - 1] == a + b';
      SumAppend(a, b');
    }
  }

  lemma {:induction false} SumNonNegative(s: seq<int>)
    requires forall i :: 0 <= i < |s| ==> s[i] >= 0
    ensures Sum(s) >= 0
    decreases |s|
  {
    if s != [] {
      SumNonNegative(s[..|s| - 1]);
    }
  }

  /** Summing a flag column as integers counts its true entries. */
  lemma {:induction false} SumAsIntsIsCount(s: seq<bool>)
    ensures Sum(AsInts(s)) == CountTrue(s)
    decreases |s|
  {
    if s != [] {
      var p := s[..|s| - 1];
      assert AsInts(s)[..|s| - 1] == AsInts(p);
      SumAsIntsIsCount(p);
    }
  }

  function Learnings(cs: seq<Counts>): (r: seq<int>)
    ensures |r| == |cs| && forall i :: 0 <= i < |cs| ==> r[i] == cs[i].learning
  {
    seq(|cs|, i requires 0 <= i < |cs| => cs[i].learning)
  }

  function Reviews(cs: seq<Counts>): (r: seq<int>)
    ensures |r| == |cs| && forall i :: 0 <= i < |cs| ==> r[i] == cs[i].review
  {
    seq(|cs|, i requires 0 <= i < |cs| => cs[i].review)
  }

  function Relearns(cs: seq<Counts>): (r: seq<int>)
    ensures |r| == |cs| && forall i :: 0 <= i < |cs| ==> r[i] == cs[i].relearn
  {
    seq(|cs|, i requires 0 <= i < |cs| => cs[i].relearn)
  }

  function Totals(cs: seq<Counts>): (r: seq<int>)
    ensures |r| == |cs| && forall i :: 0 <= i < |cs| ==> r[i] == cs[i].total
  {
    seq(|cs|, i requires 0 <= i < |cs| => cs[i].total)
  }

  /** Column-wise sum of a table of counters. */
  function SumCounts(cs: seq<Counts>): Counts {
    Counts(Sum(Learnings(cs)), Sum(Reviews(cs)), Sum(Relearns(cs)), Sum(Totals(cs)))
  }
}
