/**
 * Python's ordering of `str` values (code point by code point, a proper
 * prefix first) and the sorted, de-duplicated list of keys that both
 * `sorted(d.keys())` and a sorting `groupby` produce.
 */
module Ordering {

  /**
   * `a < b` on Python strings: a proper prefix is smaller, and no string is
   * smaller than one of its own prefixes.
   */
  predicate LexLess(a: string, b: string): (r: bool)
    ensures |a| < |b| && a == b[..|a|] ==> r
    ensures |b| <= |a| && b == a[..|b|] ==> !r
    decreases |a|
  {
    if |a| == 0 then |b| > 0
    else if |b| == 0 then false
    else if a[0] != b[0] then a[0] < b[0]
    else LexLess(a[1..], b[1..])
  }

  /** Past a common prefix, the first differing character decides. */
  lemma {:induction false} LexLessFirstDifference(a: string, b: string, k: nat)
    requires k < |a| && k < |b| && a[..k] == b[..k] && a[k] != b[k]
    ensures LexLess(a, b) <==> a[k] < b[k]
    decreases k
  {
    if k > 0 {
      assert a[0] == a[..k][0] && b[0] == b[..k][0];
      assert a[1..][..k - 1] == a[..k][1..] && b[1..][..k - 1] == b[..k][1..];
      LexLessFirstDifference(a[1..], b[1..], k - 1);
    }
  }

  lemma {:induction false} LexLessIrreflexive(a: string)
    ensures !LexLess(a, a)
    decreases |a|
  {
    if |a| > 0 {
      LexLessIrreflexive(a[1..]);
    }
  }

  lemma {:induction false} LexLessTransitive(a: string, b: string, c: string)
    requires LexLess(a, b) && LexLess(b, c)
    ensures LexLess(a, c)
    decreases |a|
  {
    if |a| > 0 && a[0] == b[0] && b[0] == c[0] {
      LexLessTransitive(a[1..], b[1..], c[1..]);
    }
  }

  lemma {:induction false} LexLessTrichotomy(a: string, b: string)
    ensures a == b || LexLess(a, b) || LexLess(b, a)
    ensures !(LexLess(a, b) && LexLess(b, a))
    decreases |a|
  {
    if |a| > 0 && |b| > 0 && a[0] == b[0] {
      LexLessTrichotomy(a[1..], b[1..]);
      if a[1..] == b[1..] {
        assert a == [a[0]] + a[1..] && b == [b[0]] + b[1..];
      }
    }
  }

  /** Comparing two concatenations whose first parts have equal length. */
  lemma {:induction false} LexLessConcat(a: string, b: string, c: string, d: string)
    requires |a| == |c|
    ensures LexLess(a + b, c + d) <==> LexLess(a, c) || (a == c && LexLess(b, d))
    decreases |a|
  {
    if |a| == 0 {
      assert a + b == b && c + d == d;
    } else {
      assert (a + b)[0] == a[0] && (c + d)[0] == c[0];
      assert (a + b)[1..] == a[1..] + b && (c + d)[1..] == c[1..] + d;
      LexLessConcat(a[1..], b, c[1..], d);
      if a[0] == c[0] && a[1..] == c[1..] {
        assert a == [a[0]] + a[1..] && c == [c[0]] + c[1..];
      }
      if a == c {
        assert a[1..] == c[1..];
      }
    }
  }

  /** Every earlier key is smaller than every later one (so no key repeats). */
  predicate StrictlyAscending(s: seq<string>) {
    forall i, j :: 0 <= i < j < |s| ==> LexLess(s[i], s[j])
  }

  lemma StrictlyAscendingDistinct(s: seq<string>, i: int, j: int)
    requires StrictlyAscending(s) && 0 <= i < |s| && 0 <= j < |s| && i != j
    ensures s[i] != s[j]
  {
    if i < j { LexLessIrreflexive(s[i]); } else { LexLessIrreflexive(s[j]); }
  }

  /** Adds `x` to a strictly ascending list of keys, keeping it strictly ascending. */
  function Insert(s: seq<string>, x: string): (r: seq<string>)
    requires StrictlyAscending(s)
    ensures StrictlyAscending(r)
    ensures forall y :: y in r <==> y in s || y == x
    ensures |r| == if x in s then |s| else |s| + 1
  {
    if s == [] then [x]
    else if x == s[0] then s
    else if LexLess(x, s[0]) then
      assert forall j :: 0 < j < |s| ==> LexLess(x, s[j]) by {
        forall j | 0 < j < |s| ensures LexLess(x, s[j]) {
          LexLessTransitive(x, s[0], s[j]);
        }
      }
      assert x !in s by {
        forall j | 0 <= j < |s| ensures s[j] != x {
          LexLessIrreflexive(x);
        }
      }
      [x] + s
    else
      LexLessTrichotomy(x, s[0]);
      var t := Insert(s[1..], x);
      assert x in s <==> x in s[1..] by {
        assert s == [s[0]] + s[1..];
      }
      assert forall j :: 0 <= j < |t| ==> LexLess(s[0], t[j]) by {
        forall j | 0 <= j < |t| ensures LexLess(s[0], t[j]) {
          assert t[j] in t;
        }
      }
      [s[0]] + t
  }

  /** Distinct keys of a column in ascending order: `sorted(set(keys))`. */
  function SortedKeys(keys: seq<string>): (r: seq<string>)
    ensures StrictlyAscending(r)
    ensures forall k :: k in r <==> k in keys
  {
    if keys == [] then []
    else
      var p := keys[..|keys| - 1];
      assert keys == p + [keys[|keys| - 1]];
      Insert(SortedKeys(p), keys[|keys| - 1])
  }
}
