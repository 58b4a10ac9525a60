/**
 * Group sums over a keyed integer column: the cell `groupby(key)[col].sum()`
 * (or a pivot-table cell) for one key, the list of such cells for a list of
 * keys, and the fact that grouping neither loses nor double-counts a row.
 */
module Grouping {
  import opened Series

  predicate Distinct<K(==)>(ks: seq<K>) {
    forall i, j :: 0 <= i < j < |ks| ==> ks[i] != ks[j]
  }

  /** Sum of `vals[i]` over the rows `i` whose key is `k`. */
  function GroupSum<K(==)>(keys: seq<K>, vals: seq<int>, k: K): (r: int)
    requires |keys| == |vals|
    ensures (forall i :: 0 <= i < |keys| ==> keys[i] == k) ==> r == Sum(vals)
  {
    if keys == [] then 0
    else
      GroupSum(keys[..|keys| - 1], vals[..|vals| - 1], k)
      + (if keys[|keys| - 1] == k then vals[|vals| - 1] else 0)
  }

  /** One group sum per key of `ks`, in the order of `ks`. */
  function GroupSums<K(==)>(keys: seq<K>, vals: seq<int>, ks: seq<K>): (r: seq<int>)
    requires |keys| == |vals|
    ensures |r| == |ks|
    ensures forall j :: 0 <= j < |ks| ==> r[j] == GroupSum(keys, vals, ks[j])
  {
    seq(|ks|, j requires 0 <= j < |ks| => GroupSum(keys, vals, ks[j]))
  }

  /** Adding one row changes exactly the group of its key, by its value. */
  lemma GroupSumAddRow<K>(keys: seq<K>, vals: seq<int>, k': K, v: int, k: K)
    requires |keys| == |vals|
    ensures GroupSum(keys + [k'], vals + [v], k)
         == GroupSum(keys, vals, k) + (if k' == k then v else 0)
  {
    assert (keys + [k'])[..|keys|] == keys;
    assert (vals + [v])[..|vals|] == vals;
  }

  /** A key that no row carries gets 0 (the pivot's `fill_value=0`). */
  lemma {:induction false} GroupSumAbsent<K>(keys: seq<K>, vals: seq<int>, k: K)
    requires |keys| == |vals|
    requires k !in keys
    ensures GroupSum(keys, vals, k) == 0
    decreases |keys|
  {
    if keys != [] {
      var p := keys[..|keys| - 1];
      assert forall x :: x in p ==> x in keys;
      GroupSumAbsent(p, vals[..|vals| - 1], k);
    }
  }

  /** With non-negative values a group sum lies between 0 and the column sum. */
  lemma {:induction false} GroupSumBounds<K>(keys: seq<K>, vals: seq<int>, k: K)
    requires |keys| == |vals|
    requires forall i :: 0 <= i < |vals| ==> vals[i] >= 0
    ensures 0 <= GroupSum(keys, vals, k) <= Sum(vals)
    decreases |keys|
  {
    if keys != [] {
      GroupSumBounds(keys[..|keys| - 1], vals[..|vals| - 1], k);
    }
  }

  lemma {:induction false} SumGroupSumsNoRows<K>(ks: seq<K>)
    ensures Sum(GroupSums([], [], ks)) == 0
    decreases |ks|
  {
    if ks != [] {
      var p := ks[..|ks| - 1];
      assert GroupSums([], [], ks)[..|ks| - 1] == GroupSums([], [], p);
      SumGroupSumsNoRows(p);
    }
  }

  /** Over distinct keys, one more row adds its value once if its key is listed. */
  lemma {:induction false} SumGroupSumsAddRow<K>(keys: seq<K>, vals: seq<int>, k': K, v: int, ks: seq<K>)
    requires |keys| == |vals|
    requires Distinct(ks)
    ensures Sum(GroupSums(keys + [k'], vals + [v], ks))
         == Sum(GroupSums(keys, vals, ks)) + (if k' in ks then v else 0)
    decreases |ks|
  {
    if ks != [] {
      var p := ks[..|ks| - 1];
      var last := ks[|ks| - 1];
      assert GroupSums(keys + [k'], vals + [v], ks)[..|ks| - 1] == GroupSums(keys + [k'], vals + [v], p);
      assert GroupSums(keys, vals, ks)[..|ks| - 1] == GroupSums(keys, vals, p);
      SumGroupSumsAddRow(keys, vals, k', v, p);
      GroupSumAddRow(keys, vals, k', v, last);
      assert ks == p + [last];
      assert k' in ks <==> k' in p || k' == last;
      assert last !in p;
    }
  }

  /**
   * Grouping preserves the column total: when every row's key occurs exactly
   * once among `ks`, the group sums add up to the column sum.
   */
  lemma {:induction false} GroupSumsTotal<K>(keys: seq<K>, vals: seq<int>, ks: seq<K>)
    requires |keys| == |vals|
    requires Distinct(ks)
    requires forall i :: 0 <= i < |keys| ==> keys[i] in ks
    ensures Sum(GroupSums(keys, vals, ks)) == Sum(vals)
    decreases |keys|
  {
    if keys == [] {
      SumGroupSumsNoRows(ks);
    } else {
      var n := |keys| - 1;
      var p, q := keys[..n], vals[..n];
      assert keys == p + [keys[n]] && vals == q + [vals[n]];
      GroupSumsTotal(p, q, ks);
      SumGroupSumsAddRow(p, q, keys[n], vals[n], ks);
    }
  }
}
