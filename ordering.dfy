/**
 * The order of the bars in the chart: the mean calories of each category
 * (`groupby("Category")[...].mean()`), sorted ascending (`sort_values()`), and
 * the category labels read off in that order (`index.tolist()`).
 */
module Ordering {
  import opened Stats
  import opened Records
  import opened Anomaly

  /** The mean calories of one category; defined for the categories present. */
  function CategoryMean(rows: seq<Record>, c: string): real
    requires HasCategory(rows, c)
  {
    GroupNonEmpty(rows, c);
    Mean(CategoryCalories(rows, c))
  }

  /** The per-category means, indexed by category label, as a map. */
  function CategoryMeans(rows: seq<Record>): (m: map<string, real>)
    ensures forall c :: c in m <==> HasCategory(rows, c)
  {
    var ks := GroupKeys(rows);
    map c | c in ks :: CategoryMean(rows, c)
  }

  /** Every key of `ks` has a value in `m`. */
  predicate Indexed(m: map<string, real>, ks: seq<string>) {
    forall k :: k in ks ==> k in m
  }

  /** The keys are in nondecreasing order of their values. */
  predicate SortedByValue(m: map<string, real>, ks: seq<string>)
    requires Indexed(m, ks)
  {
    forall i, j :: 0 <= i < j < |ks| ==> m[ks[i]] <= m[ks[j]]
  }

  /** Inserts key `k` before the first key whose value is not smaller. */
  function InsertByValue(m: map<string, real>, k: string, ks: seq<string>): (r: seq<string>)
    requires k in m && Indexed(m, ks) && SortedByValue(m, ks)
    ensures multiset(r) == multiset(ks) + multiset{k}
    ensures Indexed(m, r) && SortedByValue(m, r)
  {
    if ks == [] then [k]
    else if m[k] <= m[ks[0]] then [k] + ks
    else
      var rest := InsertByValue(m, k, ks[1..]);
      InsertedAfterHead(m, k, ks, rest);
      [ks[0]] + rest
  }

  /** Putting the head of `ks` in front of the insertion into its tail keeps the order. */
  lemma {:induction false} InsertedAfterHead(m: map<string, real>, k: string, ks: seq<string>, rest: seq<string>)
    requires k in m && Indexed(m, ks) && SortedByValue(m, ks)
    requires ks != [] && m[ks[0]] < m[k]
    requires multiset(rest) == multiset(ks[1..]) + multiset{k}
    requires Indexed(m, rest) && SortedByValue(m, rest)
    ensures multiset([ks[0]] + rest) == multiset(ks) + multiset{k}
    ensures Indexed(m, [ks[0]] + rest) && SortedByValue(m, [ks[0]] + rest)
  {
    assert ks == [ks[0]] + ks[1..];
    var r := [ks[0]] + rest;
    forall j | 0 < j < |r| ensures m[ks[0]] <= m[r[j]] {
      var x := r[j];
      assert x == rest[j - 1];
      assert multiset(rest)[x] > 0;
      if x != k {
        assert x in ks[1..];
        var t :| 0 <= t < |ks[1..]| && ks[1..][t] == x;
        assert ks[t + 1] == x;
      }
    }
    forall i, j | 0 <= i < j < |r| ensures m[r[i]] <= m[r[j]] {
      if i > 0 {
        assert r[i] == rest[i - 1] && r[j] == rest[j - 1];
      }
    }
  }

  /**
   * Sorts keys by value, ascending, as `sort_values()` orders a Series; keys of
   * equal value keep their input order (pandas leaves the order of ties open).
   */
  function SortByValue(m: map<string, real>, ks: seq<string>): (r: seq<string>)
    requires Indexed(m, ks)
    ensures multiset(r) == multiset(ks)
    ensures Indexed(m, r) && SortedByValue(m, r)
  {
    if ks == [] then []
    else
      assert ks == [ks[0]] + ks[1..];
      InsertByValue(m, ks[0], SortByValue(m, ks[1..]))
  }

  /** The category labels in chart order: ascending mean calories. */
  function ChartOrder(rows: seq<Record>): (order: seq<string>)
    ensures multiset(order) == multiset(GroupKeys(rows))
  {
    var m := CategoryMeans(rows);
    var ks := GroupKeys(rows);
    SortByValue(m, ks)
  }

  /** The chart shows each category present exactly once, and nothing else. */
  lemma {:induction false} ChartOrderListsEachCategoryOnce(rows: seq<Record>)
    ensures forall c :: c in ChartOrder(rows) <==> HasCategory(rows, c)
    ensures forall c :: multiset(ChartOrder(rows))[c] <= 1
  {
    var order := ChartOrder(rows);
    var ks := GroupKeys(rows);
    forall c ensures c in order <==> c in ks {
      assert c in order <==> multiset(order)[c] > 0;
      assert c in ks <==> multiset(ks)[c] > 0;
    }
    forall c ensures multiset(order)[c] <= 1 {
      AscendingOccursOnce(ks, c);
    }
  }

  /** Along the chart the category means never decrease. */
  lemma {:induction false} ChartOrderAscendingMeans(rows: seq<Record>)
    ensures forall c :: c in ChartOrder(rows) ==> HasCategory(rows, c)
    ensures var order := ChartOrder(rows);
      forall i, j :: 0 <= i < j < |order| ==> CategoryMean(rows, order[i]) <= CategoryMean(rows, order[j])
  {
    var m := CategoryMeans(rows);
    var ks := GroupKeys(rows);
    var order := SortByValue(m, ks);
    assert forall c :: c in m ==> m[c] == CategoryMean(rows, c);
    forall i, j | 0 <= i < j < |order|
      ensures CategoryMean(rows, order[i]) <= CategoryMean(rows, order[j])
    {
      assert order[i] in m && order[j] in m;
    }
  }
}
