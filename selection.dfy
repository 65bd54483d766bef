/**
 * One example anomaly per category: `df[df["Anomaly"]].groupby("Category").first()`
 * keeps the flagged rows, groups them by category in ascending key order and
 * takes the first row of each group.  The chart then looks each of its
 * categories up among these examples.
 */
module Selection {
  import opened Wrappers
  import opened Text
  import opened Records
  import opened Anomaly
  import opened Ordering

  /** The rows whose flag is set, in their original order (boolean-mask indexing). */
  function Masked(rows: seq<Record>, flags: seq<bool>): (kept: seq<Record>)
    requires |flags| == |rows|
    ensures |kept| <= |rows|
  {
    if rows == [] then []
    else if flags[0] then [rows[0]] + Masked(rows[1..], flags[1..])
    else Masked(rows[1..], flags[1..])
  }

  /** A category survives the mask exactly when one of its rows is flagged. */
  lemma {:induction false} MaskedHasCategory(rows: seq<Record>, flags: seq<bool>, c: string)
    requires |flags| == |rows|
    ensures HasCategory(Masked(rows, flags), c) <==>
      exists k :: 0 <= k < |rows| && flags[k] && rows[k].category == c
  {
    if rows != [] {
      var kept := Masked(rows, flags);
      var tail := Masked(rows[1..], flags[1..]);
      MaskedHasCategory(rows[1..], flags[1..], c);
      if flags[0] {
        assert kept == [rows[0]] + tail;
        if HasCategory(kept, c) && rows[0].category != c {
          var i :| 0 <= i < |kept| && kept[i].category == c;
          assert tail[i - 1].category == c;
        }
        if HasCategory(tail, c) {
          var i :| 0 <= i < |tail| && tail[i].category == c;
          assert kept[i + 1].category == c;
        }
        if rows[0].category == c {
          assert kept[0].category == c;
        }
      }
      if exists k :: 0 <= k < |rows| && flags[k] && rows[k].category == c {
        var k :| 0 <= k < |rows| && flags[k] && rows[k].category == c;
        if k > 0 {
          assert flags[1..][k - 1] && rows[1..][k - 1].category == c;
        }
      }
      if exists k :: 0 <= k < |rows[1..]| && flags[1..][k] && rows[1..][k].category == c {
        var k :| 0 <= k < |rows[1..]| && flags[1..][k] && rows[1..][k].category == c;
        assert flags[k + 1] && rows[k + 1].category == c;
      }
    }
  }

  /**
   * The first row of category `c` among the flagged rows is the earliest
   * flagged row of `c` in the original order.
   */
  lemma {:induction false} MaskedGroupHead(rows: seq<Record>, flags: seq<bool>, c: string)
    requires |flags| == |rows|
    requires Group(Masked(rows, flags), c) != []
    ensures exists k ::
              && 0 <= k < |rows| && rows[k] == Group(Masked(rows, flags), c)[0]
              && flags[k] && rows[k].category == c && EarliestFlagged(rows, flags, c, k)
  {
    var kept := Masked(rows, flags);
    var tail := Masked(rows[1..], flags[1..]);
    if flags[0] && rows[0].category == c {
      assert kept == [rows[0]] + tail;
      assert Group(kept, c)[0] == rows[0];
      assert EarliestFlagged(rows, flags, c, 0);
    } else {
      if flags[0] {
        assert kept == [rows[0]] + tail;
        assert kept[1..] == tail;
      }
      assert Group(kept, c) == Group(tail, c);
      MaskedGroupHead(rows[1..], flags[1..], c);
      var k :| 0 <= k < |rows[1..]| && rows[1..][k] == Group(tail, c)[0] &&
        flags[1..][k] && rows[1..][k].category == c && EarliestFlagged(rows[1..], flags[1..], c, k);
      forall j | 0 <= j < k + 1 && rows[j].category == c ensures !flags[j] {
        if j > 0 {
          assert rows[1..][j - 1] == rows[j];
        }
      }
      assert EarliestFlagged(rows, flags, c, k + 1);
    }
  }

  /** No row of category `c` before index `k` is flagged. */
  predicate EarliestFlagged(rows: seq<Record>, flags: seq<bool>, c: string, k: nat)
    requires |flags| == |rows| && k <= |rows|
  {
    forall j :: 0 <= j < k && rows[j].category == c ==> !flags[j]
  }

  /** `groupby("Category").first()` of the flagged rows: one row per category, keys ascending. */
  function FirstPerCategory(rows: seq<Record>, flags: seq<bool>): (examples: seq<Record>)
    requires |flags| == |rows|
    ensures |examples| == |GroupKeys(Masked(rows, flags))|
  {
    var kept := Masked(rows, flags);
    var ks := GroupKeys(kept);
    seq(|ks|, i requires 0 <= i < |ks| =>
      GroupNonEmpty(kept, ks[i]);
      Group(kept, ks[i])[0])
  }

  /** The example anomalies of the table (main.py:26). */
  function ExampleAnomalies(rows: seq<Record>): seq<Record> {
    FirstPerCategory(rows, Flags(rows))
  }

  /** The examples are in strictly ascending category order, so no category repeats. */
  lemma {:induction false} ExamplesAscendByCategory(rows: seq<Record>, flags: seq<bool>)
    requires |flags| == |rows|
    ensures var ex := FirstPerCategory(rows, flags);
      forall i, j :: 0 <= i < j < |ex| ==> StrLess(ex[i].category, ex[j].category)
  {
    var kept := Masked(rows, flags);
    var ks := GroupKeys(kept);
    var ex := FirstPerCategory(rows, flags);
    forall i | 0 <= i < |ex| ensures ex[i].category == ks[i] {
      GroupNonEmpty(kept, ks[i]);
      assert Group(kept, ks[i])[0] in Group(kept, ks[i]);
    }
  }

  /**
   * Every example is a flagged row, and the earliest flagged row of its
   * category in the original row order.
   */
  lemma {:induction false} ExampleIsEarliestAnomaly(rows: seq<Record>, flags: seq<bool>, i: nat)
    requires |flags| == |rows|
    requires i < |FirstPerCategory(rows, flags)|
    ensures var e := FirstPerCategory(rows, flags)[i];
      exists k :: 0 <= k < |rows| && rows[k] == e && flags[k] && EarliestFlagged(rows, flags, e.category, k)
  {
    var kept := Masked(rows, flags);
    var ks := GroupKeys(kept);
    var c := ks[i];
    GroupNonEmpty(kept, c);
    MaskedGroupHead(rows, flags, c);
  }

  /** Every example is a flagged row of the table, so its category is present. */
  lemma {:induction false} ExamplesAreFlaggedRows(rows: seq<Record>, flags: seq<bool>)
    requires |flags| == |rows|
    ensures var ex := FirstPerCategory(rows, flags);
      forall i :: 0 <= i < |ex| ==>
        HasCategory(rows, ex[i].category) && exists k :: 0 <= k < |rows| && rows[k] == ex[i] && flags[k]
  {
    var ex := FirstPerCategory(rows, flags);
    forall i | 0 <= i < |ex|
      ensures HasCategory(rows, ex[i].category) && exists k :: 0 <= k < |rows| && rows[k] == ex[i] && flags[k]
    {
      ExampleIsEarliestAnomaly(rows, flags, i);
      var k :| 0 <= k < |rows| && rows[k] == ex[i] && flags[k];
      assert rows[k].category == ex[i].category;
    }
  }

  /** A category has an example exactly when at least one of its rows is flagged. */
  lemma {:induction false} ExampleExistsIffFlagged(rows: seq<Record>, flags: seq<bool>, c: string)
    requires |flags| == |rows|
    ensures (exists i :: 0 <= i < |FirstPerCategory(rows, flags)| && FirstPerCategory(rows, flags)[i].category == c)
      <==> exists k :: 0 <= k < |rows| && flags[k] && rows[k].category == c
  {
    var kept := Masked(rows, flags);
    var ks := GroupKeys(kept);
    var ex := FirstPerCategory(rows, flags);
    forall i | 0 <= i < |ex| ensures ex[i].category == ks[i] {
      GroupNonEmpty(kept, ks[i]);
      assert Group(kept, ks[i])[0] in Group(kept, ks[i]);
    }
    MaskedHasCategory(rows, flags, c);
    if HasCategory(kept, c) {
      var i :| 0 <= i < |ks| && ks[i] == c;
      assert ex[i].category == c;
    }
  }

  /** The example of category `c`, if any: `example_anomalies[... == cat]` then `iloc[0]`. */
  function ExampleOf(examples: seq<Record>, c: string): (e: Option<Record>)
    ensures e.Some? <==> exists i :: 0 <= i < |examples| && examples[i].category == c
    ensures e.Some? ==> e.value in examples && e.value.category == c
  {
    if examples == [] then None
    else if examples[0].category == c then Some(examples[0])
    else
      var e := ExampleOf(examples[1..], c);
      assert forall i :: 0 < i < |examples| ==> examples[i] == examples[1..][i - 1];
      e
  }

  /** The marker drawn over each bar of the chart, in chart order (main.py:28-33). */
  function ChartMarkers(rows: seq<Record>): (markers: seq<Option<Record>>)
    ensures |markers| == |ChartOrder(rows)|
  {
    var order := ChartOrder(rows);
    var examples := ExampleAnomalies(rows);
    seq(|order|, i requires 0 <= i < |order| => ExampleOf(examples, order[i]))
  }

  /**
   * A bar carries a marker exactly when its category has an anomaly, and the
   * marker is that category's earliest anomalous row.
   */
  lemma {:induction false} MarkerIffAnomaly(rows: seq<Record>, i: nat)
    requires i < |ChartOrder(rows)|
    ensures var c := ChartOrder(rows)[i];
      var mk := ChartMarkers(rows)[i];
      (mk.Some? <==> exists k :: 0 <= k < |rows| && Flags(rows)[k] && rows[k].category == c) &&
      (mk.Some? ==>
         && mk.value.category == c
         && exists k :: 0 <= k < |rows| && rows[k] == mk.value && Flags(rows)[k] &&
                        EarliestFlagged(rows, Flags(rows), c, k))
  {
    var flags := Flags(rows);
    var c := ChartOrder(rows)[i];
    var examples := ExampleAnomalies(rows);
    ExampleExistsIffFlagged(rows, flags, c);
    var mk := ExampleOf(examples, c);
    if mk.Some? {
      var j :| 0 <= j < |examples| && examples[j] == mk.value;
      ExampleIsEarliestAnomaly(rows, flags, j);
    }
  }
}
