/**
 * The script's own sequence of steps over the data frame `df`: strip the
 * category labels, add the z-score column, add the anomaly column, then derive
 * the chart order, the example anomalies and one comparison table per example.
 */
module Pipeline {
  import opened Wrappers
  import opened Records
  import opened Anomaly
  import opened Ordering
  import opened Selection
  import opened Comparison

  /** The data frame, to which the script adds derived columns in place. */
  class Frame {
    var rows: seq<Record>
    /** "zscore_calories", held as z^2 (`None` for NaN); empty until added. */
    var zscore: seq<Option<real>>
    /** "Anomaly"; empty until added. */
    var anomaly: seq<bool>

    /** The table as loaded, with no derived columns yet. */
    constructor (raw: seq<Record>)
      ensures rows == raw && zscore == [] && anomaly == []
    {
      rows := raw;
      zscore := [];
      anomaly := [];
    }

    /** Replaces every category label by its stripped form. */
    method StripCategories()
      modifies this
      ensures rows == Normalize(old(rows))
      ensures zscore == old(zscore) && anomaly == old(anomaly)
    {
      rows := Normalize(rows);
    }

    /** Adds each row's squared z-score within its category. */
    method AddZScores()
      modifies this
      ensures zscore == ZSquaredColumn(rows) && |zscore| == |rows|
      ensures rows == old(rows) && anomaly == old(anomaly)
    {
      zscore := ZSquaredColumn(rows);
    }

    /** Adds the flag |z| > 1.1 computed from the z-score column. */
    method AddAnomalyFlags()
      requires |zscore| == |rows|
      modifies this
      ensures anomaly == AnomalyColumn(zscore) && |anomaly| == |rows|
      ensures rows == old(rows) && zscore == old(zscore)
    {
      anomaly := AnomalyColumn(zscore);
    }
  }

  /**
   * The report loop: one comparison table per example, in example order,
   * each against the example's whole category.
   */
  method CompareExamples(rows: seq<Record>, examples: seq<Record>) returns (reports: seq<seq<NutrientComparison>>)
    requires forall e :: e in examples ==> HasCategory(rows, e.category)
    ensures |reports| == |examples|
    ensures forall i :: 0 <= i < |examples| ==> reports[i] == Compare(examples[i], rows)
  {
    reports := [];
    for i := 0 to |examples|
      invariant |reports| == i
      invariant forall j :: 0 <= j < i ==> reports[j] == Compare(examples[j], rows)
    {
      reports := reports + [Compare(examples[i], rows)];
    }
  }

  /**
   * Runs the analysis: a new frame ends with stripped labels, the z-score
   * column of `ZSquaredColumn` and the anomaly flags of `Flags`; the chart
   * order, the examples and one comparison table per example, in example
   * order, are returned.
   */
  method Analyse(raw: seq<Record>) returns (
    df: Frame, order: seq<string>, examples: seq<Record>, reports: seq<seq<NutrientComparison>>)
    ensures fresh(df)
    ensures df.rows == Normalize(raw) && df.zscore == ZSquaredColumn(df.rows)
    ensures df.anomaly == Flags(df.rows)
    ensures order == ChartOrder(df.rows)
    ensures examples == ExampleAnomalies(df.rows)
    ensures forall e :: e in examples ==> HasCategory(df.rows, e.category)
    ensures |reports| == |examples|
    ensures forall i :: 0 <= i < |examples| ==> reports[i] == Compare(examples[i], df.rows)
  {
    df := new Frame(raw);
    df.StripCategories();
    df.AddZScores();
    df.AddAnomalyFlags();
    var rows, flags := df.rows, df.anomaly;
    order := ChartOrder(rows);
    examples := FirstPerCategory(rows, flags);
    ExamplesAreFlaggedRows(rows, flags);
    reports := CompareExamples(rows, examples);
  }
}
