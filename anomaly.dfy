/**
 * The two derived columns of the table: the per-category z-score of the
 * calories (`groupby("Category")[...].transform(zscore)`) and the anomaly flag
 * `|z| > 1.1`.  The z-score column holds z^2, and `None` where pandas holds
 * NaN (a category whose calories are all equal has zero spread).
 */
module Anomaly {
  import opened Wrappers
  import opened Stats
  import opened Records

  /** A row is an anomaly when the absolute value of its z-score exceeds this. */
  const Threshold: real := 1.1

  /** The calorie values of category `c`. */
  function CategoryCalories(rows: seq<Record>, c: string): seq<real> {
    Calories(Group(rows, c))
  }

  /** Each row's squared z-score within its own category (population spread). */
  function ZSquaredColumn(rows: seq<Record>): (z: seq<Option<real>>)
    ensures |z| == |rows|
  {
    seq(|rows|, i requires 0 <= i < |rows| =>
      assert rows[i] in Group(rows, rows[i].category);
      ZSquared(rows[i].calories, CategoryCalories(rows, rows[i].category)))
  }

  /** The flag column: |z| > Threshold, compared as z^2 > Threshold^2; NaN compares false. */
  function AnomalyColumn(z: seq<Option<real>>): (flags: seq<bool>)
    ensures |flags| == |z|
  {
    seq(|z|, i requires 0 <= i < |z| => z[i].Some? && z[i].value > Square(Threshold))
  }

  /** The anomaly flag of every row of the table. */
  function Flags(rows: seq<Record>): (flags: seq<bool>)
    ensures |flags| == |rows|
  {
    AnomalyColumn(ZSquaredColumn(rows))
  }

  /**
   * The flag of row i is the outlier test of its calories within its own
   * category at the 1.1 threshold; `Stats.OutlierSquaredForm` and
   * `Stats.OutlierStdForm` spell that test out as |calories - mean| > 1.1 * std
   * with std > 0.
   */
  lemma {:induction false} FlagIsOutlier(rows: seq<Record>, i: nat)
    requires i < |rows|
    ensures |CategoryCalories(rows, rows[i].category)| > 0
    ensures Flags(rows)[i] == Outlier(rows[i].calories, CategoryCalories(rows, rows[i].category), Threshold)
  {
    assert rows[i] in Group(rows, rows[i].category);
  }

  /** A category whose calories are all equal (in particular a one-row category) has no anomaly. */
  lemma {:induction false} ConstantCategoryHasNoAnomaly(rows: seq<Record>, i: nat)
    requires i < |rows|
    requires var xs := CategoryCalories(rows, rows[i].category);
      forall k :: 0 <= k < |xs| ==> xs[k] == rows[i].calories
    ensures !Flags(rows)[i]
  {
    var xs := CategoryCalories(rows, rows[i].category);
    assert rows[i] in Group(rows, rows[i].category);
    assert ZSquared(rows[i].calories, xs).None?;
  }

  lemma {:induction false} SingleRowCategoryHasNoAnomaly(rows: seq<Record>, i: nat)
    requires i < |rows|
    requires |Group(rows, rows[i].category)| == 1
    ensures !Flags(rows)[i]
  {
    var g := Group(rows, rows[i].category);
    assert rows[i] in g;
    assert g[0] == rows[i];
    ConstantCategoryHasNoAnomaly(rows, i);
  }

  /**
   * Not every row of a category is an anomaly: the squared z-scores of a
   * category average to one, so at least one |z| is at most 1 < 1.1.
   */
  lemma {:induction false} SomeRowOfCategoryNotFlagged(rows: seq<Record>, c: string)
    requires HasCategory(rows, c)
    ensures exists i :: 0 <= i < |rows| && rows[i].category == c && !Flags(rows)[i]
  {
    var g := Group(rows, c);
    GroupNonEmpty(rows, c);
    var xs := Calories(g);
    NotAllOutliers(xs, Threshold);
    var k :| 0 <= k < |xs| && !Outlier(xs[k], xs, Threshold);
    assert g[k] in rows;
    var i :| 0 <= i < |rows| && rows[i] == g[k];
    assert CategoryCalories(rows, rows[i].category) == xs;
  }

  /**
   * A row's flag depends only on its own category: appending rows of other
   * categories leaves it unchanged.
   */
  lemma {:induction false} FlagIgnoresOtherCategories(rows: seq<Record>, extra: seq<Record>, i: nat)
    requires i < |rows|
    requires !HasCategory(extra, rows[i].category)
    ensures Flags(rows + extra)[i] == Flags(rows)[i]
  {
    var c := rows[i].category;
    GroupOfAppend(rows, extra, c);
    GroupOfAbsent(extra, c);
    assert Group(rows + extra, c) == Group(rows, c);
    assert (rows + extra)[i] == rows[i];
  }

  /** Within a category the calorie deviations from the category mean sum to zero. */
  lemma {:induction false} CategoryDeviationsSumToZero(rows: seq<Record>, c: string)
    requires HasCategory(rows, c)
    ensures var xs := CategoryCalories(rows, c);
      |xs| > 0 && Sum(Deviations(xs, Mean(xs))) == 0.0
  {
    GroupNonEmpty(rows, c);
    DeviationsSumToZero(CategoryCalories(rows, c));
  }

  /** Hence, when the spread is non-zero, the category's z-scores sum to zero. */
  lemma {:induction false} CategoryZScoresSumToZero(rows: seq<Record>, c: string, std: real)
    requires |Group(rows, c)| > 0
    requires std > 0.0 && Square(std) == PopVariance(CategoryCalories(rows, c))
    ensures Sum(ZScores(CategoryCalories(rows, c), std)) == 0.0
  {
    ZScoresSumToZero(CategoryCalories(rows, c), std);
  }

  /**
   * Each entry of the z-score column is the square of the row's z-score
   * (calories - category mean) / std, with `std` the category's standard
   * deviation, whenever that is positive.
   */
  lemma {:induction false} ZSquaredColumnIsSquaredZScore(rows: seq<Record>, i: nat, std: real)
    requires i < |rows|
    requires |Group(rows, rows[i].category)| > 0
    requires std > 0.0 && Square(std) == PopVariance(CategoryCalories(rows, rows[i].category))
    ensures ZSquaredColumn(rows)[i]
      == Some(Square(ZScore(rows[i].calories, CategoryCalories(rows, rows[i].category), std)))
  {
    assert rows[i] in Group(rows, rows[i].category);
    ZSquaredIsSquaredZScore(rows[i].calories, CategoryCalories(rows, rows[i].category), std);
  }
}
