/**
 * The nutrient comparison printed for each example anomaly: for each of the
 * five nutrient columns, the food's amount, the average over every row of its
 * category, the difference and the difference as a percentage of the average;
 * a nutrient is significant when that percentage is at least 20 in absolute
 * value.
 */
module Comparison {
  import opened Wrappers
  import opened Stats
  import opened Records

  datatype Nutrient = Fat | Protein | Carbs | Water | Fiber

  /** The nutrient columns in report order. */
  const NutrientColumns: seq<Nutrient> := [Fat, Protein, Carbs, Water, Fiber]

  /** A nutrient is significant when |% Diff| reaches this value (inclusive). */
  const SignificanceThreshold: real := 20.0

  /** The amount of nutrient `n` in one row (grams per 100 g). */
  function Amount(r: Record, n: Nutrient): real {
    match n
    case Fat => r.fat
    case Protein => r.protein
    case Carbs => r.carbs
    case Water => r.water
    case Fiber => r.fiber
  }

  /** The column of nutrient `n` over some rows. */
  function Amounts(rows: seq<Record>, n: Nutrient): (xs: seq<real>)
    ensures |xs| == |rows|
  {
    seq(|rows|, i requires 0 <= i < |rows| => Amount(rows[i], n))
  }

  /** One line of the comparison: "Nutrient", "Food", "Category Avg", "Difference", "% Diff". */
  datatype NutrientComparison = NutrientComparison(
    nutrient: Nutrient,
    food: real,
    categoryAvg: real,
    difference: real,
    pctDiff: Option<real>)

  /**
   * The difference as a percentage of the average.  A zero average has no
   * percentage: the script divides Python floats there and stops with a
   * division-by-zero error, where the model records `None` instead.
   */
  function PercentDiff(difference: real, avg: real): (pct: Option<real>)
    ensures pct.None? <==> avg == 0.0
  {
    if avg == 0.0 then None else Some(difference / avg * 100.0)
  }

  /** "<== significant": the percentage exists and |pct| >= 20. */
  predicate Significant(e: NutrientComparison) {
    e.pctDiff.Some? && Abs(e.pctDiff.value) >= SignificanceThreshold
  }

  /** The comparison line of nutrient `n` for `food` against the rows `group`. */
  function CompareNutrient(food: Record, group: seq<Record>, n: Nutrient): NutrientComparison
    requires |group| > 0
  {
    var value := Amount(food, n);
    var avg := Mean(Amounts(group, n));
    NutrientComparison(n, value, avg, value - avg, PercentDiff(value - avg, avg))
  }

  /**
   * The comparison table of `food`: one line per nutrient column, in column
   * order, each against the average over every row of the food's category.
   */
  function Compare(food: Record, rows: seq<Record>): (table: seq<NutrientComparison>)
    requires HasCategory(rows, food.category)
    ensures |table| == |NutrientColumns|
    ensures forall i :: 0 <= i < |table| ==> table[i].nutrient == NutrientColumns[i]
  {
    var group := Group(rows, food.category);
    GroupNonEmpty(rows, food.category);
    seq(|NutrientColumns|, i requires 0 <= i < |NutrientColumns| =>
      CompareNutrient(food, group, NutrientColumns[i]))
  }

  /**
   * Every line of the table holds the food's own amount, the average of that
   * nutrient over the category, their difference, and a percentage that,
   * applied to the average, gives the difference back.
   */
  lemma {:induction false} CompareLinesConsistent(food: Record, rows: seq<Record>, i: nat)
    requires HasCategory(rows, food.category) && i < |NutrientColumns|
    ensures var e := Compare(food, rows)[i];
      var xs := Amounts(Group(rows, food.category), e.nutrient);
      && |xs| > 0
      && e.food == Amount(food, e.nutrient)
      && e.categoryAvg == Mean(xs)
      && e.difference == e.food - e.categoryAvg
      && (e.pctDiff.None? <==> e.categoryAvg == 0.0)
      && (e.pctDiff.Some? ==> e.categoryAvg * (e.pctDiff.value / 100.0) == e.difference)
  {
    GroupNonEmpty(rows, food.category);
    var e := Compare(food, rows)[i];
    if e.categoryAvg != 0.0 {
      PercentDiffRoundTrip(e.food, e.categoryAvg);
    }
  }

  /** Each line's percentage scaled back onto the average gives the difference. */
  lemma {:induction false} PercentDiffRoundTrip(food: real, avg: real)
    requires avg != 0.0
    ensures PercentDiff(food - avg, avg).Some?
    ensures avg * (PercentDiff(food - avg, avg).value / 100.0) == food - avg
  {
    var d := food - avg;
    var q := d / avg;
    assert q * avg == d;
    assert d / avg * 100.0 / 100.0 == q;
  }

  /** The percentage is zero exactly when the food is at the category average. */
  lemma {:induction false} PercentZeroIffAtAverage(food: real, avg: real)
    requires avg != 0.0
    ensures PercentDiff(food - avg, avg) == Some(0.0) <==> food == avg
  {
    PercentDiffRoundTrip(food, avg);
  }

  /**
   * Significance without division: the food deviates from a non-zero average
   * by at least a fifth of the average's size.
   */
  lemma {:induction false} SignificantIff(food: Record, group: seq<Record>, n: Nutrient)
    requires |group| > 0
    ensures var e := CompareNutrient(food, group, n);
      Significant(e) <==> e.categoryAvg != 0.0 && Abs(e.food - e.categoryAvg) * 5.0 >= Abs(e.categoryAvg)
  {
    var e := CompareNutrient(food, group, n);
    var avg := e.categoryAvg;
    if avg != 0.0 {
      var d := e.food - avg;
      var p := e.pctDiff.value;
      PercentDiffRoundTrip(e.food, avg);
      assert avg * p == 100.0 * d;
      AbsOfProduct(avg, p);
      AbsOfProduct(100.0, d);
      assert Abs(avg) * Abs(p) == 100.0 * Abs(d);
      ScaledAtLeast(Abs(avg), Abs(p), Abs(d));
    }
  }

  /** |a * b| = |a| * |b|. */
  lemma AbsOfProduct(a: real, b: real)
    ensures Abs(a * b) == Abs(a) * Abs(b)
  {
    if a < 0.0 && b < 0.0 {
      assert a * b == (-a) * (-b);
      MulPositive(-a, -b);
    } else if a < 0.0 && b >= 0.0 {
      MulNonNegative(-a, b);
    } else if a >= 0.0 && b < 0.0 {
      MulNonNegative(a, -b);
    } else {
      MulNonNegative(a, b);
    }
  }

  /** With |avg| * |p| = 100 * |d| and avg non-zero: |p| >= 20 iff 5 * |d| >= |avg|. */
  lemma ScaledAtLeast(a: real, p: real, d: real)
    requires a > 0.0 && p >= 0.0 && a * p == 100.0 * d
    ensures p >= 20.0 <==> d * 5.0 >= a
  {
    if p >= 20.0 {
      MulLeft(p, 20.0, a);
    } else {
      assert 20.0 * a > p * a by {
        MulLeft(20.0 - p, 0.0, a);
        MulPositive(20.0 - p, a);
      }
    }
  }

  /** On the boundary: exactly 20 percent above the average is significant, 19.9 percent is not. */
  lemma {:induction false} SignificanceBoundary()
    ensures PercentDiff(120.0 - 100.0, 100.0) == Some(20.0)
    ensures PercentDiff(119.9 - 100.0, 100.0) == Some(19.9)
    ensures Significant(NutrientComparison(Fat, 120.0, 100.0, 20.0, Some(20.0)))
    ensures !Significant(NutrientComparison(Fat, 119.9, 100.0, 19.9, Some(19.9)))
    ensures !Significant(NutrientComparison(Fat, 0.0, 0.0, 0.0, None))
  {
  }

  /**
   * When amounts are never negative, a zero category average means every row of
   * the category, the food included, has none of that nutrient; so the guarded
   * case is exactly a 0 / 0 division, which the model reports as not significant.
   */
  lemma {:induction false} ZeroAverageMeansNone(food: Record, rows: seq<Record>, n: Nutrient)
    requires HasCategory(rows, food.category)
    requires food in rows
    requires forall r :: r in rows ==> Amount(r, n) >= 0.0
    requires Compare(food, rows)[IndexOf(n)].categoryAvg == 0.0
    ensures Amount(food, n) == 0.0
    ensures !Significant(Compare(food, rows)[IndexOf(n)])
  {
    var group := Group(rows, food.category);
    GroupNonEmpty(rows, food.category);
    var xs := Amounts(group, n);
    assert Compare(food, rows)[IndexOf(n)] == CompareNutrient(food, group, n);
    var k :| 0 <= k < |rows| && rows[k] == food;
    assert food in group;
    var j :| 0 <= j < |group| && group[j] == food;
    forall i | 0 <= i < |xs| ensures xs[i] >= 0.0 {
      assert group[i] in group;
    }
    if xs[j] > 0.0 {
      SumPositive(xs, j);
      assert false;
    }
  }

  /** The position of a nutrient among the nutrient columns. */
  function IndexOf(n: Nutrient): (i: nat)
    ensures i < |NutrientColumns| && NutrientColumns[i] == n
  {
    match n
    case Fat => 0
    case Protein => 1
    case Carbs => 2
    case Water => 3
    case Fiber => 4
  }

  /** Over the category, the differences from the category average sum to zero. */
  lemma {:induction false} DifferencesSumToZero(rows: seq<Record>, c: string, n: Nutrient)
    requires HasCategory(rows, c)
    ensures var xs := Amounts(Group(rows, c), n);
      |xs| > 0 && Sum(Deviations(xs, Mean(xs))) == 0.0
  {
    GroupNonEmpty(rows, c);
    DeviationsSumToZero(Amounts(Group(rows, c), n));
  }

  /** The category average lies between the category's least and greatest amount. */
  lemma {:induction false} AverageWithinCategory(food: Record, rows: seq<Record>, i: nat, lo: real, hi: real)
    requires HasCategory(rows, food.category) && i < |NutrientColumns|
    requires forall r :: r in rows && r.category == food.category ==> lo <= Amount(r, NutrientColumns[i]) <= hi
    ensures lo <= Compare(food, rows)[i].categoryAvg <= hi
  {
    var group := Group(rows, food.category);
    GroupNonEmpty(rows, food.category);
    var xs := Amounts(group, NutrientColumns[i]);
    forall k | 0 <= k < |xs| ensures lo <= xs[k] <= hi {
      assert group[k] in group;
    }
    MeanWithin(xs, lo, hi);
  }

  /**
   * The comparison looks only at the food's own category: adding rows of other
   * categories to the table leaves it unchanged.
   */
  lemma {:induction false} CompareIgnoresOtherCategories(food: Record, rows: seq<Record>, extra: seq<Record>)
    requires HasCategory(rows, food.category)
    requires !HasCategory(extra, food.category)
    ensures HasCategory(rows + extra, food.category)
    ensures Compare(food, rows + extra) == Compare(food, rows)
  {
    var k :| 0 <= k < |rows| && rows[k].category == food.category;
    assert (rows + extra)[k] == rows[k];
    GroupOfAppend(rows, extra, food.category);
    GroupOfAbsent(extra, food.category);
    assert Group(rows + extra, food.category) == Group(rows, food.category);
  }
}
