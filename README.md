# Nutrition anomaly analysis, modelled in Dafny

`main.py` reads a table of foods, each with a name, a category, calories per
100 g and five nutrient amounts (fat, protein, carbs, water, fiber). It then:

1. strips whitespace from the category labels;
2. computes each food's calorie z-score within its category, using the
   population standard deviation;
3. flags a food as an anomaly when |z| > 1.1;
4. orders the categories by ascending mean calories for a bar chart;
5. picks, per category, the first anomalous food as the example;
6. for every example, compares its five nutrients with the averages over its
   whole category and marks a nutrient significant when the difference is at
   least 20 % of the average.

The model states all of this over exact `real` numbers:

- `Text` models Python's `str.strip()` and the code-point order of strings.
- `Records` holds the rows, the label normalisation and the grouping by category.
- `Stats` defines the sums, means and population variance, and the z-score test.
  The test is written in squared form, so no square root is taken. A group
  with zero variance has no z-score (`None`), so it is never an outlier.
- `Anomaly` builds the z-score column and the flag column.
- `Ordering` builds the chart order.
- `Selection` models the masked `groupby("Category").first()` and the chart markers.
- `Comparison` builds the per-nutrient table and the significance rule.
- `Pipeline` replays the script's steps. It uses a `Frame` class whose columns
  are added in place.
- `Scenario` is a worked three-fruit example.

The console report iterates `example_anomalies`, and that table comes
out of `groupby("Category").first()` in ascending category-key order. So the
report goes through categories in key order, not in the chart's
mean-calorie order (`Selection.ExamplesAscendByCategory`). Only the chart
follows the mean order (`Selection.ChartMarkers`).

## Model

| member | source | states |
|---|---|---|
| Text.Trim | main.py:8 | the stripped label starts and ends with a non-whitespace character (or is empty) |
| Text.TrimIsInfix | main.py:8 | the stripped label is the original with only whitespace removed at its two ends |
| Text.TrimUnique | main.py:8 | a label that is whitespace, then a trimmed core, then whitespace, strips to exactly that core |
| Text.TrimIgnoresPadding | main.py:8 | adding whitespace on either side of a label does not change its stripped form |
| Text.TrimIdempotent | main.py:8 | stripping twice equals stripping once |
| Text.StrLessTotal | main.py:26 | any two distinct labels are ordered one way or the other by the key order `groupby` sorts by |
| Text.StrLessTransitive | main.py:26 | the key order is transitive |
| Records.NormalizeIdempotent | main.py:8 | re-normalising an already normalised table changes nothing |
| Records.PaddedLabelsShareCategory | main.py:8 | two labels that differ only by surrounding whitespace land in the same category after normalisation |
| Records.Group | main.py:58 | a group contains exactly the rows of that category, all taken from the table |
| Records.GroupOfAppend | main.py:58 | grouping a concatenation of two tables concatenates the two tables' groups |
| Records.GroupOfAbsent | main.py:58 | a category that no row carries has an empty group |
| Records.GroupNonEmpty | main.py:58-59 | a category that occurs in the table has a non-empty group |
| Records.GroupKeys | main.py:26 | the group keys are strictly ascending and are exactly the categories present |
| Records.InsertKey | main.py:26 | inserting a key into a strictly ascending key list keeps it strictly ascending, adds that key and nothing else |
| Records.AscendingOccursOnce | main.py:26 | each key occurs at most once among the group keys |
| Stats.DeviationsSumToZero | main.py:11 | deviations from the mean sum to zero |
| Stats.ZScoresSumToZero | main.py:11 | with std > 0 and std^2 the population variance, the z-scores sum to zero |
| Stats.VarianceNonNegative | main.py:11 | the population variance is never negative |
| Stats.VarianceZeroIffConstant | main.py:11 | the population variance is zero exactly when all values are equal |
| Stats.ZSquaredIsSquaredZScore | main.py:11 | given std > 0 with std^2 = population variance, z^2 is defined and equals the square of (x - mean) / std |
| Stats.ZSquaredMatchesZScores | main.py:11 | given the same std, each value's z^2 is the square of its entry in the z-score list |
| Stats.ZSquared | main.py:11 | z^2 is undefined (NaN) exactly when the group is constant, and non-negative otherwise |
| Stats.OutlierSquaredForm | main.py:14 | abs(z) > t holds exactly when variance > 0 and (x - mean)^2 > t^2 * variance |
| Stats.OutlierStdForm | main.py:14 | given std >= 0 with std^2 = variance, abs(z) > t holds exactly when std > 0 and abs(x - mean) > t * std |
| Stats.NotAllOutliers | main.py:14 | at a threshold of 1 or more, some value of every group is not an outlier |
| Stats.MeanWithin | main.py:59 | the mean of values inside [lo, hi] lies inside [lo, hi] |
| Anomaly.ZSquaredColumn | main.py:11 | the z-score column has one entry per row |
| Anomaly.AnomalyColumn | main.py:14 | the flag column has one entry per z-score |
| Anomaly.FlagIsOutlier | main.py:11-14 | a row is flagged exactly when its calories pass the abs(z) > 1.1 test within its own category |
| Anomaly.ConstantCategoryHasNoAnomaly | main.py:11-14 | a category whose calories are all equal produces no anomaly (NaN z-score) |
| Anomaly.SingleRowCategoryHasNoAnomaly | main.py:11-14 | a one-row category produces no anomaly |
| Anomaly.SomeRowOfCategoryNotFlagged | main.py:11-14 | no category has all of its rows flagged |
| Anomaly.FlagIgnoresOtherCategories | main.py:11 | appending rows of other categories does not change a row's flag |
| Anomaly.ZSquaredColumnIsSquaredZScore | main.py:11 | each entry of the z-score column is the square of the row's z-score within its category, given that category's std > 0 |
| Anomaly.CategoryDeviationsSumToZero | main.py:11 | within a category, calorie deviations from the category mean sum to zero |
| Anomaly.CategoryZScoresSumToZero | main.py:11 | within a category with non-zero spread, the z-scores sum to zero |
| Ordering.CategoryMeans | main.py:17 | the mean series is indexed by exactly the categories present |
| Ordering.InsertByValue | main.py:17 | inserting into a value-sorted key list keeps it sorted and adds just that key |
| Ordering.SortByValue | main.py:17 | `sort_values` returns a permutation of the keys in nondecreasing order of value |
| Ordering.ChartOrder | main.py:17-18 | the chart order is a permutation of the group keys |
| Ordering.ChartOrderListsEachCategoryOnce | main.py:17-18 | the chart lists each category present exactly once, and no other label |
| Ordering.ChartOrderAscendingMeans | main.py:17-18 | along the chart order, category mean calories never decrease |
| Selection.MaskedHasCategory | main.py:26 | a category survives the anomaly mask exactly when one of its rows is flagged |
| Selection.MaskedGroupHead | main.py:26 | the first masked row of a category is its earliest flagged row in table order |
| Selection.FirstPerCategory | main.py:26 | `first()` yields one row per category key of the flagged rows |
| Selection.ExamplesAscendByCategory | main.py:26 | the examples are in strictly ascending category order, so there is at most one per category; the report follows this order |
| Selection.ExampleIsEarliestAnomaly | main.py:26 | every example is a flagged row, and no earlier row of its category is flagged |
| Selection.ExamplesAreFlaggedRows | main.py:26 | every example is a flagged row of the table, so its category occurs in the table |
| Selection.ExampleExistsIffFlagged | main.py:26-30 | a category has an example exactly when one of its rows is flagged |
| Selection.ExampleOf | main.py:29-31 | the lookup finds a row of that category among the examples exactly when one exists |
| Selection.ChartMarkers | main.py:28-31 | there is one marker slot per bar of the chart |
| Selection.MarkerIffAnomaly | main.py:28-31 | a bar gets a marker exactly when its category has an anomaly; the marker is that category's earliest anomaly |
| Comparison.Amounts | main.py:59 | a nutrient column has one value per row |
| Comparison.PercentDiff | main.py:68 | the percentage is undefined exactly when the category average is zero |
| Comparison.Compare | main.py:43-66 | the table has five lines, in the order fat, protein, carbs, water, fiber |
| Comparison.CompareLinesConsistent | main.py:58-68 | each line holds the food's amount, the category average over all of its rows, difference = food - average, and a percentage that, applied to the average, gives the difference back |
| Comparison.PercentDiffRoundTrip | main.py:67-68 | average * (pct / 100) equals food - average |
| Comparison.PercentZeroIffAtAverage | main.py:68 | the percentage is 0 exactly when the food equals the average |
| Comparison.SignificantIff | main.py:77-78 | significant exactly when the average is non-zero and abs(food - average) is at least a fifth of abs(average) |
| Comparison.SignificanceBoundary | main.py:77-78 | 20 % is significant, 19.9 % is not, and an undefined percentage is not |
| Comparison.ZeroAverageMeansNone | main.py:59-78 | with non-negative amounts, a zero average forces the food's amount to zero, and that line is not significant |
| Comparison.DifferencesSumToZero | main.py:59-67 | over a category, nutrient differences from the category average sum to zero |
| Comparison.AverageWithinCategory | main.py:58-59 | the category average lies between the category's least and greatest amount |
| Comparison.CompareIgnoresOtherCategories | main.py:58 | rows of other categories do not affect a food's comparison table |
| Pipeline.Frame.constructor | main.py:7 | the loaded frame has no derived columns |
| Pipeline.Frame.StripCategories | main.py:8 | the category column is replaced by its stripped form; nothing else changes |
| Pipeline.Frame.AddZScores | main.py:11 | the z-score column is added and the rows are unchanged |
| Pipeline.Frame.AddAnomalyFlags | main.py:14 | the anomaly column is computed from the z-score column and the rows are unchanged |
| Pipeline.CompareExamples | main.py:53-68 | one comparison table per example, in example order |
| Pipeline.Analyse | main.py:7-68 | a new frame with stripped labels, its z-score column and its anomaly flags; then the chart order, the examples and one comparison table per example |
| Scenario.FruitCaloriesOutliers | main.py:11-14 | for calories 52, 89 and 147, the first and last are outliers and the middle one is not |
| Scenario.FruitFlags | main.py:14 | Apple and Durian are flagged, Banana is not |
| Scenario.FruitExample | main.py:26 | Apple, the earlier anomaly, is the only example |

## Left out

- CSV loading (main.py:7) is I/O. The model starts from a sequence of rows.
- Plotting is rendering through matplotlib and seaborn, so it is not modelled. This covers the figure, the `Category_sorted` categorical, the palette, the bars, the scatter points and their text labels (main.py:19-40). Only which example each bar would be marked with is modelled (`Selection.ChartMarkers`).
- Console printing and the rounding of numbers to text (main.py:51, 70-81) are presentation. The model computes the values that would be printed.
- Floating point is not modelled; the model uses exact reals.
  - IEEE rounding and the square root inside `zscore` are replaced by an exact test in squared form.
  - NaN is replaced by `None`.
- pandas drops rows whose category is missing, and `first()` takes the first non-missing value column by column. Rows here are complete, so neither behaviour arises.
- Ordering.SortByValue: the order among categories with equal means is not specified, because pandas' default `sort_values` algorithm is not stable. The model keeps ties in key order and proves only the permutation and the nondecreasing means.
- Comparison.Compare: requires the food's category to occur in the table. The script only compares rows taken from the table (`Selection.ExamplesAreFlaggedRows`).
- The `comparison` frame gains its "Difference" and "% Diff" columns in place (main.py:67-68). The model builds each line as a value.
- Comparison.PercentDiff: where a category average is 0, the script stops with a division-by-zero error at main.py:68. The "Difference" column there holds Python floats, so the division is Python's, not numpy's. That category and every later one in key order go unreported. The model returns `None` (not significant) and carries on.
