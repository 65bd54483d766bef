/**
 * A worked example: three fruits with 52, 89 and 147 calories per 100 g.
 * The category mean is 96 and the population variance 4586/3, so the squared
 * deviations 1936 and 2601 exceed 1.21 times the variance and 49 does not:
 * Apple and Durian are anomalies, Banana is not, and Apple, the earlier
 * anomaly, is the category's example.
 */
module Scenario {
  import opened Stats
  import opened Records
  import opened Anomaly
  import opened Selection

  function Apple(): Record { Record("Apple", "Fruit", 52.0, 0.2, 0.3, 14.0, 86.0, 2.4) }
  function Banana(): Record { Record("Banana", "Fruit", 89.0, 0.3, 1.1, 23.0, 75.0, 2.6) }
  function Durian(): Record { Record("Durian", "Fruit", 147.0, 5.3, 1.5, 27.0, 65.0, 3.8) }

  function Fruits(): seq<Record> { [Apple(), Banana(), Durian()] }

  /** The outlier test on the three calorie values alone. */
  lemma {:induction false} FruitCaloriesOutliers()
    ensures var xs := [52.0, 89.0, 147.0];
      Outlier(52.0, xs, Threshold) && !Outlier(89.0, xs, Threshold) && Outlier(147.0, xs, Threshold)
  {
    var xs := [52.0, 89.0, 147.0];
    assert Sum(xs) == 288.0 by {
      assert xs[1..] == [89.0, 147.0];
      assert xs[1..][1..] == [147.0];
      assert xs[1..][1..][1..] == [];
    }
    assert Mean(xs) == 96.0;
    var sq := SquaredDeviations(xs, 96.0);
    assert sq == [1936.0, 49.0, 2601.0];
    var lit := [1936.0, 49.0, 2601.0];
    assert Sum(lit) == 4586.0 by {
      assert lit[1..] == [49.0, 2601.0];
      assert lit[1..][1..] == [2601.0];
      assert lit[1..][1..][1..] == [];
    }
    assert PopVariance(xs) == 4586.0 / 3.0;
    OutlierSquaredForm(52.0, xs, Threshold);
    OutlierSquaredForm(89.0, xs, Threshold);
    OutlierSquaredForm(147.0, xs, Threshold);
  }

  lemma {:induction false} FruitGroup()
    ensures Group(Fruits(), "Fruit") == Fruits()
    ensures CategoryCalories(Fruits(), "Fruit") == [52.0, 89.0, 147.0]
  {
    var rows := Fruits();
    assert Group(rows[2..], "Fruit") == [Durian()] by {
      assert rows[2..][1..] == [];
    }
    assert rows[1..][1..] == rows[2..];
    assert Group(rows[1..], "Fruit") == [Banana(), Durian()];
  }

  /** Row i of the fruits is flagged unless it is Banana, the middle one. */
  lemma {:induction false} FruitFlag(i: nat)
    requires i < 3
    ensures Flags(Fruits())[i] == (i != 1)
  {
    FruitGroup();
    FruitCaloriesOutliers();
    FlagIsOutlier(Fruits(), i);
  }

  /** Apple and Durian are flagged, Banana is not. */
  lemma {:induction false} FruitFlags()
    ensures Flags(Fruits()) == [true, false, true]
  {
    FruitFlag(0);
    FruitFlag(1);
    FruitFlag(2);
  }

  lemma {:induction false} FruitMasked()
    ensures Masked(Fruits(), [true, false, true]) == [Apple(), Durian()]
  {
    var rows := Fruits();
    var flags := [true, false, true];
    assert Masked(rows[2..], flags[2..]) == [Durian()] by {
      assert rows[2..][1..] == [];
    }
    assert rows[1..][1..] == rows[2..] && flags[1..][1..] == flags[2..];
    assert Masked(rows[1..], flags[1..]) == [Durian()];
  }

  lemma {:induction false} FlaggedFruitKeys()
    ensures GroupKeys([Apple(), Durian()]) == ["Fruit"]
    ensures Group([Apple(), Durian()], "Fruit")[0] == Apple()
  {
    var kept := [Apple(), Durian()];
    assert GroupKeys(kept[1..]) == ["Fruit"] by {
      assert kept[1..][1..] == [];
    }
  }

  /** The only example is Apple, the first anomalous fruit. */
  lemma {:induction false} FruitExample()
    ensures ExampleAnomalies(Fruits()) == [Apple()]
  {
    FruitFlags();
    FruitMasked();
    FlaggedFruitKeys();
  }
}
