/**
 * The statistics behind `scipy.stats.zscore` with its default `ddof=0`: the
 * mean, the population variance, and the z-score, over exact reals.  The
 * z-score is kept in squared form so that no square root is needed; a
 * category whose variance is zero has no z-score (pandas holds NaN there).
 */
module Stats {
  import opened Wrappers

  function Sum(xs: seq<real>): real {
    if xs == [] then 0.0 else xs[0] + Sum(xs[1..])
  }

  function Mean(xs: seq<real>): real
    requires |xs| > 0
  {
    Sum(xs) / (|xs| as real)
  }

  function Abs(x: real): real {
    if x < 0.0 then -x else x
  }

  /** The deviations x - m of the values from a centre m. */
  function Deviations(xs: seq<real>, m: real): seq<real> {
    seq(|xs|, i requires 0 <= i < |xs| => xs[i] - m)
  }

  /**
   * x^2.  The second factor goes through `Id` so that the solver treats the
   * product like any product of two terms when it reasons about its sign.
   */
  function Square(x: real): real {
    x * Id(x)
  }

  function Id(x: real): real {
    x
  }

  /** The squared deviations (x - m)^2. */
  function SquaredDeviations(xs: seq<real>, m: real): seq<real> {
    seq(|xs|, i requires 0 <= i < |xs| => Square(xs[i] - m))
  }

  /** Population variance (divisor n, scipy's `ddof=0`). */
  function PopVariance(xs: seq<real>): real
    requires |xs| > 0
  {
    Sum(SquaredDeviations(xs, Mean(xs))) / (|xs| as real)
  }

  /** The z-score (x - mean) / std of `x` within `xs`, for a standard deviation `std`. */
  function ZScore(x: real, xs: seq<real>, std: real): real
    requires |xs| > 0 && std != 0.0
  {
    (x - Mean(xs)) / std
  }

  /** The z-score of every value of `xs`. */
  function ZScores(xs: seq<real>, std: real): seq<real>
    requires |xs| > 0 && std != 0.0
  {
    seq(|xs|, i requires 0 <= i < |xs| => ZScore(xs[i], xs, std))
  }

  lemma {:induction false} SumBounds(xs: seq<real>, lo: real, hi: real)
    requires forall i :: 0 <= i < |xs| ==> lo <= xs[i] <= hi
    ensures (|xs| as real) * lo <= Sum(xs) <= (|xs| as real) * hi
  {
    if xs != [] {
      SumBounds(xs[1..], lo, hi);
    }
  }

  lemma {:induction false} SumAboveStrict(xs: seq<real>, t: real)
    requires |xs| > 0
    requires forall i :: 0 <= i < |xs| ==> xs[i] > t
    ensures Sum(xs) > (|xs| as real) * t
  {
    if |xs| > 1 {
      SumAboveStrict(xs[1..], t);
    }
  }

  lemma {:induction false} SumNonNegative(xs: seq<real>)
    requires forall i :: 0 <= i < |xs| ==> xs[i] >= 0.0
    ensures Sum(xs) >= 0.0
  {
    if xs != [] {
      SumNonNegative(xs[1..]);
    }
  }

  lemma {:induction false} SumPositive(xs: seq<real>, k: nat)
    requires forall i :: 0 <= i < |xs| ==> xs[i] >= 0.0
    requires k < |xs| && xs[k] > 0.0
    ensures Sum(xs) > 0.0
  {
    SumNonNegative(xs[1..]);
    if k > 0 {
      SumPositive(xs[1..], k - 1);
    }
  }

  lemma {:induction false} SumOfDeviations(xs: seq<real>, m: real)
    ensures Sum(Deviations(xs, m)) == Sum(xs) - (|xs| as real) * m
  {
    if xs != [] {
      assert Deviations(xs, m)[1..] == Deviations(xs[1..], m);
      SumOfDeviations(xs[1..], m);
    }
  }

  lemma {:induction false} SumDivided(ys: seq<real>, d: real)
    requires d != 0.0
    ensures Sum(seq(|ys|, i requires 0 <= i < |ys| => ys[i] / d)) == Sum(ys) / d
  {
    var zs := seq(|ys|, i requires 0 <= i < |ys| => ys[i] / d);
    if ys != [] {
      assert zs[1..] == seq(|ys[1..]|, i requires 0 <= i < |ys[1..]| => ys[1..][i] / d);
      SumDivided(ys[1..], d);
      assert (ys[0] + Sum(ys[1..])) / d == ys[0] / d + Sum(ys[1..]) / d;
    }
  }

  /** The values' deviations from their mean sum to zero. */
  lemma DeviationsSumToZero(xs: seq<real>)
    requires |xs| > 0
    ensures Sum(Deviations(xs, Mean(xs))) == 0.0
  {
    SumOfDeviations(xs, Mean(xs));
  }

  /** Hence the z-scores of a group with non-zero spread sum to zero. */
  lemma ZScoresSumToZero(xs: seq<real>, std: real)
    requires |xs| > 0 && std > 0.0 && Square(std) == PopVariance(xs)
    ensures Sum(ZScores(xs, std)) == 0.0
  {
    var ds := Deviations(xs, Mean(xs));
    DeviationsSumToZero(xs);
    SumDivided(ds, std);
    assert ZScores(xs, std) == seq(|ds|, i requires 0 <= i < |ds| => ds[i] / std);
  }

  lemma VarianceNonNegative(xs: seq<real>)
    requires |xs| > 0
    ensures PopVariance(xs) >= 0.0
  {
    var sq := SquaredDeviations(xs, Mean(xs));
    forall i | 0 <= i < |sq| ensures sq[i] >= 0.0 {
      SquareNonNegative(xs[i] - Mean(xs));
    }
    SumNonNegative(sq);
    DivNonNegative(Sum(sq), |xs| as real);
  }

  /** The population variance is zero exactly when every value is the same. */
  lemma VarianceZeroIffConstant(xs: seq<real>)
    requires |xs| > 0
    ensures PopVariance(xs) == 0.0 <==> forall i :: 0 <= i < |xs| ==> xs[i] == xs[0]
  {
    var n := |xs| as real;
    var m := Mean(xs);
    var sq := SquaredDeviations(xs, m);
    if forall i :: 0 <= i < |xs| ==> xs[i] == xs[0] {
      MeanWithin(xs, xs[0], xs[0]);
      assert forall i :: 0 <= i < |sq| ==> sq[i] == 0.0;
      SumBounds(sq, 0.0, 0.0);
    } else {
      var i :| 0 <= i < |xs| && xs[i] != xs[0];
      var j := if xs[i] != m then i else 0;
      forall k | 0 <= k < |sq| ensures sq[k] >= 0.0 {
        SquareNonNegative(xs[k] - m);
      }
      SquarePositive(xs[j] - m);
      SumPositive(sq, j);
      DivPositive(Sum(sq), n);
    }
  }

  /**
   * The squared z-score (x - mean)^2 / variance of `x` within `xs`; `None`
   * (NaN) when the variance is zero, which happens exactly when all values agree.
   */
  function ZSquared(x: real, xs: seq<real>): (z: Option<real>)
    requires |xs| > 0
    ensures z.None? <==> forall i :: 0 <= i < |xs| ==> xs[i] == xs[0]
    ensures z.Some? ==> z.value >= 0.0
  {
    VarianceZeroIffConstant(xs);
    VarianceNonNegative(xs);
    var v := PopVariance(xs);
    var d := x - Mean(xs);
    if v == 0.0 then None
    else
      SquareNonNegative(d);
      DivNonNegative(Square(d), v);
      Some(Square(d) / v)
  }

  /**
   * With `std` the standard deviation (std > 0, std^2 = variance), the squared
   * z-score is the square of the z-score (x - mean) / std.
   */
  lemma {:induction false} ZSquaredIsSquaredZScore(x: real, xs: seq<real>, std: real)
    requires |xs| > 0 && std > 0.0 && Square(std) == PopVariance(xs)
    ensures ZSquared(x, xs) == Some(Square(ZScore(x, xs, std)))
  {
    var d := x - Mean(xs);
    var q := d / std;
    assert q * std == d;
    SquarePositive(std);
    SquareOfProduct(q, std);
    assert Square(d) / PopVariance(xs) == Square(q);
    VarianceZeroIffConstant(xs);
  }

  /** Entry by entry, the squared z-scores of a group are the squares of `ZScores`. */
  lemma {:induction false} ZSquaredMatchesZScores(xs: seq<real>, std: real)
    requires |xs| > 0 && std > 0.0 && Square(std) == PopVariance(xs)
    ensures forall k :: 0 <= k < |xs| ==> ZSquared(xs[k], xs) == Some(Square(ZScores(xs, std)[k]))
  {
    forall k | 0 <= k < |xs|
      ensures ZSquared(xs[k], xs) == Some(Square(ZScores(xs, std)[k]))
    {
      ZSquaredIsSquaredZScore(xs[k], xs, std);
    }
  }

  /** `x` lies more than `t` standard deviations from the mean of `xs` (|z| > t). */
  predicate Outlier(x: real, xs: seq<real>, t: real)
    requires |xs| > 0
  {
    var z := ZSquared(x, xs);
    z.Some? && z.value > Square(t)
  }

  /** The squared test without division: variance positive and (x - m)^2 > t^2 * variance. */
  lemma OutlierSquaredForm(x: real, xs: seq<real>, t: real)
    requires |xs| > 0
    ensures Outlier(x, xs, t) <==>
      PopVariance(xs) > 0.0 && Square(x - Mean(xs)) > Square(t) * PopVariance(xs)
  {
    VarianceNonNegative(xs);
    var v := PopVariance(xs);
    if v > 0.0 {
      DivGreater(Square(x - Mean(xs)), v, Square(t));
    }
  }

  /**
   * Given a standard deviation `std` (std >= 0, std^2 = variance), the squared
   * test is the textbook |x - mean| > t * std with std > 0.
   */
  lemma OutlierStdForm(x: real, xs: seq<real>, t: real, std: real)
    requires |xs| > 0 && t >= 0.0 && std >= 0.0 && Square(std) == PopVariance(xs)
    ensures Outlier(x, xs, t) <==> std > 0.0 && Abs(x - Mean(xs)) > t * std
  {
    OutlierSquaredForm(x, xs, t);
    var d := x - Mean(xs);
    SquareOfAbs(d);
    MulNonNegative(t, std);
    SquareMonotone(Abs(d), t * std);
    SquareOfProduct(t, std);
    if std > 0.0 {
      SquarePositive(std);
    }
  }

  /**
   * No group is made only of outliers when the threshold is at least one: the
   * squared z-scores average to one, so some |z| is at most one.
   */
  lemma NotAllOutliers(xs: seq<real>, t: real)
    requires |xs| > 0 && t >= 1.0
    ensures exists i :: 0 <= i < |xs| && !Outlier(xs[i], xs, t)
  {
    if forall i :: 0 <= i < |xs| ==> Outlier(xs[i], xs, t) {
      var n := |xs| as real;
      var v := PopVariance(xs);
      var sq := SquaredDeviations(xs, Mean(xs));
      OutlierSquaredForm(xs[0], xs, t);
      SquareMonotone(t, 1.0);
      forall i | 0 <= i < |sq| ensures sq[i] > v {
        OutlierSquaredForm(xs[i], xs, t);
        MulLeft(Square(t), 1.0, v);
      }
      SumAboveStrict(sq, v);
      assert false;
    }
  }

  /** The mean of values that all lie in [lo, hi] lies there too. */
  lemma MeanWithin(xs: seq<real>, lo: real, hi: real)
    requires |xs| > 0
    requires forall i :: 0 <= i < |xs| ==> lo <= xs[i] <= hi
    ensures lo <= Mean(xs) <= hi
  {
    SumBounds(xs, lo, hi);
    DivBounds(Sum(xs), |xs| as real, lo, hi);
  }

  // Arithmetic facts for the non-linear steps.

  lemma SquarePositive(d: real)
    requires d != 0.0
    ensures Square(d) > 0.0
  {
  }

  lemma SquareNonNegative(d: real)
    ensures Square(d) >= 0.0
  {
  }

  lemma SquareOfAbs(d: real)
    ensures Square(Abs(d)) == Square(d)
  {
  }

  lemma SquareOfProduct(a: real, b: real)
    ensures Square(a * b) == Square(a) * Square(b)
  {
  }

  lemma DifferenceOfSquares(a: real, b: real)
    ensures Square(a) - Square(b) == (a - b) * (a + b)
  {
  }

  /** For non-negative a and b, a > b exactly when a^2 > b^2. */
  lemma SquareMonotone(a: real, b: real)
    requires a >= 0.0 && b >= 0.0
    ensures a > b <==> Square(a) > Square(b)
  {
    DifferenceOfSquares(a, b);
    if a > b {
      MulPositive(a - b, a + b);
    } else {
      MulNonNegative(b - a, a + b);
      assert (b - a) * (a + b) == -((a - b) * (a + b));
    }
  }

  lemma MulPositive(a: real, b: real)
    requires a > 0.0 && b > 0.0
    ensures a * b > 0.0
  {
  }

  lemma MulNonNegative(a: real, b: real)
    requires a >= 0.0 && b >= 0.0
    ensures a * b >= 0.0
  {
    if a > 0.0 && b > 0.0 {
      MulPositive(a, b);
    }
  }

  lemma MulLeft(a: real, b: real, v: real)
    requires a >= b && v > 0.0
    ensures a * v >= b * v
  {
    MulNonNegative(a - b, v);
  }

  lemma DivPositive(a: real, v: real)
    requires a > 0.0 && v > 0.0
    ensures a / v > 0.0
  {
  }

  lemma DivNonNegative(a: real, v: real)
    requires a >= 0.0 && v > 0.0
    ensures a / v >= 0.0
  {
  }

  lemma DivGreater(a: real, v: real, k: real)
    requires v > 0.0
    ensures a / v > k <==> a > k * v
  {
    var q := a / v;
    assert q * v == a;
    if q > k {
      MulPositive(q - k, v);
    } else {
      MulLeft(k, q, v);
    }
  }

  lemma DivBounds(s: real, n: real, lo: real, hi: real)
    requires n > 0.0 && n * lo <= s <= n * hi
    ensures lo <= s / n <= hi
  {
    var q := s / n;
    assert q * n == s;
    if q < lo {
      MulPositive(lo - q, n);
    }
    if q > hi {
      MulPositive(q - hi, n);
    }
  }
}
