/**
 What a set of replicates comes to: the mean, the spread, and the 95% interval.
 Standard deviations and half-widths appear as their squares.
 */
module Estimate {
  import opened Wrappers
  import opened Sums

  // ---- Mean and spread ------------------------------------------------------------------

  /** The squared distances of the samples from a centre. */
  function SquaresAbout(samples: seq<real>, centre: real): real {
    if samples == [] then 0.0
    else
      var n := |samples| - 1;
      SquaresAbout(samples[..n], centre) + Times(samples[n] - centre, samples[n] - centre)
  }

  /** The sample variance; 0 below two samples. */
  function VarianceOf(samples: seq<real>): real {
    if |samples| < 2 then 0.0 else SquaresAbout(samples, Mean(samples)) / (|samples| - 1) as real
  }

  method Moments(samples: seq<real>) returns (mean: real, variance: real)
    ensures mean == Mean(samples) && variance == VarianceOf(samples)
  {
    hide Times;
    mean, variance := 0.0, 0.0;
    if samples == [] {
      return;
    }
    var sum := 0.0;
    for i := 0 to |samples|
      invariant sum == Sum(samples[..i])
    {
      assert samples[..i + 1][..i] == samples[..i];
      sum := sum + samples[i];
    }
    assert samples[..|samples|] == samples;
    mean := sum / |samples| as real;
    if |samples| < 2 {
      return;
    }
    var squares := 0.0;
    for i := 0 to |samples|
      invariant squares == SquaresAbout(samples[..i], mean)
    {
      assert samples[..i + 1][..i] == samples[..i];
      var d := samples[i] - mean;
      squares := squares + Times(d, d);
    }
    variance := squares / (|samples| - 1) as real;
  }

  lemma MoveCentre(x: real, c: real, m: real)
    ensures Times(x - c, x - c) == Times(x - m, x - m) + 2.0 * Times(m - c, x - m) + Times(m - c, m - c)
  {
    SquareOfSum(m - c, x - m);
    assert x - c == (m - c) + (x - m);
  }

  lemma {:induction false} SquaresMove(samples: seq<real>, c: real, m: real)
    ensures SquaresAbout(samples, c) ==
            SquaresAbout(samples, m)
            + 2.0 * Times(m - c, Sum(samples) - Times(|samples| as real, m))
            + Times(|samples| as real, Times(m - c, m - c))
  {
    hide Times;
    var k := m - c;
    if samples == [] {
      ByZero(m);
      ByZero(k);
      ByZero(Times(k, k));
    } else {
      var n := |samples| - 1;
      var x, s := samples[n], Sum(samples[..n]);
      SquaresMove(samples[..n], c, m);
      MoveCentre(x, c, m);
      Distribute(n as real, 1.0, m);
      OneTimes(m);
      Distribute(n as real, 1.0, Times(k, k));
      OneTimes(Times(k, k));
      Distribute(s - Times(n as real, m), x - m, k);
    }
  }

  /** The samples balance about their mean, and their squared distances from anywhere else are larger. */
  lemma MeanIsLeastSquares(samples: seq<real>, c: real)
    requires samples != []
    ensures var m := Mean(samples);
            Sum(samples) == Times(|samples| as real, m)
            && SquaresAbout(samples, c) == SquaresAbout(samples, m) + Times(|samples| as real, Times(m - c, m - c))
            && SquaresAbout(samples, m) <= SquaresAbout(samples, c)
  {
    var m, n := Mean(samples), |samples| as real;
    assert m * n == Sum(samples);
    SquaresMove(samples, c, m);
    SquareOfSum(m - c, 0.0);
    SquareOfSum(n, Times(m - c, m - c));
  }

  lemma {:induction false} SquaresVanish(samples: seq<real>, c: real)
    ensures SquaresAbout(samples, c) >= 0.0
    ensures SquaresAbout(samples, c) == 0.0 <==> forall i :: 0 <= i < |samples| ==> samples[i] == c
  {
    if samples != [] {
      var n := |samples| - 1;
      SquaresVanish(samples[..n], c);
      NoSquareIsNegative(samples[n] - c);
      assert forall i :: 0 <= i < n ==> samples[i] == samples[..n][i];
    }
  }

  lemma NoSquareIsNegative(x: real)
    ensures Times(x, x) >= 0.0 && (Times(x, x) == 0.0 <==> x == 0.0)
  {
    if x != 0.0 {
      SquareIsPositive(x);
    }
  }

  /** The squared distances of the samples from each of the first k of them, added up. */
  function PairSquares(samples: seq<real>, k: nat): real
    requires k <= |samples|
  {
    if k == 0 then 0.0 else PairSquares(samples, k - 1) + SquaresAbout(samples, samples[k - 1])
  }

  lemma {:induction false} PairSquaresMove(samples: seq<real>, k: nat)
    requires samples != [] && k <= |samples|
    ensures var m, n := Mean(samples), |samples| as real;
            PairSquares(samples, k) ==
            Times(k as real, SquaresAbout(samples, m)) + Times(n, SquaresAbout(samples[..k], m))
  {
    hide Times, Mean;
    var m, n := Mean(samples), |samples| as real;
    var all := SquaresAbout(samples, m);
    if k == 0 {
      ByZero(all);
      ByZero(n);
      Commute(n, 0.0);
    } else {
      var x := samples[k - 1];
      assert samples[..k][..k - 1] == samples[..k - 1];
      PairSquaresMove(samples, k - 1);
      MeanIsLeastSquares(samples, x);
      Distribute((k - 1) as real, 1.0, all);
      OneTimes(all);
      SquareOfDifference(m, x);
      Commute(n, SquaresAbout(samples[..k - 1], m));
      Commute(n, Times(x - m, x - m));
      Commute(n, SquaresAbout(samples[..k], m));
      Distribute(SquaresAbout(samples[..k - 1], m), Times(x - m, x - m), n);
    }
  }

  lemma SquareOfDifference(x: real, y: real)
    ensures Times(x - y, x - y) == Times(y - x, y - x)
  {
  }

  /** The variance is half the mean squared difference of two different samples: there are n * (n - 1) ordered pairs. */
  lemma VarianceIsOfPairs(samples: seq<real>)
    requires |samples| >= 2
    ensures var n := |samples| as real;
            PairSquares(samples, |samples|) == 2.0 * Times(n, Times(n - 1.0, VarianceOf(samples)))
  {
    hide Times, Mean, PairSquares;
    PairSquaresMove(samples, |samples|);
    assert samples[..|samples|] == samples;
    MultipliedBack(SquaresAbout(samples, Mean(samples)), |samples| as real - 1.0);
  }

  lemma MultipliedBack(x: real, y: real)
    requires y != 0.0
    ensures Times(y, x / y) == x
  {
  }

  /** The variance is never negative, and is 0 exactly when all samples are the same. */
  lemma VarianceVanishes(samples: seq<real>)
    requires |samples| >= 2
    ensures VarianceOf(samples) >= 0.0
    ensures VarianceOf(samples) == 0.0 <==> forall i, j :: 0 <= i < j < |samples| ==> samples[i] == samples[j]
  {
    hide Times;
    var m, n := Mean(samples), (|samples| - 1) as real;
    var squares := SquaresAbout(samples, m);
    SquaresVanish(samples, m);
    QuotientIsNonNegative(squares, n);
    assert squares / n * n == squares;
    if forall i, j :: 0 <= i < j < |samples| ==> samples[i] == samples[j] {
      SquaresVanish(samples, samples[0]);
      MeanIsLeastSquares(samples, samples[0]);
    }
  }

  // ---- Student's t ----------------------------------------------------------------------

  datatype Step = Step(from: nat, t: real)

  /** Two-sided 95% critical values for 1 to 30 degrees of freedom. */
  const TABLE: seq<real> := [
    12.706, 4.303, 3.182, 2.776, 2.571, 2.447, 2.365, 2.306, 2.262, 2.228,
    2.201, 2.179, 2.160, 2.145, 2.131, 2.120, 2.110, 2.101, 2.093, 2.086,
    2.080, 2.074, 2.069, 2.064, 2.060, 2.056, 2.052, 2.048, 2.045, 2.042]

  const STEPS: seq<Step> := [Step(120, 1.980), Step(60, 2.000), Step(40, 2.021)]

  /** The degrees of freedom some value is listed for. */
  predicate Listed(degrees: nat) {
    1 <= degrees <= 30 || degrees == 40 || degrees == 60 || degrees == 120
  }

  function ListedValue(degrees: nat): real
    requires Listed(degrees)
  {
    if degrees <= 30 then TABLE[degrees - 1]
    else if degrees == 40 then 2.021
    else if degrees == 60 then 2.000
    else 1.980
  }

  /** The largest listed degrees not above the request; the smallest of all for none. */
  function ListedBelow(degrees: nat): (d: nat)
    ensures Listed(d)
    ensures degrees > 0 ==> d <= degrees && forall e: nat :: Listed(e) && e <= degrees ==> e <= d
  {
    if degrees == 0 then 1
    else if degrees <= 30 then degrees
    else if degrees < 40 then 30
    else if degrees < 60 then 40
    else if degrees < 120 then 60
    else 120
  }

  function Critical(degrees: nat): real {
    ListedValue(ListedBelow(degrees))
  }

  method TCritical(degrees: nat) returns (t: real)
    ensures t == Critical(degrees)
  {
    if degrees <= |TABLE| {
      var index := if degrees == 0 then 0 else degrees - 1;
      return TABLE[index];
    }
    for i := 0 to |STEPS|
      invariant forall j :: 0 <= j < i ==> degrees < STEPS[j].from
    {
      assert STEPS[0] == Step(120, 1.980) && STEPS[1] == Step(60, 2.000) && STEPS[2] == Step(40, 2.021);
      assert i == 0 || i == 1 || i == 2;
      assert i > 0 ==> degrees < STEPS[0].from;
      assert i > 1 ==> degrees < STEPS[1].from;
      if degrees >= STEPS[i].from {
        return STEPS[i].t;
      }
    }
    assert degrees < STEPS[2].from;
    return TABLE[|TABLE| - 1];
  }

  /** More degrees never give a larger t: the interval of fewer is at least as wide. */
  lemma CriticalIsAntitone(a: nat, b: nat)
    requires a <= b
    ensures Critical(a) >= Critical(b) >= 1.980
  {
  }

  // ---- Intervals ----------------------------------------------------------------------

  /** The reference noise in a corrected mean, as a variance with its degrees of freedom. */
  datatype Correction = Correction(variance: real, maxDegrees: nat)

  const NO_CORRECTION := Correction(0.0, 0xFFFF_FFFF_FFFF_FFFF)

  /** The reference readings' own degrees are never fewer than one. */
  predicate Fair(correction: Correction) {
    0 < correction.maxDegrees
  }

  function SpreadOf(sampleTerm: real, n: nat, correction: Correction): real
    requires n >= 2 && Fair(correction)
  {
    Times(sampleTerm, sampleTerm) / (n - 1) as real
    + Times(correction.variance, correction.variance) / correction.maxDegrees as real
  }

  lemma SpreadIsPositive(sampleTerm: real, n: nat, correction: Correction)
    requires n >= 2 && Fair(correction) && correction.variance > 0.0
    ensures SpreadOf(sampleTerm, n, correction) > 0.0
  {
    hide Times;
    NoSquareIsNegative(sampleTerm);
    NoSquareIsNegative(correction.variance);
    QuotientIsNonNegative(Times(sampleTerm, sampleTerm), (n - 1) as real);
    PositiveQuotient(Times(correction.variance, correction.variance), correction.maxDegrees as real);
  }

  lemma PositiveQuotient(x: real, y: real)
    requires x > 0.0 && y > 0.0
    ensures x / y > 0.0
  {
    assert x / y * y == x;
  }

  /** Welch and Satterthwaite, rounded down, at least 1 and at most the replicates' own. */
  function CombinedDegrees(sampleTerm: real, n: nat, correction: Correction): (d: nat)
    requires n >= 2 && Fair(correction)
    ensures 1 <= d <= n - 1
  {
    if correction.variance <= 0.0 then n - 1
    else
      SpreadIsPositive(sampleTerm, n, correction);
      var total := sampleTerm + correction.variance;
      var floored := (Times(total, total) / SpreadOf(sampleTerm, n, correction)).Floor;
      var degrees := if floored < n - 1 then floored else n - 1;
      if degrees < 1 then 1 else degrees
  }

  lemma ShareOfSpread(x: real, d: real, m: real)
    requires x >= 0.0 && 1.0 <= m <= d
    ensures m * (x / d) <= x
  {
    assert x / d >= 0.0 by { QuotientIsNonNegative(x, d); }
    assert x / d * d == x;
    assert (d - m) * (x / d) >= 0.0;
  }

  /** The combined degrees are between the smaller of the two and the replicates' own. */
  lemma CombinedDegreesAreBetween(sampleTerm: real, n: nat, correction: Correction)
    requires n >= 2 && Fair(correction) && sampleTerm >= 0.0
    ensures var d := CombinedDegrees(sampleTerm, n, correction);
            (if n - 1 < correction.maxDegrees then n - 1 else correction.maxDegrees) <= d <= n - 1
  {
    hide Times;
    if correction.variance > 0.0 {
      var m := if n - 1 < correction.maxDegrees then n - 1 else correction.maxDegrees;
      RatioIsAtLeast(sampleTerm, n, correction, m);
    }
  }

  /** They are the largest whole number, up to the replicates' own, not above the Welch-Satterthwaite ratio. */
  lemma CombinedDegreesAreExact(sampleTerm: real, n: nat, correction: Correction)
    requires n >= 2 && Fair(correction) && sampleTerm >= 0.0 && correction.variance > 0.0
    ensures var d := CombinedDegrees(sampleTerm, n, correction);
            var s, v := sampleTerm, correction.variance;
            var spread := Times(s, s) / (n - 1) as real + Times(v, v) / correction.maxDegrees as real;
            && spread > 0.0 && d as real <= Times(s + v, s + v) / spread
            && (d == n - 1 || Times(s + v, s + v) / spread < d as real + 1.0)
  {
    hide Times;
    var s, v := sampleTerm, correction.variance;
    var m := if n - 1 < correction.maxDegrees then n - 1 else correction.maxDegrees;
    SpreadIsPositive(s, n, correction);
    RatioIsAtLeast(s, n, correction, m);
  }

  lemma RatioIsAtLeast(s: real, n: nat, correction: Correction, m: nat)
    requires n >= 2 && Fair(correction) && s >= 0.0 && correction.variance > 0.0
    requires 1 <= m <= n - 1 && m <= correction.maxDegrees
    ensures SpreadOf(s, n, correction) > 0.0
    ensures m as real <= Times(s + correction.variance, s + correction.variance) / SpreadOf(s, n, correction)
  {
    hide Times;
    var v := correction.variance;
    var spread, square := SpreadOf(s, n, correction), Times(s + v, s + v);
    SpreadIsPositive(s, n, correction);
    SquareOfSum(s, v);
    SquareOfSum(v, s);
    ShareOfSpread(Times(s, s), (n - 1) as real, m as real);
    ShareOfSpread(Times(v, v), correction.maxDegrees as real, m as real);
    SpreadTimes(m as real, Times(s, s) / (n - 1) as real, Times(v, v) / correction.maxDegrees as real);
    assert m as real * spread <= square;
    DivideBy(m as real, square, spread);
  }

  lemma SpreadTimes(m: real, a: real, b: real)
    ensures m * (a + b) == m * a + m * b
  {
  }

  /** The squared half-width of the 95% interval of the mean. */
  function SquaredHalfWidth(variance: real, n: nat, correction: Correction): real
    requires n >= 2 && Fair(correction)
  {
    var sampleTerm := variance / n as real;
    var t := Critical(CombinedDegrees(sampleTerm, n, correction));
    Times(Times(t, t), sampleTerm + correction.variance)
  }

  /** The half-width is t times the root of the variance over n and the correction's, for whatever the roots are. */
  lemma HalfWidthIsScaled(sd: real, se: real, n: nat, correction: Correction)
    requires n >= 2 && Fair(correction)
    requires Times(se, se) == Times(sd, sd) / n as real + correction.variance
    ensures var t := Critical(CombinedDegrees(Times(sd, sd) / n as real, n, correction));
            SquaredHalfWidth(Times(sd, sd), n, correction) == Times(Times(t, se), Times(t, se))
  {
    hide Critical, CombinedDegrees;
  }

  lemma ProductsGrow(a: real, b: real, x: real, y: real)
    requires 0.0 <= a <= b && 0.0 <= x <= y
    ensures Times(a, x) <= Times(b, y)
  {
    assert (b - a) * x >= 0.0;
    assert b * (y - x) >= 0.0;
  }

  /** A correction never narrows the interval, and widens it whenever it adds variance. */
  lemma CorrectionNeverNarrows(variance: real, n: nat, correction: Correction)
    requires n >= 2 && Fair(correction) && variance >= 0.0 && correction.variance >= 0.0
    ensures SquaredHalfWidth(variance, n, NO_CORRECTION) <= SquaredHalfWidth(variance, n, correction)
    ensures correction.variance > 0.0 ==>
              SquaredHalfWidth(variance, n, NO_CORRECTION) < SquaredHalfWidth(variance, n, correction)
  {
    hide Times, Critical;
    var s := variance / n as real;
    QuotientIsNonNegative(variance, n as real);
    var few, many := CombinedDegrees(s, n, correction), n - 1;
    CriticalIsAntitone(few, many);
    var t, u := Critical(many), Critical(few);
    ProductsGrow(t, u, t, u);
    SquareIsLarge(t);
    SquareIsLarge(u);
    assert SquaredHalfWidth(variance, n, NO_CORRECTION) == Times(Times(t, t), s);
    ProductsGrow(Times(t, t), Times(u, u), s, s);
    Distribute(s, correction.variance, Times(u, u));
    ScaledUp(Times(u, u), correction.variance);
  }

  lemma SquareIsLarge(t: real)
    requires t >= 1.980
    ensures Times(t, t) >= 1.0
  {
    assert t * t >= t;
  }

  lemma ScaledUp(k: real, v: real)
    requires k >= 1.0 && v >= 0.0
    ensures Times(k, v) >= v
  {
    assert (k - 1.0) * v >= 0.0;
  }

  // ---- Estimates and claims --------------------------------------------------------------

  /** Replicates of one measurement; the spread and the interval are absent below two. */
  datatype Estimated = Estimated(replicates: nat, mean: real, variance: Option<real>, squaredHalfWidth: Option<real>)

  function EstimateOf(samples: seq<real>, correction: Correction): (e: Estimated)
    requires Fair(correction)
    ensures e.variance.Some? == e.squaredHalfWidth.Some? == (|samples| >= 2)
  {
    if |samples| >= 2 then
      Estimated(|samples|, Mean(samples), Some(VarianceOf(samples)),
                Some(SquaredHalfWidth(VarianceOf(samples), |samples|, correction)))
    else Estimated(|samples|, Mean(samples), None, None)
  }

  /** A claim always has its replicate count, spread and interval. */
  datatype WorstCase = WorstCase(candidate: string, replicates: nat, mean: real, variance: real,
                                 squaredHalfWidth: real, correctionVariance: real)

  function WorstCaseOf(candidate: string, samples: seq<real>, correction: Correction): (claim: Option<WorstCase>)
    requires Fair(correction)
    ensures claim.Some? <==> |samples| >= 2
    ensures claim.Some? ==>
              claim.value.replicates >= 2
              && EstimateOf(samples, correction) ==
                 Estimated(claim.value.replicates, claim.value.mean,
                           Some(claim.value.variance), Some(claim.value.squaredHalfWidth))
  {
    if |samples| < 2 then None
    else
      Some(WorstCase(candidate, |samples|, Mean(samples), VarianceOf(samples),
                     SquaredHalfWidth(VarianceOf(samples), |samples|, correction), correction.variance))
  }

  /** Whether a gap is more than two half-widths together, told from their squares. */
  predicate Exceeds(gap: real, a2: real, b2: real) {
    var rest := Times(gap, gap) - a2 - b2;
    gap > 0.0 && rest > 0.0 && Times(rest, rest) > 4.0 * Times(a2, b2)
  }

  lemma RootsOfProduct(a: real, b: real)
    ensures Times(2.0 * Times(a, b), 2.0 * Times(a, b)) == 4.0 * Times(Times(a, a), Times(b, b))
  {
    var p := a * b;
    assert (2.0 * p) * (2.0 * p) == 4.0 * (p * p);
    assert p * p == (a * a) * (b * b);
  }

  lemma SquaresCompare(x: real, y: real)
    requires x >= 0.0 && y >= 0.0
    ensures Times(x, x) > Times(y, y) <==> x > y
  {
    if x > y {
      assert x * x - y * y == (x - y) * (x + y);
      ProductIsPositive(x - y, x + y);
    } else {
      assert y * y - x * x == (y - x) * (y + x);
      assert (y - x) * (y + x) >= 0.0;
    }
  }

  /** Comparing squares is comparing the half-widths themselves. */
  lemma ExceedsIsTheGap(gap: real, a: real, b: real)
    requires a >= 0.0 && b >= 0.0
    ensures Exceeds(gap, Times(a, a), Times(b, b)) <==> gap > a + b
  {
    hide Times;
    var rest, twice := Times(gap, gap) - Times(a, a) - Times(b, b), 2.0 * Times(a, b);
    SquareOfSum(a, b);
    RootsOfProduct(a, b);
    if gap > 0.0 {
      SquaresCompare(gap, a + b);
      if rest >= 0.0 {
        SquaresCompare(rest, twice);
      }
    }
  }

  /** Intervals a gap apart have no point in common, and all of one is beyond all of the other. */
  lemma GapSeparates(mean: real, a: real, other: real, b: real, direction: real, x: real, y: real)
    requires a >= 0.0 && b >= 0.0 && (direction == 1.0 || direction == -1.0)
    requires Exceeds(Times(direction, mean - other), Times(a, a), Times(b, b))
    requires mean - a <= x <= mean + a && other - b <= y <= other + b
    ensures Times(direction, x) > Times(direction, y)
  {
    ExceedsIsTheGap(Times(direction, mean - other), a, b);
  }
}
