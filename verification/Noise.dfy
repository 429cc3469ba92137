/**
 The reference's noise: each interior reading against the line through its
 neighbours, and how many degrees of freedom that estimate is worth.
 */
module Noise {
  import opened Sums
  import opened Drift

  // ---- The variance --------------------------------------------------------------------

  /** The place of an interior reading between its neighbours; the middle if they are not in order. */
  function Place(points: seq<ReferencePoint>, i: nat): real
    requires 0 < i < |points| - 1
  {
    var span := points[i + 1].atNs - points[i - 1].atNs;
    if span > 0 then (points[i].atNs - points[i - 1].atNs) as real / span as real else 0.5
  }

  function Residual(points: seq<ReferencePoint>, i: nat): real
    requires 0 < i < |points| - 1
  {
    points[i].value
    - (points[i - 1].value + Times(Place(points, i), points[i + 1].value - points[i - 1].value))
  }

  /** The variance of a residual over the variance of a reading. */
  function Spread(w: real): (s: real)
    ensures s >= 1.0
  {
    SquareOfSum(w, 0.0);
    SquareOfSum(1.0 - w, 0.0);
    1.0 + Times(w, w) + Times(1.0 - w, 1.0 - w)
  }

  /** The squared, scaled residuals of the interior readings before the n-th. */
  function SquaredResiduals(points: seq<ReferencePoint>, n: nat): real
    requires n < |points|
  {
    if n <= 1 then 0.0
    else
      SquaredResiduals(points, n - 1)
      + Times(Residual(points, n - 1), Residual(points, n - 1)) / Spread(Place(points, n - 1))
  }

  function Variance(points: seq<ReferencePoint>): real {
    if |points| < 2 then 0.0
    else if |points| == 2 then
      var step := points[1].value - points[0].value;
      Times(step, step) / 2.0
    else SquaredResiduals(points, |points| - 1) / (|points| - 2) as real
  }

  method ReferenceVariance(points: seq<ReferencePoint>) returns (v: real)
    ensures v == Variance(points)
  {
    hide Times;
    var n := |points|;
    if n < 2 {
      return 0.0;
    }
    if n == 2 {
      var step := points[1].value - points[0].value;
      return Times(step, step) / 2.0;
    }
    var total := 0.0;
    for i := 1 to n - 1
      invariant total == SquaredResiduals(points, i)
    {
      var spanNs := (points[i + 1].atNs - points[i - 1].atNs) as real;
      var w := if spanNs > 0.0 then (points[i].atNs - points[i - 1].atNs) as real / spanNs else 0.5;
      var residual := points[i].value - (points[i - 1].value + Times(w, points[i + 1].value - points[i - 1].value));
      total := total + Times(residual, residual) / Spread(w);
    }
    return total / (n - 2) as real;
  }

  lemma {:induction false} ResidualsAreNonNegative(points: seq<ReferencePoint>, n: nat)
    requires n < |points|
    ensures SquaredResiduals(points, n) >= 0.0
  {
    hide Times, Residual, Place;
    if n > 1 {
      ResidualsAreNonNegative(points, n - 1);
      var r := Residual(points, n - 1);
      SquareOfSum(r, 0.0);
      QuotientIsNonNegative(Times(r, r), Spread(Place(points, n - 1)));
    }
  }

  lemma VarianceIsNonNegative(points: seq<ReferencePoint>)
    ensures Variance(points) >= 0.0
  {
    hide Times, SquaredResiduals;
    if |points| > 2 {
      ResidualsAreNonNegative(points, |points| - 1);
      QuotientIsNonNegative(SquaredResiduals(points, |points| - 1), (|points| - 2) as real);
    } else if |points| == 2 {
      SquareOfSum(points[1].value - points[0].value, 0.0);
    }
  }

  /** Every interior reading's neighbours are in time order. */
  ghost predicate InOrder(points: seq<ReferencePoint>) {
    forall i, j :: 0 <= i < j < |points| && j == i + 2 ==> points[i].atNs < points[j].atNs
  }

  /** Readings with a drift along a line added to each. */
  predicate Drifted(points: seq<ReferencePoint>, was: seq<ReferencePoint>, origin: real, slope: real) {
    && |points| == |was|
    && forall i :: 0 <= i < |points| ==>
         && points[i].atNs == was[i].atNs
         && points[i].value == was[i].value + origin + Times(slope, was[i].atNs as real)
  }

  lemma LineHasNoResidual(slope: real, t0: int, t: int, t1: int)
    requires t0 < t1
    ensures var w := (t - t0) as real / (t1 - t0) as real;
            Times(w, Times(slope, t1 as real) - Times(slope, t0 as real)) ==
            Times(slope, t as real) - Times(slope, t0 as real)
  {
    var span, part := (t1 - t0) as real, (t - t0) as real;
    var w := part / span;
    assert w * span == part;
    assert slope * t1 as real - slope * t0 as real == slope * span;
    assert w * (slope * span) == slope * (w * span);
  }

  lemma ResidualIgnoresDrift(points: seq<ReferencePoint>, was: seq<ReferencePoint>, origin: real, slope: real, i: nat)
    requires Drifted(points, was, origin, slope) && InOrder(was) && 0 < i < |was| - 1
    ensures Place(points, i) == Place(was, i) && Residual(points, i) == Residual(was, i)
  {
    hide Times;
    var w, t0, t1 := Place(was, i), was[i - 1].atNs, was[i + 1].atNs;
    LineHasNoResidual(slope, t0, was[i].atNs, t1);
    Distribute(was[i + 1].value - was[i - 1].value, Times(slope, t1 as real) - Times(slope, t0 as real), w);
    assert points[i + 1].value - points[i - 1].value ==
           (was[i + 1].value - was[i - 1].value) + (Times(slope, t1 as real) - Times(slope, t0 as real));
  }

  lemma {:induction false} ResidualsIgnoreDrift(points: seq<ReferencePoint>, was: seq<ReferencePoint>,
                                                origin: real, slope: real, n: nat)
    requires Drifted(points, was, origin, slope) && InOrder(was) && n < |was|
    ensures SquaredResiduals(points, n) == SquaredResiduals(was, n)
  {
    hide Times, Residual, Place, Spread, Drifted, InOrder;
    DriftedLength(points, was, origin, slope);
    if n > 1 {
      ResidualsIgnoreDrift(points, was, origin, slope, n - 1);
      ResidualIgnoresDrift(points, was, origin, slope, n - 1);
    }
  }

  lemma DriftedLength(points: seq<ReferencePoint>, was: seq<ReferencePoint>, origin: real, slope: real)
    requires Drifted(points, was, origin, slope)
    ensures |points| == |was|
  {
  }

  /** Only noise is measured: with three readings or more, a drift along a line changes nothing. */
  lemma VarianceIgnoresDrift(points: seq<ReferencePoint>, was: seq<ReferencePoint>, origin: real, slope: real)
    requires Drifted(points, was, origin, slope) && InOrder(was) && |was| >= 3
    ensures Variance(points) == Variance(was)
  {
    ResidualsIgnoreDrift(points, was, origin, slope, |was| - 1);
  }

  function Still(points: seq<ReferencePoint>): (r: seq<ReferencePoint>)
    ensures |r| == |points| && forall i :: 0 <= i < |r| ==> r[i] == ReferencePoint(points[i].atNs, 0.0)
  {
    seq(|points|, i requires 0 <= i < |points| => ReferencePoint(points[i].atNs, 0.0))
  }

  lemma {:induction false} StillHasNoResiduals(points: seq<ReferencePoint>, n: nat)
    requires n < |points|
    ensures SquaredResiduals(Still(points), n) == 0.0
  {
    hide Times, Place, Spread;
    if n > 1 {
      StillHasNoResiduals(points, n - 1);
      ByZero(Place(Still(points), n - 1));
      ByZero(0.0);
    }
  }

  /** Readings on a line show no noise at all. */
  lemma LineHasNoVariance(points: seq<ReferencePoint>, origin: real, slope: real)
    requires OnLine(points, origin, slope) && InOrder(points) && |points| >= 3
    ensures Variance(points) == 0.0
  {
    VarianceIgnoresDrift(points, Still(points), origin, slope);
    StillHasNoResiduals(points, |points| - 1);
  }

  /** The evidence of two readings is their difference, which drift inflates. */
  lemma DriftInflatesTwo(points: seq<ReferencePoint>, was: seq<ReferencePoint>, origin: real, slope: real)
    requires Drifted(points, was, origin, slope) && |was| == 2
    requires was[0].value == was[1].value && was[0].atNs < was[1].atNs && slope != 0.0
    ensures Variance(was) == 0.0 < Variance(points)
  {
    var step, dt := points[1].value - points[0].value, (was[1].atNs - was[0].atNs) as real;
    assert slope * was[1].atNs as real - slope * was[0].atNs as real == slope * dt;
    assert step == slope * dt;
    assert step != 0.0;
    SquareIsPositive(step);
  }

  // ---- What is divided by, and why ---------------------------------------------------------

  /** A reading less the line through its neighbours at the place w between them, as coefficients of n readings. */
  function Contrast(n: nat, i: nat, w: real): (c: seq<real>)
    requires i > 0
    ensures |c| == n
    ensures forall k :: 0 <= k < n ==>
              c[k] == if k == i then 1.0 else if k == i - 1 then w - 1.0 else if k == i + 1 then 0.0 - w else 0.0
  {
    seq(n, k requires 0 <= k < n =>
          if k == i then 1.0 else if k == i - 1 then w - 1.0 else if k == i + 1 then 0.0 - w else 0.0)
  }

  lemma {:induction false} ContrastDot(n: nat, i: nat, w: real, v: seq<real>, k: nat)
    requires 0 < i && |v| == n && k <= n
    ensures Dot(Contrast(n, i, w)[..k], v[..k]) ==
            (if i - 1 < k then Times(w - 1.0, v[i - 1]) else 0.0)
            + (if i < k then v[i] else 0.0)
            + (if i + 1 < k then Times(0.0 - w, v[i + 1]) else 0.0)
  {
    hide Times;
    if k > 0 {
      var c := Contrast(n, i, w);
      assert c[..k][..k - 1] == c[..k - 1] && v[..k][..k - 1] == v[..k - 1];
      ContrastDot(n, i, w, v, k - 1);
      OneTimes(v[k - 1]);
      ByZero(v[k - 1]);
    }
  }

  /** The contrast of an interior reading, at its place between its neighbours. */
  function ContrastAt(points: seq<ReferencePoint>, i: nat): (c: seq<real>)
    requires 0 < i < |points| - 1
    ensures |c| == |points|
  {
    Contrast(|points|, i, Place(points, i))
  }

  lemma LineThrough(x: real, y: real, z: real, w: real)
    ensures y - (x + Times(w, z - x)) == Times(w - 1.0, x) + y + Times(0.0 - w, z)
  {
  }

  /** At any spacing a residual is the contrast of the readings. */
  lemma ResidualIsContrast(points: seq<ReferencePoint>, i: nat)
    requires 0 < i < |points| - 1
    ensures Residual(points, i) == Dot(ContrastAt(points, i), Values(points))
  {
    hide Times, Place;
    var n, v, w := |points|, Values(points), Place(points, i);
    ContrastDot(n, i, w, v, n);
    assert Contrast(n, i, w)[..n] == Contrast(n, i, w) && v[..n] == v;
    LineThrough(v[i - 1], v[i], v[i + 1], w);
  }

  lemma SquaredContrast(w: real)
    ensures Times(w - 1.0, w - 1.0) + 1.0 + Times(0.0 - w, 0.0 - w) == Spread(w)
  {
  }

  /** What a squared residual is divided by is the contrast's own square: its variance over a reading's. */
  lemma DivisorIsContrast(points: seq<ReferencePoint>, i: nat)
    requires 0 < i < |points| - 1
    ensures Spread(Place(points, i)) == Dot(ContrastAt(points, i), ContrastAt(points, i))
  {
    hide Times, Place;
    var n, w := |points|, Place(points, i);
    var c := Contrast(n, i, w);
    ContrastDot(n, i, w, c, n);
    assert c[..n] == c;
    SquaredContrast(w);
  }

  /** The contrasts of the interior readings before the n-th, squared and each over its own square. */
  function SquaredContrasts(points: seq<ReferencePoint>, n: nat): real
    requires n < |points|
    requires forall i :: 0 < i < n ==> Dot(ContrastAt(points, i), ContrastAt(points, i)) != 0.0
  {
    if n <= 1 then 0.0
    else
      var c := ContrastAt(points, n - 1);
      var residual := Dot(c, Values(points));
      SquaredContrasts(points, n - 1) + residual * residual / Dot(c, c)
  }

  lemma {:induction false} ResidualsAreContrasts(points: seq<ReferencePoint>, n: nat)
    requires n < |points|
    ensures forall i :: 0 < i < n ==> Dot(ContrastAt(points, i), ContrastAt(points, i)) >= 1.0
    ensures SquaredResiduals(points, n) == SquaredContrasts(points, n)
  {
    hide Residual, Place, Spread, ContrastAt, Dot;
    forall i | 0 < i < n ensures Dot(ContrastAt(points, i), ContrastAt(points, i)) >= 1.0 {
      DivisorIsContrast(points, i);
    }
    if n > 1 {
      ResidualsAreContrasts(points, n - 1);
      ResidualIsContrast(points, n - 1);
      DivisorIsContrast(points, n - 1);
    }
  }

  /**
   For three readings or more the variance is the mean over the interior ones
   of the squared residual over its own share of the noise, so each term has
   the noise's variance as its mean.
   */
  lemma VarianceIsOfContrasts(points: seq<ReferencePoint>)
    requires |points| >= 3
    ensures forall i :: 0 < i < |points| - 1 ==> Dot(ContrastAt(points, i), ContrastAt(points, i)) != 0.0
    ensures Variance(points) * (|points| - 2) as real == SquaredContrasts(points, |points| - 1)
  {
    hide ContrastAt, Dot, SquaredContrasts, SquaredResiduals;
    ResidualsAreContrasts(points, |points| - 1);
    var total, n := SquaredResiduals(points, |points| - 1), (|points| - 2) as real;
    assert total / n * n == total;
  }

  /** Two readings are taken for samples: the variance is that of their distances from the mean, one degree for two. */
  lemma TwoAreSamples(points: seq<ReferencePoint>)
    requires |points| == 2
    ensures var x, y := points[0].value, points[1].value;
            var mean := (x + y) / 2.0;
            Variance(points) == Times(x - mean, x - mean) + Times(y - mean, y - mean)
  {
  }

  /** Equally spaced, that share is the covariance of a residual with itself. */
  lemma DivisorIsCovariance(points: seq<ReferencePoint>, i: nat)
    requires i + 2 < |points| && points[i + 1].atNs - points[i].atNs == points[i + 2].atNs - points[i + 1].atNs > 0
    ensures Dot(ContrastAt(points, i + 1), ContrastAt(points, i + 1)) == Covariance(|points|, i, i) == 1.5
  {
    var dt := (points[i + 1].atNs - points[i].atNs) as real;
    assert dt / (2.0 * dt) == 0.5;
    assert Place(points, i + 1) == 0.5;
    Correlations(|points|, i, i);
  }

  /** Where the neighbours are not in order, a reading is set against their plain mean. */
  lemma OutOfOrderIsMiddle(points: seq<ReferencePoint>, i: nat)
    requires 0 < i < |points| - 1 && points[i + 1].atNs <= points[i - 1].atNs
    ensures Residual(points, i) == points[i].value - (points[i - 1].value + points[i + 1].value) / 2.0
  {
  }

  // ---- Effective degrees of freedom, for readings equally spaced -----------------------------

  /** Equally spaced, how much of each of n readings is in the residual of the (i + 1)-th. */
  function Coefficients(n: nat, i: nat): (c: seq<real>)
    ensures |c| == n
    ensures forall k :: 0 <= k < n ==> c[k] == if k == i + 1 then 1.0 else if k == i || k == i + 2 then -0.5 else 0.0
  {
    Contrast(n, i + 1, 0.5)
  }

  lemma SparseDot(n: nat, i: nat, v: seq<real>)
    requires |v| == n
    ensures Dot(Coefficients(n, i), v) ==
            (if i < n then Times(-0.5, v[i]) else 0.0)
            + (if i + 1 < n then v[i + 1] else 0.0)
            + (if i + 2 < n then Times(-0.5, v[i + 2]) else 0.0)
  {
    ContrastDot(n, i + 1, 0.5, v, n);
    assert Contrast(n, i + 1, 0.5)[..n] == Contrast(n, i + 1, 0.5) && v[..n] == v;
  }

  /** Equally spaced, a residual is the reading less the mean of its neighbours: those coefficients. */
  lemma ResidualIsSparse(points: seq<ReferencePoint>, i: nat)
    requires i + 2 < |points| && points[i + 1].atNs - points[i].atNs == points[i + 2].atNs - points[i + 1].atNs > 0
    ensures Residual(points, i + 1) == Dot(Coefficients(|points|, i), Values(points))
  {
    var n, v := |points|, Values(points);
    SparseDot(n, i, v);
    var dt := (points[i + 1].atNs - points[i].atNs) as real;
    assert dt / (2.0 * dt) == 0.5;
    assert Place(points, i + 1) == 0.5;
  }

  /** The covariance of two residuals over the variance of a reading. */
  function Covariance(n: nat, i: nat, j: nat): real {
    Dot(Coefficients(n, i), Coefficients(n, j))
  }

  function Correlation(n: nat, i: nat, j: nat): real {
    Covariance(n, i, j) / 1.5
  }

  function SquaredCorrelation(n: nat, i: nat, j: nat): real {
    Correlation(n, i, j) * Correlation(n, i, j)
  }

  /** A residual has variance 3/2, correlation -2/3 with its neighbour, 1/6 two places away, none beyond. */
  lemma Correlations(n: nat, i: nat, j: nat)
    requires i + 2 < n && j + 2 < n
    ensures Covariance(n, i, i) == 1.5
    ensures Correlation(n, i, j) ==
            if i == j then 1.0
            else if i == j + 1 || j == i + 1 then -2.0 / 3.0
            else if i == j + 2 || j == i + 2 then 1.0 / 6.0
            else 0.0
  {
    var a, b := Coefficients(n, i), Coefficients(n, j);
    SparseDot(n, i, a);
    SparseDot(n, i, b);
  }

  /** The squared correlations of the i-th residual with the first k. */
  function Row(n: nat, i: nat, k: nat): real {
    if k == 0 then 0.0 else Row(n, i, k - 1) + SquaredCorrelation(n, i, k - 1)
  }

  /** The squared correlations of the first r residuals with the first k. */
  function Rows(n: nat, r: nat, k: nat): real {
    if r == 0 then 0.0 else Rows(n, r - 1, k) + Row(n, r - 1, k)
  }

  lemma {:induction false} RowBefore(n: nat, i: nat, k: nat)
    requires k <= i && i + 2 < n
    ensures Row(n, i, k) ==
            (if k + 1 > i && k > 0 then 4.0 / 9.0 else 0.0)
            + (if k + 2 > i && i >= 2 then 1.0 / 36.0 else 0.0)
  {
    if k > 0 {
      RowBefore(n, i, k - 1);
      Correlations(n, i, k - 1);
    }
  }

  lemma {:induction false} AddColumn(n: nat, r: nat, k: nat)
    requires r <= k && k + 2 < n
    ensures Rows(n, r, k + 1) == Rows(n, r, k) + Row(n, k, r)
  {
    if r > 0 {
      AddColumn(n, r - 1, k);
      Correlations(n, r - 1, k);
      Correlations(n, k, r - 1);
    }
  }

  /** All the squared correlations of m residuals, as derived from their coefficients. */
  lemma {:induction false} AllCorrelations(n: nat, m: nat)
    requires 0 < m && m + 2 <= n
    ensures Rows(n, m, m) ==
            if m == 1 then 1.0 else m as real + 8.0 * (m - 1) as real / 9.0 + (m - 2) as real / 18.0
  {
    var k := m - 1;
    Correlations(n, k, k);
    RowBefore(n, k, k);
    AddColumn(n, k, k);
    if m > 1 {
      AllCorrelations(n, k);
    }
  }

  function ReferenceDegrees(readings: nat): nat {
    if readings <= 3 then 1 else (readings - 2) / 2
  }

  /**
   The degrees credited are never above the effective ones, m * m over the sum
   of the m residuals' squared correlations, for three readings or more.
   */
  lemma DegreesErrLow(readings: nat)
    requires readings >= 3
    ensures 1 <= ReferenceDegrees(readings)
    ensures ReferenceDegrees(readings) == 1 || 2 * ReferenceDegrees(readings) <= readings - 2
    ensures readings - 2 < 2 * ReferenceDegrees(readings) + 2
    ensures var m := readings - 2;
            Rows(readings, m, m) > 0.0
            && ReferenceDegrees(readings) as real <= m as real * m as real / Rows(readings, m, m)
  {
    var m := readings - 2;
    AllCorrelations(readings, m);
    var s, d, x := Rows(readings, m, m), ReferenceDegrees(readings) as real, m as real;
    if m > 1 {
      HalfOfTwice(d, s, x);
    }
    DivideBy(d, x * x, s);
  }

  lemma HalfOfTwice(d: real, s: real, x: real)
    requires 0.0 <= d && 2.0 * d <= x && 0.0 < s <= 2.0 * x
    ensures d * s <= x * x
  {
    assert d * (2.0 * x - s) >= 0.0;
    assert (x - 2.0 * d) * x >= 0.0;
  }
}
