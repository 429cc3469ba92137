/** Finite sums of reals, as the explorer's loops accumulate them. */
module Sums {

  /** A product, as a name of its own so that a proof can choose when to look inside it. */
  function Times(x: real, y: real): real {
    x * y
  }

  function Sum(s: seq<real>): real {
    if s == [] then 0.0 else Sum(s[..|s| - 1]) + s[|s| - 1]
  }

  function Dot(a: seq<real>, b: seq<real>): real
    requires |a| == |b|
  {
    if a == [] then 0.0 else Dot(a[..|a| - 1], b[..|b| - 1]) + Times(a[|a| - 1], b[|b| - 1])
  }

  function Plus(a: seq<real>, b: seq<real>): (r: seq<real>)
    requires |a| == |b|
    ensures |r| == |a| && forall i :: 0 <= i < |r| ==> r[i] == a[i] + b[i]
  {
    seq(|a|, i requires 0 <= i < |a| => a[i] + b[i])
  }

  function Minus(a: seq<real>, b: seq<real>): (r: seq<real>)
    requires |a| == |b|
    ensures |r| == |a| && forall i :: 0 <= i < |r| ==> r[i] == a[i] - b[i]
  {
    seq(|a|, i requires 0 <= i < |a| => a[i] - b[i])
  }

  function Scale(c: real, a: seq<real>): (r: seq<real>)
    ensures |r| == |a| && forall i :: 0 <= i < |r| ==> r[i] == Times(c, a[i])
  {
    seq(|a|, i requires 0 <= i < |a| => Times(c, a[i]))
  }

  lemma Distribute(x: real, y: real, z: real)
    ensures Times(x + y, z) == Times(x, z) + Times(y, z)
    ensures Times(x - y, z) == Times(x, z) - Times(y, z)
    ensures Times(z, x + y) == Times(z, x) + Times(z, y)
    ensures Times(z, x - y) == Times(z, x) - Times(z, y)
  {
  }

  lemma Associate(x: real, y: real, z: real)
    ensures Times(Times(x, y), z) == Times(x, Times(y, z))
  {
  }

  lemma {:induction false} SumIsLinear(a: seq<real>, b: seq<real>)
    requires |a| == |b|
    ensures Sum(Plus(a, b)) == Sum(a) + Sum(b)
    ensures Sum(Minus(a, b)) == Sum(a) - Sum(b)
  {
    if a != [] {
      var n := |a| - 1;
      assert Plus(a, b)[..n] == Plus(a[..n], b[..n]);
      assert Minus(a, b)[..n] == Minus(a[..n], b[..n]);
      SumIsLinear(a[..n], b[..n]);
    }
  }

  lemma {:induction false} DotIsLinear(a: seq<real>, b: seq<real>, v: seq<real>)
    requires |a| == |b| == |v|
    ensures Dot(Plus(a, b), v) == Dot(a, v) + Dot(b, v)
    ensures Dot(Minus(a, b), v) == Dot(a, v) - Dot(b, v)
  {
    hide Times;
    if a != [] {
      var n := |a| - 1;
      assert Plus(a, b)[..n] == Plus(a[..n], b[..n]);
      assert Minus(a, b)[..n] == Minus(a[..n], b[..n]);
      DotIsLinear(a[..n], b[..n], v[..n]);
      Distribute(a[n], b[n], v[n]);
    }
  }

  lemma {:induction false} SumOfScaled(c: real, a: seq<real>)
    ensures Sum(Scale(c, a)) == Times(c, Sum(a))
  {
    hide Times;
    if a == [] {
      assert Times(c, 0.0) == 0.0 by { ByZero(c); }
    } else {
      var n := |a| - 1;
      assert Scale(c, a)[..n] == Scale(c, a[..n]);
      SumOfScaled(c, a[..n]);
      Distribute(Sum(a[..n]), a[n], c);
    }
  }

  lemma ByZero(c: real)
    ensures Times(c, 0.0) == 0.0 == Times(0.0, c)
  {
  }

  lemma {:induction false} DotOfScaled(c: real, a: seq<real>, v: seq<real>)
    requires |a| == |v|
    ensures Dot(Scale(c, a), v) == Times(c, Dot(a, v))
  {
    hide Times;
    if a == [] {
      ByZero(c);
    } else {
      var n := |a| - 1;
      assert Scale(c, a)[..n] == Scale(c, a[..n]);
      DotOfScaled(c, a[..n], v[..n]);
      Distribute(Dot(a[..n], v[..n]), Times(a[n], v[n]), c);
      Associate(c, a[n], v[n]);
    }
  }

  predicate NonNegative(a: seq<real>) {
    forall i :: 0 <= i < |a| ==> a[i] >= 0.0
  }

  lemma ProductIsPositive(x: real, y: real)
    requires x > 0.0 && y > 0.0
    ensures Times(x, y) > 0.0
  {
  }

  lemma SquareOfSum(x: real, y: real)
    ensures Times(x, x) >= 0.0
    ensures x >= 0.0 && y >= 0.0 ==> Times(x, y) >= 0.0
    ensures Times(x + y, x + y) == Times(x, x) + 2.0 * Times(x, y) + Times(y, y)
    ensures Times(x - y, x - y) == Times(x, x) - 2.0 * Times(x, y) + Times(y, y)
  {
    assert x >= 0.0 && y >= 0.0 ==> x * y >= 0.0;
    assert (x + y) * (x + y) == x * x + 2.0 * (x * y) + y * y;
    assert (x - y) * (x - y) == x * x - 2.0 * (x * y) + y * y;
  }

  lemma {:induction false} SquaresAreNonNegative(a: seq<real>)
    ensures Dot(a, a) >= 0.0
  {
    hide Times;
    if a != [] {
      SquaresAreNonNegative(a[..|a| - 1]);
      SquareOfSum(a[|a| - 1], 0.0);
    }
  }

  /** Non-negative weights have squares that add up to at most the square of their sum. */
  lemma {:induction false} SquaresWithinSum(a: seq<real>)
    requires NonNegative(a)
    ensures Sum(a) >= 0.0
    ensures Dot(a, a) <= Times(Sum(a), Sum(a))
  {
    hide Times;
    if a == [] {
      ByZero(0.0);
    } else {
      var n := |a| - 1;
      SquaresWithinSum(a[..n]);
      SquareOfSum(Sum(a[..n]), a[n]);
    }
  }

  /** The squares of a difference of non-negative weights are no more than those of the two. */
  lemma {:induction false} SquaresOfDifference(a: seq<real>, b: seq<real>)
    requires |a| == |b| && NonNegative(a) && NonNegative(b)
    ensures var d := Minus(a, b); Dot(d, d) <= Dot(a, a) + Dot(b, b)
  {
    hide Times;
    if a != [] {
      var n := |a| - 1;
      assert Minus(a, b)[..n] == Minus(a[..n], b[..n]);
      SquaresOfDifference(a[..n], b[..n]);
      SquareOfSum(a[n], b[n]);
    }
  }

  lemma QuotientIsNonNegative(x: real, y: real)
    requires x >= 0.0 && y > 0.0
    ensures x / y >= 0.0
  {
    assert x / y * y == x;
  }

  lemma NegatedSquare(x: real)
    ensures Times(0.0 - x, 0.0 - x) == Times(x, x)
  {
  }

  lemma SquareIsPositive(x: real)
    requires x != 0.0
    ensures Times(x, x) > 0.0
  {
    if x < 0.0 {
      ProductIsPositive(0.0 - x, 0.0 - x);
      NegatedSquare(x);
    } else {
      ProductIsPositive(x, x);
    }
  }

  lemma DivideBy(d: real, y: real, s: real)
    requires s > 0.0 && d * s <= y
    ensures d <= y / s
  {
    assert y / s * s == y;
    assert (y / s - d) * s >= 0.0;
  }

  lemma OneTimes(x: real)
    ensures Times(1.0, x) == x == Times(x, 1.0)
  {
  }

  lemma Commute(x: real, y: real)
    ensures Times(x, y) == Times(y, x)
  {
  }

  /** 0 for no samples. */
  function Mean(s: seq<real>): real {
    if s == [] then 0.0 else Sum(s) / |s| as real
  }
}
