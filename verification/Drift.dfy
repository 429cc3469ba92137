/**
 Drift correction against an interleaved reference: where a trial falls among
 the readings, the baseline there, and how much of each reading the mean of
 corrected scores carries.
 */
module Drift {
  import opened Sums

  datatype ReferencePoint = ReferencePoint(atNs: int, value: real)

  /** The baseline is (1 - fraction) * value[lower] + fraction * value[upper]. */
  datatype Bracket = Bracket(lower: nat, upper: nat, fraction: real)

  function Values(points: seq<ReferencePoint>): (v: seq<real>)
    ensures |v| == |points| && forall i :: 0 <= i < |v| ==> v[i] == points[i].value
  {
    seq(|points|, i requires 0 <= i < |points| => points[i].value)
  }

  // ---- Brackets --------------------------------------------------------------------

  /** The first reading that is not before the instant; the number of readings if all are. */
  function FirstNotBefore(points: seq<ReferencePoint>, atNs: int): (i: nat)
    ensures i <= |points|
    ensures forall j :: 0 <= j < i ==> points[j].atNs < atNs
    ensures i < |points| ==> atNs <= points[i].atNs
  {
    if points == [] || atNs <= points[0].atNs then 0
    else 1 + FirstNotBefore(points[1..], atNs)
  }

  /** Held at the first reading before it and at the last after it; between two readings otherwise. */
  function BracketAt(points: seq<ReferencePoint>, atNs: int): (b: Bracket)
    requires points != []
    ensures b.lower <= b.upper < |points| && 0.0 <= b.fraction <= 1.0
  {
    var i := FirstNotBefore(points, atNs);
    if i == 0 then Bracket(0, 0, 0.0)
    else if i == |points| then Bracket(i - 1, i - 1, 0.0)
    else
      var before, after := points[i - 1].atNs, points[i].atNs;
      Between(atNs - before, after - before);
      Bracket(i - 1, i, (atNs - before) as real / (after - before) as real)
  }

  lemma Between(part: int, whole: int)
    requires 0 < part <= whole
    ensures 0.0 < part as real / whole as real <= 1.0
    ensures part < whole ==> part as real / whole as real < 1.0
  {
    var p, w := part as real, whole as real;
    assert p / w * w == p;
  }

  method FindBracket(points: seq<ReferencePoint>, atNs: int) returns (b: Bracket)
    requires points != []
    ensures b == BracketAt(points, atNs)
  {
    if atNs <= points[0].atNs {
      return Bracket(0, 0, 0.0);
    }
    var i := 1;
    while i < |points|
      invariant 1 <= i <= |points|
      invariant forall j :: 0 <= j < i ==> points[j].atNs < atNs
    {
      var before, after := points[i - 1], points[i];
      if atNs <= after.atNs {
        var spanNs := after.atNs - before.atNs;
        return Bracket(i - 1, i, (atNs - before.atNs) as real / spanNs as real);
      }
      i := i + 1;
    }
    return Bracket(|points| - 1, |points| - 1, 0.0);
  }

  function BaselineAt(points: seq<ReferencePoint>, atNs: int): real {
    if points == [] then 0.0
    else
      var where := BracketAt(points, atNs);
      points[where.lower].value + where.fraction * (points[where.upper].value - points[where.lower].value)
  }

  method FindBaseline(points: seq<ReferencePoint>, atNs: int) returns (v: real)
    ensures v == BaselineAt(points, atNs)
  {
    if points == [] {
      return 0.0;
    }
    var where := FindBracket(points, atNs);
    var before := points[where.lower].value;
    return before + where.fraction * (points[where.upper].value - before);
  }

  /** Without readings the baseline is 0; it is held at the first reading before it and at the last after all. */
  lemma EndsAreHeld(points: seq<ReferencePoint>, atNs: int)
    ensures points == [] ==> BaselineAt(points, atNs) == 0.0
    ensures points != [] && atNs <= points[0].atNs ==> BaselineAt(points, atNs) == points[0].value
    ensures points != [] && (forall k :: 0 <= k < |points| ==> points[k].atNs < atNs) ==>
              BaselineAt(points, atNs) == points[|points| - 1].value
  {
  }

  /** Between two readings the baseline is on the straight line through them, if none before them is as late. */
  lemma BaselineIsInterpolated(points: seq<ReferencePoint>, i: nat, atNs: int)
    requires i + 1 < |points| && points[i].atNs < atNs <= points[i + 1].atNs
    requires forall k :: 0 <= k < i ==> points[k].atNs <= points[i].atNs
    ensures Times(BaselineAt(points, atNs) - points[i].value, (points[i + 1].atNs - points[i].atNs) as real) ==
            Times(points[i + 1].value - points[i].value, (atNs - points[i].atNs) as real)
  {
    hide FirstNotBefore, Times;
    assert FirstNotBefore(points, atNs) == i + 1;
    var part, whole := (atNs - points[i].atNs) as real, (points[i + 1].atNs - points[i].atNs) as real;
    var rise := points[i + 1].value - points[i].value;
    assert BracketAt(points, atNs) == Bracket(i, i + 1, part / whole);
    assert BaselineAt(points, atNs) - points[i].value == part / whole * rise;
    PartOfRise(part, whole, rise);
  }

  lemma PartOfRise(part: real, whole: real, rise: real)
    requires whole != 0.0
    ensures Times(part / whole * rise, whole) == Times(rise, part)
  {
    assert part / whole * whole == part;
  }

  function Corrected(raw: real, baseline: real, anchor: real): real {
    raw - (baseline - anchor)
  }

  // ---- What a corrected mean carries of each reading -------------------------------------

  /** How much of the k-th reading is in the baseline of a bracket. */
  function Share(b: Bracket, k: nat): real {
    (if k == b.lower then 1.0 - b.fraction else 0.0) + (if k == b.upper then b.fraction else 0.0)
  }

  function Shares(b: Bracket, n: nat): (s: seq<real>)
    ensures |s| == n && forall k :: 0 <= k < n ==> s[k] == Share(b, k)
  {
    seq(n, k requires 0 <= k < n => Share(b, k))
  }

  function Zeros(n: nat): (s: seq<real>)
    ensures |s| == n && forall k :: 0 <= k < n ==> s[k] == 0.0
  {
    seq(n, _ => 0.0)
  }

  /** The shares of the baselines of several trials, each trial weighing the same. */
  function TotalShares(points: seq<ReferencePoint>, times: seq<int>, each: real): (s: seq<real>)
    requires points != []
    ensures |s| == |points|
  {
    if times == [] then Zeros(|points|)
    else
      Plus(TotalShares(points, times[..|times| - 1], each),
           Scale(each, Shares(BracketAt(points, times[|times| - 1]), |points|)))
  }

  /** The anchor: the mean of the first readings. */
  function AnchorShares(n: nat, count: nat): (s: seq<real>)
    requires 0 < count <= n
    ensures |s| == n && forall k :: 0 <= k < n ==> s[k] == if k < count then 1.0 / count as real else 0.0
  {
    seq(n, k requires 0 <= k < n => if k < count then 1.0 / count as real else 0.0)
  }

  function EachOf(times: seq<int>): real {
    if times == [] then 0.0 else 1.0 / |times| as real
  }

  /** The weight of each reading in (mean baseline less the anchor). */
  function Weights(points: seq<ReferencePoint>, times: seq<int>, count: nat): (w: seq<real>)
    requires 0 < count <= |points|
    ensures |w| == |points|
  {
    Minus(TotalShares(points, times, EachOf(times)), AnchorShares(|points|, count))
  }

  lemma {:induction false} SharesAddUp(b: Bracket, n: nat)
    ensures Sum(Shares(b, n)) ==
            (if b.lower < n then 1.0 - b.fraction else 0.0) + (if b.upper < n then b.fraction else 0.0)
  {
    if n > 0 {
      assert Shares(b, n)[..n - 1] == Shares(b, n - 1);
      SharesAddUp(b, n - 1);
    }
  }

  lemma {:induction false} SharesOfValues(b: Bracket, v: seq<real>, n: nat)
    requires n <= |v|
    ensures Dot(Shares(b, n), v[..n]) ==
            (if b.lower < n then Times(1.0 - b.fraction, v[b.lower]) else 0.0)
            + (if b.upper < n then Times(b.fraction, v[b.upper]) else 0.0)
  {
    hide Times;
    if n > 0 {
      assert Shares(b, n)[..n - 1] == Shares(b, n - 1);
      assert v[..n][..n - 1] == v[..n - 1];
      SharesOfValues(b, v, n - 1);
      Distribute(1.0 - b.fraction, b.fraction, v[n - 1]);
      ByZero(v[n - 1]);
    }
  }

  lemma Mix(f: real, x: real, y: real)
    ensures Times(1.0 - f, x) + Times(f, y) == x + f * (y - x)
  {
  }

  /** The shares of one baseline are non-negative, add up to 1 and give the baseline. */
  lemma SharesGiveBaseline(points: seq<ReferencePoint>, atNs: int)
    requires points != []
    ensures var s := Shares(BracketAt(points, atNs), |points|);
            NonNegative(s) && Sum(s) == 1.0 && Dot(s, Values(points)) == BaselineAt(points, atNs)
  {
    hide Times, BracketAt;
    var b, v := BracketAt(points, atNs), Values(points);
    SharesAddUp(b, |points|);
    SharesOfValues(b, v, |points|);
    assert v[..|points|] == v;
    Mix(b.fraction, v[b.lower], v[b.upper]);
  }

  /** The baselines of the trials, in order. */
  function Baselines(points: seq<ReferencePoint>, times: seq<int>): (s: seq<real>)
    ensures |s| == |times| && forall i :: 0 <= i < |s| ==> s[i] == BaselineAt(points, times[i])
  {
    seq(|times|, i requires 0 <= i < |times| => BaselineAt(points, times[i]))
  }

  lemma {:induction false} ZeroSums(v: seq<real>)
    ensures Sum(Zeros(|v|)) == 0.0
    ensures Dot(Zeros(|v|), v) == 0.0
  {
    hide Times;
    if |v| > 0 {
      var n := |v| - 1;
      assert Zeros(|v|)[..n] == Zeros(n);
      ZeroSums(v[..n]);
      ByZero(v[n]);
    }
  }

  lemma ScaledIsNonNegative(c: real, a: seq<real>)
    requires c >= 0.0 && NonNegative(a)
    ensures NonNegative(Scale(c, a))
  {
    hide Times;
    forall i | 0 <= i < |a| ensures Scale(c, a)[i] >= 0.0 {
      SquareOfSum(c, a[i]);
    }
  }

  lemma {:induction false} TotalSharesAreNonNegative(points: seq<ReferencePoint>, times: seq<int>, each: real)
    requires points != [] && each >= 0.0
    ensures NonNegative(TotalShares(points, times, each))
  {
    hide Times, BracketAt, BaselineAt, Dot, Sum;
    if times != [] {
      var n := |times| - 1;
      TotalSharesAreNonNegative(points, times[..n], each);
      SharesGiveBaseline(points, times[n]);
      ScaledIsNonNegative(each, Shares(BracketAt(points, times[n]), |points|));
    }
  }

  lemma OneMoreShare(points: seq<ReferencePoint>, times: seq<int>, each: real)
    requires points != [] && times != []
    ensures var n := |times| - 1;
            TotalShares(points, times, each) ==
            Plus(TotalShares(points, times[..n], each), Scale(each, Shares(BracketAt(points, times[n]), |points|)))
  {
  }

  lemma {:induction false} TotalSharesAddUp(points: seq<ReferencePoint>, times: seq<int>, each: real)
    requires points != []
    ensures Sum(TotalShares(points, times, each)) == Times(|times| as real, each)
  {
    hide Times, BracketAt, BaselineAt, Dot, NonNegative, Sum, Share;
    if times == [] {
      ZeroSums(Values(points));
      ByZero(each);
    } else {
      var n := |times| - 1;
      TotalSharesAddUp(points, times[..n], each);
      OneMoreShare(points, times, each);
      SharesGiveBaseline(points, times[n]);
      var shares := Shares(BracketAt(points, times[n]), |points|);
      SumIsLinear(TotalShares(points, times[..n], each), Scale(each, shares));
      SumOfScaled(each, shares);
      Distribute(n as real, 1.0, each);
      OneTimes(each);
    }
  }

  lemma {:induction false} TotalSharesGiveBaselines(points: seq<ReferencePoint>, times: seq<int>, each: real)
    requires points != []
    ensures Dot(TotalShares(points, times, each), Values(points)) == Times(each, Sum(Baselines(points, times)))
  {
    hide Times, BracketAt, BaselineAt, NonNegative, Dot, Share;
    if times == [] {
      ZeroSums(Values(points));
      ByZero(each);
    } else {
      var n, v := |times| - 1, Values(points);
      TotalSharesGiveBaselines(points, times[..n], each);
      OneMoreShare(points, times, each);
      SharesGiveBaseline(points, times[n]);
      assert Baselines(points, times)[..n] == Baselines(points, times[..n]);
      var shares := Shares(BracketAt(points, times[n]), |points|);
      DotIsLinear(TotalShares(points, times[..n], each), Scale(each, shares), v);
      DotOfScaled(each, shares, v);
      Distribute(Sum(Baselines(points, times[..n])), BaselineAt(points, times[n]), each);
    }
  }

  lemma {:induction false} AnchorAddsUp(v: seq<real>, n: nat, count: nat)
    requires 0 < count <= |v| && n <= |v|
    ensures var s := AnchorShares(|v|, count)[..n];
            var m := if n < count then n else count;
            Sum(s) == Times(1.0 / count as real, m as real)
            && Dot(s, v[..n]) == Times(1.0 / count as real, Sum(v[..m]))
  {
    hide Times;
    var c := 1.0 / count as real;
    if n == 0 {
      assert v[..0] == [];
      ByZero(c);
    } else {
      var s := AnchorShares(|v|, count);
      assert s[..n][..n - 1] == s[..n - 1] && v[..n][..n - 1] == v[..n - 1];
      AnchorAddsUp(v, n - 1, count);
      if n <= count {
        Distribute((n - 1) as real, 1.0, c);
        OneTimes(c);
        Distribute(Sum(v[..n - 1]), v[n - 1], c);
      } else {
        ByZero(v[n - 1]);
      }
    }
  }

  lemma Reciprocal(n: nat)
    requires n > 0
    ensures 1.0 / n as real > 0.0
    ensures Times(1.0 / n as real, n as real) == 1.0 == Times(n as real, 1.0 / n as real)
  {
    var r := n as real;
    assert 1.0 / r * r == 1.0;
  }

  lemma MeanIsScaledSum(s: seq<real>)
    requires s != []
    ensures Mean(s) == Times(1.0 / |s| as real, Sum(s))
  {
    var r, t := |s| as real, Sum(s);
    assert t / r == 1.0 / r * t;
  }

  /** The anchor's shares are non-negative, add up to 1 and give the mean of the first readings. */
  lemma AnchorGivesMean(points: seq<ReferencePoint>, count: nat)
    requires 0 < count <= |points|
    ensures var s := AnchorShares(|points|, count);
            NonNegative(s) && Sum(s) == 1.0 && Dot(s, Values(points)) == Mean(Values(points)[..count])
  {
    hide Times, Mean;
    var v := Values(points);
    AnchorAddsUp(v, |points|, count);
    var s := AnchorShares(|points|, count);
    assert s[..|points|] == s && v[..|points|] == v;
    Reciprocal(count);
    MeanIsScaledSum(v[..count]);
  }

  /** The corrected scores of trials with the given raw scores and times. */
  function CorrectedScores(points: seq<ReferencePoint>, raw: seq<real>, times: seq<int>, anchor: real): (s: seq<real>)
    requires |raw| == |times|
    ensures |s| == |raw| && forall i :: 0 <= i < |s| ==> s[i] == Corrected(raw[i], BaselineAt(points, times[i]), anchor)
  {
    seq(|raw|, i requires 0 <= i < |raw| => Corrected(raw[i], BaselineAt(points, times[i]), anchor))
  }

  lemma {:induction false} CorrectedSum(points: seq<ReferencePoint>, raw: seq<real>, times: seq<int>, anchor: real)
    requires |raw| == |times|
    ensures Sum(CorrectedScores(points, raw, times, anchor)) ==
            Sum(raw) - Sum(Baselines(points, times)) + Times(|times| as real, anchor)
  {
    hide Times, BaselineAt;
    if raw == [] {
      ByZero(anchor);
    } else {
      var n := |raw| - 1;
      assert CorrectedScores(points, raw, times, anchor)[..n] == CorrectedScores(points, raw[..n], times[..n], anchor);
      assert Baselines(points, times)[..n] == Baselines(points, times[..n]);
      CorrectedSum(points, raw[..n], times[..n], anchor);
      Distribute(n as real, 1.0, anchor);
      OneTimes(anchor);
    }
  }

  /**
   The weights are right: for any readings and trial times, in any order, the
   mean of the corrected scores is the mean of the raw ones less the readings
   weighed by them.
   */
  lemma CorrectedMeanIsWeighed(points: seq<ReferencePoint>, raw: seq<real>, times: seq<int>, count: nat)
    requires 0 < count <= |points| && |raw| == |times| && times != []
    ensures var anchor := Mean(Values(points)[..count]);
            Mean(CorrectedScores(points, raw, times, anchor)) ==
            Mean(raw) - Dot(Weights(points, times, count), Values(points))
  {
    hide Times, Mean, BaselineAt, TotalShares;
    var v, anchor, each := Values(points), Mean(Values(points)[..count]), EachOf(times);
    Reciprocal(|times|);
    TotalSharesGiveBaselines(points, times, each);
    AnchorGivesMean(points, count);
    DotIsLinear(TotalShares(points, times, each), AnchorShares(|points|, count), v);
    CorrectedSum(points, raw, times, anchor);
    MeanIsScaledSum(raw);
    var corrected := CorrectedScores(points, raw, times, anchor);
    MeanIsScaledSum(corrected);
    var b, n := Sum(Baselines(points, times)), |times| as real;
    Distribute(Sum(raw) - b, Times(n, anchor), each);
    Distribute(Sum(raw), b, each);
    Associate(each, n, anchor);
    OneTimes(anchor);
  }

  /** The weights cancel, and their squares add up to between 0 and 2: a correction at most doubles the noise. */
  lemma GainIsBounded(points: seq<ReferencePoint>, times: seq<int>, count: nat)
    requires 0 < count <= |points| && times != []
    ensures var w := Weights(points, times, count);
            Sum(w) == 0.0 && 0.0 <= Dot(w, w) <= 2.0
  {
    hide Times, TotalShares;
    Reciprocal(|times|);
    OneTimes(1.0);
    var mean, anchor := TotalShares(points, times, EachOf(times)), AnchorShares(|points|, count);
    TotalSharesAddUp(points, times, EachOf(times));
    TotalSharesAreNonNegative(points, times, EachOf(times));
    AnchorGivesMean(points, count);
    SumIsLinear(mean, anchor);
    SquaresWithinSum(mean);
    SquaresWithinSum(anchor);
    SquaresOfDifference(mean, anchor);
    SquaresAreNonNegative(Minus(mean, anchor));
  }

  /** With no trial times the weights are the anchor's alone. */
  lemma GainOfNoTrials(points: seq<ReferencePoint>, count: nat)
    requires 0 < count <= |points|
    ensures var w := Weights(points, [], count); Dot(w, w) == 1.0 / count as real
  {
    hide Times, Mean;
    var w := Weights(points, [], count);
    var anchor := AnchorShares(|points|, count);
    NegatedSquares(w, anchor);
    AnchorAddsUp(anchor, |points|, count);
    assert anchor[..|points|] == anchor;
    AnchorPrefix(|points|, count, count);
    var c := 1.0 / count as real;
    Reciprocal(count);
    Associate(c, c, count as real);
    OneTimes(c);
  }

  lemma {:induction false} NegatedSquares(a: seq<real>, b: seq<real>)
    requires |a| == |b| && forall i :: 0 <= i < |a| ==> a[i] == 0.0 - b[i]
    ensures Dot(a, a) == Dot(b, b)
  {
    hide Times;
    if a != [] {
      var n := |a| - 1;
      NegatedSquares(a[..n], b[..n]);
      SquareOfSum(0.0, b[n]);
      ByZero(0.0);
      ByZero(b[n]);
    }
  }

  lemma {:induction false} AnchorPrefix(n: nat, count: nat, m: nat)
    requires 0 < count <= n && m <= count
    ensures Sum(AnchorShares(n, count)[..m]) == Times(1.0 / count as real, m as real)
  {
    hide Times;
    var c := 1.0 / count as real;
    if m == 0 {
      ByZero(c);
    } else {
      assert AnchorShares(n, count)[..m][..m - 1] == AnchorShares(n, count)[..m - 1];
      AnchorPrefix(n, count, m - 1);
      Distribute((m - 1) as real, 1.0, c);
      OneTimes(c);
    }
  }

  /** The weights accumulate in place; the gain is the sum of their squares. */
  method CorrectionGain(points: seq<ReferencePoint>, times: seq<int>, count: nat) returns (squares: real)
    requires 0 < count <= |points|
    ensures squares == Dot(Weights(points, times, count), Weights(points, times, count))
  {
    hide Times, BracketAt;
    var weight := new real[|points|](_ => 0.0);
    var each := EachOf(times);
    assert weight[..] == Zeros(|points|);
    for i := 0 to |times|
      invariant weight[..] == TotalShares(points, times[..i], each)
    {
      var where := FindBracket(points, times[i]);
      AddShare(weight, where, each);
      assert times[..i + 1][..i] == times[..i];
    }
    assert times[..|times|] == times;
    TakeAnchorOff(weight, count);
    squares := SumSquares(weight[..]);
  }

  /** The anchor's share of each of its readings is taken off. */
  method TakeAnchorOff(weight: array<real>, count: nat)
    requires 0 < count <= weight.Length
    modifies weight
    ensures weight[..] == Minus(old(weight[..]), AnchorShares(weight.Length, count))
  {
    for k := 0 to count
      invariant forall j :: 0 <= j < weight.Length ==>
        weight[j] == if j < k then old(weight[j]) - 1.0 / count as real else old(weight[j])
    {
      weight[k] := weight[k] - 1.0 / count as real;
    }
  }

  /** One trial's share of each reading is added where its bracket says. */
  method AddShare(weight: array<real>, where: Bracket, each: real)
    requires where.lower < weight.Length && where.upper < weight.Length
    modifies weight
    ensures weight[..] == Plus(old(weight[..]), Scale(each, Shares(where, weight.Length)))
  {
    hide Times;
    weight[where.lower] := weight[where.lower] + Times(1.0 - where.fraction, each);
    weight[where.upper] := weight[where.upper] + Times(where.fraction, each);
    forall k | 0 <= k < weight.Length
      ensures weight[k] == old(weight[k]) + Times(each, Share(where, k))
    {
      Commute(each, Share(where, k));
      ByZero(each);
      Distribute(1.0 - where.fraction, where.fraction, each);
    }
  }

  method SumSquares(weight: seq<real>) returns (squares: real)
    ensures squares == Dot(weight, weight)
  {
    squares := 0.0;
    for i := 0 to |weight|
      invariant squares == Dot(weight[..i], weight[..i])
    {
      assert weight[..i + 1][..i] == weight[..i];
      squares := squares + Times(weight[i], weight[i]);
    }
    assert weight[..|weight|] == weight;
  }

  // ---- Linear drift ------------------------------------------------------------------

  predicate OnLine(points: seq<ReferencePoint>, origin: real, slope: real) {
    forall i :: 0 <= i < |points| ==> points[i].value == origin + Times(slope, points[i].atNs as real)
  }

  /** Between its first reading and some later one, a reference that drifts along a line is followed exactly. */
  lemma LineIsFollowed(points: seq<ReferencePoint>, origin: real, slope: real, atNs: int, last: nat)
    requires last < |points| && points[0].atNs <= atNs <= points[last].atNs
    requires OnLine(points, origin, slope)
    ensures BaselineAt(points, atNs) == origin + Times(slope, atNs as real)
  {
  }

  /** The times of the readings that make the anchor. */
  function TimesOf(points: seq<ReferencePoint>): (t: seq<real>)
    ensures |t| == |points| && forall i :: 0 <= i < |t| ==> t[i] == points[i].atNs as real
  {
    seq(|points|, i requires 0 <= i < |points| => points[i].atNs as real)
  }

  lemma {:induction false} SumAlongLine(points: seq<ReferencePoint>, origin: real, slope: real)
    requires OnLine(points, origin, slope)
    ensures Sum(Values(points)) == Times(|points| as real, origin) + Times(slope, Sum(TimesOf(points)))
  {
    hide Times;
    if points == [] {
      ByZero(origin);
      ByZero(slope);
    } else {
      var n := |points| - 1;
      assert Values(points)[..n] == Values(points[..n]) && TimesOf(points)[..n] == TimesOf(points[..n]);
      SumAlongLine(points[..n], origin, slope);
      Distribute(n as real, 1.0, origin);
      OneTimes(origin);
      Distribute(Sum(TimesOf(points[..n])), points[n].atNs as real, slope);
    }
  }

  /** The anchor of a drift along a line is the line at the mean time of its readings. */
  lemma AnchorOnLine(points: seq<ReferencePoint>, origin: real, slope: real, count: nat)
    requires 0 < count <= |points| && OnLine(points, origin, slope)
    ensures Mean(Values(points)[..count]) == origin + Times(slope, Mean(TimesOf(points)[..count]))
  {
    hide Times, Mean;
    assert Values(points)[..count] == Values(points[..count]) && TimesOf(points)[..count] == TimesOf(points[..count]);
    SumAlongLine(points[..count], origin, slope);
    var c := 1.0 / count as real;
    var t := Sum(TimesOf(points[..count]));
    MeanIsScaledSum(Values(points[..count]));
    MeanIsScaledSum(TimesOf(points[..count]));
    Reciprocal(count);
    Distribute(Times(count as real, origin), Times(slope, t), c);
    Associate(c, count as real, origin);
    OneTimes(origin);
    Associate(c, slope, t);
    Associate(slope, c, t);
    Commute(c, slope);
  }

  /**
   A drift along a line is taken out exactly: every trial from the first reading
   to the last is corrected by the slope times its distance from the anchor's mean time.
   */
  lemma LinearDriftIsRemoved(points: seq<ReferencePoint>, origin: real, slope: real, raw: real, atNs: int, count: nat)
    requires 0 < count <= |points| && OnLine(points, origin, slope)
    requires points[0].atNs <= atNs <= points[|points| - 1].atNs
    ensures Corrected(raw, BaselineAt(points, atNs), Mean(Values(points)[..count])) ==
            raw - Times(slope, atNs as real - Mean(TimesOf(points)[..count]))
  {
    hide Times, Mean, BaselineAt, OnLine;
    LineIsFollowed(points, origin, slope, atNs, |points| - 1);
    AnchorOnLine(points, origin, slope, count);
    Distribute(atNs as real, Mean(TimesOf(points)[..count]), slope);
  }
}
