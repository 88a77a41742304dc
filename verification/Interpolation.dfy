/** Interpolation between keyframes, as a curve over the curl of a finger. */
module Interpolation {
  import opened AnimLoader

  function Lerp(a: real, b: real, f: real): real {
    a + f * (b - a)
  }

  function Clamp(x: real, low: real, high: real): real {
    if x < low then low else if high < x then high else x
  }

  /** 0 / 0 is not a number. */
  predicate IsNumber(f: real, start: real, end: real) {
    start <= f && !(f == start == end)
  }

  function Proportion(f: real, start: real, end: real): real
    requires start < end
  {
    (f - start) / (end - start)
  }

  /** How far f is on its way from start to end; what is divided by zero is infinite and clamped to 1. */
  function Fraction(f: real, start: real, end: real): real
    requires IsNumber(f, start, end)
  {
    if start == end then 1.0 else Clamp((f - start) / (end - start), 0.0, 1.0)
  }

  /** The curls with a value: from the first keyframe on, except at exactly the last keyframe. */
  ghost predicate InCurve(times: seq<real>, f: real) {
    StrictlyIncreasing(times) && times != [] && times[0] <= f && f != times[|times| - 1]
  }

  /** What is interpolated is a number everywhere but at exactly the last keyframe. */
  lemma IsNumberIff(times: seq<real>, f: real)
    requires StrictlyIncreasing(times) && times != [] && times[0] <= f
    ensures IsNumber(f, times[LowerKeyframe(times, f)], times[UpperKeyframe(times, f)]) <==> f != times[|times| - 1]
  {
    Bracketing(times, f);
  }

  /** One interpolated component. */
  ghost function Curve(times: seq<real>, values: seq<real>, f: real): real
    requires InCurve(times, f) && |values| == |times|
  {
    IsNumberIff(times, f);
    var lower, upper := LowerKeyframe(times, f), UpperKeyframe(times, f);
    Lerp(values[lower], values[upper], Fraction(f, times[lower], times[upper]))
  }

  // ----- one segment -----

  ghost predicate Between(x: real, a: real, b: real) {
    a <= x <= b || b <= x <= a
  }

  lemma FractionInUnit(f: real, start: real, end: real)
    requires IsNumber(f, start, end)
    ensures 0.0 <= Fraction(f, start, end) <= 1.0
    ensures start < end && f <= end ==> Fraction(f, start, end) == Proportion(f, start, end)
  {
    if start < end && f <= end {
      RatioInUnit(f - start, end - start);
    }
  }

  lemma RatioInUnit(a: real, b: real)
    requires 0.0 <= a <= b && b > 0.0
    ensures 0.0 <= a / b <= 1.0
  {}

  lemma LerpBetween(a: real, b: real, f: real)
    requires 0.0 <= f <= 1.0
    ensures Between(Lerp(a, b, f), a, b)
  {
    var x := b - a;
    LerpIs(a, b, f, x);
    hide Lerp;
    ScaledBetween(f, x);
  }

  lemma LerpIs(a: real, b: real, f: real, x: real)
    requires x == b - a
    ensures Lerp(a, b, f) == a + f * x
  {
    assert f * x == f * (b - a);
  }

  lemma ScaledBetween(f: real, x: real)
    requires 0.0 <= f <= 1.0
    ensures Between(f * x, 0.0, x)
  {
    assert f * x + (1.0 - f) * x == x;
    ProductSign(1.0 - f, x);
    ProductSign(f, x);
  }

  lemma ProductSign(a: real, b: real)
    requires a >= 0.0
    ensures b >= 0.0 ==> a * b >= 0.0
    ensures b <= 0.0 ==> a * b <= 0.0
  {}

  /** Every interpolated component lies between its two keyframes. */
  lemma CurveBetweenKeyframes(times: seq<real>, values: seq<real>, f: real)
    requires InCurve(times, f) && |values| == |times|
    ensures Between(Curve(times, values, f), values[LowerKeyframe(times, f)], values[UpperKeyframe(times, f)])
  {
    var lower, upper := LowerKeyframe(times, f), UpperKeyframe(times, f);
    IsNumberIff(times, f);
    FractionInUnit(f, times[lower], times[upper]);
    LerpBetween(values[lower], values[upper], Fraction(f, times[lower], times[upper]));
  }

  /** The curve hits each keyframe value at its keyframe, and stays at the last one behind it. */
  lemma CurveHitsKeyframes(times: seq<real>, values: seq<real>, k: nat)
    requires StrictlyIncreasing(times) && |values| == |times| && k < |times|
    ensures k < |times| - 1 ==> Curve(times, values, times[k]) == values[k]
    ensures forall f :: times[|times| - 1] < f ==> Curve(times, values, f) == values[|times| - 1]
  {
    if k < |times| - 1 {
      BracketIsUnique(times, times[k], k);
      assert (times[k] - times[k]) / (times[k + 1] - times[k]) == 0.0;
    }
    forall f | times[|times| - 1] < f ensures Curve(times, values, f) == values[|times| - 1] {
      Bracketing(times, f);
    }
  }

  // ----- the whole curve -----

  /** The change allowed between two curls at a speed. */
  function Travel(speed: real, from: real, to: real): real {
    speed * (to - from)
  }

  lemma TravelAdds(speed: real, a: real, b: real, c: real)
    ensures Travel(speed, a, b) + Travel(speed, b, c) == Travel(speed, a, c)
  {}

  lemma TravelNotNegative(speed: real, a: real, b: real)
    requires speed >= 0.0 && a <= b
    ensures Travel(speed, a, b) >= 0.0
  {
    ProductSign(speed, b - a);
  }

  lemma SpeedNotNegative(speed: real, a: real, b: real)
    requires a < b && Travel(speed, a, b) >= 0.0
    ensures speed >= 0.0
  {}

  ghost predicate Near(x: real, y: real, distance: real) {
    -distance <= y - x <= distance
  }

  lemma NearChain(x: real, y: real, z: real, d: real, e: real)
    requires Near(x, y, d) && Near(y, z, e)
    ensures Near(x, z, d + e)
  {}

  lemma NearSame(x: real, distance: real)
    requires distance >= 0.0
    ensures Near(x, x, distance)
  {}

  lemma NearDistance(x: real, y: real, distance: real)
    requires Near(x, y, distance)
    ensures distance >= 0.0
  {}

  /** No segment is faster. */
  ghost predicate BoundsSegments(times: seq<real>, values: seq<real>, speed: real)
    requires |values| == |times|
  {
    forall k :: 0 <= k < |times| - 1 ==> Near(values[k], values[k + 1], Travel(speed, times[k], times[k + 1]))
  }

  ghost predicate Lipschitz(times: seq<real>, values: seq<real>, speed: real)
    requires |values| == |times|
  {
    forall a, b :: InCurve(times, a) && InCurve(times, b) && a <= b ==>
      Near(Curve(times, values, a), Curve(times, values, b), Travel(speed, a, b))
  }

  function Line(t0: real, v0: real, t1: real, v1: real, f: real): real
    requires t0 < t1
  {
    Lerp(v0, v1, Proportion(f, t0, t1))
  }

  /** On its segment the curve is a straight line. */
  lemma CurveIsLine(times: seq<real>, values: seq<real>, f: real)
    requires InCurve(times, f) && |values| == |times|
    ensures var k := LowerKeyframe(times, f);
      && times[k] <= f
      && if f < times[|times| - 1] then
           k + 1 < |times| && f < times[k + 1] && Curve(times, values, f) == Line(times[k], values[k], times[k + 1], values[k + 1], f)
         else k == |times| - 1 && Curve(times, values, f) == values[k]
  {
    Bracketing(times, f);
    var k := LowerKeyframe(times, f);
    if f < times[|times| - 1] {
      FractionInUnit(f, times[k], times[k + 1]);
    }
  }

  lemma LineStep(t0: real, v0: real, t1: real, v1: real, a: real, b: real, speed: real)
    requires t0 <= a <= b <= t1 && t0 < t1 && Near(v0, v1, Travel(speed, t0, t1))
    ensures Near(Line(t0, v0, t1, v1, a), Line(t0, v0, t1, v1, b), Travel(speed, a, b))
  {
    var d, s := t1 - t0, (b - a) / (t1 - t0);
    assert (a - t0) / d + s == (b - t0) / d;
    assert Line(t0, v0, t1, v1, b) - Line(t0, v0, t1, v1, a) == s * (v1 - v0);
    RatioInUnit(b - a, d);
    assert s * d == b - a;
    ScaleNear(s, v1 - v0, speed * d);
    assert s * (speed * d) == speed * (b - a);
  }

  lemma ScaleNear(s: real, x: real, bound: real)
    requires s >= 0.0 && -bound <= x <= bound
    ensures -(s * bound) <= s * x <= s * bound
  {}

  lemma LineEnds(t0: real, v0: real, t1: real, v1: real)
    requires t0 < t1
    ensures Line(t0, v0, t1, v1, t0) == v0 && Line(t0, v0, t1, v1, t1) == v1
  {}

  lemma {:induction false} KeyframesNear(times: seq<real>, values: seq<real>, speed: real, i: nat, j: nat)
    requires StrictlyIncreasing(times) && |values| == |times| && BoundsSegments(times, values, speed) && speed >= 0.0
    requires i <= j < |times|
    ensures Near(values[i], values[j], Travel(speed, times[i], times[j]))
    decreases j - i
  {
    hide Near, Travel;
    if i < j {
      KeyframesNear(times, values, speed, i, j - 1);
      TravelAdds(speed, times[i], times[j - 1], times[j]);
      assert Near(values[j - 1], values[j - 1 + 1], Travel(speed, times[j - 1], times[j - 1 + 1]));
      NearChain(values[i], values[j - 1], values[j], Travel(speed, times[i], times[j - 1]), Travel(speed, times[j - 1], times[j]));
    } else {
      TravelNotNegative(speed, times[i], times[j]);
      NearSame(values[i], Travel(speed, times[i], times[j]));
    }
  }

  /** From a curl to the keyframe behind it. */
  lemma CurveToUpper(times: seq<real>, values: seq<real>, speed: real, f: real)
    requires InCurve(times, f) && f < times[|times| - 1] && |values| == |times| && BoundsSegments(times, values, speed)
    ensures var k := LowerKeyframe(times, f);
      k + 1 < |times| && Near(Curve(times, values, f), values[k + 1], Travel(speed, f, times[k + 1]))
  {
    CurveIsLine(times, values, f);
    var k := LowerKeyframe(times, f);
    hide Curve, Near, Travel;
    LineEnds(times[k], values[k], times[k + 1], values[k + 1]);
    LineStep(times[k], values[k], times[k + 1], values[k + 1], f, times[k + 1], speed);
  }

  /** From the keyframe at or before a curl to the curl. */
  lemma LowerToCurve(times: seq<real>, values: seq<real>, speed: real, f: real)
    requires InCurve(times, f) && |values| == |times| && BoundsSegments(times, values, speed) && speed >= 0.0
    ensures var k := LowerKeyframe(times, f);
      Near(values[k], Curve(times, values, f), Travel(speed, times[k], f))
  {
    CurveIsLine(times, values, f);
    var k := LowerKeyframe(times, f);
    hide Curve, Near, Travel;
    if f < times[|times| - 1] {
      LineEnds(times[k], values[k], times[k + 1], values[k + 1]);
      LineStep(times[k], values[k], times[k + 1], values[k + 1], times[k], f, speed);
    } else {
      TravelNotNegative(speed, times[k], f);
      NearSame(values[k], Travel(speed, times[k], f));
    }
  }

  lemma SameSegment(times: seq<real>, values: seq<real>, speed: real, a: real, b: real)
    requires InCurve(times, a) && InCurve(times, b) && a <= b && |values| == |times|
    requires BoundsSegments(times, values, speed) && speed >= 0.0
    requires LowerKeyframe(times, a) == LowerKeyframe(times, b)
    ensures Near(Curve(times, values, a), Curve(times, values, b), Travel(speed, a, b))
  {
    CurveIsLine(times, values, a);
    CurveIsLine(times, values, b);
    Bracketing(times, a);
    var k := LowerKeyframe(times, a);
    hide Curve, Near, Travel, LowerKeyframe, StrictlyIncreasing;
    if b < times[|times| - 1] {
      LineStep(times[k], values[k], times[k + 1], values[k + 1], a, b, speed);
    } else {
      TravelNotNegative(speed, a, b);
      NearSame(values[k], Travel(speed, a, b));
    }
  }

  lemma CurveStep(times: seq<real>, values: seq<real>, speed: real, a: real, b: real)
    requires InCurve(times, a) && InCurve(times, b) && a <= b && |values| == |times|
    requires BoundsSegments(times, values, speed) && speed >= 0.0
    ensures Near(Curve(times, values, a), Curve(times, values, b), Travel(speed, a, b))
  {
    var i, j := LowerKeyframe(times, a), LowerKeyframe(times, b);
    if i == j {
      SameSegment(times, values, speed, a, b);
    } else {
      LaterSegment(times, a, b);
      hide Curve, BoundsSegments, Travel, Near, LowerKeyframe;
      CurveToUpper(times, values, speed, a);
      KeyframesNear(times, values, speed, i + 1, j);
      LowerToCurve(times, values, speed, b);
      TravelAdds(speed, a, times[i + 1], times[j]);
      TravelAdds(speed, a, times[j], b);
      NearChain(Curve(times, values, a), values[i + 1], values[j], Travel(speed, a, times[i + 1]), Travel(speed, times[i + 1], times[j]));
      NearChain(Curve(times, values, a), values[j], Curve(times, values, b), Travel(speed, a, times[j]), Travel(speed, times[j], b));
    }
  }

  lemma LaterSegment(times: seq<real>, a: real, b: real)
    requires InCurve(times, a) && InCurve(times, b) && a <= b && LowerKeyframe(times, a) != LowerKeyframe(times, b)
    ensures LowerKeyframe(times, a) + 1 <= LowerKeyframe(times, b) && a < times[|times| - 1]
  {
    CountSplits(times, a);
    CountSplits(times, b);
    assert times[LowerKeyframe(times, a)] <= a;
    assert times[LowerKeyframe(times, b)] <= b;
  }

  /** A segment is no faster than the curve. */
  lemma SegmentFromCurve(times: seq<real>, values: seq<real>, speed: real, k: nat)
    requires StrictlyIncreasing(times) && |values| == |times| && Lipschitz(times, values, speed) && k + 1 < |times|
    ensures Near(values[k], values[k + 1], Travel(speed, times[k], times[k + 1]))
  {
    var a, b := times[k], (times[k] + times[k + 1]) / 2.0;
    BracketIsUnique(times, a, k);
    BracketIsUnique(times, b, k);
    assert a <= b && InCurve(times, a) && InCurve(times, b);
    assert Near(Curve(times, values, a), Curve(times, values, b), Travel(speed, a, b));
    CurveIsLine(times, values, a);
    CurveIsLine(times, values, b);
    LineEnds(times[k], values[k], times[k + 1], values[k + 1]);
    ProportionHalf(b, a, times[k + 1]);
    TravelHalf(speed, a, times[k + 1], b);
    hide Curve, Travel, Proportion, LowerKeyframe;
  }

  lemma SameDistance(speed: real, a: real, b: real, c: real, d: real)
    requires b - a == d - c
    ensures Travel(speed, a, b) == Travel(speed, c, d)
  {}

  lemma TravelHalf(speed: real, a: real, b: real, middle: real)
    requires middle == (a + b) / 2.0
    ensures Travel(speed, a, middle) + Travel(speed, a, middle) == Travel(speed, a, b)
  {
    hide *;
    TravelAdds(speed, a, middle, b);
    SameDistance(speed, a, middle, middle, b);
  }

  lemma ProportionHalf(f: real, t0: real, t1: real)
    requires t0 < t1 && f == (t0 + t1) / 2.0
    ensures Proportion(f, t0, t1) == 0.5
  {
    var d := f - t0;
    assert t1 - t0 == d + d;
    assert d / (d + d) == 0.5;
  }

  /** The curve changes no faster than its steepest segment: it keeps to a speed exactly if every segment does. */
  lemma LipschitzIff(times: seq<real>, values: seq<real>, speed: real)
    requires StrictlyIncreasing(times) && |values| == |times| > 1
    ensures Lipschitz(times, values, speed) <==> BoundsSegments(times, values, speed)
  {
    hide Curve, Near, Travel, LowerKeyframe;
    if BoundsSegments(times, values, speed) {
      NearDistance(values[0], values[0 + 1], Travel(speed, times[0], times[0 + 1]));
      SpeedNotNegative(speed, times[0], times[1]);
      forall a, b | InCurve(times, a) && InCurve(times, b) && a <= b
        ensures Near(Curve(times, values, a), Curve(times, values, b), Travel(speed, a, b))
      {
        CurveStep(times, values, speed, a, b);
      }
    }
    if Lipschitz(times, values, speed) {
      forall k | 0 <= k < |times| - 1 ensures Near(values[k], values[k + 1], Travel(speed, times[k], times[k + 1])) {
        SegmentFromCurve(times, values, speed, k);
      }
    }
  }
}
