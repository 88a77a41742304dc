/**
 The animation data of anim_loader.cpp after loading, and the lookup of the keyframes around a curl.
 A rotation array is kept as a quaternion whose w, x, y and z are the elements 0 to 3.
 */
module AnimLoader {
  import opened DriverMath

  datatype Transform = Transform(rotation: Quaternion, translation: Vector3)

  datatype AnimationData = AnimationData(startTransform: Transform, startTime: real, endTransform: Transform, endTime: real)

  const BONE_COUNT: nat := 31

  ghost predicate StrictlyIncreasing(times: seq<real>) {
    forall i, j :: 0 <= i < j < |times| ==> times[i] < times[j]
  }

  /** A loaded model: for each bone a transform at rest and one at each keyframe. */
  datatype Model = Model(initialTransforms: seq<Transform>, keyframeTimes: seq<real>, keyframeTransforms: seq<seq<Transform>>) {
    /** What the animation file provides: ordered keyframes, of which the first is not later than curl 0. */
    ghost predicate Valid() {
      && |keyframeTimes| > 0 && StrictlyIncreasing(keyframeTimes) && keyframeTimes[0] <= 0.0
      && |initialTransforms| == |keyframeTransforms| == BONE_COUNT
      && forall b :: 0 <= b < BONE_COUNT ==> |keyframeTransforms[b]| == |keyframeTimes|
    }
  }

  /** The number of times not later than f, which for increasing times is the index of the first later one. */
  function CountUpTo(times: seq<real>, f: real): (n: nat)
    ensures n <= |times|
  {
    if times == [] then 0
    else CountUpTo(times[..|times| - 1], f) + (if times[|times| - 1] <= f then 1 else 0)
  }

  lemma {:induction false} CountIsBoundary(times: seq<real>, f: real, n: nat)
    requires n <= |times|
    requires (forall k :: 0 <= k < n ==> times[k] <= f) && (forall k :: n <= k < |times| ==> f < times[k])
    ensures CountUpTo(times, f) == n
  {
    if times != [] {
      CountIsBoundary(times[..|times| - 1], f, if n == |times| then n - 1 else n);
    }
  }

  /** std::upper_bound: a binary search. */
  method UpperBound(times: seq<real>, f: real) returns (n: nat)
    requires StrictlyIncreasing(times)
    ensures n == CountUpTo(times, f) <= |times|
    ensures forall k :: 0 <= k < n ==> times[k] <= f
    ensures forall k :: n <= k < |times| ==> f < times[k]
  {
    n := 0;
    var count := |times|;
    while count > 0
      invariant count >= 0 && n + count <= |times|
      invariant forall k :: 0 <= k < n ==> times[k] <= f
      invariant forall k :: n + count <= k < |times| ==> f < times[k]
    {
      var step := count / 2;
      if times[n + step] <= f {
        n := n + step + 1;
        count := count - step - 1;
      } else {
        count := step;
      }
    }
    CountIsBoundary(times, f, n);
  }

  lemma {:induction false} CountSplits(times: seq<real>, f: real)
    requires StrictlyIncreasing(times)
    ensures forall k :: 0 <= k < CountUpTo(times, f) ==> times[k] <= f
    ensures forall k :: CountUpTo(times, f) <= k < |times| ==> f < times[k]
  {
    if times != [] {
      CountSplits(times[..|times| - 1], f);
    }
  }

  /** The keyframe at or before f. */
  function LowerKeyframe(times: seq<real>, f: real): (i: nat)
    requires StrictlyIncreasing(times) && times != [] && times[0] <= f
    ensures i < |times|
  {
    CountSplits(times, f);
    CountUpTo(times, f) - 1
  }

  function UpperKeyframe(times: seq<real>, f: real): (i: nat)
    requires StrictlyIncreasing(times) && times != [] && times[0] <= f
    ensures i < |times|
  {
    var lower := LowerKeyframe(times, f);
    if lower < |times| - 1 then lower + 1 else lower
  }

  /** The search brackets f: by adjacent keyframes, or by the last one twice. */
  lemma Bracketing(times: seq<real>, f: real)
    requires StrictlyIncreasing(times) && times != [] && times[0] <= f
    ensures var lower, upper := LowerKeyframe(times, f), UpperKeyframe(times, f);
      && times[lower] <= f
      && (f < times[|times| - 1] <==> upper == lower + 1)
      && (f < times[|times| - 1] ==> f < times[upper])
      && (f >= times[|times| - 1] ==> lower == upper == |times| - 1)
  {
    CountSplits(times, f);
  }

  /** The search finds the only bracket there is. */
  lemma BracketIsUnique(times: seq<real>, f: real, k: nat)
    requires StrictlyIncreasing(times) && times != [] && times[0] <= f
    requires k < |times| && times[k] <= f && (k + 1 < |times| ==> f < times[k + 1])
    ensures LowerKeyframe(times, f) == k
  {
    CountSplits(times, f);
  }

  function AnimationDataAt(m: Model, bone: nat, f: real): AnimationData
    requires m.Valid() && bone < BONE_COUNT && f >= 0.0
  {
    var lower, upper := LowerKeyframe(m.keyframeTimes, f), UpperKeyframe(m.keyframeTimes, f);
    AnimationData(
      m.keyframeTransforms[bone][lower], m.keyframeTimes[lower],
      m.keyframeTransforms[bone][upper], m.keyframeTimes[upper])
  }

  method GetAnimationDataByBoneIndex(m: Model, bone: nat, f: real) returns (result: AnimationData)
    requires m.Valid() && bone < BONE_COUNT && f >= 0.0
    ensures result == AnimationDataAt(m, bone, f)
  {
    var n := UpperBound(m.keyframeTimes, f);
    var lower := n - 1;
    var upper := if lower < |m.keyframeTimes| - 1 then lower + 1 else lower;
    result := AnimationData(
      m.keyframeTransforms[bone][lower], m.keyframeTimes[lower],
      m.keyframeTransforms[bone][upper], m.keyframeTimes[upper]);
  }
}
