/** What holds of the posed hand skeleton. */
module HandTheorems {
  import opened DriverMath
  import opened QuaternionAlgebra
  import opened EulerAngles
  import opened AnimLoader
  import opened Interpolation
  import opened HandTracking

  // ----- the norm of an orientation -----

  function Dot(a: Quaternion, b: Quaternion): real {
    a.w * b.w + a.x * b.x + a.y * b.y + a.z * b.z
  }

  /** The squared norm of a mixture of two unit quaternions. */
  function MixtureNorm(f: real, dot: real): real {
    1.0 - 2.0 * (f * (1.0 - f)) * (1.0 - dot)
  }

  /** A quadratic form with the given weights. */
  function Form(p: real, q: real, r: real, a: real, b: real): real {
    p * (a * a) + q * (a * b) + r * (b * b)
  }

  lemma LerpSquared(a: real, b: real, f: real, p: real, q: real, r: real)
    requires p == (1.0 - f) * (1.0 - f) && q == 2.0 * (f * (1.0 - f)) && r == f * f
    ensures Square(Lerp(a, b, f)) == Form(p, q, r, a, b)
  {}

  lemma Weighted(p: real, q: real, r: real, a: Quaternion, b: Quaternion)
    ensures Form(p, q, r, a.w, b.w) + Form(p, q, r, a.x, b.x) + Form(p, q, r, a.y, b.y) + Form(p, q, r, a.z, b.z)
         == p * NormSquared(a) + q * Dot(a, b) + r * NormSquared(b)
  {}

  lemma NormIsSquares(q: Quaternion)
    ensures NormSquared(q) == Square(q.w) + Square(q.x) + Square(q.y) + Square(q.z)
  {}

  lemma LerpIsForm(a: Quaternion, b: Quaternion, f: real, p: real, q: real, r: real)
    requires p == (1.0 - f) * (1.0 - f) && q == 2.0 * (f * (1.0 - f)) && r == f * f
    ensures NormSquared(LerpQuaternion(a, b, f)) == p * NormSquared(a) + q * Dot(a, b) + r * NormSquared(b)
  {
    hide Lerp, Square, NormSquared, Dot, Form;
    NormIsSquares(LerpQuaternion(a, b, f));
    LerpSquared(a.w, b.w, f, p, q, r);
    LerpSquared(a.x, b.x, f, p, q, r);
    LerpSquared(a.y, b.y, f, p, q, r);
    LerpSquared(a.z, b.z, f, p, q, r);
    Weighted(p, q, r, a, b);
  }

  lemma LerpNorm(a: Quaternion, b: Quaternion, f: real)
    requires IsUnit(a) && IsUnit(b)
    ensures NormSquared(LerpQuaternion(a, b, f)) == MixtureNorm(f, Dot(a, b))
  {
    var (p, q, r) := ((1.0 - f) * (1.0 - f), 2.0 * (f * (1.0 - f)), f * f);
    LerpIsForm(a, b, f, p, q, r);
    hide LerpQuaternion, NormSquared, Dot, MixtureNorm;
    WeightsAddUp(f, p, q, r, Dot(a, b));
  }

  lemma WeightsAddUp(f: real, p: real, q: real, r: real, dot: real)
    requires p == (1.0 - f) * (1.0 - f) && q == 2.0 * (f * (1.0 - f)) && r == f * f
    ensures p * 1.0 + q * dot + r * 1.0 == MixtureNorm(f, dot)
  {}

  lemma DotAtMostOne(a: Quaternion, b: Quaternion)
    requires IsUnit(a) && IsUnit(b)
    ensures Dot(a, b) <= 1.0
  {
    DifferenceSquared(a.w, b.w);
    DifferenceSquared(a.x, b.x);
    DifferenceSquared(a.y, b.y);
    DifferenceSquared(a.z, b.z);
    hide Form, Dot, NormSquared;
    Weighted(1.0, -2.0, 1.0, a, b);
  }

  lemma DifferenceSquared(x: real, y: real)
    ensures Form(1.0, -2.0, 1.0, x, y) >= 0.0
  {
    assert Form(1.0, -2.0, 1.0, x, y) == (x - y) * (x - y);
  }

  lemma MixtureNormBounds(f: real, dot: real)
    requires 0.0 <= f <= 1.0 && 0.0 <= dot <= 1.0
    ensures 0.5 <= MixtureNorm(f, dot) <= 1.0
  {
    var w := f * (1.0 - f);
    var s := (1.0 - dot) * w;
    MixtureIs(f, dot, w, s);
    WeightAtMostQuarter(f, w);
    hide *;
    ShareWithin(1.0 - dot, w, s);
  }

  lemma MixtureIs(f: real, dot: real, w: real, s: real)
    requires w == f * (1.0 - f) && s == (1.0 - dot) * w
    ensures MixtureNorm(f, dot) == 1.0 - 2.0 * s
  {}

  lemma WeightAtMostQuarter(f: real, w: real)
    requires w == f * (1.0 - f) && 0.0 <= f <= 1.0
    ensures 0.0 <= w <= 0.25
  {
    ProductSign(f, 1.0 - f);
    assert 0.25 - w == (f - 0.5) * (f - 0.5);
  }

  lemma ShareWithin(f: real, w: real, s: real)
    requires 0.0 <= f <= 1.0 && w >= 0.0 && s == f * w
    ensures 0.0 <= s <= w
  {
    ScaledBetween(f, w);
  }

  /** The keyframe rotations of a bone are unit quaternions, and adjacent ones are on the same side. */
  ghost predicate TurnsGently(m: Model, bone: nat)
    requires m.Valid() && bone < BONE_COUNT
  {
    var ts := m.keyframeTransforms[bone];
    && (forall k :: 0 <= k < |ts| ==> IsUnit(ts[k].rotation))
    && (forall k :: 0 <= k < |ts| - 1 ==> Dot(ts[k].rotation, ts[k + 1].rotation) >= 0.0)
  }

  lemma DotWithItself(q: Quaternion)
    ensures Dot(q, q) == NormSquared(q)
  {}

  // ----- numbers -----

  /** The curl at which the code divides zero by zero. */
  function LastTime(m: Model): real
    requires m.Valid()
  {
    m.keyframeTimes[|m.keyframeTimes| - 1]
  }

  /** The transform of the last keyframe. */
  function LastTransform(m: Model, bone: nat): Transform
    requires m.Valid() && bone < BONE_COUNT
  {
    m.keyframeTransforms[bone][|m.keyframeTimes| - 1]
  }

  /** A posed bone has numbers everywhere but at exactly the last keyframe time, and there for what its last keyframe leaves empty. */
  lemma NumbersIff(m: Model, bone: nat, curl: real, splay: real, rightHand: bool, trig: Trigonometry)
    requires m.Valid() && 0.0 <= curl && bone < BONE_COUNT
    ensures var b := Posed(m, bone, curl, splay, rightHand, trig);
      && (b.orientation.Numbers? <==> curl != LastTime(m) || LastTransform(m, bone).rotation == ZERO_QUATERNION)
      && (b.position.Numbers? <==> curl != LastTime(m) || LastTransform(m, bone).translation == ZERO_VECTOR)
      && b.w == 1.0
  {
    IsNumberIff(m.keyframeTimes, curl);
    Bracketing(m.keyframeTimes, curl);
    hide LerpQuaternion, LerpVector, Fraction, MirroredOrientation, MirroredPosition, Splayed;
  }

  // ----- the norm of a pose -----

  lemma InterpolatedNorm(m: Model, bone: nat, curl: real)
    requires m.Valid() && 0.0 <= curl && curl != LastTime(m) && bone < BONE_COUNT && TurnsGently(m, bone)
    ensures OrientationAt(m, bone, curl).Numbers? && 0.5 <= NormSquared(OrientationAt(m, bone, curl).value) <= 1.0
  {
    var times, ts := m.keyframeTimes, m.keyframeTransforms[bone];
    Bracketing(times, curl);
    IsNumberIff(times, curl);
    var (i, j) := (LowerKeyframe(times, curl), UpperKeyframe(times, curl));
    var (a, b) := (ts[i].rotation, ts[j].rotation);
    var f := Fraction(curl, times[i], times[j]);
    assert IsUnit(a) && IsUnit(b) && Dot(a, b) >= 0.0 by {
      DotWithItself(a);
      assert j == i + 1 ==> Dot(ts[i].rotation, ts[i + 1].rotation) >= 0.0;
    }
    assert a != ZERO_QUATERNION;
    assert OrientationAt(m, bone, curl) == Numbers(LerpQuaternion(a, b, f));
    hide NormSquared, Dot, LerpQuaternion, OrientationAt, Fraction, MixtureNorm, TurnsGently;
    FractionInUnit(curl, times[i], times[j]);
    DotAtMostOne(a, b);
    LerpNorm(a, b, f);
    MixtureNormBounds(f, Dot(a, b));
  }

  /** The orientation of a pose, from the interpolated one. */
  function Finished(q: Quaternion, bone: nat, splay: real, rightHand: bool, trig: Trigonometry): Quaternion {
    var r := Splayed(q, bone, splay, trig);
    if rightHand then r else MirroredOrientation(r, bone)
  }

  lemma PosedIs(m: Model, bone: nat, curl: real, splay: real, rightHand: bool, trig: Trigonometry)
    requires m.Valid() && 0.0 <= curl && bone < BONE_COUNT
    ensures var b, q, p := Posed(m, bone, curl, splay, rightHand, trig), OrientationAt(m, bone, curl), PositionAt(m, bone, curl);
      && b.orientation == (if q.Numbers? then Numbers(Finished(q.value, bone, splay, rightHand, trig)) else NotNumbers)
      && b.position == (if p.Numbers? then Numbers(if rightHand then p.value else MirroredPosition(p.value, bone)) else NotNumbers)
  {
    hide OrientationAt, PositionAt, Splayed, MirroredOrientation, MirroredPosition;
  }

  /** Splaying and mirroring keep the norm, whatever the keyframes are. */
  lemma SplayAndMirrorKeepNorm(q: Quaternion, bone: nat, splay: real, rightHand: bool, trig: Trigonometry)
    requires IsTrigonometry(trig)
    ensures NormSquared(Finished(q, bone, splay, rightHand, trig)) == NormSquared(q)
  {
    hide Splayed, NormSquared, MirroredOrientation, IsTrigonometry;
    SplayKeepsNorm(q, bone, splay, trig);
    MirrorKeepsNorm(Splayed(q, bone, splay, trig), bone);
  }

  lemma SplayKeepsNorm(q: Quaternion, bone: nat, splay: real, trig: Trigonometry)
    requires IsTrigonometry(trig)
    ensures NormSquared(Splayed(q, bone, splay, trig)) == NormSquared(q)
  {
    hide EulerToQuaternion, Product, NormSquared, IsTrigonometry, HalfAngle.Valid, HalfAngle.Cos, HalfAngle.Sin;
    SplayTurnIsUnit(splay, trig);
    NormOfProduct(q, EulerToQuaternion(trig.half(0.0), trig.half(splay * MAX_SPLAY_ANGLE), trig.half(0.0)));
    assert NormSquared(q) * 1.0 == NormSquared(q);
  }

  lemma SplayTurnIsUnit(splay: real, trig: Trigonometry)
    requires IsTrigonometry(trig)
    ensures IsUnit(EulerToQuaternion(trig.half(0.0), trig.half(splay * MAX_SPLAY_ANGLE), trig.half(0.0)))
  {
    hide EulerToQuaternion, IsUnit, IsTrigonometry, HalfAngle.Valid, HalfAngle.Cos, HalfAngle.Sin;
    HalfIsValid(trig, 0.0);
    HalfIsValid(trig, splay * MAX_SPLAY_ANGLE);
    EulerIsUnit(trig.half(0.0), trig.half(splay * MAX_SPLAY_ANGLE), trig.half(0.0));
  }

  lemma MirrorKeepsNorm(q: Quaternion, bone: nat)
    ensures NormSquared(MirroredOrientation(q, bone)) == NormSquared(q)
  {}

  /** Whatever the splay, on either hand: a posed orientation never shrinks below half the squared norm. */
  lemma PosedOrientationNorm(m: Model, bone: nat, curl: real, splay: real, rightHand: bool, trig: Trigonometry)
    requires m.Valid() && 0.0 <= curl && curl != LastTime(m) && bone < BONE_COUNT && TurnsGently(m, bone) && IsTrigonometry(trig)
    ensures var q := Posed(m, bone, curl, splay, rightHand, trig).orientation;
      q.Numbers? && 0.5 <= NormSquared(q.value) <= 1.0
  {
    hide Posed, OrientationAt, NormSquared, TurnsGently, IsTrigonometry, Finished;
    InterpolatedNorm(m, bone, curl);
    PosedIs(m, bone, curl, splay, rightHand, trig);
    SplayAndMirrorKeepNorm(OrientationAt(m, bone, curl).value, bone, splay, rightHand, trig);
  }

  /** The bound is reached: halfway between orthogonal keyframes. */
  lemma NormBoundIsReached(a: Quaternion, b: Quaternion)
    requires IsUnit(a) && IsUnit(b)
    ensures NormSquared(LerpQuaternion(a, b, 0.5)) == 0.5 <==> Dot(a, b) == 0.0
  {
    LerpNorm(a, b, 0.5);
    hide NormSquared, LerpQuaternion, Dot;
  }

  /** Mirroring twice gives the same pose. */
  lemma MirrorTwice(b: Bone, bone: nat)
    ensures var r := Mirrored(Mirrored(b, bone), bone);
      && r.position == b.position && r.w == b.w
      && (r.orientation.Numbers? <==> b.orientation.Numbers?)
      && (b.orientation.Numbers? ==> SameRotation(r.orientation.value, b.orientation.value))
  {}

  /** The splay turns a bone around its own y axis, by up to 20 degrees either way. */
  lemma SplayTurnsAroundY(q: Quaternion, bone: nat, splay: real, trig: Trigonometry)
    requires IsTrigonometry(trig) && IsBoneSplayable(bone) && -1.0 <= splay <= 1.0
    ensures var r, a := Splayed(q, bone, splay, trig), trig.half(splay * 20.0);
      && Rotate(AXIS_Y, r) == Rotate(AXIS_Y, q)
      && Rotate(AXIS_X, r) == Rotate(Vector3(a.Cos(), 0.0, -a.Sin()), q)
      && Rotate(AXIS_Z, r) == Rotate(Vector3(a.Sin(), 0.0, a.Cos()), q)
  {
    hide *;
    var a := trig.half(splay * 20.0);
    SplayedIs(q, bone, splay, trig);
    HalfIsValid(trig, splay * 20.0);
    AxesAroundY(a);
    RotateByProduct(AXIS_X, q, TurnY(a));
    RotateByProduct(AXIS_Y, q, TurnY(a));
    RotateByProduct(AXIS_Z, q, TurnY(a));
  }

  lemma SplayedIs(q: Quaternion, bone: nat, splay: real, trig: Trigonometry)
    requires IsTrigonometry(trig) && IsBoneSplayable(bone) && -1.0 <= splay <= 1.0
    ensures Splayed(q, bone, splay, trig) == Product(q, TurnY(trig.half(splay * 20.0)))
  {
    hide Product, EulerToQuaternion, TurnY, IsTrigonometry;
    NoAngle(trig);
    PitchAlone(trig.half(splay * 20.0));
  }

  // ----- components over the curl -----

  datatype Component = W | X | Y | Z | Right | Up | Back

  function Part(q: Quaternion, p: Vector3, c: Component): real {
    match c
    case W => q.w
    case X => q.x
    case Y => q.y
    case Z => q.z
    case Right => p.x
    case Up => p.y
    case Back => p.z
  }

  function ComponentValues(ts: seq<Transform>, c: Component): (s: seq<real>)
    ensures |s| == |ts| && forall k :: 0 <= k < |ts| ==> s[k] == Part(ts[k].rotation, ts[k].translation, c)
  {
    seq(|ts|, k requires 0 <= k < |ts| => Part(ts[k].rotation, ts[k].translation, c))
  }

  /** No keyframe of the bone is one of the empty transforms that the code leaves out. */
  ghost predicate FullyAnimated(m: Model, bone: nat)
    requires m.Valid() && bone < BONE_COUNT
  {
    var ts := m.keyframeTransforms[bone];
    forall k :: 0 <= k < |ts| ==> ts[k].rotation != ZERO_QUATERNION && ts[k].translation != ZERO_VECTOR
  }

  /** Before splay and mirroring, every component of a fully animated bone follows its curve through the keyframes. */
  lemma ComponentsFollowCurves(m: Model, bone: nat, curl: real, c: Component)
    requires m.Valid() && 0.0 <= curl && curl != LastTime(m) && bone < BONE_COUNT && FullyAnimated(m, bone)
    ensures InCurve(m.keyframeTimes, curl) && OrientationAt(m, bone, curl).Numbers? && PositionAt(m, bone, curl).Numbers?
    ensures Part(OrientationAt(m, bone, curl).value, PositionAt(m, bone, curl).value, c)
         == Curve(m.keyframeTimes, ComponentValues(m.keyframeTransforms[bone], c), curl)
  {
    var ts := m.keyframeTransforms[bone];
    IsNumberIff(m.keyframeTimes, curl);
    assert ts[LowerKeyframe(m.keyframeTimes, curl)].rotation != ZERO_QUATERNION;
    assert ts[LowerKeyframe(m.keyframeTimes, curl)].translation != ZERO_VECTOR;
    hide Lerp, Fraction;
  }

  /** A speed for each component that none of its segments exceeds. */
  ghost predicate Speeds(m: Model, bone: nat, speed: Component -> real)
    requires m.Valid() && bone < BONE_COUNT
  {
    forall c: Component :: BoundsSegments(m.keyframeTimes, ComponentValues(m.keyframeTransforms[bone], c), speed(c))
  }

  lemma ComponentIsLipschitz(m: Model, bone: nat, c: Component, speed: Component -> real, a: real, b: real)
    requires m.Valid() && bone < BONE_COUNT && FullyAnimated(m, bone) && |m.keyframeTimes| > 1 && Speeds(m, bone, speed)
    requires 0.0 <= a <= b && a != LastTime(m) && b != LastTime(m)
    ensures OrientationAt(m, bone, a).Numbers? && PositionAt(m, bone, a).Numbers?
    ensures OrientationAt(m, bone, b).Numbers? && PositionAt(m, bone, b).Numbers?
    ensures Near(
      Part(OrientationAt(m, bone, a).value, PositionAt(m, bone, a).value, c),
      Part(OrientationAt(m, bone, b).value, PositionAt(m, bone, b).value, c),
      Travel(speed(c), a, b))
  {
    ComponentsFollowCurves(m, bone, a, c);
    ComponentsFollowCurves(m, bone, b, c);
    hide Curve, ComponentValues, Part, OrientationAt, PositionAt, BoundsSegments, Near, Travel;
    LipschitzIff(m.keyframeTimes, ComponentValues(m.keyframeTransforms[bone], c), speed(c));
  }

  // ----- distances -----

  function Difference(p: Quaternion, q: Quaternion): Quaternion {
    Quaternion(q.w - p.w, q.x - p.x, q.y - p.y, q.z - p.z)
  }

  /** The squared distance of two orientations. */
  function Apart(p: Quaternion, q: Quaternion): real {
    NormSquared(Difference(p, q))
  }

  lemma ProductOfDifference(p: Quaternion, q: Quaternion, t: Quaternion)
    ensures Difference(Product(p, t), Product(q, t)) == Product(Difference(p, q), t)
  {
    DifferenceIsSum(p, q);
    DifferenceIsSum(Product(p, t), Product(q, t));
    hide Product, Difference;
    SumProduct(q, Negate(p), t);
    ProductOfNegated(p, t);
  }

  lemma DifferenceIsSum(p: Quaternion, q: Quaternion)
    ensures Difference(p, q) == Sum(q, Negate(p))
  {}

  /** Splay and mirroring are rigid: they change no distance between orientations. */
  lemma FinishedApart(p: Quaternion, q: Quaternion, bone: nat, splay: real, rightHand: bool, trig: Trigonometry)
    requires IsTrigonometry(trig)
    ensures Apart(Finished(p, bone, splay, rightHand, trig), Finished(q, bone, splay, rightHand, trig)) == Apart(p, q)
  {
    var t := EulerToQuaternion(trig.half(0.0), trig.half(splay * MAX_SPLAY_ANGLE), trig.half(0.0));
    hide NormSquared, Product, EulerToQuaternion, IsTrigonometry, MirroredOrientation, Difference;
    SplayTurnIsUnit(splay, trig);
    ProductOfDifference(p, q, t);
    NormOfProduct(Difference(p, q), t);
    assert NormSquared(Difference(p, q)) * 1.0 == NormSquared(Difference(p, q));
    MirroredApart(Splayed(p, bone, splay, trig), Splayed(q, bone, splay, trig), bone);
  }

  lemma MirroredApart(p: Quaternion, q: Quaternion, bone: nat)
    ensures Apart(MirroredOrientation(p, bone), MirroredOrientation(q, bone)) == Apart(p, q)
  {
    hide NormSquared;
    NormIsSquares(Difference(p, q));
    NormIsSquares(Difference(MirroredOrientation(p, bone), MirroredOrientation(q, bone)));
    SquareOfOpposite(q.w - p.w);
    SquareOfOpposite(q.x - p.x);
    SquareOfOpposite(q.y - p.y);
    SquareOfOpposite(q.z - p.z);
    hide Square;
  }

  lemma SquareOfOpposite(x: real)
    ensures Square(-x) == Square(x)
  {}

  lemma NearSquared(x: real, y: real, d: real)
    requires Near(x, y, d)
    ensures Square(y - x) <= Square(d)
  {
    var e := y - x;
    ProductSign(d - e, d + e);
    assert (d - e) * (d + e) == d * d - e * e;
  }

  /** How far an orientation may turn between two curls. */
  ghost function TurnLimit(speed: Component -> real, a: real, b: real): real {
    Square(Travel(speed(W), a, b)) + Square(Travel(speed(X), a, b)) + Square(Travel(speed(Y), a, b)) + Square(Travel(speed(Z), a, b))
  }

  lemma ApartWithin(p: Quaternion, q: Quaternion, speed: Component -> real, a: real, b: real)
    requires Near(p.w, q.w, Travel(speed(W), a, b)) && Near(p.x, q.x, Travel(speed(X), a, b))
    requires Near(p.y, q.y, Travel(speed(Y), a, b)) && Near(p.z, q.z, Travel(speed(Z), a, b))
    ensures Apart(p, q) <= TurnLimit(speed, a, b)
  {
    NormIsSquares(Difference(p, q));
    NearSquared(p.w, q.w, Travel(speed(W), a, b));
    NearSquared(p.x, q.x, Travel(speed(X), a, b));
    NearSquared(p.y, q.y, Travel(speed(Y), a, b));
    NearSquared(p.z, q.z, Travel(speed(Z), a, b));
    hide NormSquared, Square, Travel, Near;
  }

  ghost predicate MovesWithin(p: Vector3, q: Vector3, speed: Component -> real, a: real, b: real) {
    && Near(p.x, q.x, Travel(speed(Right), a, b))
    && Near(p.y, q.y, Travel(speed(Up), a, b))
    && Near(p.z, q.z, Travel(speed(Back), a, b))
  }

  lemma MirrorMovesWithin(p: Vector3, q: Vector3, bone: nat, speed: Component -> real, a: real, b: real)
    requires MovesWithin(p, q, speed, a, b)
    ensures MovesWithin(MirroredPosition(p, bone), MirroredPosition(q, bone), speed, a, b)
  {
    hide Travel;
  }

  lemma RestMoves(m: Model, bone: nat, speed: Component -> real, a: real, b: real)
    requires m.Valid() && bone < BONE_COUNT && FullyAnimated(m, bone) && |m.keyframeTimes| > 1 && Speeds(m, bone, speed)
    requires 0.0 <= a <= b && a != LastTime(m) && b != LastTime(m)
    ensures OrientationAt(m, bone, a).Numbers? && PositionAt(m, bone, a).Numbers?
    ensures OrientationAt(m, bone, b).Numbers? && PositionAt(m, bone, b).Numbers?
    ensures Apart(OrientationAt(m, bone, a).value, OrientationAt(m, bone, b).value) <= TurnLimit(speed, a, b)
    ensures MovesWithin(PositionAt(m, bone, a).value, PositionAt(m, bone, b).value, speed, a, b)
  {
    hide OrientationAt, PositionAt, Near, Travel, Speeds, FullyAnimated, Apart, TurnLimit, LastTime;
    ComponentIsLipschitz(m, bone, W, speed, a, b);
    ComponentIsLipschitz(m, bone, X, speed, a, b);
    ComponentIsLipschitz(m, bone, Y, speed, a, b);
    ComponentIsLipschitz(m, bone, Z, speed, a, b);
    ComponentIsLipschitz(m, bone, Right, speed, a, b);
    ComponentIsLipschitz(m, bone, Up, speed, a, b);
    ComponentIsLipschitz(m, bone, Back, speed, a, b);
    ApartWithin(OrientationAt(m, bone, a).value, OrientationAt(m, bone, b).value, speed, a, b);
  }

  /**
   The pose of a fully animated bone, splayed and mirrored as it may be, moves with the curl no faster
   than the segments between its keyframes.
   */
  lemma PoseIsLipschitz(m: Model, bone: nat, speed: Component -> real, a: real, b: real,
                        splay: real, rightHand: bool, trig: Trigonometry)
    requires m.Valid() && bone < BONE_COUNT && FullyAnimated(m, bone) && |m.keyframeTimes| > 1 && Speeds(m, bone, speed)
    requires 0.0 <= a <= b && a != LastTime(m) && b != LastTime(m) && IsTrigonometry(trig)
    ensures var p, q := Posed(m, bone, a, splay, rightHand, trig), Posed(m, bone, b, splay, rightHand, trig);
      && p.orientation.Numbers? && p.position.Numbers? && q.orientation.Numbers? && q.position.Numbers?
      && Apart(p.orientation.value, q.orientation.value) <= TurnLimit(speed, a, b)
      && MovesWithin(p.position.value, q.position.value, speed, a, b)
  {
    hide OrientationAt, PositionAt, Posed, Finished, Speeds, FullyAnimated, Apart, TurnLimit, LastTime, MovesWithin, IsTrigonometry, MirroredPosition;
    RestMoves(m, bone, speed, a, b);
    PosedIs(m, bone, a, splay, rightHand, trig);
    PosedIs(m, bone, b, splay, rightHand, trig);
    FinishedApart(OrientationAt(m, bone, a).value, OrientationAt(m, bone, b).value, bone, splay, rightHand, trig);
    MirrorMovesWithin(PositionAt(m, bone, a).value, PositionAt(m, bone, b).value, bone, speed, a, b);
  }

  // ----- the skeleton -----

  /** Which bones belong to which finger, and which can be splayed, by their numbers in the skeleton. */
  lemma SkeletonLayout(bone: nat)
    ensures GetFingerFromBoneIndex(bone) == 0 <==> bone in {2, 3, 4, 26}
    ensures GetFingerFromBoneIndex(bone) == 1 <==> bone in {6, 7, 8, 9, 27}
    ensures GetFingerFromBoneIndex(bone) == 2 <==> bone in {11, 12, 13, 14, 28}
    ensures GetFingerFromBoneIndex(bone) == 3 <==> bone in {16, 17, 18, 19, 29}
    ensures GetFingerFromBoneIndex(bone) == 4 <==> bone in {21, 22, 23, 24, 30}
    ensures IsAuxBone(bone) <==> 26 <= bone <= 30
    ensures IsBoneSplayable(bone) <==> bone in {2, 7, 12, 17, 22}
  {}

  /** Other bones are not splayed, nor is any by a splay beyond 1 in either direction. */
  lemma NotSplayed(q: Quaternion, bone: nat, splay: real, trig: Trigonometry)
    requires bone !in {2, 7, 12, 17, 22} || splay < -1.0 || 1.0 < splay
    ensures Splayed(q, bone, splay, trig) == q
  {}

  /**
   A bone whose keyframe is empty rests: its rotation, whose elements are x, y, z and w in this order and
   are kept as w, x, y and z, and its translation are those of the model.
   */
  lemma EmptyKeyframeRests(m: Model, bone: nat, curl: real, splay: real, trig: Trigonometry)
    requires m.Valid() && curl >= 0.0 && bone < BONE_COUNT && bone !in {2, 7, 12, 17, 22}
    requires AnimationDataAt(m, bone, curl).startTransform == Transform(ZERO_QUATERNION, ZERO_VECTOR)
    ensures var b, rest := Posed(m, bone, curl, splay, true, trig), m.initialTransforms[bone];
      && b.position == Numbers(rest.translation) && b.orientation.Numbers?
      && var q := b.orientation.value;
      && q.x == rest.rotation.w && q.y == rest.rotation.x && q.z == rest.rotation.y && q.w == rest.rotation.z
  {
    hide AnimationDataAt;
  }

  // ----- fingers -----
  // ----- fingers -----

  lemma AverageOfAbsent(joints: seq<real>)
    requires |joints| == 4 && forall j :: 0 <= j < 4 ==> joints[j] == -1.0
    ensures Average(joints) == -1.0
  {}

  /** A finger whose four joints are absent keeps all its bones, the auxiliary one included. */
  lemma AbsentFingerStays(m: Model, bone: nat, flexion: seq<seq<real>>, splay: seq<real>, rightHand: bool, trig: Trigonometry,
                          before: Bone)
    requires m.Valid() && IsHand(flexion, splay) && bone < BONE_COUNT
    requires var f := GetFingerFromBoneIndex(bone); f != UNKNOWN ==> forall j :: 0 <= j < 4 ==> flexion[f][j] == -1.0
    ensures BoneComputed(m, bone, flexion, splay, rightHand, trig, before) == before
  {
    var f := GetFingerFromBoneIndex(bone);
    if f != UNKNOWN {
      if IsAuxBone(bone) {
        AverageOfAbsent(flexion[f]);
      } else {
        HasJoint(bone);
      }
      hide Posed, GetFingerFromBoneIndex, Average;
      assert CurlOf(bone, flexion) == -1.0;
    }
  }
}
