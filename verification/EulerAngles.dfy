/** Euler angles and quaternions: what EulerToQuaternion builds, and what QuaternionToEuler takes apart. */
module EulerAngles {
  import opened DriverMath
  import opened QuaternionAlgebra
  import opened TrackedOrientation

  // ----- turns around the axes -----

  function TurnX(a: HalfAngle): Quaternion { Quaternion(a.c, a.s, 0.0, 0.0) }
  function TurnY(a: HalfAngle): Quaternion { Quaternion(a.c, 0.0, a.s, 0.0) }
  function TurnZ(a: HalfAngle): Quaternion { Quaternion(a.c, 0.0, 0.0, a.s) }

  lemma YawTimesPitch(yaw: HalfAngle, pitch: HalfAngle)
    ensures Product(TurnZ(yaw), TurnY(pitch)) == Quaternion(yaw.c * pitch.c, -(yaw.s * pitch.s), yaw.c * pitch.s, yaw.s * pitch.c)
  {}

  lemma TimesRoll(q: Quaternion, roll: HalfAngle, w: real, x: real, y: real, z: real)
    requires w == q.w * roll.c - q.x * roll.s && x == q.w * roll.s + q.x * roll.c
    requires y == q.y * roll.c + q.z * roll.s && z == q.z * roll.c - q.y * roll.s
    ensures Product(q, TurnX(roll)) == Quaternion(w, x, y, z)
  {}

  /** Euler angles turn around x by the roll, then around y by the pitch, then around z by the yaw. */
  lemma EulerIsProduct(yaw: HalfAngle, pitch: HalfAngle, roll: HalfAngle)
    ensures EulerToQuaternion(yaw, pitch, roll) == Product(Product(TurnZ(yaw), TurnY(pitch)), TurnX(roll))
  {
    var q, e := Quaternion(yaw.c * pitch.c, -(yaw.s * pitch.s), yaw.c * pitch.s, yaw.s * pitch.c), EulerToQuaternion(yaw, pitch, roll);
    hide Product, TurnX;
    YawTimesPitch(yaw, pitch);
    TimesRoll(q, roll, e.w, e.x, e.y, e.z);
  }

  lemma EulerIsUnit(yaw: HalfAngle, pitch: HalfAngle, roll: HalfAngle)
    requires yaw.Valid() && pitch.Valid() && roll.Valid()
    ensures IsUnit(EulerToQuaternion(yaw, pitch, roll))
  {
    EulerIsProduct(yaw, pitch, roll);
    assert IsUnit(TurnX(roll)) && IsUnit(TurnY(pitch)) && IsUnit(TurnZ(yaw));
    hide EulerToQuaternion, Product;
    NormOfProduct(TurnZ(yaw), TurnY(pitch));
    NormOfProduct(Product(TurnZ(yaw), TurnY(pitch)), TurnX(roll));
  }

  // ----- the effect of a turn -----

  lemma AxesAroundX(a: HalfAngle)
    requires a.Valid()
    ensures Rotate(AXIS_X, TurnX(a)) == AXIS_X
    ensures Rotate(AXIS_Y, TurnX(a)) == Vector3(0.0, a.Cos(), a.Sin())
    ensures Rotate(AXIS_Z, TurnX(a)) == Vector3(0.0, -a.Sin(), a.Cos())
  {
    hide Rotate;
    TurnedX(TurnX(a));
    TurnedY(TurnX(a));
    TurnedZ(TurnX(a));
  }

  lemma AxesAroundY(a: HalfAngle)
    requires a.Valid()
    ensures Rotate(AXIS_X, TurnY(a)) == Vector3(a.Cos(), 0.0, -a.Sin())
    ensures Rotate(AXIS_Y, TurnY(a)) == AXIS_Y
    ensures Rotate(AXIS_Z, TurnY(a)) == Vector3(a.Sin(), 0.0, a.Cos())
  {
    hide Rotate;
    TurnedX(TurnY(a));
    TurnedY(TurnY(a));
    TurnedZ(TurnY(a));
  }

  lemma AxesAroundZ(a: HalfAngle)
    requires a.Valid()
    ensures Rotate(AXIS_X, TurnZ(a)) == Vector3(a.Cos(), a.Sin(), 0.0)
    ensures Rotate(AXIS_Y, TurnZ(a)) == Vector3(-a.Sin(), a.Cos(), 0.0)
    ensures Rotate(AXIS_Z, TurnZ(a)) == AXIS_Z
  {
    hide Rotate;
    TurnedX(TurnZ(a));
    TurnedY(TurnZ(a));
    TurnedZ(TurnZ(a));
  }

  lemma FromAxes(v: Vector3, q: Quaternion, i: Vector3, j: Vector3, k: Vector3)
    requires Rotate(AXIS_X, q) == i && Rotate(AXIS_Y, q) == j && Rotate(AXIS_Z, q) == k
    ensures Rotate(v, q) == Vector3(v.x * i.x + v.y * j.x + v.z * k.x, v.x * i.y + v.y * j.y + v.z * k.y, v.x * i.z + v.y * j.z + v.z * k.z)
  {
    hide Rotate;
    RotateByAxes(v, q);
  }

  /** The direction of the x axis after a pitch. */
  function Pitched(pitch: HalfAngle): Vector3 {
    Vector3(pitch.Cos(), 0.0, -pitch.Sin())
  }

  function PitchedAndYawed(yaw: HalfAngle, pitch: HalfAngle): Vector3 {
    Vector3(pitch.Cos() * yaw.Cos(), pitch.Cos() * yaw.Sin(), -pitch.Sin())
  }

  lemma YawOfPitched(yaw: HalfAngle, pitch: HalfAngle)
    requires yaw.Valid()
    ensures Rotate(Pitched(pitch), TurnZ(yaw)) == PitchedAndYawed(yaw, pitch)
  {
    hide Rotate, TurnZ, HalfAngle.Cos, HalfAngle.Sin;
    AxesAroundZ(yaw);
    FromAxes(Pitched(pitch), TurnZ(yaw), Vector3(yaw.Cos(), yaw.Sin(), 0.0), Vector3(-yaw.Sin(), yaw.Cos(), 0.0), AXIS_Z);
  }

  lemma PitchOfX(pitch: HalfAngle)
    requires pitch.Valid()
    ensures Rotate(AXIS_X, TurnY(pitch)) == Pitched(pitch)
  {
    AxesAroundY(pitch);
    hide Rotate;
  }

  lemma RollOfX(roll: HalfAngle)
    requires roll.Valid()
    ensures Rotate(AXIS_X, TurnX(roll)) == AXIS_X
  {
    AxesAroundX(roll);
    hide Rotate;
  }

  /** Where Euler angles turn the x axis. */
  lemma EulerTurnsX(yaw: HalfAngle, pitch: HalfAngle, roll: HalfAngle)
    requires yaw.Valid() && pitch.Valid() && roll.Valid()
    ensures Rotate(AXIS_X, EulerToQuaternion(yaw, pitch, roll)) == PitchedAndYawed(yaw, pitch)
  {
    hide *;
    EulerIsProduct(yaw, pitch, roll);
    RotateByProduct(AXIS_X, Product(TurnZ(yaw), TurnY(pitch)), TurnX(roll));
    RotateByProduct(AXIS_X, TurnZ(yaw), TurnY(pitch));
    RollOfX(roll);
    PitchOfX(pitch);
    YawOfPitched(yaw, pitch);
  }

  function Opposite(a: HalfAngle): HalfAngle {
    HalfAngle(a.c, -a.s)
  }

  lemma OppositeTurns(a: HalfAngle)
    requires a.Valid()
    ensures Opposite(a).Valid() && Opposite(a).Cos() == a.Cos() && Opposite(a).Sin() == -a.Sin()
    ensures Conjugate(TurnX(a)) == TurnX(Opposite(a)) && Conjugate(TurnY(a)) == TurnY(Opposite(a)) && Conjugate(TurnZ(a)) == TurnZ(Opposite(a))
  {}

  function BackPitched(pitch: HalfAngle): Vector3 {
    Vector3(-pitch.Sin(), 0.0, pitch.Cos())
  }

  function BackPitchedAndRolled(pitch: HalfAngle, roll: HalfAngle): Vector3 {
    Vector3(-pitch.Sin(), pitch.Cos() * roll.Sin(), pitch.Cos() * roll.Cos())
  }

  lemma RollOfBackPitched(pitch: HalfAngle, roll: HalfAngle)
    requires roll.Valid()
    ensures Rotate(BackPitched(pitch), TurnX(Opposite(roll))) == BackPitchedAndRolled(pitch, roll)
  {
    OppositeTurns(roll);
    hide Rotate, TurnX, HalfAngle.Cos, HalfAngle.Sin, Opposite;
    AxesAroundX(Opposite(roll));
    FromAxes(BackPitched(pitch), TurnX(Opposite(roll)), AXIS_X, Vector3(0.0, roll.Cos(), -roll.Sin()), Vector3(0.0, roll.Sin(), roll.Cos()));
  }

  lemma BackPitchOfZ(pitch: HalfAngle)
    requires pitch.Valid()
    ensures Rotate(AXIS_Z, TurnY(Opposite(pitch))) == BackPitched(pitch)
  {
    OppositeTurns(pitch);
    AxesAroundY(Opposite(pitch));
    hide Rotate, Opposite;
  }

  lemma BackYawOfZ(yaw: HalfAngle)
    requires yaw.Valid()
    ensures Rotate(AXIS_Z, TurnZ(Opposite(yaw))) == AXIS_Z
  {
    OppositeTurns(yaw);
    AxesAroundZ(Opposite(yaw));
    hide Rotate, Opposite;
  }

  /** Which direction Euler angles turn into the z axis. */
  lemma EulerTurnsIntoZ(yaw: HalfAngle, pitch: HalfAngle, roll: HalfAngle)
    requires yaw.Valid() && pitch.Valid() && roll.Valid()
    ensures Rotate(AXIS_Z, Conjugate(EulerToQuaternion(yaw, pitch, roll))) == BackPitchedAndRolled(pitch, roll)
  {
    hide *;
    var (x, y, z) := (TurnX(Opposite(roll)), TurnY(Opposite(pitch)), TurnZ(Opposite(yaw)));
    EulerIsProduct(yaw, pitch, roll);
    OppositeTurns(yaw);
    OppositeTurns(pitch);
    OppositeTurns(roll);
    ConjugateOfProduct(Product(TurnZ(yaw), TurnY(pitch)), TurnX(roll));
    ConjugateOfProduct(TurnZ(yaw), TurnY(pitch));
    RotateByProduct(AXIS_Z, x, Product(y, z));
    RotateByProduct(AXIS_Z, y, z);
    BackYawOfZ(yaw);
    BackPitchOfZ(pitch);
    RollOfBackPitched(pitch, roll);
  }

  /** For a unit quaternion, what QuaternionToEuler reads off is where the axes go. */
  lemma EulerArguments(q: Quaternion)
    requires IsUnit(q)
    ensures Rotate(AXIS_X, q) == Vector3(YawCosine(q), YawSine(q), -PitchSine(q))
    ensures Rotate(AXIS_Z, Conjugate(q)) == Vector3(-PitchSine(q), RollSine(q), RollCosine(q))
  {
    hide Rotate;
    TurnedX(q);
    TurnedZ(Conjugate(q));
  }

  /** QuaternionToEuler passes sines and cosines of the angles that EulerToQuaternion was given. */
  lemma EulerRoundTripArguments(yaw: HalfAngle, pitch: HalfAngle, roll: HalfAngle)
    requires yaw.Valid() && pitch.Valid() && roll.Valid()
    ensures var q := EulerToQuaternion(yaw, pitch, roll);
      && PitchSine(q) == pitch.Sin()
      && YawSine(q) == pitch.Cos() * yaw.Sin() && YawCosine(q) == pitch.Cos() * yaw.Cos()
      && RollSine(q) == pitch.Cos() * roll.Sin() && RollCosine(q) == pitch.Cos() * roll.Cos()
  {
    hide Rotate, EulerToQuaternion, RollSine, RollCosine, YawSine, YawCosine, PitchSine;
    hide HalfAngle.Cos, HalfAngle.Sin;
    EulerIsUnit(yaw, pitch, roll);
    EulerArguments(EulerToQuaternion(yaw, pitch, roll));
    EulerTurnsX(yaw, pitch, roll);
    EulerTurnsIntoZ(yaw, pitch, roll);
  }

  // ----- angles in degrees -----

  predicate Principal(degrees: real) {
    -180.0 < degrees <= 180.0
  }

  ghost predicate SameDirection(a: HalfAngle, b: HalfAngle) {
    a.Cos() == b.Cos() && a.Sin() == b.Sin()
  }

  /** The angle points toward (x, y), unless that is the origin. */
  ghost predicate Toward(a: HalfAngle, x: real, y: real) {
    x * a.Sin() == y * a.Cos() && x * a.Cos() + y * a.Sin() >= 0.0
  }

  /** What is used about cosine, sine, atan2 and asin. */
  ghost predicate IsTrigonometry(t: Trigonometry) {
    && (forall d :: t.half(d).Valid())
    && t.half(0.0) == HalfAngle(1.0, 0.0)
    && (forall d :: -90.0 < d < 90.0 ==> t.half(d).Cos() > 0.0)
    && t.half(90.0).Cos() == 0.0 && t.half(90.0).Sin() == 1.0
    && t.half(-90.0).Cos() == 0.0 && t.half(-90.0).Sin() == -1.0
    && (forall a, b :: Principal(a) && Principal(b) && SameDirection(t.half(a), t.half(b)) ==> a == b)
    && (forall y, x :: Principal(t.atan2(y, x)) && Toward(t.half(t.atan2(y, x)), x, y))
    && t.atan2(0.0, 0.0) == 0.0
    && (forall v :: -1.0 < v < 1.0 ==> -90.0 < t.asin(v) < 90.0 && t.half(t.asin(v)).Sin() == v)
  }

  lemma DirectionIsUnit(a: HalfAngle)
    requires a.Valid()
    ensures Square(a.Cos()) + Square(a.Sin()) == 1.0
  {
    var (cc, ss) := (a.c * a.c, a.s * a.s);
    assert a.Sin() * a.Sin() == 4.0 * (cc * ss);
    assert (cc - ss) * (cc - ss) + 4.0 * (cc * ss) == (cc + ss) * (cc + ss);
  }

  lemma SquareFacts(a: real)
    ensures Square(a) >= 0.0 && (Square(a) == 0.0 <==> a == 0.0)
    ensures Abs(a) >= 1.0 ==> Square(a) >= 1.0
    ensures Abs(a) > 1.0 ==> Square(a) > 1.0
  {
    SquareOfAbs(a);
    if Abs(a) > 1.0 {
      SquareIncreases(1.0, Abs(a));
    } else if Abs(a) > 0.0 {
      SquareIncreases(0.0, Abs(a));
    }
    hide Abs;
  }

  lemma SquareOfAbs(a: real)
    ensures Square(a) == Abs(a) * Abs(a) && (Abs(a) == 0.0 <==> a == 0.0) && Abs(a) >= 0.0
  {}

  lemma HalfIsValid(trig: Trigonometry, d: real)
    requires IsTrigonometry(trig)
    ensures trig.half(d).Valid()
  {
    hide HalfAngle.Cos, HalfAngle.Sin, Toward, HalfAngle.Valid;
  }

  /** Parallel unit vectors that do not point apart are equal. */
  lemma UnitDirections(c: real, s: real, c': real, s': real)
    requires Square(c) + Square(s) == 1.0 && Square(c') + Square(s') == 1.0
    requires c * s' == s * c' && c * c' + s * s' >= 0.0
    ensures c == c' && s == s'
  {
    var dot, cross := c * c' + s * s', c * s' - s * c';
    assert dot * dot + cross * cross == (c * c + s * s) * (c' * c' + s' * s');
    assert dot * dot == 1.0;
    assert dot == 1.0;
    assert (c - c') * (c - c') + (s - s') * (s - s') == 0.0;
  }

  lemma Unscale(k: real, x: real)
    requires k > 0.0
    ensures k * x == 0.0 ==> x == 0.0
    ensures k * x >= 0.0 ==> x >= 0.0
  {}

  /** An angle toward a positive multiple of a direction has that direction. */
  lemma TowardDirection(a: HalfAngle, c: real, s: real, k: real, x: real, y: real)
    requires a.Valid() && Square(c) + Square(s) == 1.0 && k > 0.0
    requires x == k * c && y == k * s && Toward(a, x, y)
    ensures a.Cos() == c && a.Sin() == s
  {
    DirectionIsUnit(a);
    var (c', s') := (a.Cos(), a.Sin());
    hide HalfAngle.Cos, HalfAngle.Sin, Square;
    var cross, dot := c * s' - s * c', c * c' + s * s';
    assert k * cross == k * c * s' - k * s * c' && k * dot == k * c * c' + k * s * s';
    Unscale(k, cross);
    Unscale(k, dot);
    UnitDirections(c, s, c', s');
  }

  /** atan2 reads an angle from any positive multiple of its direction. */
  lemma Atan2ReadsBack(trig: Trigonometry, d: real, k: real, y: real, x: real)
    requires IsTrigonometry(trig) && Principal(d) && k > 0.0
    requires y == k * trig.half(d).Sin() && x == k * trig.half(d).Cos()
    ensures trig.atan2(y, x) == d
  {
    hide HalfAngle.Cos, HalfAngle.Sin, Square, Toward, IsTrigonometry, HalfAngle.Valid;
    HalfIsValid(trig, d);
    DirectionIsUnit(trig.half(d));
    Atan2IsToward(trig, y, x);
    TowardDirection(trig.half(trig.atan2(y, x)), trig.half(d).Cos(), trig.half(d).Sin(), k, x, y);
    PrincipalIsUnique(trig, d, trig.atan2(y, x));
  }

  lemma Atan2IsToward(trig: Trigonometry, y: real, x: real)
    requires IsTrigonometry(trig)
    ensures var a := trig.atan2(y, x); Principal(a) && trig.half(a).Valid() && Toward(trig.half(a), x, y)
  {
    hide HalfAngle.Cos, HalfAngle.Sin, HalfAngle.Valid;
  }

  lemma PrincipalIsUnique(trig: Trigonometry, a: real, b: real)
    requires IsTrigonometry(trig) && Principal(a) && Principal(b)
    requires trig.half(a).Cos() == trig.half(b).Cos() && trig.half(a).Sin() == trig.half(b).Sin()
    ensures a == b
  {
    assert SameDirection(trig.half(a), trig.half(b));
    hide HalfAngle.Cos, HalfAngle.Sin, Toward;
  }

  lemma PitchReadsBack(trig: Trigonometry, d: real)
    requires IsTrigonometry(trig) && -90.0 < d < 90.0
    ensures var v := trig.half(d).Sin(); -1.0 < v < 1.0 && trig.asin(v) == d
  {
    var (c, s) := (trig.half(d).Cos(), trig.half(d).Sin());
    DirectionIsUnit(trig.half(d));
    SquareFacts(c);
    SquareFacts(s);
    InnerPitch(trig, d);
    hide HalfAngle.Cos, HalfAngle.Sin, Square, IsTrigonometry;
    AsinReads(trig, s);
    SameCosine(c, trig.half(trig.asin(s)).Cos(), s);
    PrincipalIsUnique(trig, d, trig.asin(s));
  }

  lemma InnerPitch(trig: Trigonometry, d: real)
    requires IsTrigonometry(trig) && -90.0 < d < 90.0
    ensures trig.half(d).Cos() > 0.0
  {
    hide HalfAngle.Cos, HalfAngle.Sin, Toward;
  }

  lemma AsinReads(trig: Trigonometry, v: real)
    requires IsTrigonometry(trig) && -1.0 < v < 1.0
    ensures var a := trig.asin(v);
      && -90.0 < a < 90.0 && trig.half(a).Sin() == v && trig.half(a).Cos() > 0.0
      && Square(trig.half(a).Cos()) + Square(v) == 1.0
  {
    DirectionIsUnit(trig.half(trig.asin(v)));
    hide HalfAngle.Cos, HalfAngle.Sin, Toward, Square;
  }

  lemma SameCosine(c: real, c': real, s: real)
    requires c > 0.0 && c' > 0.0 && Square(c) + Square(s) == 1.0 && Square(c') + Square(s) == 1.0
    ensures c == c'
  {
    SquaresEqual(c, c');
  }

  // ----- angles through a quaternion and back -----

  /** The angles that come back as they were: in range, and without yaw and roll when the pitch is a right angle. */
  predicate Canonical(yaw: real, pitch: real, roll: real) {
    && Principal(yaw) && Principal(roll) && -90.0 <= pitch <= 90.0
    && (Abs(pitch) == 90.0 ==> yaw == roll == 0.0)
  }

  function Built(trig: Trigonometry, yaw: real, pitch: real, roll: real): Quaternion {
    EulerToQuaternion(trig.half(yaw), trig.half(pitch), trig.half(roll))
  }

  lemma BuiltArguments(trig: Trigonometry, yaw: real, pitch: real, roll: real)
    requires IsTrigonometry(trig)
    ensures var q, k := Built(trig, yaw, pitch, roll), trig.half(pitch).Cos();
      && IsUnit(q) && PitchSine(q) == trig.half(pitch).Sin()
      && YawSine(q) == k * trig.half(yaw).Sin() && YawCosine(q) == k * trig.half(yaw).Cos()
      && RollSine(q) == k * trig.half(roll).Sin() && RollCosine(q) == k * trig.half(roll).Cos()
  {
    hide EulerToQuaternion, PitchSine, RollSine, RollCosine, YawSine, YawCosine, IsTrigonometry, IsUnit;
    hide HalfAngle.Cos, HalfAngle.Sin, HalfAngle.Valid;
    HalfIsValid(trig, yaw);
    HalfIsValid(trig, pitch);
    HalfIsValid(trig, roll);
    EulerIsUnit(trig.half(yaw), trig.half(pitch), trig.half(roll));
    EulerRoundTripArguments(trig.half(yaw), trig.half(pitch), trig.half(roll));
  }

  lemma PoleReadsBack(trig: Trigonometry, yaw: real, pitch: real, roll: real)
    requires IsTrigonometry(trig) && Abs(pitch) == 90.0
    ensures QuaternionToEuler(Built(trig, yaw, pitch, roll), trig) == Vector3(0.0, pitch, 0.0)
  {
    hide Built, PitchSine, RollSine, RollCosine, YawSine, YawCosine, HalfAngle.Cos, HalfAngle.Sin, IsTrigonometry;
    BuiltArguments(trig, yaw, pitch, roll);
    Poles(trig);
    Atan2OfZero(trig);
  }

  lemma NoAngle(trig: Trigonometry)
    requires IsTrigonometry(trig)
    ensures trig.half(0.0) == HalfAngle(1.0, 0.0)
  {
    hide HalfAngle.Cos, HalfAngle.Sin, HalfAngle.Valid, Toward;
  }

  lemma PitchAlone(a: HalfAngle)
    ensures EulerToQuaternion(HalfAngle(1.0, 0.0), a, HalfAngle(1.0, 0.0)) == TurnY(a)
  {}

  lemma Poles(trig: Trigonometry)
    requires IsTrigonometry(trig)
    ensures trig.half(90.0).Cos() == 0.0 && trig.half(90.0).Sin() == 1.0
    ensures trig.half(-90.0).Cos() == 0.0 && trig.half(-90.0).Sin() == -1.0
  {
    hide HalfAngle.Cos, HalfAngle.Sin, Toward;
  }

  lemma InnerReadsBack(trig: Trigonometry, yaw: real, pitch: real, roll: real)
    requires IsTrigonometry(trig) && Principal(yaw) && Principal(roll) && -90.0 < pitch < 90.0
    ensures QuaternionToEuler(Built(trig, yaw, pitch, roll), trig) == Vector3(yaw, pitch, roll)
  {
    hide Built, PitchSine, RollSine, RollCosine, YawSine, YawCosine, HalfAngle.Cos, HalfAngle.Sin, IsTrigonometry;
    BuiltArguments(trig, yaw, pitch, roll);
    InnerPitch(trig, pitch);
    PitchReadsBack(trig, pitch);
    var q := Built(trig, yaw, pitch, roll);
    Atan2ReadsBack(trig, yaw, trig.half(pitch).Cos(), YawSine(q), YawCosine(q));
    Atan2ReadsBack(trig, roll, trig.half(pitch).Cos(), RollSine(q), RollCosine(q));
  }

  lemma EulerLength(q: Quaternion)
    requires IsUnit(q)
    ensures Square(YawSine(q)) + Square(YawCosine(q)) == 1.0 - Square(PitchSine(q))
    ensures Square(RollSine(q)) + Square(RollCosine(q)) == 1.0 - Square(PitchSine(q))
  {
    hide Rotate, YawSine, YawCosine, PitchSine, RollSine, RollCosine;
    EulerArguments(q);
    NormOfConjugate(q);
    RotatedLength(AXIS_X, q);
    RotatedLength(AXIS_Z, Conjugate(q));
    LengthOf(YawCosine(q), YawSine(q), PitchSine(q));
    LengthOf(RollCosine(q), RollSine(q), PitchSine(q));
  }

  lemma LengthOf(c: real, s: real, p: real)
    ensures NormSquared(Pure(Vector3(c, s, -p))) == Square(c) + Square(s) + Square(p)
    ensures NormSquared(Pure(Vector3(-p, s, c))) == Square(c) + Square(s) + Square(p)
  {}

  lemma RotatedLength(v: Vector3, q: Quaternion)
    requires IsUnit(q)
    ensures NormSquared(Pure(Rotate(v, q))) == NormSquared(Pure(v))
  {
    NormOfConjugate(q);
    hide Rotate, Product, NormSquared, Pure, Conjugate;
    RotateIsSandwich(v, q);
    NormOfProduct(Product(q, Pure(v)), Conjugate(q));
    NormOfProduct(q, Pure(v));
    assert 1.0 * NormSquared(Pure(v)) * 1.0 == NormSquared(Pure(v));
  }

  /** At a pitch of one right angle, nothing is left to read a yaw or a roll from. */
  lemma PoleHasNoYaw(q: Quaternion)
    requires IsUnit(q)
    ensures -1.0 <= PitchSine(q) <= 1.0
    ensures Abs(PitchSine(q)) >= 1.0 ==> YawSine(q) == YawCosine(q) == RollSine(q) == RollCosine(q) == 0.0
  {
    hide YawSine, YawCosine, PitchSine, RollSine, RollCosine, Square, IsUnit;
    EulerLength(q);
    SquareFacts(PitchSine(q));
    SquareFacts(YawSine(q));
    SquareFacts(YawCosine(q));
    SquareFacts(RollSine(q));
    SquareFacts(RollCosine(q));
  }

  lemma AnglesInRange(q: Quaternion, trig: Trigonometry)
    requires IsUnit(q) && IsTrigonometry(trig)
    ensures var e := QuaternionToEuler(q, trig); Canonical(e.x, e.y, e.z)
  {
    hide YawSine, YawCosine, PitchSine, RollSine, RollCosine, IsTrigonometry, Toward, IsUnit, Square;
    hide HalfAngle.Cos, HalfAngle.Sin, HalfAngle.Valid;
    PoleHasNoYaw(q);
    Atan2IsToward(trig, YawSine(q), YawCosine(q));
    Atan2IsToward(trig, RollSine(q), RollCosine(q));
    Atan2OfZero(trig);
    if Abs(PitchSine(q)) < 1.0 {
      AsinReads(trig, PitchSine(q));
    }
  }

  lemma Atan2OfZero(trig: Trigonometry)
    requires IsTrigonometry(trig)
    ensures trig.atan2(0.0, 0.0) == 0.0
  {}

  /** Angles survive the way through a quaternion exactly if they are canonical. */
  lemma AnglesReadBackIff(trig: Trigonometry, yaw: real, pitch: real, roll: real)
    requires IsTrigonometry(trig)
    ensures IsUnit(Built(trig, yaw, pitch, roll))
    ensures QuaternionToEuler(Built(trig, yaw, pitch, roll), trig) == Vector3(yaw, pitch, roll) <==> Canonical(yaw, pitch, roll)
  {
    hide IsTrigonometry, Built, QuaternionToEuler, IsUnit;
    BuiltArguments(trig, yaw, pitch, roll);
    AnglesInRange(Built(trig, yaw, pitch, roll), trig);
    if Canonical(yaw, pitch, roll) {
      if Abs(pitch) == 90.0 {
        PoleReadsBack(trig, yaw, pitch, roll);
      } else {
        InnerReadsBack(trig, yaw, pitch, roll);
      }
    }
  }
}
