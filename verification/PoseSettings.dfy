/** The pose settings of device_configuration.cpp: an offset is stored as a position and three angles in degrees. */
module PoseSettings {
  import opened DriverMath
  import opened QuaternionAlgebra
  import opened TrackedOrientation
  import opened EulerAngles
  import opened PoseCalibration
  import opened DevicePose
  import opened CalibrationTheorems
  import opened CalibrationRuns

  datatype Axis = X | Y | Z
  datatype Quantity = Position | Degrees

  /** The key "right_x_offset_position" is Key(true, X, Position). */
  datatype Key = Key(isRightHand: bool, axis: Axis, quantity: Quantity)

  type Values = map<Key, real>

  /** The store has a value for every key; defaults see to that. */
  ghost predicate HasAllKeys(values: Values) {
    forall k: Key :: k in values
  }

  function PositionIn(values: Values, right: bool): Vector3
    requires HasAllKeys(values)
  {
    Vector3(values[Key(right, X, Position)], values[Key(right, Y, Position)], values[Key(right, Z, Position)])
  }

  /** x, y and z degrees. */
  function DegreesIn(values: Values, right: bool): Vector3
    requires HasAllKeys(values)
  {
    Vector3(values[Key(right, X, Degrees)], values[Key(right, Y, Degrees)], values[Key(right, Z, Degrees)])
  }

  /** The yaw is the angle of the z axis, the pitch that of y, and the roll that of x. */
  function Loaded(values: Values, right: bool, trig: Trigonometry): PoseConfiguration
    requires HasAllKeys(values)
  {
    var d := DegreesIn(values, right);
    PoseConfiguration(Built(trig, d.z, d.y, d.x), PositionIn(values, right))
  }

  function Saved(values: Values, configuration: PoseConfiguration, right: bool, trig: Trigonometry): (r: Values)
    requires HasAllKeys(values)
    ensures HasAllKeys(r)
  {
    var (p, e) := (configuration.offsetPosition, QuaternionToEuler(configuration.offsetOrientation, trig));
    values
      [Key(right, X, Position) := p.x][Key(right, Y, Position) := p.y][Key(right, Z, Position) := p.z]
      [Key(right, X, Degrees) := e.z][Key(right, Y, Degrees) := e.y][Key(right, Z, Degrees) := e.x]
  }

  class Settings {
    var values: Values

    method GetPoseConfiguration(isRightHand: bool, trig: Trigonometry) returns (result: PoseConfiguration)
      requires HasAllKeys(values)
      ensures result == Loaded(values, isRightHand, trig)
    {
      var position := Vector3(
        values[Key(isRightHand, X, Position)],
        values[Key(isRightHand, Y, Position)],
        values[Key(isRightHand, Z, Position)]);
      var orientation := EulerToQuaternion(
        trig.half(values[Key(isRightHand, Z, Degrees)]),
        trig.half(values[Key(isRightHand, Y, Degrees)]),
        trig.half(values[Key(isRightHand, X, Degrees)]));
      result := PoseConfiguration(orientation, position);
    }

    method SetPoseConfiguration(configuration: PoseConfiguration, isRightHand: bool, trig: Trigonometry)
      requires HasAllKeys(values)
      modifies this
      ensures HasAllKeys(values)
      ensures values == Saved(old(values), configuration, isRightHand, trig)
    {
      values := values[Key(isRightHand, X, Position) := configuration.offsetPosition.x];
      values := values[Key(isRightHand, Y, Position) := configuration.offsetPosition.y];
      values := values[Key(isRightHand, Z, Position) := configuration.offsetPosition.z];
      var eulerOffset := QuaternionToEuler(configuration.offsetOrientation, trig);
      values := values[Key(isRightHand, X, Degrees) := eulerOffset.z];
      values := values[Key(isRightHand, Y, Degrees) := eulerOffset.y];
      values := values[Key(isRightHand, Z, Degrees) := eulerOffset.x];
    }
  }

  // ----- saving what was loaded -----

  lemma SavedIsIn(values: Values, configuration: PoseConfiguration, right: bool, trig: Trigonometry)
    requires HasAllKeys(values)
    ensures var r, e := Saved(values, configuration, right, trig), QuaternionToEuler(configuration.offsetOrientation, trig);
      && PositionIn(r, right) == configuration.offsetPosition
      && DegreesIn(r, right) == Vector3(e.z, e.y, e.x)
      && PositionIn(r, !right) == PositionIn(values, !right) && DegreesIn(r, !right) == DegreesIn(values, !right)
  {
    hide QuaternionToEuler;
  }

  lemma SameValues(a: Values, b: Values, right: bool)
    requires HasAllKeys(a) && HasAllKeys(b)
    requires PositionIn(a, true) == PositionIn(b, true) && DegreesIn(a, true) == DegreesIn(b, true)
    requires PositionIn(a, false) == PositionIn(b, false) && DegreesIn(a, false) == DegreesIn(b, false)
    ensures a == b
  {
    forall k: Key ensures a[k] == b[k] {
      var right := k.isRightHand;
      var (p, d) := (PositionIn(a, right), DegreesIn(a, right));
      assert p == PositionIn(b, right) && d == DegreesIn(b, right);
      match k
      case Key(_, X, Position) => assert a[k] == p.x == b[k];
      case Key(_, Y, Position) => assert a[k] == p.y == b[k];
      case Key(_, Z, Position) => assert a[k] == p.z == b[k];
      case Key(_, X, Degrees) => assert a[k] == d.x == b[k];
      case Key(_, Y, Degrees) => assert a[k] == d.y == b[k];
      case Key(_, Z, Degrees) => assert a[k] == d.z == b[k];
    }
  }

  /** Saving a configuration just loaded leaves every setting as it was exactly if its angles are canonical. */
  lemma SaveOfLoadIff(values: Values, right: bool, trig: Trigonometry)
    requires HasAllKeys(values) && IsTrigonometry(trig)
    ensures var d := DegreesIn(values, right);
      Saved(values, Loaded(values, right, trig), right, trig) == values <==> Canonical(d.z, d.y, d.x)
  {
    var d := DegreesIn(values, right);
    var c := Loaded(values, right, trig);
    var r := Saved(values, c, right, trig);
    AnglesReadBackIff(trig, d.z, d.y, d.x);
    SavedIsIn(values, c, right, trig);
    hide Saved, QuaternionToEuler, Built, IsTrigonometry;
    if Canonical(d.z, d.y, d.x) {
      SameValues(r, values, right);
    }
  }

  /** Each hand has its own six settings: loading reads no other ones, and saving leaves the other hand's. */
  lemma OwnSettings(a: Values, b: Values, configuration: PoseConfiguration, right: bool, trig: Trigonometry)
    requires HasAllKeys(a) && HasAllKeys(b)
    ensures (forall k: Key :: k.isRightHand == right ==> a[k] == b[k]) ==> Loaded(a, right, trig) == Loaded(b, right, trig)
    ensures Loaded(a, right, trig).offsetPosition ==
      Vector3(a[Key(right, X, Position)], a[Key(right, Y, Position)], a[Key(right, Z, Position)])
    ensures forall k: Key :: k.isRightHand != right ==> Saved(a, configuration, right, trig)[k] == a[k]
  {
    hide EulerToQuaternion, QuaternionToEuler;
  }

  // ----- loading what was saved -----

  lemma YawAndRollAreRead(q: Quaternion, trig: Trigonometry)
    requires IsUnit(q) && IsTrigonometry(trig) && Abs(PitchSine(q)) < 1.0
    ensures var e := QuaternionToEuler(q, trig);
      && PitchSine(q) == trig.half(e.y).Sin() && trig.half(e.y).Cos() > 0.0
      && YawCosine(q) == trig.half(e.y).Cos() * trig.half(e.x).Cos() && YawSine(q) == trig.half(e.y).Cos() * trig.half(e.x).Sin()
      && RollCosine(q) == trig.half(e.y).Cos() * trig.half(e.z).Cos() && RollSine(q) == trig.half(e.y).Cos() * trig.half(e.z).Sin()
  {
    hide YawSine, YawCosine, PitchSine, RollSine, RollCosine, IsTrigonometry, Toward, IsUnit, Square;
    hide HalfAngle.Cos, HalfAngle.Sin, HalfAngle.Valid;
    var e := QuaternionToEuler(q, trig);
    EulerLength(q);
    AsinReads(trig, PitchSine(q));
    Atan2IsToward(trig, YawSine(q), YawCosine(q));
    Atan2IsToward(trig, RollSine(q), RollCosine(q));
    TowardLength(trig.half(e.x), YawCosine(q), YawSine(q), trig.half(e.y).Cos());
    TowardLength(trig.half(e.z), RollCosine(q), RollSine(q), trig.half(e.y).Cos());
  }

  /** A vector is its length times the direction of an angle toward it. */
  lemma TowardLength(a: HalfAngle, x: real, y: real, length: real)
    requires a.Valid() && Toward(a, x, y) && length > 0.0 && Square(x) + Square(y) == Square(length)
    ensures x == length * a.Cos() && y == length * a.Sin()
  {
    DirectionIsUnit(a);
    var (c, s) := (a.Cos(), a.Sin());
    hide HalfAngle.Cos, HalfAngle.Sin;
    var k := x * c + y * s;
    ParallelTo(c, s, x, y, k);
    assert k * k == Square(length) by {
      SumOfMultiples(c, s, x, y, k);
    }
    SquaresEqual(k, length);
  }

  lemma ParallelTo(c: real, s: real, x: real, y: real, k: real)
    requires Square(c) + Square(s) == 1.0 && x * s == y * c && k == x * c + y * s
    ensures x == k * c && y == k * s
  {
    assert k * c == x * (c * c) + (y * c) * s;
    assert (y * c) * s == (x * s) * s;
    assert x * (c * c) + (x * s) * s == x * (c * c + s * s);
    assert k * s == (x * s) * c + y * (s * s);
    assert (x * s) * c == (y * c) * c;
    assert (y * c) * c + y * (s * s) == y * (c * c + s * s);
  }

  lemma SumOfMultiples(c: real, s: real, x: real, y: real, k: real)
    requires Square(c) + Square(s) == 1.0 && x == k * c && y == k * s
    ensures Square(x) + Square(y) == k * k
  {
    assert x * x + y * y == (k * k) * (c * c + s * s);
  }

  lemma SameTurnOfX(q: Quaternion, trig: Trigonometry)
    requires IsUnit(q) && IsTrigonometry(trig) && Abs(PitchSine(q)) < 1.0
    ensures var e := QuaternionToEuler(q, trig);
      Rotate(AXIS_X, Built(trig, e.x, e.y, e.z)) == Rotate(AXIS_X, q)
  {
    var e := QuaternionToEuler(q, trig);
    hide Rotate, YawSine, YawCosine, PitchSine, RollSine, RollCosine, IsTrigonometry, IsUnit, HalfAngle.Cos, HalfAngle.Sin, HalfAngle.Valid;
    hide EulerToQuaternion, QuaternionToEuler;
    HalfIsValid(trig, e.x);
    HalfIsValid(trig, e.y);
    HalfIsValid(trig, e.z);
    EulerTurnsX(trig.half(e.x), trig.half(e.y), trig.half(e.z));
    EulerArguments(q);
    YawAndRollAreRead(q, trig);
  }

  /** A unit quaternion that leaves the x axis alone turns around it. */
  lemma TurnsAroundX(r: Quaternion)
    requires IsUnit(r) && Rotate(AXIS_X, r) == AXIS_X
    ensures r == TurnX(HalfAngle(r.w, r.x)) && HalfAngle(r.w, r.x).Valid()
  {
    TurnedX(r);
    hide Rotate;
    assert r.y * r.y + r.z * r.z == 0.0;
    assert r.y == 0.0 && r.z == 0.0;
  }

  function AddedTo(a: HalfAngle, b: HalfAngle): HalfAngle {
    HalfAngle(a.c * b.c - a.s * b.s, a.c * b.s + a.s * b.c)
  }

  lemma TurnsAdd(a: HalfAngle, b: HalfAngle)
    requires a.Valid() && b.Valid()
    ensures Product(TurnX(a), TurnX(b)) == TurnX(AddedTo(a, b)) && AddedTo(a, b).Valid()
  {
    NormOfProduct(TurnX(a), TurnX(b));
  }

  /** Two unit quaternions that turn the x axis alike differ by a roll. */
  lemma DifferByRoll(yaw: HalfAngle, pitch: HalfAngle, roll: HalfAngle, q: Quaternion) returns (a: HalfAngle)
    requires yaw.Valid() && pitch.Valid() && roll.Valid() && IsUnit(q)
    requires Rotate(AXIS_X, EulerToQuaternion(yaw, pitch, roll)) == Rotate(AXIS_X, q)
    ensures a.Valid() && q == EulerToQuaternion(yaw, pitch, a)
  {
    var p := EulerToQuaternion(yaw, pitch, roll);
    var r := Product(Conjugate(p), q);
    hide *;
    EulerIsUnit(yaw, pitch, roll);
    UnitDifference(p, q);
    RotateByProduct(AXIS_X, Conjugate(p), q);
    UnitThereAndBack(AXIS_X, p);
    TurnsAroundX(r);
    var d := HalfAngle(r.w, r.x);
    a := AddedTo(roll, d);
    TurnsAdd(roll, d);
    EulerIsProduct(yaw, pitch, roll);
    EulerIsProduct(yaw, pitch, a);
    Associative(Product(TurnZ(yaw), TurnY(pitch)), TurnX(roll), TurnX(d));
  }

  lemma UnitDifference(p: Quaternion, q: Quaternion)
    requires IsUnit(p) && IsUnit(q)
    ensures IsUnit(Product(Conjugate(p), q)) && Product(p, Product(Conjugate(p), q)) == q
  {
    hide Product;
    NormOfConjugate(p);
    NormOfProduct(Conjugate(p), q);
    CancelConjugate(p, q);
    assert Scale(1.0, q) == q;
  }

  lemma UnitThereAndBack(v: Vector3, p: Quaternion)
    requires IsUnit(p)
    ensures Rotate(Rotate(v, p), Conjugate(p)) == v
  {
    hide Rotate;
    RotateThereAndBack(v, p);
    assert Square(NormSquared(p)) == 1.0;
  }

  lemma SameHalves(a: HalfAngle, b: HalfAngle)
    requires a.Valid() && b.Valid() && SameDirection(a, b)
    ensures a == b || (a.c == -b.c && a.s == -b.s)
  {
    assert a.c * a.c == b.c * b.c && a.s * a.s == b.s * b.s;
    SameUpToSign(a.c, b.c);
    SameUpToSign(a.s, b.s);
  }

  lemma SameUpToSign(x: real, y: real)
    requires x * x == y * y
    ensures x == y || x == -y
  {
    assert (x - y) * (x + y) == 0.0;
  }

  /** What a unit quaternion is reloaded as after saving: the same rotation, if its pitch is not a right angle. */
  lemma InnerReload(q: Quaternion, trig: Trigonometry)
    requires IsUnit(q) && IsTrigonometry(trig) && Abs(PitchSine(q)) < 1.0
    ensures var e := QuaternionToEuler(q, trig); SameRotation(Built(trig, e.x, e.y, e.z), q)
  {
    var e := QuaternionToEuler(q, trig);
    var (yaw, pitch, roll) := (trig.half(e.x), trig.half(e.y), trig.half(e.z));
    hide Rotate, YawSine, YawCosine, PitchSine, RollSine, RollCosine, IsTrigonometry, IsUnit, HalfAngle.Cos, HalfAngle.Sin, HalfAngle.Valid;
    hide EulerToQuaternion, QuaternionToEuler;
    HalfIsValid(trig, e.x);
    HalfIsValid(trig, e.y);
    HalfIsValid(trig, e.z);
    SameTurnOfX(q, trig);
    var a := DifferByRoll(yaw, pitch, roll, q);
    YawAndRollAreRead(q, trig);
    EulerRoundTripArguments(yaw, pitch, a);
    FactorCancels(pitch.Cos(), a.Cos(), roll.Cos());
    FactorCancels(pitch.Cos(), a.Sin(), roll.Sin());
    SameHalves(a, roll);
    EulerOfNegated(yaw, pitch, roll);
    assert a == roll || a == HalfAngle(-roll.c, -roll.s);
  }

  lemma EulerOfNegated(yaw: HalfAngle, pitch: HalfAngle, roll: HalfAngle)
    ensures EulerToQuaternion(yaw, pitch, HalfAngle(-roll.c, -roll.s)) == Negate(EulerToQuaternion(yaw, pitch, roll))
  {}

  /** At a right angle of pitch only the rotation without yaw and roll is kept. */
  function PoleRotation(q: Quaternion, trig: Trigonometry): Quaternion {
    Built(trig, 0.0, CopySign(90.0, PitchSine(q)), 0.0)
  }

  /** At a right angle of pitch, two components of a unit quaternion are those of the other two, up to sign. */
  lemma PoleComponents(q: Quaternion, s: real)
    requires IsUnit(q) && PitchSine(q) == s && (s == 1.0 || s == -1.0)
    ensures q.y == s * q.w && q.z == -s * q.x
    ensures Square(q.w) + Square(q.x) == 0.5
  {
    var (a, b) := (q.y - s * q.w, q.z + s * q.x);
    assert Square(a) + Square(b) == NormSquared(q) - s * PitchSine(q);
    SquareFacts(a);
    SquareFacts(b);
    PoleNorm(q, s);
  }

  lemma PoleNorm(q: Quaternion, s: real)
    requires IsUnit(q) && (s == 1.0 || s == -1.0)
    ensures q.y == s * q.w && q.z == -s * q.x ==> Square(q.w) + Square(q.x) == 0.5
  {}

  lemma PitchOfPole(q: Quaternion, trig: Trigonometry, s: real)
    requires IsTrigonometry(trig) && PitchSine(q) == s && (s == 1.0 || s == -1.0)
    ensures IsUnit(PoleRotation(q, trig)) && PitchSine(PoleRotation(q, trig)) == s && PoleRotation(q, trig).x == 0.0
  {
    var d := CopySign(90.0, s);
    assert d == 90.0 * s;
    hide EulerToQuaternion, PitchSine, IsTrigonometry, IsUnit, HalfAngle.Cos, HalfAngle.Sin;
    BuiltArguments(trig, 0.0, d, 0.0);
    Poles(trig);
    BuiltFromPitch(trig, d);
  }

  lemma BuiltFromPitch(trig: Trigonometry, d: real)
    requires IsTrigonometry(trig)
    ensures Built(trig, 0.0, d, 0.0) == TurnY(trig.half(d))
  {
    hide EulerToQuaternion, TurnY, IsTrigonometry;
    NoAngle(trig);
    PitchAlone(trig.half(d));
  }

  /** At a pole the rotation that is kept is the one that was there exactly if that has no x component. */
  lemma PoleIsKeptIff(q: Quaternion, trig: Trigonometry, s: real)
    requires IsUnit(q) && IsTrigonometry(trig) && PitchSine(q) == s && (s == 1.0 || s == -1.0)
    ensures SameRotation(PoleRotation(q, trig), q) <==> q.x == 0.0
  {
    var p := PoleRotation(q, trig);
    hide PoleRotation, PitchSine, NormSquared, IsUnit, IsTrigonometry, Square;
    PitchOfPole(q, trig, s);
    PoleComponents(q, s);
    PoleComponents(p, s);
    if q.x == 0.0 {
      SquareOfZero();
      SameWhole(p.w, q.w);
    }
  }

  lemma SquareOfZero()
    ensures Square(0.0) == 0.0
  {}

  lemma SameWhole(x: real, y: real)
    requires Square(x) == Square(y)
    ensures x == y || x == -y
  {
    SameUpToSign(x, y);
  }

  lemma SameRotationNorm(p: Quaternion, q: Quaternion)
    ensures SameRotation(p, q) ==> NormSquared(p) == NormSquared(q)
  {}

  /** The rotations that are stored: unit quaternions whose pitch is not a right angle, or that have no x component. */
  ghost predicate Storable(q: Quaternion) {
    IsUnit(q) && (Abs(PitchSine(q)) < 1.0 || q.x == 0.0)
  }

  /** Loading what was saved gives a unit quaternion and the same position, and the same rotation exactly if that can be stored. */
  lemma LoadOfSaveIff(values: Values, configuration: PoseConfiguration, right: bool, trig: Trigonometry)
    requires HasAllKeys(values) && IsTrigonometry(trig)
    ensures var q, r := configuration.offsetOrientation, Loaded(Saved(values, configuration, right, trig), right, trig);
      && r.offsetPosition == configuration.offsetPosition && IsUnit(r.offsetOrientation)
      && (SameRotation(r.offsetOrientation, q) <==> Storable(q))
  {
    var q := configuration.offsetOrientation;
    var e := QuaternionToEuler(q, trig);
    hide PitchSine, YawSine, YawCosine, RollSine, RollCosine, IsTrigonometry, NormSquared, EulerToQuaternion, SameRotation, Saved;
    SavedIsIn(values, configuration, right, trig);
    BuiltArguments(trig, e.x, e.y, e.z);
    SameRotationNorm(Built(trig, e.x, e.y, e.z), q);
    if IsUnit(q) {
      if Abs(PitchSine(q)) < 1.0 {
        InnerReload(q, trig);
      } else {
        PoleHasNoYaw(q);
        Atan2OfZero(trig);
        PoleIsKeptIff(q, trig, PitchSine(q));
      }
    }
  }

  /** A stored calibration survives a restart: the reloaded offset shows the hand where the saved one did, under the same condition. */
  lemma ReloadedOffsetShowsSameHandIff(values: Values, o: PoseConfiguration, right: bool, trig: Trigonometry, c: TrackedDevicePose)
    requires HasAllKeys(values) && IsTrigonometry(trig)
    ensures var saved, reloaded := OffsetPose(o, c), OffsetPose(Loaded(Saved(values, o, right, trig), right, trig), c);
      && reloaded.vecPosition == saved.vecPosition
      && (SameRotation(reloaded.qRotation, saved.qRotation) <==> Storable(o.offsetOrientation))
  {
    var r := Loaded(Saved(values, o, right, trig), right, trig);
    OrientationIsUnitIff(c.matrix, c.roots);
    hide Loaded, Saved, Storable, IsTrigonometry, IsUnit, Product, Rotate, MatrixToOrientation, NormSquared, SameRotation;
    LoadOfSaveIff(values, o, right, trig);
    TurnShowsRotation(Orientation(c), r.offsetOrientation, o.offsetOrientation);
  }

  /** A stored pitch of 180 degrees does not survive loading and saving. */
  lemma SteepPitchIsRewritten(values: Values, right: bool, trig: Trigonometry)
    requires HasAllKeys(values) && IsTrigonometry(trig)
    requires DegreesIn(values, right) == Vector3(0.0, 180.0, 0.0)
    ensures Saved(values, Loaded(values, right, trig), right, trig) != values
  {
    hide IsTrigonometry, Saved, Loaded;
    SaveOfLoadIff(values, right, trig);
  }

  // ----- rotations that are not stored -----

  /** At a pitch of a right angle, a rotation with an x component. */
  lemma PoleIsNotStorable()
    ensures var q := Quaternion(0.5, 0.5, 0.5, -0.5); IsUnit(q) && PitchSine(q) == 1.0 && !Storable(q)
  {}

  lemma YawOfZero()
    ensures YawSine(ZERO_QUATERNION) == 0.0 && YawCosine(ZERO_QUATERNION) == 1.0
  {}

  lemma PitchOfZero()
    ensures PitchSine(ZERO_QUATERNION) == 0.0
  {}

  lemma RollOfZero()
    ensures RollSine(ZERO_QUATERNION) == 0.0 && RollCosine(ZERO_QUATERNION) == 1.0
  {}

  /** The zero quaternion is read as no angles. */
  lemma AnglesOfZero(trig: Trigonometry)
    requires IsTrigonometry(trig)
    ensures QuaternionToEuler(ZERO_QUATERNION, trig) == ZERO_VECTOR
  {
    hide YawSine, YawCosine, PitchSine, RollSine, RollCosine, IsTrigonometry;
    YawOfZero();
    PitchOfZero();
    RollOfZero();
    ZeroAngles(trig);
  }

  /** The zero quaternion that a calibration without tracking leaves is reloaded as the identity. */
  lemma UntrackedOffsetIsNotReloaded(values: Values, s: PoseState, caller: CalibrationMethod, c: TrackedDevicePose, d: TrackedDevicePose,
                                     right: bool, trig: Trigonometry)
    requires HasAllKeys(values) && IsTrigonometry(trig)
    requires !s.calibration.isCalibrating && !Tracked(s, c)
    ensures var o := Complete(Start(s, caller, c), caller, d).configuration;
      var r := Loaded(Saved(values, o, right, trig), right, trig);
      && o.offsetOrientation == ZERO_QUATERNION && r.offsetOrientation == Quaternion(1.0, 0.0, 0.0, 0.0)
      && !SameRotation(r.offsetOrientation, o.offsetOrientation)
  {
    assert s.controllerId < 1 || !c.isValid;
    hide *;
    UntrackedStartLosesOrientation(s, caller, c, d);
    ReloadOfZero(values, Complete(Start(s, caller, c), caller, d).configuration, right, trig);
    NoTurnIsNotZero();
  }

  lemma ReloadOfZero(values: Values, o: PoseConfiguration, right: bool, trig: Trigonometry)
    requires HasAllKeys(values) && IsTrigonometry(trig) && o.offsetOrientation == ZERO_QUATERNION
    ensures Loaded(Saved(values, o, right, trig), right, trig).offsetOrientation == Quaternion(1.0, 0.0, 0.0, 0.0)
  {
    hide Saved, QuaternionToEuler, IsTrigonometry, EulerToQuaternion;
    AnglesOfZero(trig);
    SavedIsIn(values, o, right, trig);
    NoAngle(trig);
    NoTurn();
  }

  lemma NoTurnIsNotZero()
    ensures !SameRotation(Quaternion(1.0, 0.0, 0.0, 0.0), ZERO_QUATERNION)
  {}

  lemma NoTurn()
    ensures EulerToQuaternion(HalfAngle(1.0, 0.0), HalfAngle(1.0, 0.0), HalfAngle(1.0, 0.0)) == Quaternion(1.0, 0.0, 0.0, 0.0)
  {
    PitchAlone(HalfAngle(1.0, 0.0));
    hide EulerToQuaternion;
  }

  lemma ZeroAngles(trig: Trigonometry)
    requires IsTrigonometry(trig)
    ensures trig.atan2(0.0, 1.0) == 0.0 && trig.asin(0.0) == 0.0 && trig.half(0.0) == HalfAngle(1.0, 0.0)
  {
    var (a, b) := (trig.atan2(0.0, 1.0), trig.asin(0.0));
    NoAngle(trig);
    ZeroIsPrincipal();
    ForwardAtan2(trig);
    LevelAsin(trig);
    hide IsTrigonometry, HalfAngle.Cos, HalfAngle.Sin;
    ZeroDirection(trig, a);
    ZeroDirection(trig, b);
  }

  lemma ForwardAtan2(trig: Trigonometry)
    requires IsTrigonometry(trig)
    ensures var a := trig.atan2(0.0, 1.0); Principal(a) && trig.half(a).Sin() == 0.0 && trig.half(a).Cos() >= 0.0
  {
    var a := trig.atan2(0.0, 1.0);
    var (c, s) := (trig.half(a).Cos(), trig.half(a).Sin());
    hide HalfAngle.Cos, HalfAngle.Sin, HalfAngle.Valid;
    assert Toward(trig.half(a), 1.0, 0.0);
    assert 1.0 * s == s && 0.0 * c == 0.0 && 1.0 * c == c && 0.0 * s == 0.0;
  }

  lemma LevelAsin(trig: Trigonometry)
    requires IsTrigonometry(trig)
    ensures var b := trig.asin(0.0); Principal(b) && trig.half(b).Sin() == 0.0 && trig.half(b).Cos() >= 0.0
  {
    hide HalfAngle.Cos, HalfAngle.Sin, HalfAngle.Valid, Toward;
  }

  lemma ZeroDirection(trig: Trigonometry, d: real)
    requires IsTrigonometry(trig) && Principal(d) && trig.half(d).Sin() == 0.0 && trig.half(d).Cos() >= 0.0
    ensures d == 0.0
  {
    hide *;
    NoAngle(trig);
    NoDirection();
    HalfIsValid(trig, d);
    ZeroIsPrincipal();
    ForwardDirection(trig.half(d));
    PrincipalIsUnique(trig, d, 0.0);
  }

  lemma ZeroIsPrincipal()
    ensures Principal(0.0)
  {}

  lemma ForwardDirection(a: HalfAngle)
    requires a.Valid() && a.Sin() == 0.0 && a.Cos() >= 0.0
    ensures a.Cos() == 1.0
  {
    DirectionIsUnit(a);
    SquareOfZero();
    hide HalfAngle.Cos, HalfAngle.Sin, HalfAngle.Valid;
    RootOfOne(a.Cos());
  }

  lemma RootOfOne(k: real)
    requires Square(k) == 1.0 && k >= 0.0
    ensures k == 1.0
  {
    SquaresEqual(k, 1.0);
  }

  lemma NoDirection()
    ensures HalfAngle(1.0, 0.0).Cos() == 1.0 && HalfAngle(1.0, 0.0).Sin() == 0.0
  {}
}
