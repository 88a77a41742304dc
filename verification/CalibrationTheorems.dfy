/**
 Single-step theorems on calibration: the hand does not jump when a calibration completes, and
 an offset hand moves rigidly with its controller.
 */
module CalibrationTheorems {
  import opened DriverMath
  import opened QuaternionAlgebra
  import opened TrackedOrientation
  import opened PoseCalibration
  import opened DevicePose

  // ----- no jump when a calibration completes -----

  lemma ScaleOne(k: real, q: Quaternion)
    ensures Scale(k, q) == q <==> k == 1.0 || q == ZERO_QUATERNION
  {
    if k != 1.0 && Scale(k, q) == q {
      FixedByScaling(k, q.w);
      FixedByScaling(k, q.x);
      FixedByScaling(k, q.y);
      FixedByScaling(k, q.z);
    }
  }

  lemma FixedByScaling(k: real, a: real)
    requires k != 1.0 && k * a == a
    ensures a == 0.0
  {
    assert (k - 1.0) * a == 0.0;
  }

  lemma ScaleVectorOne(k: real, v: Vector3)
    ensures ScaleVector(k, v) == v <==> k == 1.0 || v == ZERO_VECTOR
  {
    ScaleOne(k, Pure(v));
  }

  /** What the completed offset shows at the very pose it was computed for, whatever the norm of the controller. */
  lemma OffsetPoseAfterCompletion(frozen: DriverPose, c: TrackedDevicePose)
    ensures var pose := OffsetPose(Offsets(frozen, c), c);
      var n := NormSquared(Orientation(c));
      && pose.qRotation == Scale(n, frozen.qRotation)
      && pose.vecPosition == Add(Position(c), ScaleVector(Square(n), Subtract(frozen.vecPosition, Position(c))))
  {
    hide Product, Rotate, NormSquared, Scale, ScaleVector, Conjugate, Orientation, Position, Add, Subtract, Square;
    CancelConjugate(Orientation(c), frozen.qRotation);
    RotateThereAndBack(Subtract(frozen.vecPosition, Position(c)), Orientation(c));
  }

  lemma AddScaled(p: Vector3, k: real, f: Vector3)
    ensures Add(p, ScaleVector(k, Subtract(f, p))) == f <==> k == 1.0 || f == p
  {
    ScaleVectorOne(k, Subtract(f, p));
    var d := ScaleVector(k, Subtract(f, p));
    assert Add(p, d) == f <==> d == Subtract(f, p);
    assert Subtract(f, p) == ZERO_VECTOR <==> f == p;
  }

  lemma SquareIsOne(n: real)
    requires n >= 1.0
    ensures Square(n) == 1.0 <==> n == 1.0
  {
    if n > 1.0 {
      SquareIncreases(1.0, n);
    }
  }

  /** The runtime has a pose of the hand's controller. */
  predicate Tracked(s: PoseState, c: TrackedDevicePose) {
    s.controllerId >= 1 && c.isValid
  }

  /** The hand is shown where it was frozen. */
  predicate ShownAt(pose: DriverPose, frozen: DriverPose) {
    pose.qRotation == frozen.qRotation && pose.vecPosition == frozen.vecPosition
  }

  predicate WithoutRotation(pose: DriverPose, at: Vector3) {
    pose.qRotation == ZERO_QUATERNION && pose.vecPosition == at
  }

  /**
   When the owning method completes (running or not), the calibration stops and the hand is
   shown exactly where it was frozen, at the controller pose of completion, if and only if the
   controller is tracked and its matrix has no negative radicand - but for a frozen pose without
   rotation that is where the controller is or, without tracking, where a lost hand is shown.
   */
  lemma CompletionShowsFrozenPose(s: PoseState, caller: CalibrationMethod, c: TrackedDevicePose)
    requires s.calibration.owner == caller
    ensures var frozen := s.calibration.maintainPose;
      && !Complete(s, caller, c).calibration.isCalibrating
      && (ShownAt(Reported(Complete(s, caller, c), c), frozen)
          <==> ((Tracked(s, c) && RadicandsNonNegative(c.matrix)) || WithoutRotation(frozen, if Tracked(s, c) then Position(c) else ZERO_VECTOR)))
  {
    var frozen := s.calibration.maintainPose;
    if Tracked(s, c) {
      var n := NormSquared(Orientation(c));
      assert Reported(Complete(s, caller, c), c) == OffsetPose(Offsets(frozen, c), c);
      OffsetPoseAfterCompletion(frozen, c);
      OrientationIsUnitIff(c.matrix, c.roots);
      hide Product, Rotate, Scale, ScaleVector, Conjugate, Position, Add, Subtract;
      hide RadicandsNonNegative, Offsets, OffsetPose, MatrixToOrientation, NormSquared, Square;
      ScaleOne(n, frozen.qRotation);
      AddScaled(Position(c), Square(n), frozen.vecPosition);
      SquareIsOne(n);
    }
  }

  // ----- rigid motion -----

  /** The matrix of a rotation by q is read back as q or -q. */
  ghost predicate ReadBack(q: Quaternion) {
    IsUnit(q) && (q.w != 0.0 || OneSigned(q))
  }

  lemma SameRotationIsEquivalence(p: Quaternion, q: Quaternion, r: Quaternion)
    ensures SameRotation(p, q) ==> SameRotation(q, p)
    ensures SameRotation(p, q) && SameRotation(q, r) ==> SameRotation(p, r)
  {
    assert Negate(Negate(p)) == p && Negate(Negate(q)) == q && Negate(Negate(r)) == r;
  }

  lemma MovedPosition(t: Vector3, v: Vector3, g: Quaternion, q: Quaternion, u: Vector3)
    ensures Add(Add(Rotate(t, g), u), Rotate(v, Product(g, q))) == Add(Rotate(Add(t, Rotate(v, q)), g), u)
  {
    hide Rotate, Product;
    RotateByProduct(v, g, q);
    RotateOfSum(t, Rotate(v, q), g);
  }

  lemma ScaleInjective(k: real, p: Quaternion, q: Quaternion)
    requires k != 0.0 && Scale(k, p) == Scale(k, q)
    ensures p == q
  {
    FactorCancels(k, p.w, q.w);
    FactorCancels(k, p.x, q.x);
    FactorCancels(k, p.y, q.y);
    FactorCancels(k, p.z, q.z);
  }

  lemma FactorCancels(k: real, a: real, b: real)
    requires k != 0.0 && k * a == k * b
    ensures a == b
  {
    assert k * (a - b) == 0.0;
  }

  lemma ProductCancels(p: Quaternion, q: Quaternion, o: Quaternion)
    requires NormSquared(o) != 0.0 && Product(p, o) == Product(q, o)
    ensures p == q
  {
    hide *;
    CancelConjugateRight(p, o);
    CancelConjugateRight(q, o);
    ScaleInjective(NormSquared(o), p, q);
  }

  /** An offset that is not zero does not hide which rotation the controller has. */
  lemma OffsetShowsRotation(p: Quaternion, q: Quaternion, o: Quaternion)
    requires NormSquared(o) != 0.0
    ensures SameRotation(Product(p, o), Product(q, o)) <==> SameRotation(p, q)
  {
    hide Product, NormSquared;
    ProductOfNegated(q, o);
    if Product(p, o) == Product(q, o) {
      ProductCancels(p, q, o);
    } else if Product(p, o) == Negate(Product(q, o)) {
      ProductCancels(p, Negate(q), o);
    }
  }

  lemma SameRotationLeft(p: Quaternion, q: Quaternion, r: Quaternion)
    requires SameRotation(q, r)
    ensures SameRotation(p, q) <==> SameRotation(p, r)
  {
    SameRotationIsEquivalence(p, q, r);
    SameRotationIsEquivalence(p, r, q);
    SameRotationIsEquivalence(q, r, q);
  }

  /** A turn does not hide which rotation it is applied to. */
  lemma TurnShowsRotation(c: Quaternion, p: Quaternion, q: Quaternion)
    requires NormSquared(c) != 0.0
    ensures SameRotation(Product(c, p), Product(c, q)) <==> SameRotation(p, q)
  {
    hide Product, NormSquared;
    ProductOfNegated(c, q);
    if Product(c, p) == Product(c, q) {
      ProductCancelsLeft(c, p, q);
    } else if Product(c, p) == Negate(Product(c, q)) {
      ProductCancelsLeft(c, p, Negate(q));
    }
  }

  lemma ProductCancelsLeft(c: Quaternion, p: Quaternion, q: Quaternion)
    requires NormSquared(c) != 0.0 && Product(c, p) == Product(c, q)
    ensures p == q
  {
    hide *;
    CancelConjugate(c, p);
    CancelConjugate(c, q);
    ScaleInjective(NormSquared(c), p, q);
  }

  /** What is read after a turn g is the turned reading, if both rotations or if neither is misread; one misreading shows. */
  lemma ReadingsTurnIff(g: Quaternion, q: Quaternion)
    requires IsUnit(g) && IsUnit(q)
    ensures var r := Product(g, q);
      ReadBack(q) || ReadBack(r) ==>
        (SameRotation(AsRead(r), Product(g, AsRead(q))) <==> ReadBack(q) && ReadBack(r))
  {
    var r := Product(g, q);
    TurnedIsUnit(g, q);
    ReadBackIff(q);
    ReadBackIff(r);
    hide Product, AsRead, ReadBack, SameRotation, NormSquared;
    var a, b := AsRead(q), AsRead(r);
    TurnShowsRotation(g, a, q);
    if ReadBack(r) {
      SameRotationIsEquivalence(b, r, b);
      SameRotationIsEquivalence(b, Product(g, a), b);
      SameRotationLeft(Product(g, a), b, r);
      SameRotationIsEquivalence(Product(g, a), b, r);
    } else if ReadBack(q) {
      SameRotationLeft(b, Product(g, a), r);
    }
  }

  lemma ReadBackIff(q: Quaternion)
    requires IsUnit(q)
    ensures SameRotation(AsRead(q), q) <==> ReadBack(q)
  {
    hide NormSquared;
  }

  lemma OffsetPoseIs(o: PoseConfiguration, c: TrackedDevicePose, q: Quaternion, t: Vector3)
    requires IsUnit(q) && c.matrix == RigidMatrix(q, t)
    ensures OffsetPose(o, c).qRotation == Product(AsRead(q), o.offsetOrientation)
    ensures OffsetPose(o, c).vecPosition == Add(t, Rotate(o.offsetPosition, AsRead(q)))
  {
    OrientationOfRotation(q, t, c.roots);
    OrientationRecoversRotationIff(q, t, c.roots);
    hide Product, Rotate, AsRead, RigidMatrix, MatrixToOrientation, Add, IsUnit, OneSigned, SameRotation;
  }

  /**
   Moving the controller by a rigid motion (turn g, then shift u) moves the reported hand by the same
   motion, whatever its offset, if the controller's readings turn by g, and with a non-zero offset
   only then. If one of the two readings is right, that means that both are: neither rotation is a half
   turn about a mixed-sign axis.
   */
  lemma HandMovesWithController(s: PoseState, c: TrackedDevicePose, moved: TrackedDevicePose,
                                q: Quaternion, t: Vector3, g: Quaternion, u: Vector3)
    requires !s.calibration.isCalibrating && s.controllerId >= 1
    requires c.isValid && c.matrix == RigidMatrix(q, t) && IsUnit(q)
    requires moved.isValid && moved.matrix == Compose(RigidMatrix(g, u), c.matrix) && IsUnit(g)
    ensures var before, after, r := Reported(s, c), Reported(s, moved), Product(g, q);
      var turns := SameRotation(AsRead(r), Product(g, AsRead(q)));
      && (turns ==> after.vecPosition == Add(Rotate(before.vecPosition, g), u) && SameRotation(after.qRotation, Product(g, before.qRotation)))
      && (NormSquared(s.configuration.offsetOrientation) != 0.0 ==> (SameRotation(after.qRotation, Product(g, before.qRotation)) <==> turns))
      && (ReadBack(q) || ReadBack(r) ==> (turns <==> ReadBack(q) && ReadBack(r)))
  {
    var o, r := s.configuration, Product(g, q);
    assert Reported(s, c) == OffsetPose(o, c) && Reported(s, moved) == OffsetPose(o, moved);
    hide *;
    TurnedIsUnit(g, q);
    ComposeRigid(g, u, q, t);
    OffsetPoseIs(o, c, q, t);
    OffsetPoseIs(o, moved, r, Add(Rotate(t, g), u));
    ReadingsTurnIff(g, q);
    HandTurnsIff(g, AsRead(q), AsRead(r), o.offsetOrientation);
    if SameRotation(AsRead(r), Product(g, AsRead(q))) {
      SameRotationRotates(o.offsetPosition, AsRead(r), Product(g, AsRead(q)));
      MovedPosition(t, o.offsetPosition, g, AsRead(q), u);
    }
  }

  /** The hand turns by g if the controller does, and with an offset only then. */
  lemma HandTurnsIff(g: Quaternion, a: Quaternion, b: Quaternion, o: Quaternion)
    ensures SameRotation(b, Product(g, a)) ==> SameRotation(Product(b, o), Product(g, Product(a, o)))
    ensures NormSquared(o) != 0.0 ==> (SameRotation(Product(b, o), Product(g, Product(a, o))) <==> SameRotation(b, Product(g, a)))
  {
    hide Product, NormSquared;
    Associative(g, a, o);
    ProductOfNegated(Product(g, a), o);
    if NormSquared(o) != 0.0 {
      OffsetShowsRotation(b, Product(g, a), o);
    }
  }

  lemma SameRotationRotates(v: Vector3, p: Quaternion, q: Quaternion)
    requires SameRotation(p, q)
    ensures Rotate(v, p) == Rotate(v, q)
  {
    RotateByNegated(v, q);
    hide Rotate;
  }

  lemma TurnedIsUnit(g: Quaternion, q: Quaternion)
    requires IsUnit(g) && IsUnit(q)
    ensures IsUnit(Product(g, q))
  {
    hide Product;
    NormOfProduct(g, q);
  }
}
