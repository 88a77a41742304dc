/**
 What MatrixToOrientation makes of a tracked 3x4 matrix: when its result is a unit quaternion,
 and when it is the rotation that the matrix describes.
 */
module TrackedOrientation {
  import opened DriverMath
  import opened QuaternionAlgebra

  // ----- unit norm -----

  ghost predicate RadicandsNonNegative(m: Matrix34) {
    RadicandW(m) >= 0.0 && RadicandX(m) >= 0.0 && RadicandY(m) >= 0.0 && RadicandZ(m) >= 0.0
  }

  lemma CopySignSquared(a: real, s: real)
    ensures CopySign(a, s) * CopySign(a, s) == a * a
  {}

  lemma HalfSquared(r: real, a: real)
    requires r * r == a
    ensures (r / 2.0) * (r / 2.0) == a / 4.0
  {}

  lemma OrientationNorm(m: Matrix34, r: Roots)
    requires IsRootsOf(r, m)
    ensures NormSquared(MatrixToOrientation(m, r))
         == (AtLeastZero(RadicandW(m)) + AtLeastZero(RadicandX(m)) + AtLeastZero(RadicandY(m)) + AtLeastZero(RadicandZ(m))) / 4.0
  {
    hide CopySign, AtLeastZero;
    CopySignSquared(r.x / 2.0, m.m21 - m.m12);
    CopySignSquared(r.y / 2.0, m.m02 - m.m20);
    CopySignSquared(r.z / 2.0, m.m10 - m.m01);
    HalfSquared(r.w, AtLeastZero(RadicandW(m)));
    HalfSquared(r.x, AtLeastZero(RadicandX(m)));
    HalfSquared(r.y, AtLeastZero(RadicandY(m)));
    HalfSquared(r.z, AtLeastZero(RadicandZ(m)));
  }

  /** The clamp in the source is harmless exactly when it never clamps. */
  lemma OrientationIsUnitIff(m: Matrix34, r: Roots)
    requires IsRootsOf(r, m)
    ensures IsUnit(MatrixToOrientation(m, r)) <==> RadicandsNonNegative(m)
    ensures NormSquared(MatrixToOrientation(m, r)) >= 1.0
  {
    OrientationNorm(m, r);
    hide CopySign, MatrixToOrientation, IsRootsOf;
  }

  // ----- matrices of rotations -----

  /** The matrix of a rigid motion: its columns are the axes turned by q, and the translation t. */
  function RigidMatrix(q: Quaternion, t: Vector3): Matrix34 {
    var x, y, z := Rotate(AXIS_X, q), Rotate(AXIS_Y, q), Rotate(AXIS_Z, q);
    Matrix34(
      x.x, y.x, z.x, t.x,
      x.y, y.y, z.y, t.y,
      x.z, y.z, z.z, t.z)
  }

  function Column(m: Matrix34, j: nat): Vector3
    requires j < 4
  {
    if j == 0 then Vector3(m.m00, m.m10, m.m20)
    else if j == 1 then Vector3(m.m01, m.m11, m.m21)
    else if j == 2 then Vector3(m.m02, m.m12, m.m22)
    else Vector3(m.m03, m.m13, m.m23)
  }

  /** The matrix of "first m, then n", for 3x4 matrices of affine maps. */
  function Compose(n: Matrix34, m: Matrix34): Matrix34 {
    var x, y, z := Linear(n, Column(m, 0)), Linear(n, Column(m, 1)), Linear(n, Column(m, 2));
    var t := Add(Linear(n, Column(m, 3)), Column(n, 3));
    Matrix34(
      x.x, y.x, z.x, t.x,
      x.y, y.y, z.y, t.y,
      x.z, y.z, z.z, t.z)
  }

  /** Applies the linear part of a matrix to a vector. */
  function Linear(m: Matrix34, v: Vector3): Vector3 {
    Vector3(
      m.m00 * v.x + m.m01 * v.y + m.m02 * v.z,
      m.m10 * v.x + m.m11 * v.y + m.m12 * v.z,
      m.m20 * v.x + m.m21 * v.y + m.m22 * v.z)
  }

  /** The code's rotation of a vector is multiplication by the rotation matrix. */
  lemma RotateIsLinear(v: Vector3, q: Quaternion, t: Vector3)
    ensures Linear(RigidMatrix(q, t), v) == Rotate(v, q)
  {
    hide Rotate;
    RotateByAxes(v, q);
  }

  /** Rigid motions compose as their quaternions multiply. */
  lemma ComposeRigid(g: Quaternion, s: Vector3, q: Quaternion, t: Vector3)
    ensures Compose(RigidMatrix(g, s), RigidMatrix(q, t)) == RigidMatrix(Product(g, q), Add(Rotate(t, g), s))
  {
    hide Rotate, Linear, Product;
    RotateIsLinear(Rotate(AXIS_X, q), g, s);
    RotateIsLinear(Rotate(AXIS_Y, q), g, s);
    RotateIsLinear(Rotate(AXIS_Z, q), g, s);
    RotateIsLinear(t, g, s);
    RotateByProduct(AXIS_X, g, q);
    RotateByProduct(AXIS_Y, g, q);
    RotateByProduct(AXIS_Z, g, q);
  }

  // ----- from the matrix back to the quaternion -----

  lemma RootOfSquare(r: real, a: real)
    requires IsRootOf(r, 4.0 * (a * a))
    ensures r / 2.0 == Abs(a)
  {
    var h := r / 2.0;
    assert r == 2.0 * h;
    assert h >= 0.0;
    SquaresEqual(h, Abs(a));
  }

  lemma SquaresEqual(h: real, k: real)
    requires h >= 0.0 && k >= 0.0 && h * h == k * k
    ensures h == k
  {
    if h < k {
      SquareIncreases(h, k);
    } else if k < h {
      SquareIncreases(k, h);
    }
  }

  lemma SquareIncreases(h: real, k: real)
    requires 0.0 <= h < k
    ensures h * h < k * k
  {
    var d := k - h;
    assert d * (h + k) > 0.0;
    assert k * k == h * h + d * (h + k);
  }

  lemma TurnedX(q: Quaternion)
    ensures Rotate(AXIS_X, q) ==
      Vector3(q.w * q.w + q.x * q.x - q.y * q.y - q.z * q.z, 2.0 * (q.x * q.y) + 2.0 * (q.w * q.z), 2.0 * (q.x * q.z) - 2.0 * (q.w * q.y))
  {}

  lemma TurnedY(q: Quaternion)
    ensures Rotate(AXIS_Y, q) ==
      Vector3(2.0 * (q.x * q.y) - 2.0 * (q.w * q.z), q.w * q.w - q.x * q.x + q.y * q.y - q.z * q.z, 2.0 * (q.y * q.z) + 2.0 * (q.w * q.x))
  {}

  lemma TurnedZ(q: Quaternion)
    ensures Rotate(AXIS_Z, q) ==
      Vector3(2.0 * (q.x * q.z) + 2.0 * (q.w * q.y), 2.0 * (q.y * q.z) - 2.0 * (q.w * q.x), q.w * q.w - q.x * q.x - q.y * q.y + q.z * q.z)
  {}

  lemma RadicandsOfRotation(q: Quaternion, t: Vector3)
    requires IsUnit(q)
    ensures RadicandW(RigidMatrix(q, t)) == 4.0 * (q.w * q.w)
    ensures RadicandX(RigidMatrix(q, t)) == 4.0 * (q.x * q.x)
    ensures RadicandY(RigidMatrix(q, t)) == 4.0 * (q.y * q.y)
    ensures RadicandZ(RigidMatrix(q, t)) == 4.0 * (q.z * q.z)
    ensures RadicandsNonNegative(RigidMatrix(q, t))
  {
    hide Rotate;
    TurnedX(q);
    TurnedY(q);
    TurnedZ(q);
  }

  lemma ComponentUpToSign(a: real, w: real, r: real, s: real)
    requires r == Abs(a) && s == 4.0 * (w * a)
    ensures CopySign(r, s) == if w > 0.0 then a else if w < 0.0 then -a else Abs(a)
  {
    if w > 0.0 {
      assert a > 0.0 ==> w * a > 0.0;
      assert a < 0.0 ==> w * a < 0.0;
    } else if w < 0.0 {
      assert a > 0.0 ==> w * a < 0.0;
      assert a < 0.0 ==> w * a > 0.0;
    }
  }

  lemma SignedParts(q: Quaternion, t: Vector3)
    ensures var m := RigidMatrix(q, t);
      && m.m21 - m.m12 == 4.0 * (q.w * q.x)
      && m.m02 - m.m20 == 4.0 * (q.w * q.y)
      && m.m10 - m.m01 == 4.0 * (q.w * q.z)
  {
    hide Rotate;
    TurnedX(q);
    TurnedY(q);
    TurnedZ(q);
  }

  lemma RootsOfRotation(q: Quaternion, t: Vector3, r: Roots)
    requires IsUnit(q)
    requires IsRootsOf(r, RigidMatrix(q, t))
    ensures r.w / 2.0 == Abs(q.w) && r.x / 2.0 == Abs(q.x) && r.y / 2.0 == Abs(q.y) && r.z / 2.0 == Abs(q.z)
  {
    hide RigidMatrix, RadicandW, RadicandX, RadicandY, RadicandZ, IsUnit, Abs;
    RadicandsOfRotation(q, t);
    RootOfSquare(r.w, q.w);
    RootOfSquare(r.x, q.x);
    RootOfSquare(r.y, q.y);
    RootOfSquare(r.z, q.z);
  }

  /** A rotation with its real part made non-negative, and at a half turn without its signs. */
  function AsRead(q: Quaternion): Quaternion {
    if q.w > 0.0 then q
    else if q.w < 0.0 then Negate(q)
    else Quaternion(0.0, Abs(q.x), Abs(q.y), Abs(q.z))
  }

  /** What the code reads from the matrix of a rotation. */
  lemma OrientationOfRotation(q: Quaternion, t: Vector3, r: Roots)
    requires IsUnit(q)
    requires IsRootsOf(r, RigidMatrix(q, t))
    ensures MatrixToOrientation(RigidMatrix(q, t), r) == AsRead(q)
  {
    hide RigidMatrix, IsRootsOf, CopySign, IsUnit;
    var m := RigidMatrix(q, t);
    RootsOfRotation(q, t, r);
    SignedParts(q, t);
    ComponentUpToSign(q.x, q.w, r.x / 2.0, m.m21 - m.m12);
    ComponentUpToSign(q.y, q.w, r.y / 2.0, m.m02 - m.m20);
    ComponentUpToSign(q.z, q.w, r.z / 2.0, m.m10 - m.m01);
  }

  /** All of x, y and z have the same sign, so losing the signs of a half turn loses nothing. */
  ghost predicate OneSigned(q: Quaternion) {
    (q.x >= 0.0 && q.y >= 0.0 && q.z >= 0.0) || (q.x <= 0.0 && q.y <= 0.0 && q.z <= 0.0)
  }

  /** The matrix of a rotation is read back as that rotation, except at half turns about mixed-sign axes. */
  lemma OrientationRecoversRotationIff(q: Quaternion, t: Vector3, r: Roots)
    requires IsUnit(q)
    requires IsRootsOf(r, RigidMatrix(q, t))
    ensures IsUnit(MatrixToOrientation(RigidMatrix(q, t), r))
    ensures MatrixToPosition(RigidMatrix(q, t)) == t
    ensures SameRotation(MatrixToOrientation(RigidMatrix(q, t), r), q) <==> q.w != 0.0 || OneSigned(q)
  {
    OrientationOfRotation(q, t, r);
    RadicandsOfRotation(q, t);
    OrientationIsUnitIff(RigidMatrix(q, t), r);
    hide MatrixToOrientation, IsRootsOf, IsUnit, RadicandsNonNegative;
  }
  /** A half turn about a mixed-sign axis: the code reads the mirrored axis. */
  lemma HalfTurnIsMisread(t: Vector3, r: Roots)
    requires IsRootsOf(r, RigidMatrix(Quaternion(0.0, 0.6, -0.8, 0.0), t))
    ensures var q := Quaternion(0.0, 0.6, -0.8, 0.0);
      && IsUnit(q) && MatrixToOrientation(RigidMatrix(q, t), r) == Quaternion(0.0, 0.6, 0.8, 0.0)
      && !SameRotation(MatrixToOrientation(RigidMatrix(q, t), r), q)
  {
    hide *;
    MirroredAxis();
    OrientationOfRotation(Quaternion(0.0, 0.6, -0.8, 0.0), t, r);
  }

  lemma MirroredAxis()
    ensures var q := Quaternion(0.0, 0.6, -0.8, 0.0);
      IsUnit(q) && AsRead(q) == Quaternion(0.0, 0.6, 0.8, 0.0) && !SameRotation(AsRead(q), q)
  {}
}
