/**
 The rotation arithmetic of driver_math.cpp, over the reals instead of float and double.

 std::sqrt is not computable here: MatrixToOrientation receives the four square roots
 (Roots) and IsRootsOf says that they are the ones sqrt returns. The trigonometric calls
 receive a HalfAngle, the cosine and sine of half the angle.
 */
module DriverMath {

  datatype Quaternion = Quaternion(w: real, x: real, y: real, z: real)

  datatype Vector3 = Vector3(x: real, y: real, z: real)

  /** A 3x4 matrix, row by row: a linear part and a translation column. */
  datatype Matrix34 = Matrix34(
    m00: real, m01: real, m02: real, m03: real,
    m10: real, m11: real, m12: real, m13: real,
    m20: real, m21: real, m22: real, m23: real)

  const ZERO_QUATERNION := Quaternion(0.0, 0.0, 0.0, 0.0)
  const ZERO_VECTOR := Vector3(0.0, 0.0, 0.0)

  // ----- operators -----

  /** The unary minus of the source: the conjugate, not the negation. */
  function Conjugate(q: Quaternion): Quaternion {
    Quaternion(q.w, -q.x, -q.y, -q.z)
  }

  function Product(q1: Quaternion, q2: Quaternion): Quaternion {
    Quaternion(
      -q1.x * q2.x - q1.y * q2.y - q1.z * q2.z + q1.w * q2.w,
      q1.x * q2.w + q1.y * q2.z - q1.z * q2.y + q1.w * q2.x,
      -q1.x * q2.z + q1.y * q2.w + q1.z * q2.x + q1.w * q2.y,
      q1.x * q2.y - q1.y * q2.x + q1.z * q2.w + q1.w * q2.z)
  }

  function Add(a: Vector3, b: Vector3): Vector3 {
    Vector3(a.x + b.x, a.y + b.y, a.z + b.z)
  }

  function Subtract(a: Vector3, b: Vector3): Vector3 {
    Vector3(a.x - b.x, a.y - b.y, a.z - b.z)
  }

  /** A vector as a quaternion without real part. */
  function Pure(v: Vector3): Quaternion {
    Quaternion(0.0, v.x, v.y, v.z)
  }

  function ImaginaryPart(q: Quaternion): Vector3 {
    Vector3(q.x, q.y, q.z)
  }

  /** The product of a vector and a quaternion: v turned by q. */
  function Rotate(v: Vector3, q: Quaternion): Vector3 {
    ImaginaryPart(Product(Product(q, Pure(v)), Conjugate(q)))
  }

  // ----- norm and scaling -----

  function NormSquared(q: Quaternion): real {
    q.w * q.w + q.x * q.x + q.y * q.y + q.z * q.z
  }

  ghost predicate IsUnit(q: Quaternion) {
    NormSquared(q) == 1.0
  }

  function Scale(k: real, q: Quaternion): Quaternion {
    Quaternion(k * q.w, k * q.x, k * q.y, k * q.z)
  }

  function ScaleVector(k: real, v: Vector3): Vector3 {
    Vector3(k * v.x, k * v.y, k * v.z)
  }

  function Negate(q: Quaternion): Quaternion {
    Quaternion(-q.w, -q.x, -q.y, -q.z)
  }

  /** q and -q are the same rotation. */
  ghost predicate SameRotation(p: Quaternion, q: Quaternion) {
    p == q || p == Negate(q)
  }

  // ----- tracked matrices -----

  /** The square roots taken for w, x, y and z. */
  datatype Roots = Roots(w: real, x: real, y: real, z: real)

  function AtLeastZero(a: real): real {
    if a < 0.0 then 0.0 else a
  }

  function Abs(a: real): real {
    if a < 0.0 then -a else a
  }

  /** copysign over the reals, where zero counts as positive. */
  function CopySign(magnitude: real, sign: real): real {
    if sign < 0.0 then -Abs(magnitude) else Abs(magnitude)
  }

  function RadicandW(m: Matrix34): real { 1.0 + m.m00 + m.m11 + m.m22 }
  function RadicandX(m: Matrix34): real { 1.0 + m.m00 - m.m11 - m.m22 }
  function RadicandY(m: Matrix34): real { 1.0 - m.m00 + m.m11 - m.m22 }
  function RadicandZ(m: Matrix34): real { 1.0 - m.m00 - m.m11 + m.m22 }

  ghost predicate IsRootOf(r: real, a: real) {
    r >= 0.0 && r * r == a
  }

  ghost predicate IsRootsOf(r: Roots, m: Matrix34) {
    && IsRootOf(r.w, AtLeastZero(RadicandW(m)))
    && IsRootOf(r.x, AtLeastZero(RadicandX(m)))
    && IsRootOf(r.y, AtLeastZero(RadicandY(m)))
    && IsRootOf(r.z, AtLeastZero(RadicandZ(m)))
  }

  function MatrixToPosition(m: Matrix34): Vector3 {
    Vector3(m.m03, m.m13, m.m23)
  }

  function MatrixToOrientation(m: Matrix34, r: Roots): Quaternion {
    Quaternion(
      r.w / 2.0,
      CopySign(r.x / 2.0, m.m21 - m.m12),
      CopySign(r.y / 2.0, m.m02 - m.m20),
      CopySign(r.z / 2.0, m.m10 - m.m01))
  }

  // ----- Euler angles -----

  /** The cosine and the sine of half an angle. */
  datatype HalfAngle = HalfAngle(c: real, s: real) {
    ghost predicate Valid() {
      c * c + s * s == 1.0
    }

    /** Cosine and sine of the whole angle. */
    function Cos(): real {
      c * c - s * s
    }

    function Sin(): real {
      2.0 * (s * c)
    }
  }

  /** The trigonometric calls, with angles in degrees: half gives the cosine and the sine of half an angle. */
  datatype Trigonometry = Trigonometry(half: real -> HalfAngle, atan2: (real, real) -> real, asin: real -> real)

  function EulerToQuaternion(yaw: HalfAngle, pitch: HalfAngle, roll: HalfAngle): Quaternion {
    Quaternion(
      roll.c * pitch.c * yaw.c + roll.s * pitch.s * yaw.s,
      roll.s * pitch.c * yaw.c - roll.c * pitch.s * yaw.s,
      roll.c * pitch.s * yaw.c + roll.s * pitch.c * yaw.s,
      roll.c * pitch.c * yaw.s - roll.s * pitch.s * yaw.c)
  }

  function RollSine(q: Quaternion): real { 2.0 * (q.w * q.x + q.y * q.z) }
  function RollCosine(q: Quaternion): real { 1.0 - 2.0 * (q.x * q.x + q.y * q.y) }
  function PitchSine(q: Quaternion): real { 2.0 * (q.w * q.y - q.z * q.x) }
  function YawSine(q: Quaternion): real { 2.0 * (q.w * q.z + q.x * q.y) }
  function YawCosine(q: Quaternion): real { 1.0 - 2.0 * (q.y * q.y + q.z * q.z) }

  /** Yaw, pitch and roll, in degrees. */
  function QuaternionToEuler(q: Quaternion, trig: Trigonometry): Vector3 {
    Vector3(
      trig.atan2(YawSine(q), YawCosine(q)),
      if Abs(PitchSine(q)) >= 1.0 then CopySign(90.0, PitchSine(q)) else trig.asin(PitchSine(q)),
      trig.atan2(RollSine(q), RollCosine(q)))
  }
}
