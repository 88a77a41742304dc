/**
 The left hand is the mirror image of the right one.

 A bone has a position in its parent and an orientation that turns what hangs off it. A point at the
 end of a chain of bones is therefore moved by the last bone first. The later bones of a left finger
 are turned as on the right, with inverted positions; the finger's root, turned half around x, makes a
 mirror image of that.
 */
module HandMirror {
  import opened DriverMath
  import opened QuaternionAlgebra
  import opened TrackedOrientation
  import opened EulerAngles
  import opened AnimLoader
  import opened HandTracking

  /** The mirror between the hands. */
  function Mirror(v: Vector3): Vector3 {
    Vector3(-v.x, v.y, v.z)
  }

  function Inverted(v: Vector3): Vector3 {
    Vector3(-v.x, -v.y, -v.z)
  }

  datatype Link = Link(bone: nat, orientation: Quaternion, position: Vector3)

  /** Where a point that hangs off a bone is in the bone's parent. */
  function Placed(l: Link, v: Vector3): Vector3 {
    Add(l.position, Rotate(v, l.orientation))
  }

  /** Where a point that hangs off the last of some bones is in the parent of the first. */
  function PointAt(links: seq<Link>, v: Vector3): Vector3 {
    if links == [] then v else Placed(links[0], PointAt(links[1..], v))
  }

  function Left(l: Link): Link {
    Link(l.bone, MirroredOrientation(l.orientation, l.bone), MirroredPosition(l.position, l.bone))
  }

  function LeftAll(links: seq<Link>): (r: seq<Link>)
    ensures |r| == |links|
    ensures forall i :: 0 <= i < |links| ==> r[i] == Left(links[i])
  {
    if links == [] then [] else [Left(links[0])] + LeftAll(links[1..])
  }

  // ----- bones by their number -----

  predicate IsPalmBone(bone: nat) {
    bone == 1 || 26 <= bone <= 30
  }

  predicate StartsFinger(bone: nat) {
    bone in {2, 6, 11, 16, 21}
  }

  predicate ContinuesFinger(bone: nat) {
    2 < bone < 26 && !StartsFinger(bone)
  }

  ghost predicate ArePalmBones(links: seq<Link>) {
    forall l <- links :: IsPalmBone(l.bone)
  }

  ghost predicate ContinueFinger(links: seq<Link>) {
    forall l <- links :: ContinuesFinger(l.bone)
  }

  /** A finger from its root on. */
  ghost predicate IsFinger(links: seq<Link>) {
    links != [] && StartsFinger(links[0].bone) && ContinueFinger(links[1..])
  }

  // ----- one bone -----

  lemma RotateInverted(v: Vector3, q: Quaternion)
    ensures Rotate(Inverted(v), q) == Inverted(Rotate(v, q))
  {
    hide Rotate;
    RotateOfScaled(-1.0, v, q);
    assert ScaleVector(-1.0, v) == Inverted(v);
    assert ScaleVector(-1.0, Rotate(v, q)) == Inverted(Rotate(v, q));
  }

  lemma LaterBoneInverts(l: Link, v: Vector3)
    requires ContinuesFinger(l.bone)
    ensures Placed(Left(l), Inverted(v)) == Inverted(Placed(l, v))
  {
    RotateInverted(v, l.orientation);
    hide Rotate;
  }

  const HALF_TURN := Quaternion(0.0, 1.0, 0.0, 0.0)

  lemma HalfTurnAroundX(v: Vector3)
    ensures Rotate(v, HALF_TURN) == Vector3(v.x, -v.y, -v.z)
  {
    var (i, j, k) := (AXIS_X, Vector3(0.0, -1.0, 0.0), Vector3(0.0, 0.0, -1.0));
    hide *;
    HalfTurnOfAxes(HalfAngle(0.0, 1.0));
    FromAxes(v, HALF_TURN, i, j, k);
    HalfTurnSum(v.x, v.y, v.z, i, j, k);
  }

  lemma HalfTurnSum(x: real, y: real, z: real, i: Vector3, j: Vector3, k: Vector3)
    requires i == AXIS_X && j == Vector3(0.0, -1.0, 0.0) && k == Vector3(0.0, 0.0, -1.0)
    ensures x * i.x + y * j.x + z * k.x == x && x * i.y + y * j.y + z * k.y == -y && x * i.z + y * j.z + z * k.z == -z
  {}

  lemma HalfTurnOfAxes(a: HalfAngle)
    requires a == HalfAngle(0.0, 1.0)
    ensures Rotate(AXIS_X, HALF_TURN) == AXIS_X
    ensures Rotate(AXIS_Y, HALF_TURN) == Vector3(0.0, -1.0, 0.0) && Rotate(AXIS_Z, HALF_TURN) == Vector3(0.0, 0.0, -1.0)
  {
    HalfTurnAngle(a);
    hide Rotate, HalfAngle.Cos, HalfAngle.Sin, HalfAngle.Valid;
    AxesAroundX(a);
    assert TurnX(a) == HALF_TURN;
  }

  lemma HalfTurnAngle(a: HalfAngle)
    requires a == HalfAngle(0.0, 1.0)
    ensures a.Valid() && a.Cos() == -1.0 && a.Sin() == 0.0
  {}

  lemma RootIsTurned(q: Quaternion, bone: nat)
    requires StartsFinger(bone)
    ensures MirroredOrientation(q, bone) == Product(HALF_TURN, q)
  {}

  lemma FingerRootMirrors(l: Link, v: Vector3)
    requires StartsFinger(l.bone)
    ensures Placed(Left(l), Inverted(v)) == Mirror(Placed(l, v))
  {
    RootIsTurned(l.orientation, l.bone);
    RotateByProduct(Inverted(v), HALF_TURN, l.orientation);
    RotateInverted(v, l.orientation);
    HalfTurnAroundX(Inverted(Rotate(v, l.orientation)));
    hide Rotate, Product, MirroredOrientation;
  }

  lemma RotateMirrored(v: Vector3, q: Quaternion, m: Quaternion)
    requires m == Quaternion(q.w, q.x, -q.y, -q.z)
    ensures Rotate(Mirror(v), m) == Mirror(Rotate(v, q))
  {
    var (i, j, k) := (Rotate(AXIS_X, q), Rotate(AXIS_Y, q), Rotate(AXIS_Z, q));
    hide Rotate;
    MirroredX(q, m);
    MirroredY(q, m);
    MirroredZ(q, m);
    FromAxes(v, q, i, j, k);
    FromAxes(Mirror(v), m, Vector3(i.x, -i.y, -i.z), Vector3(-j.x, j.y, j.z), Vector3(-k.x, k.y, k.z));
    MirroredSum(v.x, v.y, v.z, i.x, j.x, k.x);
    MirroredSum(v.x, v.y, v.z, -i.y, j.y, k.y);
    MirroredSum(v.x, v.y, v.z, -i.z, j.z, k.z);
  }

  lemma MirroredSum(x: real, y: real, z: real, a: real, b: real, c: real)
    ensures -x * a + y * b + z * c == x * -a + y * b + z * c
    ensures -x * a + y * -b + z * -c == -(x * a + y * b + z * c)
  {}

  lemma Opposites(a: real, b: real)
    ensures a * -b == -(a * b) && -a * b == -(a * b) && -a * -b == a * b
  {}

  /** The products of the components of a quaternion with negated y and z. */
  lemma MirroredProducts(q: Quaternion, m: Quaternion)
    requires m == Quaternion(q.w, q.x, -q.y, -q.z)
    ensures m.y * m.y == q.y * q.y && m.z * m.z == q.z * q.z && m.y * m.z == q.y * q.z
    ensures m.w * m.y == -(q.w * q.y) && m.w * m.z == -(q.w * q.z) && m.x * m.y == -(q.x * q.y) && m.x * m.z == -(q.x * q.z)
  {
    Opposites(q.y, q.y);
    Opposites(q.z, q.z);
    Opposites(q.y, q.z);
    Opposites(q.w, q.y);
    Opposites(q.w, q.z);
    Opposites(q.x, q.y);
    Opposites(q.x, q.z);
  }

  lemma MirroredX(q: Quaternion, m: Quaternion)
    requires m == Quaternion(q.w, q.x, -q.y, -q.z)
    ensures var i := Rotate(AXIS_X, q); Rotate(AXIS_X, m) == Vector3(i.x, -i.y, -i.z)
  {
    hide Rotate;
    MirroredProducts(q, m);
    TurnedX(q);
    TurnedX(m);
  }

  lemma MirroredY(q: Quaternion, m: Quaternion)
    requires m == Quaternion(q.w, q.x, -q.y, -q.z)
    ensures var j := Rotate(AXIS_Y, q); Rotate(AXIS_Y, m) == Vector3(-j.x, j.y, j.z)
  {
    hide Rotate;
    MirroredProducts(q, m);
    TurnedY(q);
    TurnedY(m);
  }

  lemma MirroredZ(q: Quaternion, m: Quaternion)
    requires m == Quaternion(q.w, q.x, -q.y, -q.z)
    ensures var k := Rotate(AXIS_Z, q); Rotate(AXIS_Z, m) == Vector3(-k.x, k.y, k.z)
  {
    hide Rotate;
    MirroredProducts(q, m);
    TurnedZ(q);
    TurnedZ(m);
  }

  lemma PalmBoneMirrors(l: Link, v: Vector3)
    requires IsPalmBone(l.bone)
    ensures Placed(Left(l), Mirror(v)) == Mirror(Placed(l, v))
  {
    var q := l.orientation;
    RotateMirrored(v, q, Quaternion(q.w, q.x, -q.y, -q.z));
    hide Rotate;
  }

  // ----- chains of bones -----

  lemma {:induction false} LaterBonesInvert(links: seq<Link>, v: Vector3)
    requires ContinueFinger(links)
    ensures PointAt(LeftAll(links), Inverted(v)) == Inverted(PointAt(links, v))
  {
    if links != [] {
      LaterBonesInvert(links[1..], v);
      assert LeftAll(links)[1..] == LeftAll(links[1..]) && LeftAll(links)[0] == Left(links[0]);
      hide Placed, Left;
      LaterBoneInverts(links[0], PointAt(links[1..], v));
    }
  }

  /** A left finger is the mirror image of the right one, seen from the bone it hangs off. */
  lemma FingerIsMirrored(links: seq<Link>, v: Vector3)
    requires IsFinger(links)
    ensures PointAt(LeftAll(links), Inverted(v)) == Mirror(PointAt(links, v))
  {
    LaterBonesInvert(links[1..], v);
    assert LeftAll(links)[1..] == LeftAll(links[1..]) && LeftAll(links)[0] == Left(links[0]);
    hide Placed, Left, Inverted;
    FingerRootMirrors(links[0], PointAt(links[1..], v));
  }

  lemma {:induction false} PalmIsMirrored(links: seq<Link>, v: Vector3)
    requires ArePalmBones(links)
    ensures PointAt(LeftAll(links), Mirror(v)) == Mirror(PointAt(links, v))
  {
    if links != [] {
      PalmIsMirrored(links[1..], v);
      assert LeftAll(links)[1..] == LeftAll(links[1..]) && LeftAll(links)[0] == Left(links[0]);
      hide Placed, Left;
      PalmBoneMirrors(links[0], PointAt(links[1..], v));
    }
  }

  lemma {:induction false} PointAlong(links: seq<Link>, more: seq<Link>, v: Vector3)
    ensures PointAt(links + more, v) == PointAt(links, PointAt(more, v))
    ensures LeftAll(links + more) == LeftAll(links) + LeftAll(more)
  {
    hide Placed, Left;
    if links == [] {
      assert links + more == more;
    } else {
      assert (links + more)[1..] == links[1..] + more;
      PointAlong(links[1..], more, v);
    }
  }

  /** From the wrist to a finger's tip, the left hand is the mirror image of the right one, whatever the poses of its bones. */
  lemma HandIsMirrored(palm: seq<Link>, finger: seq<Link>, v: Vector3)
    requires ArePalmBones(palm) && IsFinger(finger)
    ensures PointAt(LeftAll(palm + finger), Inverted(v)) == Mirror(PointAt(palm + finger, v))
  {
    PointAlong(palm, finger, v);
    PointAlong(LeftAll(palm), LeftAll(finger), Inverted(v));
    FingerIsMirrored(finger, v);
    hide *;
    PalmIsMirrored(palm, PointAt(finger, v));
  }

  // ----- posed bones -----

  ghost predicate IsLink(l: Link, b: Bone) {
    b.orientation == Numbers(l.orientation) && b.position == Numbers(l.position)
  }

  /** The bones that are posed for a left hand are these mirror images of the right hand's, and the root bone is the same. */
  lemma LeftBoneIsMirrored(l: Link, m: Model, curl: real, splay: real, trig: Trigonometry)
    requires m.Valid() && curl >= 0.0 && l.bone < BONE_COUNT
    requires IsLink(l, Posed(m, l.bone, curl, splay, true, trig))
    ensures IsLink(Left(l), Posed(m, l.bone, curl, splay, false, trig))
    ensures l.bone == 0 ==> Left(l) == l
  {
    hide OrientationAt, PositionAt, Splayed;
  }
}
