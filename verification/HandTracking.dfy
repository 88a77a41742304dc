/**
 The hand skeleton of hand_tracking.cpp: bones are posed in place from keyframes, a splay and a mirroring.

 A bone is its index in the skeleton. Dividing zero by zero gives something that is not a number,
 and so does every later operation on it: an orientation or a position either has numbers for all of
 its components, or for none.
 */
module HandTracking {
  import opened DriverMath
  import opened AnimLoader
  import opened Interpolation

  datatype Numeric<+T> = Numbers(value: T) | NotNumbers

  /** position has a fourth component. */
  datatype Bone = Bone(orientation: Numeric<Quaternion>, position: Numeric<Vector3>, w: real)

  const MAX_SPLAY_ANGLE := 20.0

  // ----- the skeleton -----

  const ROOT: nat := 0
  const WRIST: nat := 1
  const THUMB0: nat := 2
  const INDEX0: nat := 6
  const MIDDLE0: nat := 11
  const RING0: nat := 16
  const PINKY0: nat := 21
  const AUX_THUMB: nat := 26
  const AUX_PINKY: nat := 30

  const UNKNOWN := -1

  predicate IsBoneSplayable(bone: nat) {
    bone == THUMB0 || bone == INDEX0 + 1 || bone == MIDDLE0 + 1 || bone == RING0 + 1 || bone == PINKY0 + 1
  }

  /** The finger a bone belongs to: 0 is the thumb and 4 the pinky. */
  function GetFingerFromBoneIndex(bone: nat): (finger: int)
    ensures UNKNOWN <= finger < 5
  {
    if THUMB0 <= bone <= THUMB0 + 2 || bone == AUX_THUMB then 0
    else if INDEX0 <= bone <= INDEX0 + 3 || bone == AUX_THUMB + 1 then 1
    else if MIDDLE0 <= bone <= MIDDLE0 + 3 || bone == AUX_THUMB + 2 then 2
    else if RING0 <= bone <= RING0 + 3 || bone == AUX_THUMB + 3 then 3
    else if PINKY0 <= bone <= PINKY0 + 3 || bone == AUX_PINKY then 4
    else UNKNOWN
  }

  function GetRootFingerBoneFromFingerIndex(finger: int): int {
    match finger
    case 0 => THUMB0
    case 1 => INDEX0
    case 2 => MIDDLE0
    case 3 => RING0
    case 4 => PINKY0
    case _ => UNKNOWN
  }

  predicate IsAuxBone(bone: nat) {
    AUX_THUMB <= bone <= AUX_PINKY
  }

  predicate IsFingerRoot(bone: nat) {
    bone == THUMB0 || bone == INDEX0 || bone == MIDDLE0 || bone == RING0 || bone == PINKY0
  }

  // ----- the left hand -----

  function MirroredOrientation(q: Quaternion, bone: nat): Quaternion {
    if IsFingerRoot(bone) then Quaternion(-q.x, q.w, -q.z, q.y)
    else if bone == WRIST || IsAuxBone(bone) then Quaternion(q.w, q.x, -q.y, -q.z)
    else q
  }

  function MirroredPosition(p: Vector3, bone: nat): Vector3 {
    if bone == ROOT then p
    else if IsFingerRoot(bone) || bone == WRIST || IsAuxBone(bone) then Vector3(-p.x, p.y, p.z)
    else Vector3(-p.x, -p.y, -p.z)
  }

  function Mirrored(b: Bone, bone: nat): Bone {
    Bone(
      if b.orientation.Numbers? then Numbers(MirroredOrientation(b.orientation.value, bone)) else NotNumbers,
      if b.position.Numbers? then Numbers(MirroredPosition(b.position.value, bone)) else NotNumbers,
      b.w)
  }

  method TransformLeftBone(bones: array<Bone>, bone: nat)
    requires bone < bones.Length
    modifies bones
    ensures bones[..] == old(bones[..])[bone := Mirrored(old(bones[bone]), bone)]
  {
    var b := bones[bone];
    var (q, p) := (b.orientation, b.position);
    if bone == ROOT {
      return;
    } else if IsFingerRoot(bone) {
      if q.Numbers? {
        q := Numbers(Quaternion(-q.value.x, q.value.w, -q.value.z, q.value.y));
      }
    } else if bone == WRIST || IsAuxBone(bone) {
      if q.Numbers? {
        q := Numbers(q.value.(y := -q.value.y, z := -q.value.z));
      }
    } else if p.Numbers? {
      p := Numbers(p.value.(y := -p.value.y, z := -p.value.z));
    }
    if p.Numbers? {
      p := Numbers(p.value.(x := -p.value.x));
    }
    bones[bone] := b.(orientation := q, position := p);
  }

  // ----- one bone -----

  function LerpQuaternion(a: Quaternion, b: Quaternion, f: real): Quaternion {
    Quaternion(Lerp(a.w, b.w, f), Lerp(a.x, b.x, f), Lerp(a.y, b.y, f), Lerp(a.z, b.z, f))
  }

  function LerpVector(a: Vector3, b: Vector3, f: real): Vector3 {
    Vector3(Lerp(a.x, b.x, f), Lerp(a.y, b.y, f), Lerp(a.z, b.z, f))
  }

  /** The orientation at rest is assigned in another order than the keyframes are: x, y, z, w from the elements 0 to 3. */
  function RestOrientation(rotation: Quaternion): Quaternion {
    Quaternion(rotation.z, rotation.w, rotation.x, rotation.y)
  }

  function OrientationAt(m: Model, bone: nat, curl: real): Numeric<Quaternion>
    requires m.Valid() && curl >= 0.0 && bone < BONE_COUNT
  {
    var d := AnimationDataAt(m, bone, curl);
    if d.startTransform.rotation == ZERO_QUATERNION then Numbers(RestOrientation(m.initialTransforms[bone].rotation))
    else if IsNumber(curl, d.startTime, d.endTime) then
      Numbers(LerpQuaternion(d.startTransform.rotation, d.endTransform.rotation, Fraction(curl, d.startTime, d.endTime)))
    else NotNumbers
  }

  function PositionAt(m: Model, bone: nat, curl: real): Numeric<Vector3>
    requires m.Valid() && curl >= 0.0 && bone < BONE_COUNT
  {
    var d := AnimationDataAt(m, bone, curl);
    if d.startTransform.translation == ZERO_VECTOR then Numbers(m.initialTransforms[bone].translation)
    else if IsNumber(curl, d.startTime, d.endTime) then
      Numbers(LerpVector(d.startTransform.translation, d.endTransform.translation, Fraction(curl, d.startTime, d.endTime)))
    else NotNumbers
  }

  function Splayed(q: Quaternion, bone: nat, splay: real, trig: Trigonometry): Quaternion {
    if -1.0 <= splay <= 1.0 && IsBoneSplayable(bone) then
      Product(q, EulerToQuaternion(trig.half(0.0), trig.half(splay * MAX_SPLAY_ANGLE), trig.half(0.0)))
    else q
  }

  /** The pose of a bone, which does not depend on the pose before. */
  function Posed(m: Model, bone: nat, curl: real, splay: real, rightHand: bool, trig: Trigonometry): Bone
    requires m.Valid() && curl >= 0.0 && bone < BONE_COUNT
  {
    var q := OrientationAt(m, bone, curl);
    var right := Bone(
      if q.Numbers? then Numbers(Splayed(q.value, bone, splay, trig)) else NotNumbers,
      PositionAt(m, bone, curl),
      1.0);
    if rightHand then right else Mirrored(right, bone)
  }

  /** A bone is posed for curls from 0 to 1, and left alone otherwise. */
  function BoneSet(m: Model, bone: nat, curl: real, splay: real, rightHand: bool, trig: Trigonometry, before: Bone): Bone
    requires m.Valid() && bone < BONE_COUNT
  {
    if 0.0 <= curl <= 1.0 then Posed(m, bone, curl, splay, rightHand, trig) else before
  }

  method SetTransformForBone(m: Model, bones: array<Bone>, bone: nat, curl: real, splay: real, rightHand: bool, trig: Trigonometry)
    requires m.Valid() && bones.Length == BONE_COUNT && bone < BONE_COUNT
    modifies bones
    ensures bones[..] == old(bones[..])[bone := BoneSet(m, bone, curl, splay, rightHand, trig, old(bones[bone]))]
  {
    if curl < 0.0 || curl > 1.0 {
      return;
    }
    var rest := m.initialTransforms[bone];
    var q := Numbers(Quaternion(rest.rotation.z, rest.rotation.w, rest.rotation.x, rest.rotation.y));
    var p := Numbers(rest.translation);
    var d := GetAnimationDataByBoneIndex(m, bone, curl);
    var interp := NotNumbers;
    if IsNumber(curl, d.startTime, d.endTime) {
      interp := Numbers(Fraction(curl, d.startTime, d.endTime));
    }
    if d.startTransform.rotation != ZERO_QUATERNION {
      q := NotNumbers;
      if interp.Numbers? {
        q := Numbers(LerpQuaternion(d.startTransform.rotation, d.endTransform.rotation, interp.value));
      }
    }
    if d.startTransform.translation != ZERO_VECTOR {
      p := NotNumbers;
      if interp.Numbers? {
        p := Numbers(LerpVector(d.startTransform.translation, d.endTransform.translation, interp.value));
      }
    }
    if splay >= -1.0 && splay <= 1.0 {
      if IsBoneSplayable(bone) && q.Numbers? {
        q := Numbers(Product(q.value, EulerToQuaternion(trig.half(0.0), trig.half(splay * MAX_SPLAY_ANGLE), trig.half(0.0))));
      }
    }
    bones[bone] := Bone(q, p, 1.0);
    if !rightHand {
      TransformLeftBone(bones, bone);
    }
  }

  // ----- all bones -----

  function Total(xs: seq<real>): real {
    if xs == [] then 0.0 else Total(xs[..|xs| - 1]) + xs[|xs| - 1]
  }

  function Average(joints: seq<real>): real
    requires |joints| == 4
  {
    (joints[0] + joints[1] + joints[2] + joints[3]) / 4.0
  }

  lemma TotalOfFour(joints: seq<real>)
    requires |joints| == 4
    ensures Total(joints) == joints[0] + joints[1] + joints[2] + joints[3]
  {
    assert joints[..3][..2] == joints[..2] && joints[..2][..1] == joints[..1] && joints[..1][..0] == [];
    assert Total(joints[..1]) == joints[0];
    assert Total(joints[..2]) == joints[0] + joints[1];
    assert Total(joints[..3]) == joints[0] + joints[1] + joints[2];
  }

  method GetAverageFingerCurlValue(joints: seq<real>) returns (average: real)
    requires |joints| == 4
    ensures average == Average(joints)
  {
    var acc := 0.0;
    assert joints[..4] == joints;
    for i := 0 to |joints|
      invariant acc == Total(joints[..i])
    {
      assert joints[..i + 1][..i] == joints[..i];
      acc := acc + joints[i];
    }
    TotalOfFour(joints);
    average := acc / 4.0;
  }

  /** Four joints for each of five fingers, and their splays. */
  predicate IsHand(flexion: seq<seq<real>>, splay: seq<real>) {
    |flexion| == |splay| == 5 && forall f :: 0 <= f < 5 ==> |flexion[f]| == 4
  }

  lemma HasJoint(bone: nat)
    requires bone < BONE_COUNT && GetFingerFromBoneIndex(bone) != UNKNOWN && !IsAuxBone(bone)
    ensures 0 <= bone - GetRootFingerBoneFromFingerIndex(GetFingerFromBoneIndex(bone)) < 4
  {}

  /** The curl of a bone: its own joint's, or its finger's average. */
  function CurlOf(bone: nat, flexion: seq<seq<real>>): real
    requires |flexion| == 5 && forall f :: 0 <= f < 5 ==> |flexion[f]| == 4
    requires GetFingerFromBoneIndex(bone) != UNKNOWN
  {
    var finger := GetFingerFromBoneIndex(bone);
    if IsAuxBone(bone) then Average(flexion[finger])
    else flexion[finger][bone - GetRootFingerBoneFromFingerIndex(finger)]
  }

  /** What ComputeBoneTransforms makes of one bone. */
  function BoneComputed(m: Model, bone: nat, flexion: seq<seq<real>>, splay: seq<real>, rightHand: bool, trig: Trigonometry,
                        before: Bone): Bone
    requires m.Valid() && IsHand(flexion, splay) && bone < BONE_COUNT
  {
    var finger := GetFingerFromBoneIndex(bone);
    if finger == UNKNOWN then before
    else BoneSet(m, bone, CurlOf(bone, flexion), splay[finger], rightHand, trig, before)
  }

  class HandTracking {
    var modelLoaded: bool
    var model: Model

    ghost predicate Valid()
      reads this
    {
      modelLoaded ==> model.Valid()
    }

    constructor (loaded: bool, model: Model)
      requires loaded ==> model.Valid()
      ensures Valid() && modelLoaded == loaded && this.model == model
    {
      modelLoaded, this.model := loaded, model;
    }

    method ComputeBoneTransforms(bones: array<Bone>, flexion: seq<seq<real>>, splay: seq<real>, rightHand: bool, trig: Trigonometry)
      requires Valid() && bones.Length == BONE_COUNT && IsHand(flexion, splay)
      modifies bones
      ensures !modelLoaded ==> bones[..] == old(bones[..])
      ensures modelLoaded ==> forall b :: 0 <= b < BONE_COUNT ==>
        bones[b] == BoneComputed(model, b, flexion, splay, rightHand, trig, old(bones[..])[b])
    {
      if !modelLoaded {
        return;
      }
      ghost var before := bones[..];
      assert GetFingerFromBoneIndex(0) == UNKNOWN;
      hide BoneSet, GetFingerFromBoneIndex;
      for i := 1 to BONE_COUNT
        invariant forall b :: 0 <= b < i ==> bones[b] == BoneComputed(model, b, flexion, splay, rightHand, trig, before[b])
        invariant forall b :: i <= b < BONE_COUNT ==> bones[b] == before[b]
      {
        var finger := GetFingerFromBoneIndex(i);
        if finger == UNKNOWN {
          continue;
        }
        var curl;
        if IsAuxBone(i) {
          curl := GetAverageFingerCurlValue(flexion[finger]);
        } else {
          HasJoint(i);
          curl := flexion[finger][i - GetRootFingerBoneFromFingerIndex(finger)];
        }
        SetTransformForBone(model, bones, i, curl, splay[finger], rightHand, trig);
      }
    }
  }
}
