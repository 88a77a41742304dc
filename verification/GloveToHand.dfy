/** From the text a glove sends to the bones of the hand. */
module GloveToHand {
  import opened DriverMath
  import opened AlphaKeys
  import opened AlphaParser
  import opened Decimal
  import opened AlphaDecoder
  import opened DecodeTheorems
  import opened PacketFields
  import opened AnimLoader
  import opened HandTracking
  import opened HandTheorems

  lemma DecodedHand(buff: string, range: AnalogRange)
    requires Meaning(buff, range).PeripheralInput?
    ensures DigitValues(Parse(buff)) && ReadableNumbers(Parse(buff))
    ensures var p := Meaning(buff, range).peripheral;
      && IsHand(p.flexion, p.splay)
      && forall i, j :: 0 <= i < 5 && 0 <= j < 4 ==> p.flexion[i][j] == Flexion(Parse(buff), range, i, j)
  {
    ParsedValuesAreDigits(buff);
    DecodedTypeIff(buff, range);
    hide Parse, Silent, Flexion;
  }

  function FingerJointKey(finger: nat, joint: nat): AlphaKey
    requires finger < 5 && joint < 4
  {
    JointKeyAt(4 * finger + joint)
  }

  /** No key of the finger came in the text. */
  ghost predicate Unsent(m: KeyMap, finger: nat)
    requires finger < 5
  {
    CURL_KEYS[finger] !in m && forall j :: 0 <= j < 4 ==> FingerJointKey(finger, j) !in m
  }

  /** What a bone becomes when the glove sends a text that decodes to a peripheral packet. */
  ghost function BoneReceived(buff: string, range: AnalogRange, m: Model, bone: nat, rightHand: bool, trig: Trigonometry,
                              before: Bone): Bone
    requires Meaning(buff, range).PeripheralInput? && m.Valid() && bone < BONE_COUNT
  {
    DecodedHand(buff, range);
    var p := Meaning(buff, range).peripheral;
    BoneComputed(m, bone, p.flexion, p.splay, rightHand, trig, before)
  }

  /** A finger that the glove did not send keeps all its bones. */
  lemma UnsentFingerStays(buff: string, range: AnalogRange, m: Model, bone: nat, rightHand: bool, trig: Trigonometry, before: Bone)
    requires Meaning(buff, range).PeripheralInput? && m.Valid() && bone < BONE_COUNT
    requires GetFingerFromBoneIndex(bone) != UNKNOWN ==> Unsent(Parse(buff), GetFingerFromBoneIndex(bone))
    ensures BoneReceived(buff, range, m, bone, rightHand, trig, before) == before
  {
    var p, f := Meaning(buff, range).peripheral, GetFingerFromBoneIndex(bone);
    hide Meaning, Parse, Flexion, BoneComputed, ReadableNumbers, GetFingerFromBoneIndex;
    DecodedHand(buff, range);
    if f != UNKNOWN {
      forall j | 0 <= j < 4 ensures p.flexion[f][j] == -1.0 {
        assert FingerJointKey(f, j) !in Parse(buff);
        FlexionByKey(Parse(buff), range, f, j);
      }
    }
    AbsentFingerStays(m, bone, p.flexion, p.splay, rightHand, trig, before);
  }

  /** The joint that a bone takes its curl from. */
  function JointOf(bone: nat): (joint: nat)
    requires bone < BONE_COUNT && GetFingerFromBoneIndex(bone) != UNKNOWN && !IsAuxBone(bone)
    ensures joint < 4
  {
    HasJoint(bone);
    bone - GetRootFingerBoneFromFingerIndex(GetFingerFromBoneIndex(bone))
  }

  /** The bone is one of a finger's joints, and the text has the key of that joint with the number n. */
  ghost predicate Sends(buff: string, bone: nat, n: nat) {
    && bone < BONE_COUNT && GetFingerFromBoneIndex(bone) != UNKNOWN && !IsAuxBone(bone)
    && DigitValues(Parse(buff))
    && FingerJointKey(GetFingerFromBoneIndex(bone), JointOf(bone)) in Parse(buff)
    && ValueOf(Parse(buff)[FingerJointKey(GetFingerFromBoneIndex(bone), JointOf(bone))]) == n
  }

  lemma SentJointValue(buff: string, range: AnalogRange, f: nat, j: nat)
    requires Meaning(buff, range).PeripheralInput? && f < 5 && j < 4
    ensures DigitValues(Parse(buff)) && IsHand(Meaning(buff, range).peripheral.flexion, Meaning(buff, range).peripheral.splay)
    ensures FingerJointKey(f, j) in Parse(buff) ==>
      Meaning(buff, range).peripheral.flexion[f][j] == ValueOf(Parse(buff)[FingerJointKey(f, j)]) as real / range as real
  {
    hide Meaning, Parse, Flexion, ReadableNumbers;
    DecodedHand(buff, range);
    FlexionByKey(Parse(buff), range, f, j);
  }

  /** A joint that the glove did send sets its bone from the number sent, over the analog range, and its finger's splay. */
  lemma SentJointPosesItsBone(buff: string, range: AnalogRange, m: Model, bone: nat, rightHand: bool, trig: Trigonometry, before: Bone, n: nat)
    requires Meaning(buff, range).PeripheralInput? && m.Valid() && Sends(buff, bone, n)
    ensures |Meaning(buff, range).peripheral.splay| == 5
    ensures BoneReceived(buff, range, m, bone, rightHand, trig, before) ==
      BoneSet(m, bone, n as real / range as real, Meaning(buff, range).peripheral.splay[GetFingerFromBoneIndex(bone)], rightHand, trig, before)
  {
    hide Meaning, Parse, ReadableNumbers, GetFingerFromBoneIndex, BoneSet, IsAuxBone;
    SentJointValue(buff, range, GetFingerFromBoneIndex(bone), JointOf(bone));
  }

  lemma RatioAtMostOne(n: nat, range: AnalogRange)
    ensures 0.0 <= n as real / range as real
    ensures n as real / range as real <= 1.0 <==> n <= range
  {
    var (a, b) := (n as real, range as real);
    assert (a / b) * b == a;
    if a / b <= 1.0 {
      assert (a / b) * b <= b;
    } else {
      assert (a / b) * b > b;
    }
  }

  // ----- bones by the names in the text -----

  /** The curl that a text gives a joint: by its own name, else by its finger's, else -1. */
  function JointCurl(buff: string, range: AnalogRange, finger: nat, joint: nat): real
    requires finger < 5 && joint < 4
  {
    ShareIn(buff, ['(', Letter(finger), 'A', Letter(joint), ')'], range, ShareIn(buff, [Letter(finger)], range, -1.0))
  }

  function FingerSplayIn(buff: string, range: AnalogRange, finger: nat): real
    requires finger < 5
  {
    CentredIn(buff, ['(', Letter(finger), 'B', ')'], range)
  }

  const FIRST_BONES: seq<nat> := [2, 6, 11, 16, 21]

  lemma BonesOfFinger(finger: nat, joint: nat)
    requires finger < 5 && joint < (if finger == 0 then 3 else 4)
    ensures var bone := FIRST_BONES[finger] + joint;
      bone < BONE_COUNT && GetFingerFromBoneIndex(bone) == finger && !IsAuxBone(bone)
      && bone - GetRootFingerBoneFromFingerIndex(finger) == joint
    ensures GetFingerFromBoneIndex(26 + finger) == finger && IsAuxBone(26 + finger)
  {}

  /** Every joint of a finger poses its bone, the first one the bones 2, 6, 11, 16 and 21; the thumb's fourth has none. */
  lemma JointPosesBone(buff: string, range: AnalogRange, m: Model, finger: nat, joint: nat, rightHand: bool, trig: Trigonometry, before: Bone)
    requires Meaning(buff, range).PeripheralInput? && m.Valid()
    requires finger < 5 && joint < (if finger == 0 then 3 else 4)
    ensures var bone := FIRST_BONES[finger] + joint;
      && bone < BONE_COUNT
      && BoneReceived(buff, range, m, bone, rightHand, trig, before) ==
         BoneSet(m, bone, JointCurl(buff, range, finger, joint), FingerSplayIn(buff, range, finger), rightHand, trig, before)
  {
    hide Meaning, BoneSet, GetFingerFromBoneIndex, IsAuxBone, ShareIn, CentredIn, GetRootFingerBoneFromFingerIndex;
    BonesOfFinger(finger, joint);
    JointField(buff, range, finger, joint);
    SplayField(buff, range, finger);
  }

  /** The bones 26 to 30 are posed by the average of the four joints of thumb, index, middle, ring and pinky. */
  lemma AverageOfJointsPosesAuxBone(buff: string, range: AnalogRange, m: Model, finger: nat, rightHand: bool, trig: Trigonometry, before: Bone)
    requires Meaning(buff, range).PeripheralInput? && m.Valid() && finger < 5
    ensures var average := (JointCurl(buff, range, finger, 0) + JointCurl(buff, range, finger, 1)
                            + JointCurl(buff, range, finger, 2) + JointCurl(buff, range, finger, 3)) / 4.0;
      BoneReceived(buff, range, m, 26 + finger, rightHand, trig, before) ==
        BoneSet(m, 26 + finger, average, FingerSplayIn(buff, range, finger), rightHand, trig, before)
  {
    hide Meaning, BoneSet, GetFingerFromBoneIndex, IsAuxBone, ShareIn, CentredIn;
    BonesOfFinger(finger, 0);
    JointField(buff, range, finger, 0);
    JointField(buff, range, finger, 1);
    JointField(buff, range, finger, 2);
    JointField(buff, range, finger, 3);
    SplayField(buff, range, finger);
  }

  // ----- numbers -----

  /** The orientation and the position of a bone are numbers. */
  /** The orientation and the position of a bone are numbers. */
  predicate HasNumbers(b: Bone) {
    b.orientation.Numbers? && b.position.Numbers?
  }

  /**
   A number sent for a joint poses its bone with numbers exactly if it is within the analog range and, as
   a share of it, not the last keyframe time - unless the last keyframe of the bone is empty. A larger
   number leaves the bone alone.
   */
  lemma SentJointGivesNumbersIff(buff: string, range: AnalogRange, m: Model, bone: nat, rightHand: bool, trig: Trigonometry, before: Bone, n: nat)
    requires Meaning(buff, range).PeripheralInput? && m.Valid() && Sends(buff, bone, n)
    ensures var after := BoneReceived(buff, range, m, bone, rightHand, trig, before);
      && (n > range ==> after == before)
      && (n <= range ==>
        (HasNumbers(after) <==>
          || n as real / range as real != LastTime(m)
          || LastTransform(m, bone) == Transform(ZERO_QUATERNION, ZERO_VECTOR)))
  {
    var curl := n as real / range as real;
    hide Meaning, Sends, BoneReceived, Posed, GetFingerFromBoneIndex, LastTime, LastTransform;
    SentJointPosesItsBone(buff, range, m, bone, rightHand, trig, before, n);
    RatioAtMostOne(n, range);
    NumbersIff(m, bone, curl, Meaning(buff, range).peripheral.splay[GetFingerFromBoneIndex(bone)], rightHand, trig);
  }

  const FULL_INDEX_JOINT := "(BAA)4095"

  lemma FullToken(t: Token)
    requires t == Token("(BAA)", "4095")
    ensures InputKey(t.key) == Known(IndexJoint0) && Printable(t)
  {}

  lemma OneToken(t: Token, key: AlphaKey)
    requires InputKey(t.key) == Known(key) && Printable(t)
    ensures Parse(t.key + t.value) == map[key := t.value]
  {
    hide InputKey, Printable, Tokens;
    assert [t][1..] == [] && Render([t]) == t.key + t.value + "" == t.key + t.value;
    assert Assign([t]) == map[key := t.value];
    ParseOfRender([t]);
  }

  lemma FullIndexJointIsParsed()
    ensures Parse(FULL_INDEX_JOINT) == map[IndexJoint0 := "4095"]
  {
    var t := Token("(BAA)", "4095");
    assert t.key + t.value == FULL_INDEX_JOINT;
    hide *;
    FullToken(t);
    OneToken(t, IndexJoint0);
  }

  /** One readable joint, and nothing else. */
  lemma OneJointIsPeripheral(m: KeyMap, text: string, range: AnalogRange)
    requires m == map[IndexJoint0 := text] && AllDigits(text) && ReadFloat(text).Number?
    ensures DigitValues(m) && ReadableNumbers(m) && Info !in m && !Silent(m, range)
  {
    assert ReadableAt(m, IndexJoint0);
    assert DecidingKey(m, 0, 0) == ThumbCurl;
    assert !Reads(m, DecidingKey(m, 0, 0), 0.0);
    hide ReadFloat, AtRest;
  }

  /** A text that sends the full range for the first joint of the index finger. */
  lemma FullIndexJointIsSent()
    ensures Meaning(FULL_INDEX_JOINT, 4095).PeripheralInput? && Sends(FULL_INDEX_JOINT, INDEX0, 4095)
  {
    assert JointOf(INDEX0) == 0 && FingerJointKey(1, 0) == IndexJoint0;
    hide Parse, Meaning, Silent, ReadableNumbers, ReadFloat, ValueOf, JointOf, FingerJointKey;
    FullIndexJointIsParsed();
    FullRangeValue();
    OneJointIsPeripheral(Parse(FULL_INDEX_JOINT), "4095", 4095);
    DecodedTypeIff(FULL_INDEX_JOINT, 4095);
  }

  lemma FullRangeValue()
    ensures AllDigits("4095") && ValueOf("4095") == 4095 && ReadFloat("4095") == Number(4095.0)
  {
    assert "4095"[..3] == "409" && "409"[..2] == "40" && "40"[..1] == "4" && "4"[..0] == "";
    assert ValueOf("4") == 4;
    assert ValueOf("40") == 40;
    assert ValueOf("409") == 409;
  }

  /** With a last keyframe at 1 and a bone that it turns, the input is the full analog range: the bone of a joint sent as that has no numbers. */
  lemma FullRangeIsNotANumber(buff: string, range: AnalogRange, m: Model, bone: nat, rightHand: bool, trig: Trigonometry, before: Bone)
    requires Meaning(buff, range).PeripheralInput? && m.Valid() && Sends(buff, bone, range)
    requires LastTime(m) == 1.0 && LastTransform(m, bone).rotation != ZERO_QUATERNION
    ensures !HasNumbers(BoneReceived(buff, range, m, bone, rightHand, trig, before))
  {
    hide Meaning, Sends, BoneReceived, LastTime, LastTransform;
    SentJointGivesNumbersIff(buff, range, m, bone, rightHand, trig, before, range);
  }
}
