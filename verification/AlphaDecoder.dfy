/**
 Decoding a packet of the alpha encoding: DecodePacket and its two packet kinds.
 Values are reals; exceptions are the failures of Decoding.
 */
module AlphaDecoder {
  import opened AlphaKeys
  import opened AlphaParser
  import opened Decimal

  /** The analog range, which the driver's configuration keeps away from zero. */
  type AnalogRange = n: int | 0 < n < 0x1_0000_0000 witness 4095

  datatype Button = Button(value: real, pressed: bool)
  datatype Joystick = Joystick(x: real, y: real, pressed: bool)

  /** flexion has five fingers of four joints, splay five fingers. */
  datatype PeripheralData = PeripheralData(
    flexion: seq<seq<real>>,
    splay: seq<real>,
    trigger: Button, a: Button, b: Button, menu: Button, calibrate: Button,
    joystick: Joystick,
    grab: bool, pinch: bool)

  const UP := Button(0.0, false)

  const NO_CURL := [0.0, 0.0, 0.0, 0.0]

  const NO_DATA := PeripheralData(
    [NO_CURL, NO_CURL, NO_CURL, NO_CURL, NO_CURL], [0.0, 0.0, 0.0, 0.0, 0.0], UP, UP, UP, UP, UP, Joystick(0.0, 0.0, false), false, false)

  datatype InfoData = InfoData(hand: int, deviceType: int, firmwareVersion: int)

  datatype Input = Invalid | InfoInput(info: InfoData) | PeripheralInput(peripheral: PeripheralData)

  datatype DecodeError = UnreadableNumber | EmptyPacket

  datatype Decoding<+T> = Decoded(value: T) | Failed(error: DecodeError) {
    predicate IsFailure() {
      Failed?
    }

    function PropagateFailure<U>(): Decoding<U>
      requires Failed?
    {
      Failed(error)
    }

    function Extract(): T
      requires Decoded?
    {
      value
    }
  }

  type KeyMap = map<AlphaKey, string>

  ghost predicate DigitValues(m: KeyMap) {
    forall k <- m :: AllDigits(m[k])
  }

  // ----- reading one number -----

  function Float(text: string): (r: Decoding<real>)
    requires AllDigits(text)
  {
    match ReadFloat(text)
    case BadNumber => Failed(UnreadableNumber)
    case Number(value) => Decoded(value)
  }

  function Int(text: string): (r: Decoding<int>)
    requires AllDigits(text)
  {
    match ReadInt(text)
    case BadInteger => Failed(UnreadableNumber)
    case Integer(value) => Decoded(value)
  }

  /** The number stored under a key as a share of the analog range, or the default when the key is absent. */
  function Share(m: KeyMap, key: AlphaKey, range: AnalogRange, default: real): Decoding<real>
    requires DigitValues(m)
  {
    if key in m then
      var value :- Float(m[key]);
      Decoded(value / range as real)
    else Decoded(default)
  }

  function Splay(m: KeyMap, key: AlphaKey, range: AnalogRange): Decoding<real>
    requires DigitValues(m)
  {
    var share :- Share(m, key, range, 0.5);
    Decoded((share - 0.5) * 2.0)
  }

  function AxisValue(value: real, range: AnalogRange): (r: real)
    ensures r == CentredValue(value, range)
  {
    DoubledShare(value, range as real);
    2.0 * value / range as real - 1.0
  }

  /** -1 at zero, 1 at the top of the range. */
  function CentredValue(value: real, range: AnalogRange): real {
    2.0 * (value / range as real) - 1.0
  }

  function Axis(m: KeyMap, key: AlphaKey, range: AnalogRange): Decoding<real>
    requires DigitValues(m)
  {
    if key in m then
      var value :- Float(m[key]);
      Decoded(AxisValue(value, range))
    else Decoded(0.0)
  }

  // ----- the meaning of a packet -----

  predicate IsNumeric(key: AlphaKey) {
    key in CURL_KEYS || key in JOINT_KEYS || key in SPLAY_KEYS || key in [MainJoystickX, MainJoystickY, TriggerValue]
  }

  predicate ReadableAt(m: KeyMap, key: AlphaKey)
    requires DigitValues(m)
  {
    key in m ==> ReadFloat(m[key]).Number?
  }

  ghost predicate ReadableNumbers(m: KeyMap)
    requires DigitValues(m)
  {
    forall key :: IsNumeric(key) ==> ReadableAt(m, key)
  }

  /** The value under a key that is present and readable. */
  function NumberAt(m: KeyMap, key: AlphaKey): real
    requires DigitValues(m) && key in m && ReadableAt(m, key)
  {
    ReadFloat(m[key]).value
  }

  /** The key that decides a joint: its own, else that of the whole finger. */
  function DecidingKey(m: KeyMap, finger: nat, joint: nat): AlphaKey
    requires finger < 5 && joint < 4
  {
    if JointKeyAt(4 * finger + joint) in m then JointKeyAt(4 * finger + joint) else CURL_KEYS[finger]
  }

  function Flexion(m: KeyMap, range: AnalogRange, finger: nat, joint: nat): real
    requires DigitValues(m) && ReadableNumbers(m)
    requires finger < 5 && joint < 4
  {
    var key := DecidingKey(m, finger, joint);
    assert IsNumeric(key) && ReadableAt(m, key);
    if key in m then NumberAt(m, key) / range as real else -1.0
  }

  /** A centred analog value, 0 when the key is absent. */
  function Centred(m: KeyMap, range: AnalogRange, key: AlphaKey): real
    requires DigitValues(m) && ReadableAt(m, key)
  {
    if key in m then CentredValue(NumberAt(m, key), range) else 0.0
  }

  function FingerFlexion(m: KeyMap, range: AnalogRange, finger: nat): (r: seq<real>)
    requires DigitValues(m) && ReadableNumbers(m)
    requires finger < 5
    ensures |r| == 4
    ensures forall j :: 0 <= j < 4 ==> r[j] == Flexion(m, range, finger, j)
  {
    [Flexion(m, range, finger, 0), Flexion(m, range, finger, 1), Flexion(m, range, finger, 2), Flexion(m, range, finger, 3)]
  }

  function FingerSplay(m: KeyMap, range: AnalogRange, finger: nat): real
    requires DigitValues(m) && ReadableNumbers(m)
    requires finger < 5
  {
    assert IsNumeric(SPLAY_KEYS[finger]);
    Centred(m, range, SPLAY_KEYS[finger])
  }

  lemma SinglesAreReadable(m: KeyMap)
    requires DigitValues(m) && ReadableNumbers(m)
    ensures ReadableAt(m, MainJoystickX) && ReadableAt(m, MainJoystickY) && ReadableAt(m, TriggerValue)
  {
    assert IsNumeric(MainJoystickX) && IsNumeric(MainJoystickY) && IsNumeric(TriggerValue);
    hide IsNumeric, ReadableAt;
  }

  function PeripheralOf(m: KeyMap, range: AnalogRange): (r: PeripheralData)
    requires DigitValues(m) && ReadableNumbers(m)
    ensures |r.flexion| == |r.splay| == 5
    ensures forall i :: 0 <= i < 5 ==> r.flexion[i] == FingerFlexion(m, range, i) && r.splay[i] == FingerSplay(m, range, i)
  {
    SinglesAreReadable(m);
    PeripheralData(
      [FingerFlexion(m, range, 0), FingerFlexion(m, range, 1), FingerFlexion(m, range, 2),
       FingerFlexion(m, range, 3), FingerFlexion(m, range, 4)],
      [FingerSplay(m, range, 0), FingerSplay(m, range, 1), FingerSplay(m, range, 2),
       FingerSplay(m, range, 3), FingerSplay(m, range, 4)],
      Button(if TriggerValue in m then NumberAt(m, TriggerValue) / range as real else 0.0, TriggerClick in m),
      Button(0.0, AClick in m),
      Button(0.0, BClick in m),
      Button(0.0, MenuClick in m),
      Button(0.0, CalibrationClick in m),
      Joystick(Centred(m, range, MainJoystickX), Centred(m, range, MainJoystickY), MainJoystickClick in m),
      GrabGesture in m,
      PinchGesture in m)
  }

  ghost function PeripheralSpec(m: KeyMap, range: AnalogRange): Decoding<PeripheralData>
    requires DigitValues(m)
  {
    if !ReadableNumbers(m) then Failed(UnreadableNumber)
    else if PeripheralOf(m, range) == NO_DATA then Failed(EmptyPacket)
    else Decoded(PeripheralOf(m, range))
  }

  // ----- the decoder -----

  ghost predicate AllReadable(m: KeyMap, keys: seq<AlphaKey>)
    requires DigitValues(m)
  {
    forall key <- keys :: ReadableAt(m, key)
  }

  lemma ReadableEverywhere(m: KeyMap)
    requires DigitValues(m)
    ensures ReadableNumbers(m) <==>
      && AllReadable(m, CURL_KEYS) && AllReadable(m, JOINT_KEYS) && AllReadable(m, SPLAY_KEYS)
      && ReadableAt(m, MainJoystickX) && ReadableAt(m, MainJoystickY) && ReadableAt(m, TriggerValue)
  {}

  lemma ShareOf(m: KeyMap, key: AlphaKey, range: AnalogRange, default: real)
    requires DigitValues(m)
    ensures Share(m, key, range, default) ==
      if !ReadableAt(m, key) then Failed(UnreadableNumber)
      else Decoded(if key in m then NumberAt(m, key) / range as real else default)
  {}

  lemma SplayIsCentred(m: KeyMap, key: AlphaKey, range: AnalogRange)
    requires DigitValues(m)
    ensures Splay(m, key, range) == if !ReadableAt(m, key) then Failed(UnreadableNumber) else Decoded(Centred(m, range, key))
  {
    ShareOf(m, key, range, 0.5);
  }

  lemma DoubledShare(a: real, r: real)
    requires r > 0.0
    ensures 2.0 * a / r == 2.0 * (a / r)
  {}

  lemma FloatAt(m: KeyMap, key: AlphaKey)
    requires DigitValues(m) && key in m
    ensures Float(m[key]) == if !ReadableAt(m, key) then Failed(UnreadableNumber) else Decoded(NumberAt(m, key))
  {}

  lemma AxisIsCentred(m: KeyMap, key: AlphaKey, range: AnalogRange)
    requires DigitValues(m)
    ensures Axis(m, key, range) == if !ReadableAt(m, key) then Failed(UnreadableNumber) else Decoded(Centred(m, range, key))
  {
    hide AxisValue, CentredValue;
    if key in m {
      FloatAt(m, key);
      hide Float, NumberAt, ReadFloat;
    }
  }

  lemma FiveReadable(m: KeyMap, keys: seq<AlphaKey>, k0: AlphaKey, k1: AlphaKey, k2: AlphaKey, k3: AlphaKey, k4: AlphaKey)
    requires DigitValues(m) && keys == [k0, k1, k2, k3, k4]
    ensures AllReadable(m, keys)
       <==> ReadableAt(m, k0) && ReadableAt(m, k1) && ReadableAt(m, k2) && ReadableAt(m, k3) && ReadableAt(m, k4)
  {
    hide ReadableAt;
    assert keys[0] == k0 && keys[1] == k1 && keys[2] == k2 && keys[3] == k3 && keys[4] == k4;
  }

  ghost predicate IsCurl(m: KeyMap, range: AnalogRange, key: AlphaKey, value: real)
    requires DigitValues(m)
  {
    if key in m then ReadableAt(m, key) && value == NumberAt(m, key) / range as real else value == -1.0
  }

  /** The curls of the whole fingers, which stand in for joints that are not sent. */
  method DecodeCurls(m: KeyMap, range: AnalogRange) returns (r: Decoding<seq<real>>)
    requires DigitValues(m)
    ensures r.Decoded? <==> AllReadable(m, CURL_KEYS)
    ensures r.Failed? ==> r.error == UnreadableNumber
    ensures r.Decoded? ==> |r.value| == 5 && forall i :: 0 <= i < 5 ==> IsCurl(m, range, CURL_KEYS[i], r.value[i])
  {
    ShareOf(m, ThumbCurl, range, -1.0);
    ShareOf(m, IndexCurl, range, -1.0);
    ShareOf(m, MiddleCurl, range, -1.0);
    ShareOf(m, RingCurl, range, -1.0);
    ShareOf(m, PinkyCurl, range, -1.0);
    FiveReadable(m, CURL_KEYS, ThumbCurl, IndexCurl, MiddleCurl, RingCurl, PinkyCurl);
    hide Share, ReadableAt, NumberAt, AllReadable;
    var thumb :- Share(m, ThumbCurl, range, -1.0);
    var index :- Share(m, IndexCurl, range, -1.0);
    var middle :- Share(m, MiddleCurl, range, -1.0);
    var ring :- Share(m, RingCurl, range, -1.0);
    var pinky :- Share(m, PinkyCurl, range, -1.0);
    assert IsCurl(m, range, ThumbCurl, thumb) && IsCurl(m, range, IndexCurl, index) && IsCurl(m, range, MiddleCurl, middle);
    assert IsCurl(m, range, RingCurl, ring) && IsCurl(m, range, PinkyCurl, pinky);
    hide IsCurl;
    return Decoded([thumb, index, middle, ring, pinky]);
  }

  /** The joints in the order of their keys, each falling back to the curl of its finger. */
  method DecodeJoints(m: KeyMap, range: AnalogRange, curls: seq<real>) returns (r: Decoding<seq<seq<real>>>)
    requires DigitValues(m) && |curls| == 5
    ensures r.Decoded? <==> AllReadable(m, JOINT_KEYS)
    ensures r.Failed? ==> r.error == UnreadableNumber
    ensures r.Decoded? ==> |r.value| == 5
    ensures r.Decoded? ==> forall i :: 0 <= i < 5 ==> |r.value[i]| == 4 && IsJointRow(m, range, i, curls[i], r.value[i])
  {
    JointsReadable(m);
    hide Share, ReadableAt, NumberAt, ReadFloat, JointKeyAt, AllReadable, IsJointRow;
    var flexion: seq<seq<real>> := [];
    var currentJoint := 0;
    for i := 0 to 5
      invariant currentJoint == 4 * i && |flexion| == i
      invariant forall k :: 0 <= k < currentJoint ==> ReadableAt(m, JointKeyAt(k))
      invariant forall k :: 0 <= k < i ==> |flexion[k]| == 4 && IsJointRow(m, range, k, curls[k], flexion[k])
    {
      var row: seq<real> := [];
      assert IsJointRow(m, range, i, curls[i], row) by { EmptyRow(m, range, i, curls[i]); }
      for j := 0 to 4
        invariant currentJoint == 4 * i + j && |row| == j
        invariant forall k :: 0 <= k < currentJoint ==> ReadableAt(m, JointKeyAt(k))
        invariant IsJointRow(m, range, i, curls[i], row)
      {
        var joint := JointKeyAt(currentJoint);
        ShareOf(m, joint, range, curls[i]);
        var value :- Share(m, joint, range, curls[i]);
        ExtendRow(m, range, i, curls[i], row, currentJoint, value);
        row := row + [value];
        currentJoint := currentJoint + 1;
      }
      flexion := flexion + [row];
    }
    return Decoded(flexion);
  }

  ghost predicate IsJoint(m: KeyMap, range: AnalogRange, k: nat, curl: real, value: real)
    requires DigitValues(m) && k < 20
  {
    if JointKeyAt(k) in m then ReadableAt(m, JointKeyAt(k)) && value == NumberAt(m, JointKeyAt(k)) / range as real else value == curl
  }

  lemma ShareIsJoint(m: KeyMap, range: AnalogRange, k: nat, curl: real, value: real)
    requires DigitValues(m) && k < 20
    requires Share(m, JointKeyAt(k), range, curl) == Decoded(value)
    ensures IsJoint(m, range, k, curl, value)
  {
    ShareOf(m, JointKeyAt(k), range, curl);
    hide Share;
  }

  lemma JointsReadable(m: KeyMap)
    requires DigitValues(m)
    ensures AllReadable(m, JOINT_KEYS) <==> forall k :: 0 <= k < 20 ==> ReadableAt(m, JointKeyAt(k))
  {
    hide ReadableAt;
    assert forall k :: 0 <= k < 20 ==> JointKeyAt(k) in JOINT_KEYS;
    forall key <- JOINT_KEYS ensures exists k :: 0 <= k < 20 && JointKeyAt(k) == key {
      var k :| 0 <= k < 20 && JOINT_KEYS[k] == key;
      assert JointKeyAt(k) == key;
    }
  }

  ghost predicate IsJointRow(m: KeyMap, range: AnalogRange, i: nat, curl: real, row: seq<real>)
    requires DigitValues(m) && i < 5
  {
    |row| <= 4 && forall k :: 0 <= k < |row| ==> IsJoint(m, range, 4 * i + k, curl, row[k])
  }

  lemma EmptyRow(m: KeyMap, range: AnalogRange, i: nat, curl: real)
    requires DigitValues(m) && i < 5
    ensures IsJointRow(m, range, i, curl, [])
  {}

  lemma ExtendRow(m: KeyMap, range: AnalogRange, i: nat, curl: real, row: seq<real>, k: nat, value: real)
    requires DigitValues(m) && i < 5
    requires IsJointRow(m, range, i, curl, row) && |row| < 4 && k == 4 * i + |row|
    requires Share(m, JointKeyAt(k), range, curl) == Decoded(value)
    ensures IsJointRow(m, range, i, curl, row + [value])
  {
    ShareIsJoint(m, range, k, curl, value);
    hide IsJoint, Share, JointKeyAt;
  }

  /** Each finger's row of joints is the specified one. */
  lemma JointRowsAreFlexion(m: KeyMap, range: AnalogRange, curls: seq<real>, rows: seq<seq<real>>, i: nat)
    requires DigitValues(m) && ReadableNumbers(m)
    requires |curls| == 5 && |rows| == 5 && i < 5
    requires IsCurl(m, range, CURL_KEYS[i], curls[i])
    requires |rows[i]| == 4 && IsJointRow(m, range, i, curls[i], rows[i])
    ensures rows[i] == FingerFlexion(m, range, i)
  {
    hide ReadFloat, NumberAt, ReadableAt;
    forall k | 0 <= k < 4 ensures rows[i][k] == FingerFlexion(m, range, i)[k] {
      assert IsJoint(m, range, 4 * i + k, curls[i], rows[i][k]);
    }
  }

  method DecodeSplays(m: KeyMap, range: AnalogRange) returns (r: Decoding<seq<real>>)
    requires DigitValues(m)
    ensures r.Decoded? <==> AllReadable(m, SPLAY_KEYS)
    ensures r.Failed? ==> r.error == UnreadableNumber
    ensures r.Decoded? ==> |r.value| == 5 && forall i :: 0 <= i < 5 ==> r.value[i] == Centred(m, range, SPLAY_KEYS[i])
  {
    SplayIsCentred(m, ThumbSplay, range);
    SplayIsCentred(m, IndexSplay, range);
    SplayIsCentred(m, MiddleSplay, range);
    SplayIsCentred(m, RingSplay, range);
    SplayIsCentred(m, PinkySplay, range);
    FiveReadable(m, SPLAY_KEYS, ThumbSplay, IndexSplay, MiddleSplay, RingSplay, PinkySplay);
    hide Splay, ReadableAt, Centred, AllReadable;
    var thumb :- Splay(m, ThumbSplay, range);
    var index :- Splay(m, IndexSplay, range);
    var middle :- Splay(m, MiddleSplay, range);
    var ring :- Splay(m, RingSplay, range);
    var pinky :- Splay(m, PinkySplay, range);
    return Decoded([thumb, index, middle, ring, pinky]);
  }

  lemma AssembledIsPeripheral(m: KeyMap, range: AnalogRange, curls: seq<real>, flexion: seq<seq<real>>, splay: seq<real>, result: PeripheralData)
    requires DigitValues(m) && ReadableNumbers(m)
    requires ReadableAt(m, TriggerValue) && ReadableAt(m, MainJoystickX) && ReadableAt(m, MainJoystickY)
    requires |curls| == |flexion| == |splay| == 5
    requires forall i :: 0 <= i < 5 ==> IsCurl(m, range, CURL_KEYS[i], curls[i])
    requires forall i :: 0 <= i < 5 ==> |flexion[i]| == 4 && IsJointRow(m, range, i, curls[i], flexion[i])
    requires forall i :: 0 <= i < 5 ==> IsNumeric(SPLAY_KEYS[i]) && splay[i] == Centred(m, range, SPLAY_KEYS[i])
    requires result == PeripheralData(flexion, splay,
      Button(if TriggerValue in m then NumberAt(m, TriggerValue) / range as real else 0.0, TriggerClick in m),
      Button(0.0, AClick in m), Button(0.0, BClick in m), Button(0.0, MenuClick in m), Button(0.0, CalibrationClick in m),
      Joystick(Centred(m, range, MainJoystickX), Centred(m, range, MainJoystickY), MainJoystickClick in m),
      GrabGesture in m, PinchGesture in m)
    ensures result == PeripheralOf(m, range)
  {
    hide ReadableAt, NumberAt, Centred, IsNumeric, FingerFlexion, IsJointRow, ReadableNumbers, IsCurl;
    forall i | 0 <= i < 5 ensures flexion[i] == PeripheralOf(m, range).flexion[i] && splay[i] == PeripheralOf(m, range).splay[i] {
      JointRowsAreFlexion(m, range, curls, flexion, i);
    }
  }

  lemma SplaysAreNumeric()
    ensures forall i :: 0 <= i < 5 ==> IsNumeric(SPLAY_KEYS[i])
  {}

  method DecodePeripheralPacket(m: KeyMap, range: AnalogRange) returns (r: Decoding<PeripheralData>)
    requires DigitValues(m)
    ensures r == PeripheralSpec(m, range)
  {
    ReadableEverywhere(m);
    AxisIsCentred(m, MainJoystickX, range);
    AxisIsCentred(m, MainJoystickY, range);
    ShareOf(m, TriggerValue, range, 0.0);
    SplaysAreNumeric();
    hide Share, Axis, ReadableAt, NumberAt, Centred, AllReadable, IsNumeric, IsCurl, IsJointRow, ReadableNumbers, PeripheralOf;
    var curls :- DecodeCurls(m, range);
    var flexion :- DecodeJoints(m, range, curls);
    var splay :- DecodeSplays(m, range);
    var x :- Axis(m, MainJoystickX, range);
    var y :- Axis(m, MainJoystickY, range);
    var trigger :- Share(m, TriggerValue, range, 0.0);
    var result := NO_DATA.(flexion := flexion, splay := splay);
    result := result.(joystick := Joystick(x, y, MainJoystickClick in m));
    result := result.(trigger := Button(trigger, TriggerClick in m));
    result := result.(a := Button(0.0, AClick in m), b := Button(0.0, BClick in m));
    result := result.(grab := GrabGesture in m, pinch := PinchGesture in m);
    result := result.(menu := Button(0.0, MenuClick in m), calibrate := Button(0.0, CalibrationClick in m));
    AssembledIsPeripheral(m, range, curls, flexion, splay, result);
    if result == NO_DATA {
      return Failed(EmptyPacket);
    }
    return Decoded(result);
  }

  // ----- info packets -----

  function InfoNumber(m: KeyMap, key: AlphaKey): Decoding<int>
    requires DigitValues(m)
  {
    if key in m then Int(m[key]) else Decoded(0)
  }

  function DecodeInfoPacket(m: KeyMap): Decoding<InfoData>
    requires DigitValues(m)
  {
    var firmware :- InfoNumber(m, InfoFWVersion);
    var device :- InfoNumber(m, InfoDeviceType);
    var hand :- InfoNumber(m, InfoHand);
    var info := InfoData(hand, device, firmware);
    if info == InfoData(0, 0, 0) then Failed(EmptyPacket) else Decoded(info)
  }

  // ----- packets -----

  /** The scanner only stores digits. */
  ghost predicate DigitTokens(ts: seq<Token>) {
    forall t <- ts :: AllDigits(t.value)
  }

  lemma DigitsFirst(t: Token, more: seq<Token>)
    requires AllDigits(t.value) && DigitTokens(more)
    ensures DigitTokens([t] + more)
  {
    hide AllDigits;
  }

  lemma NothingHasDigits()
    ensures DigitTokens([])
  {}

  lemma {:induction false} TokenValuesAreDigits(s: string)
    ensures DigitTokens(Tokens(s))
  {
    hide *;
    if s == "" {
      NoTokens();
      NothingHasDigits();
    } else if !IsKeyCharacter(s[0]) {
      SkipToken(s);
      TokenValuesAreDigits(s[1..]);
    } else {
      var k, d := KeyLength(s), DigitRun(s[KeyLength(s)..]);
      UnfoldTokens(s);
      ValueIsDigits(s, k, d);
      TokenValuesAreDigits(s[k + d..]);
      DigitsFirst(Token(s[..k], s[k..k + d]), Tokens(s[k + d..]));
    }
  }

  lemma ValueIsDigits(s: string, k: nat, d: nat)
    requires k <= |s| && d == DigitRun(s[k..])
    ensures AllDigits(s[k..k + d])
  {
    assert s[k..k + d] == s[k..][..d];
    hide DigitRun;
  }

  lemma {:induction false} AssignedValuesAreDigits(ts: seq<Token>)
    requires forall t <- ts :: AllDigits(t.value)
    ensures DigitValues(Assign(ts))
  {
    hide InputKey;
    if ts != [] {
      AssignedValuesAreDigits(ts[1..]);
      assert ts[0] in ts;
    }
  }

  lemma ParsedValuesAreDigits(s: string)
    ensures DigitValues(Parse(s))
  {
    TokenValuesAreDigits(s);
    AssignedValuesAreDigits(Tokens(s));
  }

  ghost function DecodeSpec(m: KeyMap, range: AnalogRange): Input
    requires DigitValues(m)
  {
    if Info in m then
      match DecodeInfoPacket(m)
      case Decoded(info) => InfoInput(info)
      case Failed(_) => Invalid
    else
      match PeripheralSpec(m, range)
      case Decoded(peripheral) => PeripheralInput(peripheral)
      case Failed(_) => Invalid
  }

  ghost function Meaning(buff: string, range: AnalogRange): Input {
    ParsedValuesAreDigits(buff);
    DecodeSpec(Parse(buff), range)
  }

  method DecodePacket(buff: string, range: AnalogRange) returns (result: Input)
    ensures result == Meaning(buff, range)
  {
    var inputMap := ParseToMap(buff);
    ParsedValuesAreDigits(buff);
    if Info in inputMap {
      var info := DecodeInfoPacket(inputMap);
      return if info.Decoded? then InfoInput(info.value) else Invalid;
    }
    var peripheral := DecodePeripheralPacket(inputMap, range);
    return if peripheral.Decoded? then PeripheralInput(peripheral.value) else Invalid;
  }
}
