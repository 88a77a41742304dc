/** What a decoded packet says about the text it came from. */
module DecodeTheorems {
  import opened AlphaKeys
  import opened AlphaParser
  import opened Decimal
  import opened AlphaDecoder

  // ----- which packets are accepted -----

  /** A key that is present with the given value. */
  ghost predicate Reads(m: KeyMap, key: AlphaKey, value: real)
    requires DigitValues(m)
  {
    key in m && ReadFloat(m[key]) == Number(value)
  }

  ghost predicate Buttonless(m: KeyMap) {
    && TriggerClick !in m && MainJoystickClick !in m && AClick !in m && BClick !in m
    && MenuClick !in m && CalibrationClick !in m && GrabGesture !in m && PinchGesture !in m
  }

  /** Every joint is sent and zero, everything centred is absent or at exactly half range, nothing is pressed. */
  ghost predicate Silent(m: KeyMap, range: AnalogRange)
    requires DigitValues(m)
  {
    && (forall i, j :: 0 <= i < 5 && 0 <= j < 4 ==> Reads(m, DecidingKey(m, i, j), 0.0))
    && (forall i :: 0 <= i < 5 ==> AtRest(m, range, SPLAY_KEYS[i]))
    && AtRest(m, range, MainJoystickX) && AtRest(m, range, MainJoystickY)
    && (TriggerValue in m ==> Reads(m, TriggerValue, 0.0))
    && Buttonless(m)
  }

  ghost predicate AtRest(m: KeyMap, range: AnalogRange, key: AlphaKey)
    requires DigitValues(m)
  {
    key in m ==> Reads(m, key, range as real / 2.0)
  }

  lemma ZeroShare(a: real, r: real)
    requires r > 0.0
    ensures a / r == 0.0 <==> a == 0.0
  {}

  lemma HalfShare(a: real, r: real)
    requires r > 0.0
    ensures 2.0 * (a / r) - 1.0 == 0.0 <==> a == r / 2.0
  {
    if a / r == 0.5 {
      assert a == (a / r) * r;
    }
  }

  lemma CentredIsZeroIff(m: KeyMap, range: AnalogRange, key: AlphaKey)
    requires DigitValues(m) && ReadableAt(m, key)
    ensures Centred(m, range, key) == 0.0 <==> AtRest(m, range, key)
  {
    if key in m {
      HalfShare(NumberAt(m, key), range as real);
    }
  }

  lemma FlexionIsZeroIff(m: KeyMap, range: AnalogRange, i: nat, j: nat)
    requires DigitValues(m) && ReadableNumbers(m) && i < 5 && j < 4
    ensures Flexion(m, range, i, j) == 0.0 <==> Reads(m, DecidingKey(m, i, j), 0.0)
  {
    var key := DecidingKey(m, i, j);
    assert IsNumeric(key) && ReadableAt(m, key);
    if key in m {
      ZeroShare(NumberAt(m, key), range as real);
    }
  }

  ghost predicate ZeroFlexion(m: KeyMap, range: AnalogRange)
    requires DigitValues(m) && ReadableNumbers(m)
  {
    forall i, j :: 0 <= i < 5 && 0 <= j < 4 ==> Flexion(m, range, i, j) == 0.0
  }

  lemma ZeroRows(m: KeyMap, range: AnalogRange)
    requires DigitValues(m) && ReadableNumbers(m)
    ensures PeripheralOf(m, range).flexion == NO_DATA.flexion <==> ZeroFlexion(m, range)
  {
    hide Flexion;
    var rows := PeripheralOf(m, range).flexion;
    forall i | 0 <= i < 5 ensures rows[i] == NO_CURL <==> forall j :: 0 <= j < 4 ==> Flexion(m, range, i, j) == 0.0 {
      var row := FingerFlexion(m, range, i);
      assert rows[i] == row;
      assert row == NO_CURL <==> forall j :: 0 <= j < 4 ==> row[j] == 0.0;
    }
    assert rows == NO_DATA.flexion <==> forall i :: 0 <= i < 5 ==> rows[i] == NO_CURL;
  }

  lemma ZeroSplays(m: KeyMap, range: AnalogRange)
    requires DigitValues(m) && ReadableNumbers(m)
    ensures PeripheralOf(m, range).splay == NO_DATA.splay <==> forall i :: 0 <= i < 5 ==> FingerSplay(m, range, i) == 0.0
  {
    hide FingerSplay, FingerFlexion;
    var splay := PeripheralOf(m, range).splay;
    assert splay == NO_DATA.splay <==> forall i :: 0 <= i < 5 ==> splay[i] == 0.0;
  }

  lemma TriggerAtZero(m: KeyMap, range: AnalogRange)
    requires DigitValues(m) && ReadableAt(m, TriggerValue)
    ensures (TriggerValue in m ==> NumberAt(m, TriggerValue) / range as real == 0.0) <==> (TriggerValue in m ==> Reads(m, TriggerValue, 0.0))
  {
    if TriggerValue in m {
      ZeroShare(NumberAt(m, TriggerValue), range as real);
    }
  }

  /** The decoder's test for an empty packet succeeds exactly on silent packets. */
  lemma EmptyIffSilent(m: KeyMap, range: AnalogRange)
    requires DigitValues(m) && ReadableNumbers(m)
    ensures PeripheralOf(m, range) == NO_DATA <==> Silent(m, range)
  {
    SplaysAreNumeric();
    assert IsNumeric(MainJoystickX) && IsNumeric(MainJoystickY) && IsNumeric(TriggerValue);
    hide IsNumeric, ReadableAt;
    ZeroRows(m, range);
    ZeroSplays(m, range);
    forall i, j | 0 <= i < 5 && 0 <= j < 4 { FlexionIsZeroIff(m, range, i, j); }
    forall i | 0 <= i < 5 ensures FingerSplay(m, range, i) == 0.0 <==> AtRest(m, range, SPLAY_KEYS[i]) {
      CentredIsZeroIff(m, range, SPLAY_KEYS[i]);
    }
    CentredIsZeroIff(m, range, MainJoystickX);
    CentredIsZeroIff(m, range, MainJoystickY);
    TriggerAtZero(m, range);
    hide Flexion, FingerFlexion, FingerSplay, Centred, NumberAt, AtRest, Reads, DecidingKey;
  }

  /** Decoding is total; what comes out is decided by the parsed map alone. */
  lemma DecodedTypeIff(buff: string, range: AnalogRange)
    ensures DigitValues(Parse(buff))
    ensures var m := Parse(buff);
      && (Meaning(buff, range).PeripheralInput? <==> Info !in m && ReadableNumbers(m) && !Silent(m, range))
      && (Meaning(buff, range).InfoInput? <==>
            && Info in m
            && InfoNumber(m, InfoFWVersion).Decoded? && InfoNumber(m, InfoDeviceType).Decoded? && InfoNumber(m, InfoHand).Decoded?
            && !(InfoNumber(m, InfoFWVersion).value == InfoNumber(m, InfoDeviceType).value == InfoNumber(m, InfoHand).value == 0))
  {
    ParsedValuesAreDigits(buff);
    var m := Parse(buff);
    if ReadableNumbers(m) {
      EmptyIffSilent(m, range);
    }
    hide Parse, PeripheralOf, Silent, ReadableNumbers, InfoNumber;
  }

  /** A text without keys is not silent: it decodes to a peripheral packet whose joints are all absent. */
  lemma KeylessTextIsAccepted(buff: string, range: AnalogRange)
    requires forall c <- buff :: !IsKeyCharacter(c)
    ensures Parse(buff) == map[]
    ensures Meaning(buff, range).PeripheralInput?
    ensures forall i, j :: 0 <= i < 5 && 0 <= j < 4 ==> Meaning(buff, range).peripheral.flexion[i][j] == -1.0
  {
    KeylessTokens(buff);
    var m := Parse(buff);
    DecodedTypeIff(buff, range);
    assert ReadableNumbers(m);
    assert !Reads(m, DecidingKey(m, 0, 0), 0.0);
    forall i, j | 0 <= i < 5 && 0 <= j < 4 ensures Meaning(buff, range).peripheral.flexion[i][j] == -1.0 {
      assert Flexion(m, range, i, j) == -1.0;
    }
    hide Parse, Silent;
  }

  lemma {:induction false} KeylessTokens(buff: string)
    requires forall c <- buff :: !IsKeyCharacter(c)
    ensures Tokens(buff) == []
  {
    if buff != "" {
      assert buff[0] in buff;
      SkipToken(buff);
      KeylessTokens(buff[1..]);
    }
  }

  // ----- which values come out -----

  ghost predicate Decides(m: KeyMap, range: AnalogRange, key: AlphaKey, value: real)
    requires DigitValues(m) && key in m
  {
    value == ValueOf(m[key]) as real / range as real
  }

  lemma FlexionByKey(m: KeyMap, range: AnalogRange, i: nat, j: nat)
    requires DigitValues(m) && ReadableNumbers(m) && i < 5 && j < 4
    ensures var own, whole := JointKeyAt(4 * i + j), CURL_KEYS[i];
      && (own in m ==> Decides(m, range, own, Flexion(m, range, i, j)))
      && (own !in m && whole in m ==> Decides(m, range, whole, Flexion(m, range, i, j)))
      && (own !in m && whole !in m ==> Flexion(m, range, i, j) == -1.0)
  {
    var key := DecidingKey(m, i, j);
    assert IsNumeric(key) && ReadableAt(m, key);
  }

  /** No number exceeds the analog range. */
  ghost predicate WithinRange(m: KeyMap, range: AnalogRange)
    requires DigitValues(m)
  {
    forall key :: IsNumeric(key) && key in m ==> ValueOf(m[key]) <= range
  }

  lemma ShareWithinUnit(a: nat, range: AnalogRange)
    requires a <= range
    ensures 0.0 <= a as real / range as real <= 1.0
  {}

  ghost predicate Unit(x: real) {
    0.0 <= x <= 1.0
  }

  ghost predicate Centered(x: real) {
    -1.0 <= x <= 1.0
  }

  lemma CentredWithinRange(m: KeyMap, range: AnalogRange, key: AlphaKey)
    requires DigitValues(m) && WithinRange(m, range) && IsNumeric(key) && ReadableAt(m, key)
    ensures Centered(Centred(m, range, key))
    ensures key in m ==> Unit(NumberAt(m, key) / range as real)
  {
    if key in m {
      ShareWithinUnit(ValueOf(m[key]), range);
    }
  }

  /** In-range numbers give flexions in [0, 1] (or the -1 of an absent finger), splays and sticks in [-1, 1]. */
  lemma DecodedValuesInRange(m: KeyMap, range: AnalogRange)
    requires DigitValues(m) && ReadableNumbers(m) && WithinRange(m, range)
    ensures var p := PeripheralOf(m, range);
      && (forall i, j :: 0 <= i < 5 && 0 <= j < 4 ==> Unit(p.flexion[i][j]) || p.flexion[i][j] == -1.0)
      && (forall i :: 0 <= i < 5 ==> Centered(p.splay[i]))
      && Centered(p.joystick.x) && Centered(p.joystick.y) && Unit(p.trigger.value)
  {
    SplaysAreNumeric();
    var p := PeripheralOf(m, range);
    forall i, j | 0 <= i < 5 && 0 <= j < 4 ensures Unit(p.flexion[i][j]) || p.flexion[i][j] == -1.0 {
      var key := DecidingKey(m, i, j);
      assert IsNumeric(key) && ReadableAt(m, key);
      assert p.flexion[i][j] == Flexion(m, range, i, j);
      CentredWithinRange(m, range, key);
    }
    forall i | 0 <= i < 5 ensures Centered(p.splay[i]) {
      CentredWithinRange(m, range, SPLAY_KEYS[i]);
    }
    assert IsNumeric(MainJoystickX) && IsNumeric(MainJoystickY) && IsNumeric(TriggerValue);
    CentredWithinRange(m, range, MainJoystickX);
    CentredWithinRange(m, range, MainJoystickY);
    CentredWithinRange(m, range, TriggerValue);
  }
}
