/** What each field of a decoded packet is, from the keys as they are spelled in the text of the packet. */
module PacketFields {
  import opened AlphaKeys
  import opened AlphaParser
  import opened Decimal
  import opened AlphaDecoder
  import opened DecodeTheorems

  // ----- keys in a text -----

  /** Some token has the name. */
  predicate Names(ts: seq<Token>, name: string) {
    exists t <- ts :: t.key == name
  }

  /** What comes behind the last token with the name. */
  function LastValue(ts: seq<Token>, name: string): string {
    if ts == [] then ""
    else if Names(ts[1..], name) then LastValue(ts[1..], name)
    else if ts[0].key == name then ts[0].value
    else ""
  }

  predicate Mentions(buff: string, name: string) {
    Names(Tokens(buff), name)
  }

  function TextAt(buff: string, name: string): string {
    LastValue(Tokens(buff), name)
  }

  ghost predicate SpelledOnly(key: AlphaKey, name: string) {
    forall n :: InputKey(n) == Known(key) <==> n == name
  }

  lemma NamesFirst(ts: seq<Token>, name: string)
    requires ts != []
    ensures Names(ts, name) <==> ts[0].key == name || Names(ts[1..], name)
  {
    assert ts == [ts[0]] + ts[1..];
  }

  lemma {:induction false} StoredByName(ts: seq<Token>, key: AlphaKey, name: string)
    requires SpelledOnly(key, name)
    ensures key in Assign(ts) <==> Names(ts, name)
    ensures key in Assign(ts) ==> Assign(ts)[key] == LastValue(ts, name)
  {
    if ts != [] {
      StoredByName(ts[1..], key, name);
      StoreLookup(ts[0], key);
      NamesFirst(ts, name);
      hide InputKey, Names, Store;
      assert InputKey(ts[0].key) == Known(key) <==> ts[0].key == name;
    }
  }

  /** A key is in the parsed map if the text mentions its name, with what comes behind the last mention. */
  lemma ParsedByName(buff: string, key: AlphaKey, name: string)
    requires SpelledOnly(key, name)
    ensures key in Parse(buff) <==> Mentions(buff, name)
    ensures key in Parse(buff) ==> Parse(buff)[key] == TextAt(buff, name)
    ensures AllDigits(TextAt(buff, name))
  {
    StoredByName(Tokens(buff), key, name);
    TokenValuesAreDigits(buff);
    LastValueIsDigits(Tokens(buff), name);
    hide SpelledOnly, Tokens, LastValue, Names, Assign;
  }

  lemma {:induction false} LastValueIsDigits(ts: seq<Token>, name: string)
    requires forall t <- ts :: AllDigits(t.value)
    ensures AllDigits(LastValue(ts, name))
  {
    hide AllDigits;
    if ts == [] {
      NoDigits();
    } else {
      NoDigits();
      assert ts[0] in ts;
      LastValueIsDigits(ts[1..], name);
    }
  }

  lemma NoDigits()
    ensures AllDigits("")
  {}

  // ----- spellings -----

  lemma OneLetter(c: char, key: AlphaKey)
    requires PlainKey(c) == Known(key)
    requires forall d: char :: PlainKey(d) == Known(key) ==> d == c
    requires forall d: char, e: char :: PairKey(d, e) != Known(key) && JointKey(d, e) != Known(key)
    requires key != Max
    ensures SpelledOnly(key, [c])
  {
    hide PlainKey, PairKey, JointKey;
    forall n | InputKey(n) == Known(key) ensures n == [c] {
      assert |n| == 1 && n[0] == c;
    }
  }

  lemma PairName(c: char, d: char, key: AlphaKey)
    requires PairKey(c, d) == Known(key)
    requires forall c': char, d': char :: PairKey(c', d') == Known(key) ==> c' == c && d' == d
    requires forall e: char :: PlainKey(e) != Known(key)
    requires forall e: char, f: char :: JointKey(e, f) != Known(key)
    requires key != Max
    ensures SpelledOnly(key, ['(', c, d, ')'])
  {
    hide PlainKey, PairKey, JointKey;
    forall n | InputKey(n) == Known(key) ensures n == ['(', c, d, ')'] {
      assert |n| == 4 && n[1] == c && n[2] == d;
    }
  }

  lemma JointName(c: char, d: char, key: AlphaKey)
    requires JointKey(c, d) == Known(key)
    requires forall c': char, d': char :: JointKey(c', d') == Known(key) ==> c' == c && d' == d
    requires forall e: char :: PlainKey(e) != Known(key)
    requires forall e: char, f: char :: PairKey(e, f) != Known(key)
    requires key != Max
    ensures SpelledOnly(key, ['(', c, 'A', d, ')'])
  {
    hide PlainKey, PairKey, JointKey;
    forall n | InputKey(n) == Known(key) ensures n == ['(', c, 'A', d, ')'] {
      assert |n| == 5 && n[1] == c && n[3] == d;
    }
  }

  lemma ButtonNames()
    ensures SpelledOnly(MainJoystickClick, "H") && SpelledOnly(TriggerClick, "I") && SpelledOnly(AClick, "J") && SpelledOnly(BClick, "K")
  {
    OneLetter('H', MainJoystickClick);
    OneLetter('I', TriggerClick);
    OneLetter('J', AClick);
    OneLetter('K', BClick);
    hide SpelledOnly;
  }

  lemma GestureNames()
    ensures SpelledOnly(GrabGesture, "L") && SpelledOnly(PinchGesture, "M") && SpelledOnly(MenuClick, "N") && SpelledOnly(CalibrationClick, "O")
  {
    OneLetter('L', GrabGesture);
    OneLetter('M', PinchGesture);
    OneLetter('N', MenuClick);
    OneLetter('O', CalibrationClick);
    hide SpelledOnly;
  }

  lemma AnalogNames()
    ensures SpelledOnly(MainJoystickX, "F") && SpelledOnly(MainJoystickY, "G") && SpelledOnly(TriggerValue, "P")
  {
    OneLetter('F', MainJoystickX);
    OneLetter('G', MainJoystickY);
    OneLetter('P', TriggerValue);
    hide SpelledOnly;
  }

  lemma InfoName()
    ensures SpelledOnly(Info, "Z")
  {
    OneLetter('Z', Info);
  }

  lemma InfoNames()
    ensures SpelledOnly(InfoHand, "(ZH)") && SpelledOnly(InfoDeviceType, "(ZG)") && SpelledOnly(InfoFWVersion, "(ZV)")
  {
    PairName('Z', 'H', InfoHand);
    PairName('Z', 'G', InfoDeviceType);
    PairName('Z', 'V', InfoFWVersion);
    hide SpelledOnly;
  }

  /** The fingers and the joints of a finger are lettered from A on. */
  function Letter(k: nat): char
    requires k < 5
  {
    ('A' as int + k) as char
  }

  lemma CurlName(i: nat)
    requires i < 5
    ensures SpelledOnly(CURL_KEYS[i], [Letter(i)])
  {
    OneLetter(Letter(i), CURL_KEYS[i]);
  }

  lemma SplayName(i: nat)
    requires i < 5
    ensures SpelledOnly(SPLAY_KEYS[i], ['(', Letter(i), 'B', ')'])
  {
    PairName(Letter(i), 'B', SPLAY_KEYS[i]);
  }

  lemma FingerJointName(i: nat, j: nat)
    requires i < 5 && j < 4
    ensures SpelledOnly(JointKeyAt(4 * i + j), ['(', Letter(i), 'A', Letter(j), ')'])
  {
    JointName(Letter(i), Letter(j), JointKeyAt(4 * i + j));
  }

  // ----- the fields of a peripheral packet -----

  /** The number behind the last mention of a name. */
  function NumberIn(buff: string, name: string): (n: nat) {
    TokenValuesAreDigits(buff);
    LastValueIsDigits(Tokens(buff), name);
    ValueOf(TextAt(buff, name))
  }

  /** The number behind the last mention of a name, as a share of the analog range, or else the default. */
  function ShareIn(buff: string, name: string, range: AnalogRange, default: real): real {
    if Mentions(buff, name) then NumberIn(buff, name) as real / range as real else default
  }

  /** The same, moved from 0 to 1 to -1 to 1, or else 0. */
  function CentredIn(buff: string, name: string, range: AnalogRange): real {
    if Mentions(buff, name) then 2.0 * ShareIn(buff, name, range, 0.0) - 1.0 else 0.0
  }

  lemma NumberByName(buff: string, key: AlphaKey, name: string)
    requires SpelledOnly(key, name)
    ensures DigitValues(Parse(buff))
    ensures key in Parse(buff) <==> Mentions(buff, name)
    ensures key in Parse(buff) && ReadableAt(Parse(buff), key) ==> NumberAt(Parse(buff), key) == NumberIn(buff, name) as real
  {
    ParsedValuesAreDigits(buff);
    ParsedByName(buff, key, name);
    hide Parse, SpelledOnly, Mentions, TextAt;
  }

  lemma CentredByName(buff: string, key: AlphaKey, name: string, range: AnalogRange)
    requires SpelledOnly(key, name) && DigitValues(Parse(buff)) && ReadableAt(Parse(buff), key)
    ensures Centred(Parse(buff), range, key) == CentredIn(buff, name, range)
  {
    NumberByName(buff, key, name);
    hide Parse, SpelledOnly, Mentions, NumberIn, NumberAt, ReadableAt;
  }

  lemma PeripheralMap(buff: string, range: AnalogRange)
    requires Meaning(buff, range).PeripheralInput?
    ensures DigitValues(Parse(buff)) && ReadableNumbers(Parse(buff))
    ensures Meaning(buff, range).peripheral == PeripheralOf(Parse(buff), range)
  {
    ParsedValuesAreDigits(buff);
    hide Parse, PeripheralOf, ReadableNumbers, DecodeInfoPacket;
  }

  /** A button is down if its letter is in the text, with a number behind it or not. */
  lemma ButtonFields(buff: string, range: AnalogRange)
    requires Meaning(buff, range).PeripheralInput?
    ensures var p := Meaning(buff, range).peripheral;
      && (p.joystick.pressed <==> Mentions(buff, "H")) && (p.trigger.pressed <==> Mentions(buff, "I"))
      && (p.a.pressed <==> Mentions(buff, "J")) && (p.b.pressed <==> Mentions(buff, "K"))
      && (p.grab <==> Mentions(buff, "L")) && (p.pinch <==> Mentions(buff, "M"))
      && (p.menu.pressed <==> Mentions(buff, "N")) && (p.calibrate.pressed <==> Mentions(buff, "O"))
      && p.a.value == p.b.value == p.menu.value == p.calibrate.value == 0.0
  {
    PeripheralMap(buff, range);
    ButtonNames();
    GestureNames();
    hide Parse, Mentions, SpelledOnly, Meaning, ReadableNumbers, DigitValues, FingerFlexion, FingerSplay, Centred, NumberAt;
    ParsedByName(buff, MainJoystickClick, "H");
    ParsedByName(buff, TriggerClick, "I");
    ParsedByName(buff, AClick, "J");
    ParsedByName(buff, BClick, "K");
    ParsedByName(buff, GrabGesture, "L");
    ParsedByName(buff, PinchGesture, "M");
    ParsedByName(buff, MenuClick, "N");
    ParsedByName(buff, CalibrationClick, "O");
  }

  /** The joystick's axes are centred on half the range, the trigger is not. */
  lemma AnalogFields(buff: string, range: AnalogRange)
    requires Meaning(buff, range).PeripheralInput?
    ensures var p := Meaning(buff, range).peripheral;
      && p.joystick.x == CentredIn(buff, "F", range) && p.joystick.y == CentredIn(buff, "G", range)
      && p.trigger.value == ShareIn(buff, "P", range, 0.0)
  {
    PeripheralMap(buff, range);
    AnalogNames();
    SinglesAreReadable(Parse(buff));
    hide Parse, Mentions, SpelledOnly, Meaning, ReadableNumbers, FingerFlexion, FingerSplay, Centred, CentredIn, NumberIn, NumberAt, ReadableAt;
    CentredByName(buff, MainJoystickX, "F", range);
    CentredByName(buff, MainJoystickY, "G", range);
    NumberByName(buff, TriggerValue, "P");
  }

  /** The splay of finger i comes from "(AB)" to "(EB)". */
  lemma SplayField(buff: string, range: AnalogRange, i: nat)
    requires Meaning(buff, range).PeripheralInput? && i < 5
    ensures |Meaning(buff, range).peripheral.splay| == 5
    ensures Meaning(buff, range).peripheral.splay[i] == CentredIn(buff, ['(', Letter(i), 'B', ')'], range)
  {
    PeripheralMap(buff, range);
    SplayName(i);
    SplaysAreNumeric();
    assert ReadableAt(Parse(buff), SPLAY_KEYS[i]);
    hide Parse, SpelledOnly, Meaning, ReadableNumbers, FingerFlexion, Centred, CentredIn, NumberAt, ReadableAt;
    CentredByName(buff, SPLAY_KEYS[i], ['(', Letter(i), 'B', ')'], range);
  }

  /** Joint j of finger i comes from its own name, "(AAA)" to "(EAD)", else from its finger's, "A" to "E", else it is -1. */
  lemma JointField(buff: string, range: AnalogRange, i: nat, j: nat)
    requires Meaning(buff, range).PeripheralInput? && i < 5 && j < 4
    ensures |Meaning(buff, range).peripheral.flexion| == 5 && |Meaning(buff, range).peripheral.flexion[i]| == 4
    ensures Meaning(buff, range).peripheral.flexion[i][j] ==
      ShareIn(buff, ['(', Letter(i), 'A', Letter(j), ')'], range, ShareIn(buff, [Letter(i)], range, -1.0))
  {
    PeripheralMap(buff, range);
    FingerJointName(i, j);
    CurlName(i);
    var own, whole := JointKeyAt(4 * i + j), CURL_KEYS[i];
    assert IsNumeric(own) && IsNumeric(whole);
    assert ReadableAt(Parse(buff), own) && ReadableAt(Parse(buff), whole);
    hide Parse, Mentions, SpelledOnly, Meaning, ReadableNumbers, FingerSplay, Centred, NumberIn, NumberAt, ReadableAt, JointKeyAt, IsNumeric;
    NumberByName(buff, own, ['(', Letter(i), 'A', Letter(j), ')']);
    NumberByName(buff, whole, [Letter(i)]);
  }

  // ----- the fields of an info packet -----

  /** The number behind the last mention of a name, or 0. */
  function CountIn(buff: string, name: string): nat {
    if Mentions(buff, name) then NumberIn(buff, name) else 0
  }

  lemma InfoByName(buff: string, key: AlphaKey, name: string)
    requires SpelledOnly(key, name)
    ensures DigitValues(Parse(buff))
    ensures InfoNumber(Parse(buff), key).Decoded? ==> InfoNumber(Parse(buff), key).value == CountIn(buff, name)
  {
    ParsedValuesAreDigits(buff);
    ParsedByName(buff, key, name);
    hide Parse, SpelledOnly, Mentions, TextAt;
  }

  lemma InfoFields(buff: string, range: AnalogRange)
    requires Meaning(buff, range).InfoInput?
    ensures Meaning(buff, range).info ==
      InfoData(hand := CountIn(buff, "(ZH)"), deviceType := CountIn(buff, "(ZG)"), firmwareVersion := CountIn(buff, "(ZV)"))
  {
    ParsedValuesAreDigits(buff);
    InfoNames();
    hide Parse, SpelledOnly, CountIn, InfoNumber, PeripheralOf, ReadableNumbers;
    InfoByName(buff, InfoHand, "(ZH)");
    InfoByName(buff, InfoDeviceType, "(ZG)");
    InfoByName(buff, InfoFWVersion, "(ZV)");
  }

  // ----- which texts are accepted -----

  /** The names that are followed by a number: "A" to "G", "P", "(AB)" to "(EB)" and "(AAA)" to "(EAD)". */
  ghost predicate IsNumericName(name: string) {
    || name == "F" || name == "G" || name == "P"
    || (exists i :: 0 <= i < 5 && name == [Letter(i)])
    || (exists i :: 0 <= i < 5 && name == ['(', Letter(i), 'B', ')'])
    || (exists i, j :: 0 <= i < 5 && 0 <= j < 4 && name == ['(', Letter(i), 'A', Letter(j), ')'])
  }

  /** Behind the last mention of each of these comes a number that a float can hold. */
  ghost predicate ReadableText(buff: string) {
    forall name :: IsNumericName(name) ==> ReadableIn(buff, name)
  }

  ghost predicate ReadableIn(buff: string, name: string) {
    Mentions(buff, name) ==> AllDigits(TextAt(buff, name)) && ReadFloat(TextAt(buff, name)).Number?
  }

  lemma ReadableByName(buff: string, key: AlphaKey, name: string)
    requires SpelledOnly(key, name)
    ensures DigitValues(Parse(buff)) && (ReadableAt(Parse(buff), key) <==> ReadableIn(buff, name))
  {
    ParsedValuesAreDigits(buff);
    ParsedByName(buff, key, name);
    hide Parse, SpelledOnly, Mentions, TextAt, ReadFloat;
  }

  lemma NumericNames(i: nat, j: nat)
    requires i < 5 && j < 4
    ensures IsNumericName([Letter(i)]) && IsNumericName(['(', Letter(i), 'B', ')']) && IsNumericName(['(', Letter(i), 'A', Letter(j), ')'])
    ensures IsNumericName("F") && IsNumericName("G") && IsNumericName("P")
  {
    hide Letter;
  }

  lemma JointNumber(key: AlphaKey) returns (i: nat, j: nat)
    requires key in JOINT_KEYS
    ensures i < 5 && j < 4 && JointKeyAt(4 * i + j) == key
  {
    var k :| 0 <= k < 20 && JOINT_KEYS[k] == key;
    i, j := k / 4, k % 4;
  }

  lemma NameOfFingerKey(key: AlphaKey) returns (name: string)
    requires key in CURL_KEYS || key in SPLAY_KEYS
    ensures IsNumericName(name) && SpelledOnly(key, name)
  {
    hide SpelledOnly, IsNumericName, Letter;
    if key in CURL_KEYS {
      var i :| 0 <= i < 5 && CURL_KEYS[i] == key;
      CurlName(i);
      NumericNames(i, 0);
      name := [Letter(i)];
    } else {
      var i :| 0 <= i < 5 && SPLAY_KEYS[i] == key;
      SplayName(i);
      NumericNames(i, 0);
      name := ['(', Letter(i), 'B', ')'];
    }
  }

  lemma NameOfJointKey(key: AlphaKey) returns (name: string)
    requires key in JOINT_KEYS
    ensures IsNumericName(name) && SpelledOnly(key, name)
  {
    hide *;
    var i, j := JointNumber(key);
    FingerJointName(i, j);
    NumericNames(i, j);
    name := ['(', Letter(i), 'A', Letter(j), ')'];
  }

  lemma NameOfSingleKey(key: AlphaKey) returns (name: string)
    requires key == MainJoystickX || key == MainJoystickY || key == TriggerValue
    ensures IsNumericName(name) && SpelledOnly(key, name)
  {
    hide *;
    AnalogNames();
    NumericNames(0, 0);
    name := if key == MainJoystickX then "F" else if key == MainJoystickY then "G" else "P";
  }

  lemma NameOfKey(key: AlphaKey) returns (name: string)
    requires IsNumeric(key)
    ensures IsNumericName(name) && SpelledOnly(key, name)
  {
    hide SpelledOnly, IsNumericName;
    if key in JOINT_KEYS {
      name := NameOfJointKey(key);
    } else if key in CURL_KEYS || key in SPLAY_KEYS {
      name := NameOfFingerKey(key);
    } else {
      name := NameOfSingleKey(key);
    }
  }

  lemma KeyOfName(name: string) returns (key: AlphaKey)
    requires IsNumericName(name)
    ensures IsNumeric(key) && SpelledOnly(key, name)
  {
    hide SpelledOnly;
    AnalogNames();
    if i :| 0 <= i < 5 && name == [Letter(i)] {
      CurlName(i);
      key := CURL_KEYS[i];
    } else if i :| 0 <= i < 5 && name == ['(', Letter(i), 'B', ')'] {
      SplayName(i);
      key := SPLAY_KEYS[i];
    } else if i, j :| 0 <= i < 5 && 0 <= j < 4 && name == ['(', Letter(i), 'A', Letter(j), ')'] {
      FingerJointName(i, j);
      key := JointKeyAt(4 * i + j);
    } else {
      key := if name == "F" then MainJoystickX else if name == "G" then MainJoystickY else TriggerValue;
    }
  }

  lemma ReadableTextIff(buff: string)
    ensures DigitValues(Parse(buff)) && (ReadableNumbers(Parse(buff)) <==> ReadableText(buff))
  {
    ParsedValuesAreDigits(buff);
    hide Parse, ReadableAt, ReadableIn, IsNumeric, IsNumericName, SpelledOnly;
    if ReadableText(buff) {
      forall key | IsNumeric(key) ensures ReadableAt(Parse(buff), key) {
        var name := NameOfKey(key);
        ReadableByName(buff, key, name);
      }
    }
    if ReadableNumbers(Parse(buff)) {
      forall name | IsNumericName(name) ensures ReadableIn(buff, name) {
        var key := KeyOfName(name);
        ReadableByName(buff, key, name);
      }
    }
  }

  /**
   A text is taken for a peripheral packet if and only if it does not mention Z, all its numbers can be
   read, and it is not silent; one that mentions Z is never taken for it, nor another one for an info
   packet.
   */
  lemma KindByText(buff: string, range: AnalogRange)
    ensures DigitValues(Parse(buff))
    ensures Meaning(buff, range).PeripheralInput? <==> !Mentions(buff, "Z") && ReadableText(buff) && !Silent(Parse(buff), range)
    ensures Meaning(buff, range).InfoInput? ==> Mentions(buff, "Z")
  {
    InfoName();
    DecodedTypeIff(buff, range);
    ReadableTextIff(buff);
    hide Parse, SpelledOnly, Mentions, ReadableNumbers, ReadableText, Silent, Meaning, InfoNumber;
    ParsedByName(buff, Info, "Z");
  }
}
