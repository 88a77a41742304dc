/** Encoding messages to the glove: EncodePacket, and what the scanner reads back from its text. */
module AlphaEncoder {
  import opened AlphaKeys
  import opened AlphaParser
  import opened Decimal
  import opened NativeTypes

  /** Haptic data come as the texts that %.2f prints. */
  datatype Output =
    | EmptyOutput
    | FetchInfo(startStreaming: bool, getInfo: bool)
    | Haptic(frequency: string, duration: string, amplitude: string)
    | ForceFeedback(thumb: int16, index: int16, middle: int16, ring: int16, pinky: int16)

  predicate IsCurlKey(key: AlphaKey) {
    key.ThumbCurl? || key.IndexCurl? || key.MiddleCurl? || key.RingCurl? || key.PinkyCurl?
  }

  /** "%s%d" with a curl key, in front of the rest of the format. */
  function Field(key: AlphaKey, n: int, rest: string): string
    requires IsCurlKey(key)
  {
    OutputKey(key) + PrintInt(n) + rest
  }

  function EncodePacket(o: Output): string {
    match o
    case FetchInfo(startStreaming, getInfo) =>
      (if startStreaming then OutputKey(InfoStartStreaming) else "") + (if getInfo then OutputKey(Info) else "")
    case ForceFeedback(thumb, index, middle, ring, pinky) =>
      Field(ThumbCurl, thumb as int, Field(IndexCurl, index as int, Field(MiddleCurl, middle as int,
        Field(RingCurl, ring as int, Field(PinkyCurl, pinky as int, "\n")))))
    case Haptic(frequency, duration, amplitude) =>
      OutputKey(OutHapticFrequency) + frequency + OutputKey(OutHapticDuration) + duration
      + OutputKey(OutHapticAmplitude) + amplitude + "\n"
    case EmptyOutput => "\n"
  }

  // ----- reading force feedback back -----

  /** What the scanner keeps of a printed number: the minus sign ends the value before it begins. */
  function Surviving(n: int): string {
    if n < 0 then "" else Print(n)
  }

  lemma {:induction false} SkipDigits(p: string, rest: string)
    requires AllDigits(p)
    ensures Tokens(p + rest) == Tokens(rest)
  {
    if p == "" {
      assert p + rest == rest;
    } else {
      assert p[0] in p;
      SkipToken(p + rest);
      assert (p + rest)[1..] == p[1..] + rest;
      SkipDigits(p[1..], rest);
    }
  }

  lemma TokensOfKey(key: string)
    requires Readable(key)
    ensures Tokens(key) == [Token(key, "")]
  {
    assert key + "" + "" == key;
    NoTokens();
    FirstToken(Token(key, ""), "");
    hide Tokens;
  }

  lemma NumberAfterKey(key: string, n: int, rest: string)
    requires Readable(key) && DigitRun(rest) == 0
    ensures Tokens(key + PrintInt(n) + rest) == [Token(key, Surviving(n))] + Tokens(rest)
  {
    if n < 0 {
      var tail := Print(-n) + rest;
      assert key + PrintInt(n) + rest == key + ['-'] + tail;
      TokensAcrossSeparator(key, '-', tail);
      SkipDigits(Print(-n), rest);
      TokensOfKey(key);
    } else {
      FirstToken(Token(key, Print(n)), rest);
    }
    hide Tokens;
  }

  lemma StartsWithKey(key: string, rest: string)
    requires key != "" && !IsDigit(key[0])
    ensures DigitRun(key + rest) == 0
  {}

  lemma CurlKeyRoundTrip(key: AlphaKey)
    requires IsCurlKey(key)
    ensures Readable(OutputKey(key)) && OutputKey(key)[0] != '(' && !IsDigit(OutputKey(key)[0])
    ensures InputKey(OutputKey(key)) == Known(key)
  {}

  lemma ParseOfField(key: AlphaKey, n: int, rest: string)
    requires IsCurlKey(key) && DigitRun(rest) == 0
    ensures Parse(Field(key, n, rest)) == map[key := Surviving(n)] + Parse(rest)
    ensures DigitRun(Field(key, n, rest)) == 0
  {
    var name, t := OutputKey(key), Token(OutputKey(key), Surviving(n));
    CurlKeyRoundTrip(key);
    StartsWithKey(name, PrintInt(n) + rest);
    assert name + PrintInt(n) + rest == name + (PrintInt(n) + rest);
    NumberAfterKey(name, n, rest);
    AssignFirst(t, key, Tokens(rest));
    hide Tokens, InputKey, PrintInt, Surviving, OutputKey, DigitRun, Assign, Readable;
  }

  lemma AssignFirst(t: Token, key: AlphaKey, more: seq<Token>)
    requires InputKey(t.key) == Known(key)
    ensures Assign([t] + more) == map[key := t.value] + Assign(more)
  {
    hide InputKey;
    assert ([t] + more)[1..] == more;
  }

  function CurlMap(thumb: string, index: string, middle: string, ring: string, pinky: string): map<AlphaKey, string> {
    map[ThumbCurl := thumb, IndexCurl := index, MiddleCurl := middle, RingCurl := ring, PinkyCurl := pinky]
  }

  lemma CurlMapLookup(thumb: string, index: string, middle: string, ring: string, pinky: string)
    ensures var m := CurlMap(thumb, index, middle, ring, pinky);
      && m.Keys == {ThumbCurl, IndexCurl, MiddleCurl, RingCurl, PinkyCurl}
      && m[ThumbCurl] == thumb && m[IndexCurl] == index && m[MiddleCurl] == middle && m[RingCurl] == ring && m[PinkyCurl] == pinky
  {}

  lemma CurlMapIsUnion(thumb: string, index: string, middle: string, ring: string, pinky: string)
    ensures map[ThumbCurl := thumb] + (map[IndexCurl := index] + (map[MiddleCurl := middle]
           + (map[RingCurl := ring] + (map[PinkyCurl := pinky] + map[]))))
         == CurlMap(thumb, index, middle, ring, pinky)
  {}

  lemma NewlineAlone()
    ensures Parse("\n") == map[] && DigitRun("\n") == 0
  {
    SkipToken("\n");
  }

  lemma EncodedFields(o: Output)
    requires o.ForceFeedback?
    ensures EncodePacket(o) == Field(ThumbCurl, o.thumb as int, Field(IndexCurl, o.index as int, Field(MiddleCurl, o.middle as int,
      Field(RingCurl, o.ring as int, Field(PinkyCurl, o.pinky as int, "\n")))))
  {}

  /** The scanner reads all five keys of a force-feedback message; exactly the negative numbers are lost. */
  lemma ParseOfForceFeedback(o: Output)
    requires o.ForceFeedback?
    ensures Parse(EncodePacket(o)) == CurlMap(
      Surviving(o.thumb as int), Surviving(o.index as int), Surviving(o.middle as int), Surviving(o.ring as int), Surviving(o.pinky as int))
  {
    hide Parse, Surviving, EncodePacket, Field, DigitRun, CurlMap;
    EncodedFields(o);
    NewlineAlone();
    var r4 := Field(PinkyCurl, o.pinky as int, "\n");
    var r3 := Field(RingCurl, o.ring as int, r4);
    var r2 := Field(MiddleCurl, o.middle as int, r3);
    var r1 := Field(IndexCurl, o.index as int, r2);
    ParseOfField(PinkyCurl, o.pinky as int, "\n");
    ParseOfField(RingCurl, o.ring as int, r4);
    ParseOfField(MiddleCurl, o.middle as int, r3);
    ParseOfField(IndexCurl, o.index as int, r2);
    ParseOfField(ThumbCurl, o.thumb as int, r1);
    CurlMapIsUnion(
      Surviving(o.thumb as int), Surviving(o.index as int), Surviving(o.middle as int), Surviving(o.ring as int), Surviving(o.pinky as int));
  }

  /** The five numbers arrive as sent if and only if none of them is negative. */
  lemma ForceFeedbackRoundTripIff(o: Output)
    requires o.ForceFeedback?
    ensures var m := Parse(EncodePacket(o));
      && ArrivesAt(m, ThumbCurl, o.thumb as int) && ArrivesAt(m, IndexCurl, o.index as int)
      && ArrivesAt(m, MiddleCurl, o.middle as int) && ArrivesAt(m, RingCurl, o.ring as int)
      && ArrivesAt(m, PinkyCurl, o.pinky as int)
      <==> NonNegative(o)
  {
    ParseOfForceFeedback(o);
    SurvivesIff(o.thumb as int);
    SurvivesIff(o.index as int);
    SurvivesIff(o.middle as int);
    SurvivesIff(o.ring as int);
    SurvivesIff(o.pinky as int);
    CurlMapLookup(
      Surviving(o.thumb as int), Surviving(o.index as int), Surviving(o.middle as int), Surviving(o.ring as int), Surviving(o.pinky as int));
    hide Surviving, Parse, EncodePacket, Arrives, CurlMap;
  }

  ghost predicate ArrivesAt(m: map<AlphaKey, string>, key: AlphaKey, n: int) {
    key in m && Arrives(m[key], n)
  }

  ghost predicate Arrives(text: string, n: int) {
    AllDigits(text) && ReadInt(text) == Integer(n)
  }

  predicate NonNegative(o: Output) {
    o.ForceFeedback? && o.thumb >= 0 && o.index >= 0 && o.middle >= 0 && o.ring >= 0 && o.pinky >= 0
  }

  lemma SurvivesIff(n: int)
    requires n < INT_LIMIT
    ensures Arrives(Surviving(n), n) <==> n >= 0
  {
    if n >= 0 {
      ValueOfPrint(n);
    }
  }

  /** What goes over the wire, letter by letter. */
  lemma WireTexts(o: Output)
    ensures o.EmptyOutput? ==> EncodePacket(o) == "\n"
    ensures o.FetchInfo? ==> EncodePacket(o) == (if o.startStreaming then "(ZA)" else "") + (if o.getInfo then "Z" else "")
    ensures o.Haptic? ==> EncodePacket(o) == "F" + o.frequency + "G" + o.duration + "H" + o.amplitude + "\n"
    ensures o.ForceFeedback? ==> EncodePacket(o) == ForceFeedbackText(o.thumb as int, o.index as int, o.middle as int, o.ring as int, o.pinky as int)
  {
    hide PrintInt;
  }

  function ForceFeedbackText(thumb: int, index: int, middle: int, ring: int, pinky: int): string {
    "A" + PrintInt(thumb) + ("B" + PrintInt(index) + ("C" + PrintInt(middle) + ("D" + PrintInt(ring) + ("E" + PrintInt(pinky) + "\n"))))
  }
}
