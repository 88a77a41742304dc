/** The keys of the alpha encoding and their spelling on the wire (alpha_encoding_service). */
module AlphaKeys {

  datatype AlphaKey =
    | ThumbCurl | ThumbSplay
    | IndexCurl | IndexSplay
    | MiddleCurl | MiddleSplay
    | RingCurl | RingSplay
    | PinkyCurl | PinkySplay
    | ThumbJoint0 | ThumbJoint1 | ThumbJoint2 | ThumbJoint3
    | IndexJoint0 | IndexJoint1 | IndexJoint2 | IndexJoint3
    | MiddleJoint0 | MiddleJoint1 | MiddleJoint2 | MiddleJoint3
    | RingJoint0 | RingJoint1 | RingJoint2 | RingJoint3
    | PinkyJoint0 | PinkyJoint1 | PinkyJoint2 | PinkyJoint3
    | MainJoystickX | MainJoystickY | MainJoystickClick
    | TriggerValue | TriggerClick
    | AClick | BClick
    | GrabGesture | PinchGesture
    | MenuClick | CalibrationClick
    | Info | InfoFWVersion | InfoDeviceType | InfoHand
    | InfoStartStreaming | InfoStopStreaming
    | OutHapticFrequency | OutHapticDuration | OutHapticAmplitude
    | Max

  datatype KeyLookup = Unknown | Known(key: AlphaKey)

  /**
   The key with a given spelling: the source's table alpha_encoding_input_key_strings, which holds
   every spelling below and the empty string for Max.
   */
  function InputKey(name: string): KeyLookup {
    if |name| == 0 then Known(Max)
    else if |name| == 1 then PlainKey(name[0])
    else if |name| == 4 && name[0] == '(' && name[3] == ')' then PairKey(name[1], name[2])
    else if |name| == 5 && name[0] == '(' && name[2] == 'A' && name[4] == ')' then JointKey(name[1], name[3])
    else Unknown
  }

  function PlainKey(c: char): KeyLookup {
    match c
    case 'A' => Known(ThumbCurl)
    case 'B' => Known(IndexCurl)
    case 'C' => Known(MiddleCurl)
    case 'D' => Known(RingCurl)
    case 'E' => Known(PinkyCurl)
    case 'F' => Known(MainJoystickX)
    case 'G' => Known(MainJoystickY)
    case 'H' => Known(MainJoystickClick)
    case 'I' => Known(TriggerClick)
    case 'J' => Known(AClick)
    case 'K' => Known(BClick)
    case 'L' => Known(GrabGesture)
    case 'M' => Known(PinchGesture)
    case 'N' => Known(MenuClick)
    case 'O' => Known(CalibrationClick)
    case 'P' => Known(TriggerValue)
    case 'Z' => Known(Info)
    case _ => Unknown
  }

  /** The four-character spellings: "(AB)" to "(EB)", "(ZV)", "(ZG)" and "(ZH)". */
  function PairKey(c: char, d: char): KeyLookup {
    match (c, d)
    case ('A', 'B') => Known(ThumbSplay)
    case ('B', 'B') => Known(IndexSplay)
    case ('C', 'B') => Known(MiddleSplay)
    case ('D', 'B') => Known(RingSplay)
    case ('E', 'B') => Known(PinkySplay)
    case ('Z', 'V') => Known(InfoFWVersion)
    case ('Z', 'G') => Known(InfoDeviceType)
    case ('Z', 'H') => Known(InfoHand)
    case _ => Unknown
  }

  /** The five-character spellings: "(AAA)" to "(EAD)". */
  function JointKey(finger: char, joint: char): KeyLookup {
    match (finger, joint)
    case ('A', 'A') => Known(ThumbJoint0)
    case ('A', 'B') => Known(ThumbJoint1)
    case ('A', 'C') => Known(ThumbJoint2)
    case ('A', 'D') => Known(ThumbJoint3)
    case ('B', 'A') => Known(IndexJoint0)
    case ('B', 'B') => Known(IndexJoint1)
    case ('B', 'C') => Known(IndexJoint2)
    case ('B', 'D') => Known(IndexJoint3)
    case ('C', 'A') => Known(MiddleJoint0)
    case ('C', 'B') => Known(MiddleJoint1)
    case ('C', 'C') => Known(MiddleJoint2)
    case ('C', 'D') => Known(MiddleJoint3)
    case ('D', 'A') => Known(RingJoint0)
    case ('D', 'B') => Known(RingJoint1)
    case ('D', 'C') => Known(RingJoint2)
    case ('D', 'D') => Known(RingJoint3)
    case ('E', 'A') => Known(PinkyJoint0)
    case ('E', 'B') => Known(PinkyJoint1)
    case ('E', 'C') => Known(PinkyJoint2)
    case ('E', 'D') => Known(PinkyJoint3)
    case _ => Unknown
  }

  /** The keys of messages to the glove: the source's table alpha_encoding_output_key_strings. */
  function OutputKey(key: AlphaKey): string
    requires key in {Info, InfoStartStreaming, InfoStopStreaming, ThumbCurl, IndexCurl, MiddleCurl, RingCurl, PinkyCurl,
                     OutHapticFrequency, OutHapticDuration, OutHapticAmplitude}
  {
    match key
    case Info => "Z"
    case InfoStartStreaming => "(ZA)"
    case InfoStopStreaming => "(ZZ)"
    case ThumbCurl => "A"
    case IndexCurl => "B"
    case MiddleCurl => "C"
    case RingCurl => "D"
    case PinkyCurl => "E"
    case OutHapticFrequency => "F"
    case OutHapticDuration => "G"
    case OutHapticAmplitude => "H"
  }

  /** The enumerators that the source counts through, from ThumbJoint0 on. */
  const JOINT_KEYS: seq<AlphaKey> := [
    ThumbJoint0, ThumbJoint1, ThumbJoint2, ThumbJoint3,
    IndexJoint0, IndexJoint1, IndexJoint2, IndexJoint3,
    MiddleJoint0, MiddleJoint1, MiddleJoint2, MiddleJoint3,
    RingJoint0, RingJoint1, RingJoint2, RingJoint3,
    PinkyJoint0, PinkyJoint1, PinkyJoint2, PinkyJoint3]

  /** The key number k counted from ThumbJoint0: the cast of the decoder's joint counter. */
  function JointKeyAt(k: nat): AlphaKey
    requires k < 20
  {
    JOINT_KEYS[k]
  }

  const CURL_KEYS: seq<AlphaKey> := [ThumbCurl, IndexCurl, MiddleCurl, RingCurl, PinkyCurl]
  const SPLAY_KEYS: seq<AlphaKey> := [ThumbSplay, IndexSplay, MiddleSplay, RingSplay, PinkySplay]

  const FINGER_LETTERS := "ABCDE"

  /** The running joint counter of the decoder and the spelling of the keys agree, and so do curls and splays. */
  lemma WireNames(finger: nat, joint: nat)
    requires finger < 5 && joint < 4
    ensures InputKey(['(', FINGER_LETTERS[finger], 'A', FINGER_LETTERS[joint], ')']) == Known(JointKeyAt(4 * finger + joint))
    ensures InputKey([FINGER_LETTERS[finger]]) == Known(CURL_KEYS[finger])
    ensures InputKey(['(', FINGER_LETTERS[finger], 'B', ')']) == Known(SPLAY_KEYS[finger])
  {}

  predicate IsKeyCharacter(c: char) {
    'A' <= c <= 'Z' || c == '(' || c == ')'
  }

  /** A key as the scanner can read it: one character, or a parenthesis and key characters after it. */
  predicate Readable(key: string) {
    key != "" && (forall c <- key :: IsKeyCharacter(c)) && (key[0] == '(' || |key| == 1)
  }

  lemma TableIsReadable(key: string)
    requires InputKey(key).Known? && key != ""
    ensures Readable(key) && InputKey(key).key != Max
  {}
}
