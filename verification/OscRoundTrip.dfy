/** The decoder of the OSC format recovers every message and every bundle from its bytes. */
module OscRoundTrip {
  import opened NativeTypes
  import opened OscFormat
  import opened Texts

  // ----- words -----

  lemma ByteValueOf(n: nat)
    requires n < 0x100
    ensures ByteValue(n as char) == n
  {}

  lemma WordRoundTrip(w: uint32)
    ensures WordValue(WordBytes(w)) == w
  {
    var low := w as int;
    var mid := low / 0x100;
    var high := mid / 0x100;
    ByteValueOf(high / 0x100);
    ByteValueOf(high % 0x100);
    ByteValueOf(mid % 0x100);
    ByteValueOf(low % 0x100);
    hide ByteValue;
  }

  lemma DecodeOfWord(w: uint32, rest: string)
    ensures DecodeWord(WordBytes(w) + rest) == Parsed(w, rest)
  {
    WordRoundTrip(w);
    var s := WordBytes(w) + rest;
    assert s[0] == WordBytes(w)[0] && s[1] == WordBytes(w)[1] && s[2] == WordBytes(w)[2] && s[3] == WordBytes(w)[3];
    assert s[4..] == rest;
    hide WordBytes, ByteValue;
  }

  // ----- strings and blobs -----

  lemma {:induction false} TextLengthOf(t: CString, rest: string)
    ensures TextLength(t + "\0" + rest) == |t|
  {
    if t != "" {
      assert t[0] in t;
      assert (t + "\0" + rest)[1..] == t[1..] + "\0" + rest;
      TextLengthOf(t[1..], rest);
    }
  }

  lemma ZerosSplit(m: nat, n: nat)
    ensures Zeros(m + n) == Zeros(m) + Zeros(n)
  {
    if n > 0 {
      ZerosSplit(m, n - 1);
    } else {
      assert Zeros(m) + "" == Zeros(m);
    }
  }

  lemma OneZero()
    ensures Zeros(1) == "\0"
  {
    assert Zeros(0) == "";
  }

  lemma StringBytesAre(t: CString)
    ensures |t| + 1 <= RoundUp(|t| + 1)
    ensures StringBytes(t) == t + Zeros(RoundUp(|t| + 1) - |t|)
  {
    RoundUpIsMultiple(|t| + 1);
    hide *;
    var k := RoundUp(|t| + 1) - (|t| + 1);
    PadOfTerminated(t, k);
    TerminatedZeros(t, k);
  }

  lemma TerminatedZeros(t: string, k: nat)
    ensures t + "\0" + Zeros(k) == t + Zeros(1 + k)
  {
    hide *;
    ZerosSplit(1, k);
    OneZero();
    Regroup(t, "\0", Zeros(k));
  }

  lemma PadOfTerminated(t: CString, k: nat)
    requires k == RoundUp(|t| + 1) - (|t| + 1)
    ensures StringBytes(t) == t + "\0" + Zeros(k)
  {
    hide RoundUp, Zeros;
    assert |t + "\0"| == |t| + 1;
  }

  lemma DecodeOfString(t: CString, rest: string)
    ensures DecodeString(StringBytes(t) + rest) == Parsed(t, rest)
  {
    hide Zeros, StringBytes, TextLength, RoundUp;
    var n, k := |t|, RoundUp(|t| + 1) - |t|;
    StringBytesAre(t);
    Regroup(t, Zeros(k), rest);
    var s := t + (Zeros(k) + rest);
    PaddedTextLength(t, k, rest);
    assert s[n..n + k] == Zeros(k) && s[..n] == t && s[n + k..] == rest;
  }

  lemma PaddedTextLength(t: CString, k: nat, rest: string)
    requires k > 0
    ensures TextLength(t + (Zeros(k) + rest)) == |t|
  {
    hide Zeros, TextLength;
    ZerosSplit(1, k - 1);
    OneZero();
    var tail := Zeros(k - 1) + rest;
    Regroup("\0", Zeros(k - 1), rest);
    Regroup(t, "\0", tail);
    TextLengthOf(t, tail);
  }

  lemma DecodeOfBlob(data: string, rest: string)
    requires |data| < 0x8000_0000
    ensures DecodeBlob(WordBytes(|data| as uint32) + Pad(data) + rest) == Parsed(data, rest)
  {
    hide RoundUp, Zeros, DecodeWord, WordBytes;
    var n, k := |data|, RoundUp(|data|) - |data|;
    var tail := Pad(data) + rest;
    assert WordBytes(n as uint32) + Pad(data) + rest == WordBytes(n as uint32) + tail;
    DecodeOfWord(n as uint32, tail);
    assert tail == data + (Zeros(k) + rest);
    assert tail[n..n + k] == Zeros(k) && tail[..n] == data && tail[n + k..] == rest;
  }

  // ----- messages -----

  lemma DecodeOfArg(tag: char, a: Arg, rest: string)
    requires Describes(tag, a)
    ensures DecodeArg(tag, ArgBytes(a) + rest) == Parsed(a, rest)
  {
    hide DecodeWord, DecodeString, DecodeBlob, WordBytes, StringBytes, Pad;
    match a
    case Int(i) => DecodeOfWord(i, rest);
    case Float(bits) => DecodeOfWord(bits, rest);
    case Str(s) => DecodeOfString(s, rest);
    case Blob(data) => DecodeOfBlob(data, rest);
  }

  lemma {:induction false} DecodeOfArgs(tags: string, args: seq<Arg>, rest: string)
    requires Typed(tags, args)
    ensures DecodeArgs(tags, ArgsBytes(tags, args) + rest) == Parsed(args, rest)
  {
    hide DecodeArg, ArgBytes;
    if tags == "" {
      assert "" + rest == rest;
    } else if IsDataless(tags[0]) {
      DecodeOfArgs(tags[1..], args, rest);
    } else {
      var more := ArgsBytes(tags[1..], args[1..]);
      assert ArgsBytes(tags, args) + rest == ArgBytes(args[0]) + (more + rest);
      DecodeOfArg(tags[0], args[0], more + rest);
      DecodeOfArgs(tags[1..], args[1..], rest);
      assert args == [args[0]] + args[1..];
    }
  }

  lemma DecodeOfMessage(m: Message)
    requires WellFormed(m)
    ensures DecodeMessage(MessageBytes(m)) == Parsed(m, "")
  {
    hide DecodeString, DecodeArgs, StringBytes, ArgsBytes, Typed;
    var data := ArgsBytes(m.tags, m.args);
    var types: CString := "," + m.tags;
    assert MessageBytes(m) == StringBytes(m.address) + (StringBytes(types) + data);
    DecodeOfString(m.address, StringBytes(types) + data);
    DecodeOfString(types, data);
    DecodeOfArgs(m.tags, m.args, "");
    assert data + "" == data;
    assert types[1..] == m.tags;
  }

  // ----- sizes -----

  lemma RoundUpIsMultiple(n: nat)
    ensures Aligned(RoundUp(n)) && n <= RoundUp(n) < n + 4
  {}

  lemma ArgAligned(a: Arg)
    requires a.Blob? ==> |a.data| < 0x8000_0000
    ensures Aligned(|ArgBytes(a)|)
  {
    hide WordBytes, Zeros, RoundUp, Aligned;
    AlignedSum(0, 0);
    match a
    case Int(_) =>
    case Float(_) =>
    case Str(s) => RoundUpIsMultiple(|s + "\0"|);
    case Blob(data) =>
      RoundUpIsMultiple(|data|);
      AlignedSum(4, RoundUp(|data|));
  }

  lemma AlignedSum(m: nat, n: nat)
    ensures Aligned(0) && Aligned(4)
    ensures Aligned(m) && Aligned(n) ==> Aligned(m + n)
  {
    if Aligned(m) && Aligned(n) {
      FourTimes(m / 4 + n / 4);
    }
  }

  lemma FourTimes(k: nat)
    ensures Aligned(4 * k)
  {}

  lemma {:induction false} ArgsBytesAligned(tags: string, args: seq<Arg>)
    requires Typed(tags, args)
    ensures Aligned(|ArgsBytes(tags, args)|)
  {
    hide Aligned, ArgBytes;
    AlignedSum(0, 0);
    if tags == "" {
    } else if IsDataless(tags[0]) {
      ArgsBytesAligned(tags[1..], args);
    } else {
      ArgsBytesAligned(tags[1..], args[1..]);
      ArgAligned(args[0]);
      AlignedSum(|ArgBytes(args[0])|, |ArgsBytes(tags[1..], args[1..])|);
    }
  }

  lemma StringAligned(s: CString)
    ensures Aligned(|StringBytes(s)|)
  {
    RoundUpIsMultiple(|s + "\0"|);
    hide Aligned, RoundUp;
  }

  lemma MessageAligned(m: Message)
    requires Typed(m.tags, m.args)
    ensures Aligned(|MessageBytes(m)|)
  {
    hide Aligned, StringBytes, ArgsBytes;
    var types: CString := "," + m.tags;
    StringAligned(m.address);
    StringAligned(types);
    ArgsBytesAligned(m.tags, m.args);
    AlignedSum(|StringBytes(m.address)|, |StringBytes(types)|);
    AlignedSum(|StringBytes(m.address)| + |StringBytes(types)|, |ArgsBytes(m.tags, m.args)|);
  }

  // ----- bundles -----

  ghost predicate Sendable(m: Message) {
    WellFormed(m) && |MessageBytes(m)| < 0x1_0000_0000
  }

  ghost function ElementsBytes(ms: seq<Message>): string
    requires forall m <- ms :: Sendable(m)
  {
    if ms == [] then ""
    else
      assert Sendable(ms[0]);
      ElementBytes(ms[0]) + ElementsBytes(ms[1..])
  }

  lemma {:induction false} DecodeOfElements(ms: seq<Message>)
    requires forall m <- ms :: Sendable(m)
    ensures DecodeElements(ElementsBytes(ms)) == Parsed(ms, "")
  {
    if ms == [] {
    } else {
      var m, more := ms[0], ms[1..];
      FirstElement(ms);
      hide DecodeElements, ElementsBytes, ElementBytes, Sendable;
      DecodeOfElements(more);
      DecodeFirstElement(m, ElementsBytes(more), more);
    }
  }

  lemma FirstElement(ms: seq<Message>)
    requires ms != [] && forall m <- ms :: Sendable(m)
    ensures Sendable(ms[0]) && (forall m <- ms[1..] :: Sendable(m)) && ms == [ms[0]] + ms[1..]
    ensures ElementsBytes(ms) == ElementBytes(ms[0]) + ElementsBytes(ms[1..])
  {
    hide ElementBytes, Sendable;
  }

  lemma DecodeFirstElement(m: Message, rest: string, more: seq<Message>)
    requires Sendable(m)
    requires DecodeElements(rest) == Parsed(more, "")
    ensures DecodeElements(ElementBytes(m) + rest) == Parsed([m] + more, "")
  {
    var bytes, size := MessageBytes(m), |MessageBytes(m)| as uint32;
    MessageAligned(m);
    DecodeOfMessage(m);
    DecodeOfWord(size, bytes + rest);
    hide Aligned, DecodeWord, DecodeMessage, MessageBytes, WordBytes, WellFormed;
    Regroup(WordBytes(size), bytes, rest);
    assert (bytes + rest)[..|bytes|] == bytes && (bytes + rest)[|bytes|..] == rest;
  }

  ghost function BundleBytes(ms: seq<Message>): string
    requires forall m <- ms :: Sendable(m)
  {
    BUNDLE_HEADER + ElementsBytes(ms)
  }

  /** A bundle decodes to exactly its messages, in order. */
  lemma DecodeOfBundle(ms: seq<Message>)
    requires forall m <- ms :: Sendable(m)
    ensures DecodeBundle(BundleBytes(ms)) == Parsed(ms, "")
  {
    DecodeOfElements(ms);
    DecodeBehindHeader(ElementsBytes(ms));
    hide DecodeBundle, DecodeElements, ElementsBytes;
  }

  // ----- bundles that stop at a size word of zero -----

  const ZERO_WORD := "\0\0\0\0"

  lemma NoEmptyElement(tail: string)
    ensures DecodeElements(ZERO_WORD + tail) == Malformed
  {
    var s := ZERO_WORD + tail;
    ByteValueOf(0);
    assert s[0] == s[1] == s[2] == s[3] == '\0' && s[4..] == tail;
    assert DecodeWord(s) == Parsed(0, tail);
    NoEmptyMessage();
    assert tail[..0] == "";
    hide DecodeMessage, DecodeWord;
  }

  lemma NoEmptyMessage()
    ensures DecodeMessage("") == Malformed
  {
    assert RoundUp(1) == 4;
  }

  lemma MalformedBehind(m: Message, rest: string)
    requires Sendable(m)
    requires DecodeElements(rest) == Malformed
    ensures DecodeElements(ElementBytes(m) + rest) == Malformed
  {
    var bytes, size := MessageBytes(m), |MessageBytes(m)| as uint32;
    DecodeOfWord(size, bytes + rest);
    hide Aligned, DecodeWord, DecodeMessage, MessageBytes, WordBytes, WellFormed;
    Regroup(WordBytes(size), bytes, rest);
    assert (bytes + rest)[|bytes|..] == rest;
  }

  lemma {:induction false} ElementsStopAtZeroWord(ms: seq<Message>, tail: string)
    requires forall m <- ms :: Sendable(m)
    ensures DecodeElements(ElementsBytes(ms) + (ZERO_WORD + tail)) == Malformed
  {
    if ms == [] {
      NoEmptyElement(tail);
      assert "" + (ZERO_WORD + tail) == ZERO_WORD + tail;
      hide DecodeElements;
    } else {
      FirstElement(ms);
      hide DecodeElements, ElementsBytes, ElementBytes, Sendable;
      ElementsStopAtZeroWord(ms[1..], tail);
      Regroup(ElementBytes(ms[0]), ElementsBytes(ms[1..]), ZERO_WORD + tail);
      MalformedBehind(ms[0], ElementsBytes(ms[1..]) + (ZERO_WORD + tail));
    }
  }

  lemma DecodeStopsAtZeroWord(ms: seq<Message>, tail: string)
    requires forall m <- ms :: Sendable(m)
    ensures DecodeBundle(BundleBytes(ms) + (ZERO_WORD + tail)) == Malformed
  {
    ElementsStopAtZeroWord(ms, tail);
    hide *;
    BundleIsHeaded(ms);
    var more := ElementsBytes(ms) + (ZERO_WORD + tail);
    DecodeBehindHeader(more);
    Regroup(BUNDLE_HEADER, ElementsBytes(ms), ZERO_WORD + tail);
  }

  lemma BundleIsHeaded(ms: seq<Message>)
    requires forall m <- ms :: Sendable(m)
    ensures BundleBytes(ms) == BUNDLE_HEADER + ElementsBytes(ms)
  {
    hide ElementsBytes;
  }

  lemma DecodeBehindHeader(more: string)
    ensures DecodeBundle(BUNDLE_HEADER + more) == DecodeElements(more)
  {
    hide DecodeElements;
    var s := BUNDLE_HEADER + more;
    assert |BUNDLE_HEADER| == 16;
    assert s[16..] == more;
    assert s[..8] == "#bundle\0";
  }
}
