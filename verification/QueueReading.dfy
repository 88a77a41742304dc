/**
 What the scanner reads from a queue of any outputs, written in one piece.

 A request for streaming ends in a parenthesised key without a value, and nothing separates it from
 what is queued next: it swallows the thumb key of a force-feedback message right behind it.
 */
module QueueReading {
  import opened AlphaKeys
  import opened AlphaParser
  import opened Decimal
  import opened AlphaEncoder
  import opened CommunicationManager
  import opened Texts

  // ----- curl keys -----

  const NOTHING: map<AlphaKey, string> := map[]

  function CurlPart(m: map<AlphaKey, string>): map<AlphaKey, string> {
    map key | key in m && IsCurlKey(key) :: m[key]
  }

  lemma CurlPartOfSum(a: map<AlphaKey, string>, b: map<AlphaKey, string>)
    ensures CurlPart(a + b) == CurlPart(a) + CurlPart(b)
  {}

  /** Curl keys are spelled with one letter. */
  lemma LongKeysAreNoCurls(t: Token)
    requires |t.key| > 1 || (|t.key| == 1 && !('A' <= t.key[0] <= 'E'))
    ensures CurlPart(Store(t)) == map[]
  {}

  lemma CurlPartOfTokens(t: Token, more: seq<Token>)
    ensures CurlPart(Assign([t] + more)) == CurlPart(Store(t)) + CurlPart(Assign(more))
  {
    assert ([t] + more)[1..] == more;
    hide Store, InputKey;
    CurlPartOfSum(Store(t), Assign(more));
  }

  predicate WithoutCurlLetters(s: string) {
    forall c <- s :: !('A' <= c <= 'E')
  }

  lemma SuffixWithoutCurlLetters(s: string, i: nat)
    requires WithoutCurlLetters(s) && i <= |s|
    ensures WithoutCurlLetters(s[i..])
  {
    forall c <- s[i..] ensures c in s {}
  }

  lemma NothingFirst(t: Token, more: seq<Token>)
    requires CurlPart(Store(t)) == map[] && CurlPart(Assign(more)) == map[]
    ensures CurlPart(Assign([t] + more)) == map[]
  {
    hide CurlPart, Store, Assign;
    CurlPartOfTokens(t, more);
    assert NOTHING + NOTHING == NOTHING;
  }

  lemma {:induction false} NoCurlLetters(s: string)
    requires WithoutCurlLetters(s)
    ensures CurlPart(Parse(s)) == map[]
  {
    if s == "" {
      NoTokens();
    } else if !IsKeyCharacter(s[0]) {
      SkipToken(s);
      SuffixWithoutCurlLetters(s, 1);
      NoCurlLetters(s[1..]);
    } else {
      var k, d := KeyLength(s), DigitRun(s[KeyLength(s)..]);
      var t := Token(s[..k], s[k..k + d]);
      assert s[0] in s && t.key[0] == s[0];
      hide Tokens, InputKey, Assign, Store, CurlPart, KeyLength, DigitRun;
      UnfoldTokens(s);
      SuffixWithoutCurlLetters(s, k + d);
      NoCurlLetters(s[k + d..]);
      LongKeysAreNoCurls(t);
      NothingFirst(t, Tokens(s[k + d..]));
    }
  }

  // ----- pending requests -----

  /** The text of requests that nothing has ended yet, the first of which asks for streaming. */
  predicate Pending(p: string) {
    p == "" || (|p| >= 4 && p[0] == '(' && AllKeyCharacters(p))
  }

  lemma PendingAlone(p: string)
    requires Pending(p)
    ensures CurlPart(Parse(p)) == map[]
  {
    if p == "" {
      NoTokens();
    } else {
      TokensOfKey(p);
      LongKeysAreNoCurls(Token(p, ""));
      hide Tokens, InputKey;
      CurlPartOfTokens(Token(p, ""), []);
      assert [Token(p, "")] + [] == [Token(p, "")];
    }
  }

  /** How a text is scanned that starts with a pending request. */
  lemma PendingSwallows(p: string, s: string)
    requires Pending(p) && p != ""
    ensures var r := KeyRun(s);
      var d := DigitRun(s[r..]);
      Tokens(p + s) == [Token(p + s[..r], s[r..r + d])] + Tokens(s[r + d..])
  {
    hide *;
    var r := KeyRun(s);
    PendingIsKeys(p);
    ParenthesisedKeyLength(p, s);
    SlicesBehind(p, s, r, DigitRun(s[r..]));
    UnfoldTokensAt(p + s, |p| + r, DigitRun(s[r..]));
  }

  lemma PendingIsKeys(p: string)
    requires Pending(p) && p != ""
    ensures AllKeyCharacters(p) && p[0] == '('
  {}

  lemma SlicesBehind(p: string, s: string, r: nat, d: nat)
    requires r + d <= |s|
    ensures var t, k := p + s, |p| + r;
      && t[..k] == p + s[..r] && t[k..] == s[r..] && t[k..k + d] == s[r..r + d] && t[k + d..] == s[r + d..]
  {}

  lemma PendingBefore(p: string, s: string)
    requires Pending(p) && p != "" && WithoutCurlLetters(s)
    ensures CurlPart(Parse(p + s)) == map[]
  {
    hide Tokens, InputKey, Assign, Store, CurlPart, KeyRun, DigitRun;
    var r := KeyRun(s);
    var d := DigitRun(s[r..]);
    PendingSwallows(p, s);
    SuffixWithoutCurlLetters(s, r + d);
    NoCurlLetters(s[r + d..]);
    LongKeysAreNoCurls(Token(p + s[..r], s[r..r + d]));
    NothingFirst(Token(p + s[..r], s[r..r + d]), Tokens(s[r + d..]));
  }

  // ----- the messages of a queue -----

  /** What %.2f prints has none of the letters A to E; not for infinities and NaNs either, which are lower-case words. */
  predicate IsPrinted(o: Output) {
    o.Haptic? ==> WithoutCurlLetters(o.frequency) && WithoutCurlLetters(o.duration) && WithoutCurlLetters(o.amplitude)
  }

  /** A queued force-feedback message, and whether a request for streaming is pending in front of it. */
  datatype Sent = Sent(message: Output, swallowed: bool)

  function SentOf(os: seq<Output>, pending: bool): (ss: seq<Sent>)
    ensures forall x <- ss :: x.message.ForceFeedback?
  {
    if os == [] then []
    else
      match os[0]
      case FetchInfo(startStreaming, _) => SentOf(os[1..], pending || startStreaming)
      case ForceFeedback(_, _, _, _, _) => [Sent(os[0], pending)] + SentOf(os[1..], false)
      case _ => SentOf(os[1..], false)
  }

  /** The five curls of a message, negative numbers emptied. */
  function Curls(o: Output): map<AlphaKey, string>
    requires o.ForceFeedback?
  {
    CurlMap(Surviving(o.thumb as int), Surviving(o.index as int), Surviving(o.middle as int), Surviving(o.ring as int), Surviving(o.pinky as int))
  }

  function Told(ss: seq<Sent>): map<AlphaKey, string>
    requires forall x <- ss :: x.message.ForceFeedback?
  {
    if ss == [] then map[]
    else
      assert ss[0] in ss;
      (if ss[0].swallowed then Curls(ss[0].message) - {ThumbCurl} else Curls(ss[0].message)) + Told(ss[1..])
  }

  lemma ParseOfFourFields(o: Output)
    requires o.ForceFeedback?
    ensures var rest := BehindThumb(o);
      EncodePacket(o) == Field(ThumbCurl, o.thumb as int, rest) && Parse(rest) == Curls(o) - {ThumbCurl} && DigitRun(rest) == 0
  {
    var (i, m, r, p) := (Surviving(o.index as int), Surviving(o.middle as int), Surviving(o.ring as int), Surviving(o.pinky as int));
    EncodedFields(o);
    FourIsUnion(Surviving(o.thumb as int), i, m, r, p);
    hide Parse, Surviving, EncodePacket, Field, DigitRun, CurlMap;
    NewlineAlone();
    var r4 := Field(PinkyCurl, o.pinky as int, "\n");
    var r3 := Field(RingCurl, o.ring as int, r4);
    var r2 := Field(MiddleCurl, o.middle as int, r3);
    ParseOfField(PinkyCurl, o.pinky as int, "\n");
    ParseOfField(RingCurl, o.ring as int, r4);
    ParseOfField(MiddleCurl, o.middle as int, r3);
    ParseOfField(IndexCurl, o.index as int, r2);
  }

  /** A force-feedback message without its first field. */
  function BehindThumb(o: Output): string
    requires o.ForceFeedback?
  {
    Field(IndexCurl, o.index as int, Field(MiddleCurl, o.middle as int, Field(RingCurl, o.ring as int, Field(PinkyCurl, o.pinky as int, "\n"))))
  }

  lemma FourIsUnion(t: string, i: string, m: string, r: string, p: string)
    ensures map[IndexCurl := i] + (map[MiddleCurl := m] + (map[RingCurl := r] + (map[PinkyCurl := p] + map[])))
         == CurlMap(t, i, m, r, p) - {ThumbCurl}
  {}

  lemma CurlsAreCurls(o: Output)
    requires o.ForceFeedback?
    ensures CurlPart(Curls(o)) == Curls(o) && CurlPart(Curls(o) - {ThumbCurl}) == Curls(o) - {ThumbCurl}
  {
    hide Surviving;
  }

  lemma SwallowingKey(p: string, key: string)
    requires Pending(p) && p != "" && key == p + OutputKey(ThumbCurl)
    ensures Readable(key) && |key| > 1
  {
    forall c <- key ensures IsKeyCharacter(c) {
      if c !in p {
        assert c in OutputKey(ThumbCurl);
      }
    }
  }

  lemma SwallowedText(p: string, o: Output)
    requires o.ForceFeedback?
    ensures p + EncodePacket(o) == p + OutputKey(ThumbCurl) + PrintInt(o.thumb as int) + BehindThumb(o)
  {
    ParseOfFourFields(o);
    hide EncodePacket, BehindThumb, PrintInt, Parse, Curls;
  }

  lemma TokensOfSwallowed(key: string, n: int, rest: string)
    requires Readable(key) && |key| > 1 && DigitRun(rest) == 0
    ensures CurlPart(Parse(key + PrintInt(n) + rest)) == CurlPart(Parse(rest))
  {
    hide Tokens, InputKey, Assign, Store, CurlPart, Surviving, DigitRun, PrintInt, Readable;
    var t := Token(key, Surviving(n));
    NumberAfterKey(key, n, rest);
    LongKeysAreNoCurls(t);
    CurlPartOfTokens(t, Tokens(rest));
    assert NOTHING + CurlPart(Parse(rest)) == CurlPart(Parse(rest));
  }

  lemma SwallowedMessage(p: string, o: Output)
    requires Pending(p) && p != "" && o.ForceFeedback?
    ensures CurlPart(Parse(p + EncodePacket(o))) == Curls(o) - {ThumbCurl}
  {
    hide *;
    ParseOfFourFields(o);
    SwallowedText(p, o);
    SwallowingKey(p, p + OutputKey(ThumbCurl));
    TokensOfSwallowed(p + OutputKey(ThumbCurl), o.thumb as int, BehindThumb(o));
    CurlsAreCurls(o);
  }

  lemma WholeMessage(o: Output)
    requires o.ForceFeedback?
    ensures CurlPart(Parse(EncodePacket(o))) == Curls(o)
  {
    ParseOfForceFeedback(o);
    hide Parse, EncodePacket;
    CurlsAreCurls(o);
  }

  lemma HapticHasNoCurlLetters(o: Output)
    requires o.Haptic? && IsPrinted(o)
    ensures WithoutCurlLetters(EncodePacket(o)) && EncodePacket(o) != "" && EncodePacket(o)[|EncodePacket(o)| - 1] == '\n'
  {
    WireTexts(o);
    hide EncodePacket;
    var (f, d, a) := (o.frequency, o.duration, o.amplitude);
    WithoutCurlLettersBoth("F", f);
    WithoutCurlLettersBoth("F" + f, "G");
    WithoutCurlLettersBoth("F" + f + "G", d);
    WithoutCurlLettersBoth("F" + f + "G" + d, "H");
    WithoutCurlLettersBoth("F" + f + "G" + d + "H", a);
    WithoutCurlLettersBoth("F" + f + "G" + d + "H" + a, "\n");
    hide WithoutCurlLetters;
  }

  lemma WithoutCurlLettersBoth(a: string, b: string)
    ensures WithoutCurlLetters(a) && WithoutCurlLetters(b) ==> WithoutCurlLetters(a + b)
  {}

  /** A text that ends in a newline is scanned on its own. */
  lemma BehindNewline(s: string, rest: string)
    requires s != "" && s[|s| - 1] == '\n'
    ensures Parse(s + rest) == Parse(s) + Parse(rest)
  {
    var body := s[..|s| - 1];
    assert s == body + "\n";
    hide Parse;
    ParseAcrossNewline(body, rest);
  }

  // ----- the whole queue -----

  predicate AllPrinted(os: seq<Output>) {
    forall o <- os :: IsPrinted(o)
  }

  lemma QueueStart(os: seq<Output>)
    ensures os != [] ==> Encodings(os) == EncodePacket(os[0]) + Encodings(os[1..])
    ensures os == [] ==> Encodings(os) == ""
    ensures os != [] && AllPrinted(os) ==> IsPrinted(os[0]) && AllPrinted(os[1..])
  {
    hide EncodePacket, IsPrinted;
  }

  lemma OutputStart(o: Output)
    ensures EncodePacket(o) != "" ==> !IsDigit(EncodePacket(o)[0])
  {
    if o.ForceFeedback? {
      EncodedFields(o);
      CurlKeyRoundTrip(ThumbCurl);
    }
    hide PrintInt;
  }

  lemma {:induction false} NoDigitsFirst(os: seq<Output>)
    ensures DigitRun(Encodings(os)) == 0
  {
    if os != [] {
      var e := EncodePacket(os[0]);
      OutputStart(os[0]);
      NoDigitsFirst(os[1..]);
      hide EncodePacket;
      if e == "" {
        assert e + Encodings(os[1..]) == Encodings(os[1..]);
      } else {
        assert (e + Encodings(os[1..]))[0] == e[0];
      }
    }
  }

  lemma PlainRequest(rest: string)
    requires DigitRun(rest) == 0
    ensures CurlPart(Parse("Z" + rest)) == CurlPart(Parse(rest))
  {
    hide *;
    var t := Token("Z", "");
    PlainRequestToken(t, rest);
    FirstToken(t, rest);
    LongKeysAreNoCurls(t);
    CurlPartOfTokens(t, Tokens(rest));
    ParseIs("Z" + rest);
    ParseIs(rest);
    NothingAdds(CurlPart(Parse(rest)));
  }

  lemma PlainRequestToken(t: Token, rest: string)
    requires t == Token("Z", "")
    ensures Printable(t) && !RunsOn(t) && |t.key| == 1 && t.key[0] == 'Z' && t.key + t.value + rest == "Z" + rest
  {}

  lemma NothingAdds(m: map<AlphaKey, string>)
    ensures NOTHING == map[] && NOTHING + m == m
  {}

  lemma ParseIs(s: string)
    ensures Parse(s) == Assign(Tokens(s))
  {}

  lemma RequestText(o: Output, p: string)
    requires o.FetchInfo? && Pending(p)
    ensures p != "" || o.startStreaming ==> Pending(p + EncodePacket(o)) && p + EncodePacket(o) != ""
    ensures !o.startStreaming ==> EncodePacket(o) == if o.getInfo then "Z" else ""
  {}

  /** Curl keys of a text that begins with a message's own part. */
  lemma ToldStep(p: string, o: Output, rest: string)
    requires Pending(p) && IsPrinted(o) && !o.FetchInfo?
    ensures CurlPart(Parse(p + EncodePacket(o) + rest)) ==
      (if !o.ForceFeedback? then NOTHING else if p != "" then Curls(o) - {ThumbCurl} else Curls(o)) + CurlPart(Parse(rest))
  {
    hide Parse, CurlPart, Curls, EncodePacket, Pending, IsPrinted;
    var s := p + EncodePacket(o);
    assert p == "" ==> s == EncodePacket(o);
    EndOfOutput(o);
    assert s != "" && s[|s| - 1] == '\n';
    BehindNewline(s, rest);
    CurlPartOfSum(Parse(s), Parse(rest));
    match o
    case ForceFeedback(_, _, _, _, _) =>
      if p != "" { SwallowedMessage(p, o); } else { WholeMessage(o); }
    case Haptic(_, _, _) =>
      HapticHasNoCurlLetters(o);
      if p != "" { PendingBefore(p, EncodePacket(o)); } else { NoCurlLetters(EncodePacket(o)); }
    case EmptyOutput =>
      EmptyText(o);
      if p != "" { PendingBefore(p, EncodePacket(o)); } else { NoCurlLetters(EncodePacket(o)); }
  }

  lemma EmptyText(o: Output)
    requires o.EmptyOutput?
    ensures EncodePacket(o) == "\n" && WithoutCurlLetters(EncodePacket(o))
  {}

  lemma EndOfOutput(o: Output)
    requires IsPrinted(o) && !o.FetchInfo?
    ensures EncodePacket(o) != "" && EncodePacket(o)[|EncodePacket(o)| - 1] == '\n'
  {
    match o
    case ForceFeedback(_, _, _, _, _) => EndsWithNewline(o);
    case Haptic(_, _, _) => HapticHasNoCurlLetters(o);
    case EmptyOutput =>
  }

  /** The curl keys the scanner reads from a queue are those its messages tell. */
  lemma {:induction false} QueueTells(p: string, os: seq<Output>)
    requires Pending(p) && AllPrinted(os)
    ensures CurlPart(Parse(p + Encodings(os))) == Told(SentOf(os, p != ""))
    decreases |os|
  {
    QueueStart(os);
    if os == [] {
      assert p + "" == p;
      PendingAlone(p);
      hide Parse, CurlPart, Pending;
    } else {
      var o, rest := os[0], Encodings(os[1..]);
      hide Parse, CurlPart, Curls, EncodePacket, Pending, IsPrinted, Encodings, AllPrinted;
      Regroup(p, EncodePacket(o), rest);
      if o.FetchInfo? {
        RequestText(o, p);
        if p != "" || o.startStreaming {
          QueueTells(p + EncodePacket(o), os[1..]);
        } else {
          NothingPending();
          QueueTells("", os[1..]);
          NoDigitsFirst(os[1..]);
          PlainRequest(rest);
          assert "" + rest == rest && "" + EncodePacket(o) + rest == EncodePacket(o) + rest;
        }
      } else {
        NothingPending();
        QueueTells("", os[1..]);
        assert "" + rest == rest;
        ToldStep(p, o, rest);
        ToldOfMessage(os, p != "");
      }
    }
  }

  lemma NothingPending()
    ensures Pending("")
  {}

  lemma ToldOfMessage(os: seq<Output>, pending: bool)
    requires os != [] && !os[0].FetchInfo?
    ensures Told(SentOf(os, pending)) ==
      (if !os[0].ForceFeedback? then NOTHING else if pending then Curls(os[0]) - {ThumbCurl} else Curls(os[0]))
      + Told(SentOf(os[1..], false))
  {
    hide Curls;
    var more := SentOf(os[1..], false);
    if os[0].ForceFeedback? {
      assert ([Sent(os[0], pending)] + more)[1..] == more;
    } else {
      assert NOTHING + Told(more) == Told(more);
    }
  }

  // ----- when the glove is told the last message -----

  /** The last message whose thumb key is not swallowed, or -1. */
  function LastWhole(ss: seq<Sent>): (k: int)
    ensures -1 <= k < |ss|
    ensures k >= 0 ==> !ss[k].swallowed
    ensures forall j :: k < j < |ss| ==> ss[j].swallowed
  {
    if ss == [] then -1
    else
      var k := LastWhole(ss[1..]);
      assert forall j :: 0 < j < |ss| ==> ss[j] == ss[1..][j - 1];
      if k >= 0 then k + 1 else if ss[0].swallowed then -1 else 0
  }

  lemma {:induction false} FourTold(ss: seq<Sent>)
    requires ss != [] && forall x <- ss :: x.message.ForceFeedback?
    ensures Told(ss) - {ThumbCurl} == Curls(ss[|ss| - 1].message) - {ThumbCurl}
  {
    var more := ss[1..];
    var first, last := ss[0].message, ss[|ss| - 1].message;
    assert ss[0] in ss && ss[|ss| - 1] in ss;
    CurlKeysOf(first);
    CurlKeysOf(last);
    hide Curls;
    if more != [] {
      assert more[|more| - 1] == ss[|ss| - 1];
      FourTold(more);
      hide Told;
      FourOf(Curls(first), Told(more), Curls(last));
      FourOf(Curls(first) - {ThumbCurl}, Told(more), Curls(last));
      ToldFirst(ss);
    } else {
      assert Told(more) == map[];
      NothingLater(Curls(first));
      NothingLater(Curls(first) - {ThumbCurl});
    }
  }

  lemma ToldFirst(ss: seq<Sent>)
    requires ss != [] && forall x <- ss :: x.message.ForceFeedback?
    ensures ss[0] in ss
    ensures Told(ss) == (if ss[0].swallowed then Curls(ss[0].message) - {ThumbCurl} else Curls(ss[0].message)) + Told(ss[1..])
  {
    assert ss[0] in ss;
    hide Curls;
  }

  lemma NothingLater(m: map<AlphaKey, string>)
    ensures m + map[] == m && m - {ThumbCurl} - {ThumbCurl} == m - {ThumbCurl}
  {}

  /** What comes later decides the other four curls. */
  lemma FourOf(a: map<AlphaKey, string>, b: map<AlphaKey, string>, c: map<AlphaKey, string>)
    requires b - {ThumbCurl} == c - {ThumbCurl} && a.Keys <= c.Keys
    ensures (a + b) - {ThumbCurl} == c - {ThumbCurl}
  {
    var four := c - {ThumbCurl};
    forall k | k in a && k != ThumbCurl ensures k in b {
      assert k in four && k in b - {ThumbCurl};
    }
    assert (a + b) - {ThumbCurl} == b - {ThumbCurl};
  }

  lemma CurlKeysOf(o: Output)
    requires o.ForceFeedback?
    ensures Curls(o).Keys == {ThumbCurl, IndexCurl, MiddleCurl, RingCurl, PinkyCurl} && Curls(o)[ThumbCurl] == Surviving(o.thumb as int)
  {
    hide Surviving;
  }

  lemma {:induction false} ThumbTold(ss: seq<Sent>)
    requires forall x <- ss :: x.message.ForceFeedback?
    ensures ThumbCurl in Told(ss) <==> LastWhole(ss) >= 0
    ensures LastWhole(ss) >= 0 ==>
      ss[LastWhole(ss)] in ss && Told(ss)[ThumbCurl] == Surviving(ss[LastWhole(ss)].message.thumb as int)
  {
    if ss != [] {
      assert ss[0] in ss;
      CurlKeysOf(ss[0].message);
      hide Curls, Surviving;
      ThumbTold(ss[1..]);
    }
  }

  /** The text sent for the thumb of a message. */
  predicate SameThumb(a: Output, b: Output) {
    a.ForceFeedback? && b.ForceFeedback? && Surviving(a.thumb as int) == Surviving(b.thumb as int)
  }

  lemma ToldIsLastIff(ss: seq<Sent>)
    requires ss != [] && forall x <- ss :: x.message.ForceFeedback?
    ensures var last := ss[|ss| - 1].message;
      Told(ss) == Curls(last) <==> LastWhole(ss) >= 0 && SameThumb(ss[LastWhole(ss)].message, last)
  {
    var last := ss[|ss| - 1].message;
    assert ss[|ss| - 1] in ss;
    FourTold(ss);
    ThumbTold(ss);
    CurlKeysOf(last);
    hide Told, Curls, Surviving, LastWhole;
    SplitByThumb(Told(ss), Curls(last));
  }

  lemma SplitByThumb(a: map<AlphaKey, string>, b: map<AlphaKey, string>)
    requires a - {ThumbCurl} == b - {ThumbCurl} && ThumbCurl in b
    ensures a == b <==> ThumbCurl in a && a[ThumbCurl] == b[ThumbCurl]
  {
    if ThumbCurl in a && a[ThumbCurl] == b[ThumbCurl] {
      assert a == (a - {ThumbCurl})[ThumbCurl := a[ThumbCurl]];
      assert b == (b - {ThumbCurl})[ThumbCurl := b[ThumbCurl]];
    }
  }

  /**
   From a queue of any outputs, the glove reads the curls of the last force-feedback message if and only
   if the last message that no request for streaming is pending in front of has the same thumb; the
   other four curls are always the last message's.
   */
  lemma QueueTellsLastIff(os: seq<Output>)
    requires AllPrinted(os) && SentOf(os, false) != []
    ensures var ss := SentOf(os, false);
      var last, told := ss[|ss| - 1].message, CurlPart(Parse(Encodings(os)));
      && last.ForceFeedback?
      && told - {ThumbCurl} == Curls(last) - {ThumbCurl}
      && (told == Curls(last) <==> LastWhole(ss) >= 0 && SameThumb(ss[LastWhole(ss)].message, last))
      && (!ss[|ss| - 1].swallowed ==> told == Curls(last))
  {
    hide *;
    var ss := SentOf(os, false);
    assert ss[|ss| - 1] in ss;
    NothingPending();
    QueueTells("", os);
    assert "" + Encodings(os) == Encodings(os);
    FourTold(ss);
    ToldIsLastIff(ss);
    WholeAtEnd(ss);
  }

  /** A request for streaming in front of one force-feedback message: the thumb is lost, whatever the message. */
  lemma RequestLosesThumb(o: Output, getInfo: bool)
    requires o.ForceFeedback?
    ensures CurlPart(Parse(Encodings([FetchInfo(true, getInfo), o]))) == Curls(o) - {ThumbCurl} != Curls(o)
  {
    var os := [FetchInfo(true, getInfo), o];
    assert os[1..] == [o] && [o][1..] == [];
    assert SentOf([o], true) == [Sent(o, true)] + SentOf([], false) == [Sent(o, true)];
    assert SentOf(os, false) == SentOf([o], true);
    CurlKeysOf(o);
    NothingPending();
    QueueTells("", os);
    assert "" + Encodings(os) == Encodings(os);
    hide Parse, CurlPart, Curls, Encodings, SentOf;
    assert [Sent(o, true)][1..] == [];
    NothingLater(Curls(o) - {ThumbCurl});
    assert ThumbCurl !in Curls(o) - {ThumbCurl};
  }

  lemma WholeAtEnd(ss: seq<Sent>)
    requires ss != [] && ss[|ss| - 1].message.ForceFeedback?
    ensures !ss[|ss| - 1].swallowed ==> LastWhole(ss) == |ss| - 1
    ensures SameThumb(ss[|ss| - 1].message, ss[|ss| - 1].message)
  {
    hide LastWhole, Surviving;
  }

  // ----- writes of the communication thread -----

  lemma {:induction false} EncodingsConcat(a: seq<Output>, b: seq<Output>)
    ensures Encodings(a + b) == Encodings(a) + Encodings(b)
  {
    hide EncodePacket;
    if a == [] {
      assert a + b == b;
    } else {
      assert (a + b)[1..] == a[1..] + b;
      EncodingsConcat(a[1..], b);
      Regroup(EncodePacket(a[0]), Encodings(a[1..]), Encodings(b));
    }
  }

  /** What is written by the pass number k, as outputs: the newline of a pass is an empty output. */
  function WrittenOutputs(initial: seq<Output>, ps: seq<Pass>, k: nat): seq<Output>
    requires k < |ps|
  {
    (if k == 0 then initial else []) + (ps[k].whileReceiving + ([EmptyOutput] + ps[k].beforeWrite))
  }

  lemma WrittenText(initial: seq<Output>, ps: seq<Pass>, k: nat)
    requires k < |Writes(Encodings(initial), ps)|
    ensures k < |ps| && Writes(Encodings(initial), ps)[k] == Encodings(WrittenOutputs(initial, ps, k))
  {
    WritesArePasses(Encodings(initial), ps, k);
    var p := ps[k];
    OneOutput(EmptyOutput);
    assert EncodePacket(EmptyOutput) == "\n" && Encodings([]) == "";
    hide Encodings, Writes, EncodePacket;
    EncodingsConcat([EmptyOutput], p.beforeWrite);
    EncodingsConcat(p.whileReceiving, [EmptyOutput] + p.beforeWrite);
    EncodingsConcat(if k == 0 then initial else [], p.whileReceiving + ([EmptyOutput] + p.beforeWrite));
  }

  lemma OneOutput(o: Output)
    ensures Encodings([o]) == EncodePacket(o)
  {
    hide EncodePacket;
    assert EncodePacket(o) + "" == EncodePacket(o);
  }

  /** Every write of a run, whatever outputs were queued for it, tells the glove the last of the force feedback under the same condition. */
  lemma EveryWriteTellsLastOutputIff(initial: seq<Output>, ps: seq<Pass>, k: nat)
    requires k < |Writes(Encodings(initial), ps)| && k < |ps|
    requires AllPrinted(WrittenOutputs(initial, ps, k)) && SentOf(WrittenOutputs(initial, ps, k), false) != []
    ensures var ss := SentOf(WrittenOutputs(initial, ps, k), false);
      var last, told := ss[|ss| - 1].message, CurlPart(Parse(Writes(Encodings(initial), ps)[k]));
      && last.ForceFeedback?
      && told - {ThumbCurl} == Curls(last) - {ThumbCurl}
      && (told == Curls(last) <==> LastWhole(ss) >= 0 && SameThumb(ss[LastWhole(ss)].message, last))
      && (!ss[|ss| - 1].swallowed ==> told == Curls(last))
  {
    hide Parse, CurlPart, Curls, Encodings, AllPrinted, Surviving, SentOf, WrittenOutputs, Writes, LastWhole, SameThumb;
    WrittenText(initial, ps, k);
    QueueTellsLastIff(WrittenOutputs(initial, ps, k));
  }
}
