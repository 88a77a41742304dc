/** The OSC output of output_osc.cpp: the five splays of a hand, sent as one bundle. */
module OutputOsc {
  import opened NativeTypes
  import opened OscFormat
  import opened OscRoundTrip
  import opened MiniOsc
  import opened OscBundle
  import opened OscBundleRuns

  datatype Hand = Left | Right

  const FINGERS: seq<string> := ["Thumb", "Index", "Middle", "Ring", "Pinky"]

  function HandString(hand: Hand): (s: string)
    ensures 4 <= |s| <= 5 && '\0' !in s
  {
    if hand.Left? then "left" else "right"
  }

  /** The avatar parameter of one finger. */
  function Parameter(hand: Hand, finger: string): (s: string)
    ensures |s| <= 30 + |finger| && '\0' !in HandString(hand)
  {
    "/avatar/parameters/" + HandString(hand) + finger + "Splay"
  }

  function SplayAddress(hand: Hand, i: nat): (s: CString)
    requires i < 5
    ensures s != "" && s[0] == '/' && |s| <= 35
  {
    var s := Parameter(hand, FINGERS[i]);
    assert '\0' !in "/avatar/parameters/" && '\0' !in "Splay" && '\0' !in FINGERS[i];
    s
  }

  /** The message that reports one splay, given as the bits of its float. */
  function SplayMessage(hand: Hand, splay: seq<uint32>, i: nat): Message
    requires |splay| == 5 && i < 5
  {
    Message(SplayAddress(hand, i), "f", [Float(splay[i])])
  }

  function SplayCall(hand: Hand, splay: seq<uint32>, i: nat): (c: Call)
    requires |splay| == 5 && i < 5
    ensures Callable(c)
  {
    var c := Call(SplayAddress(hand, i), ",f", [Float(splay[i])]);
    FloatIsSupplied(splay[i]);
    assert c.types[1..] == "f";
    c
  }

  lemma FloatIsSupplied(bits: uint32)
    ensures Supplies("f", [Float(bits)]) && NoSpareArgs("f", [Float(bits)]) && Typed("f", [Float(bits)])
  {
    assert "f"[1..] == "" && [Float(bits)][1..] == [];
    assert Typed("f", [Float(bits)]);
    assert [Float(bits)][..0] == [] && !Typed("f", []);
  }

  ghost function SplayCalls(hand: Hand, splay: seq<uint32>, n: nat): (cs: seq<Call>)
    requires |splay| == 5 && n <= 5
    ensures |cs| == n && forall c <- cs :: Callable(c)
  {
    if n == 0 then [] else SplayCalls(hand, splay, n - 1) + [SplayCall(hand, splay, n - 1)]
  }

  ghost function SplayMessages(hand: Hand, splay: seq<uint32>, n: nat): (ms: seq<Message>)
    requires |splay| == 5 && n <= 5
    ensures |ms| == n && forall i :: 0 <= i < n ==> ms[i] == SplayMessage(hand, splay, i)
  {
    if n == 0 then [] else SplayMessages(hand, splay, n - 1) + [SplayMessage(hand, splay, n - 1)]
  }

  lemma SplayMessageFits(hand: Hand, splay: seq<uint32>, i: nat)
    requires |splay| == 5 && i < 5
    ensures WellFormed(SplayMessage(hand, splay, i))
    ensures |MessageBytes(SplayMessage(hand, splay, i))| <= 44
  {
    FloatIsSupplied(splay[i]);
    var m := SplayMessage(hand, splay, i);
    assert m.args[1..] == [] && m.tags[1..] == "";
    assert ArgsBytes(m.tags, m.args) == WordBytes(splay[i]) + "";
    assert "," + m.tags == ",f";
    assert |StringBytes(",f")| == RoundUp(3) == 4;
    assert |StringBytes(m.address)| == RoundUp(|m.address| + 1) <= 36;
  }

  lemma CallsSplit(hand: Hand, splay: seq<uint32>, n: nat)
    requires |splay| == 5 && 0 < n <= 5
    ensures var cs := SplayCalls(hand, splay, n);
      cs[..|cs| - 1] == SplayCalls(hand, splay, n - 1) && cs[|cs| - 1] == SplayCall(hand, splay, n - 1)
  {
    hide SplayCall;
  }

  lemma SplayCallSucceeds(s: BundleState, hand: Hand, splay: seq<uint32>, i: nat)
    requires |s.data| == MINIOSC_BUFFER && |splay| == 5 && i < 5
    requires !s.place.Marker? && Start(s) <= 16 + i * 48
    ensures var c := SplayCall(hand, splay, i);
      && Result(s, c) == 0
      && c.types != "" && MessageOf(c) == SplayMessage(hand, splay, i)
      && !Added(s, c).place.Marker? && Start(Added(s, c)) <= 16 + (i + 1) * 48
  {
    var c, m := SplayCall(hand, splay, i), SplayMessage(hand, splay, i);
    SplayMessageFits(hand, splay, i);
    EncodingSucceedsIff(Start(s) + 4, c.address, c.types, c.args);
    assert c.types[1..] == "f";
    AddedIs(s, c);
    hide Added, EncodeMessage, MessageBytes, WellFormed, Headed, SplayAddress;
    SuccessEncodes(s, c);
  }

  /** All five messages fit into the buffer, whatever the splays. */
  lemma {:induction false} SplayCallsSucceed(hand: Hand, splay: seq<uint32>, n: nat)
    requires |splay| == 5 && n <= 5
    ensures AllSucceed(Zeroed(), SplayCalls(hand, splay, n))
    ensures MessagesOf(SplayCalls(hand, splay, n)) == SplayMessages(hand, splay, n)
    ensures var r := Run(Zeroed(), SplayCalls(hand, splay, n));
      !r.place.Marker? && Start(r) <= 16 + n * 48
  {
    if n > 0 {
      hide SplayMessage, SplayCall, Result, Added, Start, MessageOf;
      var before := Run(Zeroed(), SplayCalls(hand, splay, n - 1));
      SplayCallsSucceed(hand, splay, n - 1);
      SplayCallSucceeds(before, hand, splay, n - 1);
      CallsSplit(hand, splay, n);
    } else {
      hide Zeroed;
    }
  }

  // ----- what a receiver gets -----

  /** The parameters that an avatar listens to, for each hand. */
  const LEFT_PARAMETERS: seq<string> := [
    "/avatar/parameters/leftThumbSplay",
    "/avatar/parameters/leftIndexSplay",
    "/avatar/parameters/leftMiddleSplay",
    "/avatar/parameters/leftRingSplay",
    "/avatar/parameters/leftPinkySplay"]

  const RIGHT_PARAMETERS: seq<string> := [
    "/avatar/parameters/rightThumbSplay",
    "/avatar/parameters/rightIndexSplay",
    "/avatar/parameters/rightMiddleSplay",
    "/avatar/parameters/rightRingSplay",
    "/avatar/parameters/rightPinkySplay"]

  /** Five messages of one float: the splays of a hand, thumb to pinky, under their parameters. */
  ghost predicate ReportsSplays(ms: seq<Message>, hand: Hand, splay: seq<uint32>)
    requires |splay| == 5
  {
    |ms| == 5 && forall i :: 0 <= i < 5 ==>
      && ms[i].address == (if hand.Left? then LEFT_PARAMETERS else RIGHT_PARAMETERS)[i]
      && ms[i].tags == "f" && ms[i].args == [Float(splay[i])]
  }

  lemma LeftAddress(i: nat)
    requires i < 5
    ensures SplayAddress(Left, i) == LEFT_PARAMETERS[i]
  {}

  lemma RightAddress(i: nat)
    requires i < 5
    ensures SplayAddress(Right, i) == RIGHT_PARAMETERS[i]
  {}

  lemma SplaysAreReported(hand: Hand, splay: seq<uint32>)
    requires |splay| == 5
    ensures ReportsSplays(SplayMessages(hand, splay, 5), hand, splay)
  {
    forall i | 0 <= i < 5 ensures SplayMessages(hand, splay, 5)[i].address == (if hand.Left? then LEFT_PARAMETERS else RIGHT_PARAMETERS)[i] {
      hide SplayAddress;
      LeftAddress(i);
      RightAddress(i);
    }
    hide SplayAddress, SplayMessages;
  }

  lemma NoCalls(hand: Hand, splay: seq<uint32>)
    requires |splay| == 5
    ensures Run(Zeroed(), SplayCalls(hand, splay, 0)) == Zeroed()
  {
    hide Zeroed;
  }

  lemma NextCall(hand: Hand, splay: seq<uint32>, i: nat)
    requires |splay| == 5 && i < 5
    ensures Run(Zeroed(), SplayCalls(hand, splay, i + 1)) == Added(Run(Zeroed(), SplayCalls(hand, splay, i)), SplayCall(hand, splay, i))
  {
    CallsSplit(hand, splay, i + 1);
    hide Added, SplayCall, Zeroed;
  }

  /**
   Impl::Send: each finger's message is added to a zeroed bundle, and the bundle goes to the socket.
   What memory holds behind the bundle, beyond, is not sent.
   */
  method Send(hand: Hand, splay: seq<uint32>, beyond: nat -> char) returns (sent: string)
    requires |splay| == 5
    ensures DecodeBundle(sent).Parsed? && DecodeBundle(sent).rest == ""
    ensures ReportsSplays(DecodeBundle(sent).value, hand, splay)
  {
    var bundle := new MoBundle();
    hide Added, SplayCall, SplayCalls, DecodeBundle, Result;
    ghost var calls := SplayCalls(hand, splay, 5);
    NoCalls(hand, splay);
    NextCall(hand, splay, 0);
    var _ := bundle.Add(SplayCall(hand, splay, 0));
    NextCall(hand, splay, 1);
    var _ := bundle.Add(SplayCall(hand, splay, 1));
    NextCall(hand, splay, 2);
    var _ := bundle.Add(SplayCall(hand, splay, 2));
    NextCall(hand, splay, 3);
    var _ := bundle.Add(SplayCall(hand, splay, 3));
    NextCall(hand, splay, 4);
    var _ := bundle.Add(SplayCall(hand, splay, 4));
    assert bundle.Value() == Run(Zeroed(), calls);
    SplayCallsSucceed(hand, splay, 5);
    SuccessfulBundleDecodes(SplayCalls(hand, splay, 5));
    SplaysAreReported(hand, splay);
    var err;
    err, sent := bundle.Send(beyond);
  }
}
