/** What holds of a bundle over every sequence of minioscBundle calls. */
module OscBundleRuns {
  import opened NativeTypes
  import opened OscFormat
  import opened OscRoundTrip
  import opened Texts
  import opened MiniOsc
  import opened OscBundle

  /** A zero-initialised bundle. */
  ghost function Zeroed(): (s: BundleState)
    ensures |s.data| == MINIOSC_BUFFER && s.place.Null?
  {
    BundleState(Zeros(MINIOSC_BUFFER), Null)
  }

  function Run(s: BundleState, calls: seq<Call>): (r: BundleState)
    requires |s.data| == MINIOSC_BUFFER && forall c <- calls :: Callable(c)
    ensures |r.data| == MINIOSC_BUFFER
    ensures r.place.Marker? <==> s.place.Marker?
  {
    if calls == [] then s else Added(Run(s, calls[..|calls| - 1]), calls[|calls| - 1])
  }

  // ----- failing calls included -----

  ghost predicate PlaceAligned(s: BundleState) {
    s.place.Offset? ==> Aligned(s.place.n) && s.place.n >= 16
  }

  lemma AddedIs(s: BundleState, c: Call)
    requires |s.data| == MINIOSC_BUFFER && Callable(c) && !s.place.Marker?
    ensures var p, e := Start(s), Encoding(s, c);
      && Contained(p + 4, e)
      && Added(s, c).place == Offset(p + 4 + |e.bytes|)
      && Added(s, c).data ==
           (if e.err == 0 && e.bytes != "" then Overwrite(Overwrite(Headed(s), p + 4, e.bytes), p, WordBytes(|e.bytes| as uint32))
            else Overwrite(Headed(s), p + 4, e.bytes))
  {
    MessageContained(Start(s) + 4, c.address, c.types, c.args);
    hide EncodeMessage, Overwrite, WordBytes, Aligned;
  }

  lemma OverwriteAt(buffer: string, place: nat, text: string)
    requires text != "" ==> place + |text| <= |buffer|
    ensures forall k :: 0 <= k < |buffer| && (k < place || place + |text| <= k) ==> Overwrite(buffer, place, text)[k] == buffer[k]
  {}

  /** One call writes nothing in front of its element, nothing behind it, and keeps the place on a word boundary. */
  lemma AddedWritesItsElement(s: BundleState, c: Call)
    requires |s.data| == MINIOSC_BUFFER && Callable(c) && !s.place.Marker? && PlaceAligned(s)
    ensures PlaceAligned(Added(s, c))
    ensures var r := Added(s, c);
      forall k :: 0 <= k < MINIOSC_BUFFER && (k < Start(s) || r.place.n <= k) ==> r.data[k] == Headed(s)[k]
  {
    AddedIs(s, c);
    var p, e := Start(s), Encoding(s, c);
    AlignedSum(4, |e.bytes|);
    AlignedSum(p, 4 + |e.bytes|);
    assert Aligned(16);
    hide Encoding, Headed, WordBytes, Aligned, Added, Overwrite;
    OverwriteAt(Headed(s), p + 4, e.bytes);
    if e.bytes != "" {
      OverwriteAt(Overwrite(Headed(s), p + 4, e.bytes), p, WordBytes(|e.bytes| as uint32));
    }
  }

  /** Over every run: the buffer keeps its size, and the place stays on a word boundary. */
  lemma {:induction false} PlaceStaysAligned(s: BundleState, calls: seq<Call>)
    requires |s.data| == MINIOSC_BUFFER && forall c <- calls :: Callable(c)
    requires PlaceAligned(s)
    ensures PlaceAligned(Run(s, calls))
  {
    if calls != [] {
      var before := Run(s, calls[..|calls| - 1]);
      PlaceStaysAligned(s, calls[..|calls| - 1]);
      if !before.place.Marker? {
        AddedWritesItsElement(before, calls[|calls| - 1]);
      }
      hide Added, PlaceAligned;
    }
  }

  /** The bytes in front of the place, however far later calls come and whether they fail, never change. */
  lemma {:induction false} EarlierBytesNeverChange(s: BundleState, calls: seq<Call>)
    requires |s.data| == MINIOSC_BUFFER && forall c <- calls :: Callable(c)
    requires s.place.Offset? && PlaceAligned(s)
    ensures Run(s, calls).place.Offset? && Run(s, calls).place.n >= s.place.n
    ensures forall k :: 0 <= k < s.place.n && k < MINIOSC_BUFFER ==> Run(s, calls).data[k] == s.data[k]
  {
    if calls != [] {
      var earlier, last := calls[..|calls| - 1], calls[|calls| - 1];
      EarlierBytesNeverChange(s, earlier);
      PlaceStaysAligned(s, earlier);
      AddedWritesItsElement(Run(s, earlier), last);
      AddedIs(Run(s, earlier), last);
      hide Added, PlaceAligned, Overwrite, Encoding, WordBytes;
    }
  }

  // ----- a place behind the buffer -----

  /** A call leaves the place inside the buffer exactly if the size word it reserves fits; a message never leads it out. */
  lemma StaysInsideIff(s: BundleState, c: Call)
    requires |s.data| == MINIOSC_BUFFER && Callable(c) && !s.place.Marker?
    ensures Added(s, c).place.Offset?
    ensures Added(s, c).place.n <= MINIOSC_BUFFER <==> Start(s) + 4 <= MINIOSC_BUFFER
  {
    AddedIs(s, c);
    hide Added, Encoding, Aligned;
  }

  /** Every call found room for its size word. */
  ghost predicate RoomThroughout(s: BundleState, calls: seq<Call>)
    requires |s.data| == MINIOSC_BUFFER && (forall c <- calls :: Callable(c)) && !s.place.Marker?
  {
    calls == [] ||
    (RoomThroughout(s, calls[..|calls| - 1]) && Start(Run(s, calls[..|calls| - 1])) + 4 <= MINIOSC_BUFFER)
  }

  /** After a run of calls, failing or not, the place is inside the buffer exactly if every call found room for its size word. */
  lemma {:induction false} RunStaysInsideIff(s: BundleState, calls: seq<Call>)
    requires |s.data| == MINIOSC_BUFFER && (forall c <- calls :: Callable(c)) && !s.place.Marker?
    requires calls != []
    ensures Run(s, calls).place.Offset?
    ensures Run(s, calls).place.n <= MINIOSC_BUFFER <==> RoomThroughout(s, calls)
  {
    var earlier := calls[..|calls| - 1];
    if earlier != [] {
      RunStaysInsideIff(s, earlier);
    }
    StaysInsideIff(Run(s, earlier), calls[|calls| - 1]);
    hide Added;
  }

  const EMPTY_CALL := Call("", ",", [])

  function EmptyCalls(n: nat): (calls: seq<Call>)
    ensures |calls| == n && forall c <- calls :: c == EMPTY_CALL && Callable(c)
  {
    EmptyIsCallable();
    if n == 0 then [] else EmptyCalls(n - 1) + [EMPTY_CALL]
  }

  lemma EmptyIsCallable()
    ensures Callable(EMPTY_CALL)
  {}

  /** Calls that fail at once still reserve their size words: after 381 of them on a zeroed bundle the place is 4 bytes behind the buffer. */
  lemma {:induction false} EmptyCallsLeaveBuffer(n: nat)
    requires n > 0
    ensures Run(Zeroed(), EmptyCalls(n)).place == Offset(16 + 4 * n)
    ensures n == 381 ==> 16 + 4 * n == MINIOSC_BUFFER + 4
  {
    var s := Zeroed();
    var before := Run(s, EmptyCalls(n - 1));
    if n > 1 {
      EmptyCallsLeaveBuffer(n - 1);
    }
    assert EmptyCalls(n)[..n - 1] == EmptyCalls(n - 1);
    EmptyCallReserves(before);
    hide Added, Zeroed, EmptyCalls;
  }

  lemma EmptyCallReserves(s: BundleState)
    requires |s.data| == MINIOSC_BUFFER && !s.place.Marker?
    ensures Callable(EMPTY_CALL) && Result(s, EMPTY_CALL) == ERROR_PARAMS
    ensures Added(s, EMPTY_CALL).place == Offset(Start(s) + 4)
  {
    EmptyIsCallable();
    AddedIs(s, EMPTY_CALL);
    hide Added;
  }

  // ----- successful calls -----

  function MessageOf(c: Call): Message
    requires c.types != ""
  {
    Message(c.address, c.types[1..], c.args)
  }

  /** The written part of a bundle that holds the given messages. */
  ghost predicate Holds(s: BundleState, ms: seq<Message>) {
    && |s.data| == MINIOSC_BUFFER
    && (forall m <- ms :: Sendable(m))
    && match s.place
       case Null => ms == []
       case Marker => false
       case Offset(n) => n < MINIOSC_BUFFER && s.data[..n] == BundleBytes(ms)
  }

  lemma {:induction false} ElementsAppend(ms: seq<Message>, m: Message)
    requires (forall x <- ms :: Sendable(x)) && Sendable(m)
    ensures (forall x <- ms + [m] :: Sendable(x))
    ensures ElementsBytes(ms + [m]) == ElementsBytes(ms) + ElementBytes(m)
  {
    if ms == [] {
      assert [] + [m] == [m] && [m][1..] == [];
      FirstElement([m]);
      NoElements();
      hide *;
      assert ElementBytes(m) + "" == ElementBytes(m) && "" + ElementBytes(m) == ElementBytes(m);
    } else {
      FirstElement(ms);
      hide *;
      assert (ms + [m])[1..] == ms[1..] + [m];
      FirstElement(ms + [m]);
      ElementsAppend(ms[1..], m);
      Regroup(ElementBytes(ms[0]), ElementsBytes(ms[1..]), ElementBytes(m));
    }
  }

  lemma NoElements()
    ensures ElementsBytes([]) == ""
  {}

  lemma BundleAppend(ms: seq<Message>, m: Message)
    requires (forall x <- ms :: Sendable(x)) && Sendable(m)
    ensures (forall x <- ms + [m] :: Sendable(x))
    ensures BundleBytes(ms + [m]) == BundleBytes(ms) + ElementBytes(m)
  {
    ElementsAppend(ms, m);
    Regroup(BUNDLE_HEADER, ElementsBytes(ms), ElementBytes(m));
    hide ElementsBytes, ElementBytes, Sendable;
  }

  lemma HeadedPrefix(s: BundleState, ms: seq<Message>)
    requires Holds(s, ms)
    ensures Start(s) < MINIOSC_BUFFER && Headed(s)[..Start(s)] == BundleBytes(ms)
  {
    if s.place.Null? {
      assert |BUNDLE_HEADER| == 16;
      assert BUNDLE_HEADER + "" == BUNDLE_HEADER;
    }
  }

  /** A text written behind a reserved word, and then the word. */
  lemma WordThenText(buffer: string, p: nat, word: string, text: string)
    requires |word| == 4 && text != "" && p + 4 + |text| <= |buffer|
    ensures Overwrite(Overwrite(buffer, p + 4, text), p, word)[..p + 4 + |text|] == buffer[..p] + (word + text)
  {
    var t := Overwrite(buffer, p + 4, text);
    var r := Overwrite(t, p, word);
    assert r == t[..p] + word + t[p + 4..];
    assert t[p + 4..][..|text|] == text;
    assert r[..p + 4 + |text|] == t[..p] + word + t[p + 4..p + 4 + |text|];
  }

  lemma MessageNotEmpty(m: Message)
    requires Typed(m.tags, m.args)
    ensures MessageBytes(m) != ""
  {
    StringBytesAre(m.address);
    hide RoundUp, Zeros, ArgsBytes;
  }

  /** What a successful call appends. */
  lemma SuccessEncodes(s: BundleState, c: Call)
    requires Callable(c) && Result(s, c) == 0
    ensures !s.place.Marker? && c.types != "" && Sendable(MessageOf(c))
    ensures var bytes := MessageBytes(MessageOf(c));
      Encoding(s, c) == Encoded(0, bytes) && bytes != "" && Start(s) + 4 + |bytes| < MINIOSC_BUFFER
  {
    var p := Start(s) + 4;
    EncodingSucceedsIff(p, c.address, c.types, c.args);
    hide EncodeMessage, MessageBytes, Typed, Supplies;
    var m := MessageOf(c);
    assert c.types == "," + m.tags;
    MessageWrites(p, m);
    MessageNotEmpty(m);
  }

  /** A successful call adds the element of its message. */
  lemma SuccessAddsElement(s: BundleState, c: Call)
    requires |s.data| == MINIOSC_BUFFER && Callable(c) && Result(s, c) == 0
    ensures c.types != "" && Sendable(MessageOf(c)) && !s.place.Marker?
    ensures var r := Added(s, c);
      && r.place.Offset? && Start(s) < r.place.n < MINIOSC_BUFFER
      && r.data[..r.place.n] == Headed(s)[..Start(s)] + ElementBytes(MessageOf(c))
  {
    SuccessEncodes(s, c);
    AddedIs(s, c);
    var bytes := MessageBytes(MessageOf(c));
    hide Added, Encoding, MessageBytes, WordBytes, Sendable, Overwrite, Headed, Result, Contained;
    WordThenText(Headed(s), Start(s), WordBytes(|bytes| as uint32), bytes);
  }

  lemma SuccessAddsMessage(s: BundleState, ms: seq<Message>, c: Call)
    requires Holds(s, ms) && Callable(c) && Result(s, c) == 0
    ensures c.types != "" && Sendable(MessageOf(c))
    ensures Holds(Added(s, c), ms + [MessageOf(c)])
  {
    SuccessAddsElement(s, c);
    HeadedPrefix(s, ms);
    BundleAppend(ms, MessageOf(c));
    hide Added, BundleBytes, ElementBytes, Sendable, Headed, Result, Start, Callable, MessageOf;
  }

  ghost predicate AllSucceed(s: BundleState, calls: seq<Call>)
    requires |s.data| == MINIOSC_BUFFER && forall c <- calls :: Callable(c)
  {
    calls == [] ||
    (AllSucceed(s, calls[..|calls| - 1]) && Result(Run(s, calls[..|calls| - 1]), calls[|calls| - 1]) == 0)
  }

  function MessagesOf(calls: seq<Call>): seq<Message> {
    if calls == [] then []
    else
      var last := calls[|calls| - 1];
      MessagesOf(calls[..|calls| - 1]) + (if last.types == "" then [] else [MessageOf(last)])
  }

  lemma {:induction false} RunHoldsMessages(calls: seq<Call>)
    requires forall c <- calls :: Callable(c)
    requires AllSucceed(Zeroed(), calls)
    ensures Holds(Run(Zeroed(), calls), MessagesOf(calls))
  {
    var s := Zeroed();
    hide Holds, Added, Result, Zeroed;
    if calls == [] {
      NothingHeld();
    } else {
      var earlier := calls[..|calls| - 1];
      RunHoldsMessages(earlier);
      SuccessAddsMessage(Run(s, earlier), MessagesOf(earlier), calls[|calls| - 1]);
    }
  }

  lemma NothingHeld()
    ensures Holds(Zeroed(), [])
  {}

  /** After successful calls on a zeroed bundle, the bytes up to the place decode to exactly their messages, in order. */
  lemma SuccessfulBundleDecodes(calls: seq<Call>)
    requires calls != [] && forall c <- calls :: Callable(c)
    requires AllSucceed(Zeroed(), calls)
    ensures var r := Run(Zeroed(), calls);
      && r.place.Offset? && r.place.n < MINIOSC_BUFFER
      && DecodeBundle(r.data[..r.place.n]) == Parsed(MessagesOf(calls), "")
  {
    var s := Zeroed();
    RunHoldsMessages(calls);
    var before, last := Run(s, calls[..|calls| - 1]), calls[|calls| - 1];
    assert !Run(s, calls).place.Null? by {
      if !before.place.Marker? {
        AddedIs(before, last);
      }
    }
    DecodeOfBundle(MessagesOf(calls));
    hide Run, DecodeBundle, ElementsBytes, MessagesOf, Zeroed;
  }

  // ----- failing calls spoil the bundle -----

  /** Nothing has been written from the place on. */
  ghost predicate ZeroBeyond(s: BundleState) {
    && |s.data| == MINIOSC_BUFFER
    && forall k :: (if s.place.Offset? then s.place.n else 0) <= k < MINIOSC_BUFFER ==> s.data[k] == '\0'
  }

  lemma ZeroedIsZero()
    ensures ZeroBeyond(Zeroed())
  {
    var zeros := Zeros(MINIOSC_BUFFER);
    forall k | 0 <= k < MINIOSC_BUFFER ensures zeros[k] == '\0' {
      assert zeros[k] in zeros;
    }
    hide Zeros;
  }

  lemma HeadedIsZeroBeyond(s: BundleState)
    requires ZeroBeyond(s) && !s.place.Marker? && PlaceAligned(s)
    ensures forall k :: Start(s) <= k < MINIOSC_BUFFER ==> Headed(s)[k] == '\0'
  {
    if s.place.Null? {
      assert |BUNDLE_HEADER| == 16;
      OverwriteAt(s.data, 0, BUNDLE_HEADER);
    }
    hide Overwrite;
  }

  lemma AddedIsZeroBeyond(s: BundleState, c: Call)
    requires ZeroBeyond(s) && Callable(c) && !s.place.Marker? && PlaceAligned(s)
    ensures ZeroBeyond(Added(s, c)) && PlaceAligned(Added(s, c))
  {
    HeadedIsZeroBeyond(s);
    AddedWritesItsElement(s, c);
    AddedIs(s, c);
    hide Headed, Added, Encoding, Overwrite, PlaceAligned;
  }

  lemma {:induction false} RunIsZeroBeyond(calls: seq<Call>)
    requires forall c <- calls :: Callable(c)
    ensures var r := Run(Zeroed(), calls); ZeroBeyond(r) && PlaceAligned(r)
  {
    hide Zeroed, Added, ZeroBeyond, PlaceAligned;
    if calls == [] {
      ZeroedIsZero();
      NullIsAligned(Zeroed());
    } else {
      RunIsZeroBeyond(calls[..|calls| - 1]);
      AddedIsZeroBeyond(Run(Zeroed(), calls[..|calls| - 1]), calls[|calls| - 1]);
    }
  }

  lemma NullIsAligned(s: BundleState)
    requires s.place.Null?
    ensures PlaceAligned(s)
  {}

  /** Up to at, the buffer is the bundle of these messages; then comes a size word of zero. */
  ghost predicate ZeroWordAt(data: string, ms: seq<Message>, at: nat) {
    && (forall m <- ms :: Sendable(m))
    && at + 4 <= |data| && data[..at] == BundleBytes(ms)
    && data[at] == data[at + 1] == data[at + 2] == data[at + 3] == '\0'
  }

  /** A failing call leaves the size word that it reserved at zero. */
  lemma FailureLeavesZeroWord(s: BundleState, ms: seq<Message>, c: Call)
    requires Holds(s, ms) && ZeroBeyond(s) && PlaceAligned(s) && Callable(c) && Result(s, c) != 0
    requires Start(s) + 4 <= MINIOSC_BUFFER
    ensures ZeroWordAt(Added(s, c).data, ms, Start(s))
  {
    HeadedPrefix(s, ms);
    HeadedIsZeroBeyond(s);
    FailureWrites(s, c);
    hide Added, BundleBytes, Headed, Holds, Result, Sendable;
    HoldsSendable(s, ms);
    SamePrefix(Headed(s), Added(s, c).data, Start(s));
  }

  lemma HoldsSendable(s: BundleState, ms: seq<Message>)
    requires Holds(s, ms)
    ensures forall m <- ms :: Sendable(m)
  {}

  lemma SamePrefix(a: string, b: string, n: nat)
    requires n <= |a| == |b| && forall k :: 0 <= k < n ==> a[k] == b[k]
    ensures a[..n] == b[..n]
  {}

  /** A failing call writes nothing in front of its encoding. */
  lemma FailureWrites(s: BundleState, c: Call)
    requires |s.data| == MINIOSC_BUFFER && Callable(c) && !s.place.Marker? && Result(s, c) != 0
    ensures forall k :: 0 <= k < Start(s) + 4 && k < MINIOSC_BUFFER ==> Added(s, c).data[k] == Headed(s)[k]
  {
    AddedIs(s, c);
    OverwriteAt(Headed(s), Start(s) + 4, Encoding(s, c).bytes);
    hide Added, Encoding, Overwrite, Headed;
  }

  /** The first failing call left its size word at zero, and inside the buffer, however far the place went afterwards. */
  lemma {:induction false} FailureIsFound(calls: seq<Call>) returns (ms: seq<Message>, at: nat)
    requires forall c <- calls :: Callable(c)
    requires !AllSucceed(Zeroed(), calls)
    ensures var r := Run(Zeroed(), calls);
      r.place.Offset? && at + 4 <= r.place.n && ZeroWordAt(r.data, ms, at)
  {
    hide Zeroed, Added, Holds, ZeroBeyond, PlaceAligned, ZeroWordAt, Result;
    var earlier, last := calls[..|calls| - 1], calls[|calls| - 1];
    var before := Run(Zeroed(), earlier);
    RunIsZeroBeyond(earlier);
    AddedPlace(before, last);
    if AllSucceed(Zeroed(), earlier) {
      RunHoldsMessages(earlier);
      ms, at := MessagesOf(earlier), Start(before);
      HeldLeavesRoom(before, ms);
      FailureLeavesZeroWord(before, ms, last);
    } else {
      ms, at := FailureIsFound(earlier);
      ZeroWordStays(before, last, ms, at);
    }
  }

  /** Behind messages that are held there is room for another size word. */
  lemma HeldLeavesRoom(s: BundleState, ms: seq<Message>)
    requires Holds(s, ms) && PlaceAligned(s)
    ensures Start(s) + 4 <= MINIOSC_BUFFER
  {
    HeadedPrefix(s, ms);
    hide Headed, Holds;
  }

  lemma AddedPlace(s: BundleState, c: Call)
    requires |s.data| == MINIOSC_BUFFER && Callable(c) && !s.place.Marker?
    ensures Added(s, c).place.Offset? && Start(s) + 4 <= Added(s, c).place.n
  {
    AddedIs(s, c);
    hide Added;
  }

  lemma ZeroWordStays(s: BundleState, c: Call, ms: seq<Message>, at: nat)
    requires |s.data| == MINIOSC_BUFFER && Callable(c) && PlaceAligned(s) && s.place.Offset?
    requires ZeroWordAt(s.data, ms, at) && at + 4 <= s.place.n
    ensures ZeroWordAt(Added(s, c).data, ms, at)
  {
    AddedWritesItsElement(s, c);
    hide Added, BundleBytes;
    assert Added(s, c).data[..at] == s.data[..at];
  }

  /** After a zeroed bundle was given any calls, what is sent decodes exactly if no call failed, whatever memory holds behind the buffer. */
  lemma BundleDecodesIff(calls: seq<Call>, beyond: nat -> char)
    requires calls != [] && forall c <- calls :: Callable(c)
    ensures var r := Run(Zeroed(), calls);
      && r.place.Offset?
      && (DecodeBundle(Stretch(r.data, r.place.n, beyond)).Parsed? <==> AllSucceed(Zeroed(), calls))
      && (AllSucceed(Zeroed(), calls) ==> DecodeBundle(Stretch(r.data, r.place.n, beyond)) == Parsed(MessagesOf(calls), ""))
  {
    hide Zeroed, Run, DecodeBundle, BundleBytes, MessagesOf;
    var r := Run(Zeroed(), calls);
    if AllSucceed(Zeroed(), calls) {
      SuccessfulBundleDecodes(calls);
    } else {
      var ms, at := FailureIsFound(calls);
      var text := Stretch(r.data, r.place.n, beyond);
      assert text[..at + 4] == r.data[..at + 4];
      ZeroWordSplits(r.data, text, ms, at);
      DecodeStopsAtZeroWord(ms, text[at + 4..]);
    }
  }

  lemma ZeroWordSplits(data: string, text: string, ms: seq<Message>, at: nat)
    requires ZeroWordAt(data, ms, at) && at + 4 <= |text| && text[..at + 4] == data[..at + 4]
    ensures (forall m <- ms :: Sendable(m)) && text == BundleBytes(ms) + (ZERO_WORD + text[at + 4..])
  {
    hide BundleBytes, Sendable;
    assert data[..at + 4][..at] == data[..at] && data[..at + 4][at..] == data[at..at + 4] == ZERO_WORD;
    assert text == text[..at + 4] + text[at + 4..];
    assert text[..at + 4] == data[..at] + ZERO_WORD;
  }
}
