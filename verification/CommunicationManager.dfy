/**
 The communication thread of a hardware glove and the queue of texts to write
 (hardware_communication_manager.cpp).

 WriteOutput is called from other threads. A Pass is one pass of the thread's loop together with
 the outputs that arrive in each of its three stretches; appending, writing and clearing are
 taken as atomic, as the source has no lock.
 */
module CommunicationManager {
  import opened AlphaKeys
  import opened AlphaParser
  import opened Decimal
  import opened AlphaDecoder
  import opened AlphaEncoder
  import opened Texts

  datatype Receive = Nothing | Packet(text: string)

  datatype Pass = Pass(
    received: Receive,              // what ReceiveNextPacket returns
    whileReceiving: seq<Output>,    // outputs up to the newline's appending
    beforeWrite: seq<Output>,       // outputs between the newline and the write
    writeSucceeds: bool,
    beforeClear: seq<Output>)       // outputs between the write and the clearing of the queue

  function Encodings(os: seq<Output>): string {
    if os == [] then "" else EncodePacket(os[0]) + Encodings(os[1..])
  }

  /** The pass ends the thread. */
  predicate Ends(p: Pass) {
    p.received.Nothing? || !p.writeSucceeds
  }

  /** What a pass adds to the queue before it is written, in order of arrival. */
  function Queued(p: Pass): string {
    Encodings(p.whileReceiving) + (if p.received.Nothing? then "" else "\n" + Encodings(p.beforeWrite))
  }

  /** The text that arrives after the write and is cleared away unwritten. */
  function Overlooked(p: Pass): string {
    if Ends(p) then "" else Encodings(p.beforeClear)
  }

  /** Everything appended to the queue by a run of passes, in order: all outputs, and one newline per packet. */
  function Appended(ps: seq<Pass>): string
    decreases ps
  {
    if ps == [] then ""
    else Queued(ps[0]) + Overlooked(ps[0]) + (if Ends(ps[0]) then "" else Appended(ps[1..]))
  }

  function OverlookedIn(ps: seq<Pass>): string
    decreases ps
  {
    if ps == [] then "" else Overlooked(ps[0]) + (if Ends(ps[0]) then "" else OverlookedIn(ps[1..]))
  }

  function Concat(texts: seq<string>): string {
    if texts == [] then "" else texts[0] + Concat(texts[1..])
  }

  /** The texts written by a run of passes that starts with the given queue. */
  function Writes(queue: string, ps: seq<Pass>): seq<string>
    decreases ps
  {
    if ps == [] || Ends(ps[0]) then [] else [queue + Queued(ps[0])] + Writes("", ps[1..])
  }

  /** The queue that is left. */
  function LeftOver(queue: string, ps: seq<Pass>): string
    decreases ps
  {
    if ps == [] then queue
    else if Ends(ps[0]) then queue + Queued(ps[0])
    else LeftOver("", ps[1..])
  }

  /** The inputs handed to the callback. */
  ghost function Inputs(ps: seq<Pass>, range: AnalogRange): seq<Input>
    decreases ps
  {
    if ps == [] || ps[0].received.Nothing? then []
    else [Meaning(ps[0].received.text, range)] + (if Ends(ps[0]) then [] else Inputs(ps[1..], range))
  }

  class HardwareCommunicationManager {
    const range: AnalogRange
    var queuedWriteString: string

    /** What RawWrite has sent, and what the callback has received. */
    var written: seq<string>
    var delivered: seq<Input>

    constructor (range: AnalogRange)
      ensures this.range == range
      ensures queuedWriteString == "" && written == [] && delivered == []
    {
      this.range := range;
      queuedWriteString := "";
      written := [];
      delivered := [];
    }

    method WriteOutput(o: Output)
      modifies this`queuedWriteString
      ensures queuedWriteString == old(queuedWriteString) + EncodePacket(o)
    {
      var encoded := EncodePacket(o);
      queuedWriteString := queuedWriteString + encoded;
    }

    /** The calls of WriteOutput that other threads make in one stretch of a pass. */
    method WriteOutputs(os: seq<Output>)
      modifies this`queuedWriteString
      ensures queuedWriteString == old(queuedWriteString) + Encodings(os)
    {
      hide EncodePacket;
      for i := 0 to |os|
        invariant queuedWriteString + Encodings(os[i..]) == old(queuedWriteString) + Encodings(os)
      {
        assert os[i..][1..] == os[i + 1..];
        Regroup(queuedWriteString, EncodePacket(os[i]), Encodings(os[i + 1..]));
        WriteOutput(os[i]);
      }
      assert os[|os|..] == [];
    }

    /** One pass of the loop; false when it ends the thread. */
    method OnePass(p: Pass) returns (alive: bool)
      modifies this
      ensures alive == !Ends(p)
      ensures queuedWriteString == if alive then "" else old(queuedWriteString) + Queued(p)
      ensures written == old(written) + (if alive then [old(queuedWriteString) + Queued(p)] else [])
      ensures delivered == old(delivered) + (if p.received.Packet? then [Meaning(p.received.text, range)] else [])
    {
      hide EncodePacket, Meaning, Encodings;
      ghost var queue := queuedWriteString;
      WriteOutputs(p.whileReceiving);
      if p.received.Nothing? {
        QueueAtFailure(queue, p);
        return false;
      }
      var input := DecodePacket(p.received.text, range);
      delivered := delivered + [input];
      queuedWriteString := queuedWriteString + "\n";
      WriteOutputs(p.beforeWrite);
      QueueAfterPass(queue, p);
      hide Queued;
      if !p.writeSucceeds {
        return false;
      }
      written := written + [queuedWriteString];
      WriteOutputs(p.beforeClear);
      queuedWriteString := "";
      return true;
    }

    /** The thread over the given passes; afterwards it has ended or is still active. */
    method CommunicationThread(ps: seq<Pass>)
      modifies this
      ensures written == old(written) + Writes(old(queuedWriteString), ps)
      ensures queuedWriteString == LeftOver(old(queuedWriteString), ps)
      ensures delivered == old(delivered) + Inputs(ps, range)
    {
      hide *;
      ghost var queue, sent, seen := queuedWriteString, written, delivered;
      var n := 0;
      RunOfNothing(range);
      assert ps[0..] == ps;
      while n < |ps|
        invariant 0 <= n <= |ps|
        invariant written + Writes(queuedWriteString, ps[n..]) == sent + Writes(queue, ps)
        invariant LeftOver(queuedWriteString, ps[n..]) == LeftOver(queue, ps)
        invariant delivered + Inputs(ps[n..], range) == seen + Inputs(ps, range)
      {
        var p := ps[n];
        ghost var text := queuedWriteString + Queued(p);
        FirstPass(queuedWriteString, ps, n, range);
        EndsAtFailure(p);
        Regroup(written, [text], Writes("", ps[n + 1..]));
        if p.received.Packet? {
          Regroup(delivered, [Meaning(p.received.text, range)], Inputs(ps[n + 1..], range));
        }
        var alive := OnePass(p);
        if !alive {
          return;
        }
        n := n + 1;
      }
      assert ps[n..] == [];
    }
  }

  lemma EndsAtFailure(p: Pass)
    ensures p.received.Nothing? ==> Ends(p)
  {}

  lemma RunOfNothing(range: AnalogRange)
    ensures forall queue :: Writes(queue, []) == [] && LeftOver(queue, []) == queue
    ensures Inputs([], range) == []
  {}

  lemma QueueAtFailure(queue: string, p: Pass)
    requires p.received.Nothing?
    ensures queue + Encodings(p.whileReceiving) == queue + Queued(p)
  {
    hide Encodings;
  }

  lemma QueueAfterPass(queue: string, p: Pass)
    requires p.received.Packet?
    ensures queue + Encodings(p.whileReceiving) + "\n" + Encodings(p.beforeWrite) == queue + Queued(p)
  {
    hide Encodings;
  }

  lemma FirstPass(queue: string, ps: seq<Pass>, n: nat, range: AnalogRange)
    requires n < |ps|
    ensures var p, rest, more := ps[n], ps[n..], ps[n + 1..];
      && Writes(queue, rest) == (if Ends(p) then [] else [queue + Queued(p)] + Writes("", more))
      && LeftOver(queue, rest) == (if Ends(p) then queue + Queued(p) else LeftOver("", more))
      && Inputs(rest, range) == (if p.received.Nothing? then []
                                 else [Meaning(p.received.text, range)] + (if Ends(p) then [] else Inputs(more, range)))
  {
    hide Queued, Meaning;
    assert ps[n..][1..] == ps[n + 1..];
  }

  // ----- conservation -----

  lemma ConcatCons(text: string, texts: seq<string>)
    ensures Concat([text] + texts) == text + Concat(texts)
  {
    assert ([text] + texts)[1..] == texts;
  }

  /** Written and queued text together miss exactly as many characters as arrived between a write and its clearing. */
  lemma {:induction false} CharactersAccountedFor(queue: string, ps: seq<Pass>)
    ensures |Concat(Writes(queue, ps)) + LeftOver(queue, ps)| + |OverlookedIn(ps)| == |queue + Appended(ps)|
    decreases ps
  {
    hide Queued, Overlooked, Ends;
    if ps != [] && !Ends(ps[0]) {
      ConcatCons(queue + Queued(ps[0]), Writes("", ps[1..]));
      CharactersAccountedFor("", ps[1..]);
    } else if ps != [] {
      NothingOverlookedAtEnd(ps[0]);
    }
  }

  lemma NothingOverlookedAtEnd(p: Pass)
    requires Ends(p)
    ensures Overlooked(p) == ""
  {}

  lemma ConservedStep(queue: string, queued: string, written: string, left: string, appended: string)
    requires written + left == "" + appended
    ensures queue + queued + written + left == queue + (queued + "" + appended)
  {
    assert queue + queued + written + left == queue + queued + (written + left);
  }

  lemma {:induction false} ConservedIfNothingOverlooked(queue: string, ps: seq<Pass>)
    requires OverlookedIn(ps) == ""
    ensures Concat(Writes(queue, ps)) + LeftOver(queue, ps) == queue + Appended(ps)
    decreases ps
  {
    if ps == [] {
      assert Concat([]) + queue == queue + "";
    } else if Ends(ps[0]) {
      NothingOverlookedAtEnd(ps[0]);
      assert Appended(ps) == Queued(ps[0]);
      hide Queued, Overlooked;
    } else {
      var p, more := ps[0], ps[1..];
      assert Overlooked(p) == "" && OverlookedIn(more) == "";
      hide Queued, Overlooked, OverlookedIn;
      ConservedIfNothingOverlooked("", more);
      ConcatCons(queue + Queued(p), Writes("", more));
      ConservedStep(queue, Queued(p), Concat(Writes("", more)), LeftOver("", more), Appended(more));
    }
  }

  /**
   Outputs are conserved - everything appended, in order, is what was written followed by what is
   still queued - if and only if no output text arrived between a write and the clearing after it.
   */
  lemma OutputsConservedIff(queue: string, ps: seq<Pass>)
    ensures Concat(Writes(queue, ps)) + LeftOver(queue, ps) == queue + Appended(ps) <==> OverlookedIn(ps) == ""
  {
    CharactersAccountedFor(queue, ps);
    if OverlookedIn(ps) == "" {
      ConservedIfNothingOverlooked(queue, ps);
    }
  }

  /** A force-feedback message that arrives between the write of an empty pass and its clearing is neither written nor queued. */
  lemma OverlookedOutputIsLost(o: Output, text: string)
    requires o.ForceFeedback?
    ensures var ps := [Pass(Packet(text), [], [], true, [o])];
      && Writes("", ps) == ["\n"] && LeftOver("", ps) == ""
      && Appended(ps) == "\n" + EncodePacket(o) && EncodePacket(o) != ""
      && Concat(Writes("", ps)) + LeftOver("", ps) != "" + Appended(ps)
  {
    var p := Pass(Packet(text), [], [], true, [o]);
    EndsWithNewline(o);
    OneOverlooked(p, o);
    hide *;
    OnePassAlone(p);
    OutputsConservedIff("", [p]);
  }

  lemma OneOverlooked(p: Pass, o: Output)
    requires p == Pass(p.received, [], [], true, [o]) && p.received.Packet?
    ensures Queued(p) == "\n" && Overlooked(p) == EncodePacket(o) && !Ends(p)
  {
    hide EncodePacket;
    assert p.beforeClear[1..] == [] && EncodePacket(o) + "" == EncodePacket(o);
    assert "" + ("\n" + "") == "\n";
  }

  lemma OnePassAlone(p: Pass)
    requires !Ends(p)
    ensures Writes("", [p]) == [Queued(p)] && LeftOver("", [p]) == ""
    ensures Appended([p]) == Queued(p) + Overlooked(p) && OverlookedIn([p]) == Overlooked(p)
  {
    hide Queued, Overlooked;
    assert [p][1..] == [];
    assert "" + Queued(p) == Queued(p) && Overlooked(p) + "" == Overlooked(p);
    assert Queued(p) + Overlooked(p) + "" == Queued(p) + Overlooked(p);
  }

  // ----- what the glove reads -----

  lemma LastOfConcat(a: string, b: string)
    requires b != ""
    ensures (a + b)[|a + b| - 1] == b[|b| - 1]
  {}

  lemma FieldEndsAlike(key: AlphaKey, n: int, rest: string)
    requires IsCurlKey(key) && rest != ""
    ensures Field(key, n, rest) != "" && Field(key, n, rest)[|Field(key, n, rest)| - 1] == rest[|rest| - 1]
  {
    LastOfConcat(OutputKey(key) + PrintInt(n), rest);
  }

  lemma EndsWithNewline(o: Output)
    requires o.ForceFeedback?
    ensures EncodePacket(o) != "" && EncodePacket(o)[|EncodePacket(o)| - 1] == '\n'
  {
    hide Field, EncodePacket;
    EncodedFields(o);
    var r4 := Field(PinkyCurl, o.pinky as int, "\n");
    var r3 := Field(RingCurl, o.ring as int, r4);
    var r2 := Field(MiddleCurl, o.middle as int, r3);
    var r1 := Field(IndexCurl, o.index as int, r2);
    FieldEndsAlike(PinkyCurl, o.pinky as int, "\n");
    FieldEndsAlike(RingCurl, o.ring as int, r4);
    FieldEndsAlike(MiddleCurl, o.middle as int, r3);
    FieldEndsAlike(IndexCurl, o.index as int, r2);
    FieldEndsAlike(ThumbCurl, o.thumb as int, r1);
  }

  lemma ParseAfterMessage(o: Output, rest: string)
    requires o.ForceFeedback?
    ensures Parse(EncodePacket(o) + rest) == Parse(EncodePacket(o)) + Parse(rest)
  {
    EndsWithNewline(o);
    var s := EncodePacket(o);
    var body := s[..|s| - 1];
    assert s == body + "\n";
    ParseAcrossNewline(body, rest);
    hide Parse, EncodePacket;
  }

  ghost predicate HasCurlKeys(m: map<AlphaKey, string>) {
    m.Keys == {ThumbCurl, IndexCurl, MiddleCurl, RingCurl, PinkyCurl}
  }

  lemma MessageHasCurlKeys(o: Output)
    requires o.ForceFeedback?
    ensures HasCurlKeys(Parse(EncodePacket(o)))
  {
    ParseOfForceFeedback(o);
    CurlMapLookup(
      Surviving(o.thumb as int), Surviving(o.index as int), Surviving(o.middle as int), Surviving(o.ring as int), Surviving(o.pinky as int));
    hide Parse, EncodePacket, Surviving, CurlMap;
  }

  lemma LaterWins(m: map<AlphaKey, string>, n: map<AlphaKey, string>)
    requires HasCurlKeys(m) && HasCurlKeys(n)
    ensures m + n == n
  {}

  lemma ParseOfNothing()
    ensures Parse("") == map[]
  {}

  /** A text of force-feedback messages parses to the last of them. */
  lemma {:induction false} LastMessageWins(os: seq<Output>)
    requires os != [] && forall o <- os :: o.ForceFeedback?
    ensures Parse(Encodings(os)) == Parse(EncodePacket(os[|os| - 1]))
  {
    hide Parse, EncodePacket;
    var more := os[1..];
    assert os[0] in os && os[|os| - 1] in os;
    ParseAfterMessage(os[0], Encodings(more));
    if more == [] {
      ParseOfNothing();
    } else {
      assert more[|more| - 1] == os[|os| - 1];
      LastMessageWins(more);
      MessageHasCurlKeys(os[0]);
      MessageHasCurlKeys(os[|os| - 1]);
      LaterWins(Parse(EncodePacket(os[0])), Parse(EncodePacket(os[|os| - 1])));
    }
  }

  function QueuedOutputs(p: Pass): seq<Output> {
    p.whileReceiving + p.beforeWrite
  }

  lemma LastOfTwoStretches(a: seq<Output>, b: seq<Output>, last: Output)
    requires a != [] || b != []
    requires (forall o <- a :: o.ForceFeedback?) && (forall o <- b :: o.ForceFeedback?)
    requires last == if b != [] then b[|b| - 1] else a[|a| - 1]
    ensures Parse(Encodings(a)) + Parse(Encodings(b)) == Parse(EncodePacket(last))
  {
    hide Parse, EncodePacket;
    ParseOfNothing();
    if a != [] {
      LastMessageWins(a);
    }
    if b != [] {
      LastMessageWins(b);
    }
    if a != [] && b != [] {
      MessageHasCurlKeys(a[|a| - 1]);
      MessageHasCurlKeys(last);
      LaterWins(Parse(Encodings(a)), Parse(Encodings(b)));
    }
  }

  /** What one pass queues, its own newline included, parses to the last output it queued. */
  lemma FlushMeansLastOutput(p: Pass)
    requires p.received.Packet? && QueuedOutputs(p) != []
    requires forall o <- QueuedOutputs(p) :: o.ForceFeedback?
    ensures Parse(Queued(p)) == Parse(EncodePacket(QueuedOutputs(p)[|QueuedOutputs(p)| - 1]))
  {
    var a, b := p.whileReceiving, p.beforeWrite;
    assert forall o <- a :: o in QueuedOutputs(p);
    assert forall o <- b :: o in QueuedOutputs(p);
    hide Parse, EncodePacket, Encodings;
    Regroup(Encodings(a), "\n", Encodings(b));
    ParseAcrossNewline(Encodings(a), Encodings(b));
    LastOfTwoStretches(a, b, QueuedOutputs(p)[|QueuedOutputs(p)| - 1]);
  }

  /** Every write is what one pass queued; the first one has what was in the queue before. */
  lemma {:induction false} WritesArePasses(queue: string, ps: seq<Pass>, k: nat)
    requires k < |Writes(queue, ps)|
    ensures k < |ps| && ps[k].received.Packet?
    ensures Writes(queue, ps)[k] == (if k == 0 then queue else "") + Queued(ps[k])
    decreases ps
  {
    hide Queued;
    if k > 0 {
      WritesArePasses("", ps[1..], k - 1);
      assert "" + Queued(ps[k]) == Queued(ps[k]);
    }
  }

  // ----- what reaches the callback, and what is written -----

  /** The number of passes that are made: the thread ends with the first one that receives nothing or fails to write. */
  function PassesMade(ps: seq<Pass>): (n: nat)
    ensures n <= |ps|
    decreases ps
  {
    if ps == [] then 0
    else if ps[0].received.Packet? && ps[0].writeSucceeds then 1 + PassesMade(ps[1..])
    else 1
  }

  function Packets(ps: seq<Pass>): seq<string>
    decreases ps
  {
    if ps == [] then [] else (if ps[0].received.Packet? then [ps[0].received.text] else []) + Packets(ps[1..])
  }

  ghost function Meanings(texts: seq<string>, range: AnalogRange): seq<Input>
    decreases texts
  {
    if texts == [] then [] else [Meaning(texts[0], range)] + Meanings(texts[1..], range)
  }

  /** Every packet that is received reaches the callback, decoded and in order, the one of a failing write included. */
  lemma {:induction false} EveryPacketReachesCallback(ps: seq<Pass>, range: AnalogRange)
    ensures Inputs(ps, range) == Meanings(Packets(ps[..PassesMade(ps)]), range)
    decreases ps
  {
    hide Meaning;
    if ps != [] {
      var n := PassesMade(ps);
      EveryPacketReachesCallback(ps[1..], range);
      assert ps[..n][0] == ps[0] && ps[..n][1..] == ps[1..n];
      if ps[0].received.Packet? {
        var text := ps[0].received.text;
        assert ([text] + Packets(ps[1..n]))[1..] == Packets(ps[1..n]);
        if ps[0].writeSucceeds {
          assert ps[1..n] == ps[1..][..n - 1];
        } else {
          assert ps[1..n] == [];
        }
      } else {
        assert ps[1..n] == [];
      }
    }
  }

  /** Every pass but one that ends the thread writes once. */
  lemma {:induction false} EveryPassWrites(queue: string, ps: seq<Pass>)
    ensures |Writes(queue, ps)| == PassesMade(ps) - (if EndsThread(ps) then 1 else 0)
    decreases ps
  {
    hide Queued;
    if ps != [] && ps[0].received.Packet? && ps[0].writeSucceeds {
      EveryPassWrites("", ps[1..]);
    }
  }

  /** The last pass made receives nothing or fails to write. */
  predicate EndsThread(ps: seq<Pass>)
    decreases ps
  {
    ps != [] && (!ps[0].received.Packet? || !ps[0].writeSucceeds || EndsThread(ps[1..]))
  }
}
