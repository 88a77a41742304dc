/**
 The byte loops of ReceiveNextPacket, on a serial port and on a Bluetooth socket.

 What the operating system answers to each read is an input: a sequence of outcomes, one per
 read. A call that runs out of outcomes is still blocked in its read.
 */
module Transport {
  import opened AlphaParser
  import opened AlphaDecoder

  /** How a call ended; rest are the outcomes left for the next call. */
  datatype Reception =
    | Received(text: string, rest: nat)
    | ReadError(text: string, rest: nat)
    | Blocked(text: string)

  // ----- serial port -----

  /** ReadFile: it failed, it read nothing, or it read a byte; live says that the loop may go on afterwards. */
  datatype SerialRead =
    | ReadFailed
    | NoByte(live: bool)
    | SerialByte(c: char, live: bool)

  /** The rest of a receive call that has collected text and last saw the byte nextChar. */
  function SerialCall(outcomes: seq<SerialRead>, at: nat, nextChar: char, text: string): Reception
    requires at <= |outcomes|
    decreases |outcomes| - at
  {
    if at == |outcomes| then Blocked(text)
    else match outcomes[at]
      case ReadFailed => ReadError(text, at + 1)
      case NoByte(live) =>
        if nextChar != '\n' && live then SerialCall(outcomes, at + 1, nextChar, text) else Received(text, at + 1)
      case SerialByte(c, live) =>
        var longer := if c == '\n' then text else text + [c];
        if c != '\n' && live then SerialCall(outcomes, at + 1, c, longer) else Received(longer, at + 1)
  }

  method ReceiveSerial(outcomes: seq<SerialRead>, start: nat, buff: string) returns (r: Reception)
    requires start <= |outcomes|
    ensures r == SerialCall(outcomes, start, '\0', buff)
  {
    var text := buff;
    var nextChar := '\0';
    var at := start;
    while true
      invariant start <= at <= |outcomes|
      invariant SerialCall(outcomes, start, '\0', buff) == SerialCall(outcomes, at, nextChar, text)
      decreases |outcomes| - at
    {
      if at == |outcomes| {
        return Blocked(text);
      }
      var read := outcomes[at];
      at := at + 1;
      if read.ReadFailed? {
        return ReadError(text, at);
      }
      if read.SerialByte? {
        nextChar := read.c;
        if nextChar != '\n' {
          text := text + [nextChar];
        }
      }
      if !(nextChar != '\n' && read.live) {
        return Received(text, at);
      }
    }
  }

  // ----- Bluetooth socket -----

  /** recv: an error, a closed connection (no byte is written), or a byte. */
  datatype SocketRead =
    | SocketError
    | Closed(live: bool)
    | SocketByte(c: char, live: bool)

  /** The newline is appended too, and so is the previous byte when the connection was closed. */
  function SocketCall(outcomes: seq<SocketRead>, at: nat, nextChar: char, text: string): Reception
    requires at <= |outcomes|
    decreases |outcomes| - at
  {
    if at == |outcomes| then Blocked(text)
    else match outcomes[at]
      case SocketError => ReadError(text, at + 1)
      case Closed(live) =>
        if nextChar != '\n' && live then SocketCall(outcomes, at + 1, nextChar, text + [nextChar]) else Received(text + [nextChar], at + 1)
      case SocketByte(c, live) =>
        if c != '\n' && live then SocketCall(outcomes, at + 1, c, text + [c]) else Received(text + [c], at + 1)
  }

  method ReceiveSocket(outcomes: seq<SocketRead>, start: nat, buff: string) returns (r: Reception)
    requires start <= |outcomes|
    ensures r == SocketCall(outcomes, start, '\0', buff)
  {
    var text := buff;
    var nextChar := '\0';
    var at := start;
    while true
      invariant start <= at <= |outcomes|
      invariant SocketCall(outcomes, start, '\0', buff) == SocketCall(outcomes, at, nextChar, text)
      decreases |outcomes| - at
    {
      if at == |outcomes| {
        return Blocked(text);
      }
      var read := outcomes[at];
      at := at + 1;
      if read.SocketError? {
        return ReadError(text, at);
      }
      if read.SocketByte? {
        nextChar := read.c;
      }
      text := text + [nextChar];
      if !(nextChar != '\n' && read.live) {
        return Received(text, at);
      }
    }
  }

  // ----- what any outcomes give -----

  predicate EndsSerial(r: SerialRead) {
    r.ReadFailed? || !r.live || (r.SerialByte? && r.c == '\n')
  }

  predicate EndsSocket(r: SocketRead) {
    r.SocketError? || !r.live || (r.SocketByte? && r.c == '\n')
  }

  /** The first read at or behind a position that ends a serial call. */
  function SerialEnd(outcomes: seq<SerialRead>, at: nat): (k: nat)
    requires at <= |outcomes|
    ensures at <= k <= |outcomes|
    decreases |outcomes| - at
  {
    if at == |outcomes| || EndsSerial(outcomes[at]) then at else SerialEnd(outcomes, at + 1)
  }

  function SocketEnd(outcomes: seq<SocketRead>, at: nat): (k: nat)
    requires at <= |outcomes|
    ensures at <= k <= |outcomes|
    decreases |outcomes| - at
  {
    if at == |outcomes| || EndsSocket(outcomes[at]) then at else SocketEnd(outcomes, at + 1)
  }

  /** A serial call fails, returns or blocks with the bytes up to the read that ends it; a newline is not among them. */
  lemma {:induction false} SerialCallIs(outcomes: seq<SerialRead>, at: nat, nextChar: char, text: string)
    requires at <= |outcomes| && nextChar != '\n'
    ensures var k := SerialEnd(outcomes, at);
      var front := text + SerialBytes(outcomes[at..k]);
      SerialCall(outcomes, at, nextChar, text) ==
        if k == |outcomes| then Blocked(front)
        else if outcomes[k].ReadFailed? then ReadError(front, k + 1)
        else Received(front + (if outcomes[k].SerialByte? && outcomes[k].c != '\n' then [outcomes[k].c] else ""), k + 1)
    decreases |outcomes| - at
  {
    var k := SerialEnd(outcomes, at);
    assert outcomes[at..at] == [] && SerialBytes([]) == "";
    if at < k {
      var r, more := outcomes[at], SerialBytes(outcomes[at + 1..k]);
      assert outcomes[at..k][1..] == outcomes[at + 1..k];
      assert SerialBytes(outcomes[at..k]) == (if r.SerialByte? then [r.c] else "") + more;
      if r.SerialByte? {
        SerialCallIs(outcomes, at + 1, r.c, text + [r.c]);
        assert text + [r.c] + more == text + ([r.c] + more);
      } else {
        SerialCallIs(outcomes, at + 1, nextChar, text);
      }
      hide SerialBytes;
    }
  }

  /** What the socket loop appends for some reads: their bytes, and once more the last one for each read of a closed connection. */
  function Echoed(outcomes: seq<SocketRead>, nextChar: char): string {
    if outcomes == [] then ""
    else
      var c := if outcomes[0].SocketByte? then outcomes[0].c else nextChar;
      [c] + Echoed(outcomes[1..], c)
  }

  /** A Bluetooth call does the same, with the newline, and repeats bytes when the connection is closed. */
  lemma {:induction false} SocketCallIs(outcomes: seq<SocketRead>, at: nat, nextChar: char, text: string)
    requires at <= |outcomes| && nextChar != '\n'
    ensures var k := SocketEnd(outcomes, at);
      SocketCall(outcomes, at, nextChar, text) ==
        if k == |outcomes| then Blocked(text + Echoed(outcomes[at..k], nextChar))
        else if outcomes[k].SocketError? then ReadError(text + Echoed(outcomes[at..k], nextChar), k + 1)
        else Received(text + Echoed(outcomes[at..k + 1], nextChar), k + 1)
    decreases |outcomes| - at
  {
    var k := SocketEnd(outcomes, at);
    assert outcomes[at..at] == [] && Echoed([], nextChar) == "";
    if at < |outcomes| && !outcomes[at].SocketError? {
      var c := if outcomes[at].SocketByte? then outcomes[at].c else nextChar;
      if at == k {
        assert outcomes[at..k + 1] == [outcomes[at]] && [outcomes[at]][1..] == [];
        assert Echoed([outcomes[at]], nextChar) == [c] + Echoed([], c) == [c];
      } else {
        SocketCallIs(outcomes, at + 1, c, text + [c]);
        EchoedFirst(outcomes, at, k, nextChar, c);
        if k < |outcomes| {
          EchoedFirst(outcomes, at, k + 1, nextChar, c);
          assert text + [c] + Echoed(outcomes[at + 1..k + 1], c) == text + ([c] + Echoed(outcomes[at + 1..k + 1], c));
        }
        assert text + [c] + Echoed(outcomes[at + 1..k], c) == text + ([c] + Echoed(outcomes[at + 1..k], c));
        hide Echoed;
      }
    }
  }

  lemma EchoedFirst(outcomes: seq<SocketRead>, at: nat, k: nat, nextChar: char, c: char)
    requires at < k <= |outcomes| && c == if outcomes[at].SocketByte? then outcomes[at].c else nextChar
    ensures Echoed(outcomes[at..k], nextChar) == [c] + Echoed(outcomes[at + 1..k], c)
  {
    assert outcomes[at..k][1..] == outcomes[at + 1..k];
  }

  // ----- undisturbed streams -----

  ghost predicate QuietSerial(outcomes: seq<SerialRead>) {
    forall r <- outcomes :: !r.ReadFailed? && r.live
  }

  ghost predicate QuietSocket(outcomes: seq<SocketRead>) {
    forall r <- outcomes :: r.SocketByte? && r.live
  }

  function SerialBytes(outcomes: seq<SerialRead>): string {
    if outcomes == [] then ""
    else (if outcomes[0].SerialByte? then [outcomes[0].c] else "") + SerialBytes(outcomes[1..])
  }

  function SocketBytes(outcomes: seq<SocketRead>): string {
    if outcomes == [] then ""
    else (if outcomes[0].SocketByte? then [outcomes[0].c] else "") + SocketBytes(outcomes[1..])
  }

  /** The length of the first line, without its newline. */
  function LineLength(bytes: string): (n: nat)
    ensures n <= |bytes|
    ensures '\n' !in bytes[..n]
    ensures n < |bytes| ==> bytes[n] == '\n'
  {
    if bytes == "" || bytes[0] == '\n' then 0 else 1 + LineLength(bytes[1..])
  }

  predicate HasLine(bytes: string) {
    LineLength(bytes) < |bytes|
  }

  /** After text, the first line of the stream has been received, and left is what follows its newline. */
  ghost predicate ReadsLine(bytes: string, text: string, received: string, left: string) {
    HasLine(bytes) && received == text + bytes[..LineLength(bytes)] && left == bytes[LineLength(bytes) + 1..]
  }

  lemma ReadsEmptyLine(more: string, text: string)
    ensures ReadsLine("\n" + more, text, text, more)
  {
    assert LineLength("\n" + more) == 0;
  }

  lemma ReadsOneMore(c: char, more: string, text: string, received: string, left: string)
    requires c != '\n'
    ensures HasLine([c] + more) <==> HasLine(more)
    ensures ReadsLine(more, text + [c], received, left) ==> ReadsLine([c] + more, text, received, left)
  {
    assert ([c] + more)[1..] == more;
    assert LineLength([c] + more) == 1 + LineLength(more);
    if HasLine(more) {
      assert ([c] + more)[..1 + LineLength(more)] == [c] + more[..LineLength(more)];
      assert text + ([c] + more[..LineLength(more)]) == text + [c] + more[..LineLength(more)];
    }
  }

  lemma NoLineInNothing()
    ensures !HasLine("")
  {}

  /** A quiet serial call returns the text so far and the next line, however many empty reads there are. */
  lemma {:induction false} SerialCallReadsLine(outcomes: seq<SerialRead>, at: nat, nextChar: char, text: string)
    requires at <= |outcomes| && QuietSerial(outcomes) && nextChar != '\n'
    requires HasLine(SerialBytes(outcomes[at..]))
    ensures var r := SerialCall(outcomes, at, nextChar, text);
      && r.Received? && at < r.rest <= |outcomes|
      && ReadsLine(SerialBytes(outcomes[at..]), text, r.text, SerialBytes(outcomes[r.rest..]))
    decreases |outcomes| - at
  {
    UnfoldSerialBytes(outcomes, at);
    NoLineInNothing();
    assert outcomes[at] in outcomes;
    var more := SerialBytes(outcomes[at + 1..]);
    var r := SerialCall(outcomes, at, nextChar, text);
    hide HasLine, SerialBytes, ReadsLine;
    match outcomes[at]
    case NoByte(_) =>
      assert "" + more == more;
      SerialCallReadsLine(outcomes, at + 1, nextChar, text);
    case SerialByte(c, _) =>
      if c == '\n' {
        ReadsEmptyLine(more, text);
      } else {
        ReadsOneMore(c, more, text, r.text, if r.Received? && r.rest <= |outcomes| then SerialBytes(outcomes[r.rest..]) else "");
        SerialCallReadsLine(outcomes, at + 1, c, text + [c]);
      }
  }

  lemma UnfoldSerialBytes(outcomes: seq<SerialRead>, at: nat)
    requires at <= |outcomes|
    ensures SerialBytes([]) == ""
    ensures at < |outcomes| ==>
      SerialBytes(outcomes[at..]) == (if outcomes[at].SerialByte? then [outcomes[at].c] else "") + SerialBytes(outcomes[at + 1..])
    ensures at == |outcomes| ==> SerialBytes(outcomes[at..]) == ""
  {
    if at < |outcomes| {
      assert outcomes[at..][1..] == outcomes[at + 1..];
    }
  }

  lemma UnfoldSocketBytes(outcomes: seq<SocketRead>, at: nat)
    requires at <= |outcomes|
    ensures at < |outcomes| ==>
      SocketBytes(outcomes[at..]) == (if outcomes[at].SocketByte? then [outcomes[at].c] else "") + SocketBytes(outcomes[at + 1..])
    ensures at == |outcomes| ==> SocketBytes(outcomes[at..]) == ""
  {
    if at < |outcomes| {
      assert outcomes[at..][1..] == outcomes[at + 1..];
    }
  }

  /** A quiet Bluetooth call returns the same line, with its newline. */
  lemma {:induction false} SocketCallReadsLine(outcomes: seq<SocketRead>, at: nat, nextChar: char, text: string)
    requires at <= |outcomes| && QuietSocket(outcomes) && nextChar != '\n'
    requires HasLine(SocketBytes(outcomes[at..]))
    ensures var r := SocketCall(outcomes, at, nextChar, text);
      && r.Received? && at < r.rest <= |outcomes| && r.text != ""
      && r.text == r.text[..|r.text| - 1] + "\n"
      && ReadsLine(SocketBytes(outcomes[at..]), text, r.text[..|r.text| - 1], SocketBytes(outcomes[r.rest..]))
    decreases |outcomes| - at
  {
    UnfoldSocketBytes(outcomes, at);
    NoLineInNothing();
    assert outcomes[at] in outcomes;
    var c, more := outcomes[at].c, SocketBytes(outcomes[at + 1..]);
    var r := SocketCall(outcomes, at, nextChar, text);
    hide HasLine, SocketBytes, ReadsLine;
    if c == '\n' {
      ReadsEmptyLine(more, text);
      assert (text + "\n")[..|text|] == text;
    } else {
      SocketCallReadsLine(outcomes, at + 1, c, text + [c]);
      ReadsOneMore(c, more, text, r.text[..|r.text| - 1], SocketBytes(outcomes[r.rest..]));
    }
  }

  // ----- many receives -----

  function Newlines(bytes: string): nat {
    if bytes == "" then 0 else (if bytes[0] == '\n' then 1 else 0) + Newlines(bytes[1..])
  }

  /** The texts of the first n receives from position at on. */
  function SerialTexts(outcomes: seq<SerialRead>, at: nat, n: nat): seq<string>
    requires at <= |outcomes|
    decreases n
  {
    if n == 0 then []
    else
      var r := SerialCall(outcomes, at, '\0', "");
      if r.Received? && r.rest <= |outcomes| then [r.text] + SerialTexts(outcomes, r.rest, n - 1) else []
  }

  function SocketTexts(outcomes: seq<SocketRead>, at: nat, n: nat): seq<string>
    requires at <= |outcomes|
    decreases n
  {
    if n == 0 then []
    else
      var r := SocketCall(outcomes, at, '\0', "");
      if r.Received? && r.rest <= |outcomes| then [r.text] + SocketTexts(outcomes, r.rest, n - 1) else []
  }

  /** The first n lines of a stream. */
  function Lines(bytes: string, n: nat): (lines: seq<string>)
    requires n <= Newlines(bytes)
  {
    if n == 0 then []
    else
      FirstLineCounts(bytes);
      [bytes[..LineLength(bytes)]] + Lines(bytes[LineLength(bytes) + 1..], n - 1)
  }

  lemma FirstLineCounts(bytes: string)
    requires Newlines(bytes) > 0
    ensures HasLine(bytes)
    ensures Newlines(bytes[LineLength(bytes) + 1..]) == Newlines(bytes) - 1
  {
    if bytes[0] == '\n' {
      assert LineLength(bytes) == 0;
    } else {
      FirstLineCounts(bytes[1..]);
      var n := LineLength(bytes[1..]);
      assert LineLength(bytes) == n + 1;
      assert bytes[1..][n + 1..] == bytes[n + 2..];
    }
  }

  /** The lines, each with its newline, are the front of the stream. */
  ghost predicate IsFront(lines: seq<string>, bytes: string) {
    JoinLines(lines) <= bytes
  }

  /** Lines lose nothing. */
  lemma {:induction false} LinesAreTheStream(bytes: string, n: nat)
    requires n <= Newlines(bytes)
    ensures |Lines(bytes, n)| == n
    ensures IsFront(Lines(bytes, n), bytes)
  {
    if n > 0 {
      FirstLineCounts(bytes);
      var k := LineLength(bytes);
      LinesAreTheStream(bytes[k + 1..], n - 1);
      FrontCons(bytes, Lines(bytes[k + 1..], n - 1));
      hide LineLength, Newlines, IsFront, HasLine;
    }
  }

  lemma FrontCons(bytes: string, lines: seq<string>)
    requires HasLine(bytes)
    requires IsFront(lines, bytes[LineLength(bytes) + 1..])
    ensures IsFront([bytes[..LineLength(bytes)]] + lines, bytes)
  {
    var line, more := bytes[..LineLength(bytes)], bytes[LineLength(bytes) + 1..];
    FirstLineSplits(bytes);
    JoinCons(line, lines);
    PrefixOfConcat(line + "\n", JoinLines(lines), more);
    hide LineLength, HasLine, JoinLines;
  }

  lemma {:induction false} LinesHoldNoNewline(bytes: string, n: nat)
    requires n <= Newlines(bytes)
    ensures forall line <- Lines(bytes, n) :: '\n' !in line
  {
    if n > 0 {
      FirstLineCounts(bytes);
      LinesHoldNoNewline(bytes[LineLength(bytes) + 1..], n - 1);
      hide LineLength, Newlines;
    }
  }

  lemma FirstLineSplits(bytes: string)
    requires HasLine(bytes)
    ensures bytes == bytes[..LineLength(bytes)] + "\n" + bytes[LineLength(bytes) + 1..]
  {}

  lemma JoinCons(line: string, lines: seq<string>)
    ensures JoinLines([line] + lines) == line + "\n" + JoinLines(lines)
  {
    assert ([line] + lines)[1..] == lines;
  }

  lemma PrefixOfConcat(a: string, b: string, c: string)
    requires b <= c
    ensures a + b <= a + c
  {}

  function JoinLines(lines: seq<string>): string {
    if lines == [] then "" else lines[0] + "\n" + JoinLines(lines[1..])
  }

  lemma NextLine(bytes: string, n: nat, received: string, left: string)
    requires 0 < n <= Newlines(bytes) && ReadsLine(bytes, "", received, left)
    ensures n - 1 <= Newlines(left) && Lines(bytes, n) == [received] + Lines(left, n - 1)
  {
    FirstLineCounts(bytes);
    assert received == bytes[..LineLength(bytes)];
  }

  lemma {:induction false} SerialReceivesLines(outcomes: seq<SerialRead>, at: nat, n: nat)
    requires at <= |outcomes| && QuietSerial(outcomes)
    requires n <= Newlines(SerialBytes(outcomes[at..]))
    ensures SerialTexts(outcomes, at, n) == Lines(SerialBytes(outcomes[at..]), n)
    decreases n
  {
    if n > 0 {
      var bytes := SerialBytes(outcomes[at..]);
      FirstLineCounts(bytes);
      SerialCallReadsLine(outcomes, at, '\0', "");
      var r := SerialCall(outcomes, at, '\0', "");
      NextLine(bytes, n, r.text, SerialBytes(outcomes[r.rest..]));
      hide SerialCall, SerialBytes, Newlines, QuietSerial, ReadsLine, Lines;
      SerialReceivesLines(outcomes, r.rest, n - 1);
    }
  }

  function WithNewlines(lines: seq<string>): (r: seq<string>)
    ensures |r| == |lines|
    ensures forall i :: 0 <= i < |lines| ==> r[i] == lines[i] + "\n"
  {
    if lines == [] then [] else [lines[0] + "\n"] + WithNewlines(lines[1..])
  }

  lemma {:induction false} SocketReceivesLines(outcomes: seq<SocketRead>, at: nat, n: nat)
    requires at <= |outcomes| && QuietSocket(outcomes)
    requires n <= Newlines(SocketBytes(outcomes[at..]))
    ensures SocketTexts(outcomes, at, n) == WithNewlines(Lines(SocketBytes(outcomes[at..]), n))
    decreases n
  {
    if n > 0 {
      var bytes := SocketBytes(outcomes[at..]);
      FirstLineCounts(bytes);
      SocketCallReadsLine(outcomes, at, '\0', "");
      var r := SocketCall(outcomes, at, '\0', "");
      var line, left := r.text[..|r.text| - 1], SocketBytes(outcomes[r.rest..]);
      NextLine(bytes, n, line, left);
      hide SocketCall, SocketBytes, Newlines, QuietSocket, ReadsLine, Lines;
      SocketReceivesLines(outcomes, r.rest, n - 1);
      assert ([line] + Lines(left, n - 1))[1..] == Lines(left, n - 1);
    }
  }

  /** The same bytes decode to the same inputs, packet by packet, whichever way they travelled. */
  lemma TransportIndependence(serial: seq<SerialRead>, socket: seq<SocketRead>, n: nat, range: AnalogRange)
    requires QuietSerial(serial) && QuietSocket(socket)
    requires SerialBytes(serial) == SocketBytes(socket) && n <= Newlines(SerialBytes(serial))
    ensures |SerialTexts(serial, 0, n)| == |SocketTexts(socket, 0, n)| == n
    ensures forall i :: 0 <= i < n ==> Meaning(SerialTexts(serial, 0, n)[i], range) == Meaning(SocketTexts(socket, 0, n)[i], range)
  {
    assert serial[0..] == serial && socket[0..] == socket;
    SerialReceivesLines(serial, 0, n);
    SocketReceivesLines(socket, 0, n);
    var lines := Lines(SerialBytes(serial), n);
    LinesAreTheStream(SerialBytes(serial), n);
    hide Meaning;
    forall i | 0 <= i < n ensures Meaning(lines[i], range) == Meaning(lines[i] + "\n", range) {
      NewlineIsNoMeaning(lines[i], range);
    }
  }

  lemma NewlineIsNoMeaning(line: string, range: AnalogRange)
    ensures Meaning(line, range) == Meaning(line + "\n", range)
  {
    ParseAcrossNewline(line, "");
    hide Parse;
  }
}
