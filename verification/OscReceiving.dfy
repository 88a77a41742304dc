/**
 What minioscProcess reports on the bytes of a message that minioscEncodeInternal writes.

 A blob is read as a string and takes two parameters; of messages with blobs only those with one at
 the end are looked at.
 */
module OscReceiving {
  import opened NativeTypes
  import opened OscFormat
  import opened OscRoundTrip
  import opened Texts
  import opened MiniOsc
  import opened OscProcess

  // ----- what a parameter pointer shows -----

  /** A C string at a place. */
  predicate TextIs(buffer: string, at: nat, s: string) {
    at + |s| + 1 <= |buffer| && buffer[at..at + |s| + 1] == s + "\0"
  }

  /** A little-endian word. */
  function NativeWord(buffer: string, at: nat): uint32
    requires at + 4 <= |buffer|
  {
    WordValue([buffer[at + 3], buffer[at + 2], buffer[at + 1], buffer[at]])
  }

  /** The memory at a parameter pointer reads as the argument. */
  predicate Shows(buffer: string, at: nat, a: Arg) {
    match a
    case Int(w) => at + 4 <= |buffer| && NativeWord(buffer, at) == w
    case Float(bits) => at + 4 <= |buffer| && NativeWord(buffer, at) == bits
    case Str(s) => TextIs(buffer, at, s)
    case Blob(_) => false
  }

  predicate AllShown(buffer: string, parameters: seq<nat>, args: seq<Arg>) {
    |parameters| == |args| && forall i :: 0 <= i < |args| ==> Shows(buffer, parameters[i], args[i])
  }

  /** The callback is called, and sees the message. */
  predicate Reports(p: Processed, m: Message) {
    && p.err == 0
    && TextIs(p.buffer, 0, m.address)
    && TextIs(p.buffer, p.types, "," + m.tags)
    && AllShown(p.buffer, p.parameters, m.args)
  }

  predicate NoBlobs(args: seq<Arg>) {
    forall a <- args :: !a.Blob?
  }

  /** No argument comes after a string. */
  predicate StringsEnd(args: seq<Arg>) {
    forall i :: 0 <= i < |args| - 1 ==> !args[i].Str?
  }

  // ----- scanning -----

  lemma ScanOfText(buffer: string, start: nat, here: nat, length: nat, s: CString)
    requires Scannable(buffer, start, here, length) && TextIs(buffer, here, s) && here + |s| - start < length
    ensures Scanned(buffer, start, here, length) == Scan(here + |s| + 1 - start, here + RoundUp(here + |s| + 1 - start))
  {
    var text := buffer[here..];
    assert text[..|s|] == buffer[here..here + |s| + 1][..|s|] == s;
    assert text[|s|] == buffer[here..here + |s| + 1][|s|] == '\0';
    hide RoundUp;
    TextLengthAtLeast(text, |s|);
  }

  lemma TextInBytes(buffer: string, at: nat, end: nat, s: CString, rest: string)
    requires at <= end <= |buffer| && buffer[at..end] == StringBytes(s) + rest
    ensures TextIs(buffer, at, s) && |s| + 1 <= RoundUp(|s| + 1) == |StringBytes(s)|
    ensures at + |StringBytes(s)| <= end && buffer[at + |StringBytes(s)|..end] == rest
  {
    RoundUpIsMultiple(|s| + 1);
    assert |s + "\0"| == |s| + 1;
    hide RoundUp;
    assert buffer[at..end][..|s| + 1] == s + "\0";
    assert buffer[at..end][|StringBytes(s)|..] == rest;
  }

  // ----- messages that come back as they were sent -----

  lemma {:induction false} DatalessTags(tags: string, c: Cursor, r: nat)
    requires r <= |c.buffer| && Typed(tags, [])
    ensures ProcessTags(tags, c, r) == Progress(0, c)
    ensures ArgsBytes(tags, []) == ""
    decreases |tags|
  {
    if tags != "" {
      DatalessTags(tags[1..], c, r);
    }
  }

  lemma WordShown(buffer: string, at: nat, w: uint32, later: string)
    requires at + 4 <= |buffer| == |later| && buffer[at..at + 4] == WordBytes(w)
    requires later[..at + 4] == Swapped(buffer, at)[..at + 4]
    ensures NativeWord(later, at) == w
  {
    WordRoundTrip(w);
    hide WordBytes, WordValue;
    assert forall k :: at <= k < at + 4 ==> later[k] == later[..at + 4][k] == Swapped(buffer, at)[k];
    assert buffer[at..at + 4] == [buffer[at], buffer[at + 1], buffer[at + 2], buffer[at + 3]];
  }

  lemma SwapLeaves(buffer: string, at: nat, r: nat)
    requires at + 4 <= r <= |buffer|
    ensures Swapped(buffer, at)[..at] == buffer[..at]
    ensures Swapped(buffer, at)[at + 4..r] == buffer[at + 4..r]
  {}

  lemma FirstWord(tags: string, args: seq<Arg>, buffer: string, at: nat, r: nat)
    requires Typed(tags, args) && tags != "" && (IsIntTag(tags[0]) || tags[0] == 'f')
    requires at <= r <= |buffer| && buffer[at..r] == ArgsBytes(tags, args)
    ensures at + 4 <= r && buffer[at + 4..r] == ArgsBytes(tags[1..], args[1..])
    ensures args[0].Int? ==> buffer[at..at + 4] == WordBytes(args[0].i)
    ensures args[0].Float? ==> buffer[at..at + 4] == WordBytes(args[0].bits)
  {
    hide WordBytes;
    assert ArgsBytes(tags, args) == ArgBytes(args[0]) + ArgsBytes(tags[1..], args[1..]);
    assert buffer[at..r][..4] == buffer[at..at + 4];
    assert buffer[at..r][4..] == buffer[at + 4..r];
  }

  lemma DatalessBytes(tags: string, args: seq<Arg>)
    requires Typed(tags, args) && tags != "" && IsDataless(tags[0])
    ensures ArgsBytes(tags, args) == ArgsBytes(tags[1..], args)
  {}

  /** The loop has added parameters that show these arguments, and left alone what is in front of its start. */
  ghost predicate Continues(c: Cursor, e: Cursor, args: seq<Arg>) {
    && c.place <= |c.buffer| == |e.buffer| && e.buffer[..c.place] == c.buffer[..c.place]
    && c.parameters <= e.parameters
    && AllShown(e.buffer, e.parameters[|c.parameters|..], args)
  }

  lemma {:induction false} ArgsComeBack(tags: string, args: seq<Arg>, c: Cursor, r: nat)
    requires Typed(tags, args) && NoBlobs(args) && StringsEnd(args)
    requires c.place <= r <= |c.buffer| && c.buffer[c.place..r] == ArgsBytes(tags, args)
    ensures ProcessTags(tags, c, r).err == 0 && Continues(c, ProcessTags(tags, c, r).cursor, args)
    decreases |tags|
  {
    hide Continues, ArgsBytes, Scanned, Swapped, WordBytes;
    var p := ProcessTags(tags, c, r);
    if tags == "" {
      NothingToShow(c);
    } else if IsDataless(tags[0]) {
      DatalessBytes(tags, args);
      ArgsComeBack(tags[1..], args, c, r);
    } else if tags[0] == 's' {
      LastString(tags, args, c, r);
    } else {
      var d := ProcessTag(tags[0], c, r).cursor;
      FirstWord(tags, args, c.buffer, c.place, r);
      SwapLeaves(c.buffer, c.place, r);
      ArgsComeBack(tags[1..], args[1..], d, r);
      WordComesBack(args, c, d, p.cursor);
    }
  }

  lemma NothingToShow(c: Cursor)
    requires c.place <= |c.buffer|
    ensures Continues(c, c, [])
  {}

  lemma WordComesBack(args: seq<Arg>, c: Cursor, d: Cursor, e: Cursor)
    requires args != [] && (args[0].Int? || args[0].Float?) && c.place + 4 <= |c.buffer|
    requires args[0].Int? ==> c.buffer[c.place..c.place + 4] == WordBytes(args[0].i)
    requires args[0].Float? ==> c.buffer[c.place..c.place + 4] == WordBytes(args[0].bits)
    requires d == Cursor(Swapped(c.buffer, c.place), c.place + 4, c.parameters + [c.place])
    requires Continues(d, e, args[1..])
    ensures Continues(c, e, args)
  {
    WordShown(c.buffer, c.place, if args[0].Int? then args[0].i else args[0].bits, e.buffer);
    SwapLeaves(c.buffer, c.place, |c.buffer|);
    assert e.buffer[..c.place] == e.buffer[..c.place + 4][..c.place];
    assert d.buffer[..c.place] == d.buffer[..c.place + 4][..c.place];
    hide NativeWord, Swapped, WordBytes, TextIs;
    var qs, all := e.parameters[|d.parameters|..], e.parameters[|c.parameters|..];
    assert all[0] == d.parameters[|c.parameters|] == c.place && all[1..] == qs;
    forall i | 0 <= i < |args| ensures Shows(e.buffer, all[i], args[i]) {
      if i > 0 {
        assert all[i] == qs[i - 1] && args[i] == args[1..][i - 1];
      }
    }
  }

  lemma LastString(tags: string, args: seq<Arg>, c: Cursor, r: nat)
    requires Typed(tags, args) && tags != "" && tags[0] == 's' && StringsEnd(args)
    requires c.place <= r <= |c.buffer| && c.buffer[c.place..r] == ArgsBytes(tags, args)
    ensures ProcessTags(tags, c, r).err == 0 && Continues(c, ProcessTags(tags, c, r).cursor, args)
  {
    assert args == [args[0]] && args[1..] == [];
    var d := ProcessTag(tags[0], c, r).cursor;
    DatalessTags(tags[1..], d, r);
    hide Scanned, StringBytes;
    TextInBytes(c.buffer, c.place, r, args[0].s, "");
    assert d.parameters[|c.parameters|..] == [c.place];
    assert AllShown(c.buffer, [c.place], args);
  }

  // ----- whole messages -----

  /** The buffer has received the message, in front of whatever it held before. */
  predicate Received(buffer: string, r: nat, m: Message) {
    WellFormed(m) && r <= |buffer| && buffer[..r] == MessageBytes(m)
  }

  function TypeString(m: Message): (s: CString)
    ensures |s| == |m.tags| + 1
  {
    "," + m.tags
  }

  /** The message as a receiver finds it: two strings, and the data behind them. */
  ghost predicate LaidOut(buffer: string, r: nat, m: Message, types: nat, data: nat) {
    && types + |m.tags| + 2 <= data <= r <= |buffer| && |m.address| < types
    && Typed(m.tags, m.args) && m.address != "" && m.address[0] == '/'
    && types == RoundUp(|m.address| + 1) && data == types + RoundUp(|m.tags| + 2)
    && TextIs(buffer, 0, m.address) && TextIs(buffer, types, TypeString(m))
    && buffer[data..r] == ArgsBytes(m.tags, m.args)
  }

  lemma ReceivedIsLaidOut(buffer: string, r: nat, m: Message)
    requires Received(buffer, r, m)
    ensures var types := |StringBytes(m.address)|;
      LaidOut(buffer, r, m, types, types + |StringBytes(TypeString(m))|)
  {
    var data := ArgsBytes(m.tags, m.args);
    PaddedLength(m.address);
    PaddedLength(TypeString(m));
    assert MessageBytes(m) == StringBytes(m.address) + StringBytes(TypeString(m)) + data;
    hide StringBytes, ArgsBytes, Typed, TextIs, RoundUp, TypeString, MessageBytes;
    Regroup(StringBytes(m.address), StringBytes(TypeString(m)), data);
    assert buffer[0..r] == buffer[..r];
    TextInBytes(buffer, 0, r, m.address, StringBytes(TypeString(m)) + data);
    TextInBytes(buffer, |StringBytes(m.address)|, r, TypeString(m), data);
  }

  lemma LaidOutScans(buffer: string, r: nat, m: Message, types: nat, data: nat)
    requires LaidOut(buffer, r, m, types, data)
    ensures TypesReadable(buffer, r)
    ensures Scanned(buffer, 0, 0, r) == Scan(|m.address| + 1, types)
    ensures Scanned(buffer, types, types, r) == Scan(|m.tags| + 2, data)
  {
    hide Scanned, ArgsBytes, Typed, TextIs, RoundUp, TypeString;
    ScanOfText(buffer, 0, 0, r, m.address);
    TypesScanned(buffer, types, r, TypeString(m));
  }

  lemma HeaderOfMessage(buffer: string, r: nat, m: Message, types: nat, data: nat)
    requires LaidOut(buffer, r, m, types, data)
    ensures TypesReadable(buffer, r) && HeaderOf(buffer, r) == Header(types, types + |m.tags| + 1, data)
    ensures buffer[types + 1..types + |m.tags| + 1] == m.tags
  {
    LaidOutScans(buffer, r, m, types, data);
    FirstOfText(buffer, 0, m.address);
    TagsInText(buffer, types, m.tags);
    hide *;
    HeaderIs(buffer, r, Scan(|m.address| + 1, types), Scan(|m.tags| + 2, data));
  }

  lemma HeaderIs(buffer: string, r: nat, name: Scan, types: Scan)
    requires TypesReadable(buffer, r)
    requires name == Scanned(buffer, 0, 0, r) && types == Scanned(buffer, name.next, name.next, r)
    requires name.len > 0 && types.len > 0 && 0 < |buffer| && buffer[0] == '/'
    requires name.next < |buffer| && buffer[name.next] == ','
    ensures HeaderOf(buffer, r) == Header(name.next, name.next + types.len - 1, types.next)
  {
    hide Scanned, Scannable, TypesReadable;
  }

  lemma PaddedLength(s: CString)
    ensures |StringBytes(s)| == RoundUp(|s| + 1)
  {
    hide RoundUp;
    assert |s + "\0"| == |s| + 1;
  }

  lemma FirstOfText(buffer: string, at: nat, s: string)
    requires TextIs(buffer, at, s) && s != ""
    ensures buffer[at] == s[0]
  {
    assert buffer[at] == buffer[at..at + |s| + 1][0];
  }

  lemma TagsInText(buffer: string, at: nat, tags: string)
    requires TextIs(buffer, at, "," + tags)
    ensures buffer[at] == ',' && buffer[at + 1..at + 1 + |tags|] == tags
  {
    var text := buffer[at..at + |"," + tags| + 1];
    assert text[0] == ',';
    forall k | 0 <= k < |tags| ensures buffer[at + 1 + k] == tags[k] {
      assert buffer[at + 1 + k] == text[1 + k] == (("," + tags) + "\0")[1 + k];
    }
  }

  lemma TypesScanned(buffer: string, at: nat, r: nat, types: CString)
    requires TextIs(buffer, at, types) && |types| < r <= |buffer|
    ensures Scannable(buffer, at, at, r)
    ensures Scanned(buffer, at, at, r) == Scan(|types| + 1, at + RoundUp(|types| + 1))
  {
    assert buffer[at..][|types|] == buffer[at..at + |types| + 1][|types|] == '\0';
    assert '\0' in buffer[at..];
    ScanOfText(buffer, at, at, r, types);
  }

  lemma LaidOutComesBack(buffer: string, r: nat, m: Message, types: nat, data: nat)
    requires LaidOut(buffer, r, m, types, data) && NoBlobs(m.args) && StringsEnd(m.args)
    ensures TypesReadable(buffer, r) && Reports(Process(buffer, r), m)
  {
    hide HeaderOf, ArgsBytes, Typed, TypesReadable, ProcessTags, TextIs, RoundUp, AllShown, NoBlobs, StringsEnd;
    HeaderOfMessage(buffer, r, m, types, data);
    var c := Cursor(buffer, data, []);
    ArgsComeBack(m.tags, m.args, c, r);
    var e := ProcessTags(m.tags, c, r).cursor;
    assert e.parameters[0..] == e.parameters;
    TextStays(buffer, e.buffer, data, 0, m.address);
    TextStays(buffer, e.buffer, data, types, TypeString(m));
  }

  /** A message without blobs, and with a string only at the end, is reported as it was sent. */
  lemma ComesBack(buffer: string, r: nat, m: Message)
    requires Received(buffer, r, m) && NoBlobs(m.args) && StringsEnd(m.args)
    ensures TypesReadable(buffer, r) && Reports(Process(buffer, r), m)
  {
    hide *;
    var types := |StringBytes(m.address)|;
    ReceivedIsLaidOut(buffer, r, m);
    LaidOutComesBack(buffer, r, m, types, types + |StringBytes(TypeString(m))|);
  }

  lemma TextStays(before: string, after: string, n: nat, at: nat, s: string)
    requires n <= |before| == |after| && before[..n] == after[..n] && TextIs(before, at, s) && at + |s| + 1 <= n
    ensures TextIs(after, at, s)
  {
    assert forall k :: 0 <= k < n ==> before[k] == before[..n][k] == after[..n][k] == after[k];
    assert after[at..at + |s| + 1] == before[at..at + |s| + 1];
  }

  // ----- messages that do not -----

  /** Either the callback is not called, or the parameter of some string shows something else. */
  ghost predicate Misreports(p: Progress, base: nat, args: seq<Arg>) {
    p.err == 0 ==>
      && |p.cursor.parameters| == base + |args|
      && exists i :: 0 <= i < |args| && args[i].Str? && !Shows(p.cursor.buffer, p.cursor.parameters[base + i], args[i])
  }

  lemma MisreportsLater(p: Progress, base: nat, args: seq<Arg>)
    requires args != [] && Misreports(p, base + 1, args[1..])
    ensures Misreports(p, base, args)
  {
    hide Shows;
    if p.err == 0 {
      var i :| 0 <= i < |args[1..]| && args[1..][i].Str? && !Shows(p.cursor.buffer, p.cursor.parameters[base + 1 + i], args[1..][i]);
      assert !Shows(p.cursor.buffer, p.cursor.parameters[base + (i + 1)], args[i + 1]);
    }
  }

  /** The loop adds one parameter for each argument. */
  lemma {:induction false} ParametersGrow(tags: string, args: seq<Arg>, c: Cursor, r: nat)
    requires Typed(tags, args) && NoBlobs(args) && r <= |c.buffer|
    ensures var p := ProcessTags(tags, c, r);
      && c.parameters <= p.cursor.parameters
      && (p.err == 0 ==> |p.cursor.parameters| == |c.parameters| + |args|)
    decreases |tags|
  {
    hide Scanned, Swapped;
    if tags == "" {
    } else if IsDataless(tags[0]) {
      ParametersGrow(tags[1..], args, c, r);
    } else {
      var d := ProcessTag(tags[0], c, r);
      if d.err == 0 {
        ParametersGrow(tags[1..], args[1..], d.cursor, r);
      }
    }
  }

  lemma TagKeepsNoNul(tag: char, c: Cursor, r: nat)
    requires c.place <= r <= |c.buffer| && NoNulIn(c.buffer, c.place, r)
    ensures NoNulIn(ProcessTag(tag, c, r).cursor.buffer, c.place, r)
  {
    hide Scanned;
  }

  lemma NoNulKept(before: string, after: string, place: nat, later: nat, r: nat)
    requires NoNulIn(before, place, r) && KeptOutside(before, after, later, r)
    requires later <= r ==> NoNulIn(after, later, r)
    ensures NoNulIn(after, place, r)
  {}

  /** Where the loop finds no NUL it leaves none. */
  lemma {:induction false} NoNulStays(tags: string, c: Cursor, r: nat)
    requires c.place <= r <= |c.buffer| && NoNulIn(c.buffer, c.place, r)
    ensures NoNulIn(ProcessTags(tags, c, r).cursor.buffer, c.place, r)
    decreases |tags|
  {
    if tags != "" {
      var d := ProcessTag(tags[0], c, r);
      TagKeepsNoNul(tags[0], c, r);
      if d.err == 0 {
        var after := ProcessTags(tags[1..], d.cursor, r).cursor.buffer;
        OnlyDataChanges(tags[1..], d.cursor, r);
        assert d.cursor.place <= r ==> NoNulIn(d.cursor.buffer, d.cursor.place, r);
        hide ProcessTag, KeptOutside, NoNulIn;
        if d.cursor.place <= r {
          NoNulStays(tags[1..], d.cursor, r);
        }
        NoNulKept(d.cursor.buffer, after, c.place, d.cursor.place, r);
      }
    }
  }

  lemma PaddedText(buffer: string, at: nat, s: CString, end: nat)
    requires at + |StringBytes(s)| <= |buffer| && buffer[at..at + |StringBytes(s)|] == StringBytes(s)
    requires end == at + |StringBytes(s)|
    ensures forall k :: at <= k < at + |s| ==> buffer[k] != '\0'
    ensures forall k :: at + |s| <= k < end ==> buffer[k] == '\0'
    ensures end == at + RoundUp(|s| + 1)
  {
    PaddedLength(s);
    StringBytesAre(s);
    hide RoundUp, StringBytes;
    var bytes, zeros := StringBytes(s), Zeros(RoundUp(|s| + 1) - |s|);
    forall k | at <= k < end ensures if k < at + |s| then buffer[k] != '\0' else buffer[k] == '\0' {
      assert buffer[k] == buffer[at..end][k - at] == bytes[k - at];
      if k < at + |s| {
        assert bytes[k - at] == s[k - at] && s[k - at] in s;
      } else {
        assert bytes[k - at] == zeros[k - at - |s|] && zeros[k - at - |s|] in zeros;
      }
    }
  }

  lemma ScanFinds(buffer: string, here: nat, r: nat)
    requires r == |buffer|
    ensures Scannable(buffer, 0, here, r)
    ensures var scan := Scanned(buffer, 0, here, r);
      if scan.len < 0 then scan.next == here && NoNulIn(buffer, here, r)
      else
        && here < scan.len <= r && buffer[scan.len - 1] == '\0' && NoNulIn(buffer, here, scan.len - 1)
        && scan.next == here + RoundUp(scan.len)
  {
    hide RoundUp;
    if here < r {
      var text, n := buffer[here..], TextLength(buffer[here..]);
      NoNulAt(text, n);
      assert forall k :: here <= k < here + n ==> buffer[k] == text[k - here];
    }
  }

  lemma RoundUpGrows(m: nat, n: nat)
    requires m <= n
    ensures RoundUp(m) <= RoundUp(n)
    ensures m + 4 <= n ==> RoundUp(m) + 4 <= RoundUp(n)
  {}

  lemma TextChars(buffer: string, at: nat, s: CString)
    requires TextIs(buffer, at, s)
    ensures NoNulIn(buffer, at, at + |s|) && buffer[at + |s|] == '\0'
  {
    var text := buffer[at..at + |s| + 1];
    forall k | at <= k < at + |s| ensures buffer[k] != '\0' {
      assert buffer[k] == text[k - at] == s[k - at] && s[k - at] in s;
    }
    assert buffer[at + |s|] == text[|s|];
  }

  /** The pointer is ahead of the data: there is data of these arguments at t, and the pointer is past it by a word or more. */
  ghost predicate Ahead(tags: string, args: seq<Arg>, c: Cursor, data: string, t: nat) {
    && Typed(tags, args) && NoBlobs(args)
    && t + 4 <= c.place && t <= |data| && data[t..] == ArgsBytes(tags, args)
    && SameFrom(c.buffer, data, c.place)
  }

  ghost predicate SameFrom(buffer: string, data: string, place: nat) {
    |buffer| == |data| && forall k :: place <= k < |data| ==> buffer[k] == data[k]
  }

  /** What is seen from place on of a text of n characters at t that is padded up to end. */
  ghost predicate PaddedView(buffer: string, place: nat, t: nat, n: nat, end: nat) {
    && (forall k :: t <= k < t + n && place <= k < |buffer| ==> buffer[k] != '\0')
    && (forall k :: t + n <= k < end && place <= k < |buffer| ==> buffer[k] == '\0')
  }

  lemma ViewOfPadded(buffer: string, data: string, place: nat, t: nat, s: CString, end: nat)
    requires end == t + |StringBytes(s)| <= |data| && data[t..end] == StringBytes(s) && SameFrom(buffer, data, place)
    ensures end == t + RoundUp(|s| + 1) && PaddedView(buffer, place, t, |s|, end)
  {
    hide StringBytes, RoundUp;
    PaddedText(data, t, s, end);
  }

  /** The first NUL from place on is where the text ends, or at place itself inside the padding. */
  lemma NulAhead(buffer: string, place: nat, t: nat, n: nat, end: nat, last: nat)
    requires t < place <= last < |buffer| && buffer[last] == '\0' && NoNulIn(buffer, place, last)
    requires PaddedView(buffer, place, t, n, end)
    ensures last >= t + n
    ensures place < end && t + n < end ==> last == if place < t + n then t + n else place
  {
    var first := if place < t + n then t + n else place;
    if place < end && t + n < end {
      assert buffer[first] == '\0';
    }
  }

  lemma TextEndsAt(buffer: string, place: nat, s: CString, last: nat)
    requires TextIs(buffer, place, s)
    requires place <= last < |buffer| && buffer[last] == '\0' && NoNulIn(buffer, place, last)
    ensures last == place + |s|
  {
    TextChars(buffer, place, s);
    hide TextIs;
  }

  lemma NotShownAhead(buffer: string, place: nat, t: nat, s: CString, last: nat)
    requires t + 4 <= place <= last < |buffer| && buffer[last] == '\0' && NoNulIn(buffer, place, last)
    requires last == if place < t + |s| then t + |s| else place
    requires |buffer| == t + RoundUp(|s| + 1)
    ensures !TextIs(buffer, place, s)
  {
    RoundUpOfOne();
    hide TextIs, RoundUp, NoNulIn;
    if TextIs(buffer, place, s) {
      TextEndsAt(buffer, place, s, last);
    }
  }

  /** A scan of a string ahead of the data ends behind the string that should have been read, if it ends. */
  lemma ScanAhead(c: Cursor, data: string, t: nat, s: CString, end: nat)
    requires t + 4 <= c.place && end == t + |StringBytes(s)| <= |data|
    requires data[t..end] == StringBytes(s) && SameFrom(c.buffer, data, c.place) && |c.buffer| == |data|
    ensures var scan := Scanned(c.buffer, 0, c.place, |data|);
      scan.len >= 0 ==> end + 4 <= scan.next && (end == |data| ==> !TextIs(c.buffer, c.place, s))
  {
    hide *;
    RoundUpIsMultiple(|s| + 1);
    ViewOfPadded(c.buffer, data, c.place, t, s, end);
    ScanFinds(c.buffer, c.place, |data|);
    var scan := Scanned(c.buffer, 0, c.place, |data|);
    if scan.len >= 0 {
      NulAhead(c.buffer, c.place, t, |s|, end, scan.len - 1);
      RoundUpGrows(|s| + 1, scan.len);
      if end == |data| {
        NotShownAhead(c.buffer, c.place, t, s, scan.len - 1);
      }
    }
  }

  lemma RoundUpOfOne()
    ensures RoundUp(1) == 4
  {}

  lemma FirstString(tags: string, args: seq<Arg>, buffer: string, at: nat, r: nat)
    requires Typed(tags, args) && tags != "" && tags[0] == 's'
    requires at <= r <= |buffer| && buffer[at..r] == ArgsBytes(tags, args)
    ensures var end := at + |StringBytes(args[0].s)|;
      && end <= r && buffer[at..end] == StringBytes(args[0].s)
      && TextIs(buffer, at, args[0].s) && end == at + RoundUp(|args[0].s| + 1)
      && buffer[end..r] == ArgsBytes(tags[1..], args[1..])
  {
    hide RoundUp, Scanned, StringBytes;
    var s := args[0].s;
    PaddedLength(s);
    TextInBytes(buffer, at, r, s, ArgsBytes(tags[1..], args[1..]));
    assert buffer[at..r][..|StringBytes(s)|] == buffer[at..at + |StringBytes(s)|];
  }

  lemma NoArgsNoBytes(tags: string)
    requires Typed(tags, [])
    ensures ArgsBytes(tags, []) == ""
  {
    DatalessTags(tags, Cursor("", 0, []), 0);
  }

  /** A string whose pointer meets no NUL any more is not shown. */
  lemma LostString(c: Cursor, tags: string, args: seq<Arg>, r: nat)
    requires Typed(tags, args) && NoBlobs(args) && tags != "" && tags[0] == 's' && r == |c.buffer|
    requires Scanned(c.buffer, 0, c.place, r).len < 0
    ensures Misreports(ProcessTags(tags, c, r), |c.parameters|, args)
  {
    ScanFinds(c.buffer, c.place, r);
    var d := ProcessTag(tags[0], c, r).cursor;
    ParametersGrow(tags[1..], args[1..], d, r);
    if c.place <= r {
      NoNulStays(tags[1..], d, r);
    }
    var p := ProcessTags(tags, c, r);
    hide Scanned, TextIs, ProcessTags;
    if p.err == 0 {
      assert p.cursor.parameters[|c.parameters|] == d.parameters[|c.parameters|] == c.place;
      if TextIs(p.cursor.buffer, c.place, args[0].s) {
        TextWithin(p.cursor.buffer, c.place, args[0].s);
      }
      assert !Shows(p.cursor.buffer, p.cursor.parameters[|c.parameters| + 0], args[0]);
    }
  }

  lemma TextWithin(buffer: string, at: nat, s: CString)
    requires TextIs(buffer, at, s)
    ensures at <= |buffer| && !NoNulIn(buffer, at, |buffer|)
  {
    TextChars(buffer, at, s);
  }

  lemma {:induction false} AheadMisreports(tags: string, args: seq<Arg>, c: Cursor, data: string, t: nat)
    requires Ahead(tags, args, c, data, t) && args != []
    ensures Misreports(ProcessTags(tags, c, |data|), |c.parameters|, args)
    decreases |tags|
  {
    hide ArgsBytes, Scanned, Swapped, StringBytes, Shows, Misreports;
    var r := |data|;
    assert data[t..r] == data[t..];
    var p := ProcessTags(tags, c, r);
    var d := ProcessTag(tags[0], c, r);
    if IsDataless(tags[0]) {
      DatalessBytes(tags, args);
      AheadMisreports(tags[1..], args, c, data, t);
    } else if d.err != 0 {
      FailureMisreports(p, |c.parameters|, args);
    } else if tags[0] == 's' {
      StringAhead(tags, args, c, data, t);
    } else {
      FirstWord(tags, args, data, t, r);
      if args[1..] == [] {
        NoArgsNoBytes(tags[1..]);
        assert false;
      }
      SwapAhead(c, data);
      assert data[t + 4..] == data[t + 4..r];
      AheadMisreports(tags[1..], args[1..], d.cursor, data, t + 4);
      MisreportsLater(p, |c.parameters|, args);
    }
  }

  lemma StringAhead(tags: string, args: seq<Arg>, c: Cursor, data: string, t: nat)
    requires Ahead(tags, args, c, data, t) && tags != "" && tags[0] == 's'
    ensures Misreports(ProcessTags(tags, c, |data|), |c.parameters|, args)
    decreases |tags|, 0
  {
    hide ArgsBytes, Scanned, StringBytes, Shows, RoundUp, Misreports;
    var r := |data|;
    assert data[t..r] == data[t..];
    if Scanned(c.buffer, 0, c.place, r).len < 0 {
      LostString(c, tags, args, r);
    } else {
      var end := t + |StringBytes(args[0].s)|;
      var d, p := ProcessTag(tags[0], c, r).cursor, ProcessTags(tags, c, r);
      FirstString(tags, args, data, t, r);
      ScanAhead(c, data, t, args[0].s, end);
      assert data[end..] == data[end..r];
      if args[1..] != [] {
        AheadMisreports(tags[1..], args[1..], d, data, end);
        MisreportsLater(p, |c.parameters|, args);
      } else {
        NoArgsNoBytes(tags[1..]);
        DatalessTags(tags[1..], d, r);
        LastMisreports(p, c, args);
      }
    }
  }

  lemma LastMisreports(p: Progress, c: Cursor, args: seq<Arg>)
    requires |args| == 1 && args[0].Str? && !TextIs(c.buffer, c.place, args[0].s)
    requires p.cursor.buffer == c.buffer && p.cursor.parameters == c.parameters + [c.place]
    ensures Misreports(p, |c.parameters|, args)
  {
    hide TextIs;
    assert p.cursor.parameters[|c.parameters| + 0] == c.place;
    assert !Shows(p.cursor.buffer, p.cursor.parameters[|c.parameters| + 0], args[0]);
  }

  lemma FailureMisreports(p: Progress, base: nat, args: seq<Arg>)
    requires p.err != 0
    ensures Misreports(p, base, args)
  {}

  lemma SwapAhead(c: Cursor, data: string)
    requires c.place + 4 <= |c.buffer| == |data|
    requires forall k :: c.place <= k < |data| ==> c.buffer[k] == data[k]
    ensures forall k :: c.place + 4 <= k < |data| ==> Swapped(c.buffer, c.place)[k] == data[k]
  {}

  /** The first string that is not the last argument puts the pointer ahead of the data. */
  lemma {:induction false} ArgsMisreported(tags: string, args: seq<Arg>, c: Cursor, r: nat)
    requires Typed(tags, args) && NoBlobs(args) && !StringsEnd(args)
    requires 4 <= c.place <= r == |c.buffer| && c.buffer[c.place..r] == ArgsBytes(tags, args)
    ensures Misreports(ProcessTags(tags, c, r), |c.parameters|, args)
    decreases |tags|
  {
    hide ArgsBytes, Scanned, Swapped, StringBytes, Shows, Misreports, RoundUp;
    var p := ProcessTags(tags, c, r);
    var d := ProcessTag(tags[0], c, r).cursor;
    if IsDataless(tags[0]) {
      DatalessBytes(tags, args);
      ArgsMisreported(tags[1..], args, c, r);
    } else if tags[0] == 's' {
      var s := args[0].s;
      FirstString(tags, args, c.buffer, c.place, r);
      ScanOfText(c.buffer, 0, c.place, r, s);
      RoundUpGrows(|s| + 1, c.place + |s| + 1);
      var end := c.place + |StringBytes(s)|;
      assert c.buffer[end..] == c.buffer[end..r];
      AheadMisreports(tags[1..], args[1..], d, c.buffer, end);
      MisreportsLater(p, |c.parameters|, args);
    } else {
      FirstWord(tags, args, c.buffer, c.place, r);
      SwapLeaves(c.buffer, c.place, r);
      ArgsMisreported(tags[1..], args[1..], d, r);
      MisreportsLater(p, |c.parameters|, args);
    }
  }

  // ----- memory behind the message -----

  lemma NulInFront(buffer: string, rest: string, at: nat)
    requires '\0' !in rest && at < |buffer + rest| && (buffer + rest)[at] == '\0'
    ensures at < |buffer|
  {
    assert forall k :: |buffer| <= k < |buffer + rest| ==> (buffer + rest)[k] in rest;
  }

  lemma TextAcross(buffer: string, rest: string, at: nat, s: string)
    requires '\0' !in rest && TextIs(buffer + rest, at, s)
    ensures TextIs(buffer, at, s)
  {
    var memory, end := buffer + rest, at + |s|;
    assert memory[at..end + 1] == s + "\0";
    assert memory[end] == memory[at..end + 1][|s|];
    NulInFront(buffer, rest, end);
    assert memory[at..end + 1] == buffer[at..end + 1];
  }

  lemma TextLengthAcross(text: string, rest: string)
    ensures TextLength(text) < |text| ==> TextLength(text + rest) == TextLength(text)
    ensures TextLength(text) == |text| ==> TextLength(text + rest) >= |text|
  {
    var n := TextLength(text);
    assert (text + rest)[..n] == text[..n];
    TextLengthAtLeast(text + rest, n);
    hide TextLength;
  }

  /** A scan that may not go beyond the message does not depend on what is behind it. */
  lemma ScannedAcross(buffer: string, rest: string, here: nat)
    ensures Scanned(buffer + rest, 0, here, |buffer|) == Scanned(buffer, 0, here, |buffer|)
  {
    if here < |buffer| {
      TextLengthAcross(buffer[here..], rest);
      assert (buffer + rest)[here..] == buffer[here..] + rest;
    }
    hide TextLength, RoundUp;
  }

  function Before(c: Cursor, rest: string): Cursor {
    c.(buffer := c.buffer + rest)
  }

  lemma TagAcross(tag: char, c: Cursor, rest: string)
    ensures var p := ProcessTag(tag, c, |c.buffer|);
      ProcessTag(tag, Before(c, rest), |c.buffer|) == Progress(p.err, Before(p.cursor, rest))
  {
    hide Scanned, Swapped;
    ScannedAcross(c.buffer, rest, c.place);
    ScannedAcross(c.buffer, rest, c.place + 4);
    if c.place + 4 <= |c.buffer| {
      SwappedInside(c.buffer, rest, c.place);
    }
  }

  lemma {:induction false} TagsAcross(tags: string, c: Cursor, rest: string)
    ensures var p := ProcessTags(tags, c, |c.buffer|);
      ProcessTags(tags, Before(c, rest), |c.buffer|) == Progress(p.err, Before(p.cursor, rest))
    decreases |tags|
  {
    if tags != "" {
      TagAcross(tags[0], c, rest);
      var p := ProcessTag(tags[0], c, |c.buffer|);
      hide ProcessTag;
      if p.err == 0 {
        TagsAcross(tags[1..], p.cursor, rest);
      }
    }
  }

  /** What was not shown in the message is not shown by text without NUL behind it either. */
  lemma MisreportsAcross(p: Progress, base: nat, args: seq<Arg>, rest: string)
    requires Misreports(p, base, args) && '\0' !in rest
    ensures Misreports(Progress(p.err, Before(p.cursor, rest)), base, args)
  {
    hide TextIs;
    if p.err == 0 {
      var i :| 0 <= i < |args| && args[i].Str? && !Shows(p.cursor.buffer, p.cursor.parameters[base + i], args[i]);
      var at := p.cursor.parameters[base + i];
      if TextIs(p.cursor.buffer + rest, at, args[i].s) {
        TextAcross(p.cursor.buffer, rest, at, args[i].s);
      }
      assert !Shows(Before(p.cursor, rest).buffer, Before(p.cursor, rest).parameters[base + i], args[i]);
    }
  }

  lemma LaidOutMisreported(buffer: string, rest: string, m: Message, types: nat, data: nat)
    requires LaidOut(buffer, |buffer|, m, types, data) && LaidOut(buffer + rest, |buffer|, m, types, data)
    requires NoBlobs(m.args) && !StringsEnd(m.args) && '\0' !in rest
    ensures TypesReadable(buffer + rest, |buffer|) && !Reports(Process(buffer + rest, |buffer|), m)
  {
    var c := Cursor(buffer, data, []);
    hide HeaderOf, ArgsBytes, Typed, TypesReadable, ProcessTags, TextIs, RoundUp, Shows, NoBlobs, StringsEnd;
    HeaderOfMessage(buffer + rest, |buffer|, m, types, data);
    ArgsMisreported(m.tags, m.args, c, |buffer|);
    TagsAcross(m.tags, c, rest);
    MisreportsAcross(ProcessTags(m.tags, c, |buffer|), 0, m.args, rest);
  }

  /** The message is reported as it was sent when the rest is what memory holds behind it. */
  ghost predicate ReportedBefore(m: Message, rest: string)
    requires WellFormed(m)
  {
    var memory, r := MessageBytes(m) + rest, |MessageBytes(m)|;
    TypesReadable(memory, r) && Reports(Process(memory, r), m)
  }

  /** In front of text without NUL, or of nothing, a message without blobs is reported as it was sent exactly if no argument comes after a string. */
  lemma ComesBackIff(m: Message, rest: string)
    requires WellFormed(m) && NoBlobs(m.args) && '\0' !in rest
    ensures ReportedBefore(m, rest) <==> StringsEnd(m.args)
  {
    var bytes := MessageBytes(m);
    assert bytes[..|bytes|] == bytes && (bytes + rest)[..|bytes|] == bytes;
    assert Received(bytes, |bytes|, m) && Received(bytes + rest, |bytes|, m);
    hide MessageBytes, Process, TypesReadable, Reports, WellFormed, NoBlobs, StringsEnd, LaidOut, StringBytes, Received;
    if StringsEnd(m.args) {
      ComesBack(bytes + rest, |bytes|, m);
    } else {
      var types := |StringBytes(m.address)|;
      ReceivedIsLaidOut(bytes, |bytes|, m);
      ReceivedIsLaidOut(bytes + rest, |bytes|, m);
      LaidOutMisreported(bytes, rest, m, types, types + |StringBytes(TypeString(m))|);
    }
  }

  /** With n bytes of memory behind it, a message without blobs is reported whatever these hold exactly if no argument comes after a string. */
  lemma AlwaysComesBackIff(m: Message, n: nat)
    requires WellFormed(m) && NoBlobs(m.args)
    ensures (forall rest: string | |rest| == n :: ReportedBefore(m, rest)) <==> StringsEnd(m.args)
  {
    hide ReportedBefore, WellFormed, NoBlobs, StringsEnd;
    var crosses := seq(n, _ => 'x');
    ComesBackIff(m, crosses);
    if StringsEnd(m.args) {
      forall rest: string | |rest| == n ensures ReportedBefore(m, rest) {
        AnythingBehind(m, rest);
      }
    }
  }

  lemma AnythingBehind(m: Message, rest: string)
    requires WellFormed(m) && NoBlobs(m.args) && StringsEnd(m.args)
    ensures ReportedBefore(m, rest)
  {
    var bytes := MessageBytes(m);
    assert (bytes + rest)[..|bytes|] == bytes;
    hide MessageBytes, Process, TypesReadable, Reports, WellFormed, NoBlobs, StringsEnd;
    assert Received(bytes + rest, |bytes|, m);
    ComesBack(bytes + rest, |bytes|, m);
  }

  /** minioscPoll hands a message on if it is longer than 8 bytes. */
  ghost predicate Polled(m: Message, rest: string)
    requires WellFormed(m)
  {
    |MessageBytes(m)| > 8 && ReportedBefore(m, rest)
  }

  /**
   Sender and receiver together: a message that minioscEncodeInternal writes successfully is reported by
   minioscPoll, whatever its buffer holds behind the message, exactly if no argument comes after a
   string and the message is longer than 8 bytes.
   */
  lemma SentComesBackIff(address: CString, types: CString, args: seq<Arg>)
    requires types != "" ==> Supplies(types[1..], args) && NoSpareArgs(types[1..], args)
    requires EncodeMessage(0, address, types, args).err == 0 && NoBlobs(args)
    ensures var bytes := EncodeMessage(0, address, types, args).bytes;
      && types != "" && |bytes| < MINIOSC_BUFFER
      && var m := Message(address, types[1..], args);
      && WellFormed(m) && bytes == MessageBytes(m)
      && ((forall rest: string | |rest| == MINIOSC_BUFFER - |bytes| :: Polled(m, rest)) <==> StringsEnd(args) && |bytes| > 8)
  {
    EncodingSucceedsIff(0, address, types, args);
    hide EncodeMessage, MessageBytes, ReportedBefore, Typed, Supplies;
    var m := Message(address, types[1..], args);
    assert types == "," + m.tags;
    MessageWrites(0, m);
    var n := MINIOSC_BUFFER - |MessageBytes(m)|;
    AlwaysComesBackIff(m, n);
    if forall rest: string | |rest| == n :: Polled(m, rest) {
      forall rest: string | |rest| == n ensures ReportedBefore(m, rest) {
        assert Polled(m, rest);
      }
      var some := seq(n, _ => 'x');
      assert Polled(m, some);
    }
  }

  /** A number behind a string: the message "/a" with "x" and 1 is misread when the buffer behind it holds no NUL. */
  lemma NumberAfterStringIsLost(rest: string)
    requires '\0' !in rest
    ensures var m := Message("/a", "si", [Str("x"), Int(1)]);
      WellFormed(m) && NoBlobs(m.args) && !ReportedBefore(m, rest)
  {
    var m := Message("/a", "si", [Str("x"), Int(1)]);
    assert m.tags[1..] == "i" && m.args[1..] == [Int(1)] && m.tags[1..][1..] == "" && m.args[1..][1..] == [];
    assert Typed("", []);
    assert Typed("i", [Int(1)]);
    assert m.args[0].Str?;
    hide ReportedBefore;
    ComesBackIff(m, rest);
  }

  // ----- blobs -----

  /** One pointer to the size of the blob, as it was sent, and one to its data right behind. */
  predicate BlobShown(buffer: string, size: nat, data: nat, blob: string)
    requires |blob| < 0x8000_0000
  {
    && data == size + 4 && data + |blob| <= |buffer|
    && buffer[size..size + 4] == WordBytes(|blob| as uint32) && buffer[data..data + |blob|] == blob
  }

  /** Numbers, and a blob at the end. */
  predicate EndsInBlob(args: seq<Arg>) {
    && args != [] && args[|args| - 1].Blob? && |args[|args| - 1].data| < 0x8000_0000
    && forall i :: 0 <= i < |args| - 1 ==> args[i].Int? || args[i].Float?
  }

  predicate AllShownWithBlob(buffer: string, parameters: seq<nat>, args: seq<Arg>)
    requires EndsInBlob(args)
  {
    var n := |args| - 1;
    && |parameters| == n + 2
    && (forall i :: 0 <= i < n ==> Shows(buffer, parameters[i], args[i]))
    && BlobShown(buffer, parameters[n], parameters[n + 1], args[n].data)
  }

  /** The loop has added parameters that show these arguments, and left alone what is in front of its start. */
  ghost predicate ContinuesWithBlob(c: Cursor, e: Cursor, args: seq<Arg>)
    requires EndsInBlob(args)
  {
    && c.place <= |c.buffer| == |e.buffer| && e.buffer[..c.place] == c.buffer[..c.place]
    && c.parameters <= e.parameters
    && AllShownWithBlob(e.buffer, e.parameters[|c.parameters|..], args)
  }

  /** A blob is found if its padded data has a NUL, and refused otherwise. */
  lemma BlobScanned(c: Cursor, data: string, r: nat)
    requires c.place + 4 <= r <= |c.buffer| && c.buffer[c.place + 4..r] == Pad(data)
    ensures Scanned(c.buffer, 0, c.place + 4, r).len >= 0 <==> '\0' in Pad(data)
  {
    var here := c.place + 4;
    var text, n := c.buffer[here..], TextLength(c.buffer[here..]);
    NoNulAt(text, n);
    assert text[..r - here] == Pad(data);
    assert forall k :: 0 <= k < r - here ==> text[k] == Pad(data)[k];
    if '\0' in Pad(data) {
      var k :| 0 <= k < |Pad(data)| && Pad(data)[k] == '\0';
      assert n <= k;
    }
    hide Pad, TextLength, RoundUp;
  }

  lemma LastBlob(tags: string, args: seq<Arg>, c: Cursor, r: nat)
    requires Typed(tags, args) && |args| == 1 && EndsInBlob(args) && tags != "" && tags[0] == 'b'
    requires c.place <= r <= |c.buffer| && c.buffer[c.place..r] == ArgsBytes(tags, args)
    ensures ProcessTags(tags, c, r).err == 0 <==> '\0' in Pad(args[0].data)
    ensures ProcessTags(tags, c, r).err == 0 ==> ContinuesWithBlob(c, ProcessTags(tags, c, r).cursor, args)
  {
    var blob, d := args[0].data, ProcessTag(tags[0], c, r);
    assert Typed(tags[1..], []);
    BlobBytes(tags, args, c.buffer, c.place, r);
    hide Scanned, WordBytes, Pad, ArgsBytes, BlobShown;
    BlobScanned(c, blob, r);
    DatalessTags(tags[1..], d.cursor, r);
    hide Typed, IsKnownTag;
    if d.err == 0 {
      assert d.cursor.buffer == c.buffer && d.cursor.parameters == c.parameters + [c.place, c.place + 4];
      hide ProcessTag;
      BlobAlone(c, d.cursor, args);
    }
  }

  lemma BlobAlone(c: Cursor, e: Cursor, args: seq<Arg>)
    requires EndsInBlob(args) && |args| == 1 && c.place + 4 <= |c.buffer| && e.buffer == c.buffer
    requires e.parameters == c.parameters + [c.place, c.place + 4] && BlobShown(c.buffer, c.place, c.place + 4, args[0].data)
    ensures ContinuesWithBlob(c, e, args)
  {
    hide BlobShown;
    assert e.parameters[|c.parameters|..] == [c.place, c.place + 4];
  }

  lemma BlobBytes(tags: string, args: seq<Arg>, buffer: string, at: nat, r: nat)
    requires Typed(tags, args) && |args| == 1 && EndsInBlob(args) && tags != "" && tags[0] == 'b'
    requires at <= r <= |buffer| && buffer[at..r] == ArgsBytes(tags, args)
    ensures var blob := args[0].data;
      at + 4 + |Pad(blob)| == r && buffer[at + 4..r] == Pad(blob) && BlobShown(buffer, at, at + 4, blob)
  {
    var blob := args[0].data;
    assert args[1..] == [];
    NoArgsNoBytes(tags[1..]);
    RoundUpIsMultiple(|blob|);
    assert ArgsBytes(tags, args) == ArgBytes(args[0]) + ArgsBytes(tags[1..], []);
    hide WordBytes, RoundUp, ArgsBytes;
    assert ArgBytes(args[0]) + "" == WordBytes(|blob| as uint32) + Pad(blob);
    assert buffer[at..r] == WordBytes(|blob| as uint32) + Pad(blob);
    assert buffer[at..at + 4] == buffer[at..r][..4];
    assert buffer[at + 4..r] == buffer[at..r][4..];
    assert buffer[at + 4..at + 4 + |blob|] == Pad(blob)[..|blob|];
  }

  lemma ShownFirst(buffer: string, at: nat, parameters: seq<nat>, args: seq<Arg>)
    requires EndsInBlob(args) && |args| > 1 && EndsInBlob(args[1..])
    requires Shows(buffer, at, args[0]) && AllShownWithBlob(buffer, parameters, args[1..])
    ensures AllShownWithBlob(buffer, [at] + parameters, args)
  {
    hide Shows, BlobShown, EndsInBlob;
    var n, all := |args| - 1, [at] + parameters;
    assert args[n] == args[1..][n - 1] && all[n] == parameters[n - 1] && all[n + 1] == parameters[n];
    forall i | 0 <= i < n ensures Shows(buffer, all[i], args[i]) {
      if i > 0 {
        assert all[i] == parameters[i - 1] && args[i] == args[1..][i - 1];
      }
    }
  }

  lemma WordFirst(a: Arg, c: Cursor, d: Cursor, e: Cursor)
    requires (a.Int? || a.Float?) && c.place + 4 <= |c.buffer| == |e.buffer|
    requires a.Int? ==> c.buffer[c.place..c.place + 4] == WordBytes(a.i)
    requires a.Float? ==> c.buffer[c.place..c.place + 4] == WordBytes(a.bits)
    requires d == Cursor(Swapped(c.buffer, c.place), c.place + 4, c.parameters + [c.place])
    requires e.buffer[..d.place] == d.buffer[..d.place] && d.parameters <= e.parameters
    ensures Shows(e.buffer, c.place, a) && e.buffer[..c.place] == c.buffer[..c.place]
    ensures c.parameters <= e.parameters && e.parameters[|c.parameters|..] == [c.place] + e.parameters[|d.parameters|..]
  {
    WordShown(c.buffer, c.place, if a.Int? then a.i else a.bits, e.buffer);
    SwapLeaves(c.buffer, c.place, |c.buffer|);
    hide NativeWord, Swapped, WordBytes;
    assert e.buffer[..c.place] == e.buffer[..c.place + 4][..c.place];
    assert d.buffer[..c.place] == d.buffer[..c.place + 4][..c.place];
  }

  lemma WordInFrontOfBlob(args: seq<Arg>, c: Cursor, d: Cursor, e: Cursor)
    requires EndsInBlob(args) && |args| > 1 && c.place + 4 <= |c.buffer|
    requires args[0].Int? ==> c.buffer[c.place..c.place + 4] == WordBytes(args[0].i)
    requires args[0].Float? ==> c.buffer[c.place..c.place + 4] == WordBytes(args[0].bits)
    requires d == Cursor(Swapped(c.buffer, c.place), c.place + 4, c.parameters + [c.place])
    requires EndsInBlob(args[1..]) && ContinuesWithBlob(d, e, args[1..])
    ensures ContinuesWithBlob(c, e, args)
  {
    assert args[0].Int? || args[0].Float?;
    hide AllShownWithBlob, Shows, WordBytes, Swapped, EndsInBlob;
    WordFirst(args[0], c, d, e);
    ShownFirst(e.buffer, c.place, e.parameters[|d.parameters|..], args);
  }

  lemma {:induction false} BlobComesBack(tags: string, args: seq<Arg>, c: Cursor, r: nat)
    requires Typed(tags, args) && EndsInBlob(args)
    requires c.place <= r <= |c.buffer| && c.buffer[c.place..r] == ArgsBytes(tags, args)
    ensures ProcessTags(tags, c, r).err == 0 <==> '\0' in Pad(args[|args| - 1].data)
    ensures ProcessTags(tags, c, r).err == 0 ==> ContinuesWithBlob(c, ProcessTags(tags, c, r).cursor, args)
    decreases |tags|
  {
    hide ContinuesWithBlob, ArgsBytes, Scanned, Swapped, WordBytes, Pad;
    var p := ProcessTags(tags, c, r);
    if IsDataless(tags[0]) {
      DatalessBytes(tags, args);
      BlobComesBack(tags[1..], args, c, r);
    } else if tags[0] == 'b' {
      assert |args| == 1;
      LastBlob(tags, args, c, r);
    } else {
      var d := ProcessTag(tags[0], c, r).cursor;
      FirstWord(tags, args, c.buffer, c.place, r);
      SwapLeaves(c.buffer, c.place, r);
      assert |args| > 1 && args[1..][|args| - 2] == args[|args| - 1];
      BlobComesBack(tags[1..], args[1..], d, r);
      if p.err == 0 {
        WordInFrontOfBlob(args, c, d, p.cursor);
      }
    }
  }

  /** The callback is called, and sees the message, its blob as two parameters. */
  predicate ReportsWithBlob(p: Processed, m: Message)
    requires EndsInBlob(m.args)
  {
    && p.err == 0
    && TextIs(p.buffer, 0, m.address)
    && TextIs(p.buffer, p.types, "," + m.tags)
    && AllShownWithBlob(p.buffer, p.parameters, m.args)
  }

  lemma LaidOutBlobComesBackIff(buffer: string, r: nat, m: Message, types: nat, data: nat)
    requires LaidOut(buffer, r, m, types, data) && EndsInBlob(m.args)
    ensures TypesReadable(buffer, r) && (ReportsWithBlob(Process(buffer, r), m) <==> '\0' in Pad(m.args[|m.args| - 1].data))
  {
    hide HeaderOf, ArgsBytes, Typed, TypesReadable, ProcessTags, TextIs, RoundUp, AllShownWithBlob, EndsInBlob, Pad;
    HeaderOfMessage(buffer, r, m, types, data);
    var c := Cursor(buffer, data, []);
    BlobComesBack(m.tags, m.args, c, r);
    if ProcessTags(m.tags, c, r).err == 0 {
      var e := ProcessTags(m.tags, c, r).cursor;
      assert e.parameters[0..] == e.parameters;
      TextStays(buffer, e.buffer, data, 0, m.address);
      TextStays(buffer, e.buffer, data, types, TypeString(m));
    }
  }

  /**
   A message of numbers with a blob at its end is reported as it was sent, whatever the buffer holds
   behind it, exactly if the blob or its padding has a NUL; otherwise it is refused.
   */
  lemma BlobComesBackIff(buffer: string, r: nat, m: Message)
    requires Received(buffer, r, m) && EndsInBlob(m.args)
    ensures TypesReadable(buffer, r)
    ensures var blob := m.args[|m.args| - 1].data;
      ReportsWithBlob(Process(buffer, r), m) <==> '\0' in blob || |blob| % 4 != 0
  {
    var types, blob := |StringBytes(m.address)|, m.args[|m.args| - 1].data;
    hide *;
    ReceivedIsLaidOut(buffer, r, m);
    LaidOutBlobComesBackIff(buffer, r, m, types, types + |StringBytes(TypeString(m))|);
    NulInPad(blob);
  }

  lemma NulInPad(blob: string)
    ensures '\0' in Pad(blob) <==> '\0' in blob || |blob| % 4 != 0
  {
    var zeros := Zeros(RoundUp(|blob|) - |blob|);
    assert Pad(blob) == blob + zeros;
    if |blob| % 4 != 0 {
      assert zeros[0] in zeros;
    }
    hide Zeros;
  }
}
