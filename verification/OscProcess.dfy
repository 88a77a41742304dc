/**
 minioscProcess of miniosc.h: it reads a received message in place, turns its words around to the
 native (little-endian) byte order, and reports pointers into the buffer.

 It looks for the end of the type tag string in as long a stretch as the whole message has, which may
 lead behind the buffer: the methods receive what memory holds there, and the functions take buffer
 and memory behind it as one text.
 */
module OscProcess {
  import opened NativeTypes
  import opened OscFormat
  import opened OscRoundTrip
  import opened MiniOsc

  const ERROR_PROTOCOL := -6

  // ----- scanning a string -----

  /** The result of _minioscGetQBL, which is -1 without a NUL in time, and where it leaves its pointer. */
  datatype Scan = Scan(len: int, next: nat)

  /** The bytes from here on are readable up to a NUL, or as far as the length allows. */
  predicate Scannable(buffer: string, start: nat, here: nat, length: nat) {
    start <= here && (start + length <= |buffer| || (here <= |buffer| && '\0' in buffer[here..]))
  }

  /** The length counts from start, and the pointer steps forward by that much, rounded up. */
  function Scanned(buffer: string, start: nat, here: nat, length: nat): Scan
    requires Scannable(buffer, start, here, length)
  {
    if here - start >= length then Scan(-1, here)
    else
      var end := here + TextLength(buffer[here..]);
      if end - start >= length then Scan(-1, here)
      else Scan(end + 1 - start, here + RoundUp(end + 1 - start))
  }

  predicate NoNulIn(buffer: string, start: nat, end: nat) {
    end <= |buffer| && forall k :: start <= k < end ==> buffer[k] != '\0'
  }

  lemma NoNulAt(s: string, n: nat)
    requires n <= |s| && '\0' !in s[..n]
    ensures forall k :: 0 <= k < n ==> s[k] != '\0'
  {
    forall k | 0 <= k < n ensures s[k] != '\0' {
      assert s[k] == s[..n][k];
    }
  }

  lemma TextLengthAtLeast(s: string, n: nat)
    requires n <= |s| && '\0' !in s[..n]
    ensures TextLength(s) >= n
    ensures n < |s| && s[n] == '\0' ==> TextLength(s) == n
  {
    NoNulAt(s, n);
    NoNulAt(s, TextLength(s));
  }

  /** A byte of the buffer or of the memory behind it. */
  function ByteAt(buffer: array<char>, beyond: string, h: nat): (c: char)
    requires h < buffer.Length + |beyond|
    reads buffer
    ensures c == (buffer[..] + beyond)[h]
  {
    if h < buffer.Length then buffer[h] else beyond[h - buffer.Length]
  }

  /** A scan that has met no NUL before h. */
  ghost predicate Scanning(memory: string, start: nat, here: nat, length: nat, h: nat) {
    && Scannable(memory, start, here, length)
    && here <= h <= |memory| && '\0' !in memory[here..h]
  }

  lemma ScanStarts(memory: string, start: nat, here: nat, length: nat)
    requires Scannable(memory, start, here, length) && here - start < length
    ensures Scanning(memory, start, here, length, here) && here < |memory|
  {}

  lemma ScanFails(memory: string, start: nat, here: nat, length: nat, h: nat)
    requires Scanning(memory, start, here, length, h) && h - start >= length
    ensures Scanned(memory, start, here, length) == Scan(-1, here)
  {
    assert memory[here..][..h - here] == memory[here..h];
    TextLengthAtLeast(memory[here..], h - here);
    hide TextLength, RoundUp;
  }

  lemma ScanEnds(memory: string, start: nat, here: nat, length: nat, h: nat)
    requires Scanning(memory, start, here, length, h) && h - start < length && h < |memory| && memory[h] == '\0'
    ensures Scanned(memory, start, here, length) == Scan(h + 1 - start, here + RoundUp(h + 1 - start))
  {
    assert memory[here..][..h - here] == memory[here..h];
    TextLengthAtLeast(memory[here..], h - here);
    hide TextLength, RoundUp;
  }

  lemma ScanGoesOn(memory: string, start: nat, here: nat, length: nat, h: nat)
    requires Scanning(memory, start, here, length, h) && h < |memory| && memory[h] != '\0'
    ensures Scanning(memory, start, here, length, h + 1)
    ensures h + 1 - start < length ==> h + 1 < |memory|
  {
    assert memory[here..h + 1] == memory[here..h] + [memory[h]];
    if h + 1 == |memory| {
      assert memory[here..] == memory[here..h + 1];
    }
  }

  method GetQBL(buffer: array<char>, beyond: string, start: nat, here: nat, length: nat) returns (len: int, next: nat)
    requires Scannable(buffer[..] + beyond, start, here, length)
    ensures Scan(len, next) == Scanned(buffer[..] + beyond, start, here, length)
  {
    var h := here;
    ghost var memory := buffer[..] + beyond;
    if h - start >= length {
      return -1, here;
    }
    hide Scanned, Scannable, Scanning;
    ScanStarts(memory, start, here, length);
    while ByteAt(buffer, beyond, h) != '\0'
      invariant here <= h < |memory| && h - start < length
      invariant Scanning(memory, start, here, length, h)
      decreases |memory| - h
    {
      ScanGoesOn(memory, start, here, length, h);
      h := h + 1;
      if h - start >= length {
        ScanFails(memory, start, here, length, h);
        return -1, here;
      }
    }
    ScanEnds(memory, start, here, length, h);
    h := h + 1;
    var thislen := h - start;
    var quadByteLength := (thislen + 3) / 4 * 4;
    return thislen, here + quadByteLength;
  }

  // ----- words -----

  /** The four bytes at a place in reverse, as htonl leaves them on a little-endian machine. */
  function Swapped(buffer: string, at: nat): (r: string)
    requires at + 4 <= |buffer|
    ensures |r| == |buffer|
  {
    buffer[at := buffer[at + 3]][at + 1 := buffer[at + 2]][at + 2 := buffer[at + 1]][at + 3 := buffer[at]]
  }

  method SwapWord(buffer: array<char>, at: nat)
    requires at + 4 <= buffer.Length
    modifies buffer
    ensures buffer[..] == Swapped(old(buffer[..]), at)
  {
    buffer[at], buffer[at + 1], buffer[at + 2], buffer[at + 3] := buffer[at + 3], buffer[at + 2], buffer[at + 1], buffer[at];
  }

  // ----- one message -----

  /** The buffer, the read pointer, and the parameter pointers so far. */
  datatype Cursor = Cursor(buffer: string, place: nat, parameters: seq<nat>)

  datatype Progress = Progress(err: int, cursor: Cursor)

  /** One case of the switch over type tags. */
  function ProcessTag(tag: char, c: Cursor, r: nat): (p: Progress)
    requires r <= |c.buffer|
    ensures |p.cursor.buffer| == |c.buffer| && p.cursor.place >= c.place
  {
    if IsIntTag(tag) || tag == 'f' then
      if c.place + 4 > r then Progress(ERROR_PROTOCOL, c)
      else Progress(0, Cursor(Swapped(c.buffer, c.place), c.place + 4, c.parameters + [c.place]))
    else if tag == 's' then
      Progress(0, Cursor(c.buffer, Scanned(c.buffer, 0, c.place, r).next, c.parameters + [c.place]))
    else if tag == 'b' then
      if c.place + 4 > r then Progress(ERROR_PROTOCOL, c)
      else
        var data := Scanned(c.buffer, 0, c.place + 4, r);
        if data.len < 0 then Progress(ERROR_PROTOCOL, c)
        else Progress(0, Cursor(c.buffer, data.next, c.parameters + [c.place, c.place + 4]))
    else if IsDataless(tag) then Progress(0, c)
    else Progress(ERROR_PARAMS, c)
  }

  function ProcessTags(tags: string, c: Cursor, r: nat): (p: Progress)
    requires r <= |c.buffer|
    ensures |p.cursor.buffer| == |c.buffer|
    decreases |tags|
  {
    if tags == "" then Progress(0, c)
    else
      var p := ProcessTag(tags[0], c, r);
      if p.err != 0 then p else ProcessTags(tags[1..], p.cursor, r)
  }

  /** Everything that is read to find the end of the type tag string is there. */
  predicate TypesReadable(buffer: string, r: nat) {
    r <= |buffer| && Scannable(buffer, Scanned(buffer, 0, 0, r).next, Scanned(buffer, 0, 0, r).next, r)
  }

  /** Enough memory behind the message is readable, whatever it holds. */
  lemma MemoryIsReadable(memory: string, r: nat)
    requires r + r + 4 <= |memory|
    ensures TypesReadable(memory, r)
  {
    var name := Scanned(memory, 0, 0, r);
    if name.len >= 0 {
      RoundUpIsMultiple(name.len);
    }
  }

  /** Address and type tags of a message: where the tag string starts and ends, and where the data starts. */
  datatype Header = NoHeader | Header(types: nat, end: nat, data: nat)

  function HeaderOf(buffer: string, r: nat): (h: Header)
    requires TypesReadable(buffer, r)
    ensures h.Header? ==> h.types < h.end < h.data && h.end < |buffer|
  {
    var name := Scanned(buffer, 0, 0, r);
    var types := Scanned(buffer, name.next, name.next, r);
    if name.len <= 0 || types.len <= 0 || buffer[0] != '/' || buffer[name.next] != ',' then NoHeader
    else
      TagsAre(buffer, r);
      Header(name.next, name.next + types.len - 1, types.next)
  }

  lemma TagsAre(buffer: string, r: nat)
    requires TypesReadable(buffer, r)
    ensures var name := Scanned(buffer, 0, 0, r);
      var types := Scanned(buffer, name.next, name.next, r);
      types.len > 0 ==>
        var end := name.next + types.len - 1;
        end < |buffer| && buffer[end] == '\0' && NoNulIn(buffer, name.next, end) && types.next > end
  {
    var name := Scanned(buffer, 0, 0, r);
    var types := Scanned(buffer, name.next, name.next, r);
    if types.len > 0 {
      var text := buffer[name.next..];
      RoundUpIsMultiple(types.len);
      NoNulAt(text, types.len - 1);
      assert forall k :: name.next <= k < name.next + types.len - 1 ==> buffer[k] == text[k - name.next];
    }
  }

  lemma TagsEnd(buffer: string, r: nat)
    requires TypesReadable(buffer, r)
    ensures var h := HeaderOf(buffer, r);
      h.Header? ==> buffer[h.end] == '\0' && NoNulIn(buffer, h.types + 1, h.end)
  {
    TagsAre(buffer, r);
    hide Scanned;
  }

  /** The buffer afterwards, the offset of the type tag string, and the parameters; they reach the callback if err is 0. */
  datatype Processed = Processed(err: int, buffer: string, types: nat, parameters: seq<nat>)

  function Process(buffer: string, r: nat): Processed
    requires TypesReadable(buffer, r)
  {
    var h := HeaderOf(buffer, r);
    if h.NoHeader? then Processed(ERROR_PROTOCOL, buffer, 0, [])
    else
      var p := ProcessTags(buffer[h.types + 1..h.end], Cursor(buffer, h.data, []), r);
      Processed(p.err, p.cursor.buffer, h.types, p.cursor.parameters)
  }

  lemma SwappedInside(buffer: string, beyond: string, at: nat)
    requires at + 4 <= |buffer|
    ensures Swapped(buffer + beyond, at) == Swapped(buffer, at) + beyond
  {}

  method ProcessOne(buffer: array<char>, beyond: string, tag: char, place: nat, r: nat, parameters: seq<nat>)
    returns (err: int, next: nat, all: seq<nat>)
    requires r <= buffer.Length
    modifies buffer
    ensures Progress(err, Cursor(buffer[..] + beyond, next, all)) ==
      ProcessTag(tag, Cursor(old(buffer[..]) + beyond, place, parameters), r)
  {
    hide Scanned, Swapped;
    err, next, all := 0, place, parameters;
    if IsIntTag(tag) || tag == 'f' {
      if place + 4 > r {
        return ERROR_PROTOCOL, next, all;
      }
      SwappedInside(buffer[..], beyond, place);
      SwapWord(buffer, place);
      all := all + [place];
      next := place + 4;
    } else if tag == 's' {
      var sl;
      sl, next := GetQBL(buffer, beyond, 0, place, r);
      all := all + [place];
    } else if tag == 'b' {
      if place + 4 > r {
        return ERROR_PROTOCOL, next, all;
      }
      var sl, end := GetQBL(buffer, beyond, 0, place + 4, r);
      if sl < 0 {
        return ERROR_PROTOCOL, next, all;
      }
      all := all + [place, place + 4];
      next := end;
    } else if IsDataless(tag) {
      // No data for these.
    } else {
      return ERROR_PARAMS, next, all;
    }
  }

  lemma TagAt(before: string, now: string, start: nat, ct: nat, end: nat)
    requires start <= ct <= end < |before| == |now| && now[..end + 1] == before[..end + 1]
    requires before[end] == '\0' && NoNulIn(before, start, end)
    ensures now[ct] == '\0' <==> ct == end
    ensures ct < end ==> before[ct..end][0] == now[ct] && before[ct..end][1..] == before[ct + 1..end]
  {
    assert now[ct] == now[..end + 1][ct] == before[..end + 1][ct];
  }

  /** The loop over type tags, which ends at the NUL at end. */
  method ProcessLoop(buffer: array<char>, beyond: string, ghost before: string, start: nat, ghost end: nat, place: nat, r: nat)
    returns (err: int, parameters: seq<nat>)
    requires before == buffer[..] + beyond && r <= buffer.Length && start <= end < |before| && end < place
    requires before[end] == '\0' && NoNulIn(before, start, end)
    modifies buffer
    ensures var p := ProcessTags(before[start..end], Cursor(before, place, []), r);
      err == p.err && buffer[..] + beyond == p.cursor.buffer && parameters == p.cursor.parameters
  {
    hide ProcessTag;
    ghost var whole := ProcessTags(before[start..end], Cursor(before, place, []), r);
    var ct, next := start, place;
    err, parameters := 0, [];
    TagAt(before, before, start, ct, end);
    while ByteAt(buffer, beyond, ct) != '\0'
      invariant start <= ct <= end < next && err == 0
      invariant (buffer[..] + beyond)[..end + 1] == before[..end + 1]
      invariant ByteAt(buffer, beyond, ct) == '\0' <==> ct == end
      invariant ProcessTags(before[ct..end], Cursor(buffer[..] + beyond, next, parameters), r) == whole
      decreases end - ct
    {
      ghost var now := buffer[..] + beyond;
      var tag := ByteAt(buffer, beyond, ct);
      TagAt(before, now, start, ct, end);
      TagKeeps(tag, Cursor(now, next, parameters), r, end + 1);
      err, next, parameters := ProcessOne(buffer, beyond, tag, next, r, parameters);
      if err != 0 {
        return;
      }
      ct := ct + 1;
      TagAt(before, buffer[..] + beyond, start, ct, end);
    }
  }

  method ReadHeader(buffer: array<char>, beyond: string, r: nat) returns (h: Header)
    requires TypesReadable(buffer[..] + beyond, r)
    ensures h == HeaderOf(buffer[..] + beyond, r)
  {
    var namelen, types := GetQBL(buffer, beyond, 0, 0, r);
    var typelen, place := GetQBL(buffer, beyond, types, types, r);
    if namelen <= 0 || typelen <= 0 || ByteAt(buffer, beyond, 0) != '/' || ByteAt(buffer, beyond, types) != ',' {
      return NoHeader;
    }
    return Header(types, types + typelen - 1, place);
  }

  /** minioscProcess, up to the call of the callback; it has no return value after that. */
  method ProcessInPlace(buffer: array<char>, beyond: string, r: nat) returns (err: int, types: nat, parameters: seq<nat>)
    requires r <= buffer.Length && r + 4 <= |beyond|
    modifies buffer
    ensures TypesReadable(old(buffer[..]) + beyond, r)
    ensures Processed(err, buffer[..] + beyond, types, parameters) == Process(old(buffer[..]) + beyond, r)
  {
    hide *;
    ghost var before := buffer[..] + beyond;
    MemoryIsReadable(before, r);
    ProcessIs(before, r);
    TagsEnd(before, r);
    var h := ReadHeader(buffer, beyond, r);
    if h.NoHeader? {
      return ERROR_PROTOCOL, 0, [];
    }
    err, parameters := ProcessLoop(buffer, beyond, before, h.types + 1, h.end, h.data, r);
    types := h.types;
  }

  lemma ProcessIs(buffer: string, r: nat)
    requires TypesReadable(buffer, r)
    ensures r <= |buffer|
    ensures var h := HeaderOf(buffer, r);
      Process(buffer, r) ==
        if h.NoHeader? then Processed(ERROR_PROTOCOL, buffer, 0, [])
        else
          var p := ProcessTags(buffer[h.types + 1..h.end], Cursor(buffer, h.data, []), r);
          Processed(p.err, p.cursor.buffer, h.types, p.cursor.parameters)
  {}

  /** Nothing in front of the read pointer changes. */
  lemma TagKeeps(tag: char, c: Cursor, r: nat, n: nat)
    requires r <= |c.buffer| && n <= c.place && n <= |c.buffer|
    ensures ProcessTag(tag, c, r).cursor.buffer[..n] == c.buffer[..n]
  {
    hide Scanned;
  }

  // ----- what any message gives -----

  ghost predicate AllKnown(tags: string) {
    forall k :: 0 <= k < |tags| ==> IsKnownTag(tags[k])
  }

  lemma AllKnownFirst(tags: string)
    requires tags != ""
    ensures AllKnown(tags) <==> IsKnownTag(tags[0]) && AllKnown(tags[1..])
  {
    assert forall k :: 0 < k < |tags| ==> tags[k] == tags[1..][k - 1];
    if IsKnownTag(tags[0]) && AllKnown(tags[1..]) {
      forall k | 0 <= k < |tags| ensures IsKnownTag(tags[k]) {
        if k > 0 {
          assert IsKnownTag(tags[1..][k - 1]);
        }
      }
    }
    if AllKnown(tags) {
      forall k | 0 <= k < |tags[1..]| ensures IsKnownTag(tags[1..][k]) {
        assert IsKnownTag(tags[k + 1]);
      }
    }
  }

  /** A tag that is not known is refused as a parameter, and anything else that fails is a protocol error. */
  lemma {:induction false} AcceptedTags(tags: string, c: Cursor, r: nat)
    requires r <= |c.buffer|
    ensures var p := ProcessTags(tags, c, r);
      && (p.err == 0 || p.err == ERROR_PROTOCOL || p.err == ERROR_PARAMS)
      && (p.err == 0 ==> AllKnown(tags))
      && (p.err == ERROR_PARAMS ==> !AllKnown(tags))
    decreases |tags|
  {
    if tags != "" {
      var p := ProcessTag(tags[0], c, r);
      AllKnownFirst(tags);
      hide Scanned, Swapped, AllKnown;
      if p.err == 0 {
        AcceptedTags(tags[1..], p.cursor, r);
      }
    }
  }

  ghost predicate KeptOutside(before: string, after: string, place: nat, r: nat) {
    |before| == |after| && forall k :: 0 <= k < |before| && (k < place || r <= k) ==> after[k] == before[k]
  }

  lemma TagKeepsOutside(tag: char, c: Cursor, r: nat)
    requires r <= |c.buffer|
    ensures KeptOutside(c.buffer, ProcessTag(tag, c, r).cursor.buffer, c.place, r)
  {
    hide Scanned;
  }

  lemma KeptFurther(a: string, b: string, c: string, place: nat, later: nat, r: nat)
    requires KeptOutside(a, b, place, r) && KeptOutside(b, c, later, r) && place <= later
    ensures KeptOutside(a, c, place, r)
  {}

  /** Reading keeps all bytes in front of the data and behind the message, whatever the tags. */
  lemma {:induction false} OnlyDataChanges(tags: string, c: Cursor, r: nat)
    requires r <= |c.buffer|
    ensures KeptOutside(c.buffer, ProcessTags(tags, c, r).cursor.buffer, c.place, r)
    decreases |tags|
  {
    if tags != "" {
      var p := ProcessTag(tags[0], c, r);
      TagKeepsOutside(tags[0], c, r);
      hide ProcessTag, KeptOutside;
      if p.err == 0 {
        OnlyDataChanges(tags[1..], p.cursor, r);
        KeptFurther(c.buffer, p.cursor.buffer, ProcessTags(tags[1..], p.cursor, r).cursor.buffer, c.place, p.cursor.place, r);
      }
    }
  }

  /** There is a type tag string of known tags, with its comma and its NUL, at a place. */
  ghost predicate KnownTagsAt(memory: string, types: nat, end: nat) {
    && types < end < |memory| && memory[types] == ',' && memory[end] == '\0'
    && NoNulIn(memory, types + 1, end) && AllKnown(memory[types + 1..end])
  }

  /**
   For every content of memory: what is reported starts with a slash and has a type tag string of known
   tags; the bytes behind the message never change.
   */
  lemma ProcessedIsMessage(memory: string, r: nat)
    requires TypesReadable(memory, r)
    ensures var p := Process(memory, r);
      && KeptOutside(memory, p.buffer, 0, r)
      && (p.err == 0 || p.err == ERROR_PROTOCOL || p.err == ERROR_PARAMS)
      && (p.err == 0 ==> 0 < p.types && memory != "" && memory[0] == '/' && exists end :: KnownTagsAt(memory, p.types, end))
  {
    var h := HeaderOf(memory, r);
    hide Scanned, ProcessTags, AllKnown;
    if h.Header? {
      TagsEnd(memory, r);
      HeaderStarts(memory, r);
      var tags, c := memory[h.types + 1..h.end], Cursor(memory, h.data, []);
      hide HeaderOf, NoNulIn;
      AcceptedTags(tags, c, r);
      OnlyDataChanges(tags, c, r);
      assert ProcessTags(tags, c, r).err == 0 ==> KnownTagsAt(memory, h.types, h.end);
    }
  }

  lemma HeaderStarts(memory: string, r: nat)
    requires TypesReadable(memory, r)
    ensures var h := HeaderOf(memory, r);
      h.Header? ==> 0 < h.types && memory[0] == '/' && memory[h.types] == ','
  {
    var name := Scanned(memory, 0, 0, r);
    if name.len > 0 {
      RoundUpIsMultiple(name.len);
    }
  }

  /** A word that would end behind the message is a protocol error, and so is a blob whose data have no NUL inside it. */
  lemma CutOffWord(tag: char, more: string, c: Cursor, r: nat)
    requires r <= |c.buffer| && (tag in "icrf" || tag == 'b')
    ensures c.place + 4 > r ==> ProcessTags([tag] + more, c, r).err == ERROR_PROTOCOL
    ensures tag == 'b' && NoNulIn(c.buffer, c.place + 4, r) ==> ProcessTags([tag] + more, c, r).err == ERROR_PROTOCOL
  {
    assert ([tag] + more)[1..] == more;
    if tag == 'b' && c.place + 4 <= r && NoNulIn(c.buffer, c.place + 4, r) {
      var here := c.place + 4;
      if here < r {
        var text := c.buffer[here..];
        assert forall k :: 0 <= k < r - here ==> text[k] == c.buffer[here + k];
        TextLengthAtLeast(text, r - here);
      }
      hide TextLength;
    }
  }
}
