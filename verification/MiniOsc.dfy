/**
 The OSC encoder of miniosc.h: it writes messages in place into a buffer of MINIOSC_BUFFER chars.

 Pointers into the buffer are offsets. A va_list is the sequence of arguments that the type tags
 take from it.
 */
module MiniOsc {
  import opened NativeTypes
  import opened OscFormat
  import opened OscRoundTrip
  import opened Texts

  const MINIOSC_BUFFER: nat := 1536

  const ERROR_PARAMS := -3
  const ERROR_OVERFLOW := -4
  const ERROR_EMPTY := -7

  // ----- one append -----

  /** Room for n more bytes, rounded up; the source refuses to fill the buffer to its last byte. */
  predicate HasRoom(place: nat, n: nat) {
    place + RoundUp(n) < MINIOSC_BUFFER
  }

  /** The buffer with text written over it from place on. */
  function Overwrite(buffer: string, place: nat, text: string): (r: string)
    requires text != "" ==> place + |text| <= |buffer|
    ensures |r| == |buffer|
  {
    if text == "" then buffer else buffer[..place] + text + buffer[place + |text|..]
  }

  lemma PadAt(data: string, k: nat)
    requires k < RoundUp(|data|)
    ensures Pad(data)[k] == if k < |data| then data[k] else '\0'
  {
    var zeros := Zeros(RoundUp(|data|) - |data|);
    if k >= |data| {
      assert Pad(data)[k] == zeros[k - |data|] && zeros[k - |data|] in zeros;
    }
  }

  method Append(buffer: array<char>, place: nat, data: string) returns (err: int, next: nat)
    requires buffer.Length == MINIOSC_BUFFER
    modifies buffer
    ensures err == if HasRoom(place, |data|) then 0 else ERROR_OVERFLOW
    ensures next == if err == 0 then place + RoundUp(|data|) else place
    ensures buffer[..] == if err == 0 then Overwrite(old(buffer[..]), place, Pad(data)) else old(buffer[..])
    ensures Leaves(old(buffer[..]), buffer[..], place, next, err, EncodeData(place, data))
  {
    var quadByteLength := (|data| + 3) / 4 * 4;
    if place + quadByteLength >= MINIOSC_BUFFER {
      return ERROR_OVERFLOW, place;
    }
    RoundUpIsMultiple(|data|);
    ghost var before := buffer[..];
    forall i | 0 <= i < |data| {
      buffer[place + i] := data[i];
    }
    forall i | |data| <= i < quadByteLength {
      buffer[place + i] := '\0';
    }
    forall k | 0 <= k < quadByteLength { PadAt(data, k); }
    assert buffer[..] == Overwrite(before, place, Pad(data)) by {
      OverwriteByIndex(before, buffer[..], place, Pad(data));
    }
    return 0, place + quadByteLength;
  }

  lemma OverwriteByIndex(before: string, after: string, place: nat, text: string)
    requires |before| == |after| && place + |text| <= |before|
    requires forall k :: 0 <= k < |before| ==> after[k] == if place <= k < place + |text| then text[k - place] else before[k]
    ensures after == Overwrite(before, place, text)
  {}

  /** Writing one text right behind another is writing both. */
  lemma OverwriteTwice(buffer: string, place: nat, a: string, b: string)
    requires a + b != "" ==> place + |a| + |b| <= |buffer|
    ensures Overwrite(Overwrite(buffer, place, a), place + |a|, b) == Overwrite(buffer, place, a + b)
  {}

  // ----- one message -----

  /** What an encoding appends before it returns its error code. */
  datatype Encoded = Encoded(err: int, bytes: string)

  /** The arguments hold what the tags take, up to the first tag that is not known. */
  predicate Supplies(tags: string, args: seq<Arg>) {
    if tags == "" || !IsKnownTag(tags[0]) then true
    else if IsDataless(tags[0]) then Supplies(tags[1..], args)
    else args != [] && Describes(tags[0], args[0]) && Supplies(tags[1..], args[1..])
  }

  function EncodeData(place: nat, data: string): Encoded {
    if HasRoom(place, |data|) then Encoded(0, Pad(data)) else Encoded(ERROR_OVERFLOW, "")
  }

  /** Two encodings in a row; the second is not reached after an error. */
  function Join(first: Encoded, second: Encoded): Encoded {
    if first.err != 0 then first else Encoded(second.err, first.bytes + second.bytes)
  }

  function EncodeArg(place: nat, a: Arg): Encoded
    requires a.Blob? ==> |a.data| < 0x8000_0000
  {
    match a
    case Int(i) => EncodeData(place, WordBytes(i))
    case Float(bits) => EncodeData(place, WordBytes(bits))
    case Str(s) => EncodeData(place, s + "\0")
    case Blob(data) =>
      var size := EncodeData(place, WordBytes(|data| as uint32));
      Join(size, EncodeData(place + |size.bytes|, data))
  }

  function EncodeArgs(place: nat, tags: string, args: seq<Arg>): Encoded
    requires Supplies(tags, args)
    decreases tags
  {
    if tags == "" then Encoded(0, "")
    else if IsDataless(tags[0]) then EncodeArgs(place, tags[1..], args)
    else if !IsKnownTag(tags[0]) then Encoded(ERROR_PARAMS, "")
    else
      var first := EncodeArg(place, args[0]);
      Join(first, EncodeArgs(place + |first.bytes|, tags[1..], args[1..]))
  }

  function EncodeMessage(place: nat, address: CString, types: CString, args: seq<Arg>): Encoded
    requires types != "" ==> Supplies(types[1..], args)
  {
    if address == "" || address[0] != '/' || types == "" || types[0] != ',' then Encoded(ERROR_PARAMS, "")
    else
      var first := EncodeData(place, address + "\0");
      var second := EncodeData(place + |first.bytes|, types + "\0");
      Join(first, Join(second, EncodeArgs(place + |first.bytes| + |second.bytes|, types[1..], args)))
  }

  /** The outcome of an encoding, as left in the buffer. */
  ghost predicate Leaves(before: string, after: string, place: nat, next: nat, err: int, e: Encoded) {
    && (e.bytes != "" ==> place + |e.bytes| <= |before|)
    && after == Overwrite(before, place, e.bytes)
    && next == place + |e.bytes|
    && err == e.err
  }

  lemma LeavesJoin(before: string, mid: string, after: string, place: nat, p1: nat, p2: nat, e1: Encoded, err: int, e2: Encoded)
    requires Leaves(before, mid, place, p1, 0, e1)
    requires Leaves(mid, after, p1, p2, err, e2)
    ensures Leaves(before, after, place, p2, err, Join(e1, e2))
  {
    if e1.bytes + e2.bytes != "" {
      OverwriteTwice(before, place, e1.bytes, e2.bytes);
    }
  }

  lemma LeavesNothing(before: string, place: nat, err: int)
    ensures Leaves(before, before, place, place, err, Encoded(err, ""))
  {}

  lemma JoinAssociative(a: Encoded, b: Encoded, c: Encoded)
    ensures Join(Join(a, b), c) == Join(a, Join(b, c))
  {
    assert a.bytes + b.bytes + c.bytes == a.bytes + (b.bytes + c.bytes);
  }

  /** The data cases of the switch over type tags. */
  method EncodeArgument(buffer: array<char>, place: nat, tag: char, a: Arg) returns (err: int, next: nat)
    requires buffer.Length == MINIOSC_BUFFER && Describes(tag, a)
    modifies buffer
    ensures Leaves(old(buffer[..]), buffer[..], place, next, err, EncodeArg(place, a))
  {
    hide EncodeData, Overwrite, Leaves;
    ghost var before := buffer[..];
    match a {
      case Int(i) =>
        err, next := Append(buffer, place, WordBytes(i));
      case Float(bits) =>
        err, next := Append(buffer, place, WordBytes(bits));
      case Str(s) =>
        err, next := Append(buffer, place, s + "\0");
      case Blob(data) =>
        err, next := Append(buffer, place, WordBytes(|data| as uint32));
        ghost var size := EncodeData(place, WordBytes(|data| as uint32));
        LeavesWhat(before, buffer[..], place, next, err, size);
        if err != 0 {
          return;
        }
        ghost var mid, p := buffer[..], next;
        err, next := Append(buffer, next, data);
        LeavesJoin(before, mid, buffer[..], place, p, next, size, err, EncodeData(p, data));
    }
  }

  lemma LeavesWhat(before: string, after: string, place: nat, next: nat, err: int, e: Encoded)
    requires Leaves(before, after, place, next, err, e)
    ensures err == e.err && next == place + |e.bytes|
  {}

  /** minioscEncodeInternal: address, type tags, and each argument in turn. */
  method EncodeInternal(buffer: array<char>, place: nat, address: CString, types: CString, args: seq<Arg>)
    returns (err: int, next: nat)
    requires buffer.Length == MINIOSC_BUFFER
    requires types != "" ==> Supplies(types[1..], args)
    modifies buffer
    ensures Leaves(old(buffer[..]), buffer[..], place, next, err, EncodeMessage(place, address, types, args))
  {
    hide EncodeData, Overwrite, Leaves, EncodeArg, Join;
    ghost var before, whole := buffer[..], EncodeMessage(place, address, types, args);
    LeavesNothing(before, place, ERROR_PARAMS);
    if address == "" || address[0] != '/' || types == "" || types[0] != ',' {
      return ERROR_PARAMS, place;
    }
    err, next := Append(buffer, place, address + "\0");
    ghost var done := EncodeData(place, address + "\0");
    LeavesWhat(before, buffer[..], place, next, err, done);
    ghost var mid, p, step := buffer[..], next, EncodeData(next, types + "\0");
    JoinStops(done, Join(step, EncodeArgs(p + |step.bytes|, types[1..], args)));
    if err != 0 {
      return;
    }
    err, next := Append(buffer, next, types + "\0");
    LeavesWhat(mid, buffer[..], p, next, err, step);
    LeavesJoin(before, mid, buffer[..], place, p, next, done, err, step);
    JoinAssociative(done, step, EncodeArgs(next, types[1..], args));
    done := Join(done, step);
    JoinStops(done, EncodeArgs(next, types[1..], args));
    JoinErr(EncodeData(place, address + "\0"), step);
    if err != 0 {
      return;
    }
    var t, v := 1, 0;
    while t < |types|
      invariant 1 <= t <= |types| && 0 <= v <= |args|
      invariant Supplies(types[t..], args[v..])
      invariant Leaves(before, buffer[..], place, next, 0, done)
      invariant whole == Join(done, EncodeArgs(next, types[t..], args[v..]))
    {
      var c := types[t];
      ghost var tags := types[t..];
      assert tags[0] == c && tags[1..] == types[t + 1..];
      if IsDataless(c) {
        // No data for these.
      } else if IsKnownTag(c) {
        assert args[v..][0] == args[v] && args[v..][1..] == args[v + 1..];
        mid, p, step := buffer[..], next, EncodeArg(next, args[v]);
        err, next := EncodeArgument(buffer, next, c, args[v]);
        LeavesWhat(mid, buffer[..], p, next, err, step);
        LeavesWhat(before, mid, place, p, 0, done);
        LeavesJoin(before, mid, buffer[..], place, p, next, done, err, step);
        ghost var more := EncodeArgs(next, types[t + 1..], args[v + 1..]);
        assert EncodeArgs(p, tags, args[v..]) == Join(step, more);
        JoinAssociative(done, step, more);
        JoinErr(done, step);
        JoinStops(Join(done, step), more);
        done := Join(done, step);
        if err != 0 {
          return;
        }
        v := v + 1;
      } else {
        LeavesNothing(buffer[..], next, ERROR_PARAMS);
        LeavesWhat(before, buffer[..], place, next, 0, done);
        LeavesJoin(before, buffer[..], buffer[..], place, next, next, done, ERROR_PARAMS, Encoded(ERROR_PARAMS, ""));
        return ERROR_PARAMS, next;
      }
      t := t + 1;
    }
    LeavesWhat(before, buffer[..], place, next, 0, done);
    assert types[t..] == "";
    JoinNothing(done);
    return 0, next;
  }

  lemma JoinStops(a: Encoded, b: Encoded)
    ensures a.err != 0 ==> Join(a, b) == a
  {}

  lemma JoinErr(a: Encoded, b: Encoded)
    requires a.err == 0
    ensures Join(a, b).err == b.err
  {}

  lemma JoinNothing(a: Encoded)
    requires a.err == 0
    ensures Join(a, Encoded(0, "")) == a
  {}

  // ----- when an encoding succeeds, and what it has written -----

  /** Everything appended is whole words inside the buffer, short of its last byte. */
  ghost predicate Contained(place: nat, e: Encoded) {
    Aligned(|e.bytes|) && (e.bytes != "" ==> place + |e.bytes| < MINIOSC_BUFFER)
  }

  lemma DataContained(place: nat, data: string)
    ensures Contained(place, EncodeData(place, data))
  {
    RoundUpIsMultiple(|data|);
    AlignedSum(0, 0);
  }

  lemma JoinContained(place: nat, a: Encoded, b: Encoded)
    requires Contained(place, a) && Contained(place + |a.bytes|, b)
    ensures Contained(place, Join(a, b))
  {
    AlignedSum(|a.bytes|, |b.bytes|);
    hide Aligned;
  }

  lemma ArgContained(place: nat, a: Arg)
    requires a.Blob? ==> |a.data| < 0x8000_0000
    ensures Contained(place, EncodeArg(place, a))
  {
    hide EncodeData, Contained, WordBytes;
    match a
    case Int(i) => DataContained(place, WordBytes(i));
    case Float(bits) => DataContained(place, WordBytes(bits));
    case Str(s) => DataContained(place, s + "\0");
    case Blob(data) =>
      var size := EncodeData(place, WordBytes(|data| as uint32));
      DataContained(place, WordBytes(|data| as uint32));
      DataContained(place + |size.bytes|, data);
      JoinContained(place, size, EncodeData(place + |size.bytes|, data));
  }

  lemma NothingContained(place: nat, err: int)
    ensures Contained(place, Encoded(err, ""))
  {}

  lemma {:induction false} ArgsContained(place: nat, tags: string, args: seq<Arg>)
    requires Supplies(tags, args)
    ensures Contained(place, EncodeArgs(place, tags, args))
    decreases tags
  {
    hide Contained, EncodeArg, Join;
    NothingContained(place, 0);
    NothingContained(place, ERROR_PARAMS);
    if tags != "" && IsKnownTag(tags[0]) {
      if IsDataless(tags[0]) {
        ArgsContained(place, tags[1..], args);
      } else {
        var first := EncodeArg(place, args[0]);
        ArgContained(place, args[0]);
        ArgsContained(place + |first.bytes|, tags[1..], args[1..]);
        JoinContained(place, first, EncodeArgs(place + |first.bytes|, tags[1..], args[1..]));
      }
    }
  }

  lemma MessageContained(place: nat, address: CString, types: CString, args: seq<Arg>)
    requires types != "" ==> Supplies(types[1..], args)
    ensures Contained(place, EncodeMessage(place, address, types, args))
  {
    hide Contained, EncodeData, EncodeArgs, Join;
    NothingContained(place, ERROR_PARAMS);
    if !(address == "" || address[0] != '/' || types == "" || types[0] != ',') {
      var first := EncodeData(place, address + "\0");
      var p := place + |first.bytes|;
      var second := EncodeData(p, types + "\0");
      DataContained(place, address + "\0");
      DataContained(p, types + "\0");
      ArgsContained(p + |second.bytes|, types[1..], args);
      JoinContained(p, second, EncodeArgs(p + |second.bytes|, types[1..], args));
      JoinContained(place, first, Join(second, EncodeArgs(p + |second.bytes|, types[1..], args)));
    }
  }

  /** The encoding is that of text: it is written whole, unless it does not fit. */
  ghost predicate Writes(place: nat, e: Encoded, text: string) {
    if place + |text| < MINIOSC_BUFFER then e == Encoded(0, text) else e.err == ERROR_OVERFLOW
  }

  lemma DataWrites(place: nat, data: string)
    ensures Writes(place, EncodeData(place, data), Pad(data))
  {}

  lemma JoinWrites(place: nat, a: Encoded, s: string, b: Encoded, t: string)
    requires Writes(place, a, s)
    requires a.err == 0 ==> Writes(place + |s|, b, t)
    ensures Writes(place, Join(a, b), s + t)
  {}

  lemma PadOfWord(w: uint32)
    ensures Pad(WordBytes(w)) == WordBytes(w)
  {
    assert RoundUp(4) == 4 && Zeros(0) == "";
    hide WordBytes;
  }

  lemma ArgWrites(place: nat, tag: char, a: Arg)
    requires Describes(tag, a)
    ensures Writes(place, EncodeArg(place, a), ArgBytes(a))
  {
    hide EncodeData, Writes, WordBytes, Pad;
    match a
    case Int(i) =>
      DataWrites(place, WordBytes(i));
      PadOfWord(i);
    case Float(bits) =>
      DataWrites(place, WordBytes(bits));
      PadOfWord(bits);
    case Str(s) =>
      DataWrites(place, s + "\0");
    case Blob(data) =>
      var word := WordBytes(|data| as uint32);
      var size := EncodeData(place, word);
      DataWrites(place, word);
      PadOfWord(|data| as uint32);
      DataWrites(place + |word|, data);
      WritesWhat(place, size, word);
      JoinWrites(place, size, word, EncodeData(place + |size.bytes|, data), Pad(data));
  }

  lemma WritesWhat(place: nat, e: Encoded, text: string)
    requires Writes(place, e, text)
    ensures e.err == 0 ==> e.bytes == text
  {}

  lemma TypedSupplies(tags: string, args: seq<Arg>)
    requires Typed(tags, args)
    ensures Supplies(tags, args)
  {}

  lemma {:induction false} ArgsWrite(place: nat, tags: string, args: seq<Arg>)
    requires Typed(tags, args) && Supplies(tags, args) && place < MINIOSC_BUFFER
    ensures Writes(place, EncodeArgs(place, tags, args), ArgsBytes(tags, args))
    decreases tags
  {
    if tags == "" {
    } else if IsDataless(tags[0]) {
      ArgsWrite(place, tags[1..], args);
    } else {
      var first := EncodeArg(place, args[0]);
      var text := ArgBytes(args[0]);
      ArgWrites(place, tags[0], args[0]);
      if first.err == 0 {
        WritesWhat(place, first, text);
        WrittenFits(place, first, text);
        hide Writes, EncodeArg, ArgBytes;
        ArgsWrite(place + |text|, tags[1..], args[1..]);
      }
      hide Writes, EncodeArg, ArgBytes, Join;
      JoinWrites(place, first, text, EncodeArgs(place + |first.bytes|, tags[1..], args[1..]), ArgsBytes(tags[1..], args[1..]));
    }
  }

  lemma WrittenFits(place: nat, e: Encoded, text: string)
    requires Writes(place, e, text) && e.err == 0
    ensures place + |text| < MINIOSC_BUFFER
  {}

  /** A well-formed message is written as its bytes exactly if they fit; otherwise it overflows. */
  lemma MessageWrites(place: nat, m: Message)
    requires WellFormed(m)
    ensures Supplies(m.tags, m.args)
    ensures Writes(place, EncodeMessage(place, m.address, "," + m.tags, m.args), MessageBytes(m))
  {
    TypedSupplies(m.tags, m.args);
    var types: CString := "," + m.tags;
    assert types[1..] == m.tags;
    var a, t, d := StringBytes(m.address), StringBytes(types), ArgsBytes(m.tags, m.args);
    var first := EncodeData(place, m.address + "\0");
    var p := place + |first.bytes|;
    var second := EncodeData(p, types + "\0");
    var third := EncodeArgs(p + |second.bytes|, m.tags, m.args);
    DataWrites(place, m.address + "\0");
    DataWrites(p, types + "\0");
    WritesWhat(place, first, a);
    WritesWhat(p, second, t);
    if second.err == 0 {
      WrittenFits(p, second, t);
      ArgsWrite(p + |t|, m.tags, m.args);
    }
    Regroup(a, t, d);
    hide Writes, EncodeData, EncodeArgs, StringBytes, ArgsBytes, Join;
    JoinWrites(p, second, t, third, d);
    JoinWrites(place, first, a, Join(second, third), t + d);
  }

  lemma {:induction false} EncodedArgsAreTyped(place: nat, tags: string, args: seq<Arg>) returns (k: nat)
    requires Supplies(tags, args) && EncodeArgs(place, tags, args).err == 0
    ensures k <= |args| && Typed(tags, args[..k])
    decreases tags
  {
    hide EncodeArg;
    if tags == "" {
      k := 0;
    } else if IsDataless(tags[0]) {
      k := EncodedArgsAreTyped(place, tags[1..], args);
    } else {
      var first := EncodeArg(place, args[0]);
      k := EncodedArgsAreTyped(place + |first.bytes|, tags[1..], args[1..]);
      k := k + 1;
      assert args[..k][1..] == args[1..][..k - 1];
    }
  }

  /** No argument is passed that the tags do not take. */
  ghost predicate NoSpareArgs(tags: string, args: seq<Arg>) {
    forall k :: 0 <= k <= |args| && Typed(tags, args[..k]) ==> k == |args|
  }

  /** An encoding succeeds exactly on a well-formed message that ends before the last byte of the buffer. */
  lemma EncodingSucceedsIff(place: nat, address: CString, types: CString, args: seq<Arg>)
    requires types != "" ==> Supplies(types[1..], args) && NoSpareArgs(types[1..], args)
    ensures EncodeMessage(place, address, types, args).err == 0 <==>
      && types != "" && types[0] == ',' && WellFormed(Message(address, types[1..], args))
      && place + |MessageBytes(Message(address, types[1..], args))| < MINIOSC_BUFFER
  {
    if types != "" && types[0] == ',' {
      var m := Message(address, types[1..], args);
      assert types == "," + m.tags;
      if WellFormed(m) {
        MessageWrites(place, m);
        hide EncodeMessage;
      } else if EncodeMessage(place, address, types, args).err == 0 {
        SuccessIsTyped(place, address, types, args);
        hide EncodeMessage;
      }
    }
  }

  lemma SuccessIsTyped(place: nat, address: CString, types: CString, args: seq<Arg>)
    requires types != "" && Supplies(types[1..], args) && NoSpareArgs(types[1..], args)
    requires EncodeMessage(place, address, types, args).err == 0
    ensures address != "" && address[0] == '/' && Typed(types[1..], args)
  {
    var first := EncodeData(place, address + "\0");
    var second := EncodeData(place + |first.bytes|, types + "\0");
    hide EncodeData, EncodeArgs, Typed, Supplies;
    var k := EncodedArgsAreTyped(place + |first.bytes| + |second.bytes|, types[1..], args);
    assert args[..|args|] == args;
  }

  /**
   Which error a failing encoding reports: without an address that starts with a slash or type tags that
   start with a comma it is refused at once; afterwards an unknown tag is refused, unless the buffer
   overflows before.
   */
  lemma EncodingErrors(place: nat, address: CString, types: CString, args: seq<Arg>)
    requires types != "" ==> Supplies(types[1..], args)
    ensures var e := EncodeMessage(place, address, types, args);
      if address == "" || address[0] != '/' || types == "" || types[0] != ',' then e == Encoded(ERROR_PARAMS, "")
      else
        && (e.err == 0 || e.err == ERROR_OVERFLOW || e.err == ERROR_PARAMS)
        && (e.err == ERROR_PARAMS ==> exists i :: 0 < i < |types| && !IsKnownTag(types[i]))
        && (e.err == 0 ==> forall i :: 0 < i < |types| ==> IsKnownTag(types[i]))
  {
    if address != "" && address[0] == '/' && types != "" && types[0] == ',' {
      var p := place + |EncodeData(place, address + "\0").bytes|;
      var q := p + |EncodeData(p, types + "\0").bytes|;
      ArgumentErrors(q, types[1..], args);
      hide EncodeArgs, IsKnownTag, HasRoom;
      assert forall i :: 0 < i < |types| ==> types[i] == types[1..][i - 1];
    }
  }

  lemma {:induction false} ArgumentErrors(place: nat, tags: string, args: seq<Arg>)
    requires Supplies(tags, args)
    ensures var e := EncodeArgs(place, tags, args);
      && (e.err == 0 || e.err == ERROR_OVERFLOW || e.err == ERROR_PARAMS)
      && (e.err == ERROR_PARAMS ==> exists i :: 0 <= i < |tags| && !IsKnownTag(tags[i]))
      && (e.err == 0 ==> forall i :: 0 <= i < |tags| ==> IsKnownTag(tags[i]))
    decreases tags
  {
    if tags != "" && IsKnownTag(tags[0]) {
      var more := tags[1..];
      assert forall i :: 0 < i < |tags| ==> tags[i] == more[i - 1];
      assert forall i :: 0 <= i < |more| ==> more[i] == tags[i + 1];
      if IsDataless(tags[0]) {
        ArgumentErrors(place, more, args);
      } else {
        ArgumentErrors(place + |EncodeArg(place, args[0]).bytes|, more, args[1..]);
      }
    }
    hide HasRoom, WordBytes, Pad;
  }
}
