/**
 Messages and bundles of the OSC 1.0 specification (its sections "OSC Messages", "OSC Type Tag
 String" and "OSC Bundles"), with the argument types miniosc knows: how they are laid out in
 bytes, and a decoder written from the specification.

 A char is a byte.
 */
module OscFormat {
  import opened NativeTypes

  /** A C string: no NUL inside. */
  type CString = s: string | '\0' !in s

  datatype Arg =
    | Int(i: uint32)        // tags i, c and r
    | Float(bits: uint32)   // tag f, as the bits of the float
    | Str(s: CString)       // tag s
    | Blob(data: string)    // tag b

  /** tags leaves out the comma of the type tag string. */
  datatype Message = Message(address: CString, tags: CString, args: seq<Arg>)

  predicate IsIntTag(c: char) {
    c == 'i' || c == 'c' || c == 'r'
  }

  predicate IsDataless(c: char) {
    c == 'T' || c == 'F' || c == 'N' || c == 'I'
  }

  predicate IsKnownTag(c: char) {
    IsIntTag(c) || c == 'f' || c == 's' || c == 'b' || IsDataless(c)
  }

  /** The tag describes the argument. */
  predicate Describes(c: char, a: Arg) {
    match a
    case Int(_) => IsIntTag(c)
    case Float(_) => c == 'f'
    case Str(_) => c == 's'
    case Blob(data) => c == 'b' && |data| < 0x8000_0000
  }

  /** The tags are known and describe exactly these arguments. */
  predicate Typed(tags: string, args: seq<Arg>) {
    if tags == "" then args == []
    else if IsDataless(tags[0]) then Typed(tags[1..], args)
    else args != [] && Describes(tags[0], args[0]) && Typed(tags[1..], args[1..])
  }

  predicate WellFormed(m: Message) {
    m.address != "" && m.address[0] == '/' && Typed(m.tags, m.args)
  }

  // ----- layout -----

  /** The next multiple of four. */
  function RoundUp(n: nat): nat {
    (n + 3) / 4 * 4
  }

  predicate Aligned(n: nat) {
    n % 4 == 0
  }

  function Zeros(n: nat): (s: string)
    ensures |s| == n && forall c <- s :: c == '\0'
  {
    if n == 0 then "" else Zeros(n - 1) + "\0"
  }

  function Pad(data: string): (s: string)
    ensures |s| == RoundUp(|data|)
  {
    data + Zeros(RoundUp(|data|) - |data|)
  }

  function StringBytes(s: CString): string {
    Pad(s + "\0")
  }

  /** A 32-bit word, most significant byte first. */
  function WordBytes(w: uint32): (s: string)
    ensures |s| == 4
  {
    var low := w as int;
    var mid := low / 0x100;
    var high := mid / 0x100;
    [(high / 0x100) as char, (high % 0x100) as char, (mid % 0x100) as char, (low % 0x100) as char]
  }

  function ArgBytes(a: Arg): string
    requires a.Blob? ==> |a.data| < 0x8000_0000
  {
    match a
    case Int(i) => WordBytes(i)
    case Float(bits) => WordBytes(bits)
    case Str(s) => StringBytes(s)
    case Blob(data) => WordBytes(|data| as uint32) + Pad(data)
  }

  function ArgsBytes(tags: string, args: seq<Arg>): string
    requires Typed(tags, args)
  {
    if tags == "" then ""
    else if IsDataless(tags[0]) then ArgsBytes(tags[1..], args)
    else ArgBytes(args[0]) + ArgsBytes(tags[1..], args[1..])
  }

  function MessageBytes(m: Message): string
    requires Typed(m.tags, m.args)
  {
    StringBytes(m.address) + StringBytes("," + m.tags) + ArgsBytes(m.tags, m.args)
  }

  /** The bundle identifier and a zero time tag. */
  const BUNDLE_HEADER := "#bundle\0\0\0\0\0\0\0\0\0"

  function ElementBytes(m: Message): string
    requires Typed(m.tags, m.args) && |MessageBytes(m)| < 0x1_0000_0000
  {
    WordBytes(|MessageBytes(m)| as uint32) + MessageBytes(m)
  }

  /** Most significant byte first. */
  lemma WordIsBigEndian(w: uint32)
    ensures var b := WordBytes(w);
      b[0] as int * 0x100_0000 + b[1] as int * 0x1_0000 + b[2] as int * 0x100 + b[3] as int == w as int
    ensures forall c <- WordBytes(w) :: c < 0x100 as char
  {}

  /** A bundle starts with its identifier and eight zero bytes, all strings are padded by one to four zero bytes to a multiple of four. */
  lemma LayoutInBytes(s: CString)
    ensures |BUNDLE_HEADER| == 16 && BUNDLE_HEADER[..7] == "#bundle" && forall c <- BUNDLE_HEADER[7..] :: c == '\0'
    ensures s < StringBytes(s) && |StringBytes(s)| % 4 == 0 && |StringBytes(s)| - |s| <= 4
    ensures forall c <- StringBytes(s)[|s|..] :: c == '\0'
  {
    var n := RoundUp(|s| + 1);
    assert |s + "\0"| == |s| + 1;
    assert StringBytes(s)[|s|..] == "\0" + Zeros(n - (|s| + 1));
  }

  /** The type tags, letter by letter. */
  lemma TypeTags(c: char, a: Arg)
    ensures IsDataless(c) <==> c in "TFNI"
    ensures IsKnownTag(c) <==> c in "icrfsbTFNI"
    ensures Describes(c, a) <==>
      (a.Int? && c in "icr") || (a.Float? && c == 'f') || (a.Str? && c == 's') || (a.Blob? && c == 'b' && |a.data| < 0x8000_0000)
  {}

  // ----- the decoder -----
  // ----- the decoder -----

  datatype Parsed<+T> = Malformed | Parsed(value: T, rest: string) {
    predicate IsFailure() {
      Malformed?
    }

    function PropagateFailure<U>(): Parsed<U>
      requires Malformed?
    {
      Malformed
    }

    function Extract(): (T, string)
      requires Parsed?
    {
      (value, rest)
    }
  }

  function TextLength(s: string): (n: nat)
    ensures n <= |s|
    ensures '\0' !in s[..n]
    ensures n < |s| ==> s[n] == '\0'
  {
    if s == "" || s[0] == '\0' then 0 else 1 + TextLength(s[1..])
  }

  /** A string, its terminating NUL, and zero to three further NULs up to a multiple of four. */
  function DecodeString(s: string): Parsed<CString> {
    var n := TextLength(s);
    if RoundUp(n + 1) > |s| || s[n..RoundUp(n + 1)] != Zeros(RoundUp(n + 1) - n) then Malformed
    else Parsed(s[..n], s[RoundUp(n + 1)..])
  }

  function ByteValue(c: char): nat {
    c as int % 0x100
  }

  function WordValue(s: string): uint32
    requires |s| >= 4
  {
    (((ByteValue(s[0]) * 0x100 + ByteValue(s[1])) * 0x100 + ByteValue(s[2])) * 0x100 + ByteValue(s[3])) as uint32
  }

  function DecodeWord(s: string): Parsed<uint32> {
    if |s| < 4 then Malformed else Parsed(WordValue(s), s[4..])
  }

  function DecodeBlob(s: string): Parsed<string> {
    var (size, rest) :- DecodeWord(s);
    var n := size as int;
    if n >= 0x8000_0000 || RoundUp(n) > |rest| || rest[n..RoundUp(n)] != Zeros(RoundUp(n) - n) then Malformed
    else Parsed(rest[..n], rest[RoundUp(n)..])
  }

  function DecodeArg(tag: char, s: string): Parsed<Arg> {
    if IsIntTag(tag) then
      var (w, rest) :- DecodeWord(s);
      Parsed(Int(w), rest)
    else if tag == 'f' then
      var (w, rest) :- DecodeWord(s);
      Parsed(Float(w), rest)
    else if tag == 's' then
      var (text, rest) :- DecodeString(s);
      Parsed(Str(text), rest)
    else if tag == 'b' then
      var (data, rest) :- DecodeBlob(s);
      Parsed(Blob(data), rest)
    else Malformed
  }

  function DecodeArgs(tags: string, s: string): Parsed<seq<Arg>> {
    if tags == "" then Parsed([], s)
    else if IsDataless(tags[0]) then DecodeArgs(tags[1..], s)
    else
      var (a, rest) :- DecodeArg(tags[0], s);
      var (more, last) :- DecodeArgs(tags[1..], rest);
      Parsed([a] + more, last)
  }

  /** One message, which takes up the whole of s. */
  function DecodeMessage(s: string): Parsed<Message> {
    var (address, rest) :- DecodeString(s);
    var (types, data) :- DecodeString(rest);
    if address == "" || address[0] != '/' || types == "" || types[0] != ',' then Malformed
    else
      var (args, last) :- DecodeArgs(types[1..], data);
      if last != "" then Malformed else Parsed(Message(address, types[1..], args), "")
  }

  /** Elements: each a size that is a multiple of four, and a message of that size. */
  function DecodeElements(s: string): Parsed<seq<Message>>
    decreases |s|
  {
    if s == "" then Parsed([], "")
    else
      var (size, rest) :- DecodeWord(s);
      var n := size as int;
      if !Aligned(n) || n > |rest| then Malformed
      else
        var (m, _) :- DecodeMessage(rest[..n]);
        var (more, _) :- DecodeElements(rest[n..]);
        Parsed([m] + more, "")
  }

  function DecodeBundle(s: string): Parsed<seq<Message>> {
    if |s| < 16 || s[..8] != "#bundle\0" then Malformed else DecodeElements(s[16..])
  }
}
