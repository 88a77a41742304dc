/** Bundles of miniosc.h: a buffer that messages are added to, one call after the other. */
module OscBundle {
  import opened NativeTypes
  import opened OscFormat
  import opened MiniOsc

  /** bundleplace: null, the marker value 1, or a pointer into (or past) the buffer. */
  datatype Place = Null | Marker | Offset(n: nat)

  datatype BundleState = BundleState(data: string, place: Place)

  datatype Call = Call(address: CString, types: CString, args: seq<Arg>)

  /** The arguments that a caller of a varargs function owes: what the type tags take, and no more. */
  ghost predicate Callable(c: Call) {
    c.types != "" ==> Supplies(c.types[1..], c.args) && NoSpareArgs(c.types[1..], c.args)
  }

  /** Where the next element starts. */
  function Start(s: BundleState): nat
    requires !s.place.Marker?
  {
    if s.place.Null? then 16 else s.place.n
  }

  /** The buffer once the header is in place. */
  function Headed(s: BundleState): (r: string)
    requires |s.data| == MINIOSC_BUFFER
    ensures |r| == |s.data|
  {
    if s.place.Null? then Overwrite(s.data, 0, BUNDLE_HEADER) else s.data
  }

  function Encoding(s: BundleState, c: Call): Encoded
    requires !s.place.Marker? && Callable(c)
  {
    EncodeMessage(Start(s) + 4, c.address, c.types, c.args)
  }

  /** The error code of one call. */
  function Result(s: BundleState, c: Call): int
    requires Callable(c)
  {
    if s.place.Marker? then ERROR_OVERFLOW else Encoding(s, c).err
  }

  /** The bundle after one call. A failing call keeps the place it had reached, and leaves the size word alone. */
  function Added(s: BundleState, c: Call): (r: BundleState)
    requires |s.data| == MINIOSC_BUFFER && Callable(c)
    ensures |r.data| == MINIOSC_BUFFER
  {
    if s.place.Marker? then s
    else
      var p, e := Start(s), Encoding(s, c);
      MessageContained(p + 4, c.address, c.types, c.args);
      var encoded := Overwrite(Headed(s), p + 4, e.bytes);
      var sized := if e.err == 0 && e.bytes != "" then Overwrite(encoded, p, WordBytes(|e.bytes| as uint32)) else encoded;
      BundleState(sized, Offset(p + 4 + |e.bytes|))
  }

  // ----- the bundle object -----

  class MoBundle {
    const bundledata: array<char>
    var bundleplace: Place

    ghost function Value(): BundleState
      reads this, bundledata
    {
      BundleState(bundledata[..], bundleplace)
    }

    /** A zero-initialised mobundle. */
    constructor ()
      ensures fresh(bundledata) && bundledata.Length == MINIOSC_BUFFER
      ensures Value() == BundleState(Zeros(MINIOSC_BUFFER), Null)
    {
      bundledata := new char[MINIOSC_BUFFER](_ => '\0');
      bundleplace := Null;
      new;
      ghost var zeros := Zeros(MINIOSC_BUFFER);
      forall k | 0 <= k < MINIOSC_BUFFER ensures zeros[k] == '\0' {
        assert zeros[k] in zeros;
      }
      assert bundledata[..] == zeros;
    }

    /** minioscBundle. */
    method Add(c: Call) returns (err: int)
      requires bundledata.Length == MINIOSC_BUFFER && Callable(c)
      modifies this, bundledata
      ensures err == Result(old(Value()), c)
      ensures Value() == Added(old(Value()), c)
    {
      hide EncodeMessage, Overwrite, WordBytes;
      ghost var s := Value();
      if bundleplace.Marker? {
        return ERROR_OVERFLOW;
      }
      MessageContained(Start(s) + 4, c.address, c.types, c.args);
      if bundleplace.Null? {
        forall k | 0 <= k < 16 {
          bundledata[k] := BUNDLE_HEADER[k];
        }
        HeaderWritten(s.data, bundledata[..]);
        bundleplace := Offset(16);
      }
      assert bundledata[..] == Headed(s);
      var bpl := bundleplace.n;
      bundleplace := Offset(bpl + 4);
      ghost var headed := bundledata[..];
      var next;
      err, next := EncodeInternal(bundledata, bundleplace.n, c.address, c.types, c.args);
      bundleplace := Offset(next);
      ghost var e, encoded := Encoding(s, c), bundledata[..];
      LeavesContent(headed, encoded, bpl + 4, next, err, e);
      if err == 0 {
        var len := bundleplace.n - bpl - 4;
        if len != 0 {
          var word := WordBytes(len as uint32);
          forall k | 0 <= k < 4 {
            bundledata[bpl + k] := word[k];
          }
          OverwriteByIndex(encoded, bundledata[..], bpl, word);
        }
      }
    }

    /**
     minioscSendBundle, which hands the bytes up to the place to the socket. After failed calls the
     place may lie behind the buffer; beyond is what memory holds there.
     */
    method Send(beyond: nat -> char) returns (err: int, sent: string)
      requires bundledata.Length == MINIOSC_BUFFER
      ensures bundleplace.Offset? ==> err == 0 && sent == Stretch(bundledata[..], bundleplace.n, beyond)
      ensures !bundleplace.Offset? ==> err == ERROR_EMPTY && sent == ""
    {
      if bundleplace.Null? || bundleplace.Marker? {
        return ERROR_EMPTY, "";
      }
      var sendlen := bundleplace.n;
      if sendlen <= MINIOSC_BUFFER {
        return 0, bundledata[..sendlen];
      }
      return 0, bundledata[..] + seq(sendlen - MINIOSC_BUFFER, k requires k >= 0 => beyond(k));
    }
  }

  /** The first n bytes of memory from the start of the data on. */
  function Stretch(data: string, n: nat, beyond: nat -> char): (r: string)
    ensures |r| == n
    ensures forall k :: 0 <= k < n ==> r[k] == if k < |data| then data[k] else beyond(k - |data|)
    ensures n <= |data| ==> r == data[..n]
  {
    if n <= |data| then data[..n] else data + seq(n - |data|, k requires k >= 0 => beyond(k))
  }

  lemma HeaderWritten(before: string, after: string)
    requires |before| == |after| == MINIOSC_BUFFER
    requires forall k :: 0 <= k < MINIOSC_BUFFER ==> after[k] == if k < 16 then BUNDLE_HEADER[k] else before[k]
    ensures after == Overwrite(before, 0, BUNDLE_HEADER)
  {
    OverwriteByIndex(before, after, 0, BUNDLE_HEADER);
  }

  lemma LeavesContent(before: string, after: string, place: nat, next: nat, err: int, e: Encoded)
    requires Leaves(before, after, place, next, err, e)
    ensures err == e.err && next == place + |e.bytes|
    ensures e.bytes != "" ==> place + |e.bytes| <= |before|
    ensures after == Overwrite(before, place, e.bytes)
  {}
}
