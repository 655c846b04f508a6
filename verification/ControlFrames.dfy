/** Length-prefixed frames of the control socket: four big-endian length bytes, then JSON. */
module ControlFrames {
  import opened Bytes
  import opened Framing

  const MAX_FRAME_BYTES: nat := 16 * 1024 * 1024

  /** How the bytes of a connection end: the peer closed it, or reading failed. */
  datatype End = Eof | IoError

  datatype FrameError = TooLong(len: nat) | CutShort | ReadFailed | BadJson

  datatype ReadOutcome<+T> = Read(message: T) | Closed | Refused(error: FrameError)

  /** One read from the bytes left: its outcome, and how many bytes it consumes. */
  function ReadSpec<T>(bytes: seq<byte>, end: End, decode: seq<byte> -> Option<T>): (ReadOutcome<T>, nat) {
    if |bytes| < 4 then (if end.Eof? then Closed else Refused(ReadFailed), |bytes|)
    else
      var len := U32At(bytes, 0);
      if len > MAX_FRAME_BYTES then (Refused(TooLong(len)), 4)
      else if |bytes| < 4 + len then (Refused(if end.Eof? then CutShort else ReadFailed), |bytes|)
      else match decode(bytes[4..4 + len])
        case Some(m) => (Read(m), 4 + len)
        case None => (Refused(BadJson), 4 + len)
  }

  function Frame(body: seq<byte>): seq<byte> {
    U32Bytes(Length32(|body|)) + body
  }

  /** How a write ends; Broken is an error of the stream, with part of the frame or all of it written. */
  datatype WriteOutcome = Written | Oversized | Broken

  /** The part of some bytes that a stream takes which accepts so many more, or any number. */
  function Accepted(s: seq<byte>, room: Option<nat>): seq<byte> {
    if room.None? || |s| <= room.value then s else s[..room.value]
  }

  class ByteStream {
    var bytes: seq<byte>
    var room: Option<nat>
    const end: End
    const flushes: bool

    constructor (bytes: seq<byte>, end: End, room: Option<nat>, flushes: bool)
      ensures this.bytes == bytes && this.end == end && this.room == room && this.flushes == flushes
    {
      this.bytes, this.end, this.room, this.flushes := bytes, end, room, flushes;
    }

    /** Rust's `read_exact`: on a short stream everything is consumed and nothing returned. */
    method ReadExact(n: nat) returns (r: Option<seq<byte>>)
      modifies this`bytes
      ensures r == if old(|bytes|) >= n then Some(old(bytes)[..n]) else None
      ensures bytes == if old(|bytes|) >= n then old(bytes)[n..] else []
    {
      if |bytes| < n {
        bytes := [];
        return None;
      }
      r := Some(bytes[..n]);
      bytes := bytes[n..];
    }

    method ReadFrame<T>(decode: seq<byte> -> Option<T>) returns (r: ReadOutcome<T>)
      modifies this`bytes
      ensures var (outcome, consumed) := ReadSpec(old(bytes), end, decode);
        r == outcome && consumed <= old(|bytes|) && bytes == old(bytes)[consumed..]
    {
      hide U32At;
      var header := ReadExact(4);
      if header == None {
        return if end.Eof? then Closed else Refused(ReadFailed);
      }
      var len := U32At(header.value, 0);
      U32AtFront(old(bytes));
      if len > MAX_FRAME_BYTES {
        return Refused(TooLong(len));
      }
      var body := ReadExact(len);
      if body == None {
        return Refused(if end.Eof? then CutShort else ReadFailed);
      }
      assert old(bytes)[4..][..len] == old(bytes)[4..4 + len];
      assert old(bytes)[4..][len..] == old(bytes)[4 + len..];
      r := match decode(body.value)
           case Some(m) => Read(m)
           case None => Refused(BadJson);
    }

    /** Rust's `write_all`: it stops where the stream fails. */
    method WriteAll(s: seq<byte>) returns (ok: bool)
      modifies this`bytes, this`room
      ensures bytes == old(bytes) + Accepted(s, old(room))
      ensures ok <==> Accepted(s, old(room)) == s
      ensures room == if old(room) == None then None else Some(old(room.value) - |Accepted(s, old(room))|)
    {
      ok := room == None || |s| <= room.value;
      var taken := if ok then s else s[..room.value];
      bytes := bytes + taken;
      room := if room == None then None else Some(room.value - |taken|);
    }

    /** Writes to the peer's end of the stream; a message over the limit writes nothing. */
    method WriteFrame<T>(m: T, encode: T -> seq<byte>) returns (w: WriteOutcome)
      modifies this`bytes, this`room
      ensures w == Oversized <==> |encode(m)| > MAX_FRAME_BYTES
      ensures w == Oversized ==> bytes == old(bytes) && room == old(room)
      ensures w != Oversized ==> bytes == old(bytes) + Accepted(Frame(encode(m)), old(room))
      ensures w == Written ==> bytes == old(bytes) + Frame(encode(m))
      ensures w == Broken <==>
        w != Oversized && (!flushes || (old(room).Some? && old(room).value < |Frame(encode(m))|))
    {
      hide U32Bytes, Length32;
      var body := encode(m);
      if |body| > MAX_FRAME_BYTES {
        return Oversized;
      }
      var header := U32Bytes(Length32(|body|));
      var ok := WriteAll(header);
      if !ok {
        assert Accepted(header, old(room)) == Accepted(Frame(body), old(room));
        return Broken;
      }
      ok := WriteAll(body);
      if !ok {
        return Broken;
      }
      w := if flushes then Written else Broken;
    }
  }

  lemma U32AtFront(bytes: seq<byte>)
    requires |bytes| >= 4
    ensures U32At(bytes[..4], 0) == U32At(bytes, 0)
  {
  }

  // ---- Main results ----

  function WireOf<T>(ms: seq<T>, encode: T -> seq<byte>): seq<byte> {
    if ms == [] then [] else Frame(encode(ms[0])) + WireOf(ms[1..], encode)
  }

  /** The outcomes of repeated reads, up to and including the first that returns no message. */
  function ReadAll<T>(bytes: seq<byte>, end: End, decode: seq<byte> -> Option<T>): (seq<T>, ReadOutcome<T>)
    decreases |bytes|
  {
    var (r, n) := ReadSpec(bytes, end, decode);
    match r
    case Read(m) => var (ms, last) := ReadAll(bytes[n..], end, decode); ([m] + ms, last)
    case _ => ([], r)
  }

  ghost predicate Inverse<T(!new)>(encode: T -> seq<byte>, decode: seq<byte> -> Option<T>) {
    forall m :: decode(encode(m)) == Some(m)
  }

  lemma FrameIsRead<T(!new)>(m: T, rest: seq<byte>, end: End, encode: T -> seq<byte>, decode: seq<byte> -> Option<T>)
    requires Inverse(encode, decode) && |encode(m)| <= MAX_FRAME_BYTES
    ensures ReadSpec(Frame(encode(m)) + rest, end, decode) == (Read(m), |Frame(encode(m))|)
  {
    var body := encode(m);
    var s := Frame(body) + rest;
    hide U32At, U32Bytes, Length32;
    assert s == U32Bytes(Length32(|body|)) + (body + rest);
    LengthIsRead(|body|, body + rest);
    assert s[4..4 + |body|] == body;
  }

  lemma LengthIsRead(n: nat, rest: seq<byte>)
    requires n < TWO_TO_32
    ensures U32At(U32Bytes(Length32(n)) + rest, 0) == n
  {
    U32Assembled(n);
  }

  /**
   * Any list of messages within the limit is read back as that list; what follows decides how
   * the reading ends: nothing, and it ends cleanly.
   */
  lemma {:induction false} FramesRoundTrip<T(!new)>(
      ms: seq<T>, rest: seq<byte>, end: End, encode: T -> seq<byte>, decode: seq<byte> -> Option<T>)
    requires Inverse(encode, decode)
    requires forall m :: m in ms ==> |encode(m)| <= MAX_FRAME_BYTES
    requires !ReadSpec(rest, end, decode).0.Read?
    ensures ReadAll(WireOf(ms, encode) + rest, end, decode) == (ms, ReadSpec(rest, end, decode).0)
  {
    hide ReadSpec, Frame;
    if ms == [] {
      assert WireOf(ms, encode) + rest == rest;
    } else {
      var later := WireOf(ms[1..], encode) + rest;
      var s := WireOf(ms, encode) + rest;
      assert s == Frame(encode(ms[0])) + later;
      FrameIsRead(ms[0], later, end, encode, decode);
      assert s[|Frame(encode(ms[0]))|..] == later;
      FramesRoundTrip(ms[1..], rest, end, encode, decode);
      assert [ms[0]] + ms[1..] == ms;
    }
  }

  /**
   * A connection cut k bytes into a frame: a clean end within the header (not only before it,
   * as the function's comment has it), an error within the body.
   */
  lemma CutFrame<T(!new)>(
      ms: seq<T>, m: T, k: nat, encode: T -> seq<byte>, decode: seq<byte> -> Option<T>)
    requires Inverse(encode, decode)
    requires |encode(m)| <= MAX_FRAME_BYTES && forall x :: x in ms ==> |encode(x)| <= MAX_FRAME_BYTES
    requires k < |Frame(encode(m))|
    ensures ReadAll(WireOf(ms, encode) + Frame(encode(m))[..k], Eof, decode) ==
            (ms, if k < 4 then Closed else Refused(CutShort))
  {
    var body := encode(m);
    var cut := Frame(body)[..k];
    if k >= 4 {
      hide U32At, U32Bytes, Length32;
      assert cut == U32Bytes(Length32(|body|)) + body[..k - 4];
      LengthIsRead(|body|, body[..k - 4]);
    }
    FramesRoundTrip(ms, cut, Eof, encode, decode);
  }

  /** A frame is its length, high byte first, and its body. */
  lemma FrameBytes(body: seq<byte>)
    requires |body| < TWO_TO_32
    ensures var f := Frame(body);
      && |f| == 4 + |body| && HighFirst(f[0], f[1], f[2], f[3]) == |body| && f[4..] == body
  {
    BigEndian(0, |body|, Frame(body), 0);
    hide U32Bytes, U32At;
  }

  /** Every byte stream has exactly one of these outcomes, told by its length and its first four bytes. */
  lemma Classification<T(!new)>(bytes: seq<byte>, end: End, decode: seq<byte> -> Option<T>)
    ensures var r := ReadSpec(bytes, end, decode).0; var n := |bytes|;
      && (r.Closed? <==> n < 4 && end.Eof?)
      && (r.Refused? && r.error.TooLong? <==> n >= 4 && U32At(bytes, 0) > 16777216)
      && (r.Refused? && r.error.CutShort? <==>
            end.Eof? && n >= 4 && U32At(bytes, 0) <= 16777216 && n - 4 < U32At(bytes, 0))
      && (r.Read? || (r.Refused? && r.error.BadJson?) <==>
            n >= 4 && U32At(bytes, 0) <= 16777216 && n - 4 >= U32At(bytes, 0))
  {
    hide U32At;
  }
}
