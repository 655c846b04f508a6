/** 64-byte packet framing of the Trezor wire protocol, and the header decoder beside it. */
module Framing {
  import opened Bytes

  type Datagram = seq<byte>

  datatype Message = Message(msgType: u16, payload: seq<byte>)

  // ---- Big-endian integers ----

  function U16Bytes(x: u16): (s: seq<byte>)
    ensures |s| == 2
  {
    [x / 0x100, x % 0x100]
  }

  function U32Bytes(x: u32): (s: seq<byte>)
    ensures |s| == 4
  {
    [x / 0x100_0000, x / 0x1_0000 % 0x100, x / 0x100 % 0x100, x % 0x100]
  }

  function U16At(s: seq<byte>, i: nat): u16
    requires i + 2 <= |s|
  {
    s[i] as int * 0x100 + s[i + 1] as int
  }

  function U32At(s: seq<byte>, i: nat): u32
    requires i + 4 <= |s|
  {
    s[i] as int * 0x100_0000 + s[i + 1] as int * 0x1_0000 + s[i + 2] as int * 0x100 + s[i + 3] as int
  }

  lemma U32Assembled(x: u32)
    ensures U32At(U32Bytes(x), 0) == x
  {
    assert x / 0x1_0000 == x / 0x100_0000 * 0x100 + x / 0x1_0000 % 0x100;
    assert x / 0x100 == x / 0x1_0000 * 0x100 + x / 0x100 % 0x100;
  }

  // ---- What a message looks like on the wire ----

  function Min(a: nat, b: nat): nat {
    if a < b then a else b
  }

  /** A length as the code casts it to u32. */
  function Length32(n: nat): (r: u32)
    ensures n < TWO_TO_32 ==> r == n
  {
    n % TWO_TO_32
  }

  function Zeros(n: nat): seq<byte> {
    seq(n, _ => 0)
  }

  /** s with zeros up to the packet size. */
  function Padded(s: seq<byte>): (p: Datagram)
    requires |s| <= 64
    ensures |p| == 64 && s <= p
  {
    s + Zeros(64 - |s|)
  }

  /** The nine bytes in front of a message; the length field holds the length modulo 2^32. */
  function Header(msgType: u16, length: nat): (h: seq<byte>)
    ensures |h| == 9
  {
    [0x3F, 0x23, 0x23] + U16Bytes(msgType) + U32Bytes(Length32(length))
  }

  function FirstPacket(m: Message): Datagram {
    Padded(Header(m.msgType, |m.payload|) + m.payload[..Min(|m.payload|, 55)])
  }

  function Continuations(data: seq<byte>): seq<Datagram> {
    if data == [] then []
    else [Padded([0x3F] + data[..Min(|data|, 63)])] + Continuations(data[Min(|data|, 63)..])
  }

  function Frames(m: Message): seq<Datagram> {
    [FirstPacket(m)] + Continuations(m.payload[Min(|m.payload|, 55)..])
  }

  function FramesOfAll(ms: seq<Message>): seq<Datagram> {
    if ms == [] then [] else Frames(ms[0]) + FramesOfAll(ms[1..])
  }

  /** Rust's `copy_from_slice` into a part of a buffer. */
  method CopyInto(buf: array<byte>, at: nat, src: seq<byte>)
    requires at + |src| <= buf.Length
    modifies buf
    ensures buf[..] == old(buf[..])[..at] + src + old(buf[..])[at + |src|..]
  {
    forall i | 0 <= i < |src| {
      buf[at + i] := src[i];
    }
  }

  method FillHeader(buf: array<byte>, msgType: u16, length: nat)
    requires buf.Length == 64
    modifies buf
    ensures buf[..] == Header(msgType, length) + old(buf[..])[9..]
  {
    buf[0] := 0x3F;
    buf[1] := 0x23;
    buf[2] := 0x23;
    var t := U16Bytes(msgType);
    var len := U32Bytes(Length32(length));
    hide U16Bytes, U32Bytes, Length32;
    buf[3] := t[0];
    buf[4] := t[1];
    buf[5] := len[0];
    buf[6] := len[1];
    buf[7] := len[2];
    buf[8] := len[3];
    assert buf[..9] == [0x3F, 0x23, 0x23] + t + len;
    assert buf[9..] == old(buf[..])[9..];
  }

  method FillFirst(m: Message) returns (packet: Datagram)
    ensures packet == FirstPacket(m)
  {
    var buf := new byte[64](_ => 0);
    assert buf[..] == Zeros(64);
    FillHeader(buf, m.msgType, |m.payload|);
    var n := Min(|m.payload|, 55);
    hide Header;
    CopyInto(buf, 9, m.payload[..n]);
    packet := buf[..];
  }

  method FillContinuation(payload: seq<byte>, offset: nat) returns (packet: Datagram, chunk: nat)
    requires offset < |payload|
    ensures chunk == Min(|payload| - offset, 63)
    ensures packet == Padded([0x3F] + payload[offset..][..chunk])
  {
    var buf := new byte[64](_ => 0);
    buf[0] := 0x3F;
    assert buf[..] == [0x3F] + Zeros(63);
    chunk := Min(|payload| - offset, 63);
    CopyInto(buf, 1, payload[offset..offset + chunk]);
    assert payload[offset..][..chunk] == payload[offset..offset + chunk];
    packet := buf[..];
  }

  method FrameMessage(m: Message) returns (packets: seq<Datagram>)
    ensures packets == Frames(m)
  {
    var payload := m.payload;
    var first := FillFirst(m);
    packets := [first];
    var offset := Min(|payload|, 55);
    hide FirstPacket, Padded;
    while offset < |payload|
      invariant offset <= |payload|
      invariant packets + Continuations(payload[offset..]) == Frames(m)
    {
      var cont, chunk := FillContinuation(payload, offset);
      assert payload[offset..][chunk..] == payload[offset + chunk..];
      packets := packets + [cont];
      offset := offset + chunk;
    }
  }

  lemma {:induction false} ContinuationCount(data: seq<byte>)
    ensures |Continuations(data)| == (|data| + 62) / 63
    decreases |data|
  {
    if data != [] {
      ContinuationCount(data[Min(|data|, 63)..]);
    }
  }

  /** One packet, and one more for every 63 bytes or part of them past the first 55. */
  lemma PacketCount(m: Message)
    ensures |Frames(m)| == 1 + (if |m.payload| <= 55 then 0 else (|m.payload| - 55 + 62) / 63)
  {
    ContinuationCount(m.payload[Min(|m.payload|, 55)..]);
  }

  lemma {:induction false} ContinuationShape(data: seq<byte>, i: nat)
    requires i < |Continuations(data)|
    ensures |Continuations(data)[i]| == 64 && Continuations(data)[i][0] == 0x3F
    decreases |data|
  {
    if i > 0 {
      ContinuationShape(data[Min(|data|, 63)..], i - 1);
    }
  }

  // ---- Receiving ----

  /** What `recv` leaves in a 64-byte buffer: the rest of a longer datagram is dropped. */
  function Cut(d: Datagram): (c: Datagram)
    ensures |c| <= 64
  {
    d[..Min(|d|, 64)]
  }

  /** The payload bytes of a continuation packet. */
  function Body(d: Datagram): seq<byte> {
    if d == [] then [] else Cut(d)[1..]
  }

  predicate IsFirst(c: Datagram) {
    |c| >= 9 && c[0] == 0x3F && c[1] == 0x23 && c[2] == 0x23
  }

  /** How a receive can fail; Panic is the slice `buf[1..0]` of an empty datagram. */
  datatype RecvError = TimedOut | BadFirst | BadContinuation | Panic

  datatype Received =
    | Got(message: Message, rest: seq<Datagram>)
    | Failed(error: RecvError, rest: seq<Datagram>)

  /**
   * One receive on a queue of datagrams. The debug link checks each continuation packet
   * (strict); the main-port client does not.
   */
  function Receive(inbox: seq<Datagram>, strict: bool): Received {
    if inbox == [] then Failed(TimedOut, [])
    else
      var c := Cut(inbox[0]);
      if !IsFirst(c) then Failed(BadFirst, inbox[1..])
      else Collect(U16At(c, 3), U32At(c, 5), c[9..], inbox[1..], strict)
  }

  function Collect(msgType: u16, length: nat, data: seq<byte>, inbox: seq<Datagram>, strict: bool): Received
    decreases |inbox|
  {
    if |data| >= length then Got(Message(msgType, data[..length]), inbox)
    else if inbox == [] then Failed(TimedOut, [])
    else
      var c := Cut(inbox[0]);
      if strict && (c == [] || c[0] != 0x3F) then Failed(BadContinuation, inbox[1..])
      else if c == [] then Failed(Panic, inbox[1..])
      else Collect(msgType, length, data + Body(inbox[0]), inbox[1..], strict)
  }

  // ---- Reassembly of arbitrary datagrams ----

  predicate GoodContinuation(d: Datagram, strict: bool) {
    d != [] && (strict ==> d[0] == 0x3F)
  }

  function Bodies(ds: seq<Datagram>): seq<byte> {
    if ds == [] then [] else Body(ds[0]) + Bodies(ds[1..])
  }

  /** The datagrams ds complete a message of the given length, and no fewer of them would. */
  predicate Completes(data: seq<byte>, length: nat, ds: seq<Datagram>, strict: bool) {
    && (forall d :: d in ds ==> GoodContinuation(d, strict))
    && |data| + |Bodies(ds)| >= length
    && (ds != [] ==> |data| + |Bodies(ds[..|ds| - 1])| < length)
  }

  lemma {:induction false} BodiesShorter(ds: seq<Datagram>, k: nat)
    requires k <= |ds|
    ensures |Bodies(ds[..k])| <= |Bodies(ds)|
  {
    if k > 0 {
      assert ds[..k][1..] == ds[1..][..k - 1];
      BodiesShorter(ds[1..], k - 1);
    }
  }

  /** Collecting returns a message exactly when the datagrams it consumes are the fewest that complete it. */
  lemma {:induction false} CollectsFewest(
      t: u16, length: nat, data: seq<byte>, inbox: seq<Datagram>, k: nat, strict: bool)
    requires k <= |inbox|
    ensures var r := Collect(t, length, data, inbox, strict);
      && (Completes(data, length, inbox[..k], strict) <==> r.Got? && r.rest == inbox[k..])
      && (Completes(data, length, inbox[..k], strict) ==>
            r.message == Message(t, (data + Bodies(inbox[..k]))[..length]))
    decreases |inbox|
  {
    var ds := inbox[..k];
    if |data| >= length {
      if k > 0 {
        BodiesShorter(ds, k - 1);
        assert |inbox[k..]| < |inbox|;
      } else {
        assert inbox[0..] == inbox;
        assert data + Bodies([]) == data;
      }
    } else if k == 0 {
      CollectNeedsMore(t, length, data, inbox, strict);
    } else {
      var d := inbox[0];
      CompletesTail(data, length, ds, strict);
      hide Completes, Bodies, Body, Cut;
      assert ds[0] == d && ds[1..] == inbox[1..][..k - 1] && inbox[1..][k - 1..] == inbox[k..];
      if GoodContinuation(d, strict) {
        CollectsFewest(t, length, data + Body(d), inbox[1..], k - 1, strict);
      }
    }
  }

  lemma CompletesTail(data: seq<byte>, length: nat, ds: seq<Datagram>, strict: bool)
    requires ds != [] && |data| < length
    ensures Completes(data, length, ds, strict) <==>
            GoodContinuation(ds[0], strict) && Completes(data + Body(ds[0]), length, ds[1..], strict)
    ensures data + Body(ds[0]) + Bodies(ds[1..]) == data + Bodies(ds)
  {
    hide Body;
    assert forall d :: d in ds <==> d == ds[0] || d in ds[1..];
    BodiesOfTail(ds);
    hide Bodies, GoodContinuation;
    assert data + (Body(ds[0]) + Bodies(ds[1..])) == data + Body(ds[0]) + Bodies(ds[1..]);
  }

  lemma BodiesOfTail(ds: seq<Datagram>)
    requires ds != []
    ensures Bodies(ds) == Body(ds[0]) + Bodies(ds[1..])
    ensures Bodies(ds[..|ds| - 1]) == if |ds| == 1 then [] else Body(ds[0]) + Bodies(ds[1..][..|ds| - 2])
  {
    hide Body;
    if |ds| > 1 {
      assert ds[..|ds| - 1][1..] == ds[1..][..|ds| - 2];
    }
  }

  lemma {:induction false} CollectNeedsMore(t: u16, length: nat, data: seq<byte>, inbox: seq<Datagram>, strict: bool)
    requires |data| < length
    ensures var r := Collect(t, length, data, inbox, strict); r.Got? ==> |r.rest| < |inbox|
    decreases |inbox|
  {
    if inbox != [] && GoodContinuation(inbox[0], strict) && |data + Body(inbox[0])| < length {
      CollectNeedsMore(t, length, data + Body(inbox[0]), inbox[1..], strict);
    }
  }

  /**
   * On any queue of datagrams: a receive succeeds and leaves inbox[k..] exactly when the first
   * datagram is a first packet and the k datagrams are the fewest whose bodies hold the declared
   * length; the payload is then the declared length's prefix of their joined bodies.
   */
  lemma ReceivesFewest(inbox: seq<Datagram>, k: nat, strict: bool)
    requires 1 <= k <= |inbox|
    ensures var r := Receive(inbox, strict); var c := Cut(inbox[0]);
      && (r.Got? && r.rest == inbox[k..] <==>
            IsFirst(c) && Completes(c[9..], U32At(c, 5), inbox[1..k], strict))
      && (r.Got? && r.rest == inbox[k..] ==>
            && |r.message.payload| == U32At(c, 5)
            && r.message == Message(U16At(c, 3), (c[9..] + Bodies(inbox[1..k]))[..U32At(c, 5)]))
  {
    var c := Cut(inbox[0]);
    assert inbox[1..][..k - 1] == inbox[1..k] && inbox[1..][k - 1..] == inbox[k..];
    if IsFirst(c) {
      hide Collect, Cut, Bodies, U16At, U32At;
      CollectsFewest(U16At(c, 3), U32At(c, 5), c[9..], inbox[1..], k - 1, strict);
    }
  }

  lemma {:induction false} CollectLaxFollowsStrict(t: u16, length: nat, data: seq<byte>, inbox: seq<Datagram>)
    ensures Collect(t, length, data, inbox, true).Got? ==>
            Collect(t, length, data, inbox, false) == Collect(t, length, data, inbox, true)
    decreases |inbox|
  {
    if |data| < length && inbox != [] {
      CollectLaxFollowsStrict(t, length, data + Body(inbox[0]), inbox[1..]);
    }
  }

  /** Where the checked loop returns a message, the two unchecked loops return it and consume the same. */
  lemma LaxFollowsStrict(inbox: seq<Datagram>)
    ensures Receive(inbox, true).Got? ==> Receive(inbox, false) == Receive(inbox, true)
  {
    if inbox != [] && IsFirst(Cut(inbox[0])) {
      var c := Cut(inbox[0]);
      CollectLaxFollowsStrict(U16At(c, 3), U32At(c, 5), c[9..], inbox[1..]);
    }
  }

  // ---- Round trips ----

  lemma {:induction false} CollectsContinuations(
      t: u16, data: seq<byte>, more: seq<byte>, pad: seq<byte>, rest: seq<Datagram>, strict: bool)
    requires pad != [] ==> more == []
    ensures Collect(t, |data + more|, data + pad, Continuations(more) + rest, strict) ==
            Got(Message(t, data + more), rest)
    decreases |more|
  {
    if more == [] {
      assert Continuations(more) + rest == rest;
      assert data + more == data;
      assert (data + pad)[..|data|] == data;
    } else {
      var n := Min(|more|, 63);
      var ps := Continuations(more);
      var tail := Zeros(63 - n);
      assert data + pad == data;
      assert (ps + rest)[0] == ps[0] && (ps + rest)[1..] == ps[1..] + rest;
      ChunkBody(more[..n]);
      assert data + Body(ps[0]) == data + more[..n] + tail;
      assert data + more[..n] + more[n..] == data + more;
      CollectsContinuations(t, data + more[..n], more[n..], tail, rest, strict);
    }
  }

  lemma ChunkBody(chunk: seq<byte>)
    requires |chunk| <= 63
    ensures Body(Padded([0x3F] + chunk)) == chunk + Zeros(63 - |chunk|)
    ensures Padded([0x3F] + chunk)[0] == 0x3F
  {
  }

  lemma HeaderFields(t: u16, length: nat, body: seq<byte>)
    ensures var s := Header(t, length) + body;
      && s[0] == 0x3F && s[1] == 0x23 && s[2] == 0x23 && U16At(s, 3) == t
      && U32At(s, 5) == Length32(length) && s[9..] == body
  {
    U32Assembled(Length32(length));
  }

  /** The fields of a message's first packet. */
  lemma FirstPacketFields(m: Message)
    ensures var p := FirstPacket(m); var n := Min(|m.payload|, 55);
      && Cut(p) == p && IsFirst(p) && U16At(p, 3) == m.msgType && U32At(p, 5) == Length32(|m.payload|)
      && p[9..] == m.payload[..n] + Zeros(55 - n)
  {
    var n := Min(|m.payload|, 55);
    var body := m.payload[..n] + Zeros(55 - n);
    HeaderFields(m.msgType, |m.payload|, body);
    hide Header, U16At, U32At, Length32;
    assert FirstPacket(m) == Header(m.msgType, |m.payload|) + body;
  }

  /** A framed message is received as it was, leaving what follows its packets. */
  lemma FrameRoundTrip(m: Message, rest: seq<Datagram>, strict: bool)
    requires |m.payload| < TWO_TO_32
    ensures Receive(Frames(m) + rest, strict) == Got(m, rest)
  {
    var n := Min(|m.payload|, 55);
    var data, more := m.payload[..n], m.payload[n..];
    var inbox := Frames(m) + rest;
    FirstPacketFields(m);
    hide Continuations, Collect, FirstPacket, Cut, U16At, U32At, Length32;
    assert inbox[0] == FirstPacket(m) && inbox[1..] == Continuations(more) + rest;
    assert data + more == m.payload;
    CollectsContinuations(m.msgType, data, more, Zeros(55 - n), rest, strict);
  }

  /** A framed message survives exactly when its length fits the length field. */
  lemma FrameRoundTripIff(m: Message, rest: seq<Datagram>, strict: bool)
    ensures Receive(Frames(m) + rest, strict) == Got(m, rest) <==> |m.payload| < TWO_TO_32
  {
    var inbox := Frames(m) + rest;
    var r := Receive(inbox, strict);
    if |m.payload| < TWO_TO_32 {
      FrameRoundTrip(m, rest, strict);
    } else if r.Got? {
      ReceivedLength(inbox, strict);
    }
  }

  lemma {:induction false} CollectedLength(t: u16, length: nat, data: seq<byte>, inbox: seq<Datagram>, strict: bool)
    ensures var r := Collect(t, length, data, inbox, strict); r.Got? ==> |r.message.payload| == length
    decreases |inbox|
  {
    if |data| < length && inbox != [] {
      CollectedLength(t, length, data + Body(inbox[0]), inbox[1..], strict);
    }
  }

  lemma ReceivedLength(inbox: seq<Datagram>, strict: bool)
    ensures var r := Receive(inbox, strict); r.Got? ==> |r.message.payload| < TWO_TO_32
  {
    if inbox != [] && IsFirst(Cut(inbox[0])) {
      var c := Cut(inbox[0]);
      CollectedLength(U16At(c, 3), U32At(c, 5), c[9..], inbox[1..], strict);
    }
  }

  /** The messages of n receives in a row, up to the first that fails, and the datagrams left. */
  function ReceiveMany(inbox: seq<Datagram>, n: nat, strict: bool): (seq<Message>, seq<Datagram>)
    decreases n
  {
    if n == 0 then ([], inbox)
    else match Receive(inbox, strict)
      case Got(m, rest) =>
        var (ms, left) := ReceiveMany(rest, n - 1, strict);
        ([m] + ms, left)
      case Failed(_, rest) => ([], rest)
  }

  lemma FramesOfFirst(ms: seq<Message>)
    ensures FramesOfAll(ms) == if ms == [] then [] else Frames(ms[0]) + FramesOfAll(ms[1..])
  {
  }

  /** Any list of framed messages, sent back to back, is received as that list and leaves what follows it. */
  lemma {:induction false} StreamRoundTrip(ms: seq<Message>, rest: seq<Datagram>, strict: bool)
    requires forall m :: m in ms ==> |m.payload| < TWO_TO_32
    ensures ReceiveMany(FramesOfAll(ms) + rest, |ms|, strict) == (ms, rest)
  {
    hide Frames, Receive, FramesOfAll;
    FramesOfFirst(ms);
    if ms != [] {
      var later := FramesOfAll(ms[1..]) + rest;
      assert FramesOfAll(ms) + rest == Frames(ms[0]) + later;
      FrameRoundTrip(ms[0], later, strict);
      StreamRoundTrip(ms[1..], rest, strict);
      assert [ms[0]] + ms[1..] == ms;
    } else {
      assert FramesOfAll(ms) + rest == rest;
    }
  }

  // ---- The bytes themselves ----

  function HighFirst(a: int, b: int, c: int, d: int): int {
    16777216 * a + 65536 * b + 256 * c + d
  }

  /** Both integers stand high byte first. */
  lemma BigEndian(x: u16, y: u32, s: seq<byte>, i: nat)
    requires i + 4 <= |s|
    ensures HighFirst(0, 0, U16Bytes(x)[0], U16Bytes(x)[1]) == x
    ensures HighFirst(U32Bytes(y)[0], U32Bytes(y)[1], U32Bytes(y)[2], U32Bytes(y)[3]) == y
    ensures U16At(s, i) == HighFirst(0, 0, s[i], s[i + 1])
    ensures U32At(s, i) == HighFirst(s[i], s[i + 1], s[i + 2], s[i + 3])
  {
    U32Assembled(y);
  }

  /** The first packet byte by byte: magic, type and length high byte first, payload, zeros. */
  lemma FirstPacketBytes(m: Message)
    requires |m.payload| < TWO_TO_32
    ensures var p := Frames(m)[0];
      && |p| == 64 && p[0] == 0x3F && p[1] == 0x23 && p[2] == 0x23
      && HighFirst(0, 0, p[3], p[4]) == m.msgType
      && HighFirst(p[5], p[6], p[7], p[8]) == |m.payload|
      && forall i :: 9 <= i < 64 ==> p[i] == if i - 9 < |m.payload| then m.payload[i - 9] else 0
  {
    var p := Frames(m)[0];
    BigEndian(m.msgType, |m.payload|, p, 3);
    BigEndian(m.msgType, |m.payload|, p, 5);
    FirstPacketFields(m);
    hide U16At, U32At, U16Bytes, U32Bytes, Length32, Frames;
    FirstPacketMagic(m);
    assert forall i :: 9 <= i < 64 ==> p[i] == p[9..][i - 9];
  }

  lemma FirstPacketMagic(m: Message)
    ensures Frames(m)[0] == FirstPacket(m)
    ensures var p := FirstPacket(m); p[0] == 0x3F && p[1] == 0x23 && p[2] == 0x23
  {
  }

  // ---- How a receive fails ----

  /** Nothing arrives, or what arrives first is no first packet: told by the queue and its first nine bytes. */
  lemma BadStart(inbox: seq<Datagram>, strict: bool)
    ensures inbox == [] ==> Receive(inbox, strict) == Failed(TimedOut, [])
    ensures inbox != [] ==>
      var d := inbox[0];
      (Receive(inbox, strict) == Failed(BadFirst, inbox[1..]) <==>
        |d| < 9 || d[0] != 0x3F || d[1] != 0x23 || d[2] != 0x23)
  {
    hide U16At, U32At;
    if inbox != [] && IsFirst(Cut(inbox[0])) {
      var c := Cut(inbox[0]);
      CollectFails(U16At(c, 3), U32At(c, 5), c[9..], inbox[1..], strict);
    }
  }

  lemma {:induction false} CollectFails(t: u16, length: nat, data: seq<byte>, inbox: seq<Datagram>, strict: bool)
    ensures var r := Collect(t, length, data, inbox, strict); r.Failed? ==> r.error != BadFirst
    decreases |inbox|
  {
    if |data| < length && inbox != [] {
      CollectFails(t, length, data + Body(inbox[0]), inbox[1..], strict);
    }
  }

  /**
   * Behind a first packet and k good continuations that are not enough, the receive times out if nothing
   * more arrives; a datagram that is empty ends it, and so does one without 0x3F where that is checked.
   */
  lemma {:induction false} CollectBreaksOff(
      t: u16, length: nat, data: seq<byte>, inbox: seq<Datagram>, k: nat, strict: bool)
    requires k <= |inbox| && |data| + |Bodies(inbox[..k])| < length
    requires forall d :: d in inbox[..k] ==> GoodContinuation(d, strict)
    requires k < |inbox| ==> inbox[k] == [] || (strict && inbox[k][0] != 0x3F)
    ensures Collect(t, length, data, inbox, strict) ==
            if k == |inbox| then Failed(TimedOut, [])
            else Failed(if strict then BadContinuation else Panic, inbox[k + 1..])
    decreases k
  {
    if k > 0 {
      var later := inbox[1..];
      assert later[..k - 1] == inbox[..k][1..] && inbox[..k][0] == inbox[0];
      assert inbox[0] in inbox[..k];
      assert forall d :: d in later[..k - 1] ==> d in inbox[..k];
      CollectBreaksOff(t, length, data + Body(inbox[0]), later, k - 1, strict);
    }
  }

  lemma ReceiveBreaksOff(inbox: seq<Datagram>, k: nat, strict: bool)
    requires 1 <= k <= |inbox| && IsFirst(Cut(inbox[0]))
    requires |Cut(inbox[0])[9..]| + |Bodies(inbox[1..k])| < U32At(Cut(inbox[0]), 5)
    requires forall d :: d in inbox[1..k] ==> GoodContinuation(d, strict)
    requires k < |inbox| ==> inbox[k] == [] || (strict && inbox[k][0] != 0x3F)
    ensures Receive(inbox, strict) ==
            if k == |inbox| then Failed(TimedOut, [])
            else Failed(if strict then BadContinuation else Panic, inbox[k + 1..])
  {
    hide U16At, U32At;
    var c := Cut(inbox[0]);
    assert inbox[1..][..k - 1] == inbox[1..k];
    assert k < |inbox| ==> inbox[1..][k..] == inbox[k + 1..];
    CollectBreaksOff(U16At(c, 3), U32At(c, 5), c[9..], inbox[1..], k - 1, strict);
  }

  // ---- The header decoder ----

  datatype DecodeError = TooShort(len: nat) | BadMagic(b0: byte, b1: byte, b2: byte) | ContinuationPacket

  datatype PacketHeader = HeaderOf(typeId: u16, payloadLen: u32) | Undecoded(error: DecodeError)

  function DecodePacket(data: seq<byte>): PacketHeader {
    if |data| < 9 then Undecoded(TooShort(|data|))
    else if data[0] == 0x3F && data[1] != 0x23 then Undecoded(ContinuationPacket)
    else if data[0] != 0x3F || data[1] != 0x23 || data[2] != 0x23 then Undecoded(BadMagic(data[0], data[1], data[2]))
    else HeaderOf(U16At(data, 3), U32At(data, 5))
  }

  predicate IsContinuation(data: seq<byte>) {
    |data| >= 3 && data[0] == 0x3F && !(data[1] == 0x23 && data[2] == 0x23)
  }

  /** What the decoder says of any bytes, and what counts as a continuation. */
  lemma DecoderCases(d: seq<byte>)
    ensures DecodePacket(d) == Undecoded(TooShort(|d|)) <==> |d| < 9
    ensures |d| >= 9 ==>
      && (DecodePacket(d) == Undecoded(ContinuationPacket) <==> d[0] == 0x3F && d[1] != 0x23)
      && (DecodePacket(d) == Undecoded(BadMagic(d[0], d[1], d[2])) <==> d[0] != 0x3F || (d[1] == 0x23 && d[2] != 0x23))
      && (DecodePacket(d) == HeaderOf(U16At(d, 3), U32At(d, 5)) <==> d[0] == 0x3F && d[1] == 0x23 && d[2] == 0x23)
    ensures IsContinuation(d) <==> |d| >= 3 && d[0] == 0x3F && (d[1] != 0x23 || d[2] != 0x23)
  {
    hide U16At, U32At;
  }

  /** Packet 0 of a framed message decodes to its type and its length (modulo 2^32). */
  lemma FirstPacketDecodes(m: Message)
    ensures DecodePacket(Frames(m)[0]) == HeaderOf(m.msgType, Length32(|m.payload|))
    ensures !IsContinuation(Frames(m)[0])
  {
    FirstPacketFields(m);
    hide U16At, U32At, FirstPacket, Cut, Length32;
  }

  /** The payload bytes that packet i of a framed message carries from. */
  function PacketStart(i: nat): nat
    requires i >= 1
  {
    55 + 63 * (i - 1)
  }

  lemma {:induction false} ContinuationAt(data: seq<byte>, i: nat)
    requires i < |Continuations(data)|
    ensures 63 * i < |data| && Continuations(data)[i] == Padded([0x3F] + data[63 * i..][..Min(|data| - 63 * i, 63)])
    decreases |data|
  {
    if i > 0 {
      var later := data[Min(|data|, 63)..];
      ContinuationAt(later, i - 1);
      assert later[63 * (i - 1)..] == data[63 * i..];
    }
  }

  /**
   * A later packet of a framed message is told for a continuation, and refused by the decoder,
   * exactly when the payload bytes it starts with are not 0x23 0x23.
   */
  lemma LaterPacketsDecode(m: Message, i: nat)
    requires 1 <= i < |Frames(m)|
    ensures PacketStart(i) < |m.payload|
    ensures var p := Frames(m)[i]; var s := m.payload[PacketStart(i)..];
      && (IsContinuation(p) <==> !([0x23, 0x23] <= s))
      && (DecodePacket(p).Undecoded? <==> !([0x23, 0x23] <= s))
  {
    var more := m.payload[Min(|m.payload|, 55)..];
    ContinuationAt(more, i - 1);
    var s := m.payload[PacketStart(i)..];
    assert more[63 * (i - 1)..] == s;
    assert Frames(m)[i] == Padded([0x3F] + s[..Min(|s|, 63)]);
    hide Frames;
    PaddedChunkDecodes(s);
  }

  lemma PaddedChunkDecodes(s: seq<byte>)
    ensures var p := Padded([0x3F] + s[..Min(|s|, 63)]);
      && (IsContinuation(p) <==> !([0x23, 0x23] <= s))
      && (DecodePacket(p).Undecoded? <==> !([0x23, 0x23] <= s))
  {
    var p := Padded([0x3F] + s[..Min(|s|, 63)]);
    assert |s| >= 1 ==> p[1] == s[0];
    assert |s| >= 2 ==> p[2] == s[1];
    assert |s| < 2 ==> p[2] == 0;
    assert |s| < 1 ==> p[1] == 0;
    hide U16At, U32At, Padded;
    assert |s| >= 2 ==> s[..2] == [s[0], s[1]];
  }
}
