/** The two UDP clients: the debug link, and the main port with its ButtonRequest dialogue. */
module Wire {
  import opened Bytes
  import opened Varint
  import opened Fields
  import opened Framing
  import Utf8

  function ResultOf(r: Received): Result<Message, RecvError> {
    match r
    case Got(m, _) => Ok(m)
    case Failed(e, _) => Err(e)
  }

  /** The packets handed to the socket by a loop that stops at the first failing send. */
  function Handed(packets: seq<Datagram>, at: nat, failing: set<nat>): seq<Datagram> {
    if packets == [] then []
    else if at in failing then [packets[0]]
    else [packets[0]] + Handed(packets[1..], at + 1, failing)
  }

  predicate AllSent(packets: seq<Datagram>, at: nat, failing: set<nat>) {
    forall i :: at <= i < at + |packets| ==> i !in failing
  }

  lemma {:induction false} HandedWhenSent(packets: seq<Datagram>, at: nat, failing: set<nat>)
    requires AllSent(packets, at, failing)
    ensures Handed(packets, at, failing) == packets
  {
    if packets != [] {
      HandedWhenSent(packets[1..], at + 1, failing);
    }
  }

  /** A connected UDP socket: what will arrive before the time limit, and what was sent. */
  class UdpSocket {
    var inbox: seq<Datagram>
    var tried: seq<Datagram>
    const failing: set<nat>

    constructor (arriving: seq<Datagram>, failing: set<nat>)
      ensures inbox == arriving && tried == [] && this.failing == failing
    {
      inbox, tried, this.failing := arriving, [], failing;
    }

    method Send(packet: Datagram) returns (ok: bool)
      modifies this`tried
      ensures tried == old(tried) + [packet]
      ensures ok <==> old(|tried|) !in failing
    {
      ok := |tried| !in failing;
      tried := tried + [packet];
    }

    /** None stands for the time limit running out. */
    method Recv(buf: array<byte>) returns (n: Option<nat>)
      requires buf.Length == 64
      modifies this`inbox, buf
      ensures old(inbox) == [] ==> n == None && inbox == []
      ensures old(inbox) != [] ==> n == Some(|Cut(old(inbox[0]))|) && buf[..n.value] == Cut(old(inbox[0]))
      ensures old(inbox) != [] ==> inbox == old(inbox)[1..]
    {
      if inbox == [] {
        return None;
      }
      var c := Cut(inbox[0]);
      CopyInto(buf, 0, c);
      inbox := inbox[1..];
      n := Some(|c|);
    }

    method SendAll(packets: seq<Datagram>) returns (ok: bool)
      modifies this`tried
      ensures tried == old(tried) + Handed(packets, old(|tried|), failing)
      ensures ok <==> AllSent(packets, old(|tried|), failing)
    {
      var i := 0;
      while i < |packets|
        invariant i <= |packets| && |tried| == old(|tried|) + i
        invariant tried + Handed(packets[i..], |tried|, failing) == old(tried) + Handed(packets, old(|tried|), failing)
        invariant forall j :: old(|tried|) <= j < |tried| ==> j !in failing
      {
        ghost var at := |tried|;
        ok := Send(packets[i]);
        if !ok {
          assert packets[i..][0] == packets[i];
          return false;
        }
        assert packets[i..][1..] == packets[i + 1..];
        i := i + 1;
      }
      ok := true;
    }

    /** The receive loop: with its checks of each continuation packet (strict), or without. */
    method ReceiveMessage(strict: bool) returns (r: Result<Message, RecvError>)
      modifies this`inbox
      ensures r == ResultOf(Receive(old(inbox), strict)) && inbox == Receive(old(inbox), strict).rest
    {
      var buf := new byte[64](_ => 0);
      var n := Recv(buf);
      if n == None {
        return Err(TimedOut);
      }
      if n.value < 9 || buf[0] != 0x3F || buf[1] != 0x23 || buf[2] != 0x23 {
        return Err(BadFirst);
      }
      assert buf[..n.value][9..] == buf[9..n.value];
      var msgType := U16At(buf[..n.value], 3);
      var length := U32At(buf[..n.value], 5);
      var data := buf[9..n.value];
      hide U16At, U32At, Cut;
      while |data| < length
        invariant Collect(msgType, length, data, inbox, strict) == Receive(old(inbox), strict)
        decreases |inbox|
      {
        n := Recv(buf);
        if n == None {
          return Err(TimedOut);
        }
        if strict {
          if n.value < 1 || buf[0] != 0x3F {
            return Err(BadContinuation);
          }
        }
        if n.value < 1 {
          return Err(Panic);
        }
        assert buf[..n.value][1..] == buf[1..n.value];
        data := data + buf[1..n.value];
      }
      r := Ok(Message(msgType, data[..length]));
    }
  }

  // ---- The debug link ----

  const MSG_DEBUG_LINK_DECISION: u16 := 100
  const MSG_DEBUG_LINK_GET_STATE: u16 := 101
  const MSG_DEBUG_LINK_STATE: u16 := 102

  datatype DebugButton = No | Yes | Info

  function ButtonCode(b: DebugButton): u64 {
    match b case No => 0 case Yes => 1 case Info => 2
  }

  function PressMessage(b: DebugButton): Message {
    Message(MSG_DEBUG_LINK_DECISION, Encode(VarintField(1, ButtonCode(b))))
  }

  datatype LayoutError = RequestNotSent | NotReceived(error: RecvError) | WrongType(msgType: u16) | TokensPanic

  function LayoutIn(r: Result<Message, RecvError>): Result<seq<Text>, LayoutError> {
    match r
    case Err(e) => Err(NotReceived(e))
    case Ok(m) =>
      if m.msgType != MSG_DEBUG_LINK_STATE then Err(WrongType(m.msgType))
      else match Tokens(m.payload, 0)
        case Done(tokens) => Ok(tokens)
        case Overflow => Err(TokensPanic)
  }

  class TrezorDebugLink {
    const socket: UdpSocket

    constructor (socket: UdpSocket)
      ensures this.socket == socket
    {
      this.socket := socket;
    }

    method SendMessage(m: Message) returns (ok: bool)
      modifies socket`tried
      ensures socket.tried == old(socket.tried) + Handed(Frames(m), old(|socket.tried|), socket.failing)
      ensures ok <==> AllSent(Frames(m), old(|socket.tried|), socket.failing)
    {
      var packets := FrameMessage(m);
      ok := socket.SendAll(packets);
    }

    method PressButton(b: DebugButton) returns (ok: bool)
      modifies socket`tried
      ensures socket.tried == old(socket.tried) + Frames(PressMessage(b))
      ensures ok <==> old(|socket.tried|) !in socket.failing
    {
      var payload := EncodeFieldVarint(1, ButtonCode(b));
      ok := SendMessage(Message(MSG_DEBUG_LINK_DECISION, payload));
      PressIsOnePacket(b);
      OnePacketIsHanded(Frames(PressMessage(b)), old(|socket.tried|), socket.failing);
    }

    /** Asks for the screen (field 3 of the request is 0) and returns its token strings. */
    method GetLayout() returns (r: Result<seq<Text>, LayoutError>)
      modifies socket
      ensures var request := Frames(Message(MSG_DEBUG_LINK_GET_STATE, Encode(VarintField(3, 0))));
        && socket.tried == old(socket.tried) + Handed(request, old(|socket.tried|), socket.failing)
        && (!AllSent(request, old(|socket.tried|), socket.failing) ==> r == Err(RequestNotSent))
        && (AllSent(request, old(|socket.tried|), socket.failing) ==>
              && r == LayoutIn(ResultOf(Receive(old(socket.inbox), true)))
              && socket.inbox == Receive(old(socket.inbox), true).rest)
    {
      var payload := EncodeFieldVarint(3, 0);
      hide Receive, LayoutIn, Frames, Encode;
      var ok := SendMessage(Message(MSG_DEBUG_LINK_GET_STATE, payload));
      if !ok {
        return Err(RequestNotSent);
      }
      ReceivedLength(socket.inbox, true);
      var a := socket.ReceiveMessage(true);
      r := ToLayout(a);
    }
  }

  method ToLayout(a: Result<Message, RecvError>) returns (r: Result<seq<Text>, LayoutError>)
    requires a.Ok? ==> |a.value.payload| < TWO_TO_63
    ensures r == LayoutIn(a)
  {
    match a {
      case Err(e) => r := Err(NotReceived(e));
      case Ok(m) =>
        if m.msgType != MSG_DEBUG_LINK_STATE {
          return Err(WrongType(m.msgType));
        }
        var tokens := ParseTokensField(m.payload);
        r := if tokens.Done? then Ok(tokens.value) else Err(TokensPanic);
    }
  }

  lemma OnePacketIsHanded(packets: seq<Datagram>, at: nat, failing: set<nat>)
    requires |packets| == 1
    ensures Handed(packets, at, failing) == packets
    ensures AllSent(packets, at, failing) <==> at !in failing
  {
    assert packets == [packets[0]];
  }

  lemma ShortIsOnePacket(m: Message)
    requires |m.payload| <= 55
    ensures |Frames(m)| == 1
  {
    PacketCount(m);
  }

  lemma PressIsOnePacket(b: DebugButton)
    ensures |Frames(PressMessage(b))| == 1
  {
    EncodingLength(8, 1);
    EncodingLength(ButtonCode(b), 1);
    assert Pow2(7) == 128;
    ShortIsOnePacket(PressMessage(b));
  }

  // ---- The main port ----

  const MSG_FAILURE: u16 := 3
  const MSG_GET_PUBLIC_KEY: u16 := 11
  const MSG_PUBLIC_KEY: u16 := 12
  const MSG_BUTTON_REQUEST: u16 := 26
  const MSG_BUTTON_ACK: u16 := 27

  function Ack(): (p: Datagram)
    ensures Frames(Message(MSG_BUTTON_ACK, [])) == [p]
  {
    ShortIsOnePacket(Message(MSG_BUTTON_ACK, []));
    Frames(Message(MSG_BUTTON_ACK, []))[0]
  }

  function Press(): (p: Datagram)
    ensures Frames(PressMessage(Yes)) == [p]
  {
    PressIsOnePacket(Yes);
    Frames(PressMessage(Yes))[0]
  }

  function Times(p: Datagram, n: nat): seq<Datagram> {
    seq(n, _ => p)
  }

  lemma TimesNext(p: Datagram, n: nat)
    ensures Times(p, n + 1) == Times(p, n) + [p]
    ensures Times(p, 0) == []
  {
  }

  /** The packets after are those before and n times p. */
  predicate Tally(before: seq<Datagram>, after: seq<Datagram>, p: Datagram, n: nat) {
    after == before + Times(p, n)
  }

  lemma TallyNone(before: seq<Datagram>, p: Datagram)
    ensures Tally(before, before, p, 0)
  {
  }

  lemma TallyNext(before: seq<Datagram>, after: seq<Datagram>, p: Datagram, n: nat)
    requires Tally(before, after, p, n)
    ensures Tally(before, after + [p], p, n + 1)
  {
    TimesNext(p, n);
  }

  /** A dialogue that n acks have been sent before. */
  function AfterAcks(d: Dialogue, n: nat): Dialogue {
    d.(acks := d.acks + n)
  }

  datatype Verdict =
    | Reply(payload: seq<byte>)
    | DeviceFailure(text: Text)
    | NoMessage(error: RecvError)
    | NotSent
    | ScanPanic
    | TooManyButtonRequests

  /** What a message other than a ButtonRequest ends the dialogue with. */
  function VerdictOf(m: Message): Verdict {
    if m.msgType == MSG_FAILURE then
      match MessageIn(FindPayload(m.payload, 0, FAILURE_TAG))
      case Done(text) => DeviceFailure(text)
      case Overflow => ScanPanic
    else Reply(m.payload)
  }

  lemma VerdictIsSent(m: Message)
    ensures VerdictOf(m) != NotSent
  {
    hide MessageIn, FindPayload;
  }

  /** How many messages the client waits through. */
  const ROUNDS: nat := 10

  /** A dialogue's verdict, the acks it sent before it, and the datagrams it left. */
  datatype Dialogue = Dialogue(verdict: Verdict, acks: nat, rest: seq<Datagram>)

  /** The dialogue with a budget of messages, the first ack being send number `at`. */
  function Confirm(inbox: seq<Datagram>, budget: nat, at: nat, failing: set<nat>): Dialogue
    decreases budget
  {
    if budget == 0 then Dialogue(TooManyButtonRequests, 0, inbox)
    else
      match Receive(inbox, false)
      case Failed(e, rest) => Dialogue(NoMessage(e), 0, rest)
      case Got(m, rest) =>
        if m.msgType != MSG_BUTTON_REQUEST then Dialogue(VerdictOf(m), 0, rest)
        else if at in failing then Dialogue(NotSent, 0, rest)
        else
          var d := Confirm(rest, budget - 1, at + 1, failing);
          d.(acks := d.acks + 1)
  }

  /** What had been handed to the two sockets when a dialogue began. */
  datatype Sockets = Sockets(wire: seq<Datagram>, link: seq<Datagram>)

  class TrezorWireClient {
    const socket: UdpSocket

    constructor (socket: UdpSocket)
      ensures this.socket == socket
    {
      this.socket := socket;
    }

    /** Answers a ButtonRequest: the ack, then a debug press whose failure is ignored. */
    method Acknowledge(link: TrezorDebugLink?) returns (ok: bool)
      requires link != null ==> link.socket != socket
      modifies socket`tried, (if link == null then {} else {link.socket})`tried
      ensures socket.tried == old(socket.tried) + [Ack()]
      ensures ok <==> old(|socket.tried|) !in socket.failing
      ensures link != null ==>
        link.socket.tried == if ok then old(link.socket.tried) + [Press()] else old(link.socket.tried)
    {
      var packets := FrameMessage(Message(MSG_BUTTON_ACK, []));
      OnePacketIsHanded(packets, |socket.tried|, socket.failing);
      hide Ack, Press, Handed, AllSent;
      ok := socket.SendAll(packets);
      if ok && link != null {
        var _ := link.PressButton(Yes);
      }
    }

    /** The sockets of a dialogue, as the packets handed to them and the datagrams left. */
    ghost predicate Underway(link: TrezorDebugLink?, start: Sockets, spec: Dialogue, i: nat, budget: nat)
      reads socket, if link == null then {} else {link.socket}
    {
      && Tally(start.wire, socket.tried, Ack(), i)
      && (link != null ==> Tally(start.link, link.socket.tried, Press(), i))
      && spec == AfterAcks(Confirm(socket.inbox, budget, |socket.tried|, socket.failing), i)
    }

    /** A dialogue that has come to the end the specification gives it. */
    ghost predicate Ended(link: TrezorDebugLink?, start: Sockets, spec: Dialogue, v: Verdict)
      reads socket, if link == null then {} else {link.socket}
    {
      && v == spec.verdict && socket.inbox == spec.rest
      && Tally(start.wire, socket.tried, Ack(), spec.acks + (if v == NotSent then 1 else 0))
      && (link != null ==> Tally(start.link, link.socket.tried, Press(), spec.acks))
    }

    /** One round of the dialogue; None when it goes on. */
    method Round(link: TrezorDebugLink?, ghost start: Sockets, ghost spec: Dialogue, ghost i: nat, ghost budget: nat)
      returns (r: Option<Verdict>)
      requires link != null ==> link.socket != socket
      requires budget > 0 && Underway(link, start, spec, i, budget)
      modifies socket, (if link == null then {} else {link.socket})`tried
      ensures r == None ==> Underway(link, start, spec, i + 1, budget - 1)
      ensures r.Some? ==> Ended(link, start, spec, r.value)
    {
      hide Receive, Ack, Press, VerdictOf, Tally;
      ReceivedLength(socket.inbox, false);
      TallyNext(start.wire, socket.tried, Ack(), i);
      if link != null {
        TallyNext(start.link, link.socket.tried, Press(), i);
      }
      var m := socket.ReceiveMessage(false);
      if m.Err? {
        return Some(NoMessage(m.error));
      }
      if m.value.msgType != MSG_BUTTON_REQUEST {
        var v := Conclude(m.value);
        VerdictIsSent(m.value);
        return Some(v);
      }
      var ok := Acknowledge(link);
      r := if ok then None else Some(NotSent);
    }

    /** Receives up to ten messages, acknowledging and confirming every ButtonRequest. */
    method RecvWithConfirm(link: TrezorDebugLink?) returns (v: Verdict)
      requires link != null ==> link.socket != socket
      modifies socket, (if link == null then {} else {link.socket})`tried
      ensures Ended(link, old(SocketsOf(link)),
                    Confirm(old(socket.inbox), ROUNDS, old(|socket.tried|), socket.failing), v)
    {
      hide Underway, Ended, Confirm, SocketsOf;
      ghost var start := SocketsOf(link);
      ghost var spec := Confirm(socket.inbox, ROUNDS, |socket.tried|, socket.failing);
      Begins(link, ROUNDS);
      for i := 0 to ROUNDS
        invariant Underway(link, start, spec, i, ROUNDS - i)
      {
        var r := Round(link, start, spec, i, ROUNDS - i);
        if r.Some? {
          return r.value;
        }
      }
      v := TooManyButtonRequests;
      GaveUp(link, start, spec, ROUNDS);
    }

    ghost function SocketsOf(link: TrezorDebugLink?): Sockets
      reads socket, if link == null then {} else {link.socket}
    {
      Sockets(socket.tried, if link == null then [] else link.socket.tried)
    }

    lemma Begins(link: TrezorDebugLink?, budget: nat)
      ensures Underway(link, SocketsOf(link), Confirm(socket.inbox, budget, |socket.tried|, socket.failing), 0, budget)
    {
      TallyNone(socket.tried, Ack());
      if link != null {
        TallyNone(link.socket.tried, Press());
      }
    }

    lemma GaveUp(link: TrezorDebugLink?, start: Sockets, spec: Dialogue, i: nat)
      requires Underway(link, start, spec, i, 0)
      ensures Ended(link, start, spec, TooManyButtonRequests)
    {
    }

    /** Sends a request and receives its answer, without the dialogue. */
    method SendAndRecv(m: Message) returns (r: Option<Result<seq<byte>, RecvError>>)
      modifies socket
      ensures socket.tried == old(socket.tried) + Handed(Frames(m), old(|socket.tried|), socket.failing)
      ensures r == None <==> !AllSent(Frames(m), old(|socket.tried|), socket.failing)
      ensures var a := Receive(old(socket.inbox), false);
        r != None ==> socket.inbox == a.rest && r.value == (if a.Got? then Ok(a.message.payload) else Err(a.error))
    {
      hide Receive;
      var packets := FrameMessage(m);
      var ok := socket.SendAll(packets);
      if !ok {
        return None;
      }
      var a := socket.ReceiveMessage(false);
      r := Some(if a.Ok? then Ok(a.value.payload) else Err(a.error));
    }

    /** GetPublicKey for a BIP32 path. */
    method GetPublicKey(path: seq<u32>, link: TrezorDebugLink?) returns (v: Verdict)
      requires link != null ==> link.socket != socket
      modifies socket, (if link == null then {} else {link.socket})`tried
      ensures var request := Frames(Message(MSG_GET_PUBLIC_KEY, EncodeAll(PublicKeyRequest(path))));
        && (!AllSent(request, old(|socket.tried|), socket.failing) ==>
              && v == NotSent && socket.inbox == old(socket.inbox)
              && socket.tried == old(socket.tried) + Handed(request, old(|socket.tried|), socket.failing)
              && (link != null ==> link.socket.tried == old(link.socket.tried)))
        && (AllSent(request, old(|socket.tried|), socket.failing) ==>
              var d := Confirm(old(socket.inbox), ROUNDS, old(|socket.tried|) + |request|, socket.failing);
              && v == d.verdict && socket.inbox == d.rest
              && Tally(old(socket.tried) + request, socket.tried, Ack(), d.acks + (if v == NotSent then 1 else 0))
              && (link != null ==> Tally(old(link.socket.tried), link.socket.tried, Press(), d.acks)))
    {
      hide Confirm, Frames, EncodeAll, PublicKeyRequest, Ack, Press, Tally;
      var payload := PublicKeyPayload(path);
      var packets := FrameMessage(Message(MSG_GET_PUBLIC_KEY, payload));
      if AllSent(packets, |socket.tried|, socket.failing) {
        HandedWhenSent(packets, |socket.tried|, socket.failing);
      }
      var ok := socket.SendAll(packets);
      if !ok {
        return NotSent;
      }
      v := RecvWithConfirm(link);
    }
  }

  method Conclude(m: Message) returns (v: Verdict)
    requires |m.payload| < TWO_TO_63
    ensures v == VerdictOf(m)
  {
    if m.msgType == MSG_FAILURE {
      var text := ExtractFailureMessage(m.payload);
      v := if text.Done? then DeviceFailure(text.value) else ScanPanic;
    } else {
      v := Reply(m.payload);
    }
  }

  const XPUB_FIELD: u32 := 2

  /** The xpub string of a PublicKey reply: the text of its first field 2. */
  function XpubIn(data: seq<byte>): Outcome<Option<Text>> {
    StringIn(FindPayload(data, 0, Tag(XPUB_FIELD, 2)))
  }

  method ExtractXpub(data: seq<byte>) returns (r: Outcome<Option<Text>>)
    requires |data| < TWO_TO_63
    ensures r == XpubIn(data)
  {
    r := ExtractStringField(data, XPUB_FIELD);
  }

  function ButtonRequests(payloads: seq<seq<byte>>): (ms: seq<Message>)
    ensures |ms| == |payloads|
    ensures forall i :: 0 <= i < |ms| ==> ms[i] == Message(MSG_BUTTON_REQUEST, payloads[i])
  {
    if payloads == [] then [] else [Message(MSG_BUTTON_REQUEST, payloads[0])] + ButtonRequests(payloads[1..])
  }

  predicate Fits(payload: seq<byte>) {
    |payload| < TWO_TO_32
  }

  /** Against leading ButtonRequests: one ack each, as long as the budget lasts. */
  lemma {:induction false} ConfirmsEach(
      payloads: seq<seq<byte>>, tail: seq<Datagram>, budget: nat, at: nat, failing: set<nat>)
    requires forall p :: p in payloads ==> Fits(p)
    requires forall i :: at <= i < at + budget && i < at + |payloads| ==> i !in failing
    ensures var d := Confirm(FramesOfAll(ButtonRequests(payloads)) + tail, budget, at, failing); var k := |payloads|;
      && (k <= budget ==>
            var e := Confirm(tail, budget - k, at + k, failing); d == e.(acks := e.acks + k))
      && (k >= budget ==>
            d == Dialogue(TooManyButtonRequests, budget, FramesOfAll(ButtonRequests(payloads[budget..])) + tail))
    decreases |payloads|
  {
    hide Frames, Receive, VerdictOf, Ack, Press;
    var stream := FramesOfAll(ButtonRequests(payloads)) + tail;
    if payloads == [] {
      assert stream == tail;
    } else if budget == 0 {
      assert payloads[0..] == payloads;
    } else {
      var later := FramesOfAll(ButtonRequests(payloads[1..])) + tail;
      var m := Message(MSG_BUTTON_REQUEST, payloads[0]);
      assert payloads[0] in payloads;
      assert ButtonRequests(payloads)[1..] == ButtonRequests(payloads[1..]);
      assert stream == Frames(m) + later;
      FrameRoundTrip(m, later, false);
      ConfirmsEach(payloads[1..], tail, budget - 1, at + 1, failing);
      if budget <= |payloads| {
        assert payloads[1..][budget - 1..] == payloads[budget..];
      }
    }
  }

  /**
   * k ButtonRequests and then another message: with k <= 9 the dialogue acknowledges each request
   * once and ends on that message, having consumed exactly its packets; with k >= 10 it gives up
   * after exactly ten acks, having consumed exactly the first ten requests.
   */
  lemma ConfirmDialogue(
      payloads: seq<seq<byte>>, m: Message, rest: seq<Datagram>, at: nat, failing: set<nat>)
    requires m.msgType != MSG_BUTTON_REQUEST && Fits(m.payload)
    requires forall p :: p in payloads ==> Fits(p)
    requires forall i :: at <= i < at + 10 ==> i !in failing
    ensures var d := Confirm(FramesOfAll(ButtonRequests(payloads)) + (Frames(m) + rest), ROUNDS, at, failing);
      && (|payloads| <= 9 ==> d == Dialogue(VerdictOf(m), |payloads|, rest))
      && (|payloads| >= 10 ==>
            d == Dialogue(TooManyButtonRequests, 10,
                          FramesOfAll(ButtonRequests(payloads[10..])) + (Frames(m) + rest)))
  {
    ConfirmsEach(payloads, Frames(m) + rest, ROUNDS, at, failing);
    FrameRoundTrip(m, rest, false);
    hide Frames, Receive, FramesOfAll, ButtonRequests, VerdictOf;
  }

  /**
   * A public-key exchange end to end: the device reassembles the requested fields, and when its
   * answer is any list of fields after at most nine ButtonRequests, the client returns the bytes
   * of that answer, one ack having been sent for each request.
   */
  lemma PublicKeyExchange(
      path: seq<u32>, payloads: seq<seq<byte>>, answer: seq<Field>, rest: seq<Datagram>, at: nat, failing: set<nat>)
    requires Fits(EncodeAll(PublicKeyRequest(path)))
    requires Fits(EncodeAll(answer)) && |payloads| <= 9
    requires forall p :: p in payloads ==> Fits(p)
    requires forall i :: at <= i < at + 10 ==> i !in failing
    ensures var request := Message(MSG_GET_PUBLIC_KEY, EncodeAll(PublicKeyRequest(path)));
      Receive(Frames(request), true) == Got(request, [])
    ensures var reply := Frames(Message(MSG_PUBLIC_KEY, EncodeAll(answer)));
      Confirm(FramesOfAll(ButtonRequests(payloads)) + (reply + rest), ROUNDS, at, failing) ==
        Dialogue(Reply(EncodeAll(answer)), |payloads|, rest)
    ensures AllWellFormed(answer) ==>
      XpubIn(EncodeAll(answer)) ==
        match FirstPayload(answer, 2)
        case Some(b) => Done(if Utf8.Valid(b) then Some(b) else None)
        case None => Done(None)
  {
    if AllWellFormed(answer) {
      ExtractsFirstString(answer, XPUB_FIELD);
    }
    hide Confirm, Frames, Receive, FramesOfAll, ButtonRequests, EncodeAll, PublicKeyRequest;
    var request := Message(MSG_GET_PUBLIC_KEY, EncodeAll(PublicKeyRequest(path)));
    FrameRoundTrip(request, [], true);
    assert Frames(request) + [] == Frames(request);
    ConfirmDialogue(payloads, Message(MSG_PUBLIC_KEY, EncodeAll(answer)), rest, at, failing);
  }

  // ---- What a verdict means ----

  /** Behind at most nine ButtonRequests, another message is returned as a reply exactly when it is no Failure. */
  lemma ReplyIffNoFailure(
      payloads: seq<seq<byte>>, m: Message, rest: seq<Datagram>, at: nat, failing: set<nat>)
    requires m.msgType != 26 && Fits(m.payload) && |payloads| <= 9
    requires forall p :: p in payloads ==> Fits(p)
    requires forall i :: at <= i < at + 10 ==> i !in failing
    ensures var v := Confirm(FramesOfAll(ButtonRequests(payloads)) + (Frames(m) + rest), ROUNDS, at, failing).verdict;
      (v == Reply(m.payload) <==> m.msgType != 3) && (v.Reply? <==> m.msgType != 3)
  {
    hide Confirm, Frames, FramesOfAll, ButtonRequests, MessageIn, FindPayload;
    ConfirmDialogue(payloads, m, rest, at, failing);
  }

  /** The text of a Failure: its first field 2 if that is UTF-8, and which fixed text otherwise. */
  function FailureText(fs: seq<Field>): Text {
    match FirstPayload(fs, 2)
    case Some(b) => if Utf8.Valid(b) then b else Utf8.Ascii("(invalid utf8)")
    case None => Utf8.Ascii("(unknown error)")
  }

  lemma VerdictOfFailure(fs: seq<Field>)
    requires AllWellFormed(fs) && |EncodeAll(fs)| < TWO_TO_63
    ensures VerdictOf(Message(3, EncodeAll(fs))) == DeviceFailure(FailureText(fs))
  {
    FindsFirstPayload(EncodeAll(fs), 0, fs, 2);
    assert EncodeAll(fs)[0..] == EncodeAll(fs);
    assert FAILURE_TAG == Tag(2, 2);
    hide EncodeAll, FindPayload, FirstPayload, Utf8.Valid, Utf8.Ascii;
  }

  /** A Failure of any fields ends the dialogue as a failure with its text. */
  lemma FailureEndsDialogue(
      payloads: seq<seq<byte>>, fs: seq<Field>, rest: seq<Datagram>, at: nat, failing: set<nat>)
    requires AllWellFormed(fs) && Fits(EncodeAll(fs)) && |payloads| <= 9
    requires forall p :: p in payloads ==> Fits(p)
    requires forall i :: at <= i < at + 10 ==> i !in failing
    ensures var failure := Frames(Message(3, EncodeAll(fs)));
      Confirm(FramesOfAll(ButtonRequests(payloads)) + (failure + rest), ROUNDS, at, failing) ==
        Dialogue(DeviceFailure(FailureText(fs)), |payloads|, rest)
  {
    hide Confirm, Frames, FramesOfAll, ButtonRequests, EncodeAll, FailureText, VerdictOf;
    ConfirmDialogue(payloads, Message(3, EncodeAll(fs)), rest, at, failing);
    VerdictOfFailure(fs);
  }

  lemma {:induction false} FramesOfAppended(xs: seq<Message>, ys: seq<Message>)
    ensures FramesOfAll(xs + ys) == FramesOfAll(xs) + FramesOfAll(ys)
  {
    hide Frames;
    if xs == [] {
      assert xs + ys == ys;
    } else {
      assert (xs + ys)[1..] == xs[1..] + ys;
      FramesOfAppended(xs[1..], ys);
    }
  }

  /** An ack that cannot be sent ends the dialogue with the acks before it, and what follows is left. */
  lemma FailedAckEnds(
      payloads: seq<seq<byte>>, i: nat, tail: seq<Datagram>, at: nat, failing: set<nat>)
    requires i < |payloads| && i < 10 && forall p :: p in payloads ==> Fits(p)
    requires at + i in failing && forall j :: at <= j < at + i ==> j !in failing
    ensures Confirm(FramesOfAll(ButtonRequests(payloads)) + tail, ROUNDS, at, failing) ==
            Dialogue(NotSent, i, FramesOfAll(ButtonRequests(payloads[i + 1..])) + tail)
  {
    hide Frames, FramesOfAll, Receive, Confirm, ButtonRequests;
    var m, later := Message(MSG_BUTTON_REQUEST, payloads[i]), FramesOfAll(ButtonRequests(payloads[i + 1..])) + tail;
    RequestsAround(payloads, i, tail);
    ConfirmsEach(payloads[..i], Frames(m) + later, ROUNDS, at, failing);
    assert payloads[i] in payloads;
    UnsentAck(payloads[i], later, ROUNDS - i, at + i, failing);
  }

  lemma RequestsAround(payloads: seq<seq<byte>>, i: nat, tail: seq<Datagram>)
    requires i < |payloads|
    ensures FramesOfAll(ButtonRequests(payloads)) + tail ==
            FramesOfAll(ButtonRequests(payloads[..i]))
            + (Frames(Message(MSG_BUTTON_REQUEST, payloads[i]))
               + (FramesOfAll(ButtonRequests(payloads[i + 1..])) + tail))
  {
    hide Frames, FramesOfAll, ButtonRequests;
    var m, later := Message(MSG_BUTTON_REQUEST, payloads[i]), ButtonRequests(payloads[i + 1..]);
    RequestsSplit(payloads, i);
    FramesOfAppended(ButtonRequests(payloads[..i]), [m] + later);
    FramesOfAppended([m], later);
    FramesOfOne(m);
    Regroup(FramesOfAll(ButtonRequests(payloads[..i])), Frames(m), FramesOfAll(later), tail);
  }

  lemma RequestsSplit(payloads: seq<seq<byte>>, i: nat)
    requires i < |payloads|
    ensures ButtonRequests(payloads) ==
      ButtonRequests(payloads[..i]) + ([Message(MSG_BUTTON_REQUEST, payloads[i])] + ButtonRequests(payloads[i + 1..]))
  {
  }

  lemma Regroup(a: seq<Datagram>, b: seq<Datagram>, c: seq<Datagram>, d: seq<Datagram>)
    ensures a + (b + c) + d == a + (b + (c + d))
  {
  }

  lemma UnsentAck(payload: seq<byte>, later: seq<Datagram>, budget: nat, at: nat, failing: set<nat>)
    requires budget > 0 && at in failing && Fits(payload)
    ensures Confirm(Frames(Message(MSG_BUTTON_REQUEST, payload)) + later, budget, at, failing) ==
            Dialogue(NotSent, 0, later)
  {
    hide Frames, Receive;
    FrameRoundTrip(Message(MSG_BUTTON_REQUEST, payload), later, false);
  }

  lemma FramesOfOne(m: Message)
    ensures FramesOfAll([m]) == Frames(m)
  {
    hide Frames;
    assert [m][1..] == [];
    assert FramesOfAll([m]) == Frames(m) + FramesOfAll([]);
  }

  /** A receive that fails behind at most nine ButtonRequests ends the dialogue with its error. */
  lemma NoAnswerEnds(
      payloads: seq<seq<byte>>, tail: seq<Datagram>, at: nat, failing: set<nat>, e: RecvError, rest: seq<Datagram>)
    requires |payloads| <= 9 && forall p :: p in payloads ==> Fits(p)
    requires forall i :: at <= i < at + |payloads| ==> i !in failing
    requires Receive(tail, false) == Failed(e, rest)
    ensures Confirm(FramesOfAll(ButtonRequests(payloads)) + tail, ROUNDS, at, failing) ==
            Dialogue(NoMessage(e), |payloads|, rest)
  {
    hide Frames, FramesOfAll, Receive, ButtonRequests;
    ConfirmsEach(payloads, tail, ROUNDS, at, failing);
  }

  // ---- What goes over the wire ----

  /** The packets handed to a socket are those up to and including the first whose send fails. */
  lemma {:induction false} HandedUpToFailure(packets: seq<Datagram>, at: nat, failing: set<nat>)
    ensures var h := Handed(packets, at, failing);
      && h <= packets
      && (forall i :: at <= i < at + |h| - 1 ==> i !in failing)
      && (|h| < |packets| ==> |h| > 0 && at + |h| - 1 in failing)
  {
    if packets != [] && at !in failing {
      HandedUpToFailure(packets[1..], at + 1, failing);
    }
  }

  lemma ShortField(num: u32, value: u64)
    requires num < 16 && value < 128
    ensures Encode(VarintField(num, value)) == [8 * num, value]
  {
    assert Tag(num, 0) == 8 * num;
  }

  /** A press is message 100 with field 1 set to 0, 1 or 2; an ack is message 27 without payload. */
  lemma PressesAndAcks()
    ensures Frames(Message(27, [])) == [Ack()]
    ensures Frames(Message(100, [0x08, 0x01])) == [Press()]
    ensures PressMessage(No) == Message(100, [0x08, 0x00])
    ensures PressMessage(Yes) == Message(100, [0x08, 0x01])
    ensures PressMessage(Info) == Message(100, [0x08, 0x02])
  {
    hide Frames, Encode;
    ShortField(1, 0);
    ShortField(1, 1);
    ShortField(1, 2);
  }

  /** The layout request is message 101 with field 3 set to 0, the public key request message 11. */
  lemma Requests(path: seq<u32>)
    ensures Message(MSG_DEBUG_LINK_GET_STATE, Encode(VarintField(3, 0))) == Message(101, [0x18, 0x00])
    ensures Message(MSG_GET_PUBLIC_KEY, EncodeAll(PublicKeyRequest(path))) ==
            Message(11, EncodeAll(PublicKeyRequest(path)))
  {
    hide Encode;
    ShortField(3, 0);
  }

  /** An answer to a layout request that is no message 102 is refused with its type, a failed receive as it failed. */
  lemma LayoutRefused(m: Message, e: RecvError)
    ensures LayoutIn(Ok(m)) == Err(WrongType(m.msgType)) <==> m.msgType != 102
    ensures LayoutIn(Err(e)) == Err(NotReceived(e))
  {
    hide Tokens;
  }

  /** A screen read end to end: the layout is the list of texts the device put under field 13. */
  lemma LayoutExchange(state: seq<Field>, rest: seq<Datagram>)
    requires AllWellFormed(state) && Fits(EncodeAll(state))
    ensures var a := Receive(Frames(Message(MSG_DEBUG_LINK_STATE, EncodeAll(state))) + rest, true);
      && LayoutIn(ResultOf(a)) == Ok(TextPayloads(state, 13))
      && a.rest == rest
  {
    FrameRoundTrip(Message(MSG_DEBUG_LINK_STATE, EncodeAll(state)), rest, true);
    assert EncodeAll(state)[0..] == EncodeAll(state);
    FindsAllTokens(EncodeAll(state), 0, state);
    hide Frames, Receive, EncodeAll, Tokens, TextPayloads;
  }
}
