/**
 * Protobuf fields as the debug-link client writes and scans them
 * (Protocol Buffers Encoding guide, "Message Structure").
 */
module Fields {
  import opened Bytes
  import opened Varint
  import Utf8

  // ---- Messages as lists of fields ----

  datatype Field =
    | VarintField(num: nat, value: u64)
    | Fixed64(num: nat, bits: seq<byte>)
    | LenField(num: nat, payload: seq<byte>)
    | Fixed32(num: nat, bits: seq<byte>)

  predicate WellFormed(f: Field) {
    && 1 <= f.num < 0x2000_0000
    && (f.Fixed64? ==> |f.bits| == 8)
    && (f.Fixed32? ==> |f.bits| == 4)
    && (f.LenField? ==> |f.payload| < TWO_TO_63)
  }

  predicate AllWellFormed(fs: seq<Field>) {
    forall f :: f in fs ==> WellFormed(f)
  }

  function WireType(f: Field): nat {
    match f
    case VarintField(_, _) => 0
    case Fixed64(_, _) => 1
    case LenField(_, _) => 2
    case Fixed32(_, _) => 5
  }

  function Tag(num: nat, wire: nat): nat {
    8 * num + wire
  }

  /** The wire type in a tag. */
  function Wire(tag: nat): nat {
    tag % 8
  }

  function Body(f: Field): seq<byte> {
    match f
    case VarintField(_, v) => Encoding(v)
    case Fixed64(_, bits) => bits
    case LenField(_, payload) => Encoding(|payload|) + payload
    case Fixed32(_, bits) => bits
  }

  function Encode(f: Field): seq<byte> {
    Encoding(Tag(f.num, WireType(f))) + Body(f)
  }

  function EncodeAll(fs: seq<Field>): seq<byte> {
    if fs == [] then [] else Encode(fs[0]) + EncodeAll(fs[1..])
  }

  /** The first length-delimited field with the given number. */
  function FirstPayload(fs: seq<Field>, num: nat): Option<seq<byte>> {
    if fs == [] then None
    else if fs[0].LenField? && fs[0].num == num then Some(fs[0].payload)
    else FirstPayload(fs[1..], num)
  }

  /** The UTF-8 payloads of every length-delimited field with the given number, in order. */
  function TextPayloads(fs: seq<Field>, num: nat): seq<seq<byte>> {
    if fs == [] then []
    else if fs[0].LenField? && fs[0].num == num && Utf8.Valid(fs[0].payload)
      then [fs[0].payload] + TextPayloads(fs[1..], num)
    else TextPayloads(fs[1..], num)
  }

  method EncodeFieldVarint(num: u32, value: u64) returns (out: seq<byte>)
    ensures out == Encode(VarintField(num, value))
  {
    out := EncodeVarint(8 * num);
    var rest := EncodeVarint(value);
    out := out + rest;
  }

  method EncodeFieldString(num: u32, s: seq<byte>) returns (out: seq<byte>)
    requires |s| < TWO_TO_63
    ensures out == Encode(LenField(num, s))
  {
    out := EncodeVarint(8 * num + 2);
    var len := EncodeVarint(|s|);
    out := out + len;
    out := out + s;
    assert out == Encode(LenField(num, s));
  }

  // ---- Scanning ----

  /** A scanner's result; Overflow is an addition to the cursor that does not fit usize. */
  datatype Outcome<+T> = Done(value: T) | Overflow

  datatype Next = At(pos: nat) | Stop | NextOverflow

  /** Where the cursor goes after the body of a field of the given wire type that starts at pos. */
  function Skip(data: seq<byte>, pos: nat, wire: nat): (next: Next)
    requires pos <= |data|
    ensures next.At? ==> next.pos >= pos
  {
    if wire == 0 then At(pos + Decoding(data[pos..]).consumed)
    else if wire == 1 then At(pos + 8)
    else if wire == 2 then
      if pos >= |data| then Stop
      else
        var len := Decoding(data[pos..]);
        if pos + len.consumed + len.value >= TWO_TO_64 then NextOverflow
        else At(pos + len.consumed + len.value)
    else if wire == 5 then At(pos + 4)
    else Stop
  }

  method SkipField(data: seq<byte>, pos: nat, wire: nat) returns (next: Next)
    requires pos <= |data|
    ensures next == Skip(data, pos, wire)
  {
    match wire {
      case 0 =>
        var v := DecodeVarint(data[pos..]);
        next := At(pos + v.consumed);
      case 1 => next := At(pos + 8);
      case 2 =>
        if pos >= |data| {
          next := Stop;
        } else {
          var len := DecodeVarint(data[pos..]);
          next := if pos + len.consumed + len.value >= TWO_TO_64 then NextOverflow
                  else At(pos + len.consumed + len.value);
        }
      case 5 => next := At(pos + 4);
      case _ => next := Stop;
    }
  }

  datatype Scan = Payload(bytes: seq<byte>) | Missing | ScanOverflow

  /**
   * The first complete payload under a length-delimited tag, scanning from pos. A matching
   * field whose declared end lies past the data is not returned: the scan goes on behind its
   * length, as if another length followed.
   */
  function FindPayload(data: seq<byte>, pos: nat, tag: nat): Scan
    decreases |data| - pos
  {
    if pos >= |data| then Missing
    else
      var t := Decoding(data[pos..]);
      var p := pos + t.consumed;
      if t.value == tag && Wire(t.value) == 2 && p < |data| then
        var len := Decoding(data[p..]);
        var q := p + len.consumed;
        if q + len.value >= TWO_TO_64 then ScanOverflow
        else if q + len.value <= |data| then Payload(data[q..q + len.value])
        else FindAfter(data, pos, Skip(data, q, 2), tag)
      else FindAfter(data, pos, Skip(data, p, Wire(t.value)), tag)
  }

  function FindAfter(data: seq<byte>, pos: nat, next: Next, tag: nat): Scan
    requires pos < |data| && (next.At? ==> pos < next.pos)
    decreases |data| - pos, 0
  {
    match next
    case At(p) => FindPayload(data, p, tag)
    case Stop => Missing
    case NextOverflow => ScanOverflow
  }

  type Text = seq<byte>

  function StringIn(scan: Scan): Outcome<Option<Text>> {
    match scan
    case Payload(b) => Done(if Utf8.Valid(b) then Some(b) else None)
    case Missing => Done(None)
    case ScanOverflow => Overflow
  }

  method ExtractStringField(data: seq<byte>, num: u32) returns (r: Outcome<Option<Text>>)
    requires |data| < TWO_TO_63
    ensures r == StringIn(FindPayload(data, 0, Tag(num, 2)))
  {
    var target := 8 * num + 2;
    var pos := 0;
    hide Decoding, Skip, Utf8.Valid;
    while pos < |data|
      invariant FindPayload(data, pos, target) == FindPayload(data, 0, target)
      decreases |data| - pos
    {
      ghost var start := pos;
      var tag := DecodeVarint(data[pos..]);
      pos := pos + tag.consumed;
      var wire := Wire(tag.value);
      if tag.value == target && wire == 2 && pos < |data| {
        var len := DecodeVarint(data[pos..]);
        pos := pos + len.consumed;
        if pos + len.value >= TWO_TO_64 {
          return Overflow;
        }
        var end := pos + len.value;
        if end <= |data| {
          return Done(if Utf8.Valid(data[pos..end]) then Some(data[pos..end]) else None);
        }
      }
      var next := SkipField(data, pos, wire);
      assert FindPayload(data, start, target) == FindAfter(data, start, next, target);
      match next {
        case At(p) => pos := p;
        case Stop => return Done(None);
        case NextOverflow => return Overflow;
      }
    }
    return Done(None);
  }

  function InvalidUtf8(): Text {
    Utf8.Ascii("(invalid utf8)")
  }

  function UnknownError(): Text {
    Utf8.Ascii("(unknown error)")
  }

  function MessageIn(scan: Scan): Outcome<Text> {
    match scan
    case Payload(b) => Done(if Utf8.Valid(b) then b else InvalidUtf8())
    case Missing => Done(UnknownError())
    case ScanOverflow => Overflow
  }

  /** The tag of field 2 with wire type 2. */
  const FAILURE_TAG: u64 := 0x12

  method ExtractFailureMessage(data: seq<byte>) returns (r: Outcome<Text>)
    requires |data| < TWO_TO_63
    ensures r == MessageIn(FindPayload(data, 0, FAILURE_TAG))
  {
    var target := FAILURE_TAG;
    var pos := 0;
    hide Decoding, Skip, Utf8.Valid, InvalidUtf8, UnknownError;
    while pos < |data|
      invariant FindPayload(data, pos, target) == FindPayload(data, 0, target)
      decreases |data| - pos
    {
      ghost var start := pos;
      var tag := DecodeVarint(data[pos..]);
      pos := pos + tag.consumed;
      var wire := Wire(tag.value);
      if tag.value == target && wire == 2 && pos < |data| {
        var len := DecodeVarint(data[pos..]);
        pos := pos + len.consumed;
        if pos + len.value >= TWO_TO_64 {
          return Overflow;
        }
        var end := pos + len.value;
        if end <= |data| {
          return Done(if Utf8.Valid(data[pos..end]) then data[pos..end] else InvalidUtf8());
        }
      }
      var next := SkipField(data, pos, wire);
      assert FindPayload(data, start, target) == FindAfter(data, start, next, target);
      match next {
        case At(p) => pos := p;
        case Stop => return Done(UnknownError());
        case NextOverflow => return Overflow;
      }
    }
    return Done(UnknownError());
  }

  const TOKENS_TAG: u64 := 0x6A

  /** The UTF-8 payloads under the tokens tag, scanning from pos. */
  function Tokens(data: seq<byte>, pos: nat): Outcome<seq<Text>>
    decreases |data| - pos
  {
    if pos >= |data| then Done([])
    else
      var t := Decoding(data[pos..]);
      var p := pos + t.consumed;
      if t.value == TOKENS_TAG then
        if p >= |data| then Done([])
        else
          var len := Decoding(data[p..]);
          var q := p + len.consumed;
          if q + len.value >= TWO_TO_64 then Overflow
          else if q + len.value > |data| then Done([])
          else Prepend(data[q..q + len.value], Tokens(data, q + len.value))
      else
        match Skip(data, p, Wire(t.value))
        case At(next) => Tokens(data, next)
        case Stop => Done([])
        case NextOverflow => Overflow
  }

  function Prepend(token: Text, rest: Outcome<seq<Text>>): Outcome<seq<Text>> {
    if rest.Overflow? || !Utf8.Valid(token) then rest else Done([token] + rest.value)
  }

  function PrependAll(tokens: seq<Text>, rest: Outcome<seq<Text>>): Outcome<seq<Text>> {
    if rest.Overflow? then Overflow else Done(tokens + rest.value)
  }

  lemma PrependAllFacts(tokens: seq<Text>, token: Text, rest: Outcome<seq<Text>>)
    ensures PrependAll([], rest) == rest
    ensures PrependAll(tokens, Done([])) == Done(tokens)
    ensures PrependAll(tokens, Prepend(token, rest)) ==
            PrependAll(if Utf8.Valid(token) then tokens + [token] else tokens, rest)
  {
    assert tokens + [] == tokens;
    if rest.Done? {
      assert [] + rest.value == rest.value;
      assert tokens + ([token] + rest.value) == tokens + [token] + rest.value;
    }
  }

  lemma PrependFirst(token: Text, tokens: seq<Text>, rest: Outcome<seq<Text>>)
    ensures Prepend(token, PrependAll(tokens, rest)) ==
            PrependAll(if Utf8.Valid(token) then [token] + tokens else tokens, rest)
  {
    if rest.Done? {
      assert [token] + (tokens + rest.value) == [token] + tokens + rest.value;
    }
  }

  lemma OverflowStays(tokens: seq<Text>)
    ensures PrependAll(tokens, Overflow) == Overflow
  {
  }

  method ParseTokensField(data: seq<byte>) returns (r: Outcome<seq<Text>>)
    requires |data| < TWO_TO_63
    ensures r == Tokens(data, 0)
  {
    var tokens: seq<Text> := [];
    var pos := 0;
    hide Decoding, Skip, Utf8.Valid, PrependAll, Prepend;
    PrependAllFacts([], [], Tokens(data, 0));
    while pos < |data|
      invariant PrependAll(tokens, Tokens(data, pos)) == Tokens(data, 0)
      decreases |data| - pos
    {
      PrependAllFacts(tokens, [], Done([]));
      OverflowStays(tokens);
      var tag := DecodeVarint(data[pos..]);
      pos := pos + tag.consumed;
      var wire := Wire(tag.value);
      if tag.value == TOKENS_TAG {
        if pos >= |data| {
          break;
        }
        var len := DecodeVarint(data[pos..]);
        pos := pos + len.consumed;
        if pos + len.value >= TWO_TO_64 {
          return Overflow;
        }
        var end := pos + len.value;
        if end > |data| {
          break;
        }
        PrependAllFacts(tokens, data[pos..end], Tokens(data, end));
        if Utf8.Valid(data[pos..end]) {
          tokens := tokens + [data[pos..end]];
        }
        pos := end;
      } else {
        var next := SkipField(data, pos, wire);
        match next {
          case At(p) => pos := p;
          case Stop => break;
          case NextOverflow => return Overflow;
        }
      }
    }
    PrependAllFacts(tokens, [], Done([]));
    return Done(tokens);
  }

  // ---- Main results: the scanners against the list of fields ----

  /** Reading an encoded field's tag leaves the cursor at the start of its body. */
  lemma ReadTag(data: seq<byte>, pos: nat, f: Field, rest: seq<byte>)
    requires pos <= |data| && data[pos..] == Encode(f) + rest
    requires WellFormed(f)
    ensures var t := Decoding(data[pos..]); var p := pos + t.consumed; var end := pos + |Encode(f)|;
      && t.value == Tag(f.num, WireType(f))
      && p + |Body(f)| == end <= |data|
      && data[p..] == Body(f) + rest && data[end..] == rest
  {
    var tag := Encoding(Tag(f.num, WireType(f)));
    hide Decoding, Encoding, Body;
    assert Encode(f) + rest == tag + (Body(f) + rest);
    RoundTrip(Tag(f.num, WireType(f)), Body(f) + rest);
    assert data[pos + |tag|..] == data[pos..][|tag|..];
    assert data[pos + |Encode(f)|..] == data[pos..][|Encode(f)|..];
  }

  /** Reading the body of an encoded payload. */
  lemma ReadPayload(data: seq<byte>, p: nat, payload: seq<byte>, rest: seq<byte>)
    requires |data| < TWO_TO_63 && p <= |data| && data[p..] == Encoding(|payload|) + payload + rest
    ensures var len := Decoding(data[p..]); var q := p + len.consumed;
      && p < |data| && len.value == |payload|
      && q + |payload| == p + |Encoding(|payload|) + payload| <= |data|
      && data[q..q + |payload|] == payload
  {
    hide Decoding, Encoding;
    var e := Encoding(|payload|);
    assert e + payload + rest == e + (payload + rest);
    RoundTrip(|payload|, payload + rest);
    var q := p + |e|;
    assert data[q..q + |payload|] == data[p..][|e|..|e| + |payload|];
  }

  /** Skipping an encoded field's body. */
  lemma SkipBody(data: seq<byte>, p: nat, f: Field, rest: seq<byte>)
    requires |data| < TWO_TO_63 && p <= |data| && data[p..] == Body(f) + rest
    requires WellFormed(f)
    ensures Skip(data, p, WireType(f)) == At(p + |Body(f)|)
  {
    hide Decoding, Encoding;
    match f
    case VarintField(_, v) => RoundTrip(v, rest);
    case LenField(_, payload) => ReadPayload(data, p, payload, rest);
    case Fixed64(_, _) =>
    case Fixed32(_, _) =>
  }

  /** Reading one encoded field: its tag, then the whole of its body. */
  lemma ReadField(data: seq<byte>, pos: nat, f: Field, rest: seq<byte>)
    requires |data| < TWO_TO_63 && pos <= |data| && data[pos..] == Encode(f) + rest
    requires WellFormed(f)
    ensures var t := Decoding(data[pos..]); var p := pos + t.consumed; var end := pos + |Encode(f)|;
      && t.value == Tag(f.num, WireType(f)) && end <= |data| && data[end..] == rest
      && Skip(data, p, WireType(f)) == At(end)
  {
    ReadTag(data, pos, f, rest);
    var p := pos + Decoding(data[pos..]).consumed;
    hide Decoding, Encoding, Skip, Encode, Tag, WireType;
    SkipBody(data, p, f, rest);
  }

  /** Reading one encoded payload field: its tag, its length, and the payload as a slice. */
  lemma ReadLenField(data: seq<byte>, pos: nat, f: Field, rest: seq<byte>)
    requires |data| < TWO_TO_63 && pos <= |data| && data[pos..] == Encode(f) + rest
    requires WellFormed(f) && f.LenField?
    ensures var p := pos + Decoding(data[pos..]).consumed;
      && p < |data| && Decoding(data[p..]).value == |f.payload|
      && p + Decoding(data[p..]).consumed + |f.payload| == pos + |Encode(f)| <= |data|
      && data[p + Decoding(data[p..]).consumed..pos + |Encode(f)|] == f.payload
  {
    hide Decoding, Encoding, Encode, Tag, WireType;
    ReadTag(data, pos, f, rest);
    var p := pos + Decoding(data[pos..]).consumed;
    ReadPayload(data, p, f.payload, rest);
  }

  /** A scan that starts at encoded fields finds the first payload asked for, or goes on behind them. */
  lemma {:induction false} FindPassesFields(data: seq<byte>, pos: nat, fs: seq<Field>, rest: seq<byte>, num: u32)
    requires |data| < TWO_TO_63 && pos <= |data| && data[pos..] == EncodeAll(fs) + rest
    requires AllWellFormed(fs)
    ensures FindPayload(data, pos, Tag(num, 2)) ==
            match FirstPayload(fs, num)
            case Some(b) => Payload(b)
            case None => FindPayload(data, pos + |EncodeAll(fs)|, Tag(num, 2))
    decreases |fs|
  {
    hide Decoding, Skip, Encode;
    if fs != [] {
      var f, later := fs[0], EncodeAll(fs[1..]) + rest;
      assert data[pos..] == Encode(f) + later;
      ReadField(data, pos, f, later);
      if f.LenField? {
        ReadLenField(data, pos, f, later);
      }
      TagsDiffer(f.num, WireType(f), num);
      if !(f.LenField? && f.num == num) {
        assert FindPayload(data, pos, Tag(num, 2)) == FindPayload(data, pos + |Encode(f)|, Tag(num, 2));
        FindPassesFields(data, pos + |Encode(f)|, fs[1..], rest, num);
      }
    }
  }

  /** On the encoding of any list of fields, the scan finds the first payload with the number asked for. */
  lemma FindsFirstPayload(data: seq<byte>, pos: nat, fs: seq<Field>, num: u32)
    requires |data| < TWO_TO_63 && pos <= |data| && data[pos..] == EncodeAll(fs)
    requires AllWellFormed(fs)
    ensures FindPayload(data, pos, Tag(num, 2)) ==
            match FirstPayload(fs, num) case Some(b) => Payload(b) case None => Missing
  {
    hide EncodeAll;
    assert EncodeAll(fs) + [] == EncodeAll(fs);
    FindPassesFields(data, pos, fs, [], num);
    assert pos + |EncodeAll(fs)| == |data|;
  }

  /** What a string extraction returns: the first payload with the number, if there is one and it is UTF-8. */
  lemma ExtractsFirstString(fs: seq<Field>, num: u32)
    requires AllWellFormed(fs) && |EncodeAll(fs)| < TWO_TO_63
    ensures StringIn(FindPayload(EncodeAll(fs), 0, Tag(num, 2))) ==
            match FirstPayload(fs, num)
            case Some(b) => Done(if Utf8.Valid(b) then Some(b) else None)
            case None => Done(None)
  {
    assert EncodeAll(fs)[0..] == EncodeAll(fs);
    FindsFirstPayload(EncodeAll(fs), 0, fs, num);
    hide FindPayload, EncodeAll, Utf8.Valid;
  }

  lemma TagsDiffer(a: nat, wire: nat, b: nat)
    requires wire < 8
    ensures Wire(Tag(a, wire)) == wire
    ensures Tag(a, wire) == Tag(b, 2) <==> a == b && wire == 2
  {
  }

  /** A token scan that starts at encoded fields collects their texts and goes on behind them. */
  lemma {:induction false} TokensPassFields(data: seq<byte>, pos: nat, fs: seq<Field>, rest: seq<byte>)
    requires |data| < TWO_TO_63 && pos <= |data| && data[pos..] == EncodeAll(fs) + rest
    requires AllWellFormed(fs)
    ensures Tokens(data, pos) == PrependAll(TextPayloads(fs, 13), Tokens(data, pos + |EncodeAll(fs)|))
    decreases |fs|
  {
    hide Decoding, Skip, Encode, Utf8.Valid, Prepend, PrependAll;
    PrependAllFacts([], [], Tokens(data, pos));
    if fs != [] {
      var f, later := fs[0], EncodeAll(fs[1..]) + rest;
      assert data[pos..] == Encode(f) + later;
      ReadField(data, pos, f, later);
      if f.LenField? {
        ReadLenField(data, pos, f, later);
      }
      TagsDiffer(f.num, WireType(f), 13);
      var next := pos + |Encode(f)|;
      TokensPassFields(data, next, fs[1..], rest);
      if f.LenField? && f.num == 13 {
        assert Tokens(data, pos) == Prepend(f.payload, Tokens(data, next));
        PrependFirst(f.payload, TextPayloads(fs[1..], 13), Tokens(data, pos + |EncodeAll(fs)|));
      } else {
        assert Tokens(data, pos) == Tokens(data, next);
      }
    }
  }

  /** On the encoding of any list of fields, the tokens are all valid field-13 texts, in order. */
  lemma FindsAllTokens(data: seq<byte>, pos: nat, fs: seq<Field>)
    requires |data| < TWO_TO_63 && pos <= |data| && data[pos..] == EncodeAll(fs)
    requires AllWellFormed(fs)
    ensures Tokens(data, pos) == Done(TextPayloads(fs, 13))
  {
    hide EncodeAll, TextPayloads, PrependAll, Decoding, Skip;
    assert EncodeAll(fs) + [] == EncodeAll(fs);
    TokensPassFields(data, pos, fs, []);
    PrependAllFacts(TextPayloads(fs, 13), [], Done([]));
    assert pos + |EncodeAll(fs)| == |data|;
  }

  /** A Failure's text is the string in its field 2, or one of the two fixed texts. */
  lemma FailureMessageAgrees(data: seq<byte>)
    ensures var s := StringIn(FindPayload(data, 0, Tag(2, 2))); var m := MessageIn(FindPayload(data, 0, FAILURE_TAG));
      match s
      case Done(Some(text)) => m == Done(text)
      case Done(None) => m == Done(InvalidUtf8()) || m == Done(UnknownError())
      case Overflow => m == Overflow
  {
    hide FindPayload, Utf8.Valid, InvalidUtf8, UnknownError;
    assert FAILURE_TAG == Tag(2, 2);
  }

  // ---- The requests the wire client builds ----

  function PathFields(path: seq<u32>): (fs: seq<Field>)
    ensures AllWellFormed(fs) && forall f :: f in fs ==> f.VarintField?
  {
    if path == [] then [] else [VarintField(1, path[0])] + PathFields(path[1..])
  }

  function Bitcoin(): (t: Text)
    ensures Utf8.Valid(t) && |t| == 7
  {
    var t := Utf8.Ascii("Bitcoin");
    Utf8.AsciiIsValid(t);
    t
  }

  function PublicKeyRequest(path: seq<u32>): (fs: seq<Field>)
    ensures AllWellFormed(fs)
  {
    PathFields(path) + [LenField(4, Bitcoin())]
  }

  lemma {:induction false} EncodeAllAppend(fs: seq<Field>, gs: seq<Field>)
    ensures EncodeAll(fs + gs) == EncodeAll(fs) + EncodeAll(gs)
  {
    if fs == [] {
      assert fs + gs == gs;
    } else {
      assert (fs + gs)[1..] == fs[1..] + gs;
      EncodeAllAppend(fs[1..], gs);
    }
  }

  lemma {:induction false} PathFieldsAppend(path: seq<u32>, c: u32)
    ensures PathFields(path + [c]) == PathFields(path) + [VarintField(1, c)]
  {
    if path == [] {
    } else {
      assert (path + [c])[1..] == path[1..] + [c];
      PathFieldsAppend(path[1..], c);
    }
  }

  lemma EncodeAllLast(fs: seq<Field>, f: Field)
    ensures EncodeAll(fs + [f]) == EncodeAll(fs) + Encode(f)
  {
    hide Encode;
    EncodeAllAppend(fs, [f]);
    assert EncodeAll([f]) == Encode(f);
  }

  method PublicKeyPayload(path: seq<u32>) returns (payload: seq<byte>)
    ensures payload == EncodeAll(PublicKeyRequest(path))
  {
    payload := [];
    assert EncodeAll(PathFields([])) == [];
    assert path[..0] == [];
    hide Encode, EncodeAll, Bitcoin, PathFields;
    for i := 0 to |path|
      invariant payload == EncodeAll(PathFields(path[..i]))
    {
      var field := EncodeFieldVarint(1, path[i]);
      assert path[..i + 1] == path[..i] + [path[i]];
      PathFieldsAppend(path[..i], path[i]);
      EncodeAllLast(PathFields(path[..i]), VarintField(1, path[i]));
      payload := payload + field;
    }
    assert path[..|path|] == path;
    var coin := EncodeFieldString(4, Bitcoin());
    EncodeAllLast(PathFields(path), LenField(4, Bitcoin()));
    payload := payload + coin;
  }

  /** The request is the path, one field 1 a component and in order, and then the seven bytes of "Bitcoin". */
  lemma {:induction false} PublicKeyRequestFields(path: seq<u32>)
    ensures var fs := PublicKeyRequest(path);
      && |fs| == |path| + 1
      && (forall i :: 0 <= i < |path| ==> fs[i] == VarintField(1, path[i]))
      && fs[|path|] == LenField(4, [0x42, 0x69, 0x74, 0x63, 0x6F, 0x69, 0x6E])
  {
    hide Utf8.Valid;
    BitcoinBytes();
    if path != [] {
      PublicKeyRequestFields(path[1..]);
      assert PublicKeyRequest(path) == [VarintField(1, path[0])] + PublicKeyRequest(path[1..]);
    }
  }

  lemma BitcoinBytes()
    ensures Bitcoin() == [0x42, 0x69, 0x74, 0x63, 0x6F, 0x69, 0x6E]
  {
  }

  /** Whatever the path, field 4 of the request reads back as "Bitcoin". */
  lemma PublicKeyCoin(path: seq<u32>)
    requires |EncodeAll(PublicKeyRequest(path))| < TWO_TO_63
    ensures StringIn(FindPayload(EncodeAll(PublicKeyRequest(path)), 0, Tag(4, 2))) == Done(Some(Bitcoin()))
  {
    hide Bitcoin, PathFields, FindPayload, EncodeAll, Encode, StringIn, Tag, Utf8.Valid;
    LastPayloadIsRead(PathFields(path), LenField(4, Bitcoin()));
  }

  lemma LastPayloadIsRead(fs: seq<Field>, f: Field)
    requires AllWellFormed(fs + [f]) && f.LenField? && Utf8.Valid(f.payload)
    requires forall g :: g in fs ==> g.VarintField?
    requires |EncodeAll(fs + [f])| < TWO_TO_63
    ensures StringIn(FindPayload(EncodeAll(fs + [f]), 0, Tag(f.num, 2))) == Done(Some(f.payload))
  {
    NoPayloadBefore(fs, f);
    assert WellFormed((fs + [f])[|fs|]);
    hide FindPayload, FirstPayload, EncodeAll, Utf8.Valid;
    ExtractsFirstString(fs + [f], f.num);
  }

  lemma {:induction false} NoPayloadBefore(fs: seq<Field>, f: Field)
    requires f.LenField? && forall g :: g in fs ==> g.VarintField?
    ensures FirstPayload(fs + [f], f.num) == Some(f.payload)
  {
    if fs == [] {
      assert fs + [f] == [f];
    } else {
      assert fs[0] in fs;
      assert (fs + [f])[1..] == fs[1..] + [f];
      NoPayloadBefore(fs[1..], f);
    }
  }

  function LoadDeviceRequest(mnemonic: Text, name: Text): seq<Field> {
    [LenField(1, mnemonic)] + (if name == [] then [] else [LenField(6, name)])
  }

  method LoadDevicePayload(mnemonic: Text, name: Text) returns (payload: seq<byte>)
    requires |mnemonic| < TWO_TO_63 && |name| < TWO_TO_63
    ensures payload == EncodeAll(LoadDeviceRequest(mnemonic, name))
  {
    payload := EncodeFieldString(1, mnemonic);
    assert EncodeAll([LenField(1, mnemonic)]) == Encode(LenField(1, mnemonic));
    hide Encode, EncodeAll;
    if name != [] {
      var field := EncodeFieldString(6, name);
      EncodeAllLast([LenField(1, mnemonic)], LenField(6, name));
      payload := payload + field;
    }
  }

  /** The mnemonic is read back from field 1, the label from field 6 exactly when it is not empty. */
  lemma LoadDeviceFields(mnemonic: Text, name: Text)
    requires Utf8.Valid(mnemonic) && Utf8.Valid(name)
    requires |EncodeAll(LoadDeviceRequest(mnemonic, name))| < TWO_TO_63
    ensures var data := EncodeAll(LoadDeviceRequest(mnemonic, name));
      && StringIn(FindPayload(data, 0, Tag(1, 2))) == Done(Some(mnemonic))
      && StringIn(FindPayload(data, 0, Tag(6, 2))) == Done(if name == [] then None else Some(name))
  {
    var fs := LoadDeviceRequest(mnemonic, name);
    LoadDeviceSizes(mnemonic, name);
    LoadDevicePayloads(mnemonic, name);
    hide FindPayload, FirstPayload, EncodeAll, Encode, LoadDeviceRequest, StringIn, Tag;
    ExtractsFirstString(fs, 1);
    ExtractsFirstString(fs, 6);
  }

  lemma LoadDevicePayloads(mnemonic: Text, name: Text)
    ensures FirstPayload(LoadDeviceRequest(mnemonic, name), 1) == Some(mnemonic)
    ensures FirstPayload(LoadDeviceRequest(mnemonic, name), 6) == if name == [] then None else Some(name)
  {
    var fs := LoadDeviceRequest(mnemonic, name);
    assert fs[1..] == if name == [] then [] else [LenField(6, name)];
    assert fs[1..] != [] ==> fs[1..][1..] == [];
  }

  lemma LoadDeviceSizes(mnemonic: Text, name: Text)
    requires |EncodeAll(LoadDeviceRequest(mnemonic, name))| < TWO_TO_63
    ensures AllWellFormed(LoadDeviceRequest(mnemonic, name))
  {
    var fs := LoadDeviceRequest(mnemonic, name);
    assert |EncodeAll(fs)| >= |mnemonic|;
    if name != [] {
      assert fs[1] == LenField(6, name) && fs[1..] == [fs[1]];
      assert |EncodeAll(fs[1..])| >= |name|;
    }
  }
}
