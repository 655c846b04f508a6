/** When a length takes a field scanner's cursor past usize, and what a build without overflow checks does then. */
module Cursors {
  import opened Bytes
  import opened Varint
  import opened Fields
  import Utf8

  // ---- Every input ----

  /**
   * The ends, cursor plus length, that a payload scan asks for one after the other, on a cursor that
   * has no bound.
   */
  function Ends(data: seq<byte>, pos: nat, tag: nat): seq<nat>
    decreases |data| - pos
  {
    if pos >= |data| then []
    else
      var t := Decoding(data[pos..]);
      var p := pos + t.consumed;
      if t.value == tag && Wire(t.value) == 2 && p < |data| then
        var q := p + Decoding(data[p..]).consumed;
        var end := q + Decoding(data[p..]).value;
        [end] + (if end <= |data| then [] else EndsBehind(data, pos, q, 2, tag))
      else EndsBehind(data, pos, p, Wire(t.value), tag)
  }

  /** The ends asked for from the body, at pos, of the field that starts at start. */
  function EndsBehind(data: seq<byte>, start: nat, pos: nat, wire: nat, tag: nat): seq<nat>
    requires start < pos <= |data|
    decreases |data| - start, 0
  {
    if wire == 0 then Ends(data, pos + Decoding(data[pos..]).consumed, tag)
    else if wire == 1 then Ends(data, pos + 8, tag)
    else if wire == 5 then Ends(data, pos + 4, tag)
    else if wire == 2 && pos < |data| then
      var end := pos + Decoding(data[pos..]).consumed + Decoding(data[pos..]).value;
      [end] + Ends(data, end, tag)
    else []
  }

  /** The ends a token scan asks for. */
  function TokenEnds(data: seq<byte>, pos: nat): seq<nat>
    decreases |data| - pos
  {
    if pos >= |data| then []
    else
      var t := Decoding(data[pos..]);
      var p := pos + t.consumed;
      var wire := if t.value == TOKENS_TAG then 2 else Wire(t.value);
      if wire == 0 then TokenEnds(data, p + Decoding(data[p..]).consumed)
      else if wire == 1 then TokenEnds(data, p + 8)
      else if wire == 5 then TokenEnds(data, p + 4)
      else if wire == 2 && p < |data| then
        var end := p + Decoding(data[p..]).consumed + Decoding(data[p..]).value;
        [end] + TokenEnds(data, end)
      else []
  }

  predicate Within64(ends: seq<nat>) {
    forall i :: 0 <= i < |ends| ==> ends[i] < TWO_TO_64
  }

  lemma Within64First(end: nat, ends: seq<nat>)
    ensures Within64([end] + ends) <==> end < TWO_TO_64 && Within64(ends)
    ensures Within64([])
  {
    assert ([end] + ends)[0] == end;
    assert forall i :: 0 <= i < |ends| ==> ([end] + ends)[i + 1] == ends[i];
  }

  /** On every input a payload scan overflows exactly when one of the ends it asks for does not fit usize. */
  lemma {:induction false} FindOverflowsIff(data: seq<byte>, pos: nat, tag: nat)
    requires |data| < TWO_TO_63
    ensures FindPayload(data, pos, tag) == ScanOverflow <==> !Within64(Ends(data, pos, tag))
    decreases |data| - pos
  {
    hide Decoding, Skip, Within64, EndsBehind, FindAfter;
    Within64First(0, []);
    if pos < |data| {
      var t := Decoding(data[pos..]);
      var p := pos + t.consumed;
      if t.value == tag && Wire(t.value) == 2 && p < |data| {
        var q := p + Decoding(data[p..]).consumed;
        var end := q + Decoding(data[p..]).value;
        FindBehindOverflowsIff(data, pos, q, 2, tag);
        Within64First(end, []);
        Within64First(end, EndsBehind(data, pos, q, 2, tag));
      } else {
        FindBehindOverflowsIff(data, pos, p, Wire(t.value), tag);
      }
    }
  }

  lemma {:induction false} FindBehindOverflowsIff(data: seq<byte>, start: nat, pos: nat, wire: nat, tag: nat)
    requires |data| < TWO_TO_63 && start < pos <= |data|
    ensures FindAfter(data, start, Skip(data, pos, wire), tag) == ScanOverflow <==>
            !Within64(EndsBehind(data, start, pos, wire, tag))
    decreases |data| - start, 0
  {
    hide Decoding, Within64, Ends, FindPayload;
    Within64First(0, []);
    var d := Decoding(data[pos..]);
    if wire == 0 {
      FindOverflowsIff(data, pos + d.consumed, tag);
    } else if wire == 1 {
      FindOverflowsIff(data, pos + 8, tag);
    } else if wire == 5 {
      FindOverflowsIff(data, pos + 4, tag);
    } else if wire == 2 && pos < |data| {
      var end := pos + d.consumed + d.value;
      Within64First(end, Ends(data, end, tag));
      FindOverflowsIff(data, end, tag);
    }
  }

  /** On every input a token scan overflows exactly when one of the ends it asks for does not fit usize. */
  lemma {:induction false} TokensOverflowIff(data: seq<byte>, pos: nat)
    requires |data| < TWO_TO_63
    ensures Tokens(data, pos) == Overflow <==> !Within64(TokenEnds(data, pos))
    decreases |data| - pos
  {
    hide Decoding, Within64, Utf8.Valid;
    Within64First(0, []);
    if pos < |data| {
      var t := Decoding(data[pos..]);
      var p := pos + t.consumed;
      var d := Decoding(data[p..]);
      var wire := if t.value == TOKENS_TAG then 2 else Wire(t.value);
      if wire == 0 {
        TokensOverflowIff(data, p + d.consumed);
      } else if wire == 1 {
        TokensOverflowIff(data, p + 8);
      } else if wire == 5 {
        TokensOverflowIff(data, p + 4);
      } else if wire == 2 && p < |data| {
        var end := p + d.consumed + d.value;
        Within64First(end, TokenEnds(data, end));
        TokensOverflowIff(data, end);
      }
    }
  }

  // ---- A length behind well-formed fields ----

  /** Encoded fields, then the tag and the length of one more, then whatever there is. */
  function WithLength(fs: seq<Field>, n: u32, len: u64, tail: seq<byte>): seq<byte> {
    EncodeAll(fs) + (Encoding(Tag(n, 2)) + (Encoding(len) + tail))
  }

  /** Where the cursor stands behind the length. */
  function BehindLength(fs: seq<Field>, n: u32, len: u64): nat {
    |EncodeAll(fs)| + |Encoding(Tag(n, 2))| + |Encoding(len)|
  }

  lemma ReadLength(fs: seq<Field>, n: u32, len: u64, tail: seq<byte>)
    ensures var data, pos, q := WithLength(fs, n, len, tail), |EncodeAll(fs)|, BehindLength(fs, n, len);
      var p := pos + |Encoding(Tag(n, 2))|;
      && |data| == q + |tail| && pos < p < q && data[q..] == tail
      && Decoding(data[pos..]) == Decoded(Tag(n, 2), p - pos)
      && Decoding(data[p..]) == Decoded(len, q - p)
  {
    hide Decoding, Encoding, EncodeAll, Tag;
    var data, pos, q := WithLength(fs, n, len, tail), |EncodeAll(fs)|, BehindLength(fs, n, len);
    var p := pos + |Encoding(Tag(n, 2))|;
    assert data[pos..] == Encoding(Tag(n, 2)) + (Encoding(len) + tail);
    assert data[p..] == Encoding(len) + tail;
    assert data[q..] == tail;
    TagFits(n);
    RoundTrip(Tag(n, 2), Encoding(len) + tail);
    RoundTrip(len, tail);
  }

  lemma TagFits(n: u32)
    ensures Tag(n, 2) < TWO_TO_64
  {
  }

  /** What a payload scan does when it comes to such a length, having found nothing before it. */
  lemma FindAtLength(fs: seq<Field>, n: u32, len: u64, tail: seq<byte>, num: u32)
    requires AllWellFormed(fs) && FirstPayload(fs, num) == None
    requires |WithLength(fs, n, len, tail)| < TWO_TO_63
    ensures var data, tag, q := WithLength(fs, n, len, tail), Tag(num, 2), BehindLength(fs, n, len);
      FindPayload(data, 0, tag) ==
        if q + len >= TWO_TO_64 then ScanOverflow
        else if n != num then FindPayload(data, q + len, tag)
        else if len <= |tail| then Payload(tail[..len])
        else FindAfter(data, |EncodeAll(fs)|, Skip(data, q, 2), tag)
  {
    hide Decoding, Encoding, EncodeAll, Skip, FirstPayload, FindAfter;
    var data, tag, q := WithLength(fs, n, len, tail), Tag(num, 2), BehindLength(fs, n, len);
    var pos := |EncodeAll(fs)|;
    assert data[0..] == data;
    FindPassesFields(data, 0, fs, Encoding(Tag(n, 2)) + (Encoding(len) + tail), num);
    ReadLength(fs, n, len, tail);
    TagsDiffer(n, 2, num);
    if n == num {
      assert len <= |tail| ==> data[q..q + len] == data[q..][..len];
    } else {
      SkipLength(data, pos + |Encoding(Tag(n, 2))|, tag, pos);
    }
  }

  lemma SkipLength(data: seq<byte>, p: nat, tag: nat, start: nat)
    requires start < p < |data| < TWO_TO_63
    ensures var d := Decoding(data[p..]);
      FindAfter(data, start, Skip(data, p, 2), tag) ==
        if p + d.consumed + d.value >= TWO_TO_64 then ScanOverflow
        else FindPayload(data, p + d.consumed + d.value, tag)
  {
    hide Decoding, FindPayload;
  }

  /**
   * A length that runs past the data, behind well-formed fields without a match: the scan overflows
   * exactly when cursor plus length reaches 2^64. Only where the field is the one asked for and more
   * bytes follow does the scan read a second length behind the first, which can overflow as well.
   */
  lemma FindOverflowsAtLengthIff(fs: seq<Field>, n: u32, len: u64, tail: seq<byte>, num: u32)
    requires AllWellFormed(fs) && FirstPayload(fs, num) == None
    requires |WithLength(fs, n, len, tail)| < TWO_TO_63 && len > |tail|
    ensures var q, second := BehindLength(fs, n, len), Decoding(tail);
      var scan := FindPayload(WithLength(fs, n, len, tail), 0, Tag(num, 2));
      && (n != num || tail == [] ==> scan == if q + len >= TWO_TO_64 then ScanOverflow else Missing)
      && (n == num && tail != [] && second.consumed + second.value >= |tail| ==>
            scan == if q + len >= TWO_TO_64 || q + second.consumed + second.value >= TWO_TO_64
                    then ScanOverflow else Missing)
      && (n == num && tail != [] ==>
            scan == if q + len >= TWO_TO_64 || q + second.consumed + second.value >= TWO_TO_64 then ScanOverflow
                    else FindPayload(WithLength(fs, n, len, tail), q + second.consumed + second.value, Tag(num, 2)))
  {
    hide Decoding, Encoding, EncodeAll, FirstPayload, Tag;
    var data, q := WithLength(fs, n, len, tail), BehindLength(fs, n, len);
    FindAtLength(fs, n, len, tail, num);
    ReadLength(fs, n, len, tail);
  }

  /** The same length before a token scan: exactly the overflow, or the texts of the fields before it. */
  lemma TokensOverflowAtLengthIff(fs: seq<Field>, n: u32, len: u64, tail: seq<byte>)
    requires AllWellFormed(fs)
    requires |WithLength(fs, n, len, tail)| < TWO_TO_63 && len > |tail|
    ensures Tokens(WithLength(fs, n, len, tail), 0) ==
            if BehindLength(fs, n, len) + len >= TWO_TO_64 then Overflow else Done(TextPayloads(fs, 13))
  {
    hide Decoding, Encoding, EncodeAll, Utf8.Valid, TextPayloads, PrependAll;
    var data, q := WithLength(fs, n, len, tail), BehindLength(fs, n, len);
    assert data[0..] == data;
    TokensPassFields(data, 0, fs, Encoding(Tag(n, 2)) + (Encoding(len) + tail));
    ReadLength(fs, n, len, tail);
    TagsDiffer(n, 2, 13);
    OverflowStays(TextPayloads(fs, 13));
    PrependAllFacts(TextPayloads(fs, 13), [], Done([]));
  }

  /** Behind well-formed fields without a match, a tag of an unknown wire type ends both scans. */
  lemma UnknownWireEnds(fs: seq<Field>, t: u64, tail: seq<byte>, num: u32)
    requires AllWellFormed(fs) && t % 8 in {3, 4, 6, 7}
    requires |EncodeAll(fs) + (Encoding(t) + tail)| < TWO_TO_63
    ensures FirstPayload(fs, num) == None ==>
      FindPayload(EncodeAll(fs) + (Encoding(t) + tail), 0, Tag(num, 2)) == Missing
    ensures Tokens(EncodeAll(fs) + (Encoding(t) + tail), 0) == Done(TextPayloads(fs, 13))
  {
    hide Decoding, Encoding, EncodeAll, Utf8.Valid, TextPayloads, PrependAll, FirstPayload;
    var data, pos := EncodeAll(fs) + (Encoding(t) + tail), |EncodeAll(fs)|;
    assert data[0..] == data && data[pos..] == Encoding(t) + tail;
    RoundTrip(t, tail);
    FindPassesFields(data, 0, fs, Encoding(t) + tail, num);
    TokensPassFields(data, 0, fs, Encoding(t) + tail);
    PrependAllFacts(TextPayloads(fs, 13), [], Done([]));
  }

  /** So does a tag with nothing behind it. */
  lemma LoneTagEnds(fs: seq<Field>, n: u32, num: u32)
    requires AllWellFormed(fs) && |EncodeAll(fs) + Encoding(Tag(n, 2))| < TWO_TO_63
    ensures FirstPayload(fs, num) == None ==>
      FindPayload(EncodeAll(fs) + Encoding(Tag(n, 2)), 0, Tag(num, 2)) == Missing
    ensures Tokens(EncodeAll(fs) + Encoding(Tag(n, 2)), 0) == Done(TextPayloads(fs, 13))
  {
    hide Decoding, Encoding, EncodeAll, Utf8.Valid, TextPayloads, PrependAll, FirstPayload;
    var data, pos := EncodeAll(fs) + Encoding(Tag(n, 2)), |EncodeAll(fs)|;
    TagFits(n);
    TagsDiffer(n, 2, num);
    assert data[0..] == data && data[pos..] == Encoding(Tag(n, 2)) && Encoding(Tag(n, 2)) + [] == Encoding(Tag(n, 2));
    RoundTrip(Tag(n, 2), []);
    FindPassesFields(data, 0, fs, Encoding(Tag(n, 2)), num);
    TokensPassFields(data, 0, fs, Encoding(Tag(n, 2)));
    PrependAllFacts(TextPayloads(fs, 13), [], Done([]));
  }

  /** Eleven bytes that stop the scan for every number: a length of 2^64 - 1. */
  lemma OverflowIsReached()
    ensures var data := [0x0A, 0xFF, 0xFF, 0xFF, 0xFF, 0xFF, 0xFF, 0xFF, 0xFF, 0xFF, 0x01];
      forall num: u32 :: FindPayload(data, 0, Tag(num, 2)) == ScanOverflow
  {
    hide FindPayload, Decoding;
    var data := [0x0A, 0xFF, 0xFF, 0xFF, 0xFF, 0xFF, 0xFF, 0xFF, 0xFF, 0xFF, 0x01];
    LargestEncoding();
    assert Encoding(Tag(1, 2)) == [0x0A];
    hide Encoding;
    assert WithLength([], 1, TWO_TO_64 - 1, []) == data;
    forall num: u32
      ensures FindPayload(data, 0, Tag(num, 2)) == ScanOverflow
    {
      FindOverflowsAtLengthIff([], 1, TWO_TO_64 - 1, [], num);
    }
  }

  lemma EncodingBehindOnes(x: nat)
    requires x > 0
    ensures Encoding(128 * x + 127) == [0xFF] + Encoding(x)
  {
    assert (128 * x + 127) / 128 == x;
  }

  /** The encoding of 2^(7k+1) - 1. */
  lemma {:induction false} OnesEncoding(k: nat)
    ensures Encoding(2 * Pow2(7 * k) - 1) == seq(k, _ => 0xFF) + [0x01]
  {
    if k == 0 {
      assert Pow2(0) == 1 && Encoding(1) == [0x01];
    } else {
      hide Encoding, Pow2;
      var x := 2 * Pow2(7 * k - 7) - 1;
      Pow2Group(7 * k - 7);
      OnesEncoding(k - 1);
      EncodingBehindOnes(x);
      assert 2 * Pow2(7 * k) - 1 == 128 * x + 127;
      assert seq(k, _ => 0xFF) == [0xFF] + seq(k - 1, _ => 0xFF);
    }
  }

  lemma LargestEncoding()
    ensures Encoding(TWO_TO_64 - 1) == [0xFF, 0xFF, 0xFF, 0xFF, 0xFF, 0xFF, 0xFF, 0xFF, 0xFF, 0x01]
  {
    hide Encoding;
    OnesEncoding(9);
    Pow2Widths();
  }

  // ---- Without overflow checks ----

  /** One turn of a payload scan whose cursor wraps: where it goes on, or None where it leaves the loop. */
  function UncheckedTurn(data: seq<byte>, pos: nat, tag: nat): Option<nat> {
    if pos >= |data| then None
    else
      var t := Decoding(data[pos..]);
      var p := pos + t.consumed;
      if t.value == tag && Wire(t.value) == 2 && p < |data| then
        var len := Decoding(data[p..]);
        var q := p + len.consumed;
        if Wrap64(q + len.value) <= |data| then None else UncheckedSkip(data, q, 2)
      else UncheckedSkip(data, p, Wire(t.value))
  }

  function UncheckedSkip(data: seq<byte>, pos: nat, wire: nat): Option<nat>
    requires pos <= |data|
  {
    if wire == 2 && pos < |data| then
      var len := Decoding(data[pos..]);
      Some(Wrap64(pos + len.consumed + len.value))
    else
      match Skip(data, pos, wire)
      case At(next) => Some(next)
      case _ => None
  }

  function CursorAfter(data: seq<byte>, tag: nat, turns: nat): Option<nat> {
    if turns == 0 then Some(0)
    else match CursorAfter(data, tag, turns - 1)
         case None => None
         case Some(pos) => UncheckedTurn(data, pos, tag)
  }

  /** The wrapping cursor falls behind the length it has just read exactly where the checked one overflows. */
  lemma WrapsBackIff(data: seq<byte>, pos: nat)
    requires pos < |data| < TWO_TO_63
    ensures var next := UncheckedSkip(data, pos, 2);
      next.Some? && (next.value < pos + Decoding(data[pos..]).consumed <==> Skip(data, pos, 2) == NextOverflow)
  {
    hide Decoding;
    var d := Decoding(data[pos..]);
    WrapOnce(pos + d.consumed, d.value);
  }

  lemma WrapOnce(q: nat, len: u64)
    requires q < TWO_TO_63
    ensures Wrap64(q + len) == if q + len >= TWO_TO_64 then q + len - TWO_TO_64 else q + len
  {
  }

  /** The length that takes the cursor from behind it back to 0. */
  function BackToStart(n: u32): (len: u64)
    ensures |Encoding(len)| == 10 && |Encoding(Tag(n, 2))| + |Encoding(len)| + len == TWO_TO_64
  {
    TagFits(n);
    RoundTrip(Tag(n, 2), []);
    var len := TWO_TO_64 - 10 - |Encoding(Tag(n, 2))|;
    TenBytes(len);
    len
  }

  lemma TenBytes(len: u64)
    requires len >= TWO_TO_63
    ensures |Encoding(len)| == 10
  {
    hide Encoding;
    RoundTrip(len, []);
    EncodingLength(len, 9);
    Pow2Widths();
  }

  /** One field of any other number with that length, whatever follows it, and the scan never ends. */
  lemma {:induction false} UncheckedScanNeverEnds(n: u32, tail: seq<byte>, num: u32, turns: nat)
    requires n != num && |WithLength([], n, BackToStart(n), tail)| < TWO_TO_63
    ensures CursorAfter(WithLength([], n, BackToStart(n), tail), Tag(num, 2), turns) == Some(0)
  {
    hide BackToStart, WithLength, UncheckedTurn, Tag;
    if turns > 0 {
      UncheckedScanNeverEnds(n, tail, num, turns - 1);
      TurnsBack(n, tail, num);
    }
  }

  lemma TurnsBack(n: u32, tail: seq<byte>, num: u32)
    requires n != num && |WithLength([], n, BackToStart(n), tail)| < TWO_TO_63
    ensures UncheckedTurn(WithLength([], n, BackToStart(n), tail), 0, Tag(num, 2)) == Some(0)
  {
    hide Decoding, Encoding, BackToStart, Tag;
    ReadLength([], n, BackToStart(n), tail);
    TagsDiffer(n, 2, num);
    assert BehindLength([], n, BackToStart(n)) + BackToStart(n) == TWO_TO_64;
  }
}
