/** Base-128 varints (Protocol Buffers Encoding guide, "Base 128 Varints"). */
module Varint {
  import opened Bytes

  // ---- 64-bit operations ----

  function Pow2(k: nat): (p: nat)
    ensures p > 0
  {
    if k == 0 then 1 else 2 * Pow2(k - 1)
  }

  lemma WrapSmall(x: nat)
    ensures x < TWO_TO_64 ==> Wrap64(x) == x
  {
  }

  /** Bitwise or. */
  function Or(a: nat, b: nat): nat {
    if a == 0 && b == 0 then 0
    else (if a % 2 == 1 || b % 2 == 1 then 1 else 0) + 2 * Or(a / 2, b / 2)
  }

  /** Left shift of a u64: the bits pushed past bit 63 are lost. */
  function ShiftLeft(x: u64, k: nat): u64
    requires k < 64
  {
    Wrap64(x * Pow2(k))
  }

  /** The decoder's step: the low seven bits of b, shifted, or-ed into the value. */
  function OrShifted(value: u64, b: byte, k: nat): nat
    requires k < 64
  {
    Or(value, ShiftLeft(b % 128, k))
  }

  lemma {:induction false} OrOfDisjoint(a: nat, b: nat, k: nat)
    requires a < Pow2(k)
    ensures Or(a, b * Pow2(k)) == a + b * Pow2(k)
    decreases k, a + b
  {
    if k == 0 {
      OrZero(b);
    } else {
      var c := b * Pow2(k - 1);
      assert b * Pow2(k) == 2 * c;
      OrOfDisjoint(a / 2, b, k - 1);
      assert 2 * c % 2 == 0 && 2 * c / 2 == c;
    }
  }

  lemma {:induction false} OrZero(b: nat)
    ensures Or(0, b) == b
  {
    if b > 0 {
      OrZero(b / 2);
    }
  }

  lemma {:induction false} Pow2Monotone(j: nat, k: nat)
    requires j <= k
    ensures Pow2(j) <= Pow2(k)
  {
    if j < k {
      Pow2Monotone(j, k - 1);
    }
  }

  lemma Pow2Group(k: nat)
    ensures Pow2(k + 7) == 128 * Pow2(k)
  {
    assert Pow2(k + 1) == 2 * Pow2(k) && Pow2(k + 2) == 4 * Pow2(k);
    assert Pow2(k + 3) == 8 * Pow2(k) && Pow2(k + 4) == 16 * Pow2(k);
    assert Pow2(k + 5) == 32 * Pow2(k) && Pow2(k + 6) == 64 * Pow2(k);
  }

  lemma Pow2Widths()
    ensures Pow2(63) == TWO_TO_63 && Pow2(64) == TWO_TO_64
  {
    assert Pow2(0) == 1;
    Pow2Group(0); Pow2Group(7); Pow2Group(14); Pow2Group(21); Pow2Group(28);
    Pow2Group(35); Pow2Group(42); Pow2Group(49); Pow2Group(56);
  }

  // ---- What a varint stands for ----

  /** The little-endian base-128 number in the low seven bits of each byte. */
  function Groups(s: seq<byte>): nat {
    if s == [] then 0 else s[0] % 128 + 128 * Groups(s[1..])
  }

  /** How many bytes at the front have the continuation bit set. */
  function Continued(s: seq<byte>): (k: nat)
    ensures k <= |s|
    ensures forall i :: 0 <= i < k ==> s[i] >= 128
    ensures k < |s| ==> s[k] < 128
  {
    if s == [] || s[0] < 128 then 0 else 1 + Continued(s[1..])
  }

  datatype Decoded = Decoded(value: u64, consumed: nat)

  /**
   * The decoder's answer: a varint that ends within ten bytes gives its number modulo 2^64;
   * otherwise the first ten bytes give the number and all of the input counts as consumed.
   */
  function Decoding(data: seq<byte>): (r: Decoded)
    ensures r.consumed <= |data| && (data != [] ==> 1 <= r.consumed)
  {
    var k := Continued(data);
    if k < |data| && k < 10 then Decoded(Wrap64(Groups(data[..k + 1])), k + 1)
    else Decoded(Wrap64(Groups(data[..if |data| < 10 then |data| else 10])), |data|)
  }

  /** The encoder's answer: seven bits a byte, lowest first, the continuation bit on all but the last. */
  function Encoding(v: nat): (s: seq<byte>)
    ensures |s| >= 1
  {
    if v < 128 then [v] else [v % 128 + 128] + Encoding(v / 128)
  }

  method EncodeVarint(v: u64) returns (out: seq<byte>)
    ensures out == Encoding(v)
  {
    var value := v;
    out := [];
    while true
      invariant 0 <= value < TWO_TO_64
      invariant out + Encoding(value) == Encoding(v)
      decreases value
    {
      var b: byte := value % 128;
      ghost var before := value;
      value := value / 128;
      if value != 0 {
        b := b + 128;
      }
      out := out + [b];
      if value == 0 {
        assert Encoding(before) == [b];
        break;
      }
      assert Encoding(before) == [b] + Encoding(value);
    }
  }

  method DecodeVarint(data: seq<byte>) returns (r: Decoded)
    ensures r == Decoding(data)
  {
    var value: u64 := 0;
    var shift := 0;
    var i := 0;
    assert Groups(data[..0]) == 0;
    hide OrShifted, Groups, Decoding, Continued, Wrap64;
    while i < |data|
      invariant 0 <= i <= |data| && i < 10 && i <= Continued(data)
      invariant shift == 7 * i
      invariant value == Groups(data[..i])
    {
      var b := data[i];
      DecodeStep(data, i);
      value := OrShifted(value, b, shift);
      DecodingStops(data, i);
      if b < 128 {
        return Decoded(value, i + 1);
      }
      shift := shift + 7;
      if shift >= 64 {
        return Decoded(value, |data|);
      }
      i := i + 1;
    }
    assert data[..i] == data;
    DecodingRunsOut(data);
    return Decoded(value, |data|);
  }

  lemma DecodingStops(data: seq<byte>, i: nat)
    requires i < |data| && i < 10 && i <= Continued(data)
    ensures data[i] < 128 ==> Decoding(data) == Decoded(Wrap64(Groups(data[..i + 1])), i + 1)
    ensures data[i] >= 128 && i == 9 ==> Decoding(data) == Decoded(Wrap64(Groups(data[..i + 1])), |data|)
    ensures data[i] >= 128 ==> i + 1 <= Continued(data)
  {
  }

  lemma DecodingRunsOut(data: seq<byte>)
    requires |data| < 10 && Continued(data) == |data|
    ensures Groups(data) < TWO_TO_64
    ensures Decoding(data) == Decoded(Groups(data), |data|)
  {
    hide Wrap64, Groups;
    NarrowGroups(data);
    WrapSmall(Groups(data));
    assert data[..|data|] == data;
  }

  lemma NarrowGroups(s: seq<byte>)
    requires |s| <= 9
    ensures Groups(s) < TWO_TO_63
  {
    GroupsBound(s);
    Pow2Monotone(7 * |s|, 63);
    Pow2Widths();
  }

  lemma DecodeStep(data: seq<byte>, i: nat)
    requires i < |data| && i < 10
    ensures Groups(data[..i]) < TWO_TO_64
    ensures OrShifted(Groups(data[..i]), data[i], 7 * i) == Wrap64(Groups(data[..i + 1]))
    ensures i < 9 ==> OrShifted(Groups(data[..i]), data[i], 7 * i) == Groups(data[..i + 1])
  {
    hide Wrap64, Groups, Pow2;
    assert data[..i + 1] == data[..i] + [data[i]];
    GroupsAppend(data[..i], data[i]);
    GroupsBound(data[..i]);
    NarrowGroups(data[..i]);
    AddGroup(Groups(data[..i]), data[i], i);
    if i < 9 {
      NarrowGroups(data[..i + 1]);
      WrapSmall(Groups(data[..i + 1]));
    }
  }

  /** One decoding step: or-ing in a shifted group adds it, modulo 2^64. */
  lemma AddGroup(value: u64, b: byte, i: nat)
    requires i <= 9 && value < Pow2(7 * i)
    ensures OrShifted(value, b, 7 * i) == Wrap64(value + b % 128 * Pow2(7 * i))
  {
    hide Pow2, Or, Wrap64;
    var group := b % 128;
    if i == 9 {
      Pow2Widths();
      AddTopGroup(value, group);
    } else {
      AddLowGroup(value, group, 7 * i);
    }
  }

  lemma AddLowGroup(value: u64, group: nat, shift: nat)
    requires group < 128 && shift <= 56 && value < Pow2(shift)
    ensures Or(value, ShiftLeft(group, shift)) == Wrap64(value + group * Pow2(shift))
  {
    hide Pow2, Or, Wrap64;
    GroupFits(group, shift);
    GroupSumFits(value, group, shift);
    OrOfDisjoint(value, group, shift);
    WrapSmall(group * Pow2(shift));
    WrapSmall(value + group * Pow2(shift));
  }

  /** The tenth byte keeps one bit: the others are shifted out of the word. */
  lemma AddTopGroup(value: u64, group: nat)
    requires group < 128 && value < TWO_TO_63
    ensures Or(value, Wrap64(group * TWO_TO_63)) == Wrap64(value + group * TWO_TO_63)
  {
    var half, bit := group / 2, group % 2;
    Pow2Widths();
    OrOfDisjoint(value, bit, 63);
    hide Or, Pow2, Wrap64;
    assert group * TWO_TO_63 == half * TWO_TO_64 + bit * TWO_TO_63;
    WrapMultiple(half, bit * TWO_TO_63);
    WrapMultiple(half, value + bit * TWO_TO_63);
  }

  lemma WrapMultiple(n: nat, x: u64)
    ensures Wrap64(n * TWO_TO_64 + x) == x
  {
  }

  lemma GroupFits(group: nat, shift: nat)
    requires group < 128 && shift <= 56
    ensures group * Pow2(shift) < TWO_TO_63
  {
    hide Pow2;
    Pow2Group(shift);
    Pow2Monotone(shift + 7, 63);
    Pow2Widths();
  }

  lemma GroupSumFits(value: nat, group: nat, shift: nat)
    requires group < 128 && shift <= 56 && value < Pow2(shift)
    ensures value + group * Pow2(shift) < TWO_TO_64
  {
    GroupFits(group, shift);
    Pow2Monotone(shift, 63);
    Pow2Widths();
  }

  lemma {:induction false} GroupsAppend(s: seq<byte>, b: byte)
    ensures Groups(s + [b]) == Groups(s) + b % 128 * Pow2(7 * |s|)
  {
    if s == [] {
      assert Groups([b]) == b % 128;
    } else {
      assert (s + [b])[1..] == s[1..] + [b];
      GroupsAppend(s[1..], b);
      var g, p := b % 128, Pow2(7 * |s| - 7);
      Pow2Group(7 * |s| - 7);
      assert 128 * (g * p) == g * (128 * p);
    }
  }

  lemma {:induction false} GroupsBound(s: seq<byte>)
    ensures Groups(s) < Pow2(7 * |s|)
  {
    if s != [] {
      GroupsBound(s[1..]);
      Pow2Group(7 * |s| - 7);
    }
  }

  // ---- Main results ----

  lemma {:induction false} EncodingShape(v: nat, rest: seq<byte>)
    ensures Continued(Encoding(v) + rest) == |Encoding(v)| - 1
  {
    var e := Encoding(v);
    if v < 128 {
      assert (e + rest)[0] == v;
    } else {
      EncodingShape(v / 128, rest);
      assert (e + rest)[1..] == Encoding(v / 128) + rest;
    }
  }

  lemma {:induction false} EncodingGroups(v: nat)
    ensures Groups(Encoding(v)) == v
  {
    if v >= 128 {
      EncodingGroups(v / 128);
      assert Encoding(v)[1..] == Encoding(v / 128);
    }
  }

  lemma {:induction false} EncodingLength(v: nat, n: nat)
    requires n >= 1
    ensures |Encoding(v)| <= n <==> v < Pow2(7 * n)
  {
    Pow2Group(7 * n - 7);
    if v < 128 {
      Pow2Monotone(7, 7 * n);
      Pow2Group(0);
    } else if n == 1 {
      assert Pow2(0) == 1;
    } else {
      EncodingLength(v / 128, n - 1);
    }
  }

  /** Decoding what was encoded, whatever follows it, gives the value and the encoding's own length. */
  lemma RoundTrip(v: u64, rest: seq<byte>)
    ensures Decoding(Encoding(v) + rest) == Decoded(v, |Encoding(v)|)
    ensures 1 <= |Encoding(v)| <= 10
  {
    var e := Encoding(v);
    EncodingShape(v, rest);
    EncodingGroups(v);
    Pow2Widths();
    Pow2Monotone(64, 70);
    EncodingLength(v, 10);
    assert (e + rest)[..|e|] == e;
  }

  /** No shorter input decodes to v: the encoding is the shortest. */
  lemma Shortest(v: u64, data: seq<byte>)
    requires data != [] && Decoding(data).value == v
    ensures |Encoding(v)| <= Decoding(data).consumed
  {
    var n := Decoding(data).consumed;
    var used := if n < 10 then n else 10;
    var k := Continued(data);
    GroupsBound(data[..used]);
    assert v <= Groups(data[..used]);
    EncodingLength(v, used);
  }

  /** Two encodings, one a prefix of a stream that starts with the other, are of the same value. */
  lemma PrefixFree(v: u64, w: u64, rest: seq<byte>)
    requires Encoding(v) <= Encoding(w) + rest
    ensures v == w
  {
    var stream := Encoding(w) + rest;
    RoundTrip(w, rest);
    RoundTrip(v, stream[|Encoding(v)|..]);
    assert stream == Encoding(v) + stream[|Encoding(v)|..];
  }

  // ---- Inputs that do not end as they should ----

  lemma RemainderIs(a: nat, b: nat, q: nat, r: nat)
    requires a == b * q + r && r < b
    ensures a % b == r
  {
    var p := a / b;
    assert a == b * p + a % b;
    ProductGrows(b, p + 1, q);
    ProductGrows(b, q + 1, p);
  }

  lemma ProductGrows(b: nat, x: nat, y: nat)
    ensures x <= y ==> b * x <= b * y
  {
  }

  lemma LowGroups(v: nat, p: nat)
    requires p > 0
    ensures v % (128 * p) == v % 128 + 128 * (v / 128 % p)
  {
    var q, r := v / 128 / p, v / 128 % p;
    assert v / 128 == p * q + r;
    assert v == 128 * (p * q + r) + v % 128;
    assert 128 * (p * q) == 128 * p * q;
    RemainderIs(v, 128 * p, q, 128 * r + v % 128);
  }

  lemma EncodingFirst(v: nat)
    requires v >= 128
    ensures Encoding(v) == [v % 128 + 128] + Encoding(v / 128)
  {
  }

  lemma ContinuedFirst(b: byte, s: seq<byte>)
    requires b >= 128
    ensures Continued([b] + s) == 1 + Continued(s) && Groups([b] + s) == b % 128 + 128 * Groups(s)
    ensures Continued([]) == 0 && Groups([]) == 0
  {
    assert ([b] + s)[1..] == s;
  }

  lemma {:induction false} EncodingFront(v: nat, k: nat)
    requires k < |Encoding(v)|
    ensures Continued(Encoding(v)[..k]) == k && Groups(Encoding(v)[..k]) == LowGroupsOf(v, k)
  {
    hide Continued, Groups;
    ContinuedFirst(128, []);
    if k > 0 {
      EncodingFirst(v);
      hide Encoding;
      var low, later := v % 128 + 128, Encoding(v / 128)[..k - 1];
      EncodingFront(v / 128, k - 1);
      ContinuedFirst(low, later);
      assert Encoding(v)[..k] == [low] + later;
    }
  }

  /** The number in the k lowest groups of seven bits. */
  function LowGroupsOf(v: nat, k: nat): nat {
    if k == 0 then 0 else v % 128 + 128 * LowGroupsOf(v / 128, k - 1)
  }

  lemma {:induction false} LowGroupsAreRemainder(v: nat, k: nat)
    ensures LowGroupsOf(v, k) == v % Pow2(7 * k)
  {
    if k == 0 {
      assert Pow2(0) == 1;
    } else {
      LowGroupsAreRemainder(v / 128, k - 1);
      Pow2Group(7 * k - 7);
      hide Pow2;
      LowGroups(v, Pow2(7 * k - 7));
    }
  }

  /** An encoding cut short is taken whole, for the low bits it holds. */
  lemma Truncated(v: u64, k: nat)
    requires 0 < k < |Encoding(v)|
    ensures var d := Decoding(Encoding(v)[..k]); d.consumed == k && d.value == v % Pow2(7 * k)
  {
    hide Encoding, Decoding, Continued, Groups, Pow2, LowGroupsOf;
    RoundTrip(v, []);
    EncodingFront(v, k);
    LowGroupsAreRemainder(v, k);
    DecodingRunsOut(Encoding(v)[..k]);
  }

  /** Of ten continuation bytes or more, the first ten give the value and all of the input is consumed. */
  lemma Overlong(data: seq<byte>)
    requires Continued(data) >= 10
    ensures Decoding(data) == Decoded(Wrap64(Groups(data[..10])), |data|)
    ensures Decoding(data[..10]) == Decoded(Wrap64(Groups(data[..10])), 10)
  {
    hide Wrap64, Groups;
    DecodingStops(data, 9);
    DecodingStops(data[..10], 9);
    assert data[..10][..10] == data[..10];
  }
}
