/** Well-formed UTF-8 (RFC 3629, section 4), the test behind Rust's `str::from_utf8`. */
module Utf8 {
  import opened Bytes

  predicate Tail(b: byte) {
    0x80 <= b <= 0xBF
  }

  /** The length of the well-formed character at the front of s, or 0 if there is none. */
  function CharLength(s: seq<byte>): (n: nat)
    ensures n <= |s|
  {
    if |s| >= 1 && s[0] < 0x80 then 1
    else if |s| >= 2 && 0xC2 <= s[0] <= 0xDF && Tail(s[1]) then 2
    else if |s| >= 3 && 0xE0 <= s[0] <= 0xEF && Tail(s[1]) && Tail(s[2])
            && (s[0] == 0xE0 ==> s[1] >= 0xA0) && (s[0] == 0xED ==> s[1] <= 0x9F) then 3
    else if |s| >= 4 && 0xF0 <= s[0] <= 0xF4 && Tail(s[1]) && Tail(s[2]) && Tail(s[3])
            && (s[0] == 0xF0 ==> s[1] >= 0x90) && (s[0] == 0xF4 ==> s[1] <= 0x8F) then 4
    else 0
  }

  predicate Valid(s: seq<byte>)
    decreases |s|
  {
    s == [] || (CharLength(s) > 0 && Valid(s[CharLength(s)..]))
  }

  /** The bytes of an ASCII text. */
  function Ascii(s: string): (r: seq<byte>)
    requires forall i :: 0 <= i < |s| ==> s[i] < 128 as char
    ensures |r| == |s| && forall i :: 0 <= i < |s| ==> r[i] == s[i] as int
  {
    seq(|s|, i requires 0 <= i < |s| => s[i] as int)
  }

  lemma {:induction false} AsciiIsValid(s: seq<byte>)
    requires forall i :: 0 <= i < |s| ==> s[i] < 0x80
    ensures Valid(s)
  {
    if s != [] {
      AsciiIsValid(s[1..]);
    }
  }

  // ---- What a valid text is ----

  /** A Unicode scalar value: a code point that is no surrogate. */
  type scalar = c: int | 0 <= c < 0xD800 || 0xE000 <= c < 0x110000

  /** The encoding of one scalar value (RFC 3629, section 3). */
  function EncodeScalar(c: scalar): (s: seq<byte>)
    ensures 1 <= |s| <= 4
  {
    if c < 0x80 then [c]
    else if c < 0x800 then [0xC0 + c / 0x40, 0x80 + c % 0x40]
    else if c < 0x10000 then [0xE0 + c / 0x1000, 0x80 + c / 0x40 % 0x40, 0x80 + c % 0x40]
    else [0xF0 + c / 0x40000, 0x80 + c / 0x1000 % 0x40, 0x80 + c / 0x40 % 0x40, 0x80 + c % 0x40]
  }

  function EncodeText(cs: seq<scalar>): seq<byte> {
    if cs == [] then [] else EncodeScalar(cs[0]) + EncodeText(cs[1..])
  }

  /** The number whose base-64 digits are given, the highest first. */
  function FromDigits(a: int, b: int, c: int, d: int): int {
    0x40000 * a + 0x1000 * b + 0x40 * c + d
  }

  lemma Digit64(q: nat, d: nat)
    requires d < 0x40
    ensures (0x40 * q + d) / 0x40 == q && (0x40 * q + d) % 0x40 == d
  {
  }

  lemma Twice(n: nat)
    ensures n / 0x1000 == n / 0x40 / 0x40 && n / 0x40000 == n / 0x1000 / 0x40
  {
  }

  lemma DigitsOf(a: nat, b: nat, c: nat, d: nat)
    requires b < 0x40 && c < 0x40 && d < 0x40
    ensures var n := FromDigits(a, b, c, d);
      n / 0x40000 == a && n / 0x1000 % 0x40 == b && n / 0x40 % 0x40 == c && n % 0x40 == d
    ensures var n := FromDigits(a, b, c, d); n / 0x1000 == 0x40 * a + b && n / 0x40 == 0x1000 * a + 0x40 * b + c
  {
    var ab, abc := 0x40 * a + b, 0x1000 * a + 0x40 * b + c;
    assert FromDigits(a, b, c, d) == 0x40 * abc + d && abc == 0x40 * ab + c;
    Twice(0x40 * abc + d);
    Digit64(abc, d);
    Digit64(ab, c);
    Digit64(a, b);
  }

  /** The scalar value of the character at the front. */
  function DecodeScalar(s: seq<byte>): int
    requires CharLength(s) > 0
  {
    match CharLength(s)
    case 1 => s[0]
    case 2 => FromDigits(0, 0, s[0] - 0xC0, s[1] - 0x80)
    case 3 => FromDigits(0, s[0] - 0xE0, s[1] - 0x80, s[2] - 0x80)
    case _ => FromDigits(s[0] - 0xF0, s[1] - 0x80, s[2] - 0x80, s[3] - 0x80)
  }

  lemma ShortIsCharacter(c: scalar, rest: seq<byte>)
    requires c < 0x800
    ensures CharLength(EncodeScalar(c) + rest) == |EncodeScalar(c)|
  {
  }

  lemma ThreeIsCharacter(c: scalar, rest: seq<byte>)
    requires 0x800 <= c < 0x10000
    ensures CharLength(EncodeScalar(c) + rest) == |EncodeScalar(c)|
  {
  }

  lemma FourIsCharacter(c: scalar, rest: seq<byte>)
    requires 0x10000 <= c
    ensures CharLength(EncodeScalar(c) + rest) == |EncodeScalar(c)|
  {
  }

  lemma EncodedIsCharacter(c: scalar, rest: seq<byte>)
    ensures CharLength(EncodeScalar(c) + rest) == |EncodeScalar(c)|
  {
    hide CharLength, EncodeScalar;
    if c < 0x800 {
      ShortIsCharacter(c, rest);
    } else if c < 0x10000 {
      ThreeIsCharacter(c, rest);
    } else {
      FourIsCharacter(c, rest);
    }
  }

  lemma CharacterIsEncoded(s: seq<byte>)
    requires CharLength(s) > 0
    ensures var c := DecodeScalar(s);
      (0 <= c < 0xD800 || 0xE000 <= c < 0x110000) && EncodeScalar(c) == s[..CharLength(s)]
  {
    match CharLength(s) {
      case 1 =>
      case 2 => DigitsOf(0, 0, s[0] - 0xC0, s[1] - 0x80);
      case 3 => DigitsOf(0, s[0] - 0xE0, s[1] - 0x80, s[2] - 0x80);
      case _ => DigitsOf(s[0] - 0xF0, s[1] - 0x80, s[2] - 0x80, s[3] - 0x80);
    }
  }

  lemma {:induction false} EncodedTextIsValid(cs: seq<scalar>)
    ensures Valid(EncodeText(cs))
  {
    hide CharLength, EncodeScalar;
    if cs != [] {
      EncodedIsCharacter(cs[0], EncodeText(cs[1..]));
      EncodedTextIsValid(cs[1..]);
      assert EncodeText(cs)[|EncodeScalar(cs[0])|..] == EncodeText(cs[1..]);
    }
  }

  lemma {:induction false} ValidIsEncodedText(s: seq<byte>)
    requires Valid(s)
    ensures exists cs: seq<scalar> :: EncodeText(cs) == s
    decreases |s|
  {
    hide CharLength, EncodeScalar, DecodeScalar;
    if s == [] {
      assert EncodeText([]) == s;
    } else {
      var n := CharLength(s);
      CharacterIsEncoded(s);
      ValidIsEncodedText(s[n..]);
      var c: scalar, later: seq<scalar> := DecodeScalar(s), (var cs :| EncodeText(cs) == s[n..]; cs);
      assert ([c] + later)[1..] == later;
      assert EncodeText([c] + later) == s[..n] + s[n..] == s;
    }
  }

  /** The check accepts exactly the encodings of texts: no overlong form, no surrogate, nothing past U+10FFFF. */
  lemma ValidIffEncodedText(s: seq<byte>)
    ensures Valid(s) <==> exists cs: seq<scalar> :: EncodeText(cs) == s
  {
    hide Valid, EncodeText;
    if Valid(s) {
      ValidIsEncodedText(s);
    }
    if cs: seq<scalar> :| EncodeText(cs) == s {
      EncodedTextIsValid(cs);
    }
  }
}
