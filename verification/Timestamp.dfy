/** The bundler's ISO 8601 timestamp text (RFC 3339, section 5.6). */
module Timestamp {
  import opened Bytes
  import opened Calendar

  // ---- Decimal text ----

  function Digit(n: nat): char
    requires n < 10
  {
    '0' + n as char
  }

  function Decimal(n: nat): (s: string)
    ensures |s| >= 1
  {
    if n < 10 then [Digit(n)] else Decimal(n / 10) + [Digit(n % 10)]
  }

  function Zeros(k: nat): string {
    seq(k, _ => '0')
  }

  /** Decimal text, padded on the left with zeros to at least w characters. */
  function Padded(n: nat, w: nat): string {
    var s := Decimal(n);
    if |s| < w then Zeros(w - |s|) + s else s
  }

  function Pow10(w: nat): nat {
    if w == 0 then 1 else 10 * Pow10(w - 1)
  }

  /** Exactly w digits, the last of which is the units digit. */
  function Fixed(n: nat, w: nat): (s: string)
    ensures |s| == w
  {
    if w == 0 then "" else Fixed(n / 10, w - 1) + [Digit(n % 10)]
  }

  function Value(s: string): nat {
    if s == "" then 0
    else 10 * Value(s[..|s| - 1]) + (if '0' <= s[|s| - 1] <= '9' then (s[|s| - 1] - '0') as nat else 0)
  }

  lemma {:induction false} FixedOfZero(w: nat)
    ensures Fixed(0, w) == Zeros(w)
  {
    if w > 0 {
      FixedOfZero(w - 1);
    }
  }

  lemma {:induction false} PaddedIsFixed(n: nat, w: nat)
    requires w > 0 && n < Pow10(w)
    ensures Padded(n, w) == Fixed(n, w) && |Decimal(n)| <= w
  {
    if n < 10 {
      FixedOfZero(w - 1);
      assert n / 10 == 0 && n % 10 == n;
    } else {
      PaddedIsFixed(n / 10, w - 1);
    }
  }

  lemma {:induction false} DecimalLength(n: nat, w: nat)
    requires w > 0
    ensures |Decimal(n)| <= w <==> n < Pow10(w)
  {
    if n >= 10 && w > 1 {
      DecimalLength(n / 10, w - 1);
    } else {
      assert Pow10(1) == 10;
      if w > 1 {
        PowAtLeastTen(w);
      }
    }
  }

  lemma {:induction false} PowAtLeastTen(w: nat)
    requires w >= 1
    ensures Pow10(w) >= 10
  {
    if w > 1 {
      PowAtLeastTen(w - 1);
    }
  }

  lemma {:induction false} ValueOfFixed(n: nat, w: nat)
    requires n < Pow10(w)
    ensures Value(Fixed(n, w)) == n
  {
    if w > 0 {
      ValueOfFixed(n / 10, w - 1);
      assert Fixed(n, w)[..w - 1] == Fixed(n / 10, w - 1);
    }
  }

  // ---- String order ----

  /** Strict order of strings, character by character, as Rust compares ASCII text. */
  predicate Below(a: string, b: string) {
    if b == "" then false
    else if a == "" then true
    else a[0] < b[0] || (a[0] == b[0] && Below(a[1..], b[1..]))
  }

  lemma {:induction false} BelowExtends(a: string, b: string, x: string, y: string)
    requires |a| == |b| && Below(a, b)
    ensures Below(a + x, b + y)
  {
    assert (a + x)[1..] == a[1..] + x;
    assert (b + y)[1..] == b[1..] + y;
    if a[0] == b[0] {
      BelowExtends(a[1..], b[1..], x, y);
    }
  }

  lemma {:induction false} BelowAfter(p: string, a: string, b: string)
    ensures Below(p + a, p + b) <==> Below(a, b)
  {
    if p == "" {
      assert p + a == a && p + b == b;
    } else {
      assert (p + a)[1..] == p[1..] + a;
      assert (p + b)[1..] == p[1..] + b;
      BelowAfter(p[1..], a, b);
    }
  }

  lemma {:induction false} FixedMonotone(a: nat, b: nat, w: nat)
    requires a < b < Pow10(w)
    ensures Below(Fixed(a, w), Fixed(b, w))
  {
    if a / 10 < b / 10 {
      FixedMonotone(a / 10, b / 10, w - 1);
      BelowExtends(Fixed(a / 10, w - 1), Fixed(b / 10, w - 1), [Digit(a % 10)], [Digit(b % 10)]);
    } else {
      BelowAfter(Fixed(a / 10, w - 1), [Digit(a % 10)], [Digit(b % 10)]);
    }
  }

  // ---- The timestamp ----

  /** First second of the year 10000. */
  const YEAR_10000: u64 := 253402300800

  /** The broken-down time that the text shows. */
  datatype Clock = Clock(date: Date, hour: nat, min: nat, sec: nat)

  function ToClock(secs: u64): Clock {
    Clock(DaysToYmd(secs / 86400), secs / 3600 % 24, secs / 60 % 60, secs % 60)
  }

  function ClockText(c: Clock): string {
    Padded(c.date.year, 4) + ("-" + Padded(c.date.month, 2) + ("-" + Padded(c.date.day, 2)
    + ("T" + Padded(c.hour, 2) + (":" + Padded(c.min, 2) + (":" + Padded(c.sec, 2) + "Z")))))
  }

  function Text(secs: u64): string {
    ClockText(ToClock(secs))
  }

  /** The seconds a 20-character timestamp stands for, read back through the day number. */
  function Seconds(t: string): Option<int>
    requires |t| == 20
  {
    Recombined(Clock(Date(Value(t[0..4]), Value(t[5..7]), Value(t[8..10])),
                     Value(t[11..13]), Value(t[14..16]), Value(t[17..19])))
  }

  /** The second a broken-down time names, if its date is one of the calendar. */
  function Recombined(c: Clock): Option<int> {
    if Valid(c.date) && c.date.year >= 1 then
      Some(DayNumber(c.date) * 86400 + c.hour * 3600 + c.min * 60 + c.sec)
    else None
  }

  predicate Earlier(a: Date, b: Date) {
    a.year < b.year || (a.year == b.year && (a.month < b.month || (a.month == b.month && a.day < b.day)))
  }

  lemma {:induction false} NthDateMonotone(i: nat, j: nat)
    requires i < j
    ensures Earlier(NthDate(i), NthDate(j))
  {
    if i < j - 1 {
      NthDateMonotone(i, j - 1);
    }
  }

  lemma FourDigitYears(n: u64)
    requires n <= MAX_DAYS
    ensures DaysToYmd(n).year < 10000 <==> n < 2932897
  {
    DaysToYmdIsNthDate(n);
    FirstDayOfYear10000();
    EveryDateIsReached(Date(10000, 1, 1));
    if n < 2932897 {
      NthDateMonotone(n, 2932897);
    } else if n > 2932897 {
      NthDateMonotone(2932897, n);
    }
  }

  lemma FirstDayOfYear10000()
    ensures Valid(Date(10000, 1, 1)) && DayNumber(Date(10000, 1, 1)) == 2932897
  {
    var d := Date(10000, 1, 1);
    assert MarchYear(d) == 9999 && MarchMonth(d) == 10 && MarchDay(d) == 306;
  }

  predicate Proper(c: Clock) {
    Valid(c.date) && c.date.year >= 1970 && c.hour < 24 && c.min < 60 && c.sec < 60
  }

  lemma ClockIsProper(secs: u64)
    ensures Proper(ToClock(secs))
    ensures ToClock(secs).date.year < 10000 <==> secs < YEAR_10000
    ensures DayNumber(ToClock(secs).date) == secs / 86400
  {
    DaysToYmdIsNthDate(secs / 86400);
    DayNumberOfNth(secs / 86400);
    FourDigitYears(secs / 86400);
    hide DaysToYmd, DayNumber;
  }

  /** The text with every field at its fixed width. */
  function FixedText(c: Clock): string {
    Fixed(c.date.year, 4) + ("-" + Fixed(c.date.month, 2) + ("-" + Fixed(c.date.day, 2)
    + ("T" + Fixed(c.hour, 2) + (":" + Fixed(c.min, 2) + (":" + Fixed(c.sec, 2) + "Z")))))
  }

  lemma ClockTextIsFixed(c: Clock)
    requires Proper(c)
    ensures c.date.year < 10000 ==> ClockText(c) == FixedText(c)
    ensures |ClockText(c)| == 20 <==> c.date.year < 10000
    ensures |ClockText(c)| >= 20
  {
    assert Pow10(2) == 100 && Pow10(4) == 10000;
    DecimalLength(c.date.year, 4);
    if c.date.year < 10000 {
      PaddedIsFixed(c.date.year, 4);
    }
    PaddedIsFixed(c.date.month, 2);
    PaddedIsFixed(c.date.day, 2);
    PaddedIsFixed(c.hour, 2);
    PaddedIsFixed(c.min, 2);
    PaddedIsFixed(c.sec, 2);
    hide Padded, Fixed, Decimal;
  }

  /** The text has 20 characters exactly up to the end of the year 9999. */
  lemma TextLength(secs: u64)
    ensures |Text(secs)| >= 20
    ensures |Text(secs)| == 20 <==> secs < YEAR_10000
  {
    ClockIsProper(secs);
    ClockTextIsFixed(ToClock(secs));
  }

  lemma FixedTextFields(c: Clock)
    ensures var t := FixedText(c);
      && |t| == 20 && t[0..4] == Fixed(c.date.year, 4) && t[5..7] == Fixed(c.date.month, 2)
      && t[8..10] == Fixed(c.date.day, 2) && t[11..13] == Fixed(c.hour, 2)
      && t[14..16] == Fixed(c.min, 2) && t[17..19] == Fixed(c.sec, 2)
  {
  }

  lemma ClockRoundTrip(c: Clock)
    requires Proper(c) && c.date.year < 10000
    ensures |ClockText(c)| == 20
    ensures Seconds(ClockText(c)) == Recombined(c)
  {
    ClockTextIsFixed(c);
    FixedTextFields(c);
    assert Pow10(2) == 100 && Pow10(4) == 10000;
    ValueOfFixed(c.date.year, 4);
    ValueOfFixed(c.date.month, 2);
    ValueOfFixed(c.date.day, 2);
    ValueOfFixed(c.hour, 2);
    ValueOfFixed(c.min, 2);
    ValueOfFixed(c.sec, 2);
    hide DayNumber, ClockText, FixedText, Fixed, Value, Recombined;
  }

  /** The separators stand where the date-time of RFC 3339 has them, and the offset is Z. */
  lemma TextSeparators(secs: u64)
    requires secs < YEAR_10000
    ensures var t := Text(secs);
      |t| == 20 && t[4] == '-' && t[7] == '-' && t[10] == 'T' && t[13] == ':' && t[16] == ':' && t[19] == 'Z'
  {
    ClockIsProper(secs);
    ClockTextIsFixed(ToClock(secs));
    hide Fixed, ToClock, Padded;
  }

  /** Reading the fields back through the calendar's inverse gives the original second. */
  lemma TextRoundTrip(secs: u64)
    requires secs < YEAR_10000
    ensures |Text(secs)| == 20 && Seconds(Text(secs)) == Some(secs)
  {
    ClockIsProper(secs);
    ClockRoundTrip(ToClock(secs));
    ClockRecombines(secs);
    hide DaysToYmd, DayNumber, ClockText, Seconds, Recombined;
  }

  lemma ClockRecombines(secs: u64)
    ensures Recombined(ToClock(secs)) == Some(secs)
  {
    ClockIsProper(secs);
    SecondsRecombine(secs);
    hide DaysToYmd, DayNumber;
  }

  lemma SecondsRecombine(s: nat)
    ensures s / 86400 * 86400 + s / 3600 % 24 * 3600 + s / 60 % 60 * 60 + s % 60 == s
  {
    assert s / 60 / 60 == s / 3600;
    assert s / 3600 / 24 == s / 86400;
  }

  /** The order of two fixed-width texts is the order of the first field in which they differ. */
  lemma FixedFieldOrder(a: nat, b: nat, w: nat, x: string, y: string)
    requires a <= b < Pow10(w)
    requires a == b ==> Below(x, y)
    ensures Below(Fixed(a, w) + x, Fixed(b, w) + y)
  {
    if a < b {
      FixedMonotone(a, b, w);
      BelowExtends(Fixed(a, w), Fixed(b, w), x, y);
    } else {
      BelowAfter(Fixed(a, w), x, y);
    }
  }

  /** The same, behind one separator character. */
  lemma NextFieldOrder(c: char, a: nat, b: nat, x: string, y: string)
    requires a <= b < 100
    requires a == b ==> Below(x, y)
    ensures Below([c] + Fixed(a, 2) + x, [c] + Fixed(b, 2) + y)
  {
    assert Pow10(2) == 100;
    FixedFieldOrder(a, b, 2, x, y);
    BelowAfter([c], Fixed(a, 2) + x, Fixed(b, 2) + y);
    assert [c] + Fixed(a, 2) + x == [c] + (Fixed(a, 2) + x);
    assert [c] + Fixed(b, 2) + y == [c] + (Fixed(b, 2) + y);
  }

  predicate EarlierClock(a: Clock, b: Clock) {
    Earlier(a.date, b.date) || (a.date == b.date
      && (a.hour < b.hour || (a.hour == b.hour && (a.min < b.min || (a.min == b.min && a.sec < b.sec)))))
  }

  lemma ClockTextOrder(a: Clock, b: Clock)
    requires Proper(a) && Proper(b) && b.date.year < 10000 && EarlierClock(a, b)
    ensures Below(ClockText(a), ClockText(b))
  {
    ClockTextIsFixed(a);
    ClockTextIsFixed(b);
    hide ClockText, Fixed, Below;
    TimeTextOrder(a, b);
    if a.date.year == b.date.year && a.date.month == b.date.month {
      NextFieldOrder('-', a.date.day, b.date.day, TimeText(a), TimeText(b));
    }
    var da, db := "-" + Fixed(a.date.day, 2) + TimeText(a), "-" + Fixed(b.date.day, 2) + TimeText(b);
    if a.date.year == b.date.year {
      NextFieldOrder('-', a.date.month, b.date.month, da, db);
    }
    assert Pow10(4) == 10000;
    var ma, mb := "-" + Fixed(a.date.month, 2) + da, "-" + Fixed(b.date.month, 2) + db;
    FixedFieldOrder(a.date.year, b.date.year, 4, ma, mb);
    assert FixedText(a) == Fixed(a.date.year, 4) + ma;
    assert FixedText(b) == Fixed(b.date.year, 4) + mb;
  }

  function TimeText(c: Clock): string {
    "T" + Fixed(c.hour, 2) + (":" + Fixed(c.min, 2) + (":" + Fixed(c.sec, 2) + "Z"))
  }

  lemma TimeTextOrder(a: Clock, b: Clock)
    requires Proper(a) && Proper(b)
    ensures a.date == b.date && EarlierClock(a, b) ==> Below(TimeText(a), TimeText(b))
  {
    hide Fixed, Below;
    if a.date == b.date && EarlierClock(a, b) {
      if a.hour == b.hour && a.min == b.min {
        NextFieldOrder(':', a.sec, b.sec, "Z", "Z");
      }
      var sa, sb := ":" + Fixed(a.sec, 2) + "Z", ":" + Fixed(b.sec, 2) + "Z";
      if a.hour == b.hour {
        NextFieldOrder(':', a.min, b.min, sa, sb);
      }
      NextFieldOrder('T', a.hour, b.hour, ":" + Fixed(a.min, 2) + sa, ":" + Fixed(b.min, 2) + sb);
    }
  }

  lemma ClockMonotone(s1: u64, s2: u64)
    requires s1 < s2
    ensures EarlierClock(ToClock(s1), ToClock(s2))
  {
    var d1, d2 := s1 / 86400, s2 / 86400;
    DaysToYmdIsNthDate(d1);
    DaysToYmdIsNthDate(d2);
    if d1 < d2 {
      NthDateMonotone(d1, d2);
    }
    SecondsRecombine(s1);
    SecondsRecombine(s2);
    ClockOrder(d1, s1 / 3600 % 24, s1 / 60 % 60, s1 % 60, d2, s2 / 3600 % 24, s2 / 60 % 60, s2 % 60);
    hide DaysToYmd;
  }

  lemma ClockOrder(d1: nat, h1: nat, m1: nat, x1: nat, d2: nat, h2: nat, m2: nat, x2: nat)
    requires h1 < 24 && m1 < 60 && x1 < 60 && h2 < 24 && m2 < 60 && x2 < 60
    requires d1 * 86400 + h1 * 3600 + m1 * 60 + x1 < d2 * 86400 + h2 * 3600 + m2 * 60 + x2
    ensures d1 < d2 || (d1 == d2 && (h1 < h2 || (h1 == h2 && (m1 < m2 || (m1 == m2 && x1 < x2)))))
  {
  }

  /** Before the year 10000, later seconds have greater texts. */
  lemma TextOrder(s1: u64, s2: u64)
    requires s1 < s2 < YEAR_10000
    ensures Below(Text(s1), Text(s2))
  {
    ClockIsProper(s1);
    ClockIsProper(s2);
    ClockMonotone(s1, s2);
    ClockTextOrder(ToClock(s1), ToClock(s2));
  }
}
