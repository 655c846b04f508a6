/** The day-count to date conversion of the bundler, against the calendar it stands for. */
module Calendar {
  import opened Bytes

  datatype Date = Date(year: nat, month: nat, day: nat)

  // ---- The Gregorian calendar, one day at a time (RFC 3339, section 5.7 and appendix C) ----

  predicate Leap(y: nat) {
    y % 4 == 0 && (y % 100 != 0 || y % 400 == 0)
  }

  function MonthLength(y: nat, m: nat): nat {
    if m == 2 then (if Leap(y) then 29 else 28)
    else if m == 4 || m == 6 || m == 9 || m == 11 then 30
    else 31
  }

  predicate Valid(d: Date) {
    1 <= d.month <= 12 && 1 <= d.day <= MonthLength(d.year, d.month)
  }

  const EPOCH := Date(1970, 1, 1)

  function NextDay(d: Date): (r: Date)
    requires Valid(d)
    ensures Valid(r) && r.year >= d.year
  {
    if d.day < MonthLength(d.year, d.month) then d.(day := d.day + 1)
    else if d.month < 12 then Date(d.year, d.month + 1, 1)
    else Date(d.year + 1, 1, 1)
  }

  /** The date reached from 1970-01-01 by n steps of the calendar. */
  function NthDate(n: nat): (d: Date)
    ensures Valid(d) && d.year >= 1970
  {
    if n == 0 then EPOCH else NextDay(NthDate(n - 1))
  }

  // ---- The conversion ----

  /** Largest day count for which `days + 719468` does not leave u64. */
  const MAX_DAYS: u64 := TWO_TO_64 - 1 - 719468

  /** The bundler's conversion; every intermediate value has the width the code gives it. */
  function DaysToYmd(days: u64): Date
    requires days <= MAX_DAYS
  {
    var z: u64 := days + 719468;
    var era: u64 := z / 146097;
    var doe: u64 := z - era * 146097;
    EraSplit(z);
    var yoe: u64 := YearOfEra(doe);
    YearOfEraCorrect(doe);
    var y: u64 := yoe + era * 400;
    var doy: u64 := doe - (365 * yoe + yoe / 4 - yoe / 100);
    var mp: u64 := (5 * doy + 2) / 153;
    var d: u64 := doy - (153 * mp + 2) / 5 + 1;
    var m: u64 := if mp < 10 then mp + 3 else mp - 9;
    var y': u64 := if m <= 2 then y + 1 else y;
    Date(y', m, d)
  }

  lemma EraSplit(z: nat)
    ensures 0 <= z - (z / 146097) * 146097 < 146097
  {
  }

  /** The closed form for the year within a 400-year era. */
  function YearOfEra(doe: u64): u64
    requires doe < 146097
  {
    (doe - doe / 1460 + doe / 36524 - doe / 146096) / 365
  }

  /** First day, counted from 1 March of year 0, of the era's year yoe. */
  function YearStart(yoe: nat): nat {
    365 * yoe + yoe / 4 - yoe / 100
  }

  /** Length of the era's year yoe, which runs from 1 March and ends with February of the next. */
  function YearSpan(yoe: nat): nat {
    if Leap(yoe + 1) then 366 else 365
  }
  
  /** A day t of year 100c + 4q + r of the era, written by its century c and leap cycle q. */
  lemma YearOfEraInverts(c: nat, q: nat, r: nat, t: nat)
    requires c <= 3 && q <= 24 && r <= 3
    requires t < YearSpan(100 * c + 4 * q + r)
    ensures YearStart(100 * c + 4 * q + r) == 36524 * c + 1461 * q + 365 * r
    ensures 36524 * c + 1461 * q + 365 * r + t < 146097
    ensures YearOfEra(36524 * c + 1461 * q + 365 * r + t) == 100 * c + 4 * q + r
  {
    YearStartByCentury(c, q, r);
    LeapInEra(c, q, r);
    hide YearStart, Leap;
    var inCentury := 1461 * q + 365 * r + t;
    var doe := 36524 * c + inCentury;
    var k := if 24 * c + q + 365 * r + t < 1460 then 0 else 1;
    CenturiesOf(c, inCentury);
    QuotientIs(doe, 1460, 25 * c + q + k);
    YearFromParts(doe, 25 * c + q + k, c, 100 * c + 4 * q + r, t - k);
  }

  lemma CenturiesOf(c: nat, inCentury: nat)
    requires c <= 3 && (inCentury < 36524 || (inCentury == 36524 && c == 3))
    ensures (36524 * c + inCentury) / 36524 - (36524 * c + inCentury) / 146096 == c
  {
  }

  lemma YearFromParts(doe: nat, a: nat, c: nat, y: nat, t: nat)
    requires doe < 146097 && doe / 1460 == a && doe / 36524 - doe / 146096 == c
    requires doe - a + c == 365 * y + t && t < 365
    ensures YearOfEra(doe) == y
  {
    QuotientIs(365 * y + t, 365, y);
  }

  lemma QuotientIs(a: nat, b: nat, q: nat)
    requires b * q <= a < b * q + b
    ensures a / b == q
  {
    var p := a / b;
    assert b * p <= a < b * p + b;
    MulMonotone(b, p + 1, q);
    MulMonotone(b, q + 1, p);
  }

  lemma MulMonotone(b: nat, x: nat, y: nat)
    ensures x <= y ==> b * x <= b * y
  {
  }

  lemma YearStartByCentury(c: nat, q: nat, r: nat)
    requires c <= 3 && q <= 24 && r <= 3
    ensures YearStart(100 * c + 4 * q + r) == 36524 * c + 1461 * q + 365 * r
  {
    var y := 100 * c + 4 * q + r;
    assert y / 4 == 25 * c + q;
    assert y / 100 == c;
  }

  lemma LeapInEra(c: nat, q: nat, r: nat)
    requires c <= 3 && q <= 24 && r <= 3
    ensures Leap(100 * c + 4 * q + r + 1) <==> r == 3 && (q < 24 || c == 3)
  {
    var y := 100 * c + 4 * q + r + 1;
    assert y % 4 == (r + 1) % 4;
    if r == 3 && q == 24 {
      assert y == 100 * (c + 1);
    } else {
      assert y % 100 == 4 * q + r + 1;
    }
  }

  lemma YearOfEraCorrect(doe: u64)
    requires doe < 146097
    ensures YearOfEra(doe) < 400
    ensures YearStart(YearOfEra(doe)) <= doe < YearStart(YearOfEra(doe)) + YearSpan(YearOfEra(doe))
  {
    var c := if doe / 36524 > 3 then 3 else doe / 36524;
    var d := doe - 36524 * c;
    var q := d / 1461;
    var e := d - 1461 * q;
    var r := if e / 365 > 3 then 3 else e / 365;
    YearOfEraInverts(c, q, r, e - 365 * r);
  }

  // ---- The inverse, and the main results ----

  /** The year d belongs to when years start on 1 March. */
  function MarchYear(d: Date): nat
    requires Valid(d) && d.year >= 1
  {
    if d.month <= 2 then d.year - 1 else d.year
  }

  /** The number of days before month mp of a year that starts in March. */
  function DaysBeforeMonth(mp: nat): nat {
    (153 * mp + 2) / 5
  }

  function MarchMonth(d: Date): (mp: nat)
    requires Valid(d)
    ensures mp < 12 && d.month == (if mp < 10 then mp + 3 else mp - 9)
  {
    (d.month + 9) % 12
  }

  function MarchDay(d: Date): nat
    requires Valid(d)
  {
    DaysBeforeMonth(MarchMonth(d)) + d.day - 1
  }

  /** Days from 1 March of year 0 to 1 March of year y. */
  function DaysBeforeYear(y: nat): nat {
    365 * y + y / 4 - y / 100 + y / 400
  }

  /** Days from 1970-01-01 to d. */
  function DayNumber(d: Date): int
    requires Valid(d) && d.year >= 1
  {
    DaysBeforeYear(MarchYear(d)) + MarchDay(d) - 719468
  }

  lemma DaysBeforeNextYear(y: nat)
    ensures DaysBeforeYear(y + 1) == DaysBeforeYear(y) + (if Leap(y + 1) then 366 else 365)
  {
    StepQuotient(y, 4);
    StepQuotient(y, 100);
    StepQuotient(y, 400);
    assert (y + 1) % 400 == 0 ==> (y + 1) % 100 == 0;
    assert (y + 1) % 100 == 0 ==> (y + 1) % 4 == 0;
  }

  lemma StepQuotient(y: nat, k: nat)
    requires k == 4 || k == 100 || k == 400
    ensures (y + 1) / k == y / k + (if (y + 1) % k == 0 then 1 else 0)
  {
  }

  lemma DaysBeforeYearByEra(era: nat, yoe: nat)
    requires yoe < 400
    ensures DaysBeforeYear(400 * era + yoe) == 146097 * era + YearStart(yoe)
  {
    var y := 400 * era + yoe;
    assert y / 4 == 100 * era + yoe / 4;
    assert y / 100 == 4 * era + yoe / 100;
    assert y / 400 == era;
  }

  lemma RemainderShift(n: nat, x: nat, k: nat)
    requires k > 0
    ensures (k * n + x) % k == x % k
  {
    var q := x / k;
    assert k * (n + q) == k * n + k * q;
    QuotientIs(k * n + x, k, n + q);
  }

  lemma LeapByEra(era: nat, yoe: nat)
    ensures Leap(400 * era + yoe) <==> Leap(yoe)
  {
    RemainderShift(100 * era, yoe, 4);
    RemainderShift(4 * era, yoe, 100);
    RemainderShift(era, yoe, 400);
  }

  lemma MonthOfDay(mp: nat, d: nat)
    requires mp < 12 && 1 <= d <= 31
    requires DaysBeforeMonth(mp) + d - 1 < DaysBeforeMonth(mp + 1)
    ensures (5 * (DaysBeforeMonth(mp) + d - 1) + 2) / 153 == mp
  {
  }

  /** Every month but February fits between the starts the closed form gives. */
  lemma MonthLengthByMarch(d: Date)
    requires Valid(d)
    ensures d.month != 2 ==>
      DaysBeforeMonth(MarchMonth(d)) + MonthLength(d.year, d.month) == DaysBeforeMonth(MarchMonth(d) + 1)
    ensures MonthLength(d.year, 2) <= 29 && DaysBeforeMonth(0) == 0
    ensures DaysBeforeMonth(11) == 337 && DaysBeforeMonth(12) == 367
  {
    var mp := MarchMonth(d);
    if mp < 6 {
      assert mp == 0 || mp == 1 || mp == 2 || mp == 3 || mp == 4 || mp == 5;
    } else {
      assert mp == 6 || mp == 7 || mp == 8 || mp == 9 || mp == 10 || mp == 11;
    }
  }

  lemma MarchDayInSpan(d: Date)
    requires Valid(d) && d.year >= 1
    ensures MarchDay(d) < (if Leap(MarchYear(d) + 1) then 366 else 365)
  {
    MonthLengthByMarch(d);
  }

  lemma YearOfEraOfStart(yoe: nat, t: nat)
    requires yoe < 400 && t < YearSpan(yoe)
    ensures YearStart(yoe) + t < 146097 && YearOfEra(YearStart(yoe) + t) == yoe
  {
    var c, q, r := yoe / 100, yoe % 100 / 4, yoe % 4;
    assert yoe == 100 * c + 4 * q + r;
    hide YearStart, YearSpan, YearOfEra;
    YearOfEraInverts(c, q, r, t);
  }

  /** What the conversion returns, once its era, year, month and day are known. */
  lemma DaysToYmdParts(n: u64, era: nat, yoe: nat, t: nat, mp: nat, day: nat)
    requires n <= MAX_DAYS && (n + 719468) / 146097 == era
    requires n + 719468 - era * 146097 == YearStart(yoe) + t < 146097
    requires YearOfEra(YearStart(yoe) + t) == yoe
    requires (5 * t + 2) / 153 == mp < 12 && day >= 1 && t == DaysBeforeMonth(mp) + day - 1
    ensures DaysToYmd(n) == Date(400 * era + yoe + (if mp < 10 then 0 else 1), if mp < 10 then mp + 3 else mp - 9, day)
  {
    hide YearOfEra;
  }

  /** The closed form undoes the day number of every date from the epoch on. */
  lemma DayNumberInverts(d: Date)
    requires Valid(d) && d.year >= 1970 && DayNumber(d) <= MAX_DAYS
    ensures DayNumber(d) >= 0 && DaysToYmd(DayNumber(d)) == d
  {
    hide Leap, DaysBeforeYear, DaysBeforeMonth, MarchMonth, YearStart, DaysToYmd;
    var y, t := MarchYear(d), MarchDay(d);
    var era, yoe := y / 400, y % 400;
    EpochIsFirst(d);
    MarchDayInSpan(d);
    LeapByEra(era, yoe + 1);
    DaysBeforeYearByEra(era, yoe);
    YearOfEraOfStart(yoe, t);
    var doe := YearStart(yoe) + t;
    var z := DayNumber(d) + 719468;
    assert z == 146097 * era + doe;
    QuotientIs(z, 146097, era);
    MonthLengthByMarch(d);
    MonthOfDay(MarchMonth(d), d.day);
    DaysToYmdParts(DayNumber(d), era, yoe, t, MarchMonth(d), d.day);
  }

  lemma EpochDayNumber()
    ensures DayNumber(EPOCH) == 0
  {
    assert MarchYear(EPOCH) == 1969 && MarchMonth(EPOCH) == 10 && MarchDay(EPOCH) == 306;
  }

  lemma EpochIsFirst(d: Date)
    requires Valid(d) && d.year >= 1970
    ensures DayNumber(d) >= 0
  {
    var y := MarchYear(d);
    assert y / 4 - y / 100 >= 473;
  }

  lemma DayNumberOfNextDay(d: Date)
    requires Valid(d) && d.year >= 1
    ensures DayNumber(NextDay(d)) == DayNumber(d) + 1
  {
    hide Leap, DaysBeforeYear, DaysBeforeMonth, MarchMonth;
    MonthLengthByMarch(d);
    DaysBeforeNextYear(MarchYear(d));
  }

  lemma {:induction false} DayNumberOfNth(n: nat)
    ensures DayNumber(NthDate(n)) == n
  {
    EpochDayNumber();
    hide DayNumber;
    if n > 0 {
      DayNumberOfNth(n - 1);
      DayNumberOfNextDay(NthDate(n - 1));
    }
  }

  /** The conversion of n is the date n calendar steps after 1970-01-01. */
  lemma DaysToYmdIsNthDate(n: u64)
    requires n <= MAX_DAYS
    ensures DaysToYmd(n) == NthDate(n)
  {
    DayNumberOfNth(n);
    DayNumberInverts(NthDate(n));
  }

  function PreviousDay(d: Date): (p: Date)
    requires Valid(d) && d.year >= 1970 && d != EPOCH
    ensures Valid(p) && p.year >= 1970 && NextDay(p) == d
  {
    if d.day > 1 then d.(day := d.day - 1)
    else if d.month > 1 then Date(d.year, d.month - 1, MonthLength(d.year, d.month - 1))
    else Date(d.year - 1, 12, 31)
  }

  lemma DayNumberOfPreviousDay(d: Date)
    requires Valid(d) && d.year >= 1970 && d != EPOCH
    ensures DayNumber(PreviousDay(d)) == DayNumber(d) - 1 >= 0
  {
    hide DayNumber;
    DayNumberOfNextDay(PreviousDay(d));
    EpochIsFirst(PreviousDay(d));
  }

  /** The date n steps on from the epoch, told by its day number. */
  lemma {:induction false} ReachedAfter(d: Date, n: nat)
    requires Valid(d) && d.year >= 1970 && DayNumber(d) == n
    ensures NthDate(n) == d
    decreases n
  {
    EpochDayNumber();
    hide DayNumber;
    if d != EPOCH {
      DayNumberOfPreviousDay(d);
      hide PreviousDay;
      ReachedAfter(PreviousDay(d), n - 1);
    }
  }

  /** Every valid date from 1970-01-01 on is reached, by exactly as many steps as its day number. */
  lemma EveryDateIsReached(d: Date)
    requires Valid(d) && d.year >= 1970
    ensures DayNumber(d) >= 0 && NthDate(DayNumber(d)) == d
  {
    EpochIsFirst(d);
    hide DayNumber;
    ReachedAfter(d, DayNumber(d));
  }

  /** The conversion is a bijection between day counts and the dates of the calendar. */
  lemma DaysToYmdBijective(m: u64, n: u64, d: Date)
    requires m <= MAX_DAYS && n <= MAX_DAYS
    requires Valid(d) && d.year >= 1970
    ensures DaysToYmd(m) == DaysToYmd(n) ==> m == n
    ensures DaysToYmd(n) == d <==> DayNumber(d) == n
  {
    DaysToYmdIsNthDate(m);
    DaysToYmdIsNthDate(n);
    DayNumberOfNth(m);
    DayNumberOfNth(n);
    EveryDateIsReached(d);
  }

  /** 146097 days later is the same month and day, 400 years on. */
  lemma FourHundredYears(n: u64)
    requires n <= MAX_DAYS - 146097
    ensures DaysToYmd(n + 146097) == DaysToYmd(n).(year := DaysToYmd(n).year + 400)
  {
    var z := n + 719468;
    QuotientIs(z + 146097, 146097, z / 146097 + 1);
  }
}
