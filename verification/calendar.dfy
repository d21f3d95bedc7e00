/**
 * Naive calendar days. The application stores dates as PostgreSQL `DATE`
 * values and handles them in JavaScript as local-midnight `Date` objects or
 * `YYYY-MM-DD` strings; here a day is its number counted from 0001-01-01
 * (day 0, a Monday) in the proleptic Gregorian calendar.
 */
module Calendar {
  import opened Wrappers
  import opened Text
  import opened JsNumber

  /** A calendar day: days elapsed since 0001-01-01. */
  type Day = nat

  predicate IsLeapYear(y: int) {
    y % 4 == 0 && (y % 100 != 0 || y % 400 == 0)
  }

  function DaysInYear(y: int): int {
    if IsLeapYear(y) then 366 else 365
  }

  function DaysInMonth(y: int, m: int): int
    requires 1 <= m <= 12
  {
    if m == 2 then (if IsLeapYear(y) then 29 else 28)
    else if m == 4 || m == 6 || m == 9 || m == 11 then 30
    else 31
  }

  /** Days of year `y` that precede the first of month `m`. */
  function DaysBeforeMonth(y: int, m: int): int
    requires 1 <= m <= 12
  {
    (if m == 1 then 0 else if m == 2 then 31 else if m == 3 then 59
     else if m == 4 then 90 else if m == 5 then 120 else if m == 6 then 151
     else if m == 7 then 181 else if m == 8 then 212 else if m == 9 then 243
     else if m == 10 then 273 else if m == 11 then 304 else 334)
    + (if m > 2 && IsLeapYear(y) then 1 else 0)
  }

  /** Days from 0001-01-01 to the first of January of year `y`. */
  function DaysBeforeYear(y: int): nat
    requires y >= 1
  {
    365 * (y - 1) + (y - 1) / 4 - (y - 1) / 100 + (y - 1) / 400
  }

  lemma MonthStep(y: int, m: int)
    requires 1 <= m < 12
    ensures DaysBeforeMonth(y, m + 1) == DaysBeforeMonth(y, m) + DaysInMonth(y, m)
  {
  }

  lemma DecemberEndsYear(y: int)
    ensures DaysBeforeMonth(y, 12) + DaysInMonth(y, 12) == DaysInYear(y)
  {
  }

  lemma YearStep(y: int)
    requires y >= 1
    ensures DaysBeforeYear(y + 1) == DaysBeforeYear(y) + DaysInYear(y)
  {
    var k := y - 1;
    StepBy4(k);
    StepBy100(k);
    StepBy400(k);
    LeapIndicators(y);
  }

  lemma StepBy4(k: int)
    ensures (k + 1) / 4 - k / 4 == (if (k + 1) % 4 == 0 then 1 else 0)
  {
  }

  lemma StepBy100(k: int)
    ensures (k + 1) / 100 - k / 100 == (if (k + 1) % 100 == 0 then 1 else 0)
  {
  }

  lemma StepBy400(k: int)
    ensures (k + 1) / 400 - k / 400 == (if (k + 1) % 400 == 0 then 1 else 0)
  {
  }

  /** A year's length from its divisibility by 4, 100 and 400. */
  lemma LeapIndicators(y: int)
    ensures DaysInYear(y) == 365 + (if y % 4 == 0 then 1 else 0) - (if y % 100 == 0 then 1 else 0)
                                 + (if y % 400 == 0 then 1 else 0)
  {
    if y % 400 == 0 {
      var q := y / 400;
      assert y == 100 * (4 * q);
      assert y == 4 * (100 * q);
    } else if y % 100 == 0 {
      var q := y / 100;
      assert y == 4 * (25 * q);
    }
  }

  lemma {:induction false} YearsAscend(y1: int, y2: int)
    requires 1 <= y1 < y2
    ensures DaysBeforeYear(y1) + DaysInYear(y1) <= DaysBeforeYear(y2)
    decreases y2 - y1
  {
    YearStep(y1);
    if y1 + 1 < y2 {
      YearsAscend(y1 + 1, y2);
    }
  }

  lemma {:induction false} MonthsAscend(y: int, m1: int, m2: int)
    requires 1 <= m1 < m2 <= 12
    ensures DaysBeforeMonth(y, m1) + DaysInMonth(y, m1) <= DaysBeforeMonth(y, m2)
    decreases m2 - m1
  {
    MonthStep(y, m1);
    if m1 + 1 < m2 {
      MonthsAscend(y, m1 + 1, m2);
    }
  }

  datatype Date = Date(year: int, month: int, day: int)

  predicate ValidDate(d: Date) {
    d.year >= 1 && 1 <= d.month <= 12 && 1 <= d.day <= DaysInMonth(d.year, d.month)
  }

  /** The day number of a valid calendar date. */
  function DayNumber(d: Date): Day
    requires ValidDate(d)
  {
    DaysBeforeYear(d.year) + DaysBeforeMonth(d.year, d.month) + d.day - 1
  }

  /** The date `rem` days into year `y` counted from its first day of month `m`. */
  function MonthFrom(y: int, m: int, rem: nat): (d: Date)
    requires y >= 1 && 1 <= m <= 12
    requires DaysBeforeMonth(y, m) + rem < DaysInYear(y)
    ensures ValidDate(d) && d.year == y && m <= d.month
    ensures DaysBeforeMonth(y, d.month) + d.day - 1 == DaysBeforeMonth(y, m) + rem
    decreases 12 - m
  {
    DecemberEndsYear(y);
    if rem < DaysInMonth(y, m) then Date(y, m, rem + 1)
    else
      MonthStep(y, m);
      MonthFrom(y, m + 1, rem - DaysInMonth(y, m))
  }

  /** The date `rem` days after the first of January of year `y`. */
  function YearFrom(y: int, rem: nat): (d: Date)
    requires y >= 1
    ensures ValidDate(d) && DayNumber(d) == DaysBeforeYear(y) + rem
    decreases rem
  {
    if rem < DaysInYear(y) then MonthFrom(y, 1, rem)
    else
      YearStep(y);
      YearFrom(y + 1, rem - DaysInYear(y))
  }

  /** The calendar date of a day number: the inverse of `DayNumber`. */
  function CivilDate(n: Day): (d: Date)
    ensures ValidDate(d) && DayNumber(d) == n
  {
    YearFrom(1, n)
  }

  lemma YearOfDay(d: Date)
    requires ValidDate(d)
    ensures DaysBeforeYear(d.year) <= DayNumber(d) < DaysBeforeYear(d.year) + DaysInYear(d.year)
  {
    if d.month < 12 {
      MonthsAscend(d.year, d.month, 12);
    }
    DecemberEndsYear(d.year);
  }

  /** Distinct valid dates have distinct day numbers. */
  lemma DayNumberInjective(d1: Date, d2: Date)
    requires ValidDate(d1) && ValidDate(d2) && DayNumber(d1) == DayNumber(d2)
    ensures d1 == d2
  {
    YearOfDay(d1);
    YearOfDay(d2);
    if d1.year < d2.year {
      YearsAscend(d1.year, d2.year);
    } else if d2.year < d1.year {
      YearsAscend(d2.year, d1.year);
    }
    assert d1.year == d2.year;
    if d1.month < d2.month {
      MonthsAscend(d1.year, d1.month, d2.month);
    } else if d2.month < d1.month {
      MonthsAscend(d1.year, d2.month, d1.month);
    }
  }

  /** `CivilDate` undoes `DayNumber`. */
  lemma CivilOfDayNumber(d: Date)
    requires ValidDate(d)
    ensures CivilDate(DayNumber(d)) == d
  {
    DayNumberInjective(CivilDate(DayNumber(d)), d);
  }

  // ---------------------------------------------------------------- weekdays

  /** `Date.prototype.getDay`: 0 is Sunday, 1 is Monday, … 6 is Saturday. */
  function Weekday(n: Day): (w: int)
    ensures 0 <= w < 7
    ensures w == 1 <==> n % 7 == 0
  {
    (n + 1) % 7
  }

  /** Anchors the weekday numbering: 1970-01-01 was a Thursday, 2024-01-01 a Monday. */
  lemma WeekdayAnchors()
    ensures Weekday(DayNumber(Date(1970, 1, 1))) == 4
    ensures Weekday(DayNumber(Date(2024, 1, 1))) == 1
  {
  }

  // ---------------------------------------------------------------- JavaScript dates

  /** `ToIntegerOrInfinity` on a finite number: truncation toward zero. */
  function Trunc(x: real): (i: int)
    ensures x >= 0.0 ==> i == x.Floor
    ensures x < 0.0 ==> i == -((-x).Floor)
  {
    if x >= 0.0 then x.Floor else -((-x).Floor)
  }

  /**
   * The last day a JavaScript `Date` can hold. A time value is limited to
   * 8.64e15 ms, that is 100,000,000 days, after 1970-01-01, which is
   * 275760-09-13; a later day is an Invalid Date.
   */
  const LastJsDay: Day := 100719162

  lemma LastJsDayIs()
    ensures LastJsDay == DayNumber(Date(1970, 1, 1)) + 100000000
    ensures LastJsDay == DayNumber(Date(275760, 9, 13))
  {
  }

  /** Every day of a year with at most four digits is a JavaScript date. */
  lemma FourDigitYearFits(d: Date)
    requires ValidDate(d) && d.year <= 9999
    ensures DayNumber(d) <= LastJsDay
  {
    YearOfDay(d);
  }

  /**
   * `new Date(y, monthIndex, day)` read as a calendar day: arguments are
   * truncated, years 0..99 mean 1900..1999, and month and day overflow into
   * the following (or preceding) months and years. `None` is an Invalid
   * Date, past `LastJsDay`, or a day before 0001-01-01, which lies outside
   * this model.
   */
  function MakeDate(y: real, monthIndex: real, day: real): (r: Option<Day>)
    ensures r.Some? ==> r.value <= LastJsDay
  {
    var yi := Trunc(y);
    var yr := if 0 <= yi <= 99 then 1900 + yi else yi;
    var mi := Trunc(monthIndex);
    var ym := yr + mi / 12;
    var mn := mi % 12;
    if ym < 1 then None
    else
      var t := DaysBeforeYear(ym) + DaysBeforeMonth(ym, mn + 1) + Trunc(day) - 1;
      if t < 0 || t > LastJsDay then None else Some(t)
  }

  /** For a valid date from year 100 on, `new Date(y, m - 1, d)` is exactly
    * that day, or an Invalid Date past the last day JavaScript can hold. */
  lemma MakeDateOfValid(d: Date)
    requires ValidDate(d) && d.year >= 100
    ensures MakeDate(d.year as real, (d.month - 1) as real, d.day as real) ==
            if DayNumber(d) <= LastJsDay then Some(DayNumber(d)) else None
  {
    InRangeMonth(d.year, d.month, d.day);
  }

  /** Years written with one or two digits are read as 19xx. */
  lemma MakeDateTwoDigitYear(y: int, m: int, dd: int)
    requires 0 <= y <= 99 && ValidDate(Date(1900 + y, m, dd))
    ensures MakeDate(y as real, (m - 1) as real, dd as real) == Some(DayNumber(Date(1900 + y, m, dd)))
  {
    InRangeMonth(y, m, dd);
    FourDigitYearFits(Date(1900 + y, m, dd));
  }

  /** A date read as `new Date(y, m - 1, d)` of a valid date is that day,
    * when JavaScript can hold it. */
  lemma ConstructedValid(read: Option<Day>, y: nat, m: nat, d: nat)
    requires ValidDate(Date(y, m, d)) && y >= 100
    requires read == MakeDate(y as real, (m - 1) as real, d as real)
    ensures read == if DayNumber(Date(y, m, d)) <= LastJsDay then Some(DayNumber(Date(y, m, d))) else None
  {
    MakeDateOfValid(Date(y, m, d));
  }

  /** A date read as `new Date(y, m - 1, d)` with `y` below 100 is that day
    * of year `1900 + y`. */
  lemma ConstructedTwoDigit(read: Option<Day>, y: nat, m: nat, d: nat)
    requires y <= 99 && ValidDate(Date(1900 + y, m, d))
    requires read == MakeDate(y as real, (m - 1) as real, d as real)
    ensures read == Some(DayNumber(Date(1900 + y, m, d)))
  {
    MakeDateTwoDigitYear(y, m, d);
  }

  /** Whole-number arguments with a month index in 0..11: nothing carries. */
  lemma InRangeMonth(y: int, m: int, dd: int)
    requires 1 <= m <= 12
    ensures Trunc(y as real) == y && Trunc((m - 1) as real) == m - 1 && Trunc(dd as real) == dd
    ensures (m - 1) / 12 == 0 && (m - 1) % 12 == m - 1
  {
    TruncOfInt(y);
    TruncOfInt(m - 1);
    TruncOfInt(dd);
  }

  lemma TruncOfInt(k: int)
    ensures Trunc(k as real) == k
  {
    if k < 0 {
      assert -(k as real) == (-k) as real;
    }
  }

  /** Day 30 of February rolls over into March. */
  lemma MakeDateRollsOver()
    ensures MakeDate(2025.0, 1.0, 30.0) == Some(DayNumber(Date(2025, 3, 2)))
  {
    assert Trunc(2025.0) == 2025 && Trunc(1.0) == 1 && Trunc(30.0) == 30;
  }

  /** Month index 12 is January of the next year; day 0 is the last day of the previous month. */
  lemma MakeDateCarriesMonthsAndDays()
    ensures MakeDate(2025.0, 12.0, 1.0) == Some(DayNumber(Date(2026, 1, 1)))
    ensures MakeDate(2025.0, 0.0, 0.0) == Some(DayNumber(Date(2024, 12, 31)))
  {
    assert Trunc(2025.0) == 2025 && Trunc(12.0) == 12 && Trunc(1.0) == 1;
    assert Trunc(0.0) == 0;
  }

  // ---------------------------------------------------------------- ISO strings

  /** `toISO`: `${year}-${MM}-${DD}`, the year printed without padding. */
  function ToISO(n: Day): string {
    var d := CivilDate(n);
    NatToDecimal(d.year) + "-" + Pad2(d.month) + "-" + Pad2(d.day)
  }

  /**
   * `fromISO`: split on '-', convert the first three pieces with `Number`,
   * and build `new Date(y, m - 1, d)`. `None` stands for an Invalid Date
   * (a missing or non-numeric piece).
   */
  function FromISO(s: string): Option<Day> {
    DateOfPieces(Split(s, '-'))
  }

  /** The date the first three pieces name; a missing piece reads as NaN. */
  function DateOfPieces(parts: seq<string>): Option<Day>
    requires |parts| >= 1
  {
    var y := NumberOf(parts[0]);
    var m := if |parts| > 1 then NumberOf(parts[1]) else None;
    var d := if |parts| > 2 then NumberOf(parts[2]) else None;
    if y.None? || m.None? || d.None? then None
    else MakeDate(y.value, m.value - 1.0, d.value)
  }

  lemma {:induction false} DigitsHaveNoDash(s: string)
    requires AllDigits(s)
    ensures Count(s, '-') == 0
  {
    if |s| > 0 {
      DigitsHaveNoDash(s[1..]);
    }
  }

  /** Reading the pieces of `ys-ms-ds` converts each piece with `Number`. */
  lemma {:induction false} FromISODigits(ys: string, ms: string, ds: string, y: nat, m: nat, d: nat)
    requires |ys| >= 1 && |ms| >= 1 && |ds| >= 1
    requires AllDigits(ys) && AllDigits(ms) && AllDigits(ds)
    requires DigitsValue(ys) == y && DigitsValue(ms) == m && DigitsValue(ds) == d
    ensures FromISO(ys + "-" + ms + "-" + ds) == MakeDate(y as real, (m - 1) as real, d as real)
  {
    DigitsHaveNoDash(ys);
    DigitsHaveNoDash(ms);
    DigitsHaveNoDash(ds);
    SplitThree(ys, ms, ds, '-');
    NumberOfDigits(ys);
    NumberOfDigits(ms);
    NumberOfDigits(ds);
    FromISOOfParts(ys + "-" + ms + "-" + ds, ys, ms, ds, y as real, m as real, d as real);
    assert m as real - 1.0 == (m - 1) as real;
  }

  /** Three numeric pieces are handed to the date constructor, the month
    * made an index from 0. */
  lemma {:induction false} FromISOOfParts(s: string, a: string, b: string, c: string, y: real, m: real, d: real)
    requires Split(s, '-') == [a, b, c]
    requires NumberOf(a) == Some(y) && NumberOf(b) == Some(m) && NumberOf(c) == Some(d)
    ensures FromISO(s) == MakeDate(y, m - 1.0, d)
  {
    assert FromISO(s) == DateOfPieces([a, b, c]);
  }

  /** Reading the pieces of `ys-ms-ds` yields the date they spell, or an
    * Invalid Date past the last day JavaScript can hold. */
  lemma {:induction false} FromISOPieces(ys: string, ms: string, ds: string)
    requires |ys| >= 1 && |ms| >= 1 && |ds| >= 1
    requires AllDigits(ys) && AllDigits(ms) && AllDigits(ds)
    requires ValidDate(Date(DigitsValue(ys), DigitsValue(ms), DigitsValue(ds)))
    requires DigitsValue(ys) >= 100
    ensures var n := DayNumber(Date(DigitsValue(ys), DigitsValue(ms), DigitsValue(ds)));
            FromISO(ys + "-" + ms + "-" + ds) == if n <= LastJsDay then Some(n) else None
  {
    ISOPiecesDay(ys, ms, ds, DigitsValue(ys), DigitsValue(ms), DigitsValue(ds));
  }

  /** `FromISOPieces` with the pieces' values named. */
  lemma ISOPiecesDay(ys: string, ms: string, ds: string, y: nat, m: nat, d: nat)
    requires |ys| >= 1 && |ms| >= 1 && |ds| >= 1
    requires AllDigits(ys) && AllDigits(ms) && AllDigits(ds)
    requires DigitsValue(ys) == y && DigitsValue(ms) == m && DigitsValue(ds) == d
    requires ValidDate(Date(y, m, d)) && y >= 100
    ensures FromISO(ys + "-" + ms + "-" + ds) ==
            if DayNumber(Date(y, m, d)) <= LastJsDay then Some(DayNumber(Date(y, m, d))) else None
  {
    FromISODigits(ys, ms, ds, y, m, d);
    ConstructedValid(FromISO(ys + "-" + ms + "-" + ds), y, m, d);
  }

  /** `fromISO(toISO(d))` is `d` for every day from year 100 on that
    * JavaScript can hold; past it the text reads as an Invalid Date. */
  lemma ISORoundTrip(n: Day)
    requires CivilDate(n).year >= 100
    ensures FromISO(ToISO(n)) == if n <= LastJsDay then Some(n) else None
  {
    var d := CivilDate(n);
    var ys := NatToDecimal(d.year);
    var ms := Pad2(d.month);
    var ds := Pad2(d.day);
    DecimalThenDigits(d.year);
    Pad2Value(d.month);
    Pad2Value(d.day);
    FromISOPieces(ys, ms, ds);
  }

  /**
   * `toISO(fromISO(s))` is `s` for every zero-padded `YYYY-MM-DD` naming a
   * real date whose year has four significant digits. (Years 0000..0099
   * read as 1900..1999, and years below 1000 print with fewer digits.)
   */
  lemma {:induction false} ISOStringRoundTrip(ys: string, ms: string, ds: string)
    requires |ys| == 4 && |ms| == 2 && |ds| == 2
    requires AllDigits(ys) && AllDigits(ms) && AllDigits(ds) && ys[0] != '0'
    requires ValidDate(Date(DigitsValue(ys), DigitsValue(ms), DigitsValue(ds)))
    ensures FromISO(ys + "-" + ms + "-" + ds).Some?
    ensures ToISO(FromISO(ys + "-" + ms + "-" + ds).value) == ys + "-" + ms + "-" + ds
  {
    var d := Date(DigitsValue(ys), DigitsValue(ms), DigitsValue(ds));
    LeadingDigitBound(ys);
    assert DigitsValue(ys) >= 1000 by {
      FourDigitsValue(ys);
    }
    FromISOPieces(ys, ms, ds);
    FourDigitsBelow(ys);
    FourDigitYearFits(d);
    CivilOfDayNumber(d);
    DigitsThenDecimal(ys);
    Pad2OfDigits(ms);
    Pad2OfDigits(ds);
  }

  lemma {:induction false} LeadingDigitScale(s: string)
    requires |s| >= 1 && AllDigits(s)
    ensures DigitsValue(s) >= DigitValue(s[0]) * Pow10(|s| - 1)
    decreases |s|
  {
    if |s| > 1 {
      var p := s[..|s| - 1];
      LeadingDigitScale(p);
      assert p[0] == s[0];
      ScaleByTen(DigitsValue(s), DigitsValue(p), DigitValue(s[0]), Pow10(|p| - 1));
    }
  }

  /** One more digit multiplies the leading digit's weight by ten. */
  lemma ScaleByTen(v: int, w: int, a: int, q: int)
    requires v >= w * 10 && w >= a * q
    ensures v >= a * (10 * q)
  {
    assert a * (10 * q) == (a * q) * 10;
  }

  /** `n` digits spell a number below `10^n`. */
  lemma {:induction false} DigitsBelow(s: string)
    requires AllDigits(s)
    ensures DigitsValue(s) < Pow10(|s|)
    decreases |s|
  {
    if |s| > 0 {
      DigitsBelow(s[..|s| - 1]);
    }
  }

  /** Four digits spell at most 9999. */
  lemma FourDigitsBelow(s: string)
    requires |s| == 4 && AllDigits(s)
    ensures DigitsValue(s) <= 9999
  {
    DigitsBelow(s);
    assert Pow10(4) == 10000;
  }

  lemma {:induction false} FourDigitsValue(s: string)
    requires |s| == 4 && AllDigits(s)
    ensures DigitsValue(s) >= DigitValue(s[0]) * 1000
  {
    LeadingDigitScale(s);
    assert Pow10(3) == 1000;
  }

  /**
   * Years below 100 do not survive the string round trip: `fromISO` of a
   * year written as `0050` lands in 1950.
   */
  lemma TwoDigitYearQuirk(ys: string, ms: string, ds: string, y: nat, m: nat, d: nat)
    requires |ys| >= 1 && |ms| >= 1 && |ds| >= 1
    requires AllDigits(ys) && AllDigits(ms) && AllDigits(ds)
    requires DigitsValue(ys) == y && DigitsValue(ms) == m && DigitsValue(ds) == d
    requires y <= 99 && ValidDate(Date(1900 + y, m, d))
    ensures FromISO(ys + "-" + ms + "-" + ds) == Some(DayNumber(Date(1900 + y, m, d)))
  {
    FromISODigits(ys, ms, ds, y, m, d);
    ConstructedTwoDigit(FromISO(ys + "-" + ms + "-" + ds), y, m, d);
  }

  // ---------------------------------------------------------------- period starts

  /** The Monday on or before `n` (JavaScript: `addDays(d, -((getDay + 6) % 7))`). */
  function WeekStart(n: Day): (r: Day)
    ensures Weekday(r) == 1
    ensures n - 6 <= r <= n
  {
    n - (Weekday(n) + 6) % 7
  }

  /** The first day of the month containing `n`. */
  function MonthStart(n: Day): (r: Day)
    ensures r <= n
  {
    var d := CivilDate(n);
    DayNumber(Date(d.year, d.month, 1))
  }

  /** The first of January of the year containing `n`. */
  function YearStart(n: Day): (r: Day)
    ensures r <= n
  {
    var d := CivilDate(n);
    YearOfDay(d);
    DayNumber(Date(d.year, 1, 1))
  }

  lemma MonthStartIsFirst(n: Day)
    ensures CivilDate(MonthStart(n)) == Date(CivilDate(n).year, CivilDate(n).month, 1)
    ensures n - MonthStart(n) == CivilDate(n).day - 1
  {
    var d := CivilDate(n);
    CivilOfDayNumber(Date(d.year, d.month, 1));
  }

  lemma YearStartIsFirst(n: Day)
    ensures CivilDate(YearStart(n)) == Date(CivilDate(n).year, 1, 1)
  {
    var d := CivilDate(n);
    CivilOfDayNumber(Date(d.year, 1, 1));
  }

  /** Two days fall in the same month exactly when their month starts agree. */
  lemma SameMonthIff(a: Day, b: Day)
    ensures MonthStart(a) == MonthStart(b) <==>
            CivilDate(a).year == CivilDate(b).year && CivilDate(a).month == CivilDate(b).month
  {
    MonthStartIsFirst(a);
    MonthStartIsFirst(b);
  }

  /** Two days fall in the same year exactly when their year starts agree. */
  lemma SameYearIff(a: Day, b: Day)
    ensures YearStart(a) == YearStart(b) <==> CivilDate(a).year == CivilDate(b).year
  {
    YearStartIsFirst(a);
    YearStartIsFirst(b);
  }

  /** Period starts are fixed points: the start of a start is itself. */
  lemma WeekStartIdempotent(n: Day)
    ensures WeekStart(WeekStart(n)) == WeekStart(n)
  {
  }

  lemma MonthStartIdempotent(n: Day)
    ensures MonthStart(MonthStart(n)) == MonthStart(n)
  {
    MonthStartIsFirst(n);
  }

  lemma YearStartIdempotent(n: Day)
    ensures YearStart(YearStart(n)) == YearStart(n)
  {
    YearStartIsFirst(n);
  }
}
