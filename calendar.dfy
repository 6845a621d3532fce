/**
 * Calendar dates, the day-key string `YYYY-MM-DD` that both clients use to
 * partition their stores, and day numbers (days since 1970-01-01 in the
 * proleptic Gregorian calendar, year 0 included as JavaScript's
 * `getFullYear` counts it).
 *
 * Which calendar reference the fields come from is the caller's choice:
 * src/App.jsx reads the local-time fields of `new Date()`, app.js the UTC
 * fields. Both pass them in as a `Date`.
 */
module Calendar {
  import opened Wrappers
  import opened Js

  datatype Date = Date(year: int, month: int, day: int)

  predicate IsLeapYear(y: int) {
    y % 4 == 0 && (y % 100 != 0 || y % 400 == 0)
  }

  function DaysInMonth(y: int, m: int): int
    requires 1 <= m <= 12
  {
    if m == 2 then (if IsLeapYear(y) then 29 else 28)
    else if m == 4 || m == 6 || m == 9 || m == 11 then 30
    else 31
  }

  predicate IsValid(d: Date) {
    1 <= d.month <= 12 && 1 <= d.day <= DaysInMonth(d.year, d.month)
  }

  /** A date whose year is written with exactly four digits. */
  predicate HasFourDigitYear(d: Date) {
    1000 <= d.year <= 9999
  }

  function DaysInYear(y: int): int {
    if IsLeapYear(y) then 366 else 365
  }

  /** Leap years in 1..n (negative for n < 0, so that differences count correctly). */
  function LeapYearsThrough(n: int): int {
    n / 4 - n / 100 + n / 400
  }

  function DaysBeforeYear(y: int): int {
    365 * (y - 1970) + LeapYearsThrough(y - 1) - LeapYearsThrough(1969)
  }

  function DaysBeforeMonth(y: int, m: int): int
    requires 1 <= m <= 12
  {
    [0, 31, 59, 90, 120, 151, 181, 212, 243, 273, 304, 334][m - 1]
      + (if m > 2 && IsLeapYear(y) then 1 else 0)
  }

  /** Days since 1970-01-01. */
  function DayNumber(d: Date): int
    requires IsValid(d)
  {
    DaysBeforeYear(d.year) + DaysBeforeMonth(d.year, d.month) + d.day - 1
  }

  /** The calendar day before `d`. */
  function Previous(d: Date): Date
    requires IsValid(d)
  {
    if d.day > 1 then Date(d.year, d.month, d.day - 1)
    else if d.month > 1 then Date(d.year, d.month - 1, DaysInMonth(d.year, d.month - 1))
    else Date(d.year - 1, 12, 31)
  }

  lemma LeapStep(n: int)
    ensures LeapYearsThrough(n) - LeapYearsThrough(n - 1) == if IsLeapYear(n) then 1 else 0
  {
    DivStep4(n);
    DivStep100(n);
    DivStep400(n);
    CenturyDivisibility(n);
    LeapCount(n % 4 == 0, n % 100 == 0, n % 400 == 0,
      n / 4 - (n - 1) / 4, n / 100 - (n - 1) / 100, n / 400 - (n - 1) / 400);
  }

  lemma CenturyDivisibility(n: int)
    ensures n % 100 == 0 ==> n % 4 == 0
    ensures n % 400 == 0 ==> n % 100 == 0
  {
    if n % 100 == 0 {
      var q := n / 100;
      assert n == 4 * (25 * q);
      TimesFour(25 * q);
    }
    if n % 400 == 0 {
      var q := n / 400;
      assert n == 100 * (4 * q);
      TimesHundred(4 * q);
    }
  }

  lemma TimesFour(t: int)
    ensures (4 * t) % 4 == 0
  {
  }

  lemma TimesHundred(t: int)
    ensures (100 * t) % 100 == 0
  {
  }

  lemma LeapCount(by4: bool, by100: bool, by400: bool, d4: int, d100: int, d400: int)
    requires by100 ==> by4
    requires by400 ==> by100
    requires d4 == (if by4 then 1 else 0) && d100 == (if by100 then 1 else 0) && d400 == (if by400 then 1 else 0)
    ensures d4 - d100 + d400 == if by4 && (!by100 || by400) then 1 else 0
  {
  }

  lemma DivStep4(n: int)
    ensures n / 4 - (n - 1) / 4 == if n % 4 == 0 then 1 else 0
  {
  }

  lemma DivStep100(n: int)
    ensures n / 100 - (n - 1) / 100 == if n % 100 == 0 then 1 else 0
  {
  }

  lemma DivStep400(n: int)
    ensures n / 400 - (n - 1) / 400 == if n % 400 == 0 then 1 else 0
  {
  }

  /** Consecutive years are laid end to end. */
  lemma YearStep(y: int)
    ensures DaysBeforeYear(y + 1) == DaysBeforeYear(y) + DaysInYear(y)
  {
    LeapStep(y);
  }

  /** `Previous` is one day number earlier, and stays a valid date. */
  lemma PreviousIsDayBefore(d: Date)
    requires IsValid(d)
    ensures IsValid(Previous(d))
    ensures DayNumber(Previous(d)) == DayNumber(d) - 1
  {
    if d.day == 1 && d.month == 1 {
      YearStep(d.year - 1);
    }
  }

  /** A valid date's day number lies inside its year. */
  lemma DayNumberWithinYear(d: Date)
    requires IsValid(d)
    ensures DaysBeforeYear(d.year) <= DayNumber(d) < DaysBeforeYear(d.year) + DaysInYear(d.year)
  {
  }

  lemma {:induction false} YearsIncrease(a: int, b: int)
    requires a < b
    ensures DaysBeforeYear(a) + DaysInYear(a) <= DaysBeforeYear(b)
    decreases b - a
  {
    YearStep(a);
    if a + 1 < b {
      YearsIncrease(a + 1, b);
      YearStep(a + 1);
    }
  }

  /** Distinct valid dates have distinct day numbers. */
  lemma DayNumberInjective(d1: Date, d2: Date)
    requires IsValid(d1) && IsValid(d2)
    requires DayNumber(d1) == DayNumber(d2)
    ensures d1 == d2
  {
    DayNumberWithinYear(d1);
    DayNumberWithinYear(d2);
    if d1.year < d2.year {
      YearsIncrease(d1.year, d2.year);
    } else if d2.year < d1.year {
      YearsIncrease(d2.year, d1.year);
    }
    assert d1.year == d2.year;
  }

  /** `String(n).padStart(2, '0')` */
  function Pad2(n: int): string {
    var s := IntToString(n);
    if |s| >= 2 then s else seq(2 - |s|, _ => '0') + s
  }

  /** `${y}-${m}-${day}` with month and day padded to two digits. */
  function Key(d: Date): string {
    IntToString(d.year) + "-" + Pad2(d.month) + "-" + Pad2(d.day)
  }

  /** Ten characters `DDDD-DD-DD`, each `D` a decimal digit. */
  predicate KeyForm(s: string) {
    && |s| == 10 && s[4] == '-' && s[7] == '-'
    && forall i :: 0 <= i < 10 && i != 4 && i != 7 ==> IsDigit(s[i])
  }

  /**
   * The date a date-only string `YYYY-MM-DD` denotes in the ECMAScript
   * date time string format, or `None` for any other string or an
   * impossible date.
   */
  function ParseKey(s: string): (r: Option<Date>)
    ensures r.Some? ==> KeyForm(s) && IsValid(r.value) && 0 <= r.value.year <= 9999
  {
    if KeyForm(s) then
      var d := Date(
        1000 * DigitValue(s[0]) + 100 * DigitValue(s[1]) + 10 * DigitValue(s[2]) + DigitValue(s[3]),
        10 * DigitValue(s[5]) + DigitValue(s[6]),
        10 * DigitValue(s[8]) + DigitValue(s[9]));
      if IsValid(d) then Some(d) else None
    else None
  }

  lemma FourDigits(n: int)
    requires 1000 <= n <= 9999
    ensures IntToString(n) == [DigitChar(n / 1000), DigitChar(n / 100 % 10), DigitChar(n / 10 % 10), DigitChar(n % 10)]
  {
    var a, b, c := n / 1000, n / 100, n / 10;
    assert c / 10 == b && b / 10 == a && b % 10 == n / 100 % 10;
    assert NatToString(a) == [DigitChar(a)];
    assert NatToString(b) == NatToString(a) + [DigitChar(b % 10)];
    assert NatToString(c) == NatToString(b) + [DigitChar(c % 10)];
    assert NatToString(n) == NatToString(c) + [DigitChar(n % 10)];
  }

  lemma TwoDigits(n: int)
    requires 1 <= n <= 99
    ensures Pad2(n) == [DigitChar(n / 10), DigitChar(n % 10)]
  {
    if n < 10 {
      assert IntToString(n) == [DigitChar(n)];
    } else {
      assert NatToString(n / 10) == [DigitChar(n / 10)];
    }
  }

  /** A key ends with the two digits of its day. */
  lemma KeyEndsWithDay(d: Date)
    requires 1 <= d.day <= 99
    ensures |Key(d)| >= 2 && Key(d)[|Key(d)| - 2..] == Pad2(d.day)
  {
    TwoDigits(d.day);
    var a := IntToString(d.year) + "-" + Pad2(d.month) + "-";
    assert Key(d) == a + Pad2(d.day);
    assert (a + Pad2(d.day))[|a|..] == Pad2(d.day);
  }

  /** The key of a date with a four-digit year is `YYYY-MM-DD`, month and day zero-padded. */
  lemma KeyShape(d: Date)
    requires IsValid(d) && HasFourDigitYear(d)
    ensures var k := Key(d);
      && KeyForm(k)
      && k == [DigitChar(d.year / 1000), DigitChar(d.year / 100 % 10), DigitChar(d.year / 10 % 10), DigitChar(d.year % 10),
               '-', DigitChar(d.month / 10), DigitChar(d.month % 10),
               '-', DigitChar(d.day / 10), DigitChar(d.day % 10)]
  {
    FourDigits(d.year);
    TwoDigits(d.month);
    TwoDigits(d.day);
  }

  /** Reading a key back gives the date it was made from. */
  lemma KeyRoundTrip(d: Date)
    requires IsValid(d) && HasFourDigitYear(d)
    ensures ParseKey(Key(d)) == Some(d)
  {
    KeyShape(d);
    DigitsCompose(d.year, d.month, d.day);
  }

  lemma DigitsCompose(y: int, m: int, day: int)
    requires 0 <= y <= 9999 && 0 <= m <= 99 && 0 <= day <= 99
    ensures 1000 * DigitValue(DigitChar(y / 1000)) + 100 * DigitValue(DigitChar(y / 100 % 10))
      + 10 * DigitValue(DigitChar(y / 10 % 10)) + DigitValue(DigitChar(y % 10)) == y
    ensures 10 * DigitValue(DigitChar(m / 10)) + DigitValue(DigitChar(m % 10)) == m
    ensures 10 * DigitValue(DigitChar(day / 10)) + DigitValue(DigitChar(day % 10)) == day
  {
    var a, b := y / 10, y / 100;
    assert a / 10 == b && b / 10 == y / 1000;
    assert y == 10 * a + y % 10 && a == 10 * b + a % 10 && b == 10 * (y / 1000) + b % 10;
  }

  /** Every string `ParseKey` accepts with a four-digit year is the key of its date. */
  lemma ParseKeyInverse(s: string, d: Date)
    requires ParseKey(s) == Some(d) && HasFourDigitYear(d)
    ensures Key(d) == s
  {
    assert KeyForm(s);
    DigitsOfKey(s, d.year, d.month, d.day);
    KeyShape(d);
  }

  /** The digits read from a key form, written back, give the same characters. */
  lemma DigitsOfKey(s: string, y: int, m: int, day: int)
    requires KeyForm(s)
    requires y == 1000 * DigitValue(s[0]) + 100 * DigitValue(s[1]) + 10 * DigitValue(s[2]) + DigitValue(s[3])
    requires m == 10 * DigitValue(s[5]) + DigitValue(s[6])
    requires day == 10 * DigitValue(s[8]) + DigitValue(s[9])
    ensures s == [DigitChar(y / 1000), DigitChar(y / 100 % 10), DigitChar(y / 10 % 10), DigitChar(y % 10),
                  '-', DigitChar(m / 10), DigitChar(m % 10),
                  '-', DigitChar(day / 10), DigitChar(day % 10)]
  {
    var v0, v1, v2, v3 := DigitValue(s[0]), DigitValue(s[1]), DigitValue(s[2]), DigitValue(s[3]);
    assert IsDigit(s[0]) && IsDigit(s[1]) && IsDigit(s[2]) && IsDigit(s[3]);
    assert IsDigit(s[5]) && IsDigit(s[6]) && IsDigit(s[8]) && IsDigit(s[9]);
    Div1000(v0, 100 * v1 + 10 * v2 + v3);
    Div100(10 * v0 + v1, 10 * v2 + v3);
    Div10(v0, v1);
    Div10(100 * v0 + 10 * v1 + v2, v3);
    Div10(10 * v0 + v1, v2);
    Div10(DigitValue(s[5]), DigitValue(s[6]));
    Div10(DigitValue(s[8]), DigitValue(s[9]));
  }

  lemma Div10(q: int, r: int)
    requires 0 <= r < 10
    ensures (10 * q + r) / 10 == q && (10 * q + r) % 10 == r
  {
  }

  lemma Div100(q: int, r: int)
    requires 0 <= r < 100
    ensures (100 * q + r) / 100 == q
  {
  }

  lemma Div1000(q: int, r: int)
    requires 0 <= r < 1000
    ensures (1000 * q + r) / 1000 == q
  {
  }

  /** Distinct dates with four-digit years have distinct keys. */
  lemma KeyInjective(d1: Date, d2: Date)
    requires IsValid(d1) && HasFourDigitYear(d1)
    requires IsValid(d2) && HasFourDigitYear(d2)
    requires Key(d1) == Key(d2)
    ensures d1 == d2
  {
    KeyRoundTrip(d1);
    KeyRoundTrip(d2);
  }
}
