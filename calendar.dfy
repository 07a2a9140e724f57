/**
 * The proleptic Gregorian calendar, as far as the log router needs it: day
 * numbers counted from 0001-01-01 (day 0), the civil date of a day number, and
 * the fixed-width decimal digits of the ISO 8601 basic date format YYYYMMDD.
 */
module Calendar {

  datatype Date = Date(year: int, month: int, day: int)

  predicate IsLeapYear(y: int) {
    y % 4 == 0 && (y % 100 != 0 || y % 400 == 0)
  }

  function DaysInYear(y: int): int {
    if IsLeapYear(y) then 366 else 365
  }

  function DaysInMonth(y: int, m: int): int
    requires 1 <= m <= 12
  {
    if m == 2 then (if IsLeapYear(y) then 29 else 28)
    else if m == 4 || m == 6 || m == 9 || m == 11 then 30
    else 31
  }

  predicate ValidDate(d: Date) {
    1 <= d.year && 1 <= d.month <= 12 && 1 <= d.day <= DaysInMonth(d.year, d.month)
  }

  /** Number of days from 0001-01-01 to January 1 of year `y`. */
  function DaysBeforeYear(y: int): int
    requires 1 <= y
  {
    var p := y - 1;
    365 * p + p / 4 - p / 100 + p / 400
  }

  /** Number of days from January 1 of year `y` to the first day of month `m`. */
  function DaysBeforeMonth(y: int, m: int): int
    requires 1 <= m <= 12
  {
    [0, 31, 59, 90, 120, 151, 181, 212, 243, 273, 304, 334][m - 1]
      + (if m > 2 && IsLeapYear(y) then 1 else 0)
  }

  /** The day number of a date: 0 for 0001-01-01, 719162 for 1970-01-01. */
  function DayNumber(d: Date): int
    requires ValidDate(d)
  {
    DaysBeforeYear(d.year) + DaysBeforeMonth(d.year, d.month) + d.day - 1
  }

  lemma DaysBeforeNextYear(y: int)
    requires 1 <= y
    ensures DaysBeforeYear(y + 1) == DaysBeforeYear(y) + DaysInYear(y)
  {
    QuotientStep4(y);
    QuotientStep100(y);
    QuotientStep400(y);
  }

  lemma QuotientStep4(y: int)
    requires 1 <= y
    ensures y / 4 == (y - 1) / 4 + (if y % 4 == 0 then 1 else 0)
  {
  }

  lemma QuotientStep100(y: int)
    requires 1 <= y
    ensures y / 100 == (y - 1) / 100 + (if y % 100 == 0 then 1 else 0)
  {
  }

  lemma QuotientStep400(y: int)
    requires 1 <= y
    ensures y / 400 == (y - 1) / 400 + (if y % 400 == 0 then 1 else 0)
  {
  }

  lemma {:induction false} DaysBeforeYearMonotone(y1: int, y2: int)
    requires 1 <= y1 <= y2
    ensures DaysBeforeYear(y1) + 365 * (y2 - y1) <= DaysBeforeYear(y2)
    decreases y2 - y1
  {
    if y1 < y2 {
      DaysBeforeNextYear(y1);
      DaysBeforeYearMonotone(y1 + 1, y2);
    }
  }

  lemma MonthStep(y: int, m: int)
    requires 1 <= m <= 12
    ensures m < 12 ==> DaysBeforeMonth(y, m + 1) == DaysBeforeMonth(y, m) + DaysInMonth(y, m)
    ensures m == 12 ==> DaysBeforeMonth(y, m) + DaysInMonth(y, m) == DaysInYear(y)
  {
  }

  /** The date that lies `n` days after the first day of month `m` of year `y`. */
  function FromMonth(n: nat, y: int, m: int): (d: Date)
    requires 1 <= y && 1 <= m <= 12
    requires DaysBeforeMonth(y, m) + n < DaysInYear(y)
    ensures ValidDate(d) && d.year == y
    ensures DayNumber(d) == DaysBeforeYear(y) + DaysBeforeMonth(y, m) + n
    decreases 12 - m
  {
    MonthStep(y, m);
    if n < DaysInMonth(y, m) then Date(y, m, n + 1)
    else FromMonth(n - DaysInMonth(y, m), y, m + 1)
  }

  /** The date that lies `n` days after January 1 of year `y`. */
  function FromYear(n: nat, y: int): (d: Date)
    requires 1 <= y
    ensures ValidDate(d) && y <= d.year
    ensures DayNumber(d) == DaysBeforeYear(y) + n
    decreases n
  {
    if n < DaysInYear(y) then FromMonth(n, y, 1)
    else
      DaysBeforeNextYear(y);
      FromYear(n - DaysInYear(y), y + 1)
  }

  /** The civil date of day number `n`. */
  function DateOf(n: nat): (d: Date)
    ensures ValidDate(d) && DayNumber(d) == n
  {
    FromYear(n, 1)
  }

  lemma DayNumberWithinYear(d: Date)
    requires ValidDate(d)
    ensures DaysBeforeYear(d.year) <= DayNumber(d) < DaysBeforeYear(d.year + 1)
  {
    DaysBeforeNextYear(d.year);
    MonthStep(d.year, 12);
    var m := d.month;
    assert DaysBeforeMonth(d.year, m) + DaysInMonth(d.year, m) <= DaysInYear(d.year);
  }

  lemma MonthsOrdered(y: int, m1: int, m2: int)
    requires 1 <= m1 < m2 <= 12
    ensures DaysBeforeMonth(y, m1) + DaysInMonth(y, m1) <= DaysBeforeMonth(y, m2)
  {
  }

  /** Distinct valid dates have distinct day numbers. */
  lemma DayNumberInjective(d1: Date, d2: Date)
    requires ValidDate(d1) && ValidDate(d2)
    requires DayNumber(d1) == DayNumber(d2)
    ensures d1 == d2
  {
    DayNumberWithinYear(d1);
    DayNumberWithinYear(d2);
    if d1.year < d2.year {
      DaysBeforeYearMonotone(d1.year + 1, d2.year);
    } else if d2.year < d1.year {
      DaysBeforeYearMonotone(d2.year + 1, d1.year);
    } else if d1.month < d2.month {
      MonthsOrdered(d1.year, d1.month, d2.month);
    } else if d2.month < d1.month {
      MonthsOrdered(d1.year, d2.month, d1.month);
    }
  }

  /** `DateOf` inverts `DayNumber`: every valid date is the date of its own day number. */
  lemma DateOfDayNumber(d: Date)
    requires ValidDate(d)
    ensures DayNumber(d) >= 0 && DateOf(DayNumber(d)) == d
  {
    DayNumberWithinYear(d);
    DayNumberInjective(DateOf(DayNumber(d)), d);
  }

  /** Years of a day number grow with the day number. */
  lemma YearBound(d: Date, y: int)
    requires ValidDate(d) && 1 <= y
    ensures d.year < y <==> DayNumber(d) < DaysBeforeYear(y)
  {
    DayNumberWithinYear(d);
    if d.year < y {
      DaysBeforeYearMonotone(d.year + 1, y);
    } else {
      DaysBeforeYearMonotone(y, d.year);
    }
  }

  function Pow10(w: nat): nat {
    if w == 0 then 1 else 10 * Pow10(w - 1)
  }

  function DigitChar(k: int): char
    requires 0 <= k < 10
  {
    "0123456789"[k]
  }

  predicate IsDigits(s: string) {
    forall i :: 0 <= i < |s| ==> '0' <= s[i] <= '9'
  }

  /** The last `width` decimal digits of `n`, zero-padded on the left. */
  function Digits(n: nat, width: nat): (s: string)
    ensures |s| == width && IsDigits(s)
  {
    if width == 0 then "" else Digits(n / 10, width - 1) + [DigitChar(n % 10)]
  }

  /** The number a string of decimal digits denotes. */
  function DecimalValue(s: string): nat
    requires IsDigits(s)
  {
    if s == [] then 0 else DecimalValue(s[..|s| - 1]) * 10 + (s[|s| - 1] as int - '0' as int)
  }

  /** Reading the padded digits back gives the number, when it fits the width. */
  lemma {:induction false} DigitsRoundTrip(n: nat, width: nat)
    requires n < Pow10(width)
    ensures DecimalValue(Digits(n, width)) == n
  {
    if width > 0 {
      DigitsRoundTrip(n / 10, width - 1);
      var s := Digits(n, width);
      assert s[..|s| - 1] == Digits(n / 10, width - 1);
    }
  }

  /** YYYYMMDD: ISO 8601 basic calendar date, year padded to four digits. */
  function BasicFormat(d: Date): (s: string)
    requires ValidDate(d) && d.year <= 9999
    ensures |s| == 8 && IsDigits(s)
  {
    Digits(d.year, 4) + Digits(d.month, 2) + Digits(d.day, 2)
  }

  /**
   * The basic format's fields read back: characters 1 to 4 are the year,
   * 5 and 6 the month, 7 and 8 the day (`%Y%m%d`).
   */
  lemma BasicFormatFields(d: Date)
    requires ValidDate(d) && d.year <= 9999
    ensures var s := BasicFormat(d);
      && DecimalValue(s[..4]) == d.year
      && DecimalValue(s[4..6]) == d.month
      && DecimalValue(s[6..]) == d.day
  {
    var s := BasicFormat(d);
    assert s[..4] == Digits(d.year, 4);
    assert s[4..6] == Digits(d.month, 2);
    assert s[6..] == Digits(d.day, 2);
    DigitsRoundTrip(d.year, 4);
    DigitsRoundTrip(d.month, 2);
    DigitsRoundTrip(d.day, 2);
  }

  /** The basic format names each date of years 1 to 9999 by a different string. */
  lemma BasicFormatInjective(d1: Date, d2: Date)
    requires ValidDate(d1) && d1.year <= 9999
    requires ValidDate(d2) && d2.year <= 9999
    requires BasicFormat(d1) == BasicFormat(d2)
    ensures d1 == d2
  {
    BasicFormatFields(d1);
    BasicFormatFields(d2);
  }

  lemma DigitsStep(n: nat, width: nat)
    ensures Digits(n, width + 1) == Digits(n / 10, width) + [DigitChar(n % 10)]
  {
  }

  lemma YearDigitsExample()
    ensures Digits(2023, 4) == "2023"
  {
    assert Digits(2, 1) == Digits(0, 0) + [DigitChar(2)];
    assert Digits(20, 2) == Digits(2, 1) + [DigitChar(0)];
    assert Digits(202, 3) == Digits(20, 2) + [DigitChar(2)] == "202";
    assert Digits(2023, 4) == Digits(202, 3) + [DigitChar(3)];
  }

  lemma TwoDigitsExample()
    ensures Digits(5, 2) == "05" && Digits(1, 2) == "01"
  {
    DigitsStep(0, 0);
    DigitsStep(5, 1);
    DigitsStep(1, 1);
  }

  /** The date of the example deployment, 2023-05-01, in basic format. */
  lemma BasicFormatExample()
    ensures BasicFormat(Date(2023, 5, 1)) == "20230501"
  {
    YearDigitsExample();
    TwoDigitsExample();
    assert "2023" + "05" + "01" == "20230501";
  }
}
