/**
 * Day numbers of the proleptic Gregorian calendar as ECMAScript counts them (ECMA-262, section 21.4.1):
 * day 0 is 1970-01-01, months run 1..12 here.
 */
module Gregorian {
  datatype Date = Date(year: int, month: int, day: int)

  predicate IsLeap(year: int) {
    year % 4 == 0 && (year % 100 != 0 || year % 400 == 0)
  }

  function DaysInMonth(year: int, month: int): (n: int)
    requires 1 <= month <= 12
    ensures 28 <= n <= 31
  {
    if month == 2 then (if IsLeap(year) then 29 else 28)
    else if month == 4 || month == 6 || month == 9 || month == 11 then 30
    else 31
  }

  predicate ValidDate(d: Date) {
    1 <= d.month <= 12 && 1 <= d.day <= DaysInMonth(d.year, d.month)
  }

  function YearDays(year: int): int {
    if IsLeap(year) then 366 else 365
  }

  /** The day number of the first of January: whole years counted from 1970. */
  function DayFromYear(year: int): int
    decreases if year < 1970 then 1970 - year else year - 1970
  {
    if year == 1970 then 0
    else if year > 1970 then DayFromYear(year - 1) + YearDays(year - 1)
    else DayFromYear(year + 1) - YearDays(year)
  }

  /** Days of the year before the month begins. */
  function MonthOffset(year: int, month: int): int
    requires 1 <= month <= 13
    decreases month
  {
    if month == 1 then 0 else MonthOffset(year, month - 1) + DaysInMonth(year, month - 1)
  }

  /** The day argument may be any integer: the count carries over, as in MakeDay. */
  function MakeDay(year: int, month: int, day: int): int
    requires 1 <= month <= 12
  {
    DayFromYear(year) + MonthOffset(year, month) + day - 1
  }

  function DayNumber(d: Date): int
    requires ValidDate(d)
  {
    MakeDay(d.year, d.month, d.day)
  }

  // ---------- Years and months partition the days ----------

  lemma YearLength(year: int)
    ensures DayFromYear(year + 1) == DayFromYear(year) + YearDays(year)
  {
  }

  function Formula(year: int): int {
    365 * (year - 1970) + (year - 1969) / 4 - (year - 1901) / 100 + (year - 1601) / 400
  }

  /** Dividing by k, the quotient steps exactly at the multiples of k. */
  lemma FloorStep4(a: int)
    ensures (a + 1) / 4 - a / 4 == if (a + 1) % 4 == 0 then 1 else 0
  {
  }

  lemma FloorStep100(a: int)
    ensures (a + 1) / 100 - a / 100 == if (a + 1) % 100 == 0 then 1 else 0
  {
  }

  lemma FloorStep400(a: int)
    ensures (a + 1) / 400 - a / 400 == if (a + 1) % 400 == 0 then 1 else 0
  {
  }

  lemma FormulaStep(year: int)
    ensures Formula(year + 1) - Formula(year) == YearDays(year)
  {
    FloorStep4(year - 1969);
    FloorStep100(year - 1901);
    FloorStep400(year - 1601);
    Shifted(year);
    if year % 400 == 0 { Multiple100(year); }
    if year % 100 == 0 { Multiple4(year); }
  }

  lemma Shifted(year: int)
    ensures (year - 1968) % 4 == year % 4 && (year - 1900) % 100 == year % 100 && (year - 1600) % 400 == year % 400
  {
    assert year - 1968 == 4 * (year / 4 - 492) + year % 4;
    assert year - 1900 == 100 * (year / 100 - 19) + year % 100;
    assert year - 1600 == 400 * (year / 400 - 4) + year % 400;
  }

  lemma Multiple100(year: int)
    requires year % 400 == 0
    ensures year % 100 == 0
  {
    assert year == 100 * (4 * (year / 400));
  }

  lemma Multiple4(year: int)
    requires year % 100 == 0
    ensures year % 4 == 0
  {
    assert year == 4 * (25 * (year / 100));
  }

  /** Counting year by year is the closed formula of the standard. */
  lemma {:induction false} DayFromYearIsFormula(year: int)
    ensures DayFromYear(year) == Formula(year)
    decreases if year < 1970 then 1970 - year else year - 1970
  {
    if year > 1970 {
      DayFromYearIsFormula(year - 1);
      FormulaStep(year - 1);
    } else if year < 1970 {
      DayFromYearIsFormula(year + 1);
      FormulaStep(year);
    }
  }

  lemma MonthsFillYear(year: int)
    ensures MonthOffset(year, 13) == YearDays(year)
  {
    assert MonthOffset(year, 4) == MonthOffset(year, 3) + 31;
    assert MonthOffset(year, 7) == MonthOffset(year, 4) + 91;
    assert MonthOffset(year, 10) == MonthOffset(year, 7) + 92;
    assert MonthOffset(year, 13) == MonthOffset(year, 10) + 92;
  }

  lemma {:induction false} YearsIncrease(a: int, b: int)
    requires a <= b
    ensures DayFromYear(a) + 365 * (b - a) <= DayFromYear(b)
    decreases b - a
  {
    if a < b {
      YearsIncrease(a, b - 1);
      YearLength(b - 1);
    }
  }

  lemma {:induction false} MonthsIncrease(year: int, a: int, b: int)
    requires 1 <= a < b <= 13
    ensures MonthOffset(year, a) + DaysInMonth(year, a) <= MonthOffset(year, b)
    decreases b - a
  {
    if a + 1 < b { MonthsIncrease(year, a, b - 1); }
  }

  lemma {:induction false} MonthOffsetBounds(year: int, month: int)
    requires 1 <= month <= 13
    ensures 28 * (month - 1) <= MonthOffset(year, month) <= 31 * (month - 1)
    decreases month
  {
    if month > 1 { MonthOffsetBounds(year, month - 1); }
  }

  /** The largest year that begins no later than the day, searched from a given year. */
  function YearFrom(n: int, year: int): int
    decreases if n < DayFromYear(year) then DayFromYear(year) - n
              else if n >= DayFromYear(year + 1) then n - DayFromYear(year) else 0
  {
    YearLength(year);
    YearLength(year - 1);
    YearLength(year + 1);
    if n < DayFromYear(year) then YearFrom(n, year - 1)
    else if n >= DayFromYear(year + 1) then YearFrom(n, year + 1)
    else year
  }

  lemma {:induction false} YearContains(n: int, year: int)
    ensures DayFromYear(YearFrom(n, year)) <= n < DayFromYear(YearFrom(n, year) + 1)
    decreases if n < DayFromYear(year) then DayFromYear(year) - n
              else if n >= DayFromYear(year + 1) then n - DayFromYear(year) else 0
  {
    YearLength(year);
    YearLength(year - 1);
    YearLength(year + 1);
    if n < DayFromYear(year) { YearContains(n, year - 1); }
    else if n >= DayFromYear(year + 1) { YearContains(n, year + 1); }
  }

  function MonthFrom(year: int, offset: int, month: int): (m: int)
    requires 1 <= month <= 12
    ensures 1 <= m <= 12
    decreases 12 - month
  {
    if month == 12 || offset < MonthOffset(year, month + 1) then month else MonthFrom(year, offset, month + 1)
  }

  lemma {:induction false} MonthContains(year: int, offset: int, month: int)
    requires 1 <= month <= 12 && MonthOffset(year, month) <= offset
    ensures var m := MonthFrom(year, offset, month);
            MonthOffset(year, m) <= offset && (m < 12 ==> offset < MonthOffset(year, m + 1))
    decreases 12 - month
  {
    if month < 12 && offset >= MonthOffset(year, month + 1) { MonthContains(year, offset, month + 1); }
  }

  function FromDayNumber(n: int): (d: Date)
    ensures ValidDate(d)
  {
    var year := YearFrom(n, 1970);
    YearContains(n, 1970);
    YearLength(year);
    MonthsFillYear(year);
    var offset := n - DayFromYear(year);
    MonthContains(year, offset, 1);
    var month := MonthFrom(year, offset, 1);
    Date(year, month, offset - MonthOffset(year, month) + 1)
  }

  lemma NumberOfDate(n: int)
    ensures DayNumber(FromDayNumber(n)) == n
  {
  }

  predicate Before(a: Date, b: Date) {
    a.year < b.year || (a.year == b.year && (a.month < b.month || (a.month == b.month && a.day < b.day)))
  }

  lemma InsideYear(d: Date)
    requires ValidDate(d)
    ensures DayFromYear(d.year) <= DayNumber(d) < DayFromYear(d.year + 1)
  {
    MonthsIncrease(d.year, d.month, 13);
    MonthsFillYear(d.year);
    YearLength(d.year);
  }

  lemma BeforeIsSmaller(a: Date, b: Date)
    requires ValidDate(a) && ValidDate(b) && Before(a, b)
    ensures DayNumber(a) < DayNumber(b)
  {
    InsideYear(a);
    InsideYear(b);
    if a.year < b.year {
      YearsIncrease(a.year + 1, b.year);
    } else if a.month < b.month {
      MonthsIncrease(a.year, a.month, b.month);
    }
  }

  /** Dates compare field by field exactly as their day numbers do; equal numbers, equal dates. */
  lemma DaysOrderDates(a: Date, b: Date)
    requires ValidDate(a) && ValidDate(b)
    ensures DayNumber(a) < DayNumber(b) <==> Before(a, b)
    ensures DayNumber(a) == DayNumber(b) <==> a == b
  {
    if Before(a, b) { BeforeIsSmaller(a, b); }
    else if Before(b, a) { BeforeIsSmaller(b, a); }
  }

  lemma RoundTrip(d: Date)
    requires ValidDate(d)
    ensures FromDayNumber(DayNumber(d)) == d
  {
    NumberOfDate(DayNumber(d));
    DaysOrderDates(FromDayNumber(DayNumber(d)), d);
  }

  // ---------- The calendar as people count it ----------

  /** Tomorrow, without any day number. */
  function NextDay(d: Date): (r: Date)
    requires ValidDate(d)
    ensures ValidDate(r)
  {
    if d.day < DaysInMonth(d.year, d.month) then d.(day := d.day + 1)
    else if d.month < 12 then Date(d.year, d.month + 1, 1)
    else Date(d.year + 1, 1, 1)
  }

  function DaysLater(d: Date, k: nat): (r: Date)
    requires ValidDate(d)
    ensures ValidDate(r)
    decreases k
  {
    if k == 0 then d else DaysLater(NextDay(d), k - 1)
  }

  lemma NextDayIsNext(d: Date)
    requires ValidDate(d)
    ensures DayNumber(NextDay(d)) == DayNumber(d) + 1
  {
    if d.day == DaysInMonth(d.year, d.month) && d.month == 12 {
      YearLength(d.year);
      MonthsFillYear(d.year);
      assert MonthOffset(d.year, 13) == MonthOffset(d.year, 12) + 31;
    }
  }

  lemma {:induction false} DaysLaterNumber(d: Date, k: nat)
    requires ValidDate(d)
    ensures DayNumber(DaysLater(d, k)) == DayNumber(d) + k
    decreases k
  {
    if k > 0 {
      DaysLaterNumber(NextDay(d), k - 1);
      NextDayIsNext(d);
    }
  }

  /** The ECMAScript count is the count of tomorrows: k days later has the day number plus k, and conversely. */
  lemma CountingDays(d: Date, k: nat)
    requires ValidDate(d)
    ensures DayNumber(DaysLater(d, k)) == DayNumber(d) + k
    ensures FromDayNumber(DayNumber(d) + k) == DaysLater(d, k)
  {
    DaysLaterNumber(d, k);
    RoundTrip(DaysLater(d, k));
  }

  // ---------- Known values ----------

  /** The table of the standard: the day of the year, counted from zero, on which each month begins. */
  lemma MonthsBegin(year: int)
    ensures var leap := if IsLeap(year) then 1 else 0;
            && MonthOffset(year, 1) == 0 && MonthOffset(year, 2) == 31 && MonthOffset(year, 3) == 59 + leap
            && MonthOffset(year, 4) == 90 + leap && MonthOffset(year, 5) == 120 + leap && MonthOffset(year, 6) == 151 + leap
            && MonthOffset(year, 7) == 181 + leap && MonthOffset(year, 8) == 212 + leap && MonthOffset(year, 9) == 243 + leap
            && MonthOffset(year, 10) == 273 + leap && MonthOffset(year, 11) == 304 + leap && MonthOffset(year, 12) == 334 + leap
  {
    MonthsBeginEarly(year);
    assert MonthOffset(year, 8) == MonthOffset(year, 7) + 31;
    assert MonthOffset(year, 9) == MonthOffset(year, 8) + 31;
    assert MonthOffset(year, 10) == MonthOffset(year, 9) + 30;
    assert MonthOffset(year, 11) == MonthOffset(year, 10) + 31;
  }

  lemma MonthsBeginEarly(year: int)
    ensures var leap := if IsLeap(year) then 1 else 0;
            && MonthOffset(year, 2) == 31 && MonthOffset(year, 3) == 59 + leap && MonthOffset(year, 4) == 90 + leap
            && MonthOffset(year, 5) == 120 + leap && MonthOffset(year, 6) == 151 + leap && MonthOffset(year, 7) == 181 + leap
  {
    assert MonthOffset(year, 3) == MonthOffset(year, 2) + DaysInMonth(year, 2);
    assert MonthOffset(year, 4) == MonthOffset(year, 3) + 31;
    assert MonthOffset(year, 5) == MonthOffset(year, 4) + 30;
    assert MonthOffset(year, 6) == MonthOffset(year, 5) + 31;
  }

  /** The epoch, the first and a leap day of 2000, and the last and the first day that a date object can hold. */
  lemma KnownDays(n: int)
    ensures n == 0 ==> FromDayNumber(n) == Date(1970, 1, 1)
    ensures n == 10957 ==> FromDayNumber(n) == Date(2000, 1, 1)
    ensures n == 11016 ==> FromDayNumber(n) == Date(2000, 2, 29)
    ensures n == 100000000 ==> FromDayNumber(n) == Date(275760, 9, 13)
    ensures n == -100000000 ==> FromDayNumber(n) == Date(-271821, 4, 20)
  {
    if n == 0 { DayOf(1970, 1, 1, n); }
    if n == 10957 { DayOf(2000, 1, 1, n); }
    if n == 11016 { DayOf(2000, 2, 29, n); }
    if n == 100000000 { DayOf(275760, 9, 13, n); }
    if n == -100000000 { DayOf(-271821, 4, 20, n); }
  }

  /** The day of the year on which a month begins, as the standard tabulates it. */
  function Table(month: int): int
    requires 1 <= month <= 12
  {
    [0, 31, 59, 90, 120, 151, 181, 212, 243, 273, 304, 334][month - 1]
  }

  /** Any date from the closed formula of its year and the table of its month. */
  lemma DayOf(year: int, month: int, day: int, n: int)
    requires 1 <= month <= 12 && 1 <= day <= DaysInMonth(year, month)
    requires n == Formula(year) + Table(month) + (if month > 2 && IsLeap(year) then 1 else 0) + day - 1
    ensures FromDayNumber(n) == Date(year, month, day)
  {
    OffsetIsTable(year, month);
    OfFormula(Date(year, month, day), n);
  }

  lemma OffsetIsTable(year: int, month: int)
    requires 1 <= month <= 12
    ensures MonthOffset(year, month) == Table(month) + (if month > 2 && IsLeap(year) then 1 else 0)
  {
    MonthsBegin(year);
  }

  lemma OfFormula(d: Date, n: int)
    requires ValidDate(d) && n == Formula(d.year) + MonthOffset(d.year, d.month) + d.day - 1
    ensures FromDayNumber(n) == d
  {
    DayFromYearIsFormula(d.year);
    RoundTrip(d);
  }
}
