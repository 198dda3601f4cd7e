/**
 * Day addition on calendar dates through a UTC date object, and the search for a date on a weekday.
 * A date here is what the time zone lookup gives: year, month 1..12 and day.
 */
module CalendarDays {
  import opened Results
  import opened Text
  import opened Gregorian

  const MAX_DAYS: int := 100000000

  /** A date object holds no day further than this from 1970 (ECMA-262, section 21.4.1). */
  function TimeClip(n: int): Option<int> {
    if -MAX_DAYS <= n <= MAX_DAYS then Some(n) else None
  }

  /** Date.UTC takes the years 0 to 99 for 1900 to 1999. */
  function FullYear(year: int): int {
    if 0 <= year <= 99 then 1900 + year else year
  }

  /** Date.UTC(year, month - 1, day) for a month of the year. */
  function UtcDay(year: int, month: int, day: int): Option<int>
    requires 1 <= month <= 12
  {
    TimeClip(MakeDay(FullYear(year), month, day))
  }

  function SetUtcDate(n: int, day: int): Option<int> {
    var d := FromDayNumber(n);
    TimeClip(MakeDay(d.year, d.month, day))
  }

  /** No result stands for an invalid date. */
  function AddDays(from: Date, days: int): Option<Date>
    requires 1 <= from.month <= 12
  {
    var start := UtcDay(from.year, from.month, from.day);
    if start.None? then None
    else
      var moved := SetUtcDate(start.value, FromDayNumber(start.value).day + days);
      if moved.None? then None else Some(FromDayNumber(moved.value))
  }

  /** A date object, as its day number; none once it is invalid. */
  class UtcDate {
    var day: Option<int>

    constructor (year: int, month: int, day: int)
      requires 1 <= month <= 12
      ensures this.day == UtcDay(year, month, day)
    {
      this.day := UtcDay(year, month, day);
    }

    /** Sets the day of the month; any count carries over, and an invalid date stays invalid. */
    method SetUTCDate(dayOfMonth: int)
      modifies this
      ensures day == if old(day).None? then None else SetUtcDate(old(day).value, dayOfMonth)
    {
      if day.Some? {
        day := SetUtcDate(day.value, dayOfMonth);
      }
    }
  }

  method AddSofiaCalendarDays(from: Date, days: int) returns (r: Option<Date>)
    requires ValidDate(from)
    ensures r == AddDays(from, days)
  {
    var utc := new UtcDate(from.year, from.month, from.day);
    if utc.day.None? {
      return None;
    }
    utc.SetUTCDate(FromDayNumber(utc.day.value).day + days);
    r := if utc.day.None? then None else Some(FromDayNumber(utc.day.value));
  }

  /** The date that a day is counted from: the two-digit years moved. */
  function Start(d: Date): int
    requires ValidDate(d)
  {
    MakeDay(FullYear(d.year), d.month, d.day)
  }

  predicate InRange(n: int) { -MAX_DAYS <= n <= MAX_DAYS }

  lemma SetUtcDateMoves(n: int, days: int)
    ensures SetUtcDate(n, FromDayNumber(n).day + days) == TimeClip(n + days)
  {
    var d := FromDayNumber(n);
    assert DayNumber(d) == n;
    assert MakeDay(d.year, d.month, d.day + days) == MakeDay(d.year, d.month, d.day) + days;
  }

  /** What adding days gives, for every date and count. */
  lemma AddDaysMeans(from: Date, days: int)
    requires ValidDate(from)
    ensures AddDays(from, days)
         == if InRange(Start(from)) && InRange(Start(from) + days) then Some(FromDayNumber(Start(from) + days)) else None
  {
    SetUtcDateMoves(Start(from), days);
  }

  predicate TwoDigitYear(d: Date) { 0 <= d.year <= 99 }

  lemma StartIsDayNumber(d: Date)
    requires ValidDate(d)
    ensures !TwoDigitYear(d) ==> Start(d) == DayNumber(d)
    ensures TwoDigitYear(d) ==> Start(d) > DayNumber(d)
  {
    if TwoDigitYear(d) {
      YearsIncrease(d.year, d.year + 1900);
      MonthOffsetWithin(d.year, d.year + 1900, d.month);
    }
  }

  lemma {:induction false} MonthOffsetWithin(a: int, b: int, month: int)
    requires 1 <= month <= 13
    ensures MonthOffset(a, month) <= MonthOffset(b, month) + 1
    decreases month
  {
    if month > 1 {
      MonthOffsetWithin(a, b, month - 1);
      if month > 3 { MonthOffsetWithin(a, b, 3); SameMonths(a, b, month); }
    }
  }

  /** After February two years differ by the leap day alone. */
  lemma {:induction false} SameMonths(a: int, b: int, month: int)
    requires 3 <= month <= 13
    ensures MonthOffset(a, month) - MonthOffset(b, month) == DaysInMonth(a, 2) - DaysInMonth(b, 2)
    decreases month
  {
    if month > 3 {
      SameMonths(a, b, month - 1);
    } else {
      assert MonthOffset(a, 2) == 31 && MonthOffset(b, 2) == 31;
    }
  }

  /**
   * Adding a days and then b days is adding a + b, across months, years and leap days, exactly unless the
   * date between has a two-digit year: that date is then counted from another century, and the two answers
   * differ as soon as either is a date at all.
   */
  lemma AddDaysComposes(from: Date, a: int, b: int)
    requires ValidDate(from) && AddDays(from, a).Some?
    ensures var mid := AddDays(from, a).value;
            AddDays(mid, b) == AddDays(from, a + b)
            <==> !TwoDigitYear(mid) || (!InRange(Start(mid) + b) && !InRange(DayNumber(mid) + b))
  {
    AddDaysMeans(from, a);
    AddDaysMeans(from, a + b);
    var mid := AddDays(from, a).value;
    var n, m := DayNumber(mid) + b, Start(mid) + b;
    AddDaysMeans(mid, b);
    StartIsDayNumber(mid);
    if TwoDigitYear(mid) { TwoDigitYearsInRange(mid); }
    assert FromDayNumber(n) == FromDayNumber(m) ==> DayNumber(FromDayNumber(n)) == DayNumber(FromDayNumber(m));
  }

  lemma LastCentury(year: int)
    requires 1900 <= year <= 1999
    ensures -30000 <= DayFromYear(year) <= 20000
  {
    DayFromYearIsFormula(year);
  }

  lemma LastCenturyInRange(year: int, month: int, day: int)
    requires 1900 <= year <= 1999 && 1 <= month <= 12 && 1 <= day <= 31
    ensures InRange(MakeDay(year, month, day))
  {
    LastCentury(year);
    MonthOffsetBounds(year, month);
  }

  lemma TwoDigitYearsInRange(d: Date)
    requires ValidDate(d) && TwoDigitYear(d)
    ensures InRange(Start(d))
  {
    LastCenturyInRange(d.year + 1900, d.month, d.day);
  }

  /** Days ahead are that many tomorrows, and going back undoes them. */
  lemma AddDaysCounts(from: Date, k: nat)
    requires ValidDate(from) && !TwoDigitYear(from) && InRange(DayNumber(from)) && InRange(DayNumber(from) + k)
    ensures AddDays(from, k) == Some(DaysLater(from, k))
    ensures !TwoDigitYear(DaysLater(from, k)) ==> AddDays(DaysLater(from, k), 0 - k) == Some(from)
  {
    AddDaysMeans(from, k);
    StartIsDayNumber(from);
    CountingDays(from, k);
    StartIsDayNumber(DaysLater(from, k));
    AddDaysMeans(DaysLater(from, k), 0 - k);
    RoundTrip(from);
  }

  // ---------- Weekdays ----------

  /** 0 is Sunday; day 0 was a Thursday. */
  function Weekday(n: int): (w: int)
    ensures 0 <= w <= 6
  {
    (n + 4) % 7
  }

  function YearText(year: int): string {
    if year < 0 then "-" + Decimal(-year) else Decimal(year)
  }

  function FormatIso(d: Date): string
    requires ValidDate(d)
  {
    YearText(d.year) + "-" + PadTwo(d.month) + "-" + PadTwo(d.day)
  }

  /** The weekday read from the first three fields of the text; no result stands for not a number. */
  function IsoWeekday(iso: string): Option<int> {
    var parts := Split(iso, '-');
    if |parts| < 3 then None else FieldsWeekday(Number(parts[0]), Number(parts[1]), Number(parts[2]))
  }

  function FieldsWeekday(year: Option<nat>, month: Option<nat>, day: Option<nat>): Option<int> {
    if year.None? || month.None? || day.None? || !(1 <= month.value <= 12) then None
    else
      var n := UtcDay(year.value, month.value, day.value);
      if n.None? then None else Some(Weekday(n.value))
  }

  lemma ThreeFields(a: string, b: string, c: string)
    requires '-' !in a && '-' !in b && '-' !in c
    ensures Split(a + "-" + b + "-" + c, '-') == [a, b, c]
  {
    SplitWithoutSeparator(c, '-');
    SplitAtFirst(b, c, '-');
    SplitAtFirst(a, b + ['-'] + c, '-');
    assert a + ['-'] + (b + ['-'] + c) == a + "-" + b + "-" + c;
  }

  lemma NoDash(s: string)
    requires Number(s).Some?
    ensures '-' !in s
  {
    NumbersHaveDigits(s);
  }

  lemma PrintedFields(d: Date)
    requires ValidDate(d) && d.year >= 0
    ensures Split(FormatIso(d), '-') == [Decimal(d.year), PadTwo(d.month), PadTwo(d.day)]
  {
    NumbersJoined(d.year, d.month, d.day);
  }

  lemma FieldValues(year: nat, month: nat, day: nat)
    ensures Number(Decimal(year)) == Some(year) && Number(PadTwo(month)) == Some(month) && Number(PadTwo(day)) == Some(day)
  {
    NumberOfDecimal(year);
    NumberOfPadTwo(month);
    NumberOfPadTwo(day);
  }

  /** A year before 0 prints as a minus and its number. */
  lemma NegativeYearsPrint(d: Date)
    requires ValidDate(d) && d.year < 0
    ensures FormatIso(d)[0] == '-' && Split(FormatIso(d)[1..], '-') == [Decimal(-d.year), PadTwo(d.month), PadTwo(d.day)]
  {
    NumbersJoined(-d.year, d.month, d.day);
    DropsMinus(Decimal(-d.year), PadTwo(d.month), PadTwo(d.day));
  }

  lemma DropsMinus(year: string, month: string, day: string)
    ensures (("-" + year) + "-" + month + "-" + day)[1..] == year + "-" + month + "-" + day
  {
  }

  lemma NumbersJoined(year: nat, month: nat, day: nat)
    ensures Split(Decimal(year) + "-" + PadTwo(month) + "-" + PadTwo(day), '-') == [Decimal(year), PadTwo(month), PadTwo(day)]
  {
    FieldValues(year, month, day);
    NoDash(Decimal(year));
    NoDash(PadTwo(month));
    NoDash(PadTwo(day));
    ThreeFields(Decimal(year), PadTwo(month), PadTwo(day));
  }

  /** A printed date reads back as the same year, month and day, and so has the weekday of its own day. */
  lemma WeekdayOfPrinted(d: Date, n: int)
    requires ValidDate(d) && d.year >= 100 && n == DayNumber(d) && InRange(n)
    ensures IsoWeekday(FormatIso(d)) == Some(Weekday(n))
  {
    PrintedFields(d);
    FieldValues(d.year, d.month, d.day);
  }

  /**
   * An allocated range: the texts of its two dates, and the weekday read back from the first; none for a date
   * that is no date, which prints without digits.
   */
  datatype Candidate = Candidate(pickup: Option<string>, dropOff: Option<string>, weekday: Option<int>)

  function TextOf(d: Option<Date>): Option<string>
    requires d.Some? ==> ValidDate(d.value)
  {
    if d.None? then None else Some(FormatIso(d.value))
  }

  function WeekdayRead(d: Option<Date>): Option<int>
    requires d.Some? ==> ValidDate(d.value)
  {
    if d.None? then None else IsoWeekday(FormatIso(d.value))
  }

  /** The time zone: which date it shows at the instant computed for midnight of a date. */
  type Zone = Date -> Date

  /** The text of a pickup date is parsed as midnight of that date, if its year has four digits; else today counts. */
  function ReturnDate(pickup: Option<Date>, today: Date, nights: int, zone: Zone): Option<Date> {
    var from := if pickup.Some? && 1000 <= pickup.value.year <= 9999 then zone(pickup.value) else today;
    if ValidDate(from) then AddDays(from, nights) else None
  }

  function CandidateOf(pickup: Option<Date>, dropOff: Option<Date>): Candidate
    requires pickup.Some? ==> ValidDate(pickup.value)
    requires dropOff.Some? ==> ValidDate(dropOff.value)
  {
    Candidate(TextOf(pickup), TextOf(dropOff), WeekdayRead(pickup))
  }

  /** What allocating a range gives for any number of days ahead, on one clock. */
  function Ranges(today: Date, nights: int, zone: Zone): int -> Candidate
    requires ValidDate(today)
  {
    (daysAhead: int) => CandidateOf(AddDays(today, daysAhead), ReturnDate(AddDays(today, daysAhead), today, nights, zone))
  }

  /** The first of the offsets from here to six that falls on the weekday. */
  function FirstOffset(range: int -> Candidate, weekday: int, daysAhead: int, offset: nat): (k: Option<nat>)
    requires offset <= 7
    decreases 7 - offset
  {
    if offset == 7 then None
    else if range(daysAhead + offset).weekday == Some(weekday) then Some(offset)
    else FirstOffset(range, weekday, daysAhead, offset + 1)
  }

  /** The scan over seven offsets, for any way of allocating a range. */
  method AllocateOnWeekday(range: int -> Candidate, weekday: int, daysAhead: int) returns (c: Candidate)
    ensures var k := FirstOffset(range, weekday, daysAhead, 0);
            c == range(if k.Some? then daysAhead + k.value else daysAhead)
  {
    for offset := 0 to 7
      invariant FirstOffset(range, weekday, daysAhead, 0) == FirstOffset(range, weekday, daysAhead, offset)
    {
      c := range(daysAhead + offset);
      if c.weekday == Some(weekday) {
        return;
      }
    }
    c := range(daysAhead);
  }

  lemma {:induction false} FirstOffsetIs(range: int -> Candidate, weekday: int, daysAhead: int, offset: nat, k: nat)
    requires offset <= k < 7 && range(daysAhead + k).weekday == Some(weekday)
    requires forall i: int :: daysAhead + offset <= i < daysAhead + k ==> range(i).weekday != Some(weekday)
    ensures FirstOffset(range, weekday, daysAhead, offset) == Some(k)
    decreases k - offset
  {
    if offset < k { FirstOffsetIs(range, weekday, daysAhead, offset + 1, k); }
  }

  lemma {:induction false} FallsBack(range: int -> Candidate, weekday: int, daysAhead: int, offset: nat)
    requires offset <= 7 && forall i: int :: daysAhead <= i < daysAhead + 7 ==> range(i).weekday != Some(weekday)
    ensures FirstOffset(range, weekday, daysAhead, offset) == None
    decreases 7 - offset
  {
    if offset < 7 { FallsBack(range, weekday, daysAhead, offset + 1); }
  }

  /** The week of dates that is searched lies in the years a date object writes with three digits or more. */
  predicate WeekOk(today: Date, daysAhead: int) {
    && ValidDate(today) && !TwoDigitYear(today) && InRange(DayNumber(today))
    && MakeDay(100, 1, 1) <= DayNumber(today) + daysAhead && DayNumber(today) + daysAhead + 6 <= MAX_DAYS
  }

  lemma ThreeDigitYears(n: int)
    requires MakeDay(100, 1, 1) <= n
    ensures FromDayNumber(n).year >= 100 && n >= -MAX_DAYS
  {
    var d := FromDayNumber(n);
    NumberOfDate(n);
    DaysOrderDates(d, Date(100, 1, 1));
    DayFromYearIsFormula(100);
  }

  lemma AddInWeek(today: Date, daysAhead: int, i: int)
    requires WeekOk(today, daysAhead) && daysAhead <= i <= daysAhead + 6
    ensures AddDays(today, i) == Some(FromDayNumber(DayNumber(today) + i))
    ensures MakeDay(100, 1, 1) <= DayNumber(today) + i <= MAX_DAYS
  {
    StartIsDayNumber(today);
    ThreeDigitYears(DayNumber(today) + i);
    AddDaysMeans(today, i);
  }

  lemma WeekdayOfDay(n: int)
    requires MakeDay(100, 1, 1) <= n <= MAX_DAYS
    ensures IsoWeekday(FormatIso(FromDayNumber(n))) == Some(Weekday(n))
  {
    ThreeDigitYears(n);
    NumberOfDate(n);
    WeekdayOfPrinted(FromDayNumber(n), n);
  }

  /** Each of the seven candidates is the date of its day, and is read as that day's weekday. */
  lemma CandidateInWeek(today: Date, nights: int, zone: Zone, daysAhead: int, i: int, n: int)
    requires WeekOk(today, daysAhead) && daysAhead <= i <= daysAhead + 6 && n == DayNumber(today) + i
    ensures Ranges(today, nights, zone)(i).pickup == Some(FormatIso(FromDayNumber(n)))
    ensures Ranges(today, nights, zone)(i).weekday == Some(Weekday(n))
  {
    AddInWeek(today, daysAhead, i);
    WeekdayOfDay(n);
  }

  /** In a zone that shows midnight's own date, a range with a four-digit year returns its nights after its pickup. */
  lemma ReturnsAfterNights(pickup: Date, today: Date, nights: int, zone: Zone)
    requires ValidDate(pickup) && 1000 <= pickup.year <= 9999 && zone(pickup) == pickup
    requires InRange(DayNumber(pickup)) && InRange(DayNumber(pickup) + nights)
    ensures ReturnDate(Some(pickup), today, nights, zone) == Some(FromDayNumber(DayNumber(pickup) + nights))
    ensures nights >= 0 ==> ReturnDate(Some(pickup), today, nights, zone) == Some(DaysLater(pickup, nights))
  {
    StartIsDayNumber(pickup);
    AddDaysMeans(pickup, nights);
    if nights >= 0 { CountingDays(pickup, nights); }
  }

  /** A pickup that is no date, or whose year has not four digits, is not read back: the nights count from today. */
  lemma OtherwiseFromToday(pickup: Option<Date>, today: Date, nights: int, zone: Zone)
    requires ValidDate(today) && (pickup.Some? ==> pickup.value.year < 1000 || 10000 <= pickup.value.year)
    ensures ReturnDate(pickup, today, nights, zone) == AddDays(today, nights)
  {
  }

  /** How far ahead of a day the weekday comes next. */
  function DaysUntil(n: int, weekday: int): (k: nat)
    ensures k < 7
  {
    (weekday - Weekday(n)) % 7
  }

  /** Of seven days running exactly one falls on a weekday. */
  lemma OneOfSeven(n: int, weekday: int, i: nat)
    requires 0 <= weekday <= 6 && i < 7
    ensures Weekday(n + i) == weekday <==> i == DaysUntil(n, weekday)
  {
  }

  /** Seven candidates that are read as the weekdays of seven days running, from a given day on. */
  predicate Runs(range: int -> Candidate, daysAhead: int, day: int) {
    forall i: int :: daysAhead <= i < daysAhead + 7 ==> range(i).weekday == Some(Weekday(day + i))
  }

  /** The search over such a week: the one offset that falls on the weekday, and none for anything else. */
  lemma SearchInWeek(range: int -> Candidate, day: int, weekday: int, daysAhead: int)
    requires Runs(range, daysAhead, day)
    ensures FirstOffset(range, weekday, daysAhead, 0)
         == if 0 <= weekday <= 6 then Some(DaysUntil(day + daysAhead, weekday)) else None
  {
    var k := DaysUntil(day + daysAhead, weekday);
    if 0 <= weekday <= 6 {
      forall i: int | daysAhead <= i < daysAhead + 7
        ensures range(i).weekday == Some(weekday) <==> i == daysAhead + k
      {
        OneOfSeven(day + daysAhead, weekday, i - daysAhead);
        assert day + daysAhead + (i - daysAhead) == day + i;
      }
      FirstOffsetIs(range, weekday, daysAhead, 0, k);
    } else {
      FallsBack(range, weekday, daysAhead, 0);
    }
  }

  lemma WeekdayInWeek(today: Date, daysAhead: int, i: int, n: int)
    requires WeekOk(today, daysAhead) && daysAhead <= i <= daysAhead + 6 && n == DayNumber(today) + i
    ensures WeekdayRead(AddDays(today, i)) == Some(Weekday(n))
  {
    AddInWeek(today, daysAhead, i);
    WeekdayOfDay(n);
  }

  /** The seven candidates of the search are read as seven weekdays running. */
  lemma {:induction false} CandidatesRun(today: Date, range: int -> Candidate, daysAhead: int, day: int)
    requires WeekOk(today, daysAhead) && day == DayNumber(today)
    requires forall i: int :: range(i).weekday == WeekdayRead(AddDays(today, i))
    ensures Runs(range, daysAhead, day)
  {
    if i: int :| daysAhead <= i < daysAhead + 7 && range(i).weekday != Some(Weekday(day + i)) {
      WeekdayInWeek(today, daysAhead, i, day + i);
      assert false;
    }
  }

  /**
   * For any weekday the search finds the one date of the week that falls on it, so the fallback is never
   * used; for anything that is no weekday it always is.
   */
  lemma SearchAlwaysFinds(
      today: Date, nights: int, zone: Zone, range: int -> Candidate, weekday: int, daysAhead: int, day: int)
    requires WeekOk(today, daysAhead) && day == DayNumber(today) && range == Ranges(today, nights, zone)
    ensures FirstOffset(range, weekday, daysAhead, 0)
         == if 0 <= weekday <= 6 then Some(DaysUntil(day + daysAhead, weekday)) else None
  {
    CandidatesRun(today, range, daysAhead, day);
    SearchInWeek(range, day, weekday, daysAhead);
  }

  // ---------- Known values ----------

  /** The epoch was a Thursday, the first of January 2000 a Saturday, and weekdays follow each other round the week. */
  lemma KnownWeekdays(n: int)
    ensures n == 0 ==> FromDayNumber(n) == Date(1970, 1, 1) && Weekday(n) == 4
    ensures n == 10957 ==> FromDayNumber(n) == Date(2000, 1, 1) && Weekday(n) == 6
    ensures Weekday(n + 1) == if Weekday(n) == 6 then 0 else Weekday(n) + 1
  {
    KnownDays(n);
  }

  /** A two-digit year is one of the twentieth century, and other years are themselves. */
  lemma TwoDigitYearsAre(year: int, month: int, day: int)
    requires 1 <= month <= 12
    ensures 0 <= year <= 99 ==> UtcDay(year, month, day) == UtcDay(1900 + year, month, day)
    ensures !(0 <= year <= 99) && InRange(MakeDay(year, month, day)) ==> UtcDay(year, month, day) == Some(MakeDay(year, month, day))
    ensures UtcDay(1900 + year, month, day).Some? && 0 <= year <= 99 ==>
              UtcDay(year, month, day) == Some(MakeDay(1900 + year, month, day))
  {
  }
}
