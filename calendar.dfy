/** Gregorian calendar arithmetic as the two views obtain it from java.time:
    YearMonth.lengthOfMonth, LocalDate.getDayOfWeek and YearMonth.plusMonths.
    The calendar is the proleptic Gregorian calendar of ISO 8601; weekdays are
    numbered Monday = 1 .. Sunday = 7. Years are unbounded integers. */
module IsoCalendar {

  /** A month of a year (java.time.YearMonth); `month` is 1-based. */
  datatype YearMonth = YearMonth(year: int, month: int) {
    predicate Valid() { 1 <= month <= 12 }

    /** The date `day` of this month (YearMonth.atDay). */
    function AtDay(day: int): Date { Date(year, month, day) }
  }

  /** A calendar day (java.time.LocalDate). */
  datatype Date = Date(year: int, month: int, day: int) {
    predicate Valid() {
      1 <= month <= 12 && 1 <= day <= LengthOfMonth(YearMonth(year, month))
    }

    /** The month this date lies in. */
    function Month(): YearMonth { YearMonth(year, month) }
  }

  const Monday: int := 1
  const Thursday: int := 4
  const Saturday: int := 6
  const Sunday: int := 7

  /** The Gregorian rule: every fourth year, except centuries not divisible by 400. */
  predicate IsLeapYear(year: int) {
    year % 4 == 0 && (year % 100 != 0 || year % 400 == 0)
  }

  function LengthOfYear(year: int): int {
    if IsLeapYear(year) then 366 else 365
  }

  /** Number of days in the month (YearMonth.lengthOfMonth). */
  function LengthOfMonth(ym: YearMonth): (n: int)
    requires ym.Valid()
    ensures 28 <= n <= 31
    ensures ym.month == 2 ==> (n == 29 <==> IsLeapYear(ym.year))
    ensures ym.month != 2 ==> n >= 30
  {
    match ym.month
    case 2 => if IsLeapYear(ym.year) then 29 else 28
    case 4 | 6 | 9 | 11 => 30
    case _ => 31
  }

  /** Days from 0000-01-01 to the first of January of `year`; the divisions
      count the leap years before `year` (they round down, also for negative years). */
  function DaysBeforeYear(year: int): int {
    365 * year + (year + 3) / 4 - (year + 99) / 100 + (year + 399) / 400
  }

  /** Days from the first of January to the first of the month. */
  function DaysBeforeMonth(ym: YearMonth): int
    requires ym.Valid()
  {
    (367 * ym.month - 362) / 12
    - (if ym.month <= 2 then 0 else if IsLeapYear(ym.year) then 1 else 2)
  }

  const DaysFromYearZeroTo1970: int := 719528

  /** Days since 1970-01-01 (LocalDate.toEpochDay). */
  function EpochDay(d: Date): int
    requires d.Month().Valid()
  {
    DaysBeforeYear(d.year) + DaysBeforeMonth(d.Month()) + d.day - 1 - DaysFromYearZeroTo1970
  }

  /** ISO weekday of a date (LocalDate.getDayOfWeek().getValue()): 1970-01-01 was a Thursday. */
  function DayOfWeek(d: Date): (w: int)
    requires d.Month().Valid()
    ensures Monday <= w <= Sunday
  {
    (EpochDay(d) + 3) % 7 + 1
  }

  /** Months since January of year 0; the month a YearMonth stands for, as one number. */
  function MonthCount(ym: YearMonth): int {
    ym.year * 12 + (ym.month - 1)
  }

  /** YearMonth.plusMonths: move `months` months forward (backward when negative). */
  function PlusMonths(ym: YearMonth, months: int): (r: YearMonth)
    ensures r.Valid()
    ensures MonthCount(r) == MonthCount(ym) + months
  {
    var count := MonthCount(ym) + months;
    YearMonth(count / 12, count % 12 + 1)
  }

  // ---------------------------------------------------------------------------
  // Month arithmetic

  /** A valid month is determined by its month count. */
  lemma MonthCountInjective(a: YearMonth, b: YearMonth)
    requires a.Valid() && b.Valid()
    requires MonthCount(a) == MonthCount(b)
    ensures a == b
  {
  }

  lemma PlusZeroMonths(ym: YearMonth)
    requires ym.Valid()
    ensures PlusMonths(ym, 0) == ym
  {
    MonthCountInjective(PlusMonths(ym, 0), ym);
  }

  /** Moving by `a` months and then by `b` months moves by `a + b` months. */
  lemma PlusMonthsAdd(ym: YearMonth, a: int, b: int)
    ensures PlusMonths(PlusMonths(ym, a), b) == PlusMonths(ym, a + b)
  {
    MonthCountInjective(PlusMonths(PlusMonths(ym, a), b), PlusMonths(ym, a + b));
  }

  /** The next month; December is followed by January of the next year. */
  lemma NextMonth(ym: YearMonth)
    requires ym.Valid()
    ensures PlusMonths(ym, 1)
         == if ym.month == 12 then YearMonth(ym.year + 1, 1) else YearMonth(ym.year, ym.month + 1)
  {
    var next := if ym.month == 12 then YearMonth(ym.year + 1, 1) else YearMonth(ym.year, ym.month + 1);
    MonthCountInjective(PlusMonths(ym, 1), next);
  }

  /** The previous month; January is preceded by December of the previous year. */
  lemma PreviousMonth(ym: YearMonth)
    requires ym.Valid()
    ensures PlusMonths(ym, -1)
         == if ym.month == 1 then YearMonth(ym.year - 1, 12) else YearMonth(ym.year, ym.month - 1)
  {
    var prev := if ym.month == 1 then YearMonth(ym.year - 1, 12) else YearMonth(ym.year, ym.month - 1);
    MonthCountInjective(PlusMonths(ym, -1), prev);
  }

  /** Going forward one month and back one month returns to the same month, and vice versa. */
  lemma NextThenPreviousRestores(ym: YearMonth)
    requires ym.Valid()
    ensures PlusMonths(PlusMonths(ym, 1), -1) == ym
    ensures PlusMonths(PlusMonths(ym, -1), 1) == ym
  {
    PlusMonthsAdd(ym, 1, -1);
    PlusMonthsAdd(ym, -1, 1);
    PlusZeroMonths(ym);
  }

  // ---------------------------------------------------------------------------
  // Leap years and the day count

  lemma LeapYearExamples()
    ensures IsLeapYear(2024) && LengthOfMonth(YearMonth(2024, 2)) == 29
    ensures !IsLeapYear(1900) && LengthOfMonth(YearMonth(1900, 2)) == 28
    ensures IsLeapYear(2000) && LengthOfMonth(YearMonth(2000, 2)) == 29
    ensures !IsLeapYear(2023) && LengthOfMonth(YearMonth(2023, 2)) == 28
  {
  }

  /** A year has 365 days, or 366 in a leap year, according to the day count. */
  lemma YearStep(year: int)
    ensures DaysBeforeYear(year + 1) == DaysBeforeYear(year) + LengthOfYear(year)
  {
    MultiplesOf4(year);
    MultiplesOf100(year);
    MultiplesOf400(year);
  }

  lemma MultiplesOf4(year: int)
    ensures (year + 4) / 4 == (year + 3) / 4 + (if year % 4 == 0 then 1 else 0)
  {
  }

  lemma MultiplesOf100(year: int)
    ensures (year + 100) / 100 == (year + 99) / 100 + (if year % 100 == 0 then 1 else 0)
    ensures year % 100 == 0 ==> year % 4 == 0
  {
  }

  lemma MultiplesOf400(year: int)
    ensures (year + 400) / 400 == (year + 399) / 400 + (if year % 400 == 0 then 1 else 0)
    ensures year % 400 == 0 ==> year % 100 == 0
  {
  }

  /** The first of the next month lies LengthOfMonth days after the first of this month:
      the day count and the month lengths agree, across the turn of the year too. */
  lemma MonthStep(ym: YearMonth)
    requires ym.Valid()
    ensures EpochDay(PlusMonths(ym, 1).AtDay(1)) == EpochDay(ym.AtDay(1)) + LengthOfMonth(ym)
  {
    NextMonth(ym);
    if ym.month == 12 {
      YearStep(ym.year);
    } else {
      var m := ym.month;
      assert (367 * (m + 1) - 362) / 12 - (367 * m - 362) / 12
          == if m == 2 || m == 4 || m == 6 || m == 9 || m == 11 then 30 else 31
      by {
        if m == 1 {} else if m == 2 {} else if m == 3 {} else if m == 4 {}
        else if m == 5 {} else if m == 6 {} else if m == 7 {} else if m == 8 {}
        else if m == 9 {} else if m == 10 {} else {}
      }
    }
  }

  /** Within a month, each later day is one weekday further on. */
  lemma WeekdayWithinMonth(ym: YearMonth, day: int)
    requires ym.Valid()
    ensures DayOfWeek(ym.AtDay(day)) - 1 == (DayOfWeek(ym.AtDay(1)) - 1 + day - 1) % 7
  {
    var e := EpochDay(ym.AtDay(1));
    assert EpochDay(ym.AtDay(day)) == e + day - 1;
    ModSum(e + 3, day - 1);
  }

  /** The first of the next month falls on the weekday reached by counting on
      LengthOfMonth days from the first of this month. */
  lemma WeekdayOfNextMonth(ym: YearMonth)
    requires ym.Valid()
    ensures DayOfWeek(PlusMonths(ym, 1).AtDay(1)) - 1
         == (DayOfWeek(ym.AtDay(1)) - 1 + LengthOfMonth(ym)) % 7
  {
    MonthStep(ym);
    ModSum(EpochDay(ym.AtDay(1)) + 3, LengthOfMonth(ym));
  }

  lemma ModSum(a: int, b: int)
    ensures (a + b) % 7 == (a % 7 + b) % 7
  {
    var q := a / 7;
    assert a == 7 * q + a % 7;
    assert a + b == 7 * q + (a % 7 + b);
  }

  lemma WeekdayOfUnixEpoch()
    ensures EpochDay(Date(1970, 1, 1)) == 0
    ensures DayOfWeek(Date(1970, 1, 1)) == Thursday
  {
  }

  lemma WeekdayExamples()
    ensures DayOfWeek(Date(2000, 1, 1)) == Saturday
    ensures DayOfWeek(Date(2024, 4, 1)) == Monday
    ensures DayOfWeek(Date(2024, 9, 1)) == Sunday
  {
    assert DaysBeforeYear(2000) == 730485;
    assert DaysBeforeYear(2024) == 739251;
    assert EpochDay(Date(2000, 1, 1)) == 10957;
    assert EpochDay(Date(2024, 4, 1)) == 19814;
    assert EpochDay(Date(2024, 9, 1)) == 19967;
  }
}
