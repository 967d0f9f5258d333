/** The cells both views lay out in their 7-column month grid (GridLayout(0, 7)),
    reduced from Swing widgets to values: a blank label or a day button whose
    number is its day of the month and whose highlight marks "today". */
module Grid {
  import opened IsoCalendar

  datatype Cell = Blank | Day(day: int, isToday: bool)

  predicate IsTodayCell(c: Cell) { c.Day? && c.isToday }

  /** Number of blank labels before day 1: one fewer than the ISO weekday of the
      first of the month. It is 0 to 6: none when the month starts on Monday,
      six when it starts on Sunday. */
  function LeadingBlanks(ym: YearMonth): (n: nat)
    requires ym.Valid()
    ensures n <= 6
    ensures n == 0 <==> DayOfWeek(ym.AtDay(1)) == Monday
    ensures n == 6 <==> DayOfWeek(ym.AtDay(1)) == Sunday
  {
    DayOfWeek(ym.AtDay(1)) - 1
  }

  /** The first `count` day buttons of the month, days 1 .. count. */
  function DayCells(ym: YearMonth, today: Date, count: nat): seq<Cell> {
    seq(count, k => Day(k + 1, ym.AtDay(k + 1) == today))
  }

  /** What the month panel holds once loadMonthView has run for `ym`: the
      leading blanks, then days 1 .. LengthOfMonth in increasing order, and
      nothing else. */
  function MonthGrid(ym: YearMonth, today: Date): (cells: seq<Cell>)
    requires ym.Valid()
    ensures |cells| == LeadingBlanks(ym) + LengthOfMonth(ym)
    ensures forall i :: 0 <= i < LeadingBlanks(ym) ==> cells[i] == Blank
    ensures forall i :: LeadingBlanks(ym) <= i < |cells| ==>
              cells[i].Day? && cells[i].day == i - LeadingBlanks(ym) + 1
    ensures forall i, j :: LeadingBlanks(ym) <= i < j < |cells| ==> cells[i].day < cells[j].day
  {
    seq(LeadingBlanks(ym), _ => Blank) + DayCells(ym, today, LengthOfMonth(ym))
  }

  /** Grid column (0 = leftmost) of the cell at position `index`. */
  function Column(index: nat): nat { index % 7 }

  /** Header labels, left to right, as both views add them. */
  const HeaderLabels: seq<string> := ["Sun", "Mon", "Tue", "Wed", "Thu", "Fri", "Sat"]

  /** Short English name of an ISO weekday (1 = Monday .. 7 = Sunday). */
  function WeekdayName(weekday: int): string
    requires Monday <= weekday <= Sunday
  {
    ["Mon", "Tue", "Wed", "Thu", "Fri", "Sat", "Sun"][weekday - 1]
  }

  // ---------------------------------------------------------------------------

  /** Counting blanks and earlier days from the left, day `day` of the month
      lands in the column of its ISO weekday minus one (Monday leftmost). */
  lemma WeekdayColumn(ym: YearMonth, day: int)
    requires ym.Valid() && 1 <= day
    ensures Column(LeadingBlanks(ym) + day - 1) == DayOfWeek(ym.AtDay(day)) - 1
  {
    WeekdayWithinMonth(ym, day);
  }

  /** The button of day `day` is the grid cell in the column of its ISO weekday
      minus one. */
  lemma DayColumnIsWeekday(ym: YearMonth, today: Date, day: int)
    requires ym.Valid() && 1 <= day <= LengthOfMonth(ym)
    ensures LeadingBlanks(ym) + day - 1 < |MonthGrid(ym, today)|
    ensures MonthGrid(ym, today)[LeadingBlanks(ym) + day - 1].Day?
    ensures MonthGrid(ym, today)[LeadingBlanks(ym) + day - 1].day == day
    ensures Column(LeadingBlanks(ym) + day - 1) == DayOfWeek(ym.AtDay(day)) - 1
  {
    WeekdayColumn(ym, day);
  }

  /** Under the Sunday-first header the label above a day names the weekday
      before the day's own: day 1 of a month that starts on Sunday sits under "Sat". */
  lemma HeaderLabelAboveDay(ym: YearMonth, day: int)
    requires ym.Valid() && 1 <= day <= LengthOfMonth(ym)
    ensures var w := DayOfWeek(ym.AtDay(day));
            HeaderLabels[Column(LeadingBlanks(ym) + day - 1)]
            == WeekdayName(if w == Monday then Sunday else w - 1)
  {
    WeekdayColumn(ym, day);
  }

  /** A cell is highlighted exactly when it is the button of today's date. */
  lemma TodayFlag(ym: YearMonth, today: Date, i: int)
    requires ym.Valid() && 0 <= i < |MonthGrid(ym, today)|
    ensures IsTodayCell(MonthGrid(ym, today)[i]) <==>
              today.Month() == ym && 1 <= today.day <= LengthOfMonth(ym)
              && i == LeadingBlanks(ym) + today.day - 1
  {
  }

  /** At most one cell is highlighted, and none when today lies outside the month. */
  lemma AtMostOneToday(ym: YearMonth, today: Date)
    requires ym.Valid()
    ensures forall i, j :: 0 <= i < j < |MonthGrid(ym, today)| ==>
              !(IsTodayCell(MonthGrid(ym, today)[i]) && IsTodayCell(MonthGrid(ym, today)[j]))
    ensures today.Month() != ym ==>
              forall i :: 0 <= i < |MonthGrid(ym, today)| ==> !IsTodayCell(MonthGrid(ym, today)[i])
  {
    forall i, j | 0 <= i < j < |MonthGrid(ym, today)|
      ensures !(IsTodayCell(MonthGrid(ym, today)[i]) && IsTodayCell(MonthGrid(ym, today)[j]))
    {
      TodayFlag(ym, today, i);
      TodayFlag(ym, today, j);
    }
    forall i | 0 <= i < |MonthGrid(ym, today)|
      ensures today.Month() != ym ==> !IsTodayCell(MonthGrid(ym, today)[i])
    {
      TodayFlag(ym, today, i);
    }
  }

  /** Number of highlighted cells. */
  function TodayCount(cells: seq<Cell>): nat {
    if cells == [] then 0
    else TodayCount(cells[..|cells| - 1]) + (if IsTodayCell(cells[|cells| - 1]) then 1 else 0)
  }

  lemma {:induction false} TodayCountAppend(a: seq<Cell>, b: seq<Cell>)
    ensures TodayCount(a + b) == TodayCount(a) + TodayCount(b)
  {
    if b == [] {
      assert a + b == a;
    } else {
      assert (a + b)[..|a + b| - 1] == a + b[..|b| - 1];
      TodayCountAppend(a, b[..|b| - 1]);
    }
  }

  lemma {:induction false} NoTodayAmongBlanks(n: nat)
    ensures TodayCount(seq(n, _ => Blank)) == 0
  {
    if n > 0 {
      assert seq(n, _ => Blank)[..n - 1] == seq(n - 1, _ => Blank);
      NoTodayAmongBlanks(n - 1);
    }
  }

  /** Among the first `count` day buttons, one is highlighted when today is one of
      those days of the month, and none otherwise. */
  lemma {:induction false} TodayCountInDays(ym: YearMonth, today: Date, count: nat)
    ensures TodayCount(DayCells(ym, today, count))
         == if today.Month() == ym && 1 <= today.day <= count then 1 else 0
  {
    if count > 0 {
      assert DayCells(ym, today, count)[..count - 1] == DayCells(ym, today, count - 1);
      TodayCountInDays(ym, today, count - 1);
    }
  }

  /** Exactly one cell of the grid is highlighted when today is a date of the
      shown month, and none when it is not. */
  lemma TodayCountInGrid(ym: YearMonth, today: Date)
    requires ym.Valid() && today.Valid()
    ensures TodayCount(MonthGrid(ym, today)) == if today.Month() == ym then 1 else 0
  {
    TodayCountAppend(seq(LeadingBlanks(ym), _ => Blank), DayCells(ym, today, LengthOfMonth(ym)));
    NoTodayAmongBlanks(LeadingBlanks(ym));
    TodayCountInDays(ym, today, LengthOfMonth(ym));
  }

  /** When today is a valid date of the shown month, its button is the one highlighted cell. */
  lemma TodayShown(ym: YearMonth, today: Date)
    requires ym.Valid() && today.Valid() && today.Month() == ym
    ensures LeadingBlanks(ym) + today.day - 1 < |MonthGrid(ym, today)|
    ensures MonthGrid(ym, today)[LeadingBlanks(ym) + today.day - 1] == Day(today.day, true)
  {
  }

  /** The next month's grid starts in the column where this month's days would continue. */
  lemma NextMonthContinues(ym: YearMonth)
    requires ym.Valid()
    ensures LeadingBlanks(PlusMonths(ym, 1)) == Column(LeadingBlanks(ym) + LengthOfMonth(ym))
  {
    WeekdayOfNextMonth(ym);
  }

  /** April 2024 starts on a Monday: no blanks, then days 1 .. 30, day 15 highlighted
      when today is 2024-04-15. September 2024 starts on a Sunday: six blanks. */
  lemma GridExamples()
    ensures var g := MonthGrid(YearMonth(2024, 4), Date(2024, 4, 15));
            |g| == 30 && g[0] == Day(1, false) && g[14] == Day(15, true) && g[29] == Day(30, false)
    ensures var g := MonthGrid(YearMonth(2024, 9), Date(2024, 4, 15));
            |g| == 36 && g[5] == Blank && g[6] == Day(1, false)
            && HeaderLabels[Column(6)] == "Sat"
  {
    WeekdayExamples();
  }
}
