# Calendar notes: month grid, month navigation and the per-day note store

A Dafny model of the logic inside a small desktop calendar with per-day notes.
The program has two near-identical windows: `CalendarView`, which shows the month
of today's date, and `MonthlyCalendarView`, which adds "<" / ">" buttons and a
month dropdown. Both keep a map from dates to note text, read it from the file
`notes.txt` at start-up and write it back whole after every save.

The model has five modules, one file each:

- `IsoCalendar` (`calendar.dfy`): the calendar arithmetic the views get from
  `java.time`. It covers the Gregorian leap-year rule, month lengths, a day count
  since 1970-01-01 (the `toEpochDay` formula), the ISO weekday (Monday = 1 ..
  Sunday = 7) and `plusMonths`. Lemmas tie the day count to the month lengths,
  the turn of the year included. They also give the month wrap-around laws.
- `Grid` (`month_grid.dfy`): the cells the views add to their 7-column grid.
  Each cell is `Blank` or `Day(n, isToday)`. `MonthGrid` gives the grid for one
  month, and lemmas state its shape, the column of each day and the
  "today" highlight.
- `NoteStore` (`note_store.dfy`): the date-to-text map. Reading uses
  `getOrDefault(date, "")` and saving uses `put`. A load either replaces the map
  or leaves it as it was.
- `MonthlyCalendar` (`monthly_calendar_view.dfy`): class `MonthlyCalendarView`.
  It holds the current month, the dropdown's selected index, the month panel's
  cells, the note map and the contents of `notes.txt`. Each of its methods
  updates these fields as the Java methods do.
- `PlainCalendar` (`calendar_view.dfy`): class `CalendarView`, the same without
  navigation.

Behaviour the model keeps as the code has it:

- The number of leading blanks is the ISO weekday of the 1st minus one
  (`MonthlyCalendarView.java:108-113`). The header row, however, starts on
  Sunday (`MonthlyCalendarView.java:65`). So every day sits under the label of
  the weekday before its own. A month starting on Sunday gets six blanks and
  puts day 1 under "Sat" (`Grid.HeaderLabelAboveDay`, `Grid.GridExamples`).
  The Sunday-first header suggests a Sunday = 0 offset; the model follows the
  code instead: April 2024 starts on a Monday and gets no blanks, not one.
- Setting the dropdown's index from `changeMonth` fires the dropdown's action
  listener. That runs `changeMonthToSelected`, which leaves the month unchanged
  and rebuilds the panel; `changeMonth` then rebuilds it a second time
  (`MonthlyCalendarView.SetSelectedIndex`).
- At start-up the dropdown shows its first entry, January, whatever the current
  month is. It only follows the shown month after the first "<" or ">".
- Saving an empty note stores `""` under the date; the key is not removed.

Inputs from outside the program are parameters:

- the clock readings `YearMonth.now()` and `LocalDate.now()`: `now`, `shown`
  and `today`;
- what `notes.txt` holds: a `NotesFile`, either `Holds(map)` or `Unreadable`;
- how a write of `notes.txt` ends: a `WriteOutcome`, one of `Written`,
  `NotOpened` (the file is left as it was) and `FailedAfterOpen` (opening the
  file emptied it, so nothing readable is left).

## Model

| member | source | states |
|---|---|---|
| IsoCalendar.LengthOfMonth | Calender/MonthlyCalendarView.java:107 | a month has 28 to 31 days; February has 29 exactly in Gregorian leap years; other months have at least 30 |
| IsoCalendar.LeapYearExamples | Calender/MonthlyCalendarView.java:107 | 2024 and 2000 are leap years with a 29-day February; 1900 and 2023 are not (28 days) |
| IsoCalendar.DayOfWeek | Calender/MonthlyCalendarView.java:108 | the weekday of a date is an ISO weekday number, Monday = 1 .. Sunday = 7 |
| IsoCalendar.WeekdayOfUnixEpoch | Calender/MonthlyCalendarView.java:108 | 1970-01-01 is day 0 of the day count and a Thursday |
| IsoCalendar.WeekdayExamples | Calender/MonthlyCalendarView.java:108 | 2000-01-01 is a Saturday, 2024-04-01 a Monday, 2024-09-01 a Sunday |
| IsoCalendar.YearStep | Calender/MonthlyCalendarView.java:107-108 | by the day count a year lasts 366 days in a leap year and 365 otherwise, for every year |
| IsoCalendar.MonthStep | Calender/MonthlyCalendarView.java:107-108 | the 1st of the next month lies exactly LengthOfMonth days after the 1st of this month, December to January included |
| IsoCalendar.WeekdayWithinMonth | Calender/MonthlyCalendarView.java:108 | within a month, day d falls d - 1 weekdays (mod 7) after the 1st |
| IsoCalendar.WeekdayOfNextMonth | Calender/MonthlyCalendarView.java:84-86 | the 1st of the next month falls LengthOfMonth weekdays (mod 7) after the 1st of this month |
| IsoCalendar.PlusMonths | Calender/MonthlyCalendarView.java:84 | moving by n months gives a valid month whose month count is the old count plus n |
| IsoCalendar.MonthCountInjective | Calender/MonthlyCalendarView.java:84 | two valid months with the same month count are the same month |
| IsoCalendar.PlusZeroMonths | Calender/MonthlyCalendarView.java:84 | moving by 0 months leaves the month unchanged |
| IsoCalendar.PlusMonthsAdd | Calender/MonthlyCalendarView.java:84 | moving by a months and then by b months equals moving by a + b months |
| IsoCalendar.NextMonth | Calender/MonthlyCalendarView.java:84 | +1 month: December goes to January of the next year, any other month to the next month of the same year |
| IsoCalendar.PreviousMonth | Calender/MonthlyCalendarView.java:84 | -1 month: January goes to December of the previous year, any other month to the previous month of the same year |
| IsoCalendar.NextThenPreviousRestores | Calender/MonthlyCalendarView.java:43-44 | ">" then "<" returns to the original month, and so does "<" then ">" |
| Grid.LeadingBlanks | Calender/MonthlyCalendarView.java:108-113 | 0 to 6 leading blanks; 0 exactly when the month starts on Monday, 6 exactly when it starts on Sunday |
| Grid.MonthGrid | Calender/MonthlyCalendarView.java:107-132 | the cells are LeadingBlanks + LengthOfMonth in number: blanks first, then days 1 .. LengthOfMonth in increasing order |
| Grid.WeekdayColumn | Calender/MonthlyCalendarView.java:108-116 | counting blanks and earlier days from the left, day d lands in the column of its ISO weekday minus one |
| Grid.DayColumnIsWeekday | Calender/MonthlyCalendarView.java:108-116 | day d is the Day(d) cell at position blanks + d - 1, whose column in the 7-column grid is d's ISO weekday minus one |
| Grid.HeaderLabelAboveDay | Calender/MonthlyCalendarView.java:65 | the Sunday-first label above each day names the weekday before the day's own |
| Grid.TodayFlag | Calender/MonthlyCalendarView.java:117-126 | a cell is highlighted iff today is in the shown year and month and the cell is today's day |
| Grid.AtMostOneToday | Calender/MonthlyCalendarView.java:117-126 | no two cells are highlighted, and none when today is in another month |
| Grid.TodayCountInGrid | Calender/CalendarView.java:86-96 | for a valid today, exactly one cell is highlighted when today lies in the shown month and none otherwise |
| Grid.TodayShown | Calender/MonthlyCalendarView.java:116-126 | when today is a date of the shown month, its day cell is highlighted |
| Grid.NextMonthContinues | Calender/MonthlyCalendarView.java:84-86 | the next month's blanks equal the column where this month's days would continue |
| Grid.GridExamples | Calender/MonthlyCalendarView.java:97-132 | April 2024 has no blanks and days 1..30, with day 15 highlighted on 2024-04-15; September 2024 has 6 blanks and day 1 under "Sat" |
| NoteStore.SaveNote | Calender/MonthlyCalendarView.java:153 | after a save the date reads as the saved text, even when it is empty; the keys gain the date; every other date reads as before |
| NoteStore.NoteFor | Calender/MonthlyCalendarView.java:147 | a date with no entry reads as ""; a date with one reads as its stored text |
| NoteStore.SaveEmptyKeepsKey | Calender/CalendarView.java:123 | saving "" keeps or adds the key, and the number of keys grows by one only if the date was new |
| NoteStore.SaveOverwrites | Calender/CalendarView.java:123 | a later save to the same date replaces the earlier one entirely |
| NoteStore.SavesCommute | Calender/CalendarView.java:123 | saves to two different dates give the same store in either order |
| NoteStore.SaveShownTextChangesNoReading | Calender/CalendarView.java:117-123 | saving the text the window opened with changes no date's reading |
| NoteStore.StartupStore | Calender/MonthlyCalendarView.java:28-31 | after start-up with an unreadable file the store is the empty map and every date reads ""; with a readable file it is the file's map |
| NoteStore.LoadNotes | Calender/MonthlyCalendarView.java:168-174 | a readable file's map replaces the current map; after a failed read the current map stays |
| NoteStore.WriteNotes | Calender/MonthlyCalendarView.java:177-183 | read back at start-up, a finished write gives the map written, a write that failed after opening gives the empty store, and a file that could not be opened is unchanged |
| NoteStore.SaveThenLoad | Calender/MonthlyCalendarView.java:168-183 | loading after a finished write gives the map written, whatever map the reader held; after a write that failed once opened, the reader keeps its own map |
| MonthlyCalendar.MonthlyCalendarView.constructor | Calender/MonthlyCalendarView.java:20-80 | the notes are loaded into a fresh empty map; the shown month is `now`; the dropdown is at index 0; the panel holds that month's grid |
| MonthlyCalendar.MonthlyCalendarView.ChangeMonth | Calender/MonthlyCalendarView.java:83-87 | the month moves by the offset; the dropdown index becomes month - 1, within 0..11; the panel holds the new month's grid |
| MonthlyCalendar.MonthlyCalendarView.SetSelectedIndex | Calender/MonthlyCalendarView.java:45 | selecting index i keeps the year, shows month i + 1 and rebuilds the panel |
| MonthlyCalendar.MonthlyCalendarView.ChangeMonthToSelected | Calender/MonthlyCalendarView.java:90-94 | the year is kept, the month becomes the selected index + 1, and the panel holds that month's grid |
| MonthlyCalendar.MonthlyCalendarView.LoadMonthView | Calender/MonthlyCalendarView.java:97-137 | the two loops leave exactly MonthGrid(month, today) in the panel |
| MonthlyCalendar.MonthlyCalendarView.OpenDayNotesWindow | Calender/MonthlyCalendarView.java:146-148 | the window opens with the stored note, or "" if there is none |
| MonthlyCalendar.MonthlyCalendarView.SaveDayNotes | Calender/MonthlyCalendarView.java:152-156 | the map gains date ↦ text (upsert), and notes.txt is what writing that whole map leaves for the given outcome |
| MonthlyCalendar.MonthlyCalendarView.LoadNotesFromFile | Calender/MonthlyCalendarView.java:168-174 | a readable file replaces the map; an unreadable one leaves it as it was |
| MonthlyCalendar.MonthlyCalendarView.SaveNotesToFile | Calender/MonthlyCalendarView.java:177-183 | notes.txt holds the whole map after a finished write, is unchanged when it could not be opened, and is unreadable after a write that failed once opened |
| MonthlyCalendar.SaveThenRestart | Calender/MonthlyCalendarView.java:152-183 | a view started on the file a successful save left behind holds the saved map and shows the saved text for that date |
| PlainCalendar.CalendarView.constructor | Calender/CalendarView.java:18-63 | the notes are loaded into a fresh empty map, and the panel holds the grid of the month of the given date |
| PlainCalendar.CalendarView.LoadMonthView | Calender/CalendarView.java:66-107 | the two loops leave exactly MonthGrid(month of date, today) in the panel; the date's day plays no part |
| PlainCalendar.CalendarView.OpenDayNotesWindow | Calender/CalendarView.java:116-118 | the window opens with the stored note, or "" if there is none |
| PlainCalendar.CalendarView.SaveDayNotes | Calender/CalendarView.java:122-126 | the map gains date ↦ text (upsert), and notes.txt is what writing that whole map leaves for the given outcome |
| PlainCalendar.CalendarView.LoadNotesFromFile | Calender/CalendarView.java:138-144 | a readable file replaces the map; an unreadable one leaves it as it was |
| PlainCalendar.CalendarView.SaveNotesToFile | Calender/CalendarView.java:147-153 | notes.txt holds the whole map after a finished write, is unchanged when it could not be opened, and is unreadable after a write that failed once opened |
| PlainCalendar.SaveThenRestart | Calender/CalendarView.java:122-153 | a view started on the file a successful save left behind holds the saved map and shows the saved text for that date |

## Left out

- Swing: frames, panels, buttons, labels, colours, fonts, `revalidate`/`repaint`, `setVisible` and `invokeLater`. A grid cell is reduced to `Blank` or `Day(n, isToday)`, and the dropdown to its selected index. A day button's listener is the call to `OpenDayNotesWindow` for its date.
- The month label text (`Month.toString` plus the year) and the console and stack-trace logging. These are formatting and output only.
- Java serialisation of the map to `notes.txt`. The file is a `NotesFile` value: a map, or `Unreadable`, which stands for every caught failure (missing file, `IOException`, `ClassNotFoundException`).
- A file holding a serialised object that is not a `Map` raises a `ClassCastException`, which the `catch` does not cover, so start-up fails. That path is not modelled.
- A deserialised map can hold `null` values; the model's notes are always strings.
- A write that fails after opening is modelled as leaving `notes.txt` unreadable. The partial bytes it may leave are not modelled.
- IsoCalendar.PlusMonths: years are unbounded. `java.time` rejects years outside ±999,999,999 with a `DateTimeException`; this is not modelled.
- The clock is not read: the current month and today's date are parameters. The two clock readings in each view are separate parameters, so they may differ, as they can around midnight.
- Events run one at a time on the Swing event thread, and the model treats each method as atomic. Several note windows open at once may each save; the model covers each save on its own.
