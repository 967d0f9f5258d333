/** The navigable month view (MonthlyCalendarView): a current month moved by the
    "<" and ">" buttons and by the month dropdown, the month grid it shows, and
    the note store. Swing widgets are reduced to the state they hold: the
    dropdown to its selected index, the month panel to its list of cells. */
module MonthlyCalendar {
  import opened IsoCalendar
  import opened Grid
  import opened NoteStore

  class MonthlyCalendarView {
    var currentMonth: YearMonth
    /** Selected index of the month dropdown, 0 = January. */
    var selectedIndex: int
    /** Cells of the month panel, in the order they were added. */
    var monthPanel: seq<Cell>
    var dayNotesMap: Notes
    /** Contents of notes.txt. */
    var notesFile: NotesFile

    ghost predicate Valid()
      reads this
    {
      currentMonth.Valid() && 0 <= selectedIndex < 12
    }

    /** Start-up. `file` is what notes.txt holds, `now` the clock's current month
        and `today` the clock's current date. The dropdown keeps its initial
        selection, January, whatever month is shown. */
    constructor (file: NotesFile, now: YearMonth, today: Date)
      requires now.Valid()
      ensures Valid()
      ensures notesFile == file && dayNotesMap == LoadNotes(map[], file)
      ensures currentMonth == now && selectedIndex == 0
      ensures monthPanel == MonthGrid(now, today)
    {
      dayNotesMap := map[];
      notesFile := file;
      currentMonth := now;
      selectedIndex := 0;
      monthPanel := [];
      new;
      LoadNotesFromFile();
      LoadMonthView(currentMonth, today);
    }

    /** The "<" (offset -1) and ">" (offset +1) buttons. Setting the dropdown's
        index fires its action listener, which runs ChangeMonthToSelected. */
    method ChangeMonth(offset: int, today: Date)
      requires Valid()
      modifies this`currentMonth, this`selectedIndex, this`monthPanel
      ensures Valid()
      ensures currentMonth == PlusMonths(old(currentMonth), offset)
      ensures selectedIndex == currentMonth.month - 1
      ensures monthPanel == MonthGrid(currentMonth, today)
    {
      currentMonth := PlusMonths(currentMonth, offset);
      SetSelectedIndex(currentMonth.month - 1, today);
      LoadMonthView(currentMonth, today);
    }

    /** Selecting a dropdown entry, by the user or by ChangeMonth: the index
        changes and the dropdown's listener runs. */
    method SetSelectedIndex(index: int, today: Date)
      requires Valid() && 0 <= index < 12
      modifies this`currentMonth, this`selectedIndex, this`monthPanel
      ensures Valid()
      ensures selectedIndex == index
      ensures currentMonth == YearMonth(old(currentMonth).year, index + 1)
      ensures monthPanel == MonthGrid(currentMonth, today)
    {
      selectedIndex := index;
      ChangeMonthToSelected(today);
    }

    /** The dropdown's listener: same year, month taken from the selected index. */
    method ChangeMonthToSelected(today: Date)
      requires Valid()
      modifies this`currentMonth, this`monthPanel
      ensures Valid()
      ensures currentMonth == YearMonth(old(currentMonth).year, selectedIndex + 1)
      ensures monthPanel == MonthGrid(currentMonth, today)
    {
      currentMonth := YearMonth(currentMonth.year, selectedIndex + 1);
      LoadMonthView(currentMonth, today);
    }

    /** Rebuild the month panel: clear it, add the blanks before day 1, then one
        button per day, highlighting the one whose date is `today`. */
    method LoadMonthView(yearMonth: YearMonth, today: Date)
      requires yearMonth.Valid()
      modifies this`monthPanel
      ensures monthPanel == MonthGrid(yearMonth, today)
    {
      monthPanel := [];
      var daysInMonth := LengthOfMonth(yearMonth);
      var startDayOfWeek := DayOfWeek(yearMonth.AtDay(1));

      var i := 1;
      while i < startDayOfWeek
        invariant 1 <= i <= startDayOfWeek
        invariant monthPanel == seq(i - 1, _ => Blank)
      {
        monthPanel := monthPanel + [Blank];
        i := i + 1;
      }

      var day := 1;
      while day <= daysInMonth
        invariant 1 <= day <= daysInMonth + 1
        invariant monthPanel == seq(startDayOfWeek - 1, _ => Blank) + DayCells(yearMonth, today, day - 1)
      {
        var currentDate := Date(yearMonth.year, yearMonth.month, day);
        monthPanel := monthPanel + [Day(day, currentDate == today)];
        day := day + 1;
      }
    }

    /** The note window's text for `date`. */
    method OpenDayNotesWindow(date: Date) returns (existingNotes: string)
      ensures existingNotes == NoteFor(dayNotesMap, date)
      ensures date !in dayNotesMap ==> existingNotes == ""
    {
      existingNotes := if date in dayNotesMap then dayNotesMap[date] else "";
    }

    /** The note window's Save button: store the text, then write the whole map
        to notes.txt; `outcome` says how the write ended. */
    method SaveDayNotes(date: Date, text: string, outcome: WriteOutcome)
      modifies this`dayNotesMap, this`notesFile
      ensures dayNotesMap == SaveNote(old(dayNotesMap), date, text)
      ensures notesFile == WriteNotes(old(notesFile), dayNotesMap, outcome)
    {
      dayNotesMap := dayNotesMap[date := text];
      SaveNotesToFile(outcome);
    }

    /** Replace the map by the one notes.txt holds; keep it when the read fails. */
    method LoadNotesFromFile()
      modifies this`dayNotesMap
      ensures dayNotesMap == LoadNotes(old(dayNotesMap), notesFile)
    {
      match notesFile
      case Holds(m) => dayNotesMap := m;
      case Unreadable =>
    }

    /** Write the whole map to notes.txt. Opening the file empties it, so a write
        that fails after that leaves nothing readable; one that cannot open the
        file leaves it as it was. Either failure is reported and not raised. */
    method SaveNotesToFile(outcome: WriteOutcome)
      modifies this`notesFile
      ensures notesFile == WriteNotes(old(notesFile), dayNotesMap, outcome)
    {
      match outcome
      case Written => notesFile := Holds(dayNotesMap);
      case NotOpened =>
      case FailedAfterOpen => notesFile := Unreadable;
    }
  }

  /** A note saved and written, then read by a view started afresh on the file
      left behind: the new view holds the same map and shows the saved text. */
  method SaveThenRestart(file: NotesFile, now: YearMonth, today: Date, date: Date, text: string)
      returns (v: MonthlyCalendarView, w: MonthlyCalendarView)
    requires now.Valid()
    ensures w.dayNotesMap == v.dayNotesMap
    ensures NoteFor(w.dayNotesMap, date) == text
  {
    v := new MonthlyCalendarView(file, now, today);
    v.SaveDayNotes(date, text, Written);
    w := new MonthlyCalendarView(v.notesFile, now, today);
  }
}
