/** The plain month view (CalendarView): the month of one given date, shown once
    at start-up, and the same note store as the navigable view. The day panel
    is reduced to its list of cells. */
module PlainCalendar {
  import opened IsoCalendar
  import opened Grid
  import opened NoteStore

  class CalendarView {
    /** Cells of the day panel, in the order they were added. */
    var dayPanel: seq<Cell>
    var dayNotesMap: Notes
    /** Contents of notes.txt. */
    var notesFile: NotesFile

    /** Start-up. `file` is what notes.txt holds; `shown` and `today` are the two
        readings of the clock's current date (the month shown, and the date highlighted). */
    constructor (file: NotesFile, shown: Date, today: Date)
      requires shown.Valid()
      ensures notesFile == file && dayNotesMap == LoadNotes(map[], file)
      ensures dayPanel == MonthGrid(shown.Month(), today)
    {
      dayNotesMap := map[];
      notesFile := file;
      dayPanel := [];
      new;
      LoadNotesFromFile();
      LoadMonthView(shown, today);
    }

    /** Rebuild the day panel for the month of `date`; its day of the month plays no part. */
    method LoadMonthView(date: Date, today: Date)
      requires date.Valid()
      modifies this`dayPanel
      ensures dayPanel == MonthGrid(date.Month(), today)
    {
      dayPanel := [];
      var yearMonth := YearMonth(date.year, date.month);
      var daysInMonth := LengthOfMonth(yearMonth);
      var startDayOfWeek := DayOfWeek(yearMonth.AtDay(1));

      var i := 1;
      while i < startDayOfWeek
        invariant 1 <= i <= startDayOfWeek
        invariant dayPanel == seq(i - 1, _ => Blank)
      {
        dayPanel := dayPanel + [Blank];
        i := i + 1;
      }

      var day := 1;
      while day <= daysInMonth
        invariant 1 <= day <= daysInMonth + 1
        invariant dayPanel == seq(startDayOfWeek - 1, _ => Blank) + DayCells(yearMonth, today, day - 1)
      {
        var currentDate := Date(date.year, date.month, day);
        dayPanel := dayPanel + [Day(day, currentDate == today)];
        day := day + 1;
      }
    }

    /** The note window's text for `date`. */
    method OpenDayNotesWindow(date: Date) returns (existingNotes: string)
      ensures existingNotes == NoteFor(dayNotesMap, date)
      ensures date !in dayNotesMap ==> existingNotes == ""
    {
      existingNotes := if date in dayNotesMap then dayNotesMap[date] else "";
    }

    /** The note window's Save button: store the text, then write the whole map
        to notes.txt; `outcome` says how the write ended. */
    method SaveDayNotes(date: Date, text: string, outcome: WriteOutcome)
      modifies this`dayNotesMap, this`notesFile
      ensures dayNotesMap == SaveNote(old(dayNotesMap), date, text)
      ensures notesFile == WriteNotes(old(notesFile), dayNotesMap, outcome)
    {
      dayNotesMap := dayNotesMap[date := text];
      SaveNotesToFile(outcome);
    }

    /** Replace the map by the one notes.txt holds; keep it when the read fails. */
    method LoadNotesFromFile()
      modifies this`dayNotesMap
      ensures dayNotesMap == LoadNotes(old(dayNotesMap), notesFile)
    {
      match notesFile
      case Holds(m) => dayNotesMap := m;
      case Unreadable =>
    }

    /** Write the whole map to notes.txt. Opening the file empties it, so a write
        that fails after that leaves nothing readable; one that cannot open the
        file leaves it as it was. Either failure is reported and not raised. */
    method SaveNotesToFile(outcome: WriteOutcome)
      modifies this`notesFile
      ensures notesFile == WriteNotes(old(notesFile), dayNotesMap, outcome)
    {
      match outcome
      case Written => notesFile := Holds(dayNotesMap);
      case NotOpened =>
      case FailedAfterOpen => notesFile := Unreadable;
    }
  }

  /** A note saved and written, then read by a view started afresh on the file
      left behind: the new view holds the same map and shows the saved text. */
  method SaveThenRestart(file: NotesFile, shown: Date, today: Date, date: Date, text: string)
      returns (v: CalendarView, w: CalendarView)
    requires shown.Valid()
    ensures w.dayNotesMap == v.dayNotesMap
    ensures NoteFor(w.dayNotesMap, date) == text
  {
    v := new CalendarView(file, shown, today);
    v.SaveDayNotes(date, text, Written);
    w := new CalendarView(v.notesFile, shown, today);
  }
}
