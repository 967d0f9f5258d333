/** The per-day note store both views keep in `dayNotesMap` (a HashMap from
    LocalDate to String) and persist whole to the file notes.txt. */
module NoteStore {
  import opened IsoCalendar

  type Notes = map<Date, string>

  /** What reading notes.txt yields: the deserialised map, or a failure
      (missing file, I/O error, unknown class) that the views catch and log. */
  datatype NotesFile = Holds(notes: Notes) | Unreadable

  /** How writing notes.txt ends: the whole map written; the file could not be
      opened (it is left as it was); or the write failed after opening the file,
      which FileOutputStream empties on opening, so nothing readable is left. */
  datatype WriteOutcome = Written | NotOpened | FailedAfterOpen

  /** The text shown in the note window (Map.getOrDefault(date, "")): the stored
      note, or the empty text for a date without one. */
  function NoteFor(notes: Notes, date: Date): (text: string)
    ensures date !in notes ==> text == ""
    ensures date in notes ==> text == notes[date]
  {
    if date in notes then notes[date] else ""
  }

  /** The Save button (Map.put): an upsert; empty text is stored, not removed. */
  function SaveNote(notes: Notes, date: Date, text: string): (r: Notes)
    ensures NoteFor(r, date) == text
    ensures r.Keys == notes.Keys + {date}
    ensures forall other :: other != date ==> NoteFor(r, other) == NoteFor(notes, other)
  {
    notes[date := text]
  }

  /** The map held after loadNotesFromFile: the map read replaces the current one;
      on a failed read the current one stays. */
  function LoadNotes(current: Notes, file: NotesFile): (r: Notes)
    ensures file.Holds? ==> r == file.notes
    ensures file.Unreadable? ==> r == current
  {
    match file
    case Holds(m) => m
    case Unreadable => current
  }

  /** What notes.txt holds after saveNotesToFile wrote `notes` over `file`. Read
      back at start-up, a finished write gives the map written, a write that failed
      after opening gives the empty store, and an unopened file is as it was. */
  function WriteNotes(file: NotesFile, notes: Notes, outcome: WriteOutcome): (r: NotesFile)
    ensures outcome.Written? ==> LoadNotes(map[], r) == notes
    ensures outcome.FailedAfterOpen? ==> LoadNotes(map[], r) == map[]
    ensures outcome.NotOpened? ==> r == file
  {
    match outcome
    case Written => Holds(notes)
    case NotOpened => file
    case FailedAfterOpen => Unreadable
  }

  // ---------------------------------------------------------------------------

  /** Saving the empty text keeps (or adds) the key: the entry is overwritten, not deleted. */
  lemma SaveEmptyKeepsKey(notes: Notes, date: Date)
    ensures date in SaveNote(notes, date, "")
    ensures NoteFor(SaveNote(notes, date, ""), date) == ""
    ensures |SaveNote(notes, date, "").Keys| == |notes.Keys| + (if date in notes then 0 else 1)
  {
    var r := SaveNote(notes, date, "");
    if date in notes {
      assert r.Keys == notes.Keys;
    } else {
      assert r.Keys == notes.Keys + {date};
    }
  }

  /** A later save to the same date overwrites the earlier one. */
  lemma SaveOverwrites(notes: Notes, date: Date, first: string, second: string)
    ensures SaveNote(SaveNote(notes, date, first), date, second) == SaveNote(notes, date, second)
  {
  }

  /** Saves to different dates do not interfere, in either order. */
  lemma SavesCommute(notes: Notes, d1: Date, t1: string, d2: Date, t2: string)
    requires d1 != d2
    ensures SaveNote(SaveNote(notes, d1, t1), d2, t2) == SaveNote(SaveNote(notes, d2, t2), d1, t1)
  {
  }

  /** Saving the text a date already reads as changes no reading, though it may add the key. */
  lemma SaveShownTextChangesNoReading(notes: Notes, date: Date, other: Date)
    ensures NoteFor(SaveNote(notes, date, NoteFor(notes, date)), other) == NoteFor(notes, other)
  {
  }

  /** The store built at start-up: a freshly created empty map, replaced by the
      file's map when the file can be read and left empty when it cannot. */
  lemma StartupStore(file: NotesFile, date: Date)
    ensures file.Unreadable? ==> LoadNotes(map[], file) == map[]
    ensures file.Unreadable? ==> NoteFor(LoadNotes(map[], file), date) == ""
    ensures file.Holds? ==> NoteFor(LoadNotes(map[], file), date) == NoteFor(file.notes, date)
  {
  }

  /** A store written whole to the file and read back is the same store, whatever
      map the reader held before; after a write that failed once the file was
      opened, the reader keeps its own map. */
  lemma SaveThenLoad(current: Notes, file: NotesFile, saved: Notes)
    ensures LoadNotes(current, WriteNotes(file, saved, Written)) == saved
    ensures LoadNotes(current, WriteNotes(file, saved, FailedAfterOpen)) == current
    ensures LoadNotes(current, WriteNotes(file, saved, NotOpened)) == LoadNotes(current, file)
  {
  }
}
