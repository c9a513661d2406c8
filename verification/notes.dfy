/**
 * The `Note` record (main.py:6-12): an id, a title, a body and two timestamps
 * kept as strings, plus the attribute dictionary through which a note is
 * written to and read back from the JSON notes file.
 */
module Notes {
  import opened Wrappers
  import opened Timestamps

  datatype Note = Note(noteId: int, title: string, body: string, createdAt: string, updatedAt: string)

  /**
   * Python truthiness of an optional timestamp argument: a missing value
   * (None) and the empty string are falsy, any other string is truthy.
   */
  predicate Truthy(t: Option<string>) {
    t.Some? && t.value != ""
  }

  /** Both timestamps of a note are non-empty, so they survive a save and a load. */
  predicate Stamped(n: Note) {
    n.createdAt != "" && n.updatedAt != ""
  }

  /**
   * `Note(note_id, title, body, created_at, updated_at)`. Each timestamp
   * argument is kept when truthy; otherwise the constructor reads the clock
   * (once per missing timestamp, hence two readings) and stores the reading
   * in the "%Y-%m-%d %H:%M:%S" layout.
   */
  function NewNote(noteId: int, title: string, body: string,
                   createdAt: Option<string>, updatedAt: Option<string>,
                   createdNow: DateTime, updatedNow: DateTime): (n: Note)
    ensures n.noteId == noteId && n.title == title && n.body == body
    ensures Truthy(createdAt) ==> n.createdAt == createdAt.value
    ensures !Truthy(createdAt) ==> n.createdAt == Format(createdNow) && InLayout(n.createdAt)
    ensures Truthy(updatedAt) ==> n.updatedAt == updatedAt.value
    ensures !Truthy(updatedAt) ==> n.updatedAt == Format(updatedNow) && InLayout(n.updatedAt)
    ensures Stamped(n)
  {
    FormatReadsBack(createdNow);
    FormatReadsBack(updatedNow);
    Note(noteId, title, body,
         if Truthy(createdAt) then createdAt.value else Format(createdNow),
         if Truthy(updatedAt) then updatedAt.value else Format(updatedNow))
  }

  /**
   * One element of the JSON array in the notes file: a note's attribute
   * dictionary. A timestamp key that is absent or null reads as None.
   */
  datatype StoredNote = StoredNote(noteId: int, title: string, body: string,
                                   createdAt: Option<string>, updatedAt: Option<string>)

  /** `note.__dict__`, the dictionary `save_notes` writes for a note. */
  function ToStored(n: Note): (f: StoredNote)
    ensures f.noteId == n.noteId && f.title == n.title && f.body == n.body
    ensures f.createdAt.Some? && f.updatedAt.Some?
    ensures Stamped(n) ==> Truthy(f.createdAt) && Truthy(f.updatedAt)
  {
    StoredNote(n.noteId, n.title, n.body, Some(n.createdAt), Some(n.updatedAt))
  }

  /**
   * The two clock readings `Note(**note_data)` may take while one dictionary
   * is loaded: one for a missing creation time, one for a missing update time.
   */
  datatype Readings = Readings(createdNow: DateTime, updatedNow: DateTime)

  /** `Note(**note_data)`, the note `load_notes` builds from a dictionary. */
  function FromStored(f: StoredNote, clock: Readings): (n: Note)
    ensures n.noteId == f.noteId && n.title == f.title && n.body == f.body
    ensures n.createdAt == if Truthy(f.createdAt) then f.createdAt.value else Format(clock.createdNow)
    ensures n.updatedAt == if Truthy(f.updatedAt) then f.updatedAt.value else Format(clock.updatedNow)
    ensures Stamped(n)
  {
    NewNote(f.noteId, f.title, f.body, f.createdAt, f.updatedAt, clock.createdNow, clock.updatedNow)
  }

  /**
   * Reading back a saved dictionary reproduces the note exactly, whatever the
   * clock says: the stamped timestamps are kept as given.
   */
  lemma StoredRoundTrip(n: Note, clock: Readings)
    requires Stamped(n)
    ensures FromStored(ToStored(n), clock) == n
  {
  }

  /**
   * A dictionary whose timestamps are missing or empty is stamped with the
   * load-time readings, each of which can be read back from its string.
   */
  lemma LoadStampsMissingTimes(f: StoredNote, clock: Readings)
    requires !Truthy(f.createdAt) && !Truthy(f.updatedAt)
    ensures var n := FromStored(f, clock);
            && n.createdAt == Format(clock.createdNow) && FieldsOf(n.createdAt) == clock.createdNow
            && n.updatedAt == Format(clock.updatedNow) && FieldsOf(n.updatedAt) == clock.updatedNow
  {
    FormatReadsBack(clock.createdNow);
    FormatReadsBack(clock.updatedNow);
  }
}
