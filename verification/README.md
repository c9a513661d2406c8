# Note manager: a verified Dafny model

This project models the note store of a small command-line notes program
(`main.py`). A `Note` holds an id, a title, a body and two timestamps. A
`NoteManager` keeps an ordered in-memory list of notes bound to one JSON
file:

- on construction it loads the file, or starts empty when the file does not exist;
- `add_note` appends a note whose id is the current length plus one;
- `edit_note` overwrites the title, body and update time of the first note with a given id;
- `delete_note` removes the first note with a given id;
- every successful change is followed by exactly one `save_notes`, which rewrites the whole file;
- an edit or delete whose id matches no note changes nothing and writes nothing.

Layout:

- `wrappers.dfy`: `Option`.
- `timestamps.dfy`: clock readings and the `"%Y-%m-%d %H:%M:%S"` layout in
  which timestamps are stored. Formatting is proved to be readable back field
  by field, and so injective.
- `notes.dfy`: the `Note` record and its constructor's default-timestamp rule.
  Also the attribute dictionary that is written to and read from the file.
- `note_manager.dfy`: each list operation as a function of the old list
  (`Appended`, `Edited`, `Removed`, `LoadNotes`, `Dump`). Then the class
  `NoteManager`, whose methods do the work step by step and are proved against
  those functions. Then lemmas about ids and about save/load.

The file is a field `disk` of the manager: `None` while the file does not
exist, else the list of dictionaries it holds. A ghost counter `saves` counts
the `save_notes` calls. The clock is a parameter: each method receives the
readings `datetime.now()` would give. Loading takes one pair of readings per
dictionary in the file (`Readings`), since building each note may read the
clock once for its creation time and once for its update time.

The model follows `main.py` as written:

- a new note's id is the list length plus one (main.py:40), so ids are not
  kept unique: add, add, delete id 1, add leaves two notes with id 2
  (`AddAfterDeleteRepeatsId`, `DuplicateIdScenario`);
- timestamps are local clock readings in the layout `YYYY-MM-DD HH:MM:SS`;
- the file is a JSON array of note dictionaries;
- the manager has no lookup operation besides the search inside edit and delete;
- a malformed file raises no error in the model (see "Left out").

## Model

| member | source | states |
|---|---|---|
| Timestamps.ValueOfDigits | main.py:11 | a zero-padded decimal field reads back as the number it renders |
| Timestamps.Format | main.py:11-12 | `strftime("%Y-%m-%d %H:%M:%S")` of a clock reading: a 19-character stamp (its layout and read-back are stated by `FormatReadsBack`) |
| Timestamps.FormatReadsBack | main.py:11-12 | a formatted clock reading has the layout YYYY-MM-DD HH:MM:SS, and its six fields read back as the reading |
| Timestamps.FormatInjective | main.py:51 | two readings give the same timestamp string exactly when they are the same reading to the second |
| Notes.NewNote | main.py:7-12 | the constructor keeps id, title and body; a truthy timestamp argument is kept as given; a missing or empty one becomes the clock reading in the stored layout; the resulting note always has non-empty timestamps |
| Notes.ToStored | main.py:32 | `note.__dict__`: the note's id, title and body, and each timestamp as a present value, which is truthy whenever the note is stamped |
| Notes.FromStored | main.py:28 | `Note(**note_data)`: the dictionary's id, title and body; each truthy timestamp kept, each missing or empty one replaced by its own load-time reading in the layout; the result is always stamped |
| Notes.StoredRoundTrip | main.py:28 | building a note from the dictionary of a stamped note gives back that same note, whatever the clock reads |
| Notes.LoadStampsMissingTimes | main.py:28 | a dictionary without truthy timestamps loads with its creation time from the first load-time reading and its update time from the second, each in the stored layout and readable back as that reading |
| NoteManagement.FirstMatch | main.py:47-48 | the search stops at a note with the id and before it no note has the id; it finds nothing exactly when no note has the id |
| NoteManagement.Appended | main.py:39-42 | adding gives one more note at the end: id old length + 1, the given title and body, both timestamps from the clock; the earlier notes are unchanged and in order |
| NoteManagement.Edited | main.py:47-51 | editing a present id changes only the first note with it: new title, body and update time, same id and creation time; every other note and the length are unchanged; an absent id leaves the list as it was |
| NoteManagement.Removed | main.py:58-60 | deleting a present id drops exactly the first note with it: length one less, notes before it and after it kept in order, the multiset loses just that note; an absent id leaves the list as it was |
| NoteManagement.Dump | main.py:32 | saving writes one dictionary per note, in list order |
| NoteManagement.LoadAll | main.py:28 | loading builds one note per dictionary, in file order, each with its own clock readings |
| NoteManagement.LoadNotes | main.py:23-28 | a file that does not exist loads as an empty list; an existing one as one note per dictionary; every loaded note carries timestamps |
| NoteManagement.NoteManager.constructor | main.py:19-21 | the manager is bound to its file, holds what loading the file gives, and has saved nothing yet |
| NoteManagement.NoteManager.SaveNotes | main.py:30-32 | the file is overwritten with the dictionaries of the current list; the list is unchanged; one more save; loading the file again at any later time gives back exactly the list |
| NoteManagement.NoteManager.AddNote | main.py:39-43 | the list becomes `Appended` of the old list, then the file is rewritten from the new list, exactly one save, and reloading it gives back the new list |
| NoteManagement.NoteManager.EditNote | main.py:46-55 | reports whether the id was present; the list becomes `Edited` of the old list; when present the file is rewritten once, after the change, and reloads as the new list; when absent the file and the save count are untouched |
| NoteManagement.NoteManager.DeleteNote | main.py:57-64 | reports whether the id was present; the list becomes `Removed` of the old list; when present the file is rewritten once, after the removal, and reloads as the new list; when absent nothing changes |
| NoteManagement.LoadAfterSave | main.py:23-32 | loading a file written by a save reproduces the list exactly: ids, titles, bodies and timestamps, whatever the clock reads at load time |
| NoteManagement.AddKeepsCountingFromOne | main.py:40 | while only adds happen, the ids are 1, 2, ..., n in list order |
| NoteManagement.AddUniqueIff | main.py:40 | an add keeps ids distinct if and only if they were distinct and the old length + 1 was not already an id |
| NoteManagement.EditAndDeleteKeepUnique | main.py:46-63 | edits and deletes never make distinct ids collide |
| NoteManagement.DeleteAgainFindsDuplicate | main.py:57-64 | after a delete, the same id is still present exactly when it occurred at least twice; with distinct ids a second delete reports not found |
| NoteManagement.AddAfterDeleteRepeatsId | main.py:39-60 | after adds alone, deleting any note but the last and then adding gives the new note the last note's id, so ids are no longer distinct |
| NoteManagement.DuplicateIdScenario | main.py:39-63 | on a fresh manager, add, add, delete id 1, add leaves the ids [2, 2] |

## Left out

- JSON encoding and decoding, and opening, reading and writing the file: the file is the `disk` field, holding the dictionaries as values.
- Malformed files are not modelled: invalid JSON, a dictionary with a missing or extra key (a `TypeError` from `Note(**note_data)`), non-integer ids, non-string titles or bodies (the program loads them and writes them back unchanged), non-string timestamps. A missing or null timestamp key is modelled, as `None`.
- I/O failures while saving (permissions, full disk): a save always succeeds in the model.
- `os.path.exists` is the `None` / `Some` choice of the `disk` value given to the constructor.
- `datetime.now()` is an input: the methods take the clock readings as parameters. `NewNote` and `AddNote` take two readings, since the constructor reads the clock once per missing timestamp.
- Timestamps.DateTime: covers four-digit years only, because platforms disagree on how `%Y` pads earlier years. Sub-second precision is dropped, as the layout drops it.
- Edits replace the note record at the first matching position. The program assigns the fields of the same `Note` object instead. No reference to a note leaves the manager, so the two are indistinguishable.
- `list_notes`, `__repr__` and every message printed: display only. The "success" and "not found" messages of edit and delete are the `found` result.
- The interactive menu in `main()`, `input()` and `int(...)` parsing, and the default file name `notes.json`: command-line plumbing.
