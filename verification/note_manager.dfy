/**
 * `NoteManager` (main.py:18-64): an ordered, in-memory list of notes bound to
 * one JSON file. Every successful add, edit or delete changes the list in
 * place and then rewrites the whole file; an edit or delete whose id matches
 * no note changes nothing and writes nothing.
 *
 * The first half states each operation on the list as a function of the old
 * list; the class below performs the operations step by step and is proved
 * against those functions; the lemmas at the end state what the operations
 * do and do not guarantee about ids and about saving and loading.
 */
module NoteManagement {
  import opened Wrappers
  import opened Timestamps
  import opened Notes

  // ---------------------------------------------------------------------
  // The collection as a value
  // ---------------------------------------------------------------------

  predicate AllStamped(ns: seq<Note>) {
    forall i :: 0 <= i < |ns| ==> Stamped(ns[i])
  }

  predicate HasId(ns: seq<Note>, noteId: int) {
    exists i :: 0 <= i < |ns| && ns[i].noteId == noteId
  }

  /** No two notes of the list share an id. */
  predicate UniqueIds(ns: seq<Note>) {
    forall i, j :: 0 <= i < j < |ns| ==> ns[i].noteId != ns[j].noteId
  }

  /** The ids are 1, 2, ..., |ns| in list order, as after adds alone. */
  predicate IdsCountFromOne(ns: seq<Note>) {
    forall i :: 0 <= i < |ns| ==> ns[i].noteId == i + 1
  }

  /**
   * The position at which the `for note in self.notes` search of edit_note
   * and delete_note stops: the first note whose id matches, if any.
   */
  function FirstMatch(ns: seq<Note>, noteId: int): (r: Option<nat>)
    ensures r.Some? ==> && r.value < |ns| && ns[r.value].noteId == noteId
                        && forall j :: 0 <= j < r.value ==> ns[j].noteId != noteId
    ensures r.None? <==> !HasId(ns, noteId)
  {
    if ns == [] then None
    else if ns[0].noteId == noteId then Some(0)
    else match FirstMatch(ns[1..], noteId)
      case None =>
        assert forall j :: 0 < j < |ns| ==> ns[j] == ns[1..][j - 1];
        None
      case Some(k) => Some(k + 1)
  }

  /**
   * The list after `add_note(title, body)`: one new note at the end whose id
   * is the old length plus one and whose timestamps are the two clock
   * readings the Note constructor takes.
   */
  function Appended(ns: seq<Note>, title: string, body: string,
                    createdNow: DateTime, updatedNow: DateTime): (r: seq<Note>)
    ensures |r| == |ns| + 1 && r[..|ns|] == ns
    ensures r[|ns|].noteId == |ns| + 1 && r[|ns|].title == title && r[|ns|].body == body
    ensures r[|ns|].createdAt == Format(createdNow) && r[|ns|].updatedAt == Format(updatedNow)
  {
    ns + [NewNote(|ns| + 1, title, body, None, None, createdNow, updatedNow)]
  }

  /**
   * The list after `edit_note(note_id, title, body)` with `stamp` the
   * formatted clock reading: only the first note with that id changes, and of
   * it only the title, the body and the update time.
   */
  function Edited(ns: seq<Note>, noteId: int, title: string, body: string, stamp: string): (r: seq<Note>)
    ensures |r| == |ns|
    ensures !HasId(ns, noteId) ==> r == ns
    ensures HasId(ns, noteId) ==>
              var i := FirstMatch(ns, noteId).value;
              && r[i] == Note(noteId, title, body, ns[i].createdAt, stamp)
              && forall j :: 0 <= j < |ns| && j != i ==> r[j] == ns[j]
  {
    match FirstMatch(ns, noteId)
    case None => ns
    case Some(i) => ns[i := ns[i].(title := title, body := body, updatedAt := stamp)]
  }

  /**
   * The list after `delete_note(note_id)`: the first note with that id is
   * taken out and the others keep their relative order.
   */
  function Removed(ns: seq<Note>, noteId: int): (r: seq<Note>)
    ensures !HasId(ns, noteId) ==> r == ns
    ensures HasId(ns, noteId) ==>
              var i := FirstMatch(ns, noteId).value;
              && |r| == |ns| - 1
              && (forall j :: 0 <= j < i ==> r[j] == ns[j])
              && (forall j :: i <= j < |r| ==> r[j] == ns[j + 1])
              && multiset(r) + multiset{ns[i]} == multiset(ns)
  {
    match FirstMatch(ns, noteId)
    case None => ns
    case Some(i) =>
      assert ns == ns[..i] + [ns[i]] + ns[i + 1..];
      ns[..i] + ns[i + 1..]
  }

  /** The dictionaries `save_notes` dumps, one per note, in list order. */
  function Dump(ns: seq<Note>): (fs: seq<StoredNote>)
    ensures |fs| == |ns|
    ensures forall i :: 0 <= i < |ns| ==> fs[i] == ToStored(ns[i])
  {
    if ns == [] then [] else [ToStored(ns[0])] + Dump(ns[1..])
  }

  /**
   * `[Note(**note_data) for note_data in notes_data]`, in file order; the
   * i-th dictionary is built with the i-th pair of clock readings.
   */
  function LoadAll(fs: seq<StoredNote>, clock: seq<Readings>): (ns: seq<Note>)
    requires |clock| == |fs|
    ensures |ns| == |fs|
    ensures forall i :: 0 <= i < |fs| ==> ns[i] == FromStored(fs[i], clock[i])
  {
    if fs == [] then [] else [FromStored(fs[0], clock[0])] + LoadAll(fs[1..], clock[1..])
  }

  /**
   * `load_notes`: an absent file gives an empty list, an existing one the
   * notes its dictionaries describe; every loaded note carries timestamps.
   */
  function LoadNotes(file: Option<seq<StoredNote>>, clock: seq<Readings>): (ns: seq<Note>)
    requires file.Some? ==> |clock| == |file.value|
    ensures file.None? ==> ns == []
    ensures file.Some? ==> |ns| == |file.value|
    ensures AllStamped(ns)
  {
    match file
    case None => []
    case Some(fs) => LoadAll(fs, clock)
  }

  // ---------------------------------------------------------------------
  // The manager object
  // ---------------------------------------------------------------------

  class NoteManager {
    var filePath: string
    var notes: seq<Note>
    /** The JSON file at `filePath`: None while it does not exist, else the dictionaries it holds. */
    var disk: Option<seq<StoredNote>>
    /** How many times `save_notes` has run. */
    ghost var saves: nat

    ghost predicate Valid()
      reads this
    {
      AllStamped(notes)
    }

    /** `NoteManager(file_path)`: binds the file and loads what it holds. */
    constructor (filePath: string, disk: Option<seq<StoredNote>>, clock: seq<Readings>)
      requires disk.Some? ==> |clock| == |disk.value|
      ensures Valid()
      ensures this.filePath == filePath && this.disk == disk
      ensures notes == LoadNotes(disk, clock) && saves == 0
    {
      this.filePath := filePath;
      this.disk := disk;
      notes := LoadNotes(disk, clock);
      saves := 0;
    }

    /**
     * The file holds the list: loading it again, whatever the clock reads,
     * gives back exactly the notes in memory.
     */
    ghost predicate Reloads()
      reads this
    {
      && disk.Some? && |disk.value| == |notes|
      && forall clock: seq<Readings> | |clock| == |notes| :: LoadNotes(disk, clock) == notes
    }

    /** `save_notes`: overwrites the whole file with the current list. */
    method SaveNotes()
      requires Valid()
      modifies this
      ensures disk == Some(Dump(notes)) && saves == old(saves) + 1
      ensures notes == old(notes) && filePath == old(filePath)
      ensures Reloads()
    {
      disk := Some(Dump(notes));
      saves := saves + 1;
      forall clock: seq<Readings> | |clock| == |notes|
        ensures LoadNotes(disk, clock) == notes
      {
        LoadAfterSave(notes, clock);
      }
    }

    /** `add_note`: appends a note with id len + 1, then saves once. */
    method AddNote(title: string, body: string, createdNow: DateTime, updatedNow: DateTime)
      requires Valid()
      modifies this
      ensures Valid()
      ensures notes == Appended(old(notes), title, body, createdNow, updatedNow)
      ensures disk == Some(Dump(notes)) && saves == old(saves) + 1 && Reloads()
      ensures filePath == old(filePath)
    {
      var noteId := |notes| + 1;
      var newNote := NewNote(noteId, title, body, None, None, createdNow, updatedNow);
      notes := notes + [newNote];
      SaveNotes();
    }

    /**
     * `edit_note`: overwrites title, body and update time of the first note
     * with the id and saves once; `found` is false (the "not found" message)
     * when no note has the id, and then neither the list nor the file changes.
     */
    method EditNote(noteId: int, title: string, body: string, now: DateTime) returns (found: bool)
      requires Valid()
      modifies this
      ensures Valid()
      ensures found == HasId(old(notes), noteId)
      ensures notes == Edited(old(notes), noteId, title, body, Format(now))
      ensures found ==> disk == Some(Dump(notes)) && saves == old(saves) + 1 && Reloads()
      ensures !found ==> disk == old(disk) && saves == old(saves)
      ensures filePath == old(filePath)
    {
      var i := 0;
      while i < |notes|
        invariant 0 <= i <= |notes|
        invariant notes == old(notes) && disk == old(disk) && saves == old(saves)
        invariant forall j :: 0 <= j < i ==> notes[j].noteId != noteId
      {
        if notes[i].noteId == noteId {
          notes := notes[i := notes[i].(title := title, body := body, updatedAt := Format(now))];
          SaveNotes();
          found := true;
          return;
        }
        i := i + 1;
      }
      found := false;
    }

    /**
     * `delete_note`: removes the first note with the id and saves once;
     * `found` is false when no note has the id, and then nothing changes.
     */
    method DeleteNote(noteId: int) returns (found: bool)
      requires Valid()
      modifies this
      ensures Valid()
      ensures found == HasId(old(notes), noteId)
      ensures notes == Removed(old(notes), noteId)
      ensures found ==> disk == Some(Dump(notes)) && saves == old(saves) + 1 && Reloads()
      ensures !found ==> disk == old(disk) && saves == old(saves)
      ensures filePath == old(filePath)
    {
      var i := 0;
      while i < |notes|
        invariant 0 <= i <= |notes|
        invariant notes == old(notes) && disk == old(disk) && saves == old(saves)
        invariant forall j :: 0 <= j < i ==> notes[j].noteId != noteId
      {
        if notes[i].noteId == noteId {
          notes := notes[..i] + notes[i + 1..];
          SaveNotes();
          found := true;
          return;
        }
        i := i + 1;
      }
      found := false;
    }
  }

  // ---------------------------------------------------------------------
  // What the operations guarantee, and what they do not
  // ---------------------------------------------------------------------

  /** Saving and then loading the file gives back the list, whatever the clock says at load time. */
  lemma LoadAfterSave(ns: seq<Note>, clock: seq<Readings>)
    requires AllStamped(ns) && |clock| == |ns|
    ensures LoadNotes(Some(Dump(ns)), clock) == ns
  {
  }

  /** Adds alone number the notes 1, 2, 3, ... in order. */
  lemma AddKeepsCountingFromOne(ns: seq<Note>, title: string, body: string,
                                createdNow: DateTime, updatedNow: DateTime)
    requires IdsCountFromOne(ns)
    ensures IdsCountFromOne(Appended(ns, title, body, createdNow, updatedNow))
  {
  }

  /** add_note keeps the ids distinct exactly when the old length plus one is not already an id. */
  lemma AddUniqueIff(ns: seq<Note>, title: string, body: string,
                     createdNow: DateTime, updatedNow: DateTime)
    ensures UniqueIds(Appended(ns, title, body, createdNow, updatedNow))
            <==> UniqueIds(ns) && !HasId(ns, |ns| + 1)
  {
  }

  /** Neither an edit nor a delete introduces an id: each keeps distinct ids distinct. */
  lemma EditAndDeleteKeepUnique(ns: seq<Note>, noteId: int, title: string, body: string, stamp: string)
    requires UniqueIds(ns)
    ensures UniqueIds(Edited(ns, noteId, title, body, stamp))
    ensures UniqueIds(Removed(ns, noteId))
  {
  }

  /**
   * A second delete of the same id finds a note exactly when the id occurred
   * more than once: with distinct ids it always reports "not found".
   */
  lemma DeleteAgainFindsDuplicate(ns: seq<Note>, noteId: int)
    ensures HasId(Removed(ns, noteId), noteId)
            <==> exists i, j :: 0 <= i < j < |ns| && ns[i].noteId == noteId && ns[j].noteId == noteId
  {
    var r := Removed(ns, noteId);
    if HasId(ns, noteId) {
      var k := FirstMatch(ns, noteId).value;
      if HasId(r, noteId) {
        var m :| 0 <= m < |r| && r[m].noteId == noteId;
        assert r[m] == ns[m + 1];
        assert ns[k].noteId == noteId && ns[m + 1].noteId == noteId;
      }
      if exists i, j :: 0 <= i < j < |ns| && ns[i].noteId == noteId && ns[j].noteId == noteId {
        var i, j :| 0 <= i < j < |ns| && ns[i].noteId == noteId && ns[j].noteId == noteId;
        assert k <= i;
        assert r[j - 1] == ns[j];
      }
    }
  }

  /**
   * Ids come from the length, not the largest id: after adds alone, deleting
   * any note but the last and adding again gives the new note the id of the
   * last one, so the ids are no longer distinct.
   */
  lemma AddAfterDeleteRepeatsId(ns: seq<Note>, k: int, title: string, body: string,
                                createdNow: DateTime, updatedNow: DateTime)
    requires IdsCountFromOne(ns)
    requires 1 <= k < |ns|
    ensures var r := Appended(Removed(ns, k), title, body, createdNow, updatedNow);
            && |r| == |ns|
            && r[|ns| - 2].noteId == r[|ns| - 1].noteId == |ns|
            && !UniqueIds(r)
  {
    assert ns[k - 1].noteId == k;
    var d := Removed(ns, k);
    assert FirstMatch(ns, k).value == k - 1;
    assert d[|ns| - 2] == ns[|ns| - 1];
  }

  /**
   * add, add, delete id 1, add: the list ends up holding two notes with id 2.
   */
  method DuplicateIdScenario(now: DateTime) returns (ids: seq<int>)
    ensures ids == [2, 2]
  {
    var m := new NoteManager("notes.json", None, []);
    m.AddNote("first", "", now, now);
    m.AddNote("second", "", now, now);
    var deleted := m.DeleteNote(1);
    m.AddNote("third", "", now, now);
    assert |m.notes| == 2;
    ids := [m.notes[0].noteId, m.notes[1].noteId];
  }
}
