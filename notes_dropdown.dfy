/**
 * The notes dropdown of a task or subtask: the list transforms applied to the notes after
 * a successful backend call (append, edit by id, delete by id) and the component's own
 * state, whether the dropdown is open and the text of the note being written.
 */
module NotesDropdown {
  import opened Wrappers
  import opened Types
  import opened JsText

  /** The row sent by an insert into `notes`. */
  datatype NoteInsert = NoteInsert(task_id: Option<int>, subtask_id: Option<int>, content: string)

  /** The partial row `{ content }` sent by an update of `notes` filtered on `id`. */
  datatype NoteUpdate = NoteUpdate(id: int, content: string)

  /** The insert built from the text typed by the user: the text trimmed, attached to the
      task or subtask the dropdown belongs to. */
  function NewNoteInsert(taskId: Option<int>, subtaskId: Option<int>, text: string): (r: NoteInsert)
    ensures r.task_id == taskId && r.subtask_id == subtaskId && r.content == Trim(text)
    ensures r.content == [] || (!IsWhitespace(r.content[0]) && !IsWhitespace(r.content[|r.content| - 1]))
  {
    TrimIsSlice(text);
    NoteInsert(taskId, subtaskId, Trim(text))
  }

  /** `notes.map(note => note.id === noteId ? { ...note, content: content.trim() } : note)`. */
  function EditedNotes(notes: seq<Note>, noteId: int, content: string): (r: seq<Note>)
    ensures |r| == |notes|
    ensures forall i | 0 <= i < |notes| ::
      && r[i].(content := []) == notes[i].(content := [])
      && r[i].content == if notes[i].id == noteId then Trim(content) else notes[i].content
  {
    seq(|notes|, i requires 0 <= i < |notes| =>
      if notes[i].id == noteId then notes[i].(content := Trim(content)) else notes[i])
  }

  /** `notes.filter(note => note.id !== noteId)`. */
  function WithoutNote(notes: seq<Note>, noteId: int): (r: seq<Note>)
    ensures |r| <= |notes|
  {
    if notes == [] then []
    else (if notes[0].id == noteId then [] else [notes[0]]) + WithoutNote(notes[1..], noteId)
  }

  /** Deleting removes exactly the notes with that id. */
  lemma {:induction false} WithoutNoteMembers(notes: seq<Note>, noteId: int)
    ensures forall n :: n in WithoutNote(notes, noteId) <==> n in notes && n.id != noteId
  {
    if notes != [] {
      WithoutNoteMembers(notes[1..], noteId);
      assert notes == [notes[0]] + notes[1..];
    }
  }

  predicate HasNoteId(notes: seq<Note>, noteId: int) {
    exists i | 0 <= i < |notes| :: notes[i].id == noteId
  }

  /** Editing twice with the same text is the same as editing once. */
  lemma EditIdempotent(notes: seq<Note>, noteId: int, content: string)
    ensures EditedNotes(EditedNotes(notes, noteId, content), noteId, content) == EditedNotes(notes, noteId, content)
  {
    TrimIdempotent(content);
  }

  /** Editing an id no note has leaves the list as it was. */
  lemma EditAbsentId(notes: seq<Note>, noteId: int, content: string)
    requires !HasNoteId(notes, noteId)
    ensures EditedNotes(notes, noteId, content) == notes
  {
  }

  /** Deleting keeps the order of what remains: it works piece by piece. */
  lemma {:induction false} WithoutNoteConcat(a: seq<Note>, b: seq<Note>, noteId: int)
    ensures WithoutNote(a + b, noteId) == WithoutNote(a, noteId) + WithoutNote(b, noteId)
  {
    if a == [] {
      assert a + b == b;
    } else {
      var head := if a[0].id == noteId then [] else [a[0]];
      assert (a + b)[0] == a[0];
      assert (a + b)[1..] == a[1..] + b;
      assert WithoutNote(a + b, noteId) == head + WithoutNote(a[1..] + b, noteId);
      WithoutNoteConcat(a[1..], b, noteId);
      assert WithoutNote(a, noteId) == head + WithoutNote(a[1..], noteId);
    }
  }

  /** Deleting an id no note has leaves the list as it was. */
  lemma {:induction false} WithoutAbsentId(notes: seq<Note>, noteId: int)
    requires !HasNoteId(notes, noteId)
    ensures WithoutNote(notes, noteId) == notes
  {
    if notes != [] {
      assert !HasNoteId(notes[1..], noteId) by {
        forall i | 0 <= i < |notes[1..]| ensures notes[1..][i].id != noteId {
          assert notes[1..][i] == notes[i + 1];
        }
      }
      WithoutAbsentId(notes[1..], noteId);
      assert notes == [notes[0]] + notes[1..];
    }
  }

  /** Deleting a note that was just appended, under an id not used before, gives back the
      list from before the append. */
  lemma DeleteUndoesAppend(notes: seq<Note>, note: Note)
    requires !HasNoteId(notes, note.id)
    ensures WithoutNote(notes + [note], note.id) == notes
  {
    WithoutNoteConcat(notes, [note], note.id);
    WithoutAbsentId(notes, note.id);
    assert WithoutNote([note], note.id) == [];
  }

  /** The dropdown renders nothing when it is closed and there are no notes. */
  function Renders(isOpen: bool, notes: seq<Note>): (r: bool)
    ensures !r <==> !isOpen && notes == []
  {
    !(!isOpen && |notes| == 0)
  }

  class Dropdown {
    const taskId: Option<int>
    const subtaskId: Option<int>
    /** The parent's list, replaced whenever the component calls `onNotesChange`. */
    var notes: seq<Note>
    var isOpen: bool
    var newNote: string

    constructor (taskId: Option<int>, subtaskId: Option<int>, notes: seq<Note>)
      ensures this.taskId == taskId && this.subtaskId == subtaskId && this.notes == notes
      ensures !isOpen && newNote == []
    {
      this.taskId, this.subtaskId, this.notes := taskId, subtaskId, notes;
      isOpen, newNote := false, [];
    }

    function Visible(): (r: bool)
      reads this
      ensures !r <==> !isOpen && notes == []
    {
      Renders(isOpen, notes)
    }

    /** `handleClick`: the button flips the open state. */
    method Click()
      modifies this`isOpen
      ensures isOpen == !old(isOpen)
    {
      isOpen := !isOpen;
    }

    /** Typing in the new-note box. */
    method TypeNewNote(text: string)
      modifies this`newNote
      ensures newNote == text
    {
      newNote := text;
    }

    /** `handleAddNote`. `insert` is the backend's answer to the insert; the result is the
        insert issued, None when the text was blank and no call was made. */
    method AddNote(insert: NoteInsert -> Outcome<Note>) returns (request: Option<NoteInsert>)
      modifies this`notes, this`newNote
      ensures AllWhitespace(old(newNote)) ==> request.None? && notes == old(notes) && newNote == old(newNote)
      ensures !AllWhitespace(old(newNote)) ==> request == Some(NewNoteInsert(taskId, subtaskId, old(newNote)))
      ensures request.Some? && insert(request.value).Success? ==>
        notes == old(notes) + [insert(request.value).value] && newNote == []
      ensures request.Some? && insert(request.value).Failure? ==>
        notes == old(notes) && newNote == old(newNote)
    {
      TrimEmptyIffBlank(newNote);
      if Trim(newNote) == [] {
        return None;
      }
      var row := NewNoteInsert(taskId, subtaskId, newNote);
      request := Some(row);
      var reply := insert(row);
      if reply.Success? {
        notes := notes + [reply.value];
        newNote := [];
      }
    }

    /** `handleEditNote`: the content is trimmed before it is sent and stored. `update` is
        the backend's answer. */
    method EditNote(noteId: int, content: string, update: NoteUpdate -> bool) returns (request: NoteUpdate)
      modifies this`notes
      ensures request == NoteUpdate(noteId, Trim(content))
      ensures notes == if update(request) then EditedNotes(old(notes), noteId, content) else old(notes)
    {
      request := NoteUpdate(noteId, Trim(content));
      if update(request) {
        notes := EditedNotes(notes, noteId, content);
      }
    }

    /** `handleDeleteNote`: the delete is filtered on `noteId`; `delete` is the backend's
        answer. */
    method DeleteNote(noteId: int, delete: int -> bool)
      modifies this`notes
      ensures notes == if delete(noteId) then WithoutNote(old(notes), noteId) else old(notes)
    {
      if delete(noteId) {
        notes := WithoutNote(notes, noteId);
      }
    }
  }
}
