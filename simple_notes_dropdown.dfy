/**
 * The earlier notes dropdown, without editing: adding a note also closes the dropdown.
 * It shares the note transforms of the newer dropdown.
 */
module SimpleNotesDropdown {
  import opened Wrappers
  import opened Types
  import opened JsText
  import ND = NotesDropdown

  class Dropdown {
    const taskId: Option<int>
    const subtaskId: Option<int>
    /** The parent's list, replaced whenever the component calls `onNotesChange`. */
    var notes: seq<Note>
    var isOpen: bool
    var newNote: string

    constructor (taskId: Option<int>, subtaskId: Option<int>, notes: seq<Note>)
      ensures this.taskId == taskId && this.subtaskId == subtaskId && this.notes == notes
      ensures !isOpen && newNote == []
    {
      this.taskId, this.subtaskId, this.notes := taskId, subtaskId, notes;
      isOpen, newNote := false, [];
    }

    function Visible(): (r: bool)
      reads this
      ensures !r <==> !isOpen && notes == []
    {
      ND.Renders(isOpen, notes)
    }

    /** The button's `onClick`. */
    method Toggle()
      modifies this`isOpen
      ensures isOpen == !old(isOpen)
    {
      isOpen := !isOpen;
    }

    method TypeNewNote(text: string)
      modifies this`newNote
      ensures newNote == text
    {
      newNote := text;
    }

    /** Whether the add button is enabled: `disabled={!newNote.trim()}`. */
    function CanAdd(): (r: bool)
      reads this
      ensures r <==> !AllWhitespace(newNote)
    {
      TrimEmptyIffBlank(newNote);
      Trim(newNote) != []
    }

    /** `handleAddNote`: blank text makes no call; on success the returned note is
        appended, the text cleared and the dropdown closed; on failure nothing changes. */
    method AddNote(insert: ND.NoteInsert -> Outcome<Note>) returns (request: Option<ND.NoteInsert>)
      modifies this`notes, this`newNote, this`isOpen
      ensures AllWhitespace(old(newNote)) ==>
        request.None? && notes == old(notes) && newNote == old(newNote) && isOpen == old(isOpen)
      ensures !AllWhitespace(old(newNote)) ==> request == Some(ND.NewNoteInsert(taskId, subtaskId, old(newNote)))
      ensures request.Some? && insert(request.value).Success? ==>
        notes == old(notes) + [insert(request.value).value] && newNote == [] && !isOpen
      ensures request.Some? && insert(request.value).Failure? ==>
        notes == old(notes) && newNote == old(newNote) && isOpen == old(isOpen)
    {
      TrimEmptyIffBlank(newNote);
      if Trim(newNote) == [] {
        return None;
      }
      var row := ND.NewNoteInsert(taskId, subtaskId, newNote);
      request := Some(row);
      var reply := insert(row);
      if reply.Success? {
        notes := notes + [reply.value];
        newNote := [];
        isOpen := false;
      }
    }

    /** `handleDeleteNote`. */
    method DeleteNote(noteId: int, delete: int -> bool)
      modifies this`notes
      ensures notes == if delete(noteId) then ND.WithoutNote(old(notes), noteId) else old(notes)
    {
      if delete(noteId) {
        notes := ND.WithoutNote(notes, noteId);
      }
    }
  }
}
