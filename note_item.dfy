/**
 * One note in the dropdown, with its own edit buffer: viewing shows the note, editing
 * shows a text box holding `editedContent`; save hands the buffer to `onEdit`, cancel
 * restores it from the note.
 */
module NoteItem {
  import opened Types

  /** A call the item makes to its parent. */
  datatype Callback = OnEdit(noteId: int, content: string) | OnDelete(noteId: int)

  class Item {
    const note: Note
    var isEditing: bool
    var editedContent: string

    constructor (note: Note)
      ensures this.note == note && !isEditing && editedContent == note.content
    {
      this.note := note;
      isEditing, editedContent := false, note.content;
    }

    /** The state the item starts in, which cancel returns to. */
    predicate Pristine()
      reads this
    {
      !isEditing && editedContent == note.content
    }

    /** The pencil button: enter editing, keeping the buffer as it is. */
    method StartEditing()
      modifies this`isEditing
      ensures isEditing && editedContent == old(editedContent)
    {
      isEditing := true;
    }

    /** Typing in the text box changes the buffer only; the note is a constant. */
    method Type(text: string)
      modifies this`editedContent
      ensures editedContent == text && isEditing == old(isEditing)
    {
      editedContent := text;
    }

    /** `handleSave`: one call of `onEdit` with the buffer, then back to viewing. */
    method Save() returns (call: Callback)
      modifies this`isEditing
      ensures call == OnEdit(note.id, old(editedContent))
      ensures !isEditing && editedContent == old(editedContent)
    {
      call := OnEdit(note.id, editedContent);
      isEditing := false;
    }

    /** `handleCancel`: the buffer is restored from the note and no callback is made. */
    method Cancel()
      modifies this`isEditing, this`editedContent
      ensures Pristine()
    {
      editedContent := note.content;
      isEditing := false;
    }

    /** The trash button: `onDelete` with the note's id; the buffer is not touched. */
    method Delete() returns (call: Callback)
      ensures call == OnDelete(note.id)
    {
      call := OnDelete(note.id);
    }
  }

  /** Whatever was typed, cancel brings the item back to its initial state. */
  method EditThenCancel(note: Note, text: string) returns (item: Item)
    ensures item.note == note && item.Pristine()
  {
    item := new Item(note);
    item.StartEditing();
    item.Type(text);
    item.Cancel();
  }
}
