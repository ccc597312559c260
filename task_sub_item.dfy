/**
 * A subtask row inside a task card with its checkbox and its progress field; each change
 * is reported to the parent as a partial update `{ id, completed, progress }`.
 */
module TaskSubItem {
  import opened Types
  import opened ProgressInput

  datatype SubtaskPatch = SubtaskPatch(id: int, completed: bool, progress: int)

  /** `onCheckedChange`: ticked gives 100, unticked gives 0. */
  function CheckboxPatch(subtask: Subtask, checked: bool): (r: SubtaskPatch)
    ensures r.id == subtask.id && r.completed == checked
    ensures r.progress == if checked then 100 else 0
  {
    SubtaskPatch(subtask.id, checked, if checked then 100 else 0)
  }

  /** The progress field's `onChange`: the typed value clamped into 0..100, and completed
      exactly when it reaches 100. */
  function ProgressPatch(subtask: Subtask, text: string): (r: SubtaskPatch)
    ensures r.id == subtask.id && r.progress == FromInput(text)
    ensures 0 <= r.progress <= 100
    ensures r.completed <==> r.progress == 100
  {
    var progress := FromInput(text);
    SubtaskPatch(subtask.id, progress == 100, progress)
  }

  /** Every patch the row sends keeps the pairing of completed with progress 100. */
  lemma PatchesPairCompletedWithFull(subtask: Subtask, checked: bool, text: string)
    ensures CheckboxPatch(subtask, checked).completed <==> CheckboxPatch(subtask, checked).progress == 100
    ensures ProgressPatch(subtask, text).completed <==> ProgressPatch(subtask, text).progress == 100
  {
  }
}
