/**
 * A subtask row of an edited task card: its checkbox hands the whole subtask, with
 * completed and progress set, to `onUpdate`; it shows a priority badge and, while editing
 * and when a delete handler is given, a delete button.
 */
module SubtaskItem {
  import opened Wrappers
  import opened Types

  /** `{ ...subtask, completed: checked, progress: checked ? 100 : 0 }`. */
  function Toggled(subtask: Subtask, checked: bool): (r: Subtask)
    ensures r.completed == checked && r.progress == (if checked then 100 else 0)
    ensures r.(completed := subtask.completed, progress := subtask.progress) == subtask
  {
    subtask.(completed := checked, progress := if checked then 100 else 0)
  }

  /** Toggling keeps the id, the task and the priority score of the subtask. */
  lemma ToggledKeepsIdentity(subtask: Subtask, checked: bool)
    ensures Toggled(subtask, checked).id == subtask.id
    ensures Toggled(subtask, checked).task_id == subtask.task_id
    ensures Toggled(subtask, checked).priority_score == subtask.priority_score
  {
  }

  /** Ticking and then unticking gives back the subtask as a fresh, unstarted one. */
  lemma ToggleTwice(subtask: Subtask)
    ensures Toggled(Toggled(subtask, true), false) == Toggled(subtask, false)
    ensures Toggled(Toggled(subtask, false), true) == Toggled(subtask, true)
  {
  }

  /** The score shown by the priority badge: `priority_score || 0`. */
  function BadgeScore(subtask: Subtask): (r: int)
    ensures r == subtask.priority_score
    ensures r == 0 <==> subtask.priority_score == 0
  {
    if subtask.priority_score != 0 then subtask.priority_score else 0
  }

  /** The delete button, when rendered, calls `onDelete(subtask.id)`: it is rendered
      only while editing and only when a delete handler was passed. */
  function DeleteButton(subtask: Subtask, isEditing: bool, hasDeleteHandler: bool): (r: Option<int>)
    ensures r.Some? <==> isEditing && hasDeleteHandler
    ensures r.Some? ==> r.value == subtask.id
  {
    if isEditing && hasDeleteHandler then Some(subtask.id) else None
  }
}
