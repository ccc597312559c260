/**
 * The header of a task card: while editing it edits the card's buffer `editedTask` (name
 * and progress), otherwise it shows the committed task; its one button saves while
 * editing and enters editing otherwise.
 */
module TaskCardHeader {
  import opened Types
  import opened ProgressInput

  /** The name input's `onChange`: `{ ...editedTask, name }`. */
  function WithName(editedTask: Task, name: string): (r: Task)
    ensures r.name == name && r.(name := editedTask.name) == editedTask
  {
    editedTask.(name := name)
  }

  /** The progress input's `onChange`: `{ ...editedTask, progress }` with the clamped value. */
  function WithProgressInput(editedTask: Task, text: string): (r: Task)
    ensures 0 <= r.progress <= 100 && r.progress == FromInput(text)
    ensures r.(progress := editedTask.progress) == editedTask
  {
    editedTask.(progress := FromInput(text))
  }

  datatype Action = OnSave | OnEditToggle

  /** `onClick={isEditing ? onSave : onEditToggle}`. */
  function ButtonAction(isEditing: bool): (r: Action)
    ensures r == OnSave <==> isEditing
  {
    if isEditing then OnSave else OnEditToggle
  }

  /** What the header shows: the buffer's fields in the inputs while editing, the
      committed task's otherwise. */
  datatype Shown = Shown(name: string, progress: int)

  function Display(task: Task, editedTask: Task, isEditing: bool): (r: Shown)
    ensures !isEditing ==> r == Shown(task.name, task.progress)
    ensures isEditing ==> r == Shown(editedTask.name, editedTask.progress)
  {
    if isEditing then Shown(editedTask.name, editedTask.progress) else Shown(task.name, task.progress)
  }

  /** Edits go to the buffer only: outside editing the header keeps showing the committed
      task, whatever was typed. */
  lemma EditsDoNotShowOutsideEditing(task: Task, editedTask: Task, name: string, text: string)
    ensures Display(task, WithProgressInput(WithName(editedTask, name), text), false) == Shown(task.name, task.progress)
    ensures Display(task, WithProgressInput(WithName(editedTask, name), text), true) == Shown(name, FromInput(text))
  {
  }
}
