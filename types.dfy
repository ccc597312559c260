/** The entities the client holds copies of: rows of the `tasks`, `subtasks`, `notes` and
    `time_entries` tables, as the application's type declarations describe them. */
module Types {
  import opened Wrappers

  datatype Subtask = Subtask(
    id: int,
    task_id: int,
    name: string,
    description: string,
    priority_score: int,
    completed: bool,
    progress: int,
    due_date: Option<string>,
    archived: bool,
    created_at: string)

  datatype Task = Task(
    id: int,
    name: string,
    description: string,
    priority_score: int,
    completed: bool,
    progress: int,
    icon: Option<string>,
    due_date: Option<string>,
    created_at: string,
    archived: bool,
    subtasks: seq<Subtask>)

  /** A note attaches free text to a task or to a subtask. */
  datatype Note = Note(
    id: int,
    content: string,
    created_at: Option<string>,
    task_id: Option<int>,
    subtask_id: Option<int>)

  /** Hours logged against a task or subtask on one date. */
  datatype TimeEntry = TimeEntry(
    id: int,
    task_id: Option<int>,
    subtask_id: Option<int>,
    hours: real,
    date: string,
    description: string,
    created_at: string)
}
