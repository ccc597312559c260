/**
 * The data access functions for tasks: `fetchTasks` (every task with its non-archived
 * subtasks), `updateTask` (a partial record filtered on its id) and `createTask` (an insert
 * with defaults for the fields the caller leaves out).
 */
module TaskMutations {
  import opened Wrappers
  import opened Types

  // ---------------------------------------------------------------------------
  // createTask

  /** `Partial<Task>` as given to `createTask`: None is a field left out, or null. */
  datatype TaskDraft = TaskDraft(
    name: Option<string>,
    description: Option<string>,
    icon: Option<string>,
    priority_score: Option<int>,
    progress: Option<int>,
    completed: Option<bool>,
    due_date: Option<string>)

  /** The row `createTask` inserts. */
  datatype TaskInsert = TaskInsert(
    name: Option<string>,
    description: string,
    icon: string,
    priority_score: int,
    progress: int,
    completed: bool,
    due_date: Option<string>)

  /** `v || fallback` on a string: the empty string is falsy. */
  function OrString(v: Option<string>, fallback: string): (r: string)
    ensures v.Some? && v.value != [] ==> r == v.value
    ensures v.None? || v.value == [] ==> r == fallback
  {
    if v.Some? && v.value != [] then v.value else fallback
  }

  /** `v || fallback` on a number: 0 is falsy. */
  function OrInt(v: Option<int>, fallback: int): (r: int)
    ensures v.Some? && v.value != 0 ==> r == v.value
    ensures v.None? || v.value == 0 ==> r == fallback
  {
    if v.Some? && v.value != 0 then v.value else fallback
  }

  /** The insert built from a draft: the name as given, every other field defaulted
      when the draft leaves it out or gives a falsy value. */
  function CreatePayload(draft: TaskDraft): (r: TaskInsert)
    ensures r.name == draft.name
    ensures r.description == OrString(draft.description, "")
    ensures r.icon == OrString(draft.icon, "zap")
    ensures r.priority_score == OrInt(draft.priority_score, 0)
    ensures r.progress == OrInt(draft.progress, 0)
    ensures r.completed == (draft.completed == Some(true))
    ensures r.due_date == if draft.due_date.Some? && draft.due_date.value != [] then draft.due_date else None
  {
    TaskInsert(
      draft.name,
      OrString(draft.description, ""),
      OrString(draft.icon, "zap"),
      OrInt(draft.priority_score, 0),
      OrInt(draft.progress, 0),
      draft.completed.GetOr(false),
      if draft.due_date.Some? && OrString(draft.due_date, "") != [] then draft.due_date else None)
  }

  /** A draft that only names the task gives every default: empty description, icon
      "zap", priority 0, progress 0, not completed, no due date. */
  lemma NameOnlyDefaults(name: string)
    ensures CreatePayload(TaskDraft(Some(name), None, None, None, None, None, None)) ==
      TaskInsert(Some(name), "", "zap", 0, 0, false, None)
  {
  }

  /** `createTask`: `insert` is the backend's answer to the insert. On success the
      inserted row comes back with an empty subtask list; on error nothing is returned. */
  function CreateTask(draft: TaskDraft, insert: TaskInsert -> Outcome<Task>): (r: Outcome<Task>)
    ensures r.Success? <==> insert(CreatePayload(draft)).Success?
    ensures r.Success? ==>
      r.value.subtasks == [] && r.value.(subtasks := insert(CreatePayload(draft)).value.subtasks) == insert(CreatePayload(draft)).value
  {
    match insert(CreatePayload(draft))
    case Failure => Failure
    case Success(row) => Success(row.(subtasks := []))
  }

  // ---------------------------------------------------------------------------
  // updateTask

  /** `Partial<Task> & { id }`. */
  datatype TaskPatch = TaskPatch(
    id: int,
    name: Option<string>,
    description: Option<string>,
    priority_score: Option<int>,
    completed: Option<bool>,
    progress: Option<int>,
    icon: Option<Option<string>>,
    due_date: Option<Option<string>>,
    created_at: Option<string>,
    archived: Option<bool>,
    subtasks: Option<seq<Subtask>>)

  /** An update of `tasks`: the values to set and the id the update is filtered on. */
  datatype UpdateRequest = UpdateRequest(values: TaskPatch, whereId: int)

  /** `updateTask`: the patch is sent as it is, filtered on its own id; the result is
      whether the backend accepted it (false: the error is thrown). */
  function UpdateTask(patch: TaskPatch, update: UpdateRequest -> bool): (r: (UpdateRequest, bool))
    ensures r.0.values == patch && r.0.whereId == patch.id
    ensures r.1 == update(r.0)
  {
    var request := UpdateRequest(patch, patch.id);
    (request, update(request))
  }

  // ---------------------------------------------------------------------------
  // fetchTasks

  /** The filters of a subtask query: `.eq('task_id', taskId).eq('archived', archived)`. */
  datatype SubtaskQuery = SubtaskQuery(taskId: int, archived: bool)

  /** The query `fetchTasks` sends for one task: its subtasks that are not archived. */
  function QueryFor(t: Task): (q: SubtaskQuery)
    ensures q.taskId == t.id && !q.archived
  {
    SubtaskQuery(t.id, false)
  }

  /** Each task with the answer to its subtask query attached, in the order of the tasks;
      a failed subtask query fails the whole fetch. A missing answer (`null`) is `[]`. */
  function AttachSubtasks(tasks: seq<Task>, subtasks: SubtaskQuery -> Outcome<Option<seq<Subtask>>>): (r: Outcome<seq<Task>>)
    ensures r.Success? <==> forall i | 0 <= i < |tasks| :: subtasks(QueryFor(tasks[i])).Success?
    ensures r.Success? ==> |r.value| == |tasks| && forall i | 0 <= i < |tasks| ::
      r.value[i] == tasks[i].(subtasks := subtasks(QueryFor(tasks[i])).value.GetOr([]))
  {
    if tasks == [] then Success([])
    else
      match subtasks(QueryFor(tasks[0]))
      case Failure => Failure
      case Success(subs) =>
        match AttachSubtasks(tasks[1..], subtasks)
        case Failure => Failure
        case Success(rest) => Success([tasks[0].(subtasks := subs.GetOr([]))] + rest)
  }

  /** `fetchTasks`: `tasksReply` is the answer to the task query, `subtasks(q)` the
      answer to the subtask query `q`. */
  function FetchTasks(tasksReply: Outcome<Option<seq<Task>>>, subtasks: SubtaskQuery -> Outcome<Option<seq<Subtask>>>): (r: Outcome<seq<Task>>)
    ensures tasksReply.Failure? ==> r.Failure?
    ensures tasksReply.Success? ==> r == AttachSubtasks(tasksReply.value.GetOr([]), subtasks)
  {
    match tasksReply
    case Failure => Failure
    case Success(rows) => AttachSubtasks(rows.GetOr([]), subtasks)
  }

  /** A row matches a query when both its filtered columns equal the query's values. */
  predicate Matches(s: Subtask, q: SubtaskQuery) {
    s.task_id == q.taskId && s.archived == q.archived
  }

  /** A backend that answers every successful subtask query with exactly the rows of its
      table matching the query, in any order (the query orders them by score, which this
      model leaves to the backend). */
  ghost predicate FaithfulSubtaskBackend(table: seq<Subtask>, subtasks: SubtaskQuery -> Outcome<Option<seq<Subtask>>>) {
    forall q :: subtasks(q).Success? ==>
      var rows := subtasks(q).value.GetOr([]);
      (forall s | s in rows :: s in table && Matches(s, q)) &&
      (forall s | s in table && Matches(s, q) :: s in rows)
  }

  /** Against a faithful backend, every fetched task carries exactly the table's
      non-archived subtasks of that task. */
  lemma FetchedSubtasksAreActiveChildren(table: seq<Subtask>, tasksReply: Outcome<Option<seq<Task>>>,
                                          subtasks: SubtaskQuery -> Outcome<Option<seq<Subtask>>>)
    requires FaithfulSubtaskBackend(table, subtasks)
    requires FetchTasks(tasksReply, subtasks).Success?
    ensures var fetched := FetchTasks(tasksReply, subtasks).value;
      forall i | 0 <= i < |fetched| ::
        (forall s | s in fetched[i].subtasks :: s in table && s.task_id == fetched[i].id && !s.archived) &&
        (forall s | s in table && s.task_id == fetched[i].id && !s.archived :: s in fetched[i].subtasks)
  {
    var tasks := tasksReply.value.GetOr([]);
    var fetched := FetchTasks(tasksReply, subtasks).value;
    forall i | 0 <= i < |fetched|
      ensures (forall s | s in fetched[i].subtasks :: s in table && s.task_id == fetched[i].id && !s.archived) &&
              (forall s | s in table && s.task_id == fetched[i].id && !s.archived :: s in fetched[i].subtasks)
    {
      var q := QueryFor(tasks[i]);
      assert fetched[i].id == tasks[i].id;
      assert subtasks(q).Success?;
      assert fetched[i].subtasks == subtasks(q).value.GetOr([]);
    }
  }
}
