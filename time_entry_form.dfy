/**
 * The dialog for adding or editing a time entry. Its fields hold text as the inputs do;
 * on submit an empty id field becomes `null` and a non-empty one is run through
 * `parseInt`. The current date and the date formatting are parameters.
 */
module TimeEntryForm {
  import opened Wrappers
  import opened Types
  import opened JsText

  /** An id as the form submits it: `null`, the number `parseInt` found, or NaN when the
      text has no leading integer. */
  datatype IdField = NullId | IntId(n: int) | NaNId

  /** A nullable id column as a submitted id. */
  function IdOf(id: Option<int>): IdField {
    match id
    case None => NullId
    case Some(n) => IntId(n)
  }

  /** `id?.toString() || ""`: the text an id field starts with. */
  function IdText(id: Option<int>): (r: string)
    ensures r == [] <==> id.None?
  {
    match id
    case None => ""
    case Some(n) => IntToString(n)
  }

  /** `text ? parseInt(text) : null`: the empty string is the only falsy one. */
  function ConvertId(text: string): (r: IdField)
    ensures r.NullId? <==> text == []
    ensures r.IntId? ==> ParseInt(text) == Some(r.n)
    ensures text != [] && ParseInt(text).Some? ==> r.IntId?
  {
    if text == [] then NullId
    else
      match ParseInt(text)
      case Some(n) => IntId(n)
      case None => NaNId
  }

  /** An id field that was filled from an id submits that same id. */
  lemma ConvertIdOfText(id: Option<int>)
    ensures ConvertId(IdText(id)) == IdOf(id)
  {
    if id.Some? {
      ParseIntOfIntToString(id.value);
    }
  }

  /** Text with no digit at all submits NaN. */
  lemma ConvertIdWithoutDigits(text: string)
    requires text != []
    requires NoDecimalDigits(text)
    ensures ConvertId(text) == NaNId
  {
    ParseIntNoDigits(text);
  }

  /** The form's fields. `hours` is None once the hours input held text that `parseFloat`
      makes NaN of. */
  datatype FormData = FormData(task_id: string, subtask_id: string, hours: Option<real>, description: string, date: string)

  /** What `handleSubmit` hands to `onSubmit`: the fields, with the two ids converted. */
  datatype Submission = Submission(task_id: IdField, subtask_id: IdField, hours: Option<real>, description: string, date: string)

  /** The fields the dialog opens with: those of `entry` when one is given, else empty ids,
      0 hours, no description and `today`. `isoDay` turns a stored date into the
      `yyyy-mm-dd` text of the date input. */
  function InitialFormData(entry: Option<TimeEntry>, isoDay: string -> string, today: string): (r: FormData)
    ensures entry.None? ==> r == FormData("", "", Some(0.0), "", today)
    ensures entry.Some? ==> r.task_id == IdText(entry.value.task_id) && r.subtask_id == IdText(entry.value.subtask_id)
    ensures entry.Some? ==> r.hours == Some(entry.value.hours) && r.description == entry.value.description
    ensures r.date == if entry.Some? && entry.value.date != [] then isoDay(entry.value.date) else today
  {
    match entry
    case None => FormData("", "", Some(0.0), "", today)
    case Some(e) =>
      FormData(IdText(e.task_id), IdText(e.subtask_id), Some(e.hours), e.description,
               if e.date != [] then isoDay(e.date) else today)
  }

  /** `{ ...formData, task_id: ..., subtask_id: ... }`. */
  function Submitted(data: FormData): (r: Submission)
    ensures r.hours == data.hours && r.description == data.description && r.date == data.date
    ensures r.task_id == ConvertId(data.task_id) && r.subtask_id == ConvertId(data.subtask_id)
    ensures r.task_id.NullId? <==> data.task_id == []
    ensures r.subtask_id.NullId? <==> data.subtask_id == []
  {
    Submission(ConvertId(data.task_id), ConvertId(data.subtask_id), data.hours, data.description, data.date)
  }

  /** Opening the dialog on an entry and submitting it untouched gives back the entry's own
      ids, hours and description. */
  lemma SubmitUntouchedEntry(entry: TimeEntry, isoDay: string -> string, today: string)
    ensures var r := Submitted(InitialFormData(Some(entry), isoDay, today));
      && r.task_id == IdOf(entry.task_id)
      && r.subtask_id == IdOf(entry.subtask_id)
      && r.hours == Some(entry.hours)
      && r.description == entry.description
  {
    ConvertIdOfText(entry.task_id);
    ConvertIdOfText(entry.subtask_id);
  }

  /** `tasks.find(t => t.id.toString() === taskIdText)`. */
  function FindTask(tasks: seq<Task>, taskIdText: string): (r: Option<Task>)
    ensures r.None? <==> forall t | t in tasks :: IntToString(t.id) != taskIdText
    ensures r.Some? ==> IntToString(r.value.id) == taskIdText
    ensures r.Some? ==> exists i | 0 <= i < |tasks| ::
      (tasks[i] == r.value && forall j | 0 <= j < i :: IntToString(tasks[j].id) != taskIdText)
  {
    if tasks == [] then None
    else if IntToString(tasks[0].id) == taskIdText then Some(tasks[0])
    else
      var r := FindTask(tasks[1..], taskIdText);
      assert forall t | t in tasks[1..] :: t in tasks;
      assert r.Some? ==> forall i | 0 <= i < |tasks[1..]| :: tasks[1..][i] == tasks[i + 1];
      r
  }

  /** `selectedTask?.subtasks || []`: the subtasks offered for the chosen task. */
  function SubtaskOptions(tasks: seq<Task>, taskIdText: string): seq<Subtask> {
    match FindTask(tasks, taskIdText)
    case Some(t) => t.subtasks
    case None => []
  }

  /** With no task chosen no subtask is offered. */
  lemma NoTaskNoSubtasks(tasks: seq<Task>)
    ensures SubtaskOptions(tasks, "") == []
  {
  }

  /** `find` returns the first task whose id text matches. */
  lemma {:induction false} FindFirstMatch(tasks: seq<Task>, i: nat, text: string)
    requires i < |tasks| && IntToString(tasks[i].id) == text
    requires forall j | 0 <= j < i :: IntToString(tasks[j].id) != text
    ensures FindTask(tasks, text) == Some(tasks[i])
  {
    if i > 0 {
      assert tasks[1..][i - 1] == tasks[i];
      forall j | 0 <= j < i - 1 ensures IntToString(tasks[1..][j].id) != text {
        assert tasks[1..][j] == tasks[j + 1];
      }
      FindFirstMatch(tasks[1..], i - 1, text);
    }
  }

  /** Choosing a task offers the subtasks of the first task with that id. */
  lemma ChosenTaskSubtasks(tasks: seq<Task>, i: nat)
    requires i < |tasks|
    requires forall j | 0 <= j < i :: tasks[j].id != tasks[i].id
    ensures SubtaskOptions(tasks, IntToString(tasks[i].id)) == tasks[i].subtasks
  {
    var text := IntToString(tasks[i].id);
    forall j | 0 <= j < i ensures IntToString(tasks[j].id) != text {
      if IntToString(tasks[j].id) == text {
        IntToStringInjective(tasks[j].id, tasks[i].id);
      }
    }
    FindFirstMatch(tasks, i, text);
  }

  /** The dialog's state. `open` is the dialog's visibility as the parent holds it; the
      dialog asks for it to be closed by calling `onOpenChange(false)`. */
  class Form {
    var formData: FormData
    var open: bool

    /** Mounting the form with `entry`: the `useState` initialiser runs once, here. */
    constructor (entry: Option<TimeEntry>, isoDay: string -> string, today: string, open: bool)
      ensures formData == InitialFormData(entry, isoDay, today) && this.open == open
    {
      formData := InitialFormData(entry, isoDay, today);
      this.open := open;
    }

    /** New props for a form that stays mounted: the dialog opens or closes, but the
        fields keep their state, since the initialiser does not run again. */
    method ReceiveProps(entry: Option<TimeEntry>, open: bool)
      modifies this`open
      ensures this.open == open && formData == old(formData)
    {
      this.open := open;
    }

    /** New props for a form remounted for each entry (for instance keyed by the entry's
        id): the fields are initialised from the new entry. */
    method Remount(entry: Option<TimeEntry>, isoDay: string -> string, today: string, open: bool)
      modifies this`formData, this`open
      ensures formData == InitialFormData(entry, isoDay, today) && this.open == open
    {
      formData := InitialFormData(entry, isoDay, today);
      this.open := open;
    }

    /** The subtask select is shown once a task is chosen. */
    predicate SubtaskSelectShown()
      reads this
    {
      formData.task_id != []
    }

    function Subtasks(tasks: seq<Task>): (r: seq<Subtask>)
      reads this
      ensures !SubtaskSelectShown() ==> r == []
    {
      SubtaskOptions(tasks, formData.task_id)
    }

    /** Choosing a task clears the chosen subtask. */
    method SelectTask(value: string)
      modifies this`formData
      ensures formData == old(formData).(task_id := value, subtask_id := "")
    {
      formData := formData.(task_id := value, subtask_id := "");
    }

    method SelectSubtask(value: string)
      modifies this`formData
      ensures formData == old(formData).(subtask_id := value)
    {
      formData := formData.(subtask_id := value);
    }

    /** The hours input stores `parseFloat` of its text. */
    method TypeHours(text: string, parseFloat: string -> Option<real>)
      modifies this`formData
      ensures formData == old(formData).(hours := parseFloat(text))
    {
      formData := formData.(hours := parseFloat(text));
    }

    method TypeDescription(text: string)
      modifies this`formData
      ensures formData == old(formData).(description := text)
    {
      formData := formData.(description := text);
    }

    method TypeDate(text: string)
      modifies this`formData
      ensures formData == old(formData).(date := text)
    {
      formData := formData.(date := text);
    }

    /** `handleSubmit`: hands the converted fields to `onSubmit` and closes the dialog. */
    method Submit() returns (submitted: Submission)
      modifies this`open
      ensures submitted == Submitted(formData) && !open
    {
      submitted := Submitted(formData);
      open := false;
    }
  }

  /** Choosing a task and submitting straight away sends no subtask. */
  method SelectTaskThenSubmit(form: Form, value: string) returns (submitted: Submission)
    modifies form
    ensures submitted.subtask_id == NullId && submitted.task_id == ConvertId(value)
    ensures submitted.hours == old(form.formData.hours) && submitted.description == old(form.formData.description)
  {
    form.SelectTask(value);
    submitted := form.Submit();
  }

  /** The overview mounts the dialog once, with no entry, and hands it an entry when
      "edit" is clicked. As written, the dialog then opens with the fields it was
      mounted with: empty ids, 0 hours, and not the entry's own values. */
  method EditOpensWithMountFields(e: TimeEntry, isoDay: string -> string, today: string) returns (form: Form)
    ensures form.open && form.formData == InitialFormData(None, isoDay, today)
    ensures e.task_id.Some? ==> form.formData.task_id != IdText(e.task_id)
    ensures Submitted(form.formData).task_id == NullId
  {
    form := new Form(None, isoDay, today, false);
    form.ReceiveProps(Some(e), true);
  }

  /** Remounting the dialog for the entry fills it from the entry, so submitting it
      untouched sends the entry's own ids, hours and description. */
  method EditOpensWithEntryFields(e: TimeEntry, isoDay: string -> string, today: string) returns (form: Form)
    ensures form.open && form.formData == InitialFormData(Some(e), isoDay, today)
    ensures Submitted(form.formData).task_id == IdOf(e.task_id)
    ensures Submitted(form.formData).subtask_id == IdOf(e.subtask_id)
    ensures Submitted(form.formData).hours == Some(e.hours)
  {
    form := new Form(None, isoDay, today, false);
    form.Remount(Some(e), isoDay, today, true);
    SubmitUntouchedEntry(e, isoDay, today);
  }
}
