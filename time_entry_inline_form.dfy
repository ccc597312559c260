/**
 * The inline form for logging time. All its fields hold text; when an entry is being
 * edited the fields are filled from it. Submitting converts the fields and either
 * updates the edited entry or inserts a new one; after a successful save the form is
 * blank again.
 */
module TimeEntryInlineForm {
  import opened Wrappers
  import opened Types
  import F = TimeEntryForm

  datatype FormData = FormData(task_id: string, subtask_id: string, hours: string, description: string, date: string)

  /** The blank form, dated `today`. */
  function Blank(today: string): FormData {
    FormData("", "", "", "", today)
  }

  /** The fields filled from an entry being edited. `hoursText` is `hours.toString()` and
      `isoDay` turns a stored date into the `yyyy-mm-dd` text of the date input. */
  function PopulatedFrom(entry: TimeEntry, hoursText: real -> string, isoDay: string -> string): (r: FormData)
    ensures r.task_id == F.IdText(entry.task_id) && r.subtask_id == F.IdText(entry.subtask_id)
    ensures r.hours == hoursText(entry.hours) && r.description == entry.description && r.date == isoDay(entry.date)
  {
    FormData(F.IdText(entry.task_id), F.IdText(entry.subtask_id), hoursText(entry.hours), entry.description, isoDay(entry.date))
  }

  /** The record `handleSubmit` hands to the mutation. */
  function Payload(data: FormData, parseFloat: string -> Option<real>): (r: F.Submission)
    ensures r.hours == parseFloat(data.hours) && r.description == data.description && r.date == data.date
    ensures r.task_id == F.ConvertId(data.task_id) && r.subtask_id == F.ConvertId(data.subtask_id)
    ensures r.task_id.NullId? <==> data.task_id == []
    ensures r.subtask_id.NullId? <==> data.subtask_id == []
  {
    F.Submission(F.ConvertId(data.task_id), F.ConvertId(data.subtask_id), parseFloat(data.hours), data.description, data.date)
  }

  /** The backend call a submit makes. */
  datatype Save = Update(values: F.Submission, whereId: int) | Insert(row: F.Submission)

  /** An update filtered on the edited entry's id, or an insert when nothing is edited. */
  function SaveFor(editingEntry: Option<TimeEntry>, entry: F.Submission): (r: Save)
    ensures r.Update? <==> editingEntry.Some?
    ensures r.Update? ==> r == Update(entry, editingEntry.value.id)
    ensures r.Insert? ==> r == Insert(entry)
  {
    match editingEntry
    case Some(e) => Update(entry, e.id)
    case None => Insert(entry)
  }

  /** Editing an entry and saving it untouched updates that entry with its own ids, hours,
      description and date, provided printing and parsing the hours give them back. */
  lemma SaveUntouchedEntry(entry: TimeEntry, hoursText: real -> string, isoDay: string -> string,
                           parseFloat: string -> Option<real>)
    requires parseFloat(hoursText(entry.hours)) == Some(entry.hours)
    ensures var r := SaveFor(Some(entry), Payload(PopulatedFrom(entry, hoursText, isoDay), parseFloat));
      && r.Update? && r.whereId == entry.id
      && r.values == F.Submission(F.IdOf(entry.task_id), F.IdOf(entry.subtask_id), Some(entry.hours),
                                entry.description, isoDay(entry.date))
  {
    F.ConvertIdOfText(entry.task_id);
    F.ConvertIdOfText(entry.subtask_id);
  }

  /** Submitting the blank form sends no ids. */
  lemma BlankSendsNoIds(today: string, parseFloat: string -> Option<real>)
    ensures Payload(Blank(today), parseFloat).task_id == F.NullId
    ensures Payload(Blank(today), parseFloat).subtask_id == F.NullId
    ensures Payload(Blank(today), parseFloat).date == today
  {
  }

  class InlineForm {
    var formData: FormData
    /** The `editingEntry` prop. */
    var editingEntry: Option<TimeEntry>
    /** Whether an `onEditComplete` callback was passed. */
    const hasEditComplete: bool

    /** The form starts blank and is then filled by the effect when an entry is edited. */
    constructor (editingEntry: Option<TimeEntry>, hasEditComplete: bool, today: string,
                 hoursText: real -> string, isoDay: string -> string)
      ensures this.editingEntry == editingEntry && this.hasEditComplete == hasEditComplete
      ensures formData == if editingEntry.Some? then PopulatedFrom(editingEntry.value, hoursText, isoDay) else Blank(today)
    {
      this.editingEntry := editingEntry;
      this.hasEditComplete := hasEditComplete;
      formData := if editingEntry.Some? then PopulatedFrom(editingEntry.value, hoursText, isoDay) else Blank(today);
    }

    /** A new `editingEntry` prop: the effect fills the form from it, and leaves the fields
        as they are when the prop is cleared. */
    method SetEditingEntry(entry: Option<TimeEntry>, hoursText: real -> string, isoDay: string -> string)
      modifies this`editingEntry, this`formData
      ensures editingEntry == entry
      ensures formData == if entry.Some? then PopulatedFrom(entry.value, hoursText, isoDay) else old(formData)
    {
      editingEntry := entry;
      if entry.Some? {
        formData := PopulatedFrom(entry.value, hoursText, isoDay);
      }
    }

    method TypeTaskId(text: string)
      modifies this`formData
      ensures formData == old(formData).(task_id := text)
    {
      formData := formData.(task_id := text);
    }

    method TypeDescription(text: string)
      modifies this`formData
      ensures formData == old(formData).(description := text)
    {
      formData := formData.(description := text);
    }

    method TypeHours(text: string)
      modifies this`formData
      ensures formData == old(formData).(hours := text)
    {
      formData := formData.(hours := text);
    }

    method TypeDate(text: string)
      modifies this`formData
      ensures formData == old(formData).(date := text)
    {
      formData := formData.(date := text);
    }

    /** `handleSubmit` and the mutation: `save` is the backend's answer to the call. After a
        success the form is blank, dated `today`, and `onEditComplete` is called when an
        entry was being edited and the callback exists; after a failure nothing changes. */
    method Submit(parseFloat: string -> Option<real>, save: Save -> bool, today: string)
      returns (request: Save, editCompleted: bool)
      modifies this`formData
      ensures request == SaveFor(editingEntry, Payload(old(formData), parseFloat))
      ensures save(request) ==> formData == Blank(today) && editCompleted == (editingEntry.Some? && hasEditComplete)
      ensures !save(request) ==> formData == old(formData) && !editCompleted
    {
      request := SaveFor(editingEntry, Payload(formData, parseFloat));
      editCompleted := false;
      if save(request) {
        formData := Blank(today);
        editCompleted := editingEntry.Some? && hasEditComplete;
      }
    }
  }
}
