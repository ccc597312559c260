# Slimme taken dashboard — a verified model of its logic

The dashboard is a React front end over a hosted database. It holds tasks with subtasks
and notes, and a time registration. This project models the parts of it that compute
something rather than only display it:

- drag-and-drop reordering of tasks and subtasks, with the renumbering of
  `priority_score` and the one-at-a-time sending of the task updates;
- the notes dropdowns (append, edit and delete by id, blank notes refused, content
  trimmed) and the edit buffer of a single note;
- the checkbox and progress patches of subtasks, progress clamping, and the task card
  header's edit buffer;
- the task data functions `createTask`, `updateTask` and `fetchTasks`;
- the task list's colour buckets, icon choice, archived-subtask filter and percentage rule;
- the score badge's colour scale;
- the weekly grouping of time entries with their hour totals, newest week first;
- the two time entry forms, their initial contents, their submit conversion and the
  choice between insert and update.

The backend is always a function parameter that answers each request with success or
failure, and with the returned row where there is one. The week a date falls in is an
uninterpreted function `weekOf` from a date string to a key string. Hours are `real`.
The JavaScript string operations the components use (`trim`, `parseInt`,
`Number.prototype.toString` on integers, `split`, string ordering) are written out in
module `JsText`.

Modules, one per source file plus shared ones:

| file | module | source |
|---|---|---|
| wrappers.dfy | `Wrappers` | `Option` and `Outcome` (success with a value, or failure) |
| js_text.dfy | `JsText` | JavaScript string built-ins |
| types.dfy | `Types` | src/types/index.ts and the `notes` table |
| reorder.dfy | `Reorder` | the two `splice` calls of a drag |
| score_order.dfy | `ScoreOrder` | rows fetched ordered by descending `priority_score` |
| task_list_drag.dfy | `TaskListDrag` | src/components/TaskList/index.tsx |
| subtask_list.dfy | `SubtaskList` | src/components/TaskList/SubtaskList.tsx |
| notes_dropdown.dfy | `NotesDropdown` | src/components/TaskList/Notes/NotesDropdown.tsx |
| simple_notes_dropdown.dfy | `SimpleNotesDropdown` | src/components/TaskList/NotesDropdown.tsx |
| note_item.dfy | `NoteItem` | src/components/TaskList/Notes/NoteItem.tsx |
| progress_input.dfy | `ProgressInput` | the clamp shared by TaskSubItem.tsx and TaskCardHeader.tsx |
| task_sub_item.dfy | `TaskSubItem` | src/components/TaskList/TaskSubItem.tsx |
| subtask_item.dfy | `SubtaskItem` | src/components/TaskList/SubtaskItem.tsx |
| task_card_header.dfy | `TaskCardHeader` | src/components/TaskList/TaskCardHeader.tsx |
| task_mutations.dfy | `TaskMutations` | src/components/TaskList/mutations.ts |
| task_list_view.dfy | `TaskListView` | src/components/TaskList.tsx |
| score_badge.dfy | `ScoreBadge` | src/components/TaskList/Badges/ScoreBadge.tsx |
| weekly_overview.dfy | `WeeklyOverview` | src/components/TimeRegistration/WeeklyOverview.tsx |
| time_entry_form.dfy | `TimeEntryForm` | src/components/TimeEntryForm.tsx |
| time_entry_inline_form.dfy | `TimeEntryInlineForm` | src/components/TimeRegistration/TimeEntryInlineForm.tsx |

Components whose state changes step by step are classes, and their handlers are methods
with `modifies` clauses. These are the two notes dropdowns, the note item and the two time
entry forms. The drag handlers copy the list into an array and move the item in place, as
the source's `Array.from` and `splice` do. The week grouping fills its accumulator in a
loop. The rest of the code is pure and is modelled as functions with lemmas about them.

**Dropping a task where it was picked up.** `handleTaskDragEnd`
(src/components/TaskList/index.tsx:45-64) has no guard for a drop onto the position the
task came from: it rewrites all n scores then as well.
`TaskListDrag.DropInPlaceRewritesAll` shows that the order is kept and all n updates are
still planned. `TaskListDrag.RescoredUnchangedIff` shows that the rows end up unchanged
exactly when they already had the scores n, n-1, …, 1.

**The time entry dialog keeps the fields it was mounted with.** Its `useState`
initialiser (src/components/TimeEntryForm.tsx:23-29) runs only when the form mounts.
The constructor of `TimeEntryForm.Form` is that mount. `Form.ReceiveProps` is a later
prop change, which opens or closes the dialog and leaves the fields alone.

## Model

| member | source | states |
|---|---|---|
| Reorder.Remove | src/components/TaskList/index.tsx:52 | `splice(i, 1)`: one element shorter; positions before `i` are kept and later ones move down by one |
| Reorder.Insert | src/components/TaskList/index.tsx:53 | `splice(j, 0, x)`: one element longer; `x` is at `j`, earlier positions are kept and later ones move up by one |
| Reorder.MoveAt | src/components/TaskList/index.tsx:51-53 | where every element ends up after a move: the dragged one at the destination, the ones in between shifted towards the source, the others in place |
| Reorder.MoveIsPermutation | src/components/TaskList/index.tsx:51-53 | the moved list has the same length and the same multiset of elements |
| Reorder.MoveLandsAtDestination | src/components/TaskList/index.tsx:51-53 | the element from `sourceIndex` ends up at `destIndex` |
| Reorder.MoveKeepsOthersInOrder | src/components/TaskList/index.tsx:51-53 | removing the moved element from the result gives the original without it, so all other elements keep their relative order |
| Reorder.MoveToSameIndex | src/components/TaskList/index.tsx:51-53 | a move onto the same index leaves the list unchanged |
| Reorder.MoveUndo | src/components/TaskList/index.tsx:51-53 | dragging back from the destination to the source restores the list |
| Reorder.MoveInPlace | src/components/TaskList/index.tsx:51-53 | the two splices done in place on an array leave exactly the moved sequence |
| TaskListDrag.DescendingUpdatesNumbering | src/components/TaskList/index.tsx:56-59 | one update per task, in list order; the scores lie in 1..n and strictly decrease, so they are distinct |
| TaskListDrag.MovedIdsArePermutation | src/components/TaskList/index.tsx:51-59 | the ids after a move are the moved ids, and the updated ids are a permutation of the original ids |
| TaskListDrag.AllUpdatesApplied | src/components/TaskList/index.tsx:56-63 | once every update has succeeded, rows with distinct ids carry exactly the score of their new position |
| ScoreOrder.SortedByScoreUnique | src/components/TaskList/mutations.ts:8 | two orderings of the same rows, sorted by descending score with one of them strictly, are equal, so a sort on distinct scores leaves no choice |
| TaskListDrag.FetchOrderMatchesVisualOrder | src/components/TaskList/index.tsx:56-59 | fetching the rescored rows back sorted by descending score gives exactly the dropped order |
| TaskListDrag.IssuedIsPrefix | src/components/TaskList/index.tsx:61-63 | the updates issued are a prefix of the planned ones; all but the last were accepted, and the last was rejected unless the whole plan went through |
| TaskListDrag.SendInOrder | src/components/TaskList/index.tsx:61-63 | the awaiting loop issues exactly the updates up to the first rejection, and it completes exactly when every update was issued and accepted |
| TaskListDrag.HandleTaskDragEnd | src/components/TaskList/index.tsx:45-64 | with no destination or no tasks, nothing is sent; otherwise the descending updates of the moved list are sent in order and stop at the first failure |
| TaskListDrag.DropInPlaceRewritesAll | src/components/TaskList/index.tsx:51-62 | dropping at the source index keeps the order, yet all n updates are still planned |
| TaskListDrag.RescoredUnchangedIff | src/components/TaskList/index.tsx:56-59 | renumbering leaves the rows unchanged exactly when they already carried the scores n, n-1, …, 1 |
| TaskListDrag.DragBelowScenario | src/components/TaskList/index.tsx:45-64 | dragging A below B in [A, B] sends B score 2 and then A score 1, leaving the order [B, A] |
| SubtaskList.AscendingScores | src/components/TaskList/SubtaskList.tsx:33-36 | same length; the subtask at position i gets score i + 1 and keeps every other field |
| SubtaskList.AscendingScoresOrdered | src/components/TaskList/SubtaskList.tsx:33-36 | the scores lie in 1..n and strictly ascend, so they are distinct |
| SubtaskList.AscendingScoresKeepIds | src/components/TaskList/SubtaskList.tsx:34 | renumbering keeps the ids and their order |
| SubtaskList.DraggedSubtasks | src/components/TaskList/SubtaskList.tsx:28-36 | after a drag the length is the same, the dragged subtask sits at the destination with score destination + 1 and otherwise unchanged, and the ids are a permutation of the input's |
| SubtaskList.RefetchReversesDroppedOrder | src/components/TaskList/SubtaskList.tsx:33-36 | two subtasks dropped as [a, b] are numbered 1 and 2, and a fetch ordered by descending score returns them as [b, a] |
| SubtaskList.DescendingScores | src/components/TaskList/SubtaskList.tsx:33-36 | the corrected numbering: position i gets score n - i, and every other field is kept |
| SubtaskList.DescendingScoresSurviveRefetch | src/components/TaskList/mutations.ts:20 | with the corrected numbering, a fetch ordered by descending score returns exactly the dropped order |
| SubtaskList.HandleDragEnd | src/components/TaskList/SubtaskList.tsx:22-39 | with no destination `onSubtasksChange` is not called; otherwise it receives the moved, renumbered list, and the caller's list is left unchanged |
| JsText.TrimStart | src/components/TaskList/Notes/NotesDropdown.tsx:68 | `trimStart` drops only leading whitespace: the result is a suffix, the removed prefix is whitespace, and the result does not begin with whitespace |
| JsText.TrimEnd | src/components/TaskList/Notes/NotesDropdown.tsx:68 | `trimEnd` drops only trailing whitespace: the result is a prefix, the removed suffix is whitespace, and the result does not end with whitespace |
| JsText.TrimCuts | src/components/TaskList/Notes/NotesDropdown.tsx:68 | `trim` keeps a slice of its input and cuts only whitespace on either side of it |
| JsText.TrimIsSlice | src/components/TaskList/Notes/NotesDropdown.tsx:68 | the trimmed text is a slice of the input that neither starts nor ends with whitespace |
| JsText.TrimEmptyIffBlank | src/components/TaskList/Notes/NotesDropdown.tsx:68 | a text trims to empty exactly when all of it is whitespace |
| JsText.TrimIdempotent | src/components/TaskList/Notes/NotesDropdown.tsx:102 | trimming twice is trimming once |
| JsText.DigitPrefix | src/components/TaskList/TaskSubItem.tsx:47 | the longest prefix made only of digits of the given radix |
| JsText.ParseIntNoDigits | src/components/TaskList/TaskSubItem.tsx:47 | `parseInt` of text with no decimal digit is NaN |
| JsText.NatToString | src/components/TimeEntryForm.tsx:24 | the decimal text of a natural number is non-empty and made of digits |
| JsText.NatToStringValue | src/components/TimeEntryForm.tsx:24 | the digits of a natural number's text have that number as their value |
| JsText.ParseIntOfIntToString | src/components/TimeEntryForm.tsx:38 | `parseInt(n.toString())` gives back `n` |
| JsText.IntToStringInjective | src/components/TimeEntryForm.tsx:31 | different integers have different texts |
| JsText.Split | src/components/TimeRegistration/WeeklyOverview.tsx:40 | `split` returns at least one piece, and no piece contains the separator |
| JsText.JoinSplit | src/components/TimeRegistration/WeeklyOverview.tsx:40 | joining the pieces again with the separator restores the string |
| JsText.StrLessIrreflexive | src/components/TimeRegistration/WeeklyOverview.tsx:55 | no key sorts before itself |
| JsText.StrLessTransitive | src/components/TimeRegistration/WeeklyOverview.tsx:55 | the key order is transitive |
| JsText.StrLessTotal | src/components/TimeRegistration/WeeklyOverview.tsx:55 | of two different keys, one sorts before the other |
| NotesDropdown.NewNoteInsert | src/components/TaskList/Notes/NotesDropdown.tsx:73-77 | the inserted row belongs to this dropdown's task or subtask, and its content is the typed text trimmed, so it neither starts nor ends with whitespace |
| NotesDropdown.EditedNotes | src/components/TaskList/Notes/NotesDropdown.tsx:107-109 | same length and order; only notes with the id get the trimmed content, and every other field and note is unchanged |
| NotesDropdown.WithoutNoteMembers | src/components/TaskList/Notes/NotesDropdown.tsx:132 | after a delete, a note remains exactly when it was there and does not have the deleted id |
| NotesDropdown.WithoutNoteConcat | src/components/TaskList/Notes/NotesDropdown.tsx:132 | deleting works piece by piece, so the remaining notes keep their order |
| NotesDropdown.EditIdempotent | src/components/TaskList/Notes/NotesDropdown.tsx:102-109 | editing twice with the same text is editing once |
| NotesDropdown.EditAbsentId | src/components/TaskList/Notes/NotesDropdown.tsx:107-109 | editing an id that no note has changes nothing |
| NotesDropdown.WithoutAbsentId | src/components/TaskList/Notes/NotesDropdown.tsx:132 | deleting an id that no note has changes nothing |
| NotesDropdown.DeleteUndoesAppend | src/components/TaskList/Notes/NotesDropdown.tsx:83-84 | deleting a note just appended under a fresh id gives back the earlier list |
| NotesDropdown.Renders | src/components/TaskList/Notes/NotesDropdown.tsx:152 | nothing is rendered exactly when the dropdown is closed and there are no notes |
| NotesDropdown.Dropdown.constructor | src/components/TaskList/Notes/NotesDropdown.tsx:17-18 | starts closed, with an empty new-note text |
| NotesDropdown.Dropdown.Visible | src/components/TaskList/Notes/NotesDropdown.tsx:152 | the visibility rule on the component's state |
| NotesDropdown.Dropdown.Click | src/components/TaskList/Notes/NotesDropdown.tsx:146-150 | a click flips `isOpen` |
| NotesDropdown.Dropdown.TypeNewNote | src/components/TaskList/Notes/NotesDropdown.tsx:181 | typing sets the new-note text |
| NotesDropdown.Dropdown.AddNote | src/components/TaskList/Notes/NotesDropdown.tsx:67-96 | blank text makes no call and changes nothing; otherwise the trimmed insert is sent; on success the returned note is appended and the text cleared, on failure nothing changes |
| NotesDropdown.Dropdown.EditNote | src/components/TaskList/Notes/NotesDropdown.tsx:98-121 | the trimmed update is sent; the notes are edited by id on success and unchanged on failure |
| NotesDropdown.Dropdown.DeleteNote | src/components/TaskList/Notes/NotesDropdown.tsx:123-144 | on success the notes with that id are filtered out; on failure they are unchanged |
| SimpleNotesDropdown.Dropdown.constructor | src/components/TaskList/NotesDropdown.tsx:17-18 | starts closed, with an empty new-note text |
| SimpleNotesDropdown.Dropdown.Visible | src/components/TaskList/NotesDropdown.tsx:76 | nothing is rendered exactly when closed and the notes list is empty |
| SimpleNotesDropdown.Dropdown.Toggle | src/components/TaskList/NotesDropdown.tsx:83 | the button flips `isOpen` |
| SimpleNotesDropdown.Dropdown.TypeNewNote | src/components/TaskList/NotesDropdown.tsx:111 | typing sets the new-note text |
| SimpleNotesDropdown.Dropdown.CanAdd | src/components/TaskList/NotesDropdown.tsx:117 | adding is possible exactly when the text is not all whitespace |
| SimpleNotesDropdown.Dropdown.AddNote | src/components/TaskList/NotesDropdown.tsx:21-51 | blank text makes no call; otherwise the trimmed insert is sent; success appends the note, clears the text and closes the dropdown; failure changes nothing |
| SimpleNotesDropdown.Dropdown.DeleteNote | src/components/TaskList/NotesDropdown.tsx:53-74 | on success exactly the notes with that id are filtered out; on failure nothing changes |
| NoteItem.Item.constructor | src/components/TaskList/Notes/NoteItem.tsx:14-15 | starts out viewing, with the buffer equal to the note's content |
| NoteItem.Item.StartEditing | src/components/TaskList/Notes/NoteItem.tsx:72 | enters editing and keeps the buffer |
| NoteItem.Item.Type | src/components/TaskList/Notes/NoteItem.tsx:33 | typing changes only the buffer |
| NoteItem.Item.Save | src/components/TaskList/Notes/NoteItem.tsx:17-20 | one `onEdit(note.id, buffer)` call, then back to viewing |
| NoteItem.Item.Cancel | src/components/TaskList/Notes/NoteItem.tsx:22-25 | restores the buffer from the note and returns to viewing, with no callback |
| NoteItem.Item.Delete | src/components/TaskList/Notes/NoteItem.tsx:83 | one `onDelete(note.id)` call, with the buffer untouched |
| NoteItem.EditThenCancel | src/components/TaskList/Notes/NoteItem.tsx:14-25 | whatever is typed while editing, cancel brings the item back to its initial state |
| ProgressInput.Clamp | src/components/TaskList/TaskSubItem.tsx:47 | the result lies in 0..100, in-range values are kept, and out-of-range values go to the nearer bound |
| ProgressInput.FromInput | src/components/TaskList/TaskSubItem.tsx:47 | typed progress always lies in 0..100 |
| ProgressInput.ClampIdempotent | src/components/TaskList/TaskSubItem.tsx:47 | clamping twice is clamping once |
| ProgressInput.ClampMonotone | src/components/TaskList/TaskSubItem.tsx:47 | clamping keeps the order of two values |
| ProgressInput.UnparsableGivesZero | src/components/TaskList/TaskSubItem.tsx:47 | text with no digit gives progress 0 |
| ProgressInput.InRangeTextKept | src/components/TaskList/TaskCardHeader.tsx:50 | typing the text of an in-range number gives that number |
| TaskSubItem.CheckboxPatch | src/components/TaskList/TaskSubItem.tsx:31-37 | the subtask's own id; checked gives completed with progress 100, unchecked gives not completed with progress 0 |
| TaskSubItem.ProgressPatch | src/components/TaskList/TaskSubItem.tsx:46-53 | the subtask's own id, the clamped progress, and completed exactly when the progress is 100 |
| TaskSubItem.PatchesPairCompletedWithFull | src/components/TaskList/TaskSubItem.tsx:31-53 | every patch the row sends has completed exactly when progress is 100 |
| SubtaskItem.Toggled | src/components/TaskList/SubtaskItem.tsx:32-38 | sets completed and progress 100 or 0, and every other field is unchanged |
| SubtaskItem.ToggledKeepsIdentity | src/components/TaskList/SubtaskItem.tsx:34 | the id, task and priority score are kept |
| SubtaskItem.ToggleTwice | src/components/TaskList/SubtaskItem.tsx:32-38 | only the last toggle counts |
| SubtaskItem.BadgeScore | src/components/TaskList/SubtaskItem.tsx:45 | the badge shows the priority score, which is 0 exactly when that score is 0 |
| SubtaskItem.DeleteButton | src/components/TaskList/SubtaskItem.tsx:48-52 | offered exactly while editing when a delete handler exists, and it passes the subtask's id |
| TaskCardHeader.WithName | src/components/TaskList/TaskCardHeader.tsx:35 | a name edit changes only `name` on the buffer |
| TaskCardHeader.WithProgressInput | src/components/TaskList/TaskCardHeader.tsx:50-51 | a progress edit changes only `progress`, to the clamped typed value in 0..100 |
| TaskCardHeader.ButtonAction | src/components/TaskList/TaskCardHeader.tsx:67 | the button saves exactly while editing, and toggles editing otherwise |
| TaskCardHeader.Display | src/components/TaskList/TaskCardHeader.tsx:39-41 | the buffer is shown while editing, and the committed task otherwise |
| TaskCardHeader.EditsDoNotShowOutsideEditing | src/components/TaskList/TaskCardHeader.tsx:35-62 | after any edits, the committed name and progress are shown outside editing, and the edited ones while editing |
| TaskMutations.OrString | src/components/TaskList/mutations.ts:47 | `v \|\| fallback` on strings: a missing or empty value gives the fallback |
| TaskMutations.OrInt | src/components/TaskList/mutations.ts:49 | `v \|\| fallback` on numbers: a missing or zero value gives the fallback |
| TaskMutations.QueryFor | src/components/TaskList/mutations.ts:15-20 | the subtask query for a task filters on that task's id and on `archived = false` |
| TaskMutations.CreatePayload | src/components/TaskList/mutations.ts:46-54 | the name is passed through; description defaults to "", icon to "zap", priority and progress to 0, completed to false and due date to null |
| TaskMutations.NameOnlyDefaults | src/components/TaskList/mutations.ts:46-54 | a name-only draft gives every default |
| TaskMutations.CreateTask | src/components/TaskList/mutations.ts:43-60 | succeeds exactly when the insert does, and then returns the inserted row with an empty subtask list |
| TaskMutations.UpdateTask | src/components/TaskList/mutations.ts:34-41 | the patch is sent unchanged, filtered on its own id, and the result is the backend's answer |
| TaskMutations.AttachSubtasks | src/components/TaskList/mutations.ts:13-29 | sends each task's query; succeeds exactly when every one of them does; then one entry per task, in order, each carrying its query's answer, with null as [] |
| TaskMutations.FetchTasks | src/components/TaskList/mutations.ts:4-32 | a failed task query fails the fetch; otherwise the tasks with their subtasks attached |
| TaskMutations.FetchedSubtasksAreActiveChildren | src/components/TaskList/mutations.ts:13-27 | against a backend that answers each query with exactly its matching rows, each fetched task carries exactly the table's non-archived subtasks with its id |
| TaskListView.ProgressColour | src/components/TaskList.tsx:42-46 | error exactly below 34, warning exactly for 34..66, success exactly from 67 |
| TaskListView.ProgressColourMonotone | src/components/TaskList.tsx:42-46 | more progress never gives a worse colour |
| TaskListView.IconFor | src/components/TaskList.tsx:49-57 | the pen icon exactly for "penTool", the settings icon exactly for "settings", and Zap for anything else, null included |
| TaskListView.UnarchivedMembers | src/components/TaskList.tsx:86-88 | exactly the non-archived subtasks are kept |
| TaskListView.UnarchivedConcat | src/components/TaskList.tsx:86-88 | the filter works piece by piece, so the kept subtasks keep their order |
| TaskListView.ShowsPercentage | src/components/TaskList.tsx:100 | the percentage is shown exactly when progress is above 0 and the subtask is not completed |
| TaskListView.CardFor | src/components/TaskList.tsx:62-100 | one row per non-archived subtask |
| TaskListView.Render | src/components/TaskList.tsx:31-39 | a loading text while loading, nothing on a fetch error, otherwise one card per fetched task, in order |
| TaskListView.CardRowsAreActive | src/components/TaskList.tsx:86-100 | each row comes from a non-archived subtask of the task, and shows a percentage exactly when that subtask is started and not done |
| ScoreBadge.Reduce | src/components/TaskList/Badges/ScoreBadge.tsx:26-28 | the reduce returns the start point or one of the points, and its threshold is at least that of every point at most the score |
| ScoreBadge.ReduceOrderIndependent | src/components/TaskList/Badges/ScoreBadge.tsx:21-28 | whatever order the five points are visited in, the colour is that of the largest threshold at most the score |
| ScoreBadge.PriorityColourIsScale | src/components/TaskList/Badges/ScoreBadge.tsx:13-28 | `getPriorityColor` over the `Object.entries` order is the colour scale read from the top |
| ScoreBadge.PriorityColourEnds | src/components/TaskList/Badges/ScoreBadge.tsx:18-28 | below 0, or NaN, gives red; 10 and above gives green "#4ade80" |
| ScoreBadge.Normalised | src/components/TaskList/Badges/ScoreBadge.tsx:37-40 | the progress variant uses the raw score; the priority variant uses `score / max * 10` for a non-zero max |
| ScoreBadge.ZeroMaxColours | src/components/TaskList/Badges/ScoreBadge.tsx:37-40 | with max 0, a positive score is green and any other score red |
| ScoreBadge.MaxTenKeepsScore | src/components/TaskList/Badges/ScoreBadge.tsx:38 | with max 10 the normalised score is the raw score |
| ScoreBadge.ProgressBackground | src/components/TaskList/Badges/ScoreBadge.tsx:33-35 | one rgba below 50 and the other from 50 |
| ScoreBadge.StyleColour | src/components/TaskList/Badges/ScoreBadge.tsx:50 | an inline `color` takes effect exactly when it is a `#rrggbb` colour, and is otherwise inherited |
| ScoreBadge.PriorityColourIsHex | src/components/TaskList/Badges/ScoreBadge.tsx:13-28 | every colour of the scale is a `#rrggbb` colour |
| ScoreBadge.TextColourValue | src/components/TaskList/Badges/ScoreBadge.tsx:40 | the text colour value is `text-gray-600` in the progress variant and the scale colour otherwise |
| ScoreBadge.BadgeStyle | src/components/TaskList/Badges/ScoreBadge.tsx:33-51 | the progress variant has the grey background, and its text colour is inherited because the class name given as `color` is dropped; the priority variant has the scale colour as text and, with alpha "20", as background |
| ScoreBadge.ProgressTextNotGrey | src/components/TaskList/Badges/ScoreBadge.tsx:40-50 | the progress badge as written never gets grey text: `text-gray-600` is not a colour |
| ScoreBadge.IntendedBadgeStyle | src/components/TaskList/Badges/ScoreBadge.tsx:37-51 | the badge as intended: the same backgrounds, grey-600 text in the progress variant, and the priority variant unchanged |
| ScoreBadge.IntendedTextAlwaysColoured | src/components/TaskList/Badges/ScoreBadge.tsx:37-51 | in the intended badge every variant sets a colour, and the priority variant gets the scale colour |
| WeeklyOverview.EntriesOfWeekSnoc | src/components/TimeRegistration/WeeklyOverview.tsx:35 | a new entry joins the group of its own week and no other |
| WeeklyOverview.EntriesOfWeekMembers | src/components/TimeRegistration/WeeklyOverview.tsx:27-37 | an entry is in a week's group exactly when its date falls in that week |
| WeeklyOverview.EntriesOfWeekConcat | src/components/TimeRegistration/WeeklyOverview.tsx:35 | within a group, entries keep their input order |
| WeeklyOverview.EntriesOfOtherWeek | src/components/TimeRegistration/WeeklyOverview.tsx:27-37 | a week no entry falls in has no entries |
| WeeklyOverview.WeekKeysOfEntries | src/components/TimeRegistration/WeeklyOverview.tsx:27-37 | every entry's week is among the keys |
| WeeklyOverview.WeekKeysHaveEntries | src/components/TimeRegistration/WeeklyOverview.tsx:32-35 | every key is the week of some entry, so no group is empty |
| WeeklyOverview.WeekKeysSnoc | src/components/TimeRegistration/WeeklyOverview.tsx:32-34 | an entry adds its own week to the keys |
| WeeklyOverview.GroupStep | src/components/TimeRegistration/WeeklyOverview.tsx:32-36 | one step of the reduce keeps the accumulator a grouping of the entries seen so far |
| WeeklyOverview.GroupByWeek | src/components/TimeRegistration/WeeklyOverview.tsx:27-37 | the accumulator maps each week key of the entries, listed once each in first-seen order, to that week's entries in input order, and no group is empty |
| WeeklyOverview.WeekNumber | src/components/TimeRegistration/WeeklyOverview.tsx:40 | the week number, when there is one, contains no dash |
| WeeklyOverview.WeekNumberOfKey | src/components/TimeRegistration/WeeklyOverview.tsx:40 | for a year-week key, the week number is the part after the dash |
| WeeklyOverview.SplitPieces | src/components/TimeRegistration/WeeklyOverview.tsx:40 | a year-week key splits into exactly the year and the week |
| WeeklyOverview.InsertByKey | src/components/TimeRegistration/WeeklyOverview.tsx:55 | inserting into the sorted weeks adds exactly that week |
| WeeklyOverview.SortByKey | src/components/TimeRegistration/WeeklyOverview.tsx:55 | sorting is a permutation of the weeks |
| WeeklyOverview.InsertByKeySorted | src/components/TimeRegistration/WeeklyOverview.tsx:55 | inserting keeps the weeks in descending key order |
| WeeklyOverview.SortByKeySorted | src/components/TimeRegistration/WeeklyOverview.tsx:55 | the sorted weeks are in descending key order |
| WeeklyOverview.SortByKeyTotal | src/components/TimeRegistration/WeeklyOverview.tsx:55 | sorting does not change the sum of the totals |
| WeeklyOverview.HoursSumAppend | src/components/TimeRegistration/WeeklyOverview.tsx:45 | the hours of two lists of entries add up |
| WeeklyOverview.KeysTotalIsHoursSum | src/components/TimeRegistration/WeeklyOverview.tsx:27-45 | summing the week totals over distinct keys covering every entry gives the hours of all the entries |
| WeeklyOverview.WeeksOfGroups | src/components/TimeRegistration/WeeklyOverview.tsx:39-54 | one week per key, in key order, each built from its group |
| WeeklyOverview.WeeksOfGroupsWellFormed | src/components/TimeRegistration/WeeklyOverview.tsx:39-54 | each week carries exactly its own entries, their total and its week number |
| WeeklyOverview.WeeksOfGroupsTotal | src/components/TimeRegistration/WeeklyOverview.tsx:27-45 | the weeks' totals add up to the hours of all entries |
| WeeklyOverview.WeeksOfGroupsKeys | src/components/TimeRegistration/WeeklyOverview.tsx:39 | there is a week for each week key of the entries, and for no other key |
| WeeklyOverview.WeeksOfGroupsCount | src/components/TimeRegistration/WeeklyOverview.tsx:39 | as many weeks as week keys, and none exactly when there are no entries |
| WeeklyOverview.Weeks | src/components/TimeRegistration/WeeklyOverview.tsx:27-55 | newest week first; one week per week key; each with its own entries and total; totals that add up to the hours of all entries; empty exactly when there are no entries |
| WeeklyOverview.CardsTotalOfWeeks | src/components/TimeRegistration/WeeklyOverview.tsx:114-127 | the cards show the same total as the weeks |
| WeeklyOverview.Overview | src/components/TimeRegistration/WeeklyOverview.tsx:39-127 | `weeks` newest first, one per week key, each with its own entries and total; with no entries exactly one current-week card with 0 hours; otherwise exactly one card per week, in the same order, with totals adding up to all the hours |
| WeeklyOverview.DistinctKeysCount | src/components/TimeRegistration/WeeklyOverview.tsx:39 | keys listed once each are as many as their set |
| TimeEntryForm.IdText | src/components/TimeEntryForm.tsx:24-25 | an id's text is empty exactly when there is no id |
| TimeEntryForm.ConvertId | src/components/TimeEntryForm.tsx:38-39 | an empty id text becomes null, and a non-empty one becomes what `parseInt` makes of it (NaN when nothing) |
| TimeEntryForm.ConvertIdOfText | src/components/TimeEntryForm.tsx:24-39 | an id field filled from an id submits that same id, or null |
| TimeEntryForm.ConvertIdWithoutDigits | src/components/TimeEntryForm.tsx:38-39 | non-empty text without digits submits NaN |
| TimeEntryForm.InitialFormData | src/components/TimeEntryForm.tsx:23-29 | with an entry, its ids as text, its hours, description and date; otherwise empty ids, 0 hours, no description and today |
| TimeEntryForm.Submitted | src/components/TimeEntryForm.tsx:36-40 | hours, description and date unchanged; each id is `ConvertId` of its text, so null exactly when the text is empty |
| TimeEntryForm.SubmitUntouchedEntry | src/components/TimeEntryForm.tsx:23-40 | a form mounted with an entry and submitted untouched gives back that entry's ids, hours and description |
| TimeEntryForm.FindTask | src/components/TimeEntryForm.tsx:31 | no task exactly when no id text matches; otherwise the first task whose id text matches |
| TimeEntryForm.NoTaskNoSubtasks | src/components/TimeEntryForm.tsx:31-32 | with no task chosen, no subtask is offered |
| TimeEntryForm.FindFirstMatch | src/components/TimeEntryForm.tsx:31 | `find` returns the first matching task |
| TimeEntryForm.ChosenTaskSubtasks | src/components/TimeEntryForm.tsx:31-32 | choosing a task offers exactly that task's subtasks |
| TimeEntryForm.Form.constructor | src/components/TimeEntryForm.tsx:23-29 | mounting the form with `entry` sets the fields to the initial form data of that entry |
| TimeEntryForm.Form.ReceiveProps | src/components/TimeEntryForm.tsx:23-29 | new props on a mounted form change whether it is open, and leave the fields as they were |
| TimeEntryForm.Form.Remount | src/components/TimeEntryForm.tsx:23-29 | a form remounted for a new entry takes that entry's initial form data |
| TimeEntryForm.Form.Subtasks | src/components/TimeEntryForm.tsx:32 | no options until a task is chosen |
| TimeEntryForm.Form.SelectTask | src/components/TimeEntryForm.tsx:55 | choosing a task sets `task_id`, resets `subtask_id` to "" and keeps the other fields |
| TimeEntryForm.Form.SelectSubtask | src/components/TimeEntryForm.tsx:74 | only `subtask_id` changes |
| TimeEntryForm.Form.TypeHours | src/components/TimeEntryForm.tsx:95 | only `hours` changes, to `parseFloat` of the text |
| TimeEntryForm.Form.TypeDescription | src/components/TimeEntryForm.tsx:102 | only `description` changes |
| TimeEntryForm.Form.TypeDate | src/components/TimeEntryForm.tsx:111 | only `date` changes |
| TimeEntryForm.Form.Submit | src/components/TimeEntryForm.tsx:34-42 | hands the converted fields to `onSubmit` and closes the dialog |
| TimeEntryForm.SelectTaskThenSubmit | src/components/TimeEntryForm.tsx:34-55 | choosing a task and submitting at once sends no subtask and the chosen task |
| TimeEntryForm.EditOpensWithMountFields | src/components/TimeRegistration/WeeklyOverview.tsx:152-194 | the dialog mounted with no entry and then given an entry to edit opens with empty ids and 0 hours, not the entry's values |
| TimeEntryForm.EditOpensWithEntryFields | src/components/TimeEntryForm.tsx:23-40 | remounted for the entry, the dialog opens with the entry's values, and submitting untouched sends its ids and hours |
| TimeEntryInlineForm.PopulatedFrom | src/components/TimeRegistration/TimeEntryInlineForm.tsx:26-32 | the fields are filled from the edited entry: its ids as text, its hours' text, description and date |
| TimeEntryInlineForm.Payload | src/components/TimeRegistration/TimeEntryInlineForm.tsx:75-81 | hours parsed; description and date unchanged; each id is `ConvertId` of its text, so null exactly when the text is empty |
| TimeEntryInlineForm.SaveFor | src/components/TimeRegistration/TimeEntryInlineForm.tsx:41-52 | an update filtered on the edited entry's id exactly when editing, otherwise an insert |
| TimeEntryInlineForm.SaveUntouchedEntry | src/components/TimeRegistration/TimeEntryInlineForm.tsx:24-83 | saving an edited entry untouched updates that entry with its own ids, hours, description and date |
| TimeEntryInlineForm.BlankSendsNoIds | src/components/TimeRegistration/TimeEntryInlineForm.tsx:16-22 | the blank form sends null ids and today's date |
| TimeEntryInlineForm.InlineForm.constructor | src/components/TimeRegistration/TimeEntryInlineForm.tsx:16-34 | blank, or filled from the edited entry |
| TimeEntryInlineForm.InlineForm.SetEditingEntry | src/components/TimeRegistration/TimeEntryInlineForm.tsx:24-34 | a new edited entry fills the form; clearing it leaves the fields |
| TimeEntryInlineForm.InlineForm.TypeTaskId | src/components/TimeRegistration/TimeEntryInlineForm.tsx:91 | only `task_id` changes |
| TimeEntryInlineForm.InlineForm.TypeDescription | src/components/TimeRegistration/TimeEntryInlineForm.tsx:96 | only `description` changes |
| TimeEntryInlineForm.InlineForm.TypeHours | src/components/TimeRegistration/TimeEntryInlineForm.tsx:103 | only `hours` changes |
| TimeEntryInlineForm.InlineForm.TypeDate | src/components/TimeRegistration/TimeEntryInlineForm.tsx:109 | only `date` changes |
| TimeEntryInlineForm.InlineForm.Submit | src/components/TimeRegistration/TimeEntryInlineForm.tsx:39-83 | sends the update or insert for the converted fields; success blanks the form and calls `onEditComplete` exactly in edit mode when it was given; failure changes nothing |

## Findings

| source | as written | input that shows it | evidently intended | confidence | as-written member | corrected member |
|---|---|---|---|---|---|---|
| src/components/TaskList/Badges/ScoreBadge.tsx:40-50 | the progress variant passes the Tailwind class name `text-gray-600` as the inline CSS `color`, which is not a colour, so the browser drops it | any progress badge, for instance score 30 | grey-600 text | not executed; high | ScoreBadge.ProgressTextNotGrey | ScoreBadge.IntendedTextAlwaysColoured |
| src/components/TaskList/SubtaskList.tsx:33-36 | subtasks are numbered 1..n upwards, but src/components/TaskList/mutations.ts:20 fetches them by descending score | two subtasks dropped as [a, b] come back as [b, a] | number them n - i, as the task list does | not executed; medium | SubtaskList.RefetchReversesDroppedOrder | SubtaskList.DescendingScoresSurviveRefetch |
| src/components/TimeEntryForm.tsx:23-29 | the fields are initialised only at mount; src/components/TimeRegistration/WeeklyOverview.tsx:188-194 mounts the form once with no entry and later passes the entry to edit | click edit on an entry with a task | the dialog shows the entry's values | not executed; high | TimeEntryForm.EditOpensWithMountFields | TimeEntryForm.EditOpensWithEntryFields |

## Left out

- The Supabase client, query building, react-query caching and invalidation, and toasts are foreign calls. Each backend call is a function parameter that answers with success or failure.
- The order a subtask query returns its rows in (`order('priority_score')`) is left to the backend. `TaskMutations.FaithfulSubtaskBackend` speaks only of membership.
- `Promise.all` in `fetchTasks` runs the subtask queries in parallel. The model answers them as one pure function, so the order they run in does not matter.
- DOM positioning, scrolling and the click-outside listener of the notes dropdown are UI plumbing.
- date-fns (`startOfWeek`, `endOfWeek`, `format`) and `new Date()` become the parameters `weekOf`, `currentWeek`, `isoDay` and `today`. The start and end dates shown on a week card are not modelled.
- `localeCompare` is modelled by code-point lexicographic order (`JsText.StrLess`). That order agrees with it on the digit-and-dash week keys the overview sorts.
- `parseFloat` and `Number.prototype.toString` on hours are the parameters `parseFloat` and `hoursText`. JavaScript number precision is not modelled; hours are `real`.
- `JsText.IntToString`: integers of 1e21 and more, which JavaScript prints in exponent notation, are not modelled.
- `ScoreBadge.Normalised`: scores are `real`, so rounding in the division is not modelled.
- `NoteItem.Item`: the note is a constant of the item. After a successful edit the parent passes a new note, which the model does not capture; a new item stands for that render.
- The overview's `onSubmit` for the edit dialog (src/components/TimeRegistration/WeeklyOverview.tsx:192) only clears the entry being edited, so the submitted data goes nowhere. The model stops at what the dialog hands to `onSubmit`.
- `ScoreBadge.StyleColour` recognises only `#rrggbb` values as colours, which covers every value the badge can produce. The rest of CSS colour syntax is not modelled.
- `SubtaskList.HandleDragEnd` models the numbering as written. The corrected numbering is `SubtaskList.DescendingScores`, which no other member uses, because nothing else in the model consumes the result of a subtask drag.
- `SubtaskItem.BadgeScore`: only 0 is falsy, since the model's scores are integers with no NaN. Nullable database columns are not modelled in the entity types.
- Object keys such as `__proto__`, which would misbehave as accumulator keys in the week grouping, are not modelled. Week keys behave as plain map keys.
- The checkbox's indeterminate state and the `e.preventDefault()` calls are event plumbing.
- `TaskListDrag.HandleTaskDragEnd` and `SubtaskList.HandleDragEnd` require the drag indices to be in bounds. The drag-and-drop library supplies them from the rendered list.
- The inline form's effect runs on changes of the `editingEntry` prop. React compares the prop by reference, which the model does not capture: `SetEditingEntry` fires on each new prop value given to it.
- `fetchArchivedTasks` is imported by src/components/ArchivedTaskList.tsx but not defined in src/components/TaskList/mutations.ts, so there is nothing to model.
- Pure presentation components (TaskCard, WeekCard, NotesContent, NotesDropdownContent, NewNoteForm, NotesButton, TaskHeader, TaskListHeader, TaskIconSelect, TaskForm, ArchivedTaskList, src/pages/Index.tsx), the generated schema types and the Tailwind config hold no behaviour to model.
- The time registration mutations (src/components/TimeRegistration/mutations.ts) and the remaining task list mutations (src/components/TaskList/TaskListMutations.ts) are backend plumbing and are not part of this model.
