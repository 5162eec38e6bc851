# Task tracker: a Dafny model of the task store

This project models the task collection kept by the `TaskTracker` class of a
browser to-do list (`script.js`). The tracker holds an ordered list of task
records, newest first. Each record has an id taken from the clock, a text, a
priority (low, medium, high), a completed flag and a creation timestamp. The
tracker also holds the current filter and the id of the task being edited.
Users add, complete, edit and delete tasks. They pick a filter, and they see
four counters: total, active, completed and completion rate. After every
change the whole list is written to browser storage. It is read back once,
when the page loads.

Layout:

- `wrappers.dfy` (`Wrappers`): `Option`.
- `text.dfy` (`Text`): JavaScript's `trim`. It strips the ECMAScript
  white-space and line-terminator characters at both ends.
- `tasks.dfy` (`Tasks`): the `Task` record, plus the pure sequence operations
  the tracker uses:
  - `Keep` is `Array.prototype.filter`.
  - `FirstIndex` is `find` by id.
  - `Added`, `Toggled`, `Edited` and `Removed` give each operation's effect on
    the list.
- `views.dfy` (`Views`): the filter values, the filtered view
  (`getFilteredTasks`) and the counters of `updateStats`.
- `tracker.dfy` (`Tracker`): the load fallback and the `TaskTracker` class.
  - Its fields `tasks`, `currentFilter` and `editingTaskId` are updated in
    place by its methods.
  - Storage is a ghost snapshot `storage` plus a ghost write counter
    `writes`, both updated by `SaveTasks`.
  - The invariant `Synced()` says that reloading the page would give back
    the list in memory.
  - `BuyMilkScenario` is a client of the class. It walks through adding a
    task, completing it and trying to add a blank one, and states the
    expected list, counters and write count at each step.

Ids come from `Date.now()` and can collide. The model keeps the code's
difference between operations: toggling and editing touch only the FIRST
record with the id, while deleting removes EVERY record with it.

In these details the model follows the code:
- `addTask` and `toggleTask` return nothing.
- `deleteTask` removes all records with the id, not one.
- `saveEdit` edits the record whose id is in `editingTaskId`, and it writes
  even when the new text equals the old one.

## Model

| member | source | states |
|---|---|---|
| `Text.Trim` | script.js:145 | The trimmed text neither starts nor ends with white space. It is a slice of the input with only white space around it. It is empty exactly when the input is all white space. |
| `Tasks.FirstIndex` | script.js:172 | `find` by id: `None` exactly when no record has the id. Otherwise the index holds the id and no earlier record does. |
| `Tasks.KeepIsFilter` | script.js:186 | `filter` gives a subsequence of the input in its order. It keeps each passing record as often as it occurs and drops every other record. |
| `Tasks.KeepAppend` | script.js:186 | Filtering distributes over concatenation, so the relative order of the parts is kept. |
| `Tasks.KeepLength` | script.js:185-187 | The filtered list has the original length exactly when every record passes, and then it equals the input. This is the "nothing removed" test of `deleteTask`. |
| `Tasks.AddedSpec` | script.js:144-158 | Blank input leaves the list unchanged. Otherwise index 0 holds a record with the clock's id, non-empty trimmed text, the given priority, `completed = false` and the given timestamp. The old list follows it, so the length grows by one. |
| `Tasks.AddAllLength` | script.js:144-158 | A run of adds grows the list by the number of requests whose text is not blank. |
| `Tasks.AddTwiceOrder` | script.js:158 | Adding A and then B gives `[B, A] + old list` (newest first). |
| `Tasks.ToggledSpec` | script.js:171-175 | An absent id leaves the list unchanged. Otherwise only the first record with the id changes, and only its `completed` flag is negated. Length and order are kept. |
| `Tasks.ToggleTwice` | script.js:171-175 | Toggling the same id twice restores the original list. |
| `Tasks.EditedSpec` | script.js:126-128 | An absent id leaves the list unchanged. Otherwise only the text of the first record with the id is replaced. Every other field and record stays the same. |
| `Tasks.EditIdempotent` | script.js:126-128 | Saving the same edit twice gives the same list as saving it once. |
| `Tasks.RemovedSpec` | script.js:184-187 | Deleting keeps exactly the records with a different id, with their multiplicity and original order. The list shrinks exactly when the id was present. With an absent id it is unchanged. |
| `Tasks.RemoveTwice` | script.js:186 | A second delete of the same id changes nothing. |
| `Views.FilterOf` | script.js:54 | The tracker keeps the button's `data-filter` string verbatim. Only strings outside the six names become `Other`. |
| `Views.FilterNameRoundTrip` | script.js:54 | Reading back the name of any filter other than a misnamed `Other` gives the same filter. |
| `Views.ViewSpec` | script.js:195-209 | The view holds exactly the tasks the filter shows, each as often as in the list and in list order. `active` shows tasks not completed, `completed` shows completed tasks, and `high`/`medium`/`low` show tasks of that priority. `all` and any unrecognised value show the whole list. |
| `Views.ActiveCompletedPartition` | script.js:197-200 | The active and completed views together have as many tasks as the list. |
| `Views.ViewAfterAdd` | script.js:158 | After a prepend, the new task heads every view that shows it. Each view is otherwise unchanged. |
| `Views.CompletionRate` | script.js:261 | The rate is 0 for an empty list. Otherwise it is the integer nearest to 100·completed/total, with halves rounded up. It is never above 100, it is 0 when nothing is completed, and it is 100 when everything is. |
| `Views.Statistics` | script.js:257-261 | The total is the list length. `active + completed == total`. The two counts are the sizes of the active and completed views. The rate lies in 0..100, is 0 for an empty list or when nothing is completed, and is 100 when all tasks are completed. |
| `Views.ToggleStats` | script.js:175-178 | Toggling a present id keeps the total. It moves exactly one task between the active and completed counts. |
| `Views.EditStats` | script.js:128 | An edit leaves every counter unchanged. |
| `Tracker.Load` | script.js:4-12 | Loading yields the stored list when one parses. It yields an empty list when nothing is stored or the stored text is corrupt. |
| `Tracker.TaskTracker.constructor` | script.js:3-5 | The list is the loaded one, the filter is `all` and nothing is being edited. No write has happened, and reloading would give the same list. |
| `Tracker.TaskTracker.SaveTasks` | script.js:269-271 | The snapshot becomes the current list and the write count goes up by one. Nothing else changes. |
| `Tracker.TaskTracker.AddTask` | script.js:144-169 | Blank input changes nothing and writes nothing. Otherwise the new record is prepended and the list is written once. The filter and edit state are kept. |
| `Tracker.TaskTracker.ToggleTask` | script.js:171-182 | The list becomes `Toggled(old list, id)`. It is written once if the id was present. An absent id changes nothing and writes nothing. |
| `Tracker.TaskTracker.EditTask` | script.js:137-142 | Editing starts on the id only if some record has it. The list and storage are untouched. |
| `Tracker.TaskTracker.CloseEditModal` | script.js:113-117 | Nothing is being edited afterwards. The list and storage are untouched. |
| `Tracker.TaskTracker.SaveEdit` | script.js:119-135 | Blank text cancels: the list is unchanged and nothing is written. Otherwise the first record with the edited id gets the trimmed text. The list is written exactly when such a record exists. Editing always ends. |
| `Tracker.TaskTracker.DeleteTask` | script.js:184-193 | The list becomes `Removed(old list, id)`. It is written once exactly when the id was present. Otherwise nothing changes and nothing is written. |
| `Tracker.TaskTracker.SetFilter` | script.js:50-56 | The current filter is the clicked button's value, kept verbatim. Nothing else changes. |
| `Tracker.TaskTracker.GetFilteredTasks` | script.js:195-210 | The current filter's view is a subsequence of the list, in list order. It holds exactly the shown tasks with their multiplicity. It is the whole list for `all` and for unknown values. |

Every mutating method requires and ensures `Synced()`: after each operation,
reloading the page would give back the list in memory.

## Left out

- Rendering is not modelled: `renderTasks` and `escapeHtml` build HTML from the browser's DOM, which the model cannot see.
- DOM wiring is not modelled: `cacheDom`, `setupEventListeners`, `setupEditModal` and the form reset after an add (`taskInput.value = ''`, priority back to `medium`). These only touch DOM state.
- Focus handling and the copy of the text into the edit box in `openEditModal` are not modelled; they are UI timing and DOM state. `SaveEdit` takes the edit box's content as its parameter instead.
- `showNotification` and its dismissal timer are not modelled; they are UI timing.
- `formatDate` is not modelled: it depends on the wall clock, `Date` parsing and locale formatting.
- The AdSense and error listeners and the `initApp` bootstrap are not modelled; they call browser APIs.
- `localStorage` and `JSON.parse`/`JSON.stringify` are foreign calls. `Stored` abstracts what parsing the stored value can give: nothing stored, corrupt text, or a list of tasks. Storing and re-reading is assumed to give back equal records field by field. Write failures, such as an exceeded quota, are not modelled.
- A parsed value that is truthy but not a task array, and records whose fields are missing or whose priority is outside low/medium/high, are outside the model.
- Views.CompletionRate: computes `Math.round((completed / total) * 100)` in exact rational arithmetic. Floating-point error, which can move a result that lies exactly on a .5 boundary, is not modelled.
- `Date.now()` and `new Date().toISOString()` become the `now` and `createdAt` parameters of `AddTask`. Nothing is assumed about id uniqueness.
- Records are values. The in-place writes `task.completed = …` and `task.text = …` become a replacement of the record at its index. No other reference to a record outlives an operation, so nothing observable is lost. `getFilteredTasks` returning the list object itself for `all` is not distinguished from returning a copy.
- `editingTaskId` is `undefined` before the first edit and `null` after one; both are `None`, and neither matches a numeric id.
