# To-do list state, modelled in Dafny

This project models the state of the browser to-do application in
`js/script.js`: the `TodoApp` object that holds an ordered array of tasks
`{id, text, date, completed, createdAt}`, the current filter string and the
id of the item being edited. It covers every operation that changes that
state: adding a task to the front, editing the text and date of a task,
opening and cancelling an edit, toggling completion, deleting one task or all
tasks, and choosing a filter. It also covers the views read from it: the
filtered list and the three counters (total, active, completed).

Layout:

- `Trim.dfy`, module `JsString`: `String.prototype.trim`, which the form
  applies to the typed text before validating it.
- `Tasks.dfy`, module `TaskList`: the `Task` record and the array operations
  the object applies. These are `filter` (`Keep`), first-match `findIndex`
  (`FindIndex`), and the in-place updates as list values (`Toggled`,
  `Edited`, `Removed`). It also holds the views (`Filtered`, `CountsOf`) and
  the lemmas about them.
- `TodoApp.dfy`, module `Todo`: the class `TodoApp`. Its fields are `tasks`,
  `currentFilter`, `editingTaskId` and a ghost `saved`. `saved` stands for
  the `todoTasks` entry of `localStorage`, which `saveTasks` overwrites with
  the whole array. `Valid()` states that storage always holds the in-memory
  list (an absent entry holds the empty list). Every mutating method keeps
  `Valid()` and says exactly what its new state is.

Inputs from outside the object become parameters:

- the text and date form fields;
- the answer to `confirm()`;
- the `Date.now()` id and the `toISOString()` creation time;
- the decoded storage entry read by the constructor.

Properties proved:

- `addTask` puts the new task at index 0 and keeps the old list as the tail.
- `updateTask` touches only the text and date of the first task with the
  edited id.
- Toggling twice restores the list. A toggle moves exactly one task between
  the active and completed counters.
- Deletion keeps the other tasks in their original order, with their
  multiplicities.
- Deleting an unknown id yields the identical list. With unique ids, deleting
  a present id removes exactly that one task.
- Each filter view is an order-preserving subsequence with exactly the right
  members, each as often as in the list.
- `active + completed == total`.
- Every operation keeps two invariants: stored texts are trimmed and
  non-empty, and ids are unique (provided a new task's id is fresh).

Notes on the source, which the model follows:

- `setFilter` stores any string, and an unknown one shows the whole list.
- `deleteTask` keeps `editingTaskId`, even when it deletes the task being
  edited.
- `deleteTask` removes every task with the id, while `toggleTask` and
  `updateTask` act on the first one only.
- The confirmation dialogs gate the deletes inside the object.
- The operations report nothing. An update of an absent id, an unknown
  toggle or invalid input just leaves the state unchanged.

## Model

| member | source | states |
|---|---|---|
| `JsString.TrimStart` | js/script.js:64 | the result is the suffix of the text left after dropping a run of leading white space, and it does not start with white space |
| `JsString.TrimEnd` | js/script.js:64 | the result is the prefix of the text left after dropping a run of trailing white space, and it does not end with white space |
| `JsString.Trim` | js/script.js:64-67 | the result is the slice of the text left after cutting off the run of white space at its start and the run at its end, so everything cut is white space; it is empty exactly when the input is all white space (the rejection test of `if (taskText && …)`), and otherwise neither starts nor ends with white space |
| `JsString.CutTwice` | js/script.js:64 | cutting a white-space prefix and then a white-space suffix that both stop at a non-space leaves a slice of the text with only white space around it, empty exactly when the text is all white space |
| `JsString.TrimOfTrimmed` | js/script.js:64 | a text without leading or trailing white space is its own trim |
| `JsString.TrimIdempotent` | js/script.js:85 | trimming a text that was already trimmed gives it back |
| `TaskList.Keep` | js/script.js:152 | `filter` keeps exactly the elements satisfying the test and never grows the array |
| `TaskList.KeepIsSubsequence` | js/script.js:209-211 | `filter` keeps the relative order of what it keeps |
| `TaskList.KeepMultiplicity` | js/script.js:152 | `filter` keeps every passing element exactly as many times as it occurs and drops every copy of a failing one |
| `TaskList.KeepKeepsUnique` | js/script.js:152 | `filter` of a list whose ids are unique returns a list whose ids are unique |
| `TaskList.KeepAll` | js/script.js:152 | `filter` with a test every element passes returns the array unchanged |
| `TaskList.KeepPartition` | js/script.js:302-303 | filtering by a test and by its negation gives lengths that add up to the array's length |
| `TaskList.KeepReplace` | js/script.js:177 | replacing one element changes the length of a filter only by that element's old and new membership |
| `TaskList.KeepDropsOne` | js/script.js:152 | a filter that rejects exactly one position returns the array with that one element cut out |
| `TaskList.FindIndex` | js/script.js:89-92 | `findIndex` on the id: -1 exactly when no task has the id, otherwise the index of a task with the id and no earlier task has it |
| `TaskList.FindIndexById` | js/script.js:175 | two lists with the same ids position by position have the same first match (toggling and editing never move the match) |
| `TaskList.Toggled` | js/script.js:174-177 | same length; every task keeps all fields but `completed`; `completed` changes at exactly the first index with the id and nowhere else |
| `TaskList.Edited` | js/script.js:89-94 | same length; every task other than the first match is unchanged; the first match keeps id, completed, createdAt and position and gets the new text and date |
| `TaskList.Removed` | js/script.js:152 | the tasks left are exactly those whose id differs, in their original relative order |
| `TaskList.Filtered` | js/script.js:206-214 | an order-preserving subsequence of the list; "active" holds exactly the uncompleted tasks and "completed" exactly the completed ones, each with its multiplicity in the list; any other filter gives the whole list |
| `TaskList.CountsOf` | js/script.js:300-303 | total is the list length; active and completed are the lengths of the two filter views and add up to total |
| `TaskList.SubsequenceOfSelf` | js/script.js:213 | the unfiltered view (the whole list) is trivially an order-preserving subsequence of the list |
| `TaskList.ToggleTwice` | js/script.js:174-177 | toggling the same id twice restores the original list |
| `TaskList.ToggleUnknown` | js/script.js:175-176 | toggling an id no task has leaves the list identical |
| `TaskList.ToggleMovesOne` | js/script.js:174-177 | a toggle keeps the total and moves exactly one task between the active and completed counters, in the direction of its old flag |
| `TaskList.RemoveUnknown` | js/script.js:150-152 | deleting an id no task has yields the identical list |
| `TaskList.RemoveMultiplicity` | js/script.js:152 | deleting keeps every task with another id as often as it occurred and removes every copy of the deleted id |
| `TaskList.RemoveKeepsUnique` | js/script.js:152 | deleting keeps unique ids unique |
| `TaskList.RemoveUnique` | js/script.js:152 | when ids are unique, deleting a present id removes exactly the one entry at its index and nothing else |
| `TaskList.AddFreshKeepsUnique` | js/script.js:68-76 | prepending a task whose id no task has keeps the ids unique |
| `TaskList.ToggleEditKeepUnique` | js/script.js:93-94 | toggling and editing keep unique ids unique |
| `TaskList.AddKeepsWellFormed` | js/script.js:63-76 | adding a task from validated input keeps every stored text trimmed and non-empty and every date non-empty |
| `TaskList.EditKeepsWellFormed` | js/script.js:84-94 | editing with validated input keeps every stored text trimmed and non-empty and every date non-empty |
| `TaskList.ToggleRemoveKeepWellFormed` | js/script.js:150-177 | toggling and deleting keep every stored text trimmed and non-empty and every date non-empty |
| `Todo.TodoApp.constructor` | js/script.js:2-5 | tasks are the decoded storage entry, or empty when there is none; filter "all"; no edit target; storage and memory agree |
| `Todo.TodoApp.GetFilteredTasks` | js/script.js:206-214 | the shown list is an order-preserving subsequence of the tasks; under "active" it holds exactly the uncompleted tasks and under "completed" exactly the completed ones, each as often as in the tasks; any other filter shows all tasks |
| `Todo.TodoApp.Counter` | js/script.js:300-303 | the total is the number of tasks; active and completed are the lengths of the "active" and "completed" views and add up to the total |
| `Todo.TodoApp.AddTask` | js/script.js:63-82 | valid input puts `{id, trimmed text, date, completed: false, createdAt}` at index 0 in front of the old list and saves it; invalid input changes neither tasks nor storage; filter and edit target are never touched; the stored-text and unique-id invariants are kept |
| `Todo.TodoApp.UpdateTask` | js/script.js:84-101 | with valid input and an edit target present, the list becomes `Edited` of the old one, is saved, and the edit ends; otherwise tasks, storage and the edit target stay as they were; both invariants are kept |
| `Todo.TodoApp.EditTask` | js/script.js:103-108 | the edit target becomes the id exactly when some task has it, otherwise stays; tasks are never changed |
| `Todo.TodoApp.CancelEdit` | js/script.js:133-134 | the edit target is cleared whatever it was, so a second call changes nothing |
| `Todo.TodoApp.DeleteTask` | js/script.js:150-157 | when confirmed, the list becomes `Removed` of the old one and is saved; when not, nothing changes; the edit target is never touched; both invariants are kept |
| `Todo.TodoApp.DeleteAllTasks` | js/script.js:159-172 | an empty list changes nothing, edit target included; a confirmed call on a non-empty list empties and saves it and clears the edit target; an unconfirmed call changes nothing; both invariants are kept |
| `Todo.TodoApp.ToggleTask` | js/script.js:174-182 | a present id makes the list `Toggled` of the old one and saves it; an unknown id changes nothing and does not save; both invariants are kept |
| `Todo.TodoApp.SetFilter` | js/script.js:192-193 | the filter becomes exactly the given string, whatever it is; nothing else changes |
| `Todo.ToggleTwiceRestores` | js/script.js:174-182 | two toggles of the same id on the object restore its task list and leave storage in agreement with it; only the list and storage may change, so filter and edit target stay |

## Left out

- DOM wiring and rendering are not modelled. This covers `initializeElements`,
  `attachEventListeners`, `toggleDropdown`, `closeDropdown`, `renderTasks`
  and `resetForm`. It also covers the filter label and highlight in
  `setFilter`, the counter text in `updateCounter`, the filling of the form
  fields and the button restyling in `editTask`, and the button restyling in
  `cancelEdit`. They produce markup, not state.
- The submit dispatch in `attachEventListeners` (js/script.js:29-33) is not
  modelled. It calls `updateTask` when `editingTaskId` is truthy and
  `addTask` otherwise. An edit target whose id is `0` is falsy, so in that
  case a submission would add a task rather than update one. Ids come from
  `Date.now()`, so this never arises in practice.
- `formatDate` and `setDefaultDate` are not modelled. They depend on the
  clock, the time zone and locale formatting.
- `localStorage` and JSON encoding are modelled only as the ghost snapshot
  `saved`:
  - The constructor takes the already decoded entry.
  - A malformed payload makes `JSON.parse` throw, and that is not modelled.
  - A decoded value that is not an array of tasks is not modelled.
  - The JSON round trip of a task is assumed exact.
  - Every save, the `localStorage.setItem` call at js/script.js:327, is
    assumed to succeed, and `Valid()` relies on that. A throw there (a full
    quota, storage disabled) would leave the list changed in memory while
    storage holds the old one. In `updateTask` the throw at line 95 comes
    before `cancelEdit` at line 98, so the edit would stay open. In
    `deleteAllTasks` the throw at line 167 comes before `cancelEdit` at
    line 170, so the edit target would stay set.
- `confirm()` and `alert()` are not modelled as dialogs. The answer to
  `confirm()` is a boolean parameter. The `alert()` on an empty
  delete-all is a no-op on the state.
- `Date.now()` and `new Date().toISOString()` are parameters of `AddTask`.
  Nothing makes the id unique. Uniqueness is kept only when the caller passes
  a fresh id, which is `AddTask`'s `FreshId` premise.
- The module-level `todoApp` global and the `DOMContentLoaded` bootstrapping
  are not modelled.
- Tasks are values, not shared objects. In the source, `toggleTask` and
  `updateTask` mutate a task object in place. No other holder of that
  object outlives the call: `getFilteredTasks` results are only rendered.
  The update therefore looks the same as replacing the element of `tasks`.
- JavaScript strings are UTF-16 code units, while the model's characters are
  Unicode scalar values. The set of white-space characters `trim` removes
  follows the ECMAScript definition, not the Unicode version of any
  particular engine.
- Ids are modelled as mathematical integers. JavaScript numbers are doubles,
  but `Date.now()` values are exact integers.
