# Todo list store: a verified model

This project models the task store of a student to-do list web application
and the form logic in front of it:

- `TodoService` (src/services/todolist.js) owns an ordered list of tasks and
  offers:
  - adding, updating, toggling and deleting a task;
  - clearing completed tasks;
  - statistics;
  - filtering by status or due date, free-text search and sorting by four keys;
  - export and import.
- The `useTodo` hook (src/hooks/todohook.js) contributes `validateForm`, the
  required-field check, and `handleSubmit`, which sends a complete form to
  the store as an update or as a new task.

Modules, one per concern:

| module | file | contents |
|---|---|---|
| `Text` | text.dfy | `trim`, ASCII `toLowerCase`, `includes`, and the title order used in place of `localeCompare` |
| `Sequences` | sequences.dfy | `Array.prototype.filter` as `Filter`, and the sub-sequence relation it produces |
| `TaskModel` | task.dfy | the task record, what `addTask` builds, the merge of `updateTask`, and the flip of `toggleTask` |
| `TaskList` | tasklist.dfy | the list each mutation produces, the completion invariant, and export/import records |
| `Queries` | queries.dfy | overdue and due-soon, `filterTasks`, `searchTasks` |
| `Ordering` | ordering.dfy | the comparators of `sortTasks`, the stable order they fix (`StableSort`), and an in-place array insertion sort proved to compute it |
| `Service` | service.dfy | the class `TodoService`, whose methods reassign its `tasks` field |
| `FormHook` | form.dfy | `validateForm` and `handleSubmit` |

Time is milliseconds since the epoch:
- each operation that reads the clock takes one `now` parameter, and every read of the clock inside that call gets this one instant (see "## Left out");
- a due date is the instant it denotes, or `None` for the empty string.

The ids the source draws from `Date.now()` and `Math.random()`, and the random
colour, are parameters too.

## Model

| member | source | states |
|---|---|---|
| Text.Trim | src/services/todolist.js:40-42 | the result is the input with a run of white space cut from each end, has no white space at either end, and is empty exactly when the input is all white space |
| Text.TrimStart | src/services/todolist.js:40 | what is cut from the front is all white space, and what is left is a suffix starting with a non-space |
| Text.TrimEnd | src/services/todolist.js:40 | what is cut from the back is all white space, and what is left is a prefix ending with a non-space |
| Text.ToLower | src/services/todolist.js:194-200 | lower-casing keeps the length and maps each character on its own |
| Text.ToLowerIdempotent | src/services/todolist.js:194-200 | lower-casing twice is lower-casing once |
| Text.ToLowerKeepsSpace | src/services/todolist.js:192-194 | lower-casing neither creates nor removes white space |
| Text.Contains | src/services/todolist.js:197-200 | `includes`: the needle is a prefix of the haystack or of one of its tails |
| Text.ContainsIff | src/services/todolist.js:197-200 | `includes` holds exactly when the needle occurs at some position of the haystack |
| Text.CompareStrings | src/services/todolist.js:170 | the title order is -1, 0 or 1, and is 0 exactly for equal titles |
| Text.CompareStringsAntisymmetric | src/services/todolist.js:170 | swapping the titles flips the sign of the title order |
| Text.CompareStringsTransitive | src/services/todolist.js:182 | "not after" in the title order is transitive |
| Sequences.Filter | src/services/todolist.js:91 | the filter keeps only elements satisfying the predicate, takes them from the input, and never lengthens it |
| Sequences.FilterCounts | src/services/todolist.js:91 | every element satisfying the predicate occurs in the result exactly as often as in the input |
| Sequences.FilterSpec | src/services/todolist.js:136-138 | the filter keeps order, and every element satisfying the predicate is kept |
| Sequences.FilterSplit | src/services/todolist.js:109-111 | the filters by a predicate and by its negation have lengths summing to the input's length |
| Sequences.FilterMonotone | src/services/todolist.js:113-127 | a weaker predicate never keeps fewer elements |
| Sequences.FilterIdempotent | src/services/todolist.js:91 | filtering twice by the same predicate is filtering once |
| TaskModel.NewTask | src/services/todolist.js:37-49 | a new task has the given id, trimmed text, default priority "normal" and colour "#A78BFA" for empty ones, is open with no completion time, and is stamped `now` twice |
| TaskModel.ApplyPatch | src/services/todolist.js:60-64 | each property the patch carries wins, every other property of the task is kept, and `updatedAt` is `now` |
| TaskModel.EmptyPatchRefreshesOnly | src/services/todolist.js:60-64 | an empty patch changes only `updatedAt` |
| TaskModel.PatchCanBreakInvariants | src/services/todolist.js:60-64 | the unguarded merge can rewrite the id, and can mark a task completed without a completion time |
| TaskModel.Toggled | src/services/todolist.js:75-81 | toggling flips `completed`, sets or removes `completedAt` to match, stamps `updatedAt`, and changes nothing else |
| TaskModel.ToggleTwice | src/services/todolist.js:72-86 | toggling any task twice restores `completed`, with `completedAt` following it; an open task without a completion time comes back unchanged but for `updatedAt` |
| TaskList.FindIndex | src/services/todolist.js:58 | the result is -1 exactly when no task has the id, and otherwise the first position holding it |
| TaskList.FindIndexAfterReplace | src/services/todolist.js:58 | replacing a task by one with the same id at or after the first match keeps the first match |
| TaskList.UpdatedList | src/services/todolist.js:57-69 | a missing id leaves the list as it is; otherwise only the first task with the id is replaced, by the merge |
| TaskList.ToggledList | src/services/todolist.js:72-86 | a missing id leaves the list as it is; otherwise only the first task with the id is toggled |
| TaskList.ToggleListTwice | src/services/todolist.js:72-86 | toggling an id twice restores every `completed` flag in any list; an open task without a completion time comes back unchanged but for `updatedAt` |
| TaskList.Without | src/services/todolist.js:91 | no task with the id remains, every other task is kept in order with all its copies, and the list shrinks exactly when some task had the id |
| TaskList.DeleteIdempotent | src/services/todolist.js:89-97 | deleting an id twice is deleting it once |
| TaskList.DeleteUndoesAdd | src/services/todolist.js:51 | deleting the id of a task just put in front undoes the insertion |
| TaskList.ActiveTasks | src/services/todolist.js:102 | only open tasks are kept, every open task is kept with all its copies, and order is kept |
| TaskList.CompletedTasks | src/services/todolist.js:101 | only completed tasks are kept, every completed task is kept with all its copies, and order is kept |
| TaskList.ClearCompletedCounts | src/services/todolist.js:100-105 | the returned count plus what stays is the old length, and nothing completed stays |
| TaskList.ConsistencyPreserved | src/services/todolist.js:37-105 | adding, toggling, deleting and clearing keep every task's `completedAt` present exactly when it is completed |
| TaskList.Present | src/services/todolist.js:252-254 | a task array whose entries are all objects gives one record per entry, in order |
| TaskList.ImportedTasks | src/services/todolist.js:254-259 | each imported task keeps its properties, gets its fresh id, keeps its creation time or gets `now`, and has `updatedAt` = `now` |
| TaskList.AsEntries | src/services/todolist.js:241-247 | an exported list read back gives one object per task, none missing, carrying the task and its creation time |
| TaskList.ExportImportRoundTrip | src/services/todolist.js:241-259 | importing an export gives back every task, creation time included, except for a fresh id and `updatedAt` |
| Queries.CeilDiv | src/services/todolist.js:118 | the result is the least whole number of days whose length reaches the time difference (Math.ceil) |
| Queries.IsTaskOverdue | src/services/todolist.js:217-222 | defines overdue: an open task with a due instant strictly before now |
| Queries.IsTaskDueSoon | src/services/todolist.js:225-232 | defines due soon: an open task with a due instant whose rounded-up day difference from now is 0 to 3 |
| Queries.DueSoonWindow | src/services/todolist.js:225-232 | a task is due soon exactly when it is open and its due instant lies after one day ago and at most three days ahead |
| Queries.OverdueAndDueSoon | src/services/todolist.js:217-232 | a task is both overdue and due soon exactly when it is open and its due instant is less than a day in the past |
| Queries.PassesFilter | src/services/todolist.js:134-157 | defines each filter: open, completed, overdue, due soon, and everything for any other value |
| Queries.FilterTasks | src/services/todolist.js:133-158 | the result keeps order, every kept task passes the filter, no passing task or copy of one is lost, and 'all' or an unknown filter returns the list |
| Queries.Matches | src/services/todolist.js:195-201 | defines a match: the lower-cased title, description, non-empty subject or priority contains the term |
| Queries.SearchTasks | src/services/todolist.js:191-202 | a blank term returns the list; otherwise exactly the tasks whose title, description, non-empty subject or priority contains the lower-cased term, in order and with all copies |
| Queries.SearchIgnoresTermCase | src/services/todolist.js:194 | two search terms that lower-case alike select the same tasks |
| Queries.SearchFindsSubject | src/services/todolist.js:199 | the search looks at the subject, lower-cased: "math" finds a task whose subject is "Math" |
| Ordering.Weight | src/services/todolist.js:166-168 | the weight is 3 exactly for "hard", 1 exactly for "easy", and 2 for anything else |
| Ordering.Compare | src/services/todolist.js:164-187 | defines the four comparators: weight descending then title; dated before undated, dated by due instant, undated by title; title; newest creation first |
| Ordering.InsertLast | src/services/todolist.js:167 | one step of a stable sort: the new element moves left past exactly the elements the comparator puts after it, adding one element |
| Ordering.StableSort | src/services/todolist.js:161-188 | the order a stable sort by the comparator produces, of the input's length |
| Ordering.CompareAntisymmetric | src/services/todolist.js:161-188 | every comparator flips sign when its operands are swapped |
| Ordering.CompareTransitive | src/services/todolist.js:161-188 | every comparator's "not after" is transitive |
| Ordering.TiesAgree | src/services/todolist.js:161-188 | two tasks that tie with a third tie with each other |
| Ordering.StableSortPermutes | src/services/todolist.js:161-162 | sorting returns a permutation of its input |
| Ordering.StableSortSorted | src/services/todolist.js:161-188 | sorting leaves no pair out of order under the chosen comparator |
| Ordering.InsertLastKeepsTies | src/services/todolist.js:161-188 | one insertion step keeps the input order among tasks that tie |
| Ordering.StableSortKeepsTies | src/services/todolist.js:161-188 | the sort is stable: tasks that tie keep their input order |
| Ordering.SortedMeaning | src/services/todolist.js:164-187 | the sorted order means, per key: weight descending then title; dated tasks first by due instant, undated ones by title; title; newest `createdAt` first |
| Ordering.EqualDueKeepsInputOrder | src/services/todolist.js:173-179 | two tasks with the same due instant keep their input order whatever their titles |
| Ordering.EarlierDueFirst | src/services/todolist.js:178 | the earlier due instant goes first |
| Ordering.InsertAt | src/services/todolist.js:162-186 | one insertion pass turns the array's prefix into the stable insertion of the next element, and leaves the rest alone |
| Ordering.SortTasks | src/services/todolist.js:161-188 | sorting a fresh copy in place yields exactly the stable order of the comparator |
| Service.TodoService.constructor | src/services/todolist.js:3-7 | the store starts from the given list |
| Service.TodoService.GetAllTasks | src/services/todolist.js:32-34 | the snapshot is the list |
| Service.TodoService.AddTask | src/services/todolist.js:37-54 | the built task is put in front and everything else stays |
| Service.TodoService.UpdateTask | src/services/todolist.js:57-69 | the list becomes the updated list; the result is None exactly when no task has the id, and otherwise the merged task now stored |
| Service.TodoService.ToggleTask | src/services/todolist.js:72-86 | the list becomes the toggled list; the result is None exactly when no task has the id, and otherwise the toggled task now stored |
| Service.TodoService.DeleteTask | src/services/todolist.js:89-97 | the list loses every task with the id; the result is true exactly when some task had it |
| Service.TodoService.ClearCompleted | src/services/todolist.js:100-105 | open tasks stay in order, and the count returned is the number of completed tasks removed |
| Service.TodoService.GetStatistics | src/services/todolist.js:108-130 | each count is the size of its filter view; open and completed tasks split the total; due-soon and overdue counts never exceed the open count |
| Service.TodoService.GetFilteredTasks | src/services/todolist.js:205-214 | the result is the stable sort of the searched filter view: a sorted permutation of an order-keeping selection in which every task passes the filter and matches the search |
| Service.TodoService.ExportTasks | src/services/todolist.js:241-247 | the export holds the list, the export time and version "1.0" |
| Service.TodoService.ImportTasks | src/services/todolist.js:250-269 | no data, no task array, or a null entry in it imports nothing, changes nothing and returns 0; otherwise the rebuilt records go in front, in order, and their number is returned |
| FormHook.ErrorListFacts | src/hooks/todohook.js:48-64 | an error list names each missing field once, in the order title, subject, due date |
| FormHook.ValidateForm | src/hooks/todohook.js:48-64 | the errors are the error list of the missing fields: each of the three reported exactly when its field is missing, once and in order; none exactly when the form is complete |
| FormHook.FormPatch | src/hooks/todohook.js:76 | an edit sends the form's fields untrimmed, and the colour only when the form carries one |
| FormHook.FormEditKeepsIdentity | src/hooks/todohook.js:76 | an edit through the form keeps the id, the completion state and the creation time |
| FormHook.HandleSubmit | src/hooks/todohook.js:66-94 | an incomplete form is rejected with the error list of its missing fields and changes nothing; with an editing id the store updates that task and the result says whether it was found; otherwise a new task with the given colour is put in front |

## Left out

- Persistence: `loadTasks` and `saveTasks` (local storage and JSON). The store starts from a given list. In the source, `loadTasks` returns `undefined` when nothing is saved, so the list is then undefined; this model always has a list.
- The clock and the id and colour generators (`Date.now`, `Math.random`, `getRandomColor`) are parameters. Id uniqueness is not claimed: the source does not guarantee it, and every lemma allows duplicate ids.
- Date strings are modelled as instants. ISO formatting, parsing, invalid dates (NaN) and `formatVietnameseDate` are not modelled.
- Text.CompareStrings: `localeCompare` is modelled as code-point lexicographic order, not locale collation.
- Text.ToLower: changes only ASCII letters, where `toLowerCase` also maps other scripts.
- Object identity is not modelled. In the source, `toggleTask` mutates the task object in place, `updateTask` returns the stored object, and `exportTasks` shares the live array. Here tasks are values.
- Service.TodoService.UpdateTask: a patch covers the task's own properties only. JavaScript's spread of unknown or `undefined` properties is not modelled.
- Ordering.Weight: the model does not cover a priority that names an inherited property of the weight table (such as "constructor").
- Service.TodoService.ImportTasks: several cases give 0 and leave the list unchanged, and the model covers them.
  - A null or undefined `data` throws, and the error is caught.
  - A missing or non-array `tasks` falls through to `return 0`.
  - Both of these are `None` in the model.
  - A null or undefined entry makes the mapping throw; it is a `None` entry in the model.
- Service.TodoService.ImportTasks: the model does not cover an entry that is an object with missing or non-string properties. The source spreads such an entry into the list as it is, and a later search or sort may then throw. `ImportRecord` always holds a complete task.
- Clock reads. The source reads the clock separately each time:
  - `addTask`: for the id, `created_at` and `updated_at`;
  - `toggleTask`: for `updated_at` and `completed_at`;
  - the queries: once per task filtered or classified.

  The model gives each call one instant, so these are modelling choices, not source guarantees:
  - TaskModel.NewTask: `createdAt == updatedAt`;
  - TaskModel.Toggled: `completedAt == updatedAt`;
  - Service.TodoService.GetStatistics: classifies every task against one instant.
- Visual effects (stars, fireworks, styles), React state, alerts, confirmation dialogs and the progress percentage are not part of this model.
- The page components (src/pages/todolist.jsx and the others) are not part of this model. This includes their duplicated validation.
- Where the code's behaviour is surprising, the model follows the code:
  - overdue and due-soon overlap for tasks due within the last day (Queries.OverdueAndDueSoon);
  - dated tasks with equal due instants have no title tie-break (Ordering.EqualDueKeepsInputOrder);
  - the search term is trimmed only for the blank test;
  - `updateTask` does not trim the title an edit sends.
