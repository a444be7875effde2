# Task manager core, modelled in Dafny

A model of the sequential logic of a small task-manager application: a Mongoose
`Task` schema on the server, and on the client a Redux slice holding the task
list plus the `TaskList` component's view-model helpers. The system's entities
and operations keep their names:

- `optional.dfy` (module `Optional`): `Option` for a JavaScript `undefined`
  field, `Result` for a save that validation rejects.
- `lists.dfy` (module `Lists`): the array primitives the code is written with:
  `filter`, `map`, and the first-seen order of `[...new Set(xs)]`, with their
  laws (membership, multiplicities, subsequence, first-occurrence order).
- `task_schema.dfy` (module `TaskSchema`, backend/models/Task.js): the `Priority`
  and `Status` enums, the stored `Task` record, a request body (`TaskInput`),
  the document with defaults filled in (`WithDefaults`), the validators
  (`Violations`, `Validate`), and the `TaskDocument` class whose `Save` runs
  validation and then the `pre('save')` hook that stamps `updatedAt`.
- `tasks_slice.dfy` (module `TasksSlice`, frontend/src/slices/tasksSlice.jsx):
  the reducers `setTasks`, `addTask`, `updateTask` and `deleteTask` over
  `seq<Task>`, and the reducer `Reduce` that dispatches an `Action`.
- `task_order.dfy` (module `TaskOrder`): the comparator of `getFilteredTasks`
  (`Compare`, where `None` stands for `NaN`), the `priorityOrder` table, status
  text order, and the stable sort `Array.prototype.sort` performs.
- `task_list.dfy` (module `TaskList`, frontend/src/components/TaskList.jsx):
  `getFilteredTasks` (`FilteredTasks`, `VisibleTasks`), `getUniqueValues`
  (`UniqueValues`), `calculateProgress` (`Progress`), the Complete/Reopen toggle
  (`ToggleStatus`), the blank-comment guard (`CommentToPost`, with
  `String.prototype.trim`) and the badge classes.

Dates are integer millisecond timestamps; the server clock is the parameter
`now`. `estimatedTime` is a `real`.

Comments are stored as plain strings, as the schema declares `[String]`
(backend/models/Task.js:47-51), although the client sends comment objects
(frontend/src/components/TaskList.jsx:99-103). `deleteTask` removes every task
carrying the id (frontend/src/slices/tasksSlice.jsx:10), so it removes exactly
one task only when ids are unique (`DeleteTaskShrinksByOne`).

## Model

| member | source | states |
|---|---|---|
| `TaskSchema.ParsePriority` | backend/models/Task.js:16-20 | a priority string is accepted only as the name of the enum value it yields |
| `TaskSchema.ParsePriorityIff` | backend/models/Task.js:16-20 | the priority validator accepts exactly the four names low, medium, high, urgent, each as its own value |
| `TaskSchema.ParseStatus` | backend/models/Task.js:34-38 | a status string is accepted only as the name of the enum value it yields |
| `TaskSchema.ParseStatusIff` | backend/models/Task.js:34-38 | the status validator accepts exactly todo, inProgress, review, completed, each as its own value |
| `TaskSchema.Validate` | backend/models/Task.js:3-52 | validation succeeds iff no path fails; a failure reports every failing path; a success is a valid task with the document's id and the enum values named by the document's strings |
| `TaskSchema.ValidateRoundTrip` | backend/models/Task.js:3-52 | the stored form of a valid task validates back to the same task; an invalid one is rejected with its violations |
| `TaskSchema.ValidateInverse` | backend/models/Task.js:3-52 | a document that validates is exactly the stored form of the resulting task |
| `TaskSchema.CreateValidates` | backend/models/Task.js:3-52 | a new document validates iff the body has a non-empty title, enum-valid priority and status when given, and a non-negative estimate when given; omitted priority, status, comments, createdAt, updatedAt become medium, todo, [], now, now |
| `TaskSchema.MissingTitleRejected` | backend/models/Task.js:4-7 | a body without a title is rejected on the title path |
| `TaskSchema.OptionalFieldsOptional` | backend/models/Task.js:8-28 | removing description, dueDate, category and assignedTo never changes whether a document validates |
| `TaskSchema.TaskDocument.constructor` | backend/models/Task.js:3-52 | a new document holds the body with the schema defaults and the assigned id |
| `TaskSchema.TaskDocument.TouchUpdatedAt` | backend/models/Task.js:55-58 | the hook sets updatedAt to the clock and leaves every other field as it was |
| `TaskSchema.TaskDocument.Save` | backend/models/Task.js:55-58 | an invalid document is rejected with its violations and left untouched; a valid one gets updatedAt = now and is returned as the validated task carrying that stamp |
| `TaskSchema.TouchKeepsTask` | backend/models/Task.js:55-58 | stamping a valid task keeps it valid and it still validates to itself with only updatedAt changed |
| `TasksSlice.SetTasksIgnoresState` | frontend/src/slices/tasksSlice.jsx:7 | setTasks yields exactly the payload whatever the previous list |
| `TasksSlice.AddTaskAppends` | frontend/src/slices/tasksSlice.jsx:8 | addTask grows the list by one, puts the payload last and keeps every earlier task at its index |
| `TasksSlice.UpdateTaskPointwise` | frontend/src/slices/tasksSlice.jsx:9 | updateTask keeps the length; each task with the payload's id becomes the payload, every other task is unchanged at its index |
| `TasksSlice.UpdateTaskNoop` | frontend/src/slices/tasksSlice.jsx:9 | an update whose payload equals every task already carrying its id leaves the list unchanged |
| `TasksSlice.UpdateTaskAbsent` | frontend/src/slices/tasksSlice.jsx:9 | an update for an id not in the list leaves it unchanged |
| `TasksSlice.UpdateTaskIdempotent` | frontend/src/slices/tasksSlice.jsx:9 | applying the same update twice equals applying it once |
| `TasksSlice.DeleteTaskRemoves` | frontend/src/slices/tasksSlice.jsx:10 | after deleteTask no task has the id, every other task keeps all its copies, and the result is a subsequence of the old list |
| `TasksSlice.DeleteTaskAbsent` | frontend/src/slices/tasksSlice.jsx:10 | deleting an absent id leaves the list unchanged |
| `TasksSlice.DeleteTaskShrinksByOne` | frontend/src/slices/tasksSlice.jsx:10 | with unique ids, deleting a present id shortens the list by exactly one |
| `TasksSlice.DeleteTaskIdempotent` | frontend/src/slices/tasksSlice.jsx:10 | deleting the same id twice equals deleting it once |
| `TasksSlice.DeleteUnique` | frontend/src/slices/tasksSlice.jsx:10 | deleteTask keeps ids unique |
| `TasksSlice.ReducePreservesUniqueIds` | frontend/src/slices/tasksSlice.jsx:6-11 | every reducer keeps ids unique, given a unique payload list for setTasks and a fresh id for addTask |
| `TaskOrder.PriorityRank` | frontend/src/components/TaskList.jsx:30-33 | every schema priority has an entry in the priorityOrder table (urgent 0, high 1, medium 2, low 3), so the priority comparator never yields NaN |
| `TaskOrder.LexCompare` | frontend/src/components/TaskList.jsx:34-35 | the text comparison returns -1, 0 or 1, and 0 exactly for equal strings |
| `TaskOrder.StatusTextOrder` | frontend/src/components/TaskList.jsx:34-35 | comparing status names as text orders them completed, inProgress, review, todo, and calls two statuses equal only when they are the same |
| `TaskOrder.CompareByKey` | frontend/src/components/TaskList.jsx:26-39 | wherever the comparator is defined (dated tasks for a due-date sort; always otherwise) its sign is that of the key difference |
| `TaskOrder.Insert` | frontend/src/components/TaskList.jsx:26-39 | insertion adds exactly one copy of the element and grows the list by one |
| `TaskOrder.InsertSorted` | frontend/src/components/TaskList.jsx:26-39 | insertion keeps a key-sorted list key-sorted |
| `TaskOrder.Sort` | frontend/src/components/TaskList.jsx:26-39 | the sort returns a permutation of its input in key order |
| `TaskOrder.SortStable` | frontend/src/components/TaskList.jsx:26-39 | the sort is stable: the tasks of any one key appear in input order |
| `TaskOrder.SortUnrecognised` | frontend/src/components/TaskList.jsx:36-37 | with an unrecognised sortBy the comparator returns 0 for every pair of tasks, and the sort returns its input unchanged |
| `TaskList.VisibleTasksMembers` | frontend/src/components/TaskList.jsx:21-25 | a task is shown iff it is in the list and, for each of status, priority, category and assignedTo, the filter is "all" or equals the task's field |
| `TaskList.VisibleTasksPermutation` | frontend/src/components/TaskList.jsx:20-39 | the shown tasks are a permutation of the filtered subsequence: each passing task keeps its multiplicity, failing ones vanish |
| `TaskList.AllFiltersShowEverything` | frontend/src/components/TaskList.jsx:11-25 | with all four filters at "all" every task is kept, and all are shown |
| `TaskList.VisibleTasksOrdered` | frontend/src/components/TaskList.jsx:26-39 | when the comparator is consistent it never reports a later shown task as smaller than an earlier one |
| `TaskList.VisibleByPriority` | frontend/src/components/TaskList.jsx:30-33 | sorted by priority, ranks are non-decreasing, so no low task precedes an urgent one |
| `TaskList.VisibleByStatus` | frontend/src/components/TaskList.jsx:34-35 | sorted by status, status names are in non-decreasing text order |
| `TaskList.VisibleTiesKeepOrder` | frontend/src/components/TaskList.jsx:26-39 | tasks with equal sort keys are shown in their filtered order |
| `TaskList.VisibleUnsorted` | frontend/src/components/TaskList.jsx:36-37 | an unrecognised sortBy shows exactly the filtered tasks in list order |
| `TaskList.PrioritySortScenario` | frontend/src/components/TaskList.jsx:20-39 | a low todo task and an urgent completed task, sorted by priority with no filter, are shown urgent first |
| `Lists.Distinct` | frontend/src/components/TaskList.jsx:43 | a Set's values: the same elements as the input, each once, in first-occurrence order |
| `Lists.DistinctFilterOrder` | frontend/src/components/TaskList.jsx:43 | after a leading element, the distinct filtered values follow the order of their first occurrence in the unfiltered input |
| `TaskList.UniqueValuesSpec` | frontend/src/components/TaskList.jsx:42-44 | the options start with "all"; the rest are pairwise distinct and are exactly the non-empty values the field takes in some task |
| `TaskList.UniqueValuesFirstSeenOrder` | frontend/src/components/TaskList.jsx:42-44 | the options after "all" come in the order their first carrying task appears |
| `TaskList.CategoryOptionsScenario` | frontend/src/components/TaskList.jsx:42-44 | categories A, B, A and a missing one yield the options all, A, B |
| `TaskList.Progress` | frontend/src/components/TaskList.jsx:46-54 | the progress is always within 0..100 |
| `TaskList.CalculateProgress` | frontend/src/components/TaskList.jsx:46-54 | a task's progress is always within 0..100 |
| `TaskList.ProgressFollowsWorkflow` | frontend/src/components/TaskList.jsx:46-54 | progress is 0, 33, 66, 100 along todo, inProgress, review, completed, strictly increasing; 100 only for completed, 0 only for todo; any other status string gives 0 |
| `TaskList.ToggleProperties` | frontend/src/components/TaskList.jsx:404-406 | a completed task requests todo and every other status requests completed; the request always differs from the current status, and toggling twice restores exactly todo and completed |
| `TaskList.TrimStart` | frontend/src/components/TaskList.jsx:96 | trimming the front removes only white space and stops at a non-space character |
| `TaskList.TrimEnd` | frontend/src/components/TaskList.jsx:96 | trimming the back removes only white space and stops at a non-space character |
| `TaskList.CommentGuard` | frontend/src/components/TaskList.jsx:94-96 | a comment is posted iff the task has a draft containing a non-white-space character, and the posted text is the untrimmed draft |
| `TaskList.PriorityBadgeDistinct` | frontend/src/components/TaskList.jsx:296-304 | the four priorities get four different badges, none the fallback; any other value gets "badge bg-secondary" |
| `TaskList.StatusBadgeDistinct` | frontend/src/components/TaskList.jsx:306-314 | the four statuses get four different badges; any other value gets the same badge as todo |
| `TaskSchema.WithDefaults` | backend/models/Task.js:3-52 | the document `new Task(body)` builds keeps the assigned id and stores every field the body gives as given; an omitted priority becomes a valid medium, an omitted status a valid todo, omitted timestamps now and omitted comments [] |
| `TaskSchema.CreateRoundTrip` | backend/models/Task.js:3-52 | a body carrying every field of a valid task creates exactly that task, whatever the clock; a body carrying an invalid one is rejected |
| `TaskSchema.Violations` | backend/models/Task.js:3-52 | each schema path is reported exactly when its validator fails: title missing or empty, priority or status outside its enum, estimate below 0 |
| `TasksSlice.SetTasks` | frontend/src/slices/tasksSlice.jsx:7 | the new list is the payload element for element, whatever the old state |
| `TasksSlice.AddTask` | frontend/src/slices/tasksSlice.jsx:8 | the old list is kept as a prefix and the payload is appended once, at the end |
| `TasksSlice.UpdateTask` | frontend/src/slices/tasksSlice.jsx:9 | the updateTask reducer keeps the length; specified pointwise by `UpdateTaskPointwise` |
| `TasksSlice.DeleteTask` | frontend/src/slices/tasksSlice.jsx:10 | the deleteTask reducer never lengthens the list; specified by `DeleteTaskRemoves` |
| `TasksSlice.Reduce` | frontend/src/slices/tasksSlice.jsx:6-11 | per action: setTasks yields the payload, addTask appends the payload, updateTask keeps the length, deleteTask never lengthens the list |
| `TaskOrder.PriorityOrder` | frontend/src/components/TaskList.jsx:31-32 | the priorityOrder table has an entry, between 0 and 3, exactly for the four priority names |
| `TaskOrder.Compare` | frontend/src/components/TaskList.jsx:26-39 | the comparator yields NaN only for a due-date sort meeting a task without a due date |
| `TaskList.FilteredTasks` | frontend/src/components/TaskList.jsx:21-25 | the filter step never adds tasks; membership is `VisibleTasksMembers` |
| `TaskList.VisibleTasks` | frontend/src/components/TaskList.jsx:20-40 | the shown tasks are a permutation of the filtered tasks; order in `VisibleTasksOrdered` |
| `TaskList.InitialView` | frontend/src/components/TaskList.jsx:11-17 | the initial filters keep every task, ordered by ascending due date when all are dated and in list order otherwise |
| `TaskList.UniqueValues` | frontend/src/components/TaskList.jsx:42-44 | the option list starts with "all"; the rest in `UniqueValuesSpec` |
| `TaskList.ToggleStatus` | frontend/src/components/TaskList.jsx:404-406 | the requested status always differs from the current one, and is todo exactly when the task is completed |
| `TaskList.CommentToPost` | frontend/src/components/TaskList.jsx:94-96 | a posted comment is the non-empty draft stored for the task; the exact condition in `CommentGuard` |
| `TaskList.PriorityBadgeClass` | frontend/src/components/TaskList.jsx:296-304 | every priority badge class is `badge ` followed by a colour class, and the grey fallback is given exactly to values outside the four priority names; distinctness in `PriorityBadgeDistinct` |
| `TaskList.StatusBadgeClass` | frontend/src/components/TaskList.jsx:306-314 | every status badge class is `badge ` followed by a colour class, and the grey class is given exactly to todo and to values outside the four status names; distinctness in `StatusBadgeDistinct` |

## Left out

- VisibleTasks: a due date stored as `null` (what Mongoose makes of the empty `dueDate: ''` that frontend/src/components/TaskForm.jsx:10 sends) is compared as the epoch by `new Date(null)` and sorts first in the source; the model has no `null` date, only a present or an absent one. For a due-date sort the model shows kept tasks in key order when every one is dated and in filtered order otherwise (`InitialView`, `VisibleTasksOrdered`). This matches the source whenever the source's order is defined. When no kept task is dated, every comparison is `NaN`, which `Array.prototype.sort` reads as 0, so the stable sort also keeps list order. Only distinct dates mixed with absent ones give an implementation-defined order in the source; the model then shows the filtered order.
- Object-prototype keys: the lookup tables of `calculateProgress`, `priorityOrder` and the badge helpers are plain objects, so a status such as "constructor" would find an inherited property; the model treats every string outside the table as missing.
- `localeCompare`: modelled as code-point order; for the four status names, which begin with distinct letters, every locale agrees.
- Mongoose type casting (strings to numbers or dates), `null` values, and keys outside the schema are not modelled; a `TaskInput` is a body already cast to the schema's field types.
- Persistence, `_id` generation and the clock are parameters: the id a document receives and the time `now` are given to `TaskDocument` and `Save`.
- backend/routes/tasks.js is not part of this model: its handlers only wrap Mongoose store calls whose behaviour is not visible here; its `Object.assign` field merge on PATCH (backend/routes/tasks.js:51) and its `if (!task)` 404 checks are not modelled.
- Comment posting: the client posts to `/tasks/:id/comments`, which the server does not define, and sends objects where the schema stores strings; only the blank-comment guard is modelled.
- `formatDate` depends on locale formatting and is not modelled.
- Asynchronous calls, axios, console logging, React state and rendering, authentication (Auth.jsx, App.jsx), the form (TaskForm.jsx), the store configuration (store.jsx) and the server bootstrap (app.js) are not modelled.
