# Task collection mirror and task-card decisions

This project models two pieces of a small task-management front end.

- **The `useTasks` hook** keeps a local, ordered mirror of the tasks held by a remote task API, plus a `loading` flag. It has four operations:
  - `fetchTasks` replaces the whole list with the server's list.
  - `addTask` appends the record the server created.
  - `editTask` replaces each entry with the edited identifier by the record the server returned, in place.
  - `removeTask` filters out each entry with the deleted identifier.

  Each change to the list happens only after the awaited remote call resolves. `fetchTasks` raises `loading` before it awaits.
- **The `TaskCard` component** decides several things from its props:
  - which colour class the status badge gets;
  - whether the "Break Down" menu item appears, whether it is enabled, and what it says;
  - whether the sub-task list is shown, and its pluralised header.

Modules:

- `Wrappers` (wrappers.dfy): `Option`, used for props that TypeScript may leave `undefined`.
- `Tasks` (tasks.dfy): `Status` (todo, in-progress, done) and the `Task` record. Its `id` field is the store's `_id`.
- `TaskList` (task_list.dfy): the two list transforms the hook passes to its state setter. `ReplaceById` is the `map`, `RemoveById` is the `filter`. The file also holds their lemmas: pointwise replacement, order-preserving removal, idempotence, no-op on an absent identifier, and preservation of unique identifiers.
- `UseTasks` (use_tasks.dfy): the class `TaskCollection`. It has the fields `tasks: seq<Task>` and `loading: bool`, and one method per hook operation. Each remote call is an input `Reply<T>`, either `Success(value)` or `Failure`. `Session` is a client that runs a sequence of operations and checks the outcomes from the contracts alone.
- `TaskCard` (task_card.dfy): the card's decisions as total functions over `CardProps`, with lemmas.

Notes on what the code does:

- `editTask` maps over the whole list (src/hooks/useTasks.ts:28-30), so `ReplaceById` replaces every entry with a matching identifier, not just the first.
- Nothing in the code keeps identifiers unique. `UniqueIds` is therefore a predicate, with lemmas saying which operations preserve it and under what condition on the server's reply: `AppendKeepsUnique`, `ReplaceKeepsUnique`, `RemoveKeepsUnique`.
- `editTask` does not check that the returned record carries `id`, and neither does `EditTask`.
- A rejected `getTasks` leaves `loading` true, because nothing resets it on that path. `FetchTasks` states this as written.

## Model

| member | source | states |
|---|---|---|
| `UseTasks.TaskCollection.constructor` | src/hooks/useTasks.ts:7-8 | the hook starts with an empty task list and `loading` true |
| `UseTasks.TaskCollection.FetchTasks` | src/hooks/useTasks.ts:10-15 | on success the list is exactly the server's list, in its order, and `loading` is false; on failure the list is unchanged and `loading` is true (it was raised before the await); it reports which happened |
| `UseTasks.TaskCollection.AddTask` | src/hooks/useTasks.ts:21-24 | on success the list is the old list with the created record appended at the end; on failure it is unchanged; `loading` is never touched |
| `UseTasks.TaskCollection.EditTask` | src/hooks/useTasks.ts:26-32 | on success the length is kept, and each position holds the returned record if its old identifier matched, otherwise its old record; on failure the list is unchanged; the reply is handed back; `loading` is never touched |
| `UseTasks.TaskCollection.RemoveTask` | src/hooks/useTasks.ts:35-38 | on success the list is the filtered old list and no entry carries the identifier; on failure it is unchanged; `loading` is never touched |
| `TaskList.ReplaceById` | src/hooks/useTasks.ts:28-30 | the result has the input's length; position i holds the new record exactly when the old entry's identifier matched, otherwise the old entry |
| `TaskList.RemoveById` | src/hooks/useTasks.ts:37 | the result is no longer than the input; it contains exactly the input's entries whose identifier differs |
| `TaskList.ReplaceAbsentIsIdentity` | src/hooks/useTasks.ts:28-30 | an edit for an identifier not in the list leaves the list unchanged |
| `TaskList.ReplaceAtPosition` | src/hooks/useTasks.ts:28-30 | with unique identifiers, the returned record lands at the edited identifier's position and every other position keeps its record |
| `TaskList.ReplaceIdempotent` | src/hooks/useTasks.ts:28-30 | applying the same edit twice gives the same list as applying it once |
| `TaskList.ReplaceKeepsUnique` | src/hooks/useTasks.ts:27-30 | an edit whose returned record keeps the identifier preserves unique identifiers |
| `TaskList.RemoveAbsentIsIdentity` | src/hooks/useTasks.ts:37 | removing an identifier not in the list leaves the list unchanged |
| `TaskList.RemoveLeavesAbsent` | src/hooks/useTasks.ts:37 | after a removal no entry carries the removed identifier |
| `TaskList.RemoveIdempotent` | src/hooks/useTasks.ts:35-38 | a second removal of the same identifier changes nothing |
| `TaskList.RemoveIsSubsequence` | src/hooks/useTasks.ts:37 | the remaining entries are an order-preserving subsequence of the old list |
| `TaskList.RemoveCounts` | src/hooks/useTasks.ts:37 | each entry with a different identifier stays as many times as it occurred; each matching entry is dropped |
| `TaskList.SubsequenceKeepsUnique` | src/hooks/useTasks.ts:37 | an order-preserving sub-list of a list with unique identifiers has unique identifiers and only entries of that list |
| `TaskList.RemoveKeepsUnique` | src/hooks/useTasks.ts:37 | removal preserves unique identifiers |
| `TaskList.AppendKeepsUnique` | src/hooks/useTasks.ts:22-23 | appending a record whose identifier is new preserves unique identifiers |
| `TaskCard.BadgeClass` | src/components/Tasks/TaskCard.tsx:39-43 | the badge lookup is defined for every status and yields one of the table's classes |
| `TaskCard.StatusClassesCoverExactlyStatuses` | src/components/Tasks/TaskCard.tsx:39-43 | the class table has an entry for each status name (todo, in-progress, done) and for no other key |
| `TaskCard.BadgeClassInjective` | src/components/Tasks/TaskCard.tsx:39-43 | distinct statuses get distinct badge classes |
| `TaskCard.CanBreakDown` | src/components/Tasks/TaskCard.tsx:45 | break-down is possible iff a handler is supplied, the status is not done, and the sub-task list is absent or empty |
| `TaskCard.BreakDownDisabled` | src/components/Tasks/TaskCard.tsx:87 | the item is enabled iff there is a handler, the status is not done, there are no sub-tasks, and no break-down is running; it is always disabled for a done card or one with sub-tasks |
| `TaskCard.BreakDownLabel` | src/components/Tasks/TaskCard.tsx:89-100 | the label is "Generating..." while breaking down; otherwise "Break Down (Disabled)" for done; otherwise "Break Down (Done)" with sub-tasks; otherwise "Break Down" |
| `TaskCard.Menu` | src/components/Tasks/TaskCard.tsx:80-102 | the menu is exactly Edit and Delete, followed by one Break Down entry when a handler is supplied; that entry carries the computed label and disabled flag |
| `TaskCard.BreakDownShownIffHandler` | src/components/Tasks/TaskCard.tsx:84-102 | a Break Down entry is in the menu iff an `onBreakdown` handler is supplied |
| `TaskCard.EnabledIffPlainLabel` | src/components/Tasks/TaskCard.tsx:84-100 | when the item is shown, it is enabled exactly when its label is "Break Down" |
| `TaskCard.DoneCardNeverBreaksDown` | src/components/Tasks/TaskCard.tsx:87-100 | a done card's item is always disabled, and reads "Break Down (Disabled)" unless a break-down is running |
| `TaskCard.Decimal` | src/components/Tasks/TaskCard.tsx:133 | the rendered count is a non-empty string of decimal digits with no leading zero |
| `TaskCard.DecimalRoundTrip` | src/components/Tasks/TaskCard.tsx:133 | the rendered digits read back as the count |
| `TaskCard.SubtaskHeaderReadsBack` | src/components/Tasks/TaskCard.tsx:133 | the header is the count followed by " Subtask", with an "s" appended exactly when the count exceeds one |
| `TaskCard.SubtaskSection` | src/components/Tasks/TaskCard.tsx:130-140 | the sub-task section is shown iff no break-down is running and the list is present and non-empty; it lists the sub-tasks in order under the header for their count |
| `TaskCard.IndicatorExcludesSubtasks` | src/components/Tasks/TaskCard.tsx:123-130 | the "breaking down" indicator and the sub-task list are never shown together; if either is shown, the break-down item is disabled |
| `TaskCard.ListedSubtasksLabel` | src/components/Tasks/TaskCard.tsx:94-133 | while sub-tasks are listed on a card that is not done, the item reads "Break Down (Done)" |

## Left out

- The remote task API (`getTasks`, `createTask`, `updateTask`, `deleteTask`) is not part of this model. Each call is an input `Reply`, either success with a value or failure. The payload of `addTask` and the partial updates of `editTask` are only sent to that API, so the methods do not take them.
- A rejected promise is modelled as a `false` result, or a `Failure` reply from `EditTask`. The thrown error itself is not modelled.
- React mechanics are not modelled: state-setter batching, re-rendering, and the on-mount effect that calls `fetchTasks` (src/hooks/useTasks.ts:17-19). Each operation is one atomic state transition.
- Interleaving of concurrent calls is not modelled: overlapping fetches, racing edits. Each method runs to completion before the next starts.
- The `Task` record type is declared in src/components/TaskList, which is not part of this model. Its fields here follow the card's props plus `_id`.
- Card rendering outside the decisions above is not modelled: the JSX layout, the title and description, drag-handle prop spreading, the dropdown widget, and the `Loader` spinner shown beside "Generating...".
- The due-date text is not modelled: `toLocaleDateString` depends on locale and platform.
- The description is injected as raw HTML. Nothing is sanitised, so there is nothing to state.
- An absent `isBreakingDown` prop is modelled as `false`, its JavaScript truthiness. An `onBreakdown` handler is modelled only as supplied or not.
- src/main.tsx (application bootstrap) has no logic to model.
