# Task board, CORS policy and user registry — a Dafny model

This project models the three pieces of logic of the task-management app
that carry real rules:

- **The Kanban board** (`frontend/src/components/TaskBoard.jsx`): the shared
  task list and how the fetch effect and the drag, add, delete and edit
  handlers change it only after the server confirms; the pure view that
  splits the list into the "To Do", "In Progress" and "Done" columns,
  searches it case-insensitively, sorts it by recency or title, counts it
  for the dashboard and picks the empty or no-results state; and the rule
  that turns a drop into an updated task.
- **The CORS origin policy** (`backend/server.js`): the allow-list parsed
  from `FRONTEND_BASE_URL` and the predicate applied to a request origin.
- **The user registry** (`backend/controllers/userController.js`): signup,
  login, logout and Google sign-in as operations on the user collection,
  with their status codes and the email-uniqueness invariant.

Files, one module each: `wrappers.dfy` (Option), `seqs.dfy` (filtering),
`strings.dfy` (trim, lower-casing, `includes`, `startsWith`, `split`, title
order), `tasks.dfy` (the task record, `isOverdue`, `priorityBadgeClass`),
`task_sort.dfy` (the two sort orders), `board.dfy` (columns, search,
projection, drag rule), `board_state.dfy` (the board's state as a class),
`cors.dfy`, `users.dfy` (the user collection as a class).

Server calls are not made: each handler takes the call's outcome as a
parameter (`Ok(data)` or `Fail(status, message)`) and returns the request it
sends. The current time, today's date, the new task's translated title and
description, bcrypt salts and the generated Google password are parameters
too.

Behaviour of the code worth knowing:

- A drop into the column the task came from still sends an update.
- The dragged task is looked up by index in the unfiltered, unsorted
  columns, not in the columns the user sees. See "## Findings".
- The "alphabetical" order has no tie-break by id. Ties keep the list order,
  because `Array.prototype.sort` is stable.
- Nothing discards a response that arrives after the board is unmounted.

## Model

| member | source | states |
|---|---|---|
| `Seqs.Filter` | frontend/src/components/TaskBoard.jsx:321 | `Array.prototype.filter`: an element is in the result iff it is in the input and passes; never more elements than the input |
| `Seqs.FilterCount` | frontend/src/components/TaskBoard.jsx:321 | each passing element is kept as often as it occurs, and a failing one not at all |
| `Seqs.FilterConcat` | frontend/src/components/TaskBoard.jsx:321 | filtering keeps relative order: the filter of a concatenation is the concatenation of the filters |
| `Strings.Trim` | backend/server.js:40 | `trim` leaves an infix of the input with blank characters only around it, non-blank at both ends, and empty exactly when the input is all blank |
| `Strings.TrimIdempotent` | backend/server.js:40 | trimming twice removes nothing more |
| `Strings.ToLower` | frontend/src/components/TaskBoard.jsx:450-454 | `toLowerCase` maps each character on its own and keeps the length |
| `Strings.ToLowerIdempotent` | frontend/src/components/TaskBoard.jsx:450-454 | lower-casing twice is lower-casing once |
| `Strings.IncludesToLower` | frontend/src/components/TaskBoard.jsx:450-454 | an occurrence survives lower-casing of both strings |
| `Strings.IncludesTransitive` | frontend/src/components/TaskBoard.jsx:453-454 | an occurrence of an occurrence is an occurrence |
| `Strings.Split` | backend/server.js:39 | `split(",")` gives at least one piece and no piece contains the separator |
| `Strings.JoinSplit` | backend/server.js:39 | joining the pieces with the separator gives the string back |
| `Strings.SplitJoin` | backend/server.js:39 | splitting pieces that were joined gives the pieces back when none contains the separator |
| `Strings.SplitAround` | backend/server.js:39 | splitting `a + "," + b` gives the pieces of `a` followed by those of `b` |
| `Tasks.IsOverdue` | frontend/src/components/TaskBoard.jsx:30-39 | a task is overdue iff it has a due date, is not "Done", and the due instant lies before today's local midnight |
| `Tasks.OverdueIgnoresTimeOfDay` | frontend/src/components/TaskBoard.jsx:34-38 | two instants of the same day give the same answer |
| `Tasks.PriorityBadgeClass` | frontend/src/components/TaskBoard.jsx:23-28 | the low badge iff the lower-cased priority is "low", the high badge iff it is "high", the medium badge otherwise (also for the empty priority) |
| `Tasks.BadgeIgnoresCase` | frontend/src/components/TaskBoard.jsx:23-28 | the badge does not depend on letter case |
| `TaskSort.RecencyKey` | frontend/src/components/TaskBoard.jsx:459-460 | the key is `createdAt`, else `updatedAt`, else `dueDate`, else 0 |
| `TaskSort.ModeOf` | frontend/src/components/TaskBoard.jsx:457-458 | only the exact value "alphabetical" selects the title order; every other value sorts by recency |
| `TaskSort.Before` | frontend/src/components/TaskBoard.jsx:457-461 | the comparator's strict part: a larger recency key first, or a title earlier in code-unit order; a task never comes before itself |
| `TaskSort.NotBeforeTransitive` | frontend/src/components/TaskBoard.jsx:457-462 | both comparators are strict weak orders, so the stable sort is well defined |
| `TaskSort.Sort` | frontend/src/components/TaskBoard.jsx:457-462 | the sorted list is a permutation of the searched list |
| `TaskSort.SortSorted` | frontend/src/components/TaskBoard.jsx:457-462 | no task of the result must come before an earlier one |
| `TaskSort.SortStable` | frontend/src/components/TaskBoard.jsx:457-462 | tasks the comparator ties keep their list order |
| `TaskSort.SortRecentOrder` | frontend/src/components/TaskBoard.jsx:459-461 | "recent" is non-increasing in the recency key |
| `TaskSort.SortAlphabeticalOrder` | frontend/src/components/TaskBoard.jsx:458 | "alphabetical" has titles in non-decreasing order |
| `Board.ColumnsOf` | frontend/src/components/TaskBoard.jsx:315-337 | each column holds exactly the tasks whose status equals its string |
| `Board.ColumnSizesBound` | frontend/src/components/TaskBoard.jsx:315-337 | the columns never hold more than the list, and hold all of it iff every status is one of the three |
| `Board.ColumnsPartition` | frontend/src/components/TaskBoard.jsx:315-337 | with valid statuses the three columns together are the list, each task as often as in the list |
| `Board.ColumnsConcat` | frontend/src/components/TaskBoard.jsx:321-333 | columns keep list order |
| `Board.MatchesSearch` | frontend/src/components/TaskBoard.jsx:452-454 | a task matches when its lower-cased title or description includes the term; the empty term matches every task |
| `Board.Searched` | frontend/src/components/TaskBoard.jsx:450-455 | a task is kept iff the lower-cased term occurs in its lower-cased title or description |
| `Board.EmptySearchKeepsAll` | frontend/src/components/TaskBoard.jsx:450-455 | the empty term keeps the whole list, in order |
| `Board.SearchIgnoresCase` | frontend/src/components/TaskBoard.jsx:450 | the search does not depend on the term's letter case |
| `Board.SearchNarrows` | frontend/src/components/TaskBoard.jsx:450-455 | a term that contains another matches a subset of what the shorter term matches |
| `Board.Visible` | frontend/src/components/TaskBoard.jsx:450-462 | the list shown is sorted in the chosen order and is a permutation of the searched tasks |
| `Board.RenderedColumns` | frontend/src/components/TaskBoard.jsx:464-471 | each rendered column holds exactly the tasks of the list with its status that match the search |
| `Board.RenderedColumnsShape` | frontend/src/components/TaskBoard.jsx:464-471 | each rendered column holds the searched tasks of its status, sorted in the chosen order |
| `Board.CountsOf` | frontend/src/components/TaskBoard.jsx:474-478 | the total is the list length; each status counter is the size of its column over the whole list; the overdue counter is the number of tasks `isOverdue` accepts |
| `Board.CountsConsistent` | frontend/src/components/TaskBoard.jsx:474-478 | to-do + in-progress + done = total iff every status is valid, and overdue <= total - done |
| `Board.OverdueCounted` | frontend/src/components/TaskBoard.jsx:478 | an unfinished task due before today's midnight is counted as often as the list holds it, and a "Done" task, a task without a due date or one due later is not counted |
| `Board.Project` | frontend/src/components/TaskBoard.jsx:438-482 | the empty state iff the list is empty, whatever the search; otherwise the rendered columns, the counters over the whole list, and no-results iff the term is not blank and nothing matches |
| `Board.CountsIgnoreSearchAndSort` | frontend/src/components/TaskBoard.jsx:473-478 | the counters do not depend on the search term or the sort |
| `Board.BlankTermEmptiesBoardSilently` | frontend/src/components/TaskBoard.jsx:450-482 | for every non-empty list, a blank term that matches nothing gives three empty columns and no no-results state |
| `Board.SpaceMatchesNothing` | frontend/src/components/TaskBoard.jsx:450-454 | example: the term " " is blank and matches nothing in a task titled "a" with an empty description |
| `Board.DropStatus` | frontend/src/components/TaskBoard.jsx:345-353 | "inProgress" gives "In Progress", "done" gives "Done", every other id gives "To Do" |
| `Board.DropStatusInverse` | frontend/src/components/TaskBoard.jsx:345-353 | column ids and statuses are inverse to each other |
| `Board.ColumnById` | frontend/src/components/TaskBoard.jsx:343 | the three ids name columns and no other id does; each id names the column of its status |
| `Board.PlanDragIn` | frontend/src/components/TaskBoard.jsx:339-353 | no destination does nothing; an unknown source id throws; an index outside the column is the missing-task error; an update is sent exactly when the index finds a task, and it is that task with the destination's status |
| `Board.PlanDrag` | frontend/src/components/TaskBoard.jsx:339-353 | no destination does nothing; a source id that names no column throws; an index outside the unfiltered column is the missing-task error; otherwise the update is the task at `source.index` of the unfiltered source column, a task of the list, with only its status changed |
| `Board.SameColumnDropStillSends` | frontend/src/components/TaskBoard.jsx:339-359 | a drop back into the same column still sends an update, equal to the task |
| `Board.DragLookupIgnoresRenderedOrder` | frontend/src/components/TaskBoard.jsx:343 | example: on two "To Do" tasks stored oldest first, with the default sort and no search, the task sent for index 0 is the older one while the card rendered there is the newer one |
| `Board.PlanDragRendered` | frontend/src/components/TaskBoard.jsx:464-471 | the corrected rule, split into the same four cases over the rendered columns: an update is sent exactly when the index finds a rendered card, and it is that card with the destination's status |
| `Board.RenderedDragMovesShownTask` | frontend/src/components/TaskBoard.jsx:464-471 | a drop with a destination on a card of a rendered column sends an update, and the update is the shown task, a searched task of the list, with only its status changed |
| `BoardState.Replaced` | frontend/src/components/TaskBoard.jsx:360 | the `updateTask` reducer: same length, every entry with the response's id becomes the response, every other entry stays where it was |
| `BoardState.ReplacedKeepsIds` | frontend/src/components/TaskBoard.jsx:360 | replacing a task from a response keeps every id in place |
| `BoardState.ReplacedPresence` | frontend/src/components/TaskBoard.jsx:413 | replacing an id the list lacks changes nothing; otherwise the response is in the list |
| `BoardState.Removed` | frontend/src/components/TaskBoard.jsx:396 | removal keeps exactly the tasks with another id |
| `BoardState.RemovedIdempotent` | frontend/src/components/TaskBoard.jsx:396 | removing twice is removing once |
| `BoardState.ConfirmedDropShowsInDestination` | frontend/src/components/TaskBoard.jsx:339-360 | once the server echoes a drop's update, the task is in the destination column |
| `BoardState.TaskBoard.constructor` | frontend/src/components/TaskBoard.jsx:284-293 | the board starts loading with no error over the stored list |
| `BoardState.TaskBoard.Screen` | frontend/src/components/TaskBoard.jsx:424-447 | spinner while loading, then a non-empty error, then the projection of the list for the current search and sort; the empty state iff the list is empty |
| `BoardState.TaskBoard.HandleFailure` | frontend/src/components/TaskBoard.jsx:361-368 | 401 logs out and goes to /login, any other failure records the message; the list is untouched |
| `BoardState.TaskBoard.FetchTasks` | frontend/src/components/TaskBoard.jsx:295-313 | success replaces the list and stops loading; failure keeps the list; 401 leaves loading on |
| `BoardState.TaskBoard.OnDragEnd` | frontend/src/components/TaskBoard.jsx:339-369 | sends the planned update, stores the server's version only on success, and records the TypeError when the index finds no task |
| `BoardState.TaskBoard.AddNewTask` | frontend/src/components/TaskBoard.jsx:371-391 | posts a "To Do", "Medium" task due today and appends the server's task only on success |
| `BoardState.TaskBoard.DeleteTask` | frontend/src/components/TaskBoard.jsx:393-405 | removes the id only after the server agrees |
| `BoardState.TaskBoard.HandleEditTask` | frontend/src/components/TaskBoard.jsx:407-422 | sends the whole edited task and stores the server's version only on success |
| `Cors.NonEmptyTrimmed` | backend/server.js:40-41 | an entry is listed iff it is non-empty and the trim of some piece |
| `Cors.NonEmptyTrimmedConcat` | backend/server.js:40-41 | trimming and dropping empties keeps order across concatenation |
| `Cors.AllowedOrigins` | backend/server.js:38-41 | every listed origin is non-empty with no blank at either end |
| `Cors.AllowedOriginsEntries` | backend/server.js:22-41 | an unset variable lists nothing; an origin is listed iff it is a trimmed non-empty comma-separated piece |
| `Cors.AppendingEntries` | backend/server.js:38-41 | adding entries after a comma keeps the old list in front |
| `Cors.CheckOrigin` | backend/server.js:45-58 | allowed iff no origin, a `http://localhost:` or `http://127.0.0.1:` prefix, or an exact listed entry; otherwise rejected with an error naming the origin |
| `Cors.MoreEntriesAllowMore` | backend/server.js:38-58 | adding entries never turns an allowed origin into a rejected one |
| `Cors.LocalRuleIsNarrow` | backend/server.js:49-53 | `https://localhost:…` and `http://localhost` without a port need to be listed |
| `Users.FindByEmail` | backend/controllers/userController.js:20 | finds the first user with that email, or reports that none has it |
| `Users.FindUnique` | backend/controllers/userController.js:58 | with unique emails, a user's email finds that user |
| `Users.AppendFresh` | backend/controllers/userController.js:20-36 | storing a user under a new email keeps emails unique and finds the new user |
| `Users.SignupThenLogin` | backend/controllers/userController.js:26-73 | the user a signup stores is found by login, and the signup password matches its hash |
| `Users.UserRegistry.Save` | backend/controllers/userController.js:29-36 | appends one document with a fresh id and keeps emails and ids unique |
| `Users.UserRegistry.Signup` | backend/controllers/userController.js:12-48 | 400 on a missing field before any lookup, 400 on a known email, else one new user with the hashed password and 201 without the password |
| `Users.UserRegistry.Login` | backend/controllers/userController.js:55-84 | 404 for an unknown email, 401 for a wrong password, else 200 with id, names and email; a token only on 200; the store is only read |
| `Users.UserRegistry.Logout` | backend/controllers/userController.js:91-99 | 200 and the cookie is cleared |
| `Users.UserRegistry.Google` | backend/controllers/userController.js:106-174 | a known email returns that user's document unchanged; a new one stores one user named `name` twice with the Google photo; no password in the reply |

## Findings

| source | as written | input that shows it | evidently intended | confidence | as-written member | corrected member |
|---|---|---|---|---|---|---|
| frontend/src/components/TaskBoard.jsx:343 | the dragged task is read from `columns[source.droppableId].tasks[source.index]`, the unsorted and unsearched column, while the index is the card's position in the rendered `filteredColumns` (lines 464-471, 566-593) | two "To Do" tasks, the older (createdAt 1) listed before the newer (createdAt 2), default "recent" sort, empty search: the newer card is rendered first, and dropping it on "Done" sends the older task with status "Done" | look the index up in the rendered column, so that the task moved is the task dragged | high; not executed | `Board.PlanDrag`, shown by `Board.DragLookupIgnoresRenderedOrder` | `Board.PlanDragRendered`, proved by `Board.RenderedDragMovesShownTask` |

`BoardState.TaskBoard.OnDragEnd` keeps the lookup as written, because it
models the handler.

## Left out

- Users.UserRegistry.Login: an absent password is modelled as the empty string and answered 401. In the source, `bcrypt.compare` throws on an undefined password, so the request fails through the error middleware instead of replying 401.
- HTTP (axios, Express routing, `listen`, `cookieParser`): each request is returned as a value and its outcome is a parameter.
- JWT signing and cookie options: a token is represented by the user id it carries. `generateToken` and the cookie flags are not modelled.
- bcrypt: a hash is the symbolic pair (salt, secret), and compare checks the secret. Salts and the `Math.random` password are parameters.
- The Redux task slice and auth slice are not part of this model. The reducers are taken as: set replaces the list, add appends, update overwrites every entry with the response's id, remove drops every entry with the id. Logout clears the client session.
- Strings.ToLower: only A–Z and the Latin-1 capitals are lower-cased; the Unicode case mapping of other scripts is not modelled.
- TaskSort.Before: `localeCompare` is modelled as code-unit order; locale collation is not modelled.
- Dates are integer millisecond timestamps already in local time. Parsing of date strings, time-zone offsets and invalid dates (NaN keys) are not modelled. The new task's due date is a parameter.
- The mongoose schema is not part of this model. The reply documents leave out timestamps and `__v`. Email uniqueness rests on the lookup before saving, as in the handlers. Ids come from a counter.
- The error middleware behind `asyncHandler` is not part of this model. An error reply is the status with the thrown message.
- The cors library's handling of a rejected origin is not modelled beyond the rejection and its message.
- Rendering: modals, `EmptyState`/`NoResultsState` markup, `formatDate`, the edit modal's form state, and the other components and pages.
- Concurrency: overlapping requests and responses after unmount; each handler is modelled as one request followed by its outcome.
