# Advanced Web Applications 2026: the course servers and state updates, in Dafny

This project models the server-side and state logic of four weeks of a web
applications course, and proves what the code promises about it:

- **Week 1, task list handler** (`week-1/src/main.ts`). A fixed list of two
  tasks is served on `GET /tasks`. Every other request is a 404 with the
  error "Not Found". Module `TaskListHandler`.
- **Week 2, todo REST service** (`week_2/src/router.ts`). The module state is
  the `todos` list and the `nextId` counter.
  - Module `TodoRouter` states every handler as a function from the state
    before to the state and response after. It covers the body validators,
    the path-id parser, the four handlers and the first-match dispatch.
  - The class `TodoService.TodoService` keeps the same state in fields and
    updates them in place, as the source does (`nextId++`, `todos.push`,
    `task.status = ...`, `todos.splice`). Each of its methods is proved to
    leave exactly the state and response that the function describes.
  - The invariant that every handler keeps: ids lie in `1 .. nextId - 1` and
    increase strictly along the list. So ids are unique, the list is in
    creation order, and an id is never handed out twice, even after deletes.
    This holds for exact integers. The source's ids are JavaScript numbers,
    so it holds there only while the counter stays below 2^53.
- **Week 3, habit tracker state** (`week_3/src/App.tsx`). It covers the pure
  list updates `toggleHabit` and `addHabit`, the completed count and the
  rounded percentage. Module `Habits`. New habit ids are unique for exact
  integers; in the source, `Math.max(...) + 1` stops growing at 2^53.
- **Week 4, joke dashboard API** (`week_4/joke-dashboard-api/src/router.ts`
  and `src/store/saved-jokes-store.ts`).
  - The save-body validator, the CORS/JSON envelope and the three handlers.
  - The route table: `OPTIONS` first, then three exact routes, then a 404.
  - The saved-jokes store as a class whose `savedJokes` the save handler
    appends to.
  - `getSortedJokes` copies the list into a fresh array and sorts the copy in
    place, by stable insertion. It is proved equal to a functional
    specification `SortDesc`.
  - Separate lemmas prove four things about `SortDesc`. It is a permutation.
    It is in descending code-point order of `fetchedAt`. It keeps jokes
    with equal `fetchedAt` in saved order. It is the only order with those
    three properties.
  - Descending string order is newest first only when every `fetchedAt` is
    an ISO-8601 timestamp of one uniform form, such as the
    `toISOString()` text the joke service writes. A client may save any
    string that `Date.parse` accepts, for example `"March 5, 2024"`, and
    such strings sort by their text, not by their time.
  - Modules `JokeStore` and `JokeRouter`.

Shared modules:

- `Strings`: JavaScript's `trim` with its exact white-space set,
  `startsWith`, the last `/`-segment, and decimal digit strings.
- `Json`: the parsed request body and member lookup.
- `TaskTypes`: the task record used by weeks 1 and 2.
- `Wrappers`: `Option`.

The browser client of week 4 and the server disagree in two places. Lemmas
in `JokeRouter` state both mismatches:

- The client's `saveJoke` posts only `text` and `category`. The server
  requires `id` and `fetchedAt` as well, so every save the dashboard makes
  is answered with 400 (`ClientSaveRejected`). The full JSON of a joke, by
  contrast, is accepted back as the same joke (`SaveBodyRoundTrip`).
- The client reads `payload.error.message`. Every error the server sends is
  a plain string under `error`, so the client's message is always
  `undefined` (`ClientLosesErrorMessage`). A payload with no `error` at all
  would make that read throw a `TypeError`; `ClientErrorMessage` models
  both outcomes.

## Model

| member | source | states |
|---|---|---|
| TaskListHandler.Handler | week-1/src/main.ts:13-31 | success exactly for `GET` on `/tasks`: then 200 and the seeded list; otherwise 404 and "Not Found"; exactly one of data and error is set |
| TaskListHandler.SeedIdsDistinct | week-1/src/main.ts:7-10 | the two seeded tasks have distinct ids |
| TaskListHandler.TrailingSlashNotFound | week-1/src/main.ts:16 | `/tasks/` (trailing slash) is not the task list: 404 for every method |
| TaskTypes.ParseStatus | week_2/src/router.ts:73 | accepts exactly the three status literals, and the status it returns is written as the input |
| TaskTypes.StatusRoundTrip | week_2/src/router.ts:73 | writing a status and reading it back gives that status |
| Json.StringField | week_2/src/router.ts:51-53 | a member is returned exactly when the body is an object and that member is a string |
| Strings.Trim | week_2/src/router.ts:53-58 | `trim()` is empty exactly when the string is all white space; otherwise it starts and ends with a non-white character |
| Strings.TrimCutsBlankMargins | week_2/src/router.ts:57-58 | `trim()` only removes white space: the input is the result with all-white margins on both sides |
| Strings.TrimOfTrimmed | week_2/src/router.ts:57-58 | trimming text that is already trimmed changes nothing |
| Strings.LastSegment | week_2/src/router.ts:64-65 | `split("/").at(-1)` is the slash-free suffix that follows the last slash, or the whole path |
| Strings.LastSegmentAfterSlash | week_2/src/router.ts:64-65 | the last segment of `prefix + "/" + seg` is `seg` when `seg` has no slash |
| Strings.StartsWith | week_2/src/router.ts:172-180 | `startsWith(prefix)` holds exactly when the string is `prefix` followed by some rest |
| Strings.DecimalValue | week_2/src/router.ts:66-67 | `Number` of a digit string: 0 exactly when every digit is `0`, and below 10 to the power of the length |
| Strings.DecimalRoundTrip | week_2/src/router.ts:66-67 | `Number` of the decimal text of `n` is `n` |
| TodoRouter.Ok | week_2/src/router.ts:29-31 | the given status, and a body with `ok: true` and `data` holding the payload |
| TodoRouter.BadRequest | week_2/src/router.ts:21-23 | status 400, and a body with `ok: false` whose `error.message` is the message |
| TodoRouter.NotFound | week_2/src/router.ts:25-27 | status 404, and a body with `ok: false` whose `error.message` is the message |
| TodoRouter.NoContent | week_2/src/router.ts:159 | status 204 and no body |
| TodoRouter.IdGuard | week_2/src/router.ts:153 | the `!id` guard (also at line 138) lets an id through exactly when the last segment is digits with at least one non-zero digit, so 0 and the empty segment are refused |
| TodoRouter.UnparsedBodyRejected | week_2/src/router.ts:117-142 | a body that fails to parse reaches the validators as `null` and is a 400 that changes nothing, for create and for update with a usable id |
| TodoRouter.ValidateCreateTask | week_2/src/router.ts:48-61 | accepted exactly when both fields are non-blank strings; the command holds both trimmed |
| TodoRouter.ValidateUpdateStatus | week_2/src/router.ts:70-75 | accepted exactly when `status` is one of the three literals; the result is that status |
| TodoRouter.ParseTaskId | week_2/src/router.ts:63-68 | an id exactly when the last path segment is decimal digits; its value is the segment's number (the empty segment is 0) |
| TodoRouter.TaskPathRoundTrip | week_2/src/static/index.js:88 | the path the client builds for task `id` parses back to `id` and is routed as a task path |
| TodoRouter.IndexOf | week_2/src/router.ts:155 | the first position holding the id, or -1 exactly when no task has it |
| TodoService.FindIndex | week_2/src/router.ts:155 | the search loop returns the same index as `IndexOf` |
| TodoRouter.GetTasks | week_2/src/router.ts:113-115 | 200 with the whole list in order |
| TodoRouter.CreateTask | week_2/src/router.ts:117-134 | an invalid body is 400 and changes nothing; a valid one appends an open task with the trimmed text and the counter's id, bumps the counter, and answers 201 with the task |
| TodoRouter.CreateKeepsInvariant | week_2/src/router.ts:125-132 | a create keeps the invariant, and the new id is above every existing id |
| TodoRouter.UpdateTask | week_2/src/router.ts:136-149 | bad id is 400, then bad body is 400, then an unknown id is 404, all changing nothing; otherwise only the found task's status changes and it is answered with 200 |
| TodoRouter.UpdateKeepsInvariant | week_2/src/router.ts:147 | an update keeps the invariant |
| TodoRouter.DeleteTask | week_2/src/router.ts:151-160 | bad id is 400 and unknown id is 404, both changing nothing; otherwise the task is cut out with the others in order, and 204 with no body; the counter never goes back |
| TodoRouter.DeleteKeepsInvariant | week_2/src/router.ts:155-158 | a delete keeps the invariant, and afterwards no task carries the deleted id |
| TodoRouter.RemoveAtKeepsInvariant | week_2/src/router.ts:158 | `splice(index, 1)` keeps the invariant and removes the only task with that id |
| TodoRouter.Route | week_2/src/router.ts:163-185 | each route of the if-chain, characterised by its own method and path test |
| TodoRouter.ApiRoute | week_2/src/router.ts:163-185 | the handler the route names, 404 for any other `/api/` path, and no answer exactly for non-API paths |
| TodoRouter.Router | week_2/src/router.ts:163-197 | the static fallback is taken exactly for non-API paths and leaves the state alone; an API path gets exactly the state and response `ApiRoute` gives |
| TodoRouter.RouterKeepsInvariant | week_2/src/router.ts:192-197 | every request keeps the invariant and never winds the counter back |
| TodoRouter.RunKeepsInvariant | week_2/src/router.ts:6-7 | any sequence of requests keeps the invariant |
| TodoRouter.IdsNeverReused | week_2/src/router.ts:126 | after any run of requests, a new task's id is above every id that existed before the run |
| TodoRouter.DeleteSize | week_2/src/router.ts:158 | a delete shrinks the list by one exactly when it answers 204 |
| TodoRouter.RouterSizeChange | week_2/src/router.ts:163-185 | one request grows the list by one on a 201, shrinks it by one on a 204, and keeps its length otherwise |
| TodoRouter.RunSize | week_2/src/router.ts:6-7 | after a run, the list length is the start length plus the 201s minus the 204s |
| TodoService.TodoService.constructor | week_2/src/router.ts:6-7 | an empty list with the counter at 1, satisfying the invariant |
| TodoService.TodoService.HandleGetTasks | week_2/src/router.ts:113-115 | the response `GetTasks` gives for the current state |
| TodoService.TodoService.HandleCreateTask | week_2/src/router.ts:117-134 | the in-place create leaves the state and response `CreateTask` describes, and keeps the invariant |
| TodoService.TodoService.HandleUpdateTask | week_2/src/router.ts:136-149 | the in-place update leaves the state and response `UpdateTask` describes, and keeps the invariant |
| TodoService.TodoService.HandleDeleteTask | week_2/src/router.ts:151-160 | the in-place delete leaves the state and response `DeleteTask` describes, and keeps the invariant |
| TodoService.TodoService.HandleApiRoute | week_2/src/router.ts:163-185 | the state and answer `ApiRoute` describes; no answer and no change for non-API paths |
| TodoService.TodoService.Router | week_2/src/router.ts:192-197 | the state and reply `TodoRouter.Router` describes, and the invariant is kept |
| TodoService.Walkthrough | week_2/src/router.ts:117-160 | from a fresh service: create gives task 1 with 201, marking it done gives 200, deleting it gives 204, and the list is then empty |
| TodoService.WalkCreate | week_2/src/router.ts:117-134 | the first valid create on the initial state yields task 1 and moves the counter to 2 |
| TodoService.WalkUpdate | week_2/src/router.ts:136-149 | updating task 1 by its client path changes only its status |
| TodoService.WalkDelete | week_2/src/router.ts:151-160 | deleting the only task by its client path empties the list and keeps the counter |
| TodoService.DoneBodyValid | week_2/src/router.ts:70-75 | `{ status: "done" }` is a valid update body |
| Habits.ToggleHabit | week_3/src/App.tsx:37-41 | same length, ids and names; exactly the habits with the id have `completed` flipped |
| Habits.ToggleTwice | week_3/src/App.tsx:37-41 | toggling the same id twice restores the list |
| Habits.ToggleAbsent | week_3/src/App.tsx:37-41 | toggling an id no habit has changes nothing |
| Habits.MaxId | week_3/src/App.tsx:50 | at least 0, at least every id, and either 0 or an id in the list |
| Habits.AddHabit | week_3/src/App.tsx:43-59 | blank input changes nothing; otherwise one habit is appended with the untrimmed text, not completed, with an id of at least 1 above every id in use |
| Habits.AddHabitIdIsLeast | week_3/src/App.tsx:50 | the new id is the least positive id above all ids in use |
| Habits.AddKeepsUniqueIds | week_3/src/App.tsx:49-57 | adding keeps ids unique |
| Habits.ToggleKeepsUniqueIds | week_3/src/App.tsx:37-41 | toggling keeps ids unique |
| Habits.SessionKeepsUniqueIds | week_3/src/App.tsx:11-59 | any sequence of toggles and adds from unique ids keeps ids unique |
| Habits.SeedIdsUnique | week_3/src/App.tsx:11-15 | the seeded habits have unique ids |
| Habits.CompletedCount | week_3/src/App.tsx:69 | at most the list length; 0 exactly when none is completed; the length exactly when all are |
| Habits.CompletedCountIsFilterLength | week_3/src/App.tsx:69 | the count is the number of positions holding a completed habit |
| Habits.ToggleCount | week_3/src/App.tsx:69 | with unique ids, toggling a habit moves the count by one: down if it was completed, up if not |
| Habits.Percentage | week_3/src/App.tsx:70 | between 0 and 100; 0 for an empty list or none completed; 100 when all are completed; the nearest integer to `100 * completed / length`, halves rounded up |
| Habits.RoundBounds | week_3/src/App.tsx:70 | the rounding quotient's bounds behind `Percentage` |
| JokeStore.SavedJokesStore.constructor | week_4/joke-dashboard-api/src/store/saved-jokes-store.ts:8 | the store starts empty |
| JokeStore.SavedJokesStore.AddJoke | week_4/joke-dashboard-api/src/store/saved-jokes-store.ts:10-12 | appends the joke, without validation or duplicate check |
| JokeStore.SavedJokesStore.GetSortedJokes | week_4/joke-dashboard-api/src/store/saved-jokes-store.ts:14-16 | returns `SortDesc` of the saved jokes and changes nothing |
| JokeStore.CopyOf | week_4/joke-dashboard-api/src/store/saved-jokes-store.ts:15 | `[...savedJokes]` is a fresh array with the same elements |
| JokeStore.SortInPlace | week_4/joke-dashboard-api/src/store/saved-jokes-store.ts:15 | the in-place sort leaves the array equal to `SortDesc` of its old contents |
| JokeStore.InsertLast | week_4/joke-dashboard-api/src/store/saved-jokes-store.ts:15 | one insertion step turns the prefix into `InsertDesc` of it and the next joke, and touches nothing after it |
| JokeStore.ShiftOlder | week_4/joke-dashboard-api/src/store/saved-jokes-store.ts:15 | shifts exactly the trailing run of strictly older jokes one place right and returns the hole |
| JokeStore.InsertAt | week_4/joke-dashboard-api/src/store/saved-jokes-store.ts:15 | `InsertDesc` puts the joke right after the last one that is not older than it |
| JokeStore.InsertDesc | week_4/joke-dashboard-api/src/store/saved-jokes-store.ts:15 | one insertion step of the sort yields exactly one more joke; `InsertDescPermutes`, `InsertAt` and `InsertDescSorted` state its contents and place |
| JokeStore.InsertDescPermutes | week_4/joke-dashboard-api/src/store/saved-jokes-store.ts:15 | the insertion adds exactly the new joke to the multiset of jokes |
| JokeStore.SortDesc | week_4/joke-dashboard-api/src/store/saved-jokes-store.ts:15 | the sort keeps the number of jokes; the lemmas below state its order and contents |
| JokeStore.LexLessMeaning | week_4/joke-dashboard-api/src/store/saved-jokes-store.ts:15 | the comparison `LexLess` holds exactly when the first string is a proper prefix of the second or is smaller at the first place they differ |
| JokeStore.SortDescPermutes | week_4/joke-dashboard-api/src/store/saved-jokes-store.ts:15 | the sort returns exactly the saved jokes, each as often as saved |
| JokeStore.SortDescSorted | week_4/joke-dashboard-api/src/store/saved-jokes-store.ts:15 | the result is in descending code-point order of `fetchedAt`, which is newest first for uniform ISO-8601 timestamps |
| JokeStore.SortDescStable | week_4/joke-dashboard-api/src/store/saved-jokes-store.ts:15 | jokes with the same `fetchedAt` keep their saved order |
| JokeStore.SortDescUnique | week_4/joke-dashboard-api/src/store/saved-jokes-store.ts:15 | any newest-first, order-keeping permutation of the saved jokes is the sort's result |
| JokeStore.LexIrreflexive | week_4/joke-dashboard-api/src/store/saved-jokes-store.ts:15 | the comparison is irreflexive |
| JokeStore.LexTransitive | week_4/joke-dashboard-api/src/store/saved-jokes-store.ts:15 | the comparison is transitive |
| JokeStore.LexAsymmetric | week_4/joke-dashboard-api/src/store/saved-jokes-store.ts:15 | the comparison is asymmetric |
| JokeStore.LexTotal | week_4/joke-dashboard-api/src/store/saved-jokes-store.ts:15 | distinct strings are comparable |
| JokeRouter.CorsHeaders | week_4/joke-dashboard-api/src/router.ts:12-18 | exactly the three CORS headers: any origin, the methods `GET, POST, OPTIONS`, and a `Content-Type` request header |
| JokeRouter.JsonResponse | week_4/joke-dashboard-api/src/router.ts:20-28 | the given status and body; the headers are exactly the JSON content type and the CORS headers, neither overriding the other |
| JokeRouter.HasCors | week_4/joke-dashboard-api/src/router.ts:12-28 | a response with the CORS headers lets any origin read it |
| JokeRouter.UnparsedSaveBodyRejected | week_4/joke-dashboard-api/src/router.ts:84-89 | a body that `readJson` (lines 30-36) fails to parse reaches the validator as `null` and is rejected |
| JokeRouter.ParseSaveBody | week_4/joke-dashboard-api/src/router.ts:40-64 | accepted exactly when all four members are non-blank strings and the trimmed time parses; the joke holds the four trimmed strings |
| JokeRouter.SaveBodyRoundTrip | week_4/joke-dashboard-api/src/router.ts:40-64 | the JSON of a joke with trimmed strings and a parsable time is accepted as that joke |
| JokeRouter.HandleJokeFetching | week_4/joke-dashboard-api/src/router.ts:68-75 | 200 exactly when the fetch succeeded, with the joke; otherwise 500 with the thrown message or "Unknown error occurred"; JSON and CORS headers |
| JokeRouter.HandleSavedJokesFetching | week_4/joke-dashboard-api/src/router.ts:77-80 | 200 with the saved jokes newest first |
| JokeRouter.HandleJokeSaving | week_4/joke-dashboard-api/src/router.ts:82-101 | an invalid body is 400 and the store is unchanged; a valid one is appended once and echoed with 201 |
| JokeRouter.RouteOf | week_4/joke-dashboard-api/src/router.ts:103-127 | `OPTIONS` on any path is the preflight; each route by its exact method and path; 404 otherwise |
| JokeRouter.Router | week_4/joke-dashboard-api/src/router.ts:103-127 | every answer has the CORS headers; only a save changes the store; the exact answer of each route |
| JokeRouter.ClientSaveRejected | week_4/joke-dashboard-client/src/api.ts:34-39 | the client's save body is always rejected by `ParseSaveBody` |
| JokeRouter.ClientErrorMessage | week_4/joke-dashboard-client/src/api.ts:44 | the read throws exactly when `error` is missing or `null`; otherwise its value is the `message` member of `error` (the same read is at lines 15 and 26) |
| JokeRouter.ClientLosesErrorMessage | week_4/joke-dashboard-client/src/api.ts:44 | for every server error, `error` is the string itself and `error.message` is missing |

## Left out

- Sockets, `Deno.serve`, logging and `new URL(...)` are left out. A request is given as its method, its path and its parsed body.
- JSON parsing and `JSON.stringify` are left out. `Json.ReadJson` takes the parse result; a failed parse is None.
- Static file serving in week 2 (`serveStatic`, `contentType`) is left out. `TodoRouter.Router` answers `StaticFile` for every non-API path.
- The `content-type` header of the week-2 responses and week 1's `jsonResponse` wrapper are left out. Week 1's HTTP status is its `statusCode`.
- TodoRouter.ParseTaskId: models `Number` only for decimal digit strings, with the empty string as 0. Every other segment is read as NaN (a 400). In the source, signs, white space, hex, exponents and fractions parse as numbers: `/api/tasks/-3` answers 404 there and 400 here.
- The object aliasing of `todos.find` in the update handler is not modelled. The found task is mutated in place, which for a list of values is the same as replacing it at its index.
- TodoService.TodoService.HandleCreateTask: ids are exact integers here. In the source `nextId` is a JavaScript number, so `nextId++` stops changing at 2^53, and ids would repeat from there on.
- TodoRouter.ParseTaskId: `Number` of a digit string longer than about 15 digits rounds to the nearest double in the source. Here it is the exact value, so two long paths that the source reads as one id are two ids here.
- Habits.AddHabit: ids are exact integers here. In the source they are JavaScript numbers, and once the largest id reaches 2^53, `Math.max(...) + 1` gives 2^53 again. So "the new id is above every id in use" and the unique ids (`AddKeepsUniqueIds`, `SessionKeepsUniqueIds`) hold in the source only while ids stay below 2^53.
- Week 3 rendering, events and `setNewHabit('')` are left out; only the list updates and the derived numbers are modelled.
- Habits.Percentage: computes the rounding exactly in rationals. The source computes in floating point, which can differ at exact halves when `c / n * 100` is not exact.
- The external joke service (`fetchJokeFromExternalApi`) is an input: the `FetchResult` it settled to.
- `Date.parse` is an input, the predicate `dateParses`. The date format it accepts is not modelled.
- JokeStore.LexLess: `localeCompare` is modelled as code-point order. Locale collation (case, accents) is not modelled. The order is on the `fetchedAt` text, so it is time order only for timestamps of one uniform ISO-8601 form.
- The 500 branch of `handleJokeSaving` is not modelled. Nothing inside its `try` can throw once the body is read, since `readJson` catches parse failures.
- The week-4 client UI (React components, timers) is left out. Only the request body of `saveJoke` and its reading of `error.message` are modelled.
