# To-do store, task API and greedy route, in Dafny

This project models three small sequential programs of one repository:

- **app.py**: a Flask to-do list API. A list of `{id, task, created_at}`
  records lives in `todos.json`. `GET /api/todos` returns the list.
  `POST /api/todos` validates the `task` field, gives the new record the id
  `max(ids, default=0) + 1` and appends it. `DELETE /api/todos/<id>` pops
  the first record with that id, or answers 404.
- **main.py**: the same store and handlers for `{id, title, description,
  completed, created_at}` records in `tasks.json`. Every reply is wrapped
  in a `{success, ...}` envelope, and GET adds a `count`. A request that is
  not JSON is refused with 400. A file that does not parse reads as an
  empty list.
- **tcp.c**: a greedy walk over a 9×9 table of road distances between
  northern Moroccan cities. `ft_init_dest` fills the table with -1 and then
  writes 17 distances above the diagonal. `get_next_city` takes the nearest
  city reachable from the current one, looking at a road in either
  direction, and erases that road. `ft_calcul_total_dest` repeats this from
  a start city until no road is left at the current city and adds up the
  distances.

Modules:

- `Common` (common.dfy): parsed JSON values, the state of a backing file,
  Python's `str.strip()` and `str()` of a non-negative integer.
- `IdList` (ids.dfy): the id discipline both APIs share (max + 1,
  first-match lookup, `list.pop`).
- `TodoApi` (todo_api.dfy): app.py.
- `TaskApi` (task_api.dfy): main.py.
- `Route` (route.dfy): tcp.c.

How the two APIs are modelled:

- Each backing file is a class (`TodoStore`, `TaskStore`) whose field is
  one of three values: missing, a parsed list of records, or corrupt text.
  `load_*` and `save_*` are methods on it.
- Each handler is a method that takes the store and returns a status plus
  a payload.
- The request body arrives already parsed: an optional map from field
  names to JSON values.
- The creation timestamp is a parameter.
- An exception the handler catches and turns into a 500 reply is the
  payload `ServerError`.

How the route is modelled:

- The C table is an `array2<int>` that the methods update in place.
- Each method is proved against functions on the value of the table
  (`Snapshot`): `InitialMatrix`, `NextCity` with `Erase`, and `Walk`.
- `ft_init_dest` is split into its fill loops and its writes, and the
  writes are grouped city by city as the source's "from X to:" comments
  group them (`WriteFromTetouan` … `WriteFromFes`).

## Model

| member | source | states |
|---|---|---|
| Common.IsSpace | app.py:270 | the characters for which Python's `str.isspace()` holds: the controls U+0009 to U+000D and U+001C to U+001F, space, U+0085, U+00A0, U+1680, U+2000 to U+200A, U+2028, U+2029, U+202F, U+205F and U+3000 |
| Common.Strip | app.py:270-276 | `str.strip()` with no argument: the leading and then the trailing whitespace removed; `StripSlice` pins the result down |
| Common.TrimStart | app.py:270 | the leading whitespace is removed: what is cut off is all whitespace, and the rest does not start with whitespace |
| Common.TrimEnd | app.py:270 | the trailing whitespace is removed: what is cut off is all whitespace, and the rest does not end with whitespace |
| Common.StripEmptyIff | app.py:270 | a field strips to the empty string exactly when it is all whitespace (the "cannot be empty" test) |
| Common.StripSlice | main.py:71-72 | the stripped text is a slice of the input with only whitespace cut from either end, and it neither starts nor ends with whitespace |
| Common.StripIdempotent | app.py:276 | stripping a stored value again changes nothing |
| Common.Decimal | main.py:107 | the decimal text of an id: at least one digit, digits only, and no leading zero unless the id is 0 |
| Common.DecimalRoundTrip | main.py:107 | the decimal text of an id reads back as that id |
| Common.DecimalInjective | main.py:107 | two ids have the same decimal text only if they are equal |
| Common.AfterLoad | main.py:13-23 | a load turns a missing file into one holding `[]` and leaves any other file as it is |
| IdList.MaxId | app.py:275 | `max(ids, default=0)`: 0 for no ids, otherwise an element of the list that is at least every id |
| IdList.NextId | main.py:70 | the new id is 1 on an empty list, above every existing id, and one more than an existing id otherwise |
| IdList.FirstIndex | app.py:298-302 | the index of the first matching id: it matches, no earlier id does, and there is none exactly when the id is absent |
| IdList.FirstMatch | main.py:98-102 | the linear scan with `break` returns exactly `FirstIndex` |
| IdList.Ids | app.py:275 | the ids of the records, one per record, in list order |
| IdList.IdsAppend | app.py:281 | appending a record appends its id to the ids |
| IdList.IdsRemoveAt | app.py:309 | the ids after a pop are the old ids with the same position removed |
| IdList.RemoveAt | app.py:309 | `pop(i)`: one element fewer, the earlier ones in place, the later ones shifted down by one, and the removed element is the only multiset difference |
| IdList.IncreasingIsDistinct | app.py:275 | ids that rise strictly in list order are unique |
| IdList.AppendNextIdIncreasing | app.py:275-281 | appending the max + 1 id keeps strictly rising ids rising, and that id was unused |
| IdList.RemoveAtIncreasing | app.py:309 | popping any record keeps strictly rising ids rising |
| IdList.DeletedMaxIsReissued | app.py:275 | deleting the record just created brings back the old list, and the next create hands out the same id again |
| IdList.ReissueExample | main.py:70 | with ids 1, 2 and 3, deleting 3 makes the next id 3 again |
| TodoApi.TodoStore.Save | app.py:21-24 | the whole list replaces the file |
| TodoApi.TodoStore.Load | app.py:11-19 | a missing file becomes `[]` and loads as `[]`; a parsed file loads as its list and is not changed; a corrupt file raises |
| TodoApi.SaveThenLoad | app.py:11-24 | saving a list and loading it back gives the same list |
| TodoApi.TaskField | app.py:270-271 | 400 exactly when the body is missing or empty, `task` is absent or `task` is all whitespace; a crash exactly when `task` is not a string; otherwise the accepted task is non-empty and stripped |
| TodoApi.GetAllTodos | app.py:251-258 | 200 with the whole stored list in stored order, and the file is unchanged apart from the creation of a missing one; 500 on a corrupt file |
| TodoApi.CreateTodo | app.py:260-289 | 400 or 500 with the list unchanged, or 201 with the record `(max + 1, stripped task, now)` that is appended at the end and saved |
| TodoApi.DeleteTodo | app.py:291-317 | 404 `Task not found` with the list unchanged, or 200 with the first record with that id, which is popped and the rest saved in order |
| TodoApi.CreateKeepsIdsIncreasing | app.py:274-281 | the new id is above every stored id, and strictly rising ids stay strictly rising after a create |
| TodoApi.DeleteKeepsIdsIncreasing | app.py:298-312 | strictly rising ids stay strictly rising and unique after a delete, and the deleted id is gone |
| TaskApi.Stored | main.py:13-23 | what a load returns: the parsed list, or `[]` for a missing or corrupt file |
| TaskApi.TaskStore.Save | main.py:25-28 | the whole list replaces the file |
| TaskApi.TaskStore.Load | main.py:11-23 | a missing file becomes `[]` and loads as `[]`; a corrupt file loads as `[]` and is not rewritten; a parsed file loads as its list |
| TaskApi.SaveThenLoad | main.py:11-28 | saving a list and loading it back gives the same list |
| TaskApi.TaskFields | main.py:62-73 | 400 exactly when `title` is absent or all whitespace; a crash exactly when `title` is not a string, or the title is valid and a present `description` is not a string; otherwise a non-empty stripped title, the stripped description or `''`, and `completed` or `False` |
| TaskApi.PlainTitle | main.py:62-73 | a body with only a title that has no whitespace at either end is accepted with that title, `''` and `False` |
| TaskApi.GetAllTasks | main.py:30-44 | 200 with `success` true, the stored list in order and its length as `count` |
| TaskApi.CreateTask | main.py:46-89 | 400 `Request must be in JSON format` for a non-JSON request and 400 for a bad title, both with the list unchanged; 500 for a null body or a crash; otherwise 201 with the new task appended at the end and saved; `success` is true exactly on the 201 reply |
| TaskApi.DeleteTask | main.py:91-123 | 404 naming the id with the list unchanged, or 200 with the first task with that id, which is popped and the rest saved in order; `success` is true exactly on the 200 reply |
| TaskApi.EnvelopeOk | main.py:35-123 | the `success` flag agrees with the status: true on 200 and 201, false on 400, 404 and 500 |
| TaskApi.NotFoundMessage | main.py:107 | `Task with ID <id> not found`, the id in decimal |
| TaskApi.DeletedMessage | main.py:115 | `Task "<title>" deleted successfully` |
| TaskApi.NotFoundNamesId | main.py:104-108 | the 404 message names the id: two messages are equal exactly when the ids are |
| TaskApi.DeletedMessageEmbedsTitle | main.py:115 | the delete confirmation holds the removed task's title verbatim at a fixed place |
| TaskApi.CreateKeepsIdsIncreasing | main.py:69-78 | the new id is above every stored id, and strictly rising ids stay strictly rising after a create |
| TaskApi.DeleteRemovesOnlyFirstMatch | main.py:98-111 | the removed task is the first with that id; apart from it the multiset of tasks is unchanged; strictly rising ids stay rising |
| TaskApi.PlainBody | main.py:62-73 | a body whose title has no whitespace at either end, and whose description is empty or has none at either end, is accepted with both unchanged and its `completed` value |
| TaskApi.FirstCreateGetsIdOne | main.py:62-75 | on an empty store, `{"title": "Buy groceries", "description": "Milk, bread, eggs, and fruits", "completed": false}` is accepted unchanged and gets id 1 |
| Route.Blank | tcp.c:10-17 | the fill loops set every cell to -1, on the diagonal and off it |
| Route.SetCell | tcp.c:19 | a cell assignment changes that cell alone and moves the road count by the change of that one cell |
| Route.Put | tcp.c:19 | one C assignment: the table afterwards is the old one with that cell set |
| Route.FillBlank | tcp.c:10-17 | after the fill loops the array holds -1 in every cell |
| Route.WriteFromTetouan | tcp.c:18-22 | the array afterwards is the old table with the roads from Tétouan written |
| Route.WriteFromTanger | tcp.c:24-25 | the array afterwards is the old table with the road from Tanger written |
| Route.WriteFromChefchaouen | tcp.c:27-29 | the array afterwards is the old table with the roads from Chefchaouen written |
| Route.WriteFromLarache | tcp.c:31-34 | the array afterwards is the old table with the roads from Larache written |
| Route.WriteFromOuazzane | tcp.c:36-38 | the array afterwards is the old table with the roads from Ouazzane written |
| Route.WriteFromKenitra | tcp.c:40-43 | the array afterwards is the old table with the roads from Kenitra written |
| Route.WriteFromRabat | tcp.c:45-46 | the array afterwards is the old table with the road from Rabat written |
| Route.WriteFromFes | tcp.c:48-49 | the array afterwards is the old table with the road from FES written |
| Route.WriteAllRoads | tcp.c:18-49 | the 17 writes, city by city in source order, turn the table into `WriteRoads` of it |
| Route.InitDest | tcp.c:8-53 | the table afterwards is `InitialMatrix()`: all -1, then the 17 writes in source order |
| Route.InitialTable | tcp.c:10-49 | that table is exactly the literal distance table: the 17 listed cells hold their distances and every other cell is -1 |
| Route.InitialRoads | tcp.c:10-49 | that table has no road on or below the diagonal, holds only -1 or positive entries, never a road both ways, and has exactly 17 roads |
| Route.FirstRoads | tcp.c:18-34 | the writes from Tétouan to Larache on a table without roads add 10 roads above the diagonal and leave the later rows blank |
| Route.LastRoads | tcp.c:36-49 | the writes from Ouazzane to FES, on a table whose rows from Ouazzane on are blank, add 7 roads above the diagonal |
| Route.WriteRoadsOnEmpty | tcp.c:18-49 | the 17 writes on any table without roads give 17 roads, all above the diagonal |
| Route.FirstRowsTable | tcp.c:18-34 | the writes from Tétouan to Larache on a table without roads fill rows 0 to 3 with their distances and leave the later rows blank |
| Route.LastRowsTable | tcp.c:36-49 | the writes from Ouazzane to FES fill rows 4 to 7 with their distances, leave rows 0 to 3 alone and row 8 blank |
| Route.WriteRoadsTable | tcp.c:18-49 | the 17 writes on any table without roads give the distance table |
| Route.RoadsFromTetouan | tcp.c:18-22 | the writes from Tétouan add four roads above the diagonal and leave the later rows blank |
| Route.RoadsFromTanger | tcp.c:24-25 | the writes from Tanger add one road above the diagonal and leave the later rows blank |
| Route.RoadsFromChefchaouen | tcp.c:27-29 | the writes from Chefchaouen add two roads above the diagonal and leave the later rows blank |
| Route.RoadsFromLarache | tcp.c:31-34 | the writes from Larache add three roads above the diagonal and leave the later rows blank |
| Route.RoadsFromOuazzane | tcp.c:36-38 | the writes from Ouazzane add two roads above the diagonal and leave the later rows blank |
| Route.RoadsFromKenitra | tcp.c:40-43 | the writes from Kenitra add three roads above the diagonal and leave the later rows blank |
| Route.RoadsFromRabat | tcp.c:45-46 | the writes from Rabat add one road above the diagonal and leave the later rows blank |
| Route.RoadsFromFes | tcp.c:48-49 | the writes from FES add one road above the diagonal and leave the later rows blank |
| Route.RowFromTetouan | tcp.c:18-22 | the writes from Tétouan fill row 0 with its distances and leave every other row alone |
| Route.RowFromTanger | tcp.c:24-25 | the writes from Tanger fill row 1 with its distances and leave every other row alone |
| Route.RowFromChefchaouen | tcp.c:27-29 | the writes from Chefchaouen fill row 2 with its distances and leave every other row alone |
| Route.RowFromLarache | tcp.c:31-34 | the writes from Larache fill row 3 with its distances and leave every other row alone |
| Route.RowFromOuazzane | tcp.c:36-38 | the writes from Ouazzane fill row 4 with its distances and leave every other row alone |
| Route.RowFromKenitra | tcp.c:40-43 | the writes from Kenitra fill row 5 with its distances and leave every other row alone |
| Route.RowFromRabat | tcp.c:45-46 | the writes from Rabat fill row 6 with its distances and leave every other row alone |
| Route.RowFromFes | tcp.c:48-49 | the writes from FES fill row 7 with its distances and leave every other row alone |
| Route.AddRoad | tcp.c:19 | writing a positive distance above the diagonal into a cell holding -1 keeps every road above the diagonal and adds exactly one road |
| Route.BlankHasNoRoads | tcp.c:10-17 | after the fill loops no row holds a road |
| Route.Scan | tcp.c:57-66 | the selection loop after the first k cities: a city is taken while `last_dest <= 0`, or when its road in either direction is positive and shorter than `last_dest`, which then becomes `-dest[c][i] * dest[i][c]` |
| Route.NextCity | tcp.c:55-67 | the city `get_next_city` returns and the value it stores in `*new_dest`: the selection loop over all N cities, always a city in range |
| Route.Erase | tcp.c:68-69 | the two writes: both directions of the chosen road set to -1, and the result is still a 9×9 table |
| Route.ScanInRange | tcp.c:57-66 | the selection loop never leaves `best_city` at -1: city 0 is always taken first |
| Route.ScanIsolated | tcp.c:59-67 | with no road touching the city, the loop returns city N-1 and reports -1 |
| Route.ScanNearest | tcp.c:59-66 | on a road table, the loop returns the lowest-numbered city at the shortest distance over a road in either direction and reports that distance, or N-1 and -1 if there is no road |
| Route.NextCityNearest | tcp.c:55-67 | `get_next_city` returns a city in range and its road length; -1 exactly when no road touches the city; otherwise a positive distance, no longer than any road from it and shorter than any to a lower-numbered city |
| Route.EraseOnlyRoad | tcp.c:68-69 | the two writes set both directions of the road to -1 and change no other cell |
| Route.StepErasesOneRoad | tcp.c:64-69 | a step keeps the table a road table; a step reporting a distance removes exactly one road; a step reporting -1 changes nothing |
| Route.GetNextCity | tcp.c:55-71 | the loop returns `NextCity` of the table on entry, and the table afterwards is that table with the chosen road erased |
| Route.Walk | tcp.c:83-92 | the loop as a recursion: look up and erase; on -1 stop without recording that lookup, otherwise record the city and distance and go on from that city; the table left is a road table |
| Route.TotalDistance | tcp.c:89 | the sum of the distances of the steps, the value `total_dest` accumulates |
| Route.WalkUnfold | tcp.c:83-92 | one turn of the loop: -1 ends the walk on an unchanged table; otherwise the step is the walk's first, over one road fewer |
| Route.WalkStep | tcp.c:83-92 | one turn moves the loop's state along the walk: the step reported is appended and its distance added to the total, or the walk is over |
| Route.TotalDistanceAppend | tcp.c:89 | adding a step adds its distance to the total |
| Route.Turn | tcp.c:83-92 | one turn of the loop on the array is one lookup: the city and distance are `NextCity` of the table on entry, the table afterwards is that table with the road erased, the total grows by the distance unless it is -1, the step is appended to the walk done so far, and the road count drops unless the walk is over |
| Route.CalculTotalDest | tcp.c:74-94 | `total_dest` is the sum of the distances of the walk's steps, leaving out the final -1 step, and the table is left with the walk's roads erased |
| Route.WalkAccounting | tcp.c:83-92 | steps taken plus roads left equal the roads there were, so the walk takes at most as many steps as there are roads |
| Route.WalkStepsPositive | tcp.c:86-89 | every step adds a positive distance to a city in range |
| Route.WalkEndsStuck | tcp.c:83-92 | the walk stops at a city with no road left touching it |
| Route.WalkFromInitialTable | tcp.c:102-103 | from any start city, the walk on the initial table takes at most 17 steps |

## Left out

- Flask itself is not modelled: routing, `jsonify`, `request.is_json` and
  `request.get_json` parsing, and the `@app.errorhandler` replies of
  main.py:125-139. A request is an already-parsed optional map.
  `TaskApi.Request` adds the `is_json` flag.
- Request bodies that parse to something other than an object or `null`
  (an array, a string, a number) are not modelled. Nor are JSON numbers
  that are not integers.
- File I/O and the `json` module are not modelled. A backing file is one
  of three values: missing, a parsed list, or corrupt text. Failures
  while writing a file are not modelled.
- `datetime.now().isoformat()` is not modelled. The timestamp is the
  parameter `now`.
- The text of an exception caught by a handler is not modelled. Every
  such 500 reply is `ServerError`.
- The HTML page (app.py:26-249) is presentation only and is left out.
  So are the startup code (app.py:319-320, main.py:141-144) and the
  smoke script test_api.py.
- Two requests racing on the same file are not modelled. Each handler
  runs alone.
- Records read from a file are taken as well-formed. A stored id that is
  not an integer is not modelled: ids are `int`.
- In tcp.c, `printf`, the `cite` name table and `main`'s argument
  handling with `atoi` are not modelled. Route.CalculTotalDest requires
  the start city to be in range, because the source never checks it.
- Route.CalculTotalDest, Route.Walk: the walk requires a road table.
  Every entry must be -1 or positive, and no road may be stored in both
  directions. That is the only kind of table the program builds. The
  lemmas about the walk and about what one lookup finds
  (`NextCityNearest`, `StepErasesOneRoad`, `WalkUnfold` and the others)
  require it too. `GetNextCity`, `NextCity` and `Scan` model the lookup,
  product of the two entries included, on every table.
- C `int` overflow is not modelled. The 17 distances of the initial
  table add up to 2645, far inside the range of `int`.

## Notes on the source

- The comment at tcp.c:51 says a distance is the same both ways. The code
  stores each road in one direction only, and `get_next_city` reads both
  directions. The model follows the code.
- When no road touches the current city, `get_next_city` returns city N-1,
  never -1. The test `best_city != -1` in `ft_calcul_total_dest` is always
  true, and the loop ends on `new_dest == -1`.
- Ids are reissued. The id of a deleted record can be handed out again;
  in particular, deleting the record just created makes the next create
  reissue its id (`IdList.DeletedMaxIsReissued`). A new record's id is
  above every id currently stored, not above every id ever issued.
- app.py does not guard against a corrupt file: the load raises and every
  handler answers 500. main.py reads such a file as an empty list and does
  not rewrite it until the next successful create. A delete on such a file
  finds no task, answers 404 and saves nothing.
