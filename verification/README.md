# User list, collection client and user API — a Dafny model

This project models the core of a small user-management application, which has three parts:

- **The list screen** (`src/components/UserList.js`). It keeps the users fetched from the API, derives a filtered view with a case-insensitive search, and drives the edit and delete-confirmation dialogs. It also shows notifications and expands long names on request.
- **The collection client** (`src/services/userService.js`). It builds the URL of each API call and classifies each response as a format error, an API error with a message, or a success.
- **The server** (`backend/app.py`). Its `usuarios` table is modelled as a map from id to record, together with the `id` sequence. The model covers the paginated listing ordered by id, get-by-id, create, partial update, delete and count.

Everything is modelled as immutable datatypes and pure functions:

- A handler of the screen maps the current state to the next state.
- An asynchronous handler also takes the settled outcome of each call it awaits, as an `Outcome` (resolved value or rejection message).
- A server route maps the table and the request to the new table and the reply.
- The network is a parameter of the client: a total function from the request sent to what came back.

Modules:

- `Common` holds `Option`, `Outcome`, the `Record` shape and the filter `Field`.
- `Text` holds ASCII lower-casing, `includes`, and the decimal rendering of an integer with its inverse.
- `FilterEngine` models `aplicarFiltro`.
- `UserList` models the screen's state, its handlers, an `Event`/`Run` closure over all handlers, and the invariants they keep.
- `UserService` models the client.
- `Backend` models the routes.

## Model

| member | source | states |
|---|---|---|
| `Text.Contains` | src/components/UserList.js:30 | `includes` is true exactly when the needle occurs at some index of the string |
| `Text.Lower` | src/components/UserList.js:29-30 | lower-casing keeps the length, leaves no ASCII capital, and changes only capitals, each to its lower-case letter |
| `Text.IntToString` | src/components/UserList.js:29 | `String(n)` of an integer is non-empty, starts with `-` exactly for negatives, is digits otherwise, and has no leading zero |
| `Text.IntToStringRoundTrip` | src/components/UserList.js:29 | parsing the rendering of any integer gives the integer back |
| `Text.IntToStringInjective` | src/services/userService.js:35 | two different ids never render to the same text |
| `FilterEngine.Apply` | src/components/UserList.js:22-34 | with an empty term the visible list is the record list itself, in order; otherwise a record is visible iff the lower-cased text of the selected field contains the lower-cased term; never longer than the records |
| `FilterEngine.Keep` | src/components/UserList.js:28-31 | the `filter` call keeps exactly the matching records |
| `FilterEngine.Reject` | src/components/UserList.js:28-31 | the records the filter drops are exactly the non-matching ones |
| `FilterEngine.KeepRejectPartition` | src/components/UserList.js:28-31 | kept and dropped records together are the records, with multiplicity |
| `FilterEngine.KeepIsSubsequence` | src/components/UserList.js:28-31 | the kept records are an order-preserving subsequence of the records |
| `FilterEngine.ApplyIsSubsequence` | src/components/UserList.js:22-33 | the visible list is always an order-preserving subsequence of the records |
| `FilterEngine.KeepAllMatching` | src/components/UserList.js:28-31 | a list whose every record matches passes the filter unchanged |
| `FilterEngine.ApplyIdempotent` | src/components/UserList.js:28-33 | filtering the filtered list again with the same field and term changes nothing |
| `FilterEngine.AgeScenario` | src/components/UserList.js:28-31 | with users aged 30 and 25, field `edad` and term "30", only the first stays visible |
| `UserList.AplicarFiltro` | src/components/UserList.js:41-43 | the filter effect re-derives the visible list from records, field and term, and touches nothing else; on an already filtered state it is a no-op |
| `UserList.HandleFiltroChange` | src/components/UserList.js:161-163 | selecting a field changes only the field |
| `UserList.HandleBusquedaChange` | src/components/UserList.js:165-167 | typing a term changes only the term |
| `UserList.FetchUsuarios` | src/components/UserList.js:45-57 | an array result replaces records and visible list wholesale; a non-array result or a rejection sets `error` with its message and keeps the records; the dialogs and display state are untouched |
| `UserList.FetchTotalUsuarios` | src/components/UserList.js:59-66 | a resolved count replaces the total; a rejection sets `error` and keeps the total |
| `UserList.Reload` | src/components/UserList.js:72-73 | the two awaited fetches each catch their own failure: records, visible list and total follow whichever succeeded; a count rejection leaves its message in `error`, otherwise a list failure leaves its own, and `error` stays clear only if it was clear and both succeeded |
| `UserList.ShowNotification` | src/components/UserList.js:125-128 | the new notification replaces any shown one; nothing else changes |
| `UserList.HandleConfirmDelete` | src/components/UserList.js:83-86 | opens the confirmation dialog on the given user and does not touch the edit dialog |
| `UserList.HandleEdit` | src/components/UserList.js:88-92 | opens the edit dialog on the given user, not in adding mode, and does not touch the confirmation dialog |
| `UserList.HandleAddUser` | src/components/UserList.js:99-103 | opens the edit dialog with no target in adding mode, and does not touch the confirmation dialog |
| `UserList.HandleCloseModal` | src/components/UserList.js:105-109 | closes the edit dialog and clears its target and mode; nothing else changes |
| `UserList.HandleCloseConfirmDelete` | src/components/UserList.js:94-97 | closes the confirmation dialog and clears its target; nothing else changes |
| `UserList.ClosingIsIdempotent` | src/components/UserList.js:94-109 | closing either dialog twice is the same as closing it once |
| `UserList.HandleDelete` | src/components/UserList.js:68-81 | with no target it is a no-op; a failed delete sets `error` and leaves the dialog open on its target; a successful one takes records, visible list, total and `error` from the reload, closes and clears the dialog, and shows the success text with type `'error'` |
| `UserList.HandleUserAdded` | src/components/UserList.js:111-116 | takes records, visible list, total and `error` from the reload, closes the edit dialog and shows the added text with type `'success'`; the confirmation dialog, expansion flags, field and term are untouched |
| `UserList.HandleUserEdited` | src/components/UserList.js:118-123 | takes records, visible list, total and `error` from the reload, closes the edit dialog and shows the modified text with type `'info'`; the confirmation dialog, expansion flags, field and term are untouched |
| `UserList.ToggleNameExpansion` | src/components/UserList.js:130-135 | flips the given id's flag, a missing flag counting as false; every other id keeps its entry; nothing else changes |
| `UserList.TruncateName` | src/components/UserList.js:137-158 | an expanded or short name is shown whole; a collapsed name over 10 characters shows its first 10 plus "..."; the first 10 characters are always shown as they are |
| `UserList.ToggleTwiceRestoresDisplay` | src/components/UserList.js:130-158 | toggling an id twice restores every id's expansion and every name's display |
| `UserList.BothDialogsCanBeOpen` | src/components/UserList.js:83-103 | the handlers do not keep the dialogs exclusive: edit or add after confirm-delete, or the reverse, leaves both open |
| `UserList.InitialIsValid` | src/components/UserList.js:8-20 | the mount state satisfies the screen invariant |
| `UserList.StepPreservesValid` | src/components/UserList.js:45-135 | every handler and every fetch outcome keeps the invariant: the visible list is a subsequence of the records, the confirmation dialog is open iff it has a target, and a closed edit dialog has neither target nor adding mode, while an open one is adding iff it has no target |
| `UserList.RunPreservesValid` | src/components/UserList.js:45-135 | the invariant holds after any sequence of events |
| `UserList.StepKeepsError` | src/components/UserList.js:45-81 | no handler clears a set `error` |
| `UserList.ErrorIsPermanent` | src/components/UserList.js:169 | once `error` is set it stays set after any sequence of events, so only the error is rendered from then on |
| `UserList.FilterChangeThenEffect` | src/components/UserList.js:36-43 | a field or term change followed by the effect leaves the visible list derived from the records |
| `UserList.FetchWithoutSearchIsFiltered` | src/components/UserList.js:45-50 | with an empty term a successful fetch is already consistent with the filter |
| `UserList.MountWithFailedList` | src/components/UserList.js:36-57 | if the list fetch rejects on mount, `error` is set, no record is held and no dialog is open, whatever the count fetch did |
| `UserList.DeleteScenario` | src/components/UserList.js:68-81 | confirming the delete of one of two users and reloading leaves one user, total 1, dialog closed with no target, and one notification |
| `UserService.ErrorText` | src/services/userService.js:12 | the error text is the body's `error` when present and non-empty, the generic text otherwise, and never empty |
| `UserService.HandleResponse` | src/services/userService.js:5-15 | a missing or non-JSON content type is a format error whatever the status; a JSON non-2xx response fails with the body's error text; success exactly for JSON 2xx, returning the body unchanged |
| `UserService.FormatCheckPrecedesStatus` | src/services/userService.js:6-9 | any two non-JSON responses are classified alike, whatever their statuses and bodies |
| `UserService.JsonWithCharsetIsJson` | src/services/userService.js:7 | `application/json; charset=utf-8` passes the content-type test |
| `UserService.CollectionUrl` | src/services/userService.js:20 | the collection URL is the base followed by `/api/usuarios` |
| `UserService.ItemUrl` | src/services/userService.js:35 | a per-id URL is the collection URL, a slash, and the decimal id |
| `UserService.TotalUrl` | src/services/userService.js:93 | the count URL is the collection URL followed by `/total` |
| `UserService.ListUrl` | src/services/userService.js:18-23 | the list URL is exactly the collection URL unless both `filtro` and `busqueda` are truthy; then the collection URL is followed by `?filtro=`, the encoded field, `&busqueda=` and the encoded term |
| `UserService.ItemUrlsAreDistinct` | src/services/userService.js:35 | different ids give different URLs, and no id's URL is the count URL |
| `UserService.OperationRequests` | src/services/userService.js:17-103 | each operation's verb and URL: GET list, GET/PUT/DELETE `/api/usuarios/<id>`, POST list, GET `/api/usuarios/total` |
| `UserService.Send` | src/services/userService.js:24-29 | a transport rejection reaches the caller unchanged; a delivered response is classified by `handleResponse`; a value is returned only for a JSON 2xx response |
| `Backend.SortedIds` | backend/app.py:53 | `ORDER BY id ASC`: each id of the table once, strictly increasing |
| `Backend.Ordered` | backend/app.py:53 | the id-ordered records are as many as the table holds, all of them stored records |
| `Backend.OrderedById` | backend/app.py:53 | in a valid table the ordered records carry strictly increasing ids |
| `Backend.OrderedHasEveryRecord` | backend/app.py:53 | every stored record appears in the id order |
| `Backend.Slice` | backend/app.py:53 | `LIMIT`/`OFFSET`: at most `limit` records, taken consecutively from the offset |
| `Backend.ObtenerUsuarios` | backend/app.py:42-66 | page defaults to 1 and page size to 10; the reply is the slice of the id-ordered records at `(page-1)*per_page`; a limit or offset that is negative or outside PostgreSQL's `bigint` range ends in a 500; the table is unchanged |
| `Backend.NextOffset` | backend/app.py:50 | page `p + 1` starts `per_page` records after page `p` |
| `Backend.OffsetNonNegative` | backend/app.py:50 | pages from 1 on with a non-negative size never have a negative offset |
| `Backend.ListingIsSlice` | backend/app.py:46-53 | an explicit page and size whose limit and offset are within `bigint` range select the slice at that page's offset |
| `Backend.SlicesAdjoin` | backend/app.py:50-53 | consecutive pages of the same size adjoin with nothing skipped or repeated |
| `Backend.DefaultListingIsFirstTen` | backend/app.py:46-47 | a request without paging arguments receives the first ten records by id, or all when there are fewer |
| `Backend.ObtenerUsuarioPorId` | backend/app.py:70-80 | a stored id gives 200 with its record; an absent one gives 404 "Usuario no encontrado"; the table is unchanged |
| `Backend.CrearUsuario` | backend/app.py:83-108 | 400 "Faltan datos" with no change iff `correo`, `nombre` or `edad` is missing or falsy (`''`, `0`); otherwise a string with a non-space character past its column's length (255 for `correo`, 100 for `nombre`) or an age outside the 32-bit `edad` column is a 500 with no change; otherwise 201 with the record, its strings cut to their columns, stored under the next sequence id and read back into the reply; that id is fresh, there is one more row, and every other row is unchanged |
| `Backend.Merge` | backend/app.py:119-125 | each field present in the body overwrites the stored one; absent fields and the id are kept |
| `Backend.ActualizarUsuario` | backend/app.py:111-133 | an absent id gives 404 with no change; a present member its column does not accept (a non-space character past the length, or an age outside 32 bits) gives 500 with no change; otherwise the row gets only the members present in the body, strings cut to their columns, with 200, and every other row is unchanged |
| `Backend.EliminarUsuario` | backend/app.py:135-151 | an absent id gives 404 with no change; a present one removes exactly that row and leaves every other row unchanged |
| `Backend.ObtenerTotalUsuarios` | backend/app.py:154-157 | the total is the number of stored records, and the table is unchanged |
| `Backend.HugePageFails` | backend/app.py:45-66 | page 10^23 (an offset past `bigint`), page -1, and a page size of 2^63 each end in a 500 |
| `Backend.TrailingSpacesAreCut` | backend/app.py:95-103 | a 256-character `correo` whose last character is a space is stored and returned cut to 255 characters with a 201; with any other last character the create is a 500 |
| `Backend.OutOfRangeAgeFails` | backend/app.py:95-131 | an age of 3000000000, outside the 32-bit `edad` column, makes both create and update answer 500 and leave the table as it was |
| `Backend.TotalIndependentOfPageSize` | backend/app.py:153-157 | the count agrees with the listing: a first page at least as large as the table, and within `bigint` range, is the whole id-ordered table and holds exactly the total, and the default listing holds the smaller of ten and the total |
| `Backend.CreateThenGet` | backend/app.py:95-103 | a created record reads back under the id in the reply |
| `Backend.DeleteThenGet` | backend/app.py:140-146 | after a delete, reading or deleting the same id is a 404 |
| `Backend.EmptyUpdateChangesNothing` | backend/app.py:119-127 | an update whose body has none of the three members leaves the table as it was |
| `Backend.CreateThenDeleteRestoresRows` | backend/app.py:95-146 | creating a record and deleting it restores the rows; only the sequence has advanced |

Notes on behaviour that is modelled as the code is written:

- The delete-success notification carries the type `'error'` although its text reports success (`src/components/UserList.js:76`). The model keeps that type.
- `fetchUsuarios` and `fetchTotalUsuarios` catch their own failures. After a successful delete, add or edit, a failed refetch therefore sets `error`, but the dialog is still closed and the notification still shown.
- `handleEdit` and `handleAddUser` do not close the confirmation dialog, and `handleConfirmDelete` does not close the edit dialog (`src/components/UserList.js:83-103`). `UserList.BothDialogsCanBeOpen` shows both open at once. The invariant `UserList.Valid` states what the handlers do keep, for each dialog on its own.
- `fetchUsuarios` sets the visible list to the fetched array directly. The `aplicarFiltro` effect then re-derives it from the current term; that effect is the `FilterEffect` event. With a non-empty term, the state between the fetch and the effect is not yet filtered.
- Create rejects a falsy `edad` (`0`), but update accepts any value that is present.

## Left out

- JSX rendering and the `Modal`, `AddUser` and `Notification` components are not modelled. Only the state they read is kept. `AddUser` is not part of this model; its `agregarUsuario`/`actualizarUsuario` calls appear only as the requests they send.
- The 3000 ms auto-clear of a notification is timer concurrency and is not modelled. Timers are never cancelled (`src/components/UserList.js:127`), so no single-pending-timer property holds.
- The mount fetches run concurrently. They are modelled as two independent events that can arrive in either order, not as interleaved partial updates.
- `fetch`, request headers and bodies, `response.json()` parse failures and `console.error` are I/O. The base URL is a parameter, and a response is its status, content type and already-parsed body.
- `encodeURIComponent` is an abstract encoder parameter. `toLowerCase` is ASCII lower-casing; Unicode case mapping is not modelled.
- `Text.IntToString`: JavaScript prints numbers of 1e21 or more in exponent notation; the model always prints plain decimal digits. Numbers are unbounded integers, and non-integer ages are not modelled.
- `String(null)` is not modelled, because every column is non-nullable.
- `UserList.TruncateName`: lengths and the 10-character cut count characters (Unicode scalar values), while `name.length` and `substring` count UTF-16 code units. For names with characters outside the Basic Multilingual Plane the model may show a name whole that the screen would cut, and it never splits a surrogate pair as `substring` can.
- SQLAlchemy sessions, rollbacks and the 500 replies of the `except` branches are database plumbing and are left out. So are failures of `request.get_json()` and a wrongly typed JSON member. A commit that fails because a column does not accept a value is modelled, as a 500 with the table unchanged, and so is PostgreSQL cutting an over-long string whose excess is all spaces. The body of that 500 is not modelled.
- `Backend.ActualizarUsuario`: a member sent as `null` counts as present in the source (`'edad' in data`). Writing NULL into a NOT NULL column then fails with a 500. The model has no `null` member, so it reads such a body as leaving the field out.
- `Backend.ObtenerUsuarios`: the 500 for a negative `LIMIT` or `OFFSET`, or one of 2^63 or more, comes from PostgreSQL rejecting such values as `bigint`. The route has no handler for it. The reply body of that 500 is not modelled, and a non-numeric `page` or `per_page` is modelled as absent, which is what `type=int` does.
- `Backend.CrearUsuario`: the sequence is modelled as advancing only on a successful insert. PostgreSQL also consumes a value when an insert fails, and that path is not modelled. The `id` column is 32-bit too; running out of sequence values is not modelled.
- `obtener_usuarios_filtrados` (`backend/app.py:160-177`) registers the same `GET /api/usuarios` rule as `obtener_usuarios`. The earlier handler shadows it, so it is never reached.
- Flask routing is not modelled. The `<int:id>` converter matches only unsigned digit strings, so the per-id handlers are only ever called with ids of 0 or more; a negative id in the URL gets Flask's own 404 page, which is not JSON. The handler functions accept any integer.
- The database credentials, connection pool settings and the `print` of the listing are left out.
