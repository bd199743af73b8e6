# Todo data layer: a verified Dafny model

This project models the data layer of a Go TODO API.
- **Record validation** (`ValidateList`). This is a fixed sequence of `v.Check` calls on a `Todo`.
- **Filter validation** (`ValidateFilters`). This is a fixed sequence of `v.Check` calls on the paging and sort parameters.
- **The store** (`TodoModel`). It provides `Insert`, `Get`, `Update`, `Delete` and the filtered, sorted and paged listing `GetAll`.
- **The earlier draft** of the same package (`internal/data/entries.go`). It has its own `ValidateList` and stub store methods.

The PostgreSQL table is modelled as a `map<int, Row>` plus the next value of its id sequence. Each SQL statement is one atomic step on that map. `Update` is a single compare-and-swap on the version column.

Modules, one per file:
- `records.dfy` (`Records`): the `Todo` struct, as a class whose fields the store writes back into. It also holds the eight caller fields (`Fields`), the stored `Row`, and the error kinds `NotFound`, `EditConflict` and `Other(cause)`.
  - The record's string fields and the search terms are byte sequences, so length bounds count bytes. Validator keys and messages, and the sort parameters, are Dafny strings; they are only compared.
  - A Go `[]string` keeps the difference between nil and empty.
- `validation.dfy` (`Validation`): the validator.
  - A check is a `Rule`.
  - `Apply` is the effect of a sequence of checks on the error map.
  - The first message recorded for a key is kept.
- `filters.dfy` (`Filters`): `Filters`, `Metadata`, `ValidateFilters`, and a corrected version of `ValidateFilters` (see Findings).
- `todos.dfy` (`Todos`): `ValidateList`, the statements on the table, the listing query's specification, and the class `TodoModel`.
- `entries.dfy` (`Entries`): the draft `ValidateList` and the four stubs.

Inputs the code gets from outside are explicit parameters:
- the clock (`now`);
- faults the database may report (`fault`);
- the format checks `Matches(s, PhoneRX)`, `Matches(s, EmailRX)` and `ValidWebsite(s)`, bundled as `Formats`;
- the full-text match `textMatch(field, term)`;
- the `Filters` helpers `sortColumn`/`sortOrder`, `limit`, `offset` and `calculateMetadata`, bundled as `Helpers`. `sortRank` stands for the ordering that `sortColumn` and `sortOrder` select together.

## Model

| member | source | states |
|---|---|---|
| `Records.Todo.constructor` | cmd/api/todo.go:35-47 | A new record carries the caller's fields, ID 0, the zero time and version 0. |
| `Records.Todo.FromRow` | internal/data/todos.go:103-115 | A record scanned from a row equals that row in every field, `Mode` order included. |
| `Validation.Validator.constructor` | cmd/api/todo.go:50 | A new validator has no errors. |
| `Validation.Validator.Valid` | cmd/api/todo.go:53 | The validator is valid exactly when no error has been recorded under any key. |
| `Validation.Validator.AddError` | internal/data/todos.go:32-56 | The key ends up with an error. If it already had one, that message is kept; otherwise the new message is recorded. No other key changes. |
| `Validation.Validator.Check` | internal/data/todos.go:32 | A false condition records the message under its key unless that key already has an error; a true one changes nothing. |
| `Validation.ApplyKeys` | internal/data/todos.go:32-56 | After a sequence of checks, the keys with errors are the old keys plus the keys of the failing checks. Errors already recorded are kept unchanged. |
| `Validation.ApplyFirstMessage` | internal/data/todos.go:32-56 | A key that had no error gets the message of its first failing check. |
| `Validation.ApplyNoFailures` | internal/data/todos.go:32-56 | When no check fails, the error map is unchanged. |
| `Validation.ApplyConcat` | internal/data/todos.go:32-56 | Running one list of checks and then another equals running their concatenation. |
| `Validation.ApplyAgreesOffKey` | internal/data/entries.go:26-53 | Two check lists can differ only in messages under one key. Then they record the same keys, and the same messages under every other key. |
| `Todos.ValidateList` | internal/data/todos.go:30-57 | The validator's new errors are the old ones plus the result of the eighteen checks, in source order. The checks read only the eight caller fields, never ID, CreatedAt or Version. |
| `Todos.ListFailedKeys` | internal/data/todos.go:32-56 | The set of keys with an error is the union, over the eight fields, of each field's key when that field's conditions fail. |
| `Todos.ListFailures` | internal/data/todos.go:32-56 | Each key gets an error exactly when its own field fails. Name, Level and Contact must be 1–200 bytes. Address must be 1–500 bytes. Phone, Email and Website must be non-empty and well formed. Mode must be non-nil with 1–5 distinct elements. |
| `Todos.ValidateNew` | cmd/api/todo.go:50-53 | Validating a record on a fresh validator leaves it valid exactly when the record satisfies the field-by-field validity predicate. |
| `Todos.ListAccepted` | internal/data/todos.go:30-57 | Errors are recorded only under the eight field keys. No error is recorded exactly when the record satisfies the field-by-field validity predicate. |
| `Todos.ModeFailures` | internal/data/todos.go:53-56 | The four mode checks fail, under `mode` only, exactly when Mode is nil, empty, has more than 5 elements, or has duplicates. |
| `Todos.UpdateRow` | internal/data/todos.go:134-141 | The conditional UPDATE finds a row exactly when the id exists with the given version. Then it replaces the fields, sets the version to old+1 and returns it. It keeps the id, the creation time, the key set and every other row. |
| `Todos.DeleteRow` | internal/data/todos.go:180-183 | DELETE removes exactly that id. It affects 1 row if the id was present, else 0. Every other row is kept. |
| `Todos.RacingUpdatesOneWins` | internal/data/todos.go:139-141 | After one update succeeds with version v, a second update presenting v finds no row, and one presenting v+1 succeeds. |
| `Todos.SecondDeleteAffectsNothing` | internal/data/todos.go:180-201 | Deleting the same id a second time affects zero rows. |
| `Todos.Page` | internal/data/todos.go:219 | LIMIT/OFFSET returns at most `limit` rows: the ones starting `offset` rows into the result, or none when the offset is past the end. |
| `Todos.CountIsMatchingRows` | internal/data/todos.go:211-217 | The number of rows the query finds is the number of stored rows that satisfy the WHERE clause. |
| `Todos.WindowCount` | internal/data/todos.go:211-219 | Every row of the result set carries `COUNT(*) OVER()`, which equals the number of stored rows satisfying the WHERE clause, and is itself one of those rows. |
| `Todos.ScanSpec` | internal/data/todos.go:214-217 | Scanning ids `lo..hi` yields exactly the stored rows in that range that satisfy the WHERE clause, in increasing id order. |
| `Todos.InsertSortedKeepsRows` | internal/data/todos.go:218 | Inserting a row into a sorted list adds exactly that row. |
| `Todos.InsertSortedOrdered` | internal/data/todos.go:218 | Inserting a row with a new id into a list ordered by (sort rank, id) keeps the list ordered. |
| `Todos.SortRowsSpec` | internal/data/todos.go:218 | Sorting rows with distinct ids is a permutation ordered by the sort column and direction, with ties broken by `id ASC`. |
| `Todos.ResultsSpec` | internal/data/todos.go:210-219 | The query result holds exactly the table's rows where name matches the name term or the term is empty, level matches likewise, and the mode filter is non-nil and either empty or contained in the row's Mode. Each such row appears once, and the result is ordered by rank, then id. |
| `Todos.NilModeFindsNothing` | internal/data/todos.go:217-224 | A nil mode filter, bound as SQL NULL, finds no row. |
| `Todos.EmptyTermsFindAll` | internal/data/todos.go:215-217 | Empty name and level terms with an empty mode filter find exactly the stored rows, all of them. |
| `Todos.PageSpec` | internal/data/todos.go:210-224 | A page holds at most `limit` rows. They match the filter, are stored rows, and are in query order. |
| `Todos.TodoModel.constructor` | internal/data/todos.go:60-62 | A new store has an empty table, and its id sequence starts at 1. |
| `Todos.TodoModel.Insert` | internal/data/todos.go:65-81 | On success, the eight caller fields become a new row under a fresh id, and no existing row changes. Only ID, CreatedAt and Version (0) are written back into `todo`. A database error is returned unchanged, and nothing changes. |
| `Todos.TodoModel.Get` | internal/data/todos.go:85-127 | `id < 1` gives NotFound without querying. A missing row also gives NotFound. Other errors are returned unchanged. Otherwise the stored row is returned field for field. |
| `Todos.TodoModel.Update` | internal/data/todos.go:132-170 | It succeeds exactly when the stored row with `todo.ID` has version `todo.Version`. Then all 8 fields are replaced and the version goes to old+1, both in the table and in `todo`. It has no `id < 1` guard: a wrong version or a missing row is EditConflict, with table and `todo` unchanged. |
| `Todos.TodoModel.Delete` | internal/data/todos.go:174-204 | `id < 1` gives NotFound with the table untouched. Otherwise exactly that row is removed, and zero rows affected is NotFound. An exec error leaves the table unchanged. A rows-affected error comes after the removal. |
| `Todos.TodoModel.GetAll` | internal/data/todos.go:208-265 | On success, it returns the page of the query result row for row. The metadata is computed from the window count. That count is the number of stored rows satisfying the WHERE clause, or 0 when the page is empty. Any query, scan or iteration error (or a negative LIMIT/OFFSET) gives a nil list and zero Metadata. A non-nil list is returned exactly when there is no error. |
| `Todos.InsertThenGet` | internal/data/todos.go:65-127 | After an Insert, a Get of the new id returns the inserted record field for field, with id at least 1 and version 0. |
| `Todos.RacingWriters` | internal/data/todos.go:132-170 | Two writers holding the same version: the first Update succeeds with version+1 and its fields stored, and the second gets EditConflict. The table afterwards differs from the one before only in that row. |
| `Todos.DeleteTwice` | internal/data/todos.go:174-204 | Deleting an id twice: the second Delete is NotFound, and the id is gone. |
| `Filters.ValidateFilters` | internal/data/filters.go:14-22 | The validator's new errors are the old ones plus the result of the five checks, in source order. `f` is a value and is not changed. |
| `Filters.FilterFailures` | internal/data/filters.go:16-21 | `page` gets an error exactly when Page <= 0 or Page > 1000. `page_size` gets one exactly when Page <= 0 or Page > 100. `sort` gets one exactly when Sort is not in SortList. No other key gets one. |
| `Filters.ValidateFiltersKeys` | internal/data/filters.go:14-22 | Validation only adds errors under `page`, `page_size` and `sort`, and keeps earlier errors unchanged. |
| `Filters.PageSizeNeverExamined` | internal/data/filters.go:18-19 | The errors are the same whatever PageSize is. |
| `Filters.LargePageBlamesPageSize` | internal/data/filters.go:17-19 | A Page in 101..1000 yields a `page_size` error and no `page` error. |
| `Filters.SmallPageAccepted` | internal/data/filters.go:16-21 | With 1 <= Page <= 100 and Sort in SortList, no error is recorded, whatever PageSize is. |
| `Filters.ZeroPageSizeAccepted` | internal/data/filters.go:18-19 | Page 1 with PageSize 0 passes the checks as written, and the corrected checks reject it. |
| `Filters.IntendedFilterFailures` | internal/data/filters.go:18-19 | With the corrected checks, `page_size` gets an error exactly when PageSize <= 0 or PageSize > 100; `page` and `sort` are as before. |
| `Filters.ValidateFiltersIntended` | internal/data/filters.go:14-22 | The corrected validation: the same checks, except that the page-size checks test PageSize. |
| `Entries.ValidateList` | internal/data/entries.go:26-53 | The validator's new errors are the old ones plus the result of the draft's eighteen checks, in source order. |
| `Entries.SameChecksAsTodos` | internal/data/entries.go:26-53 | The draft records errors under the same keys as the Todo version, with the same messages except under `mode`. |
| `Entries.AcceptsLikeTodos` | internal/data/entries.go:26-53 | The draft records no error exactly when the record satisfies the Todo version's validity predicate. |
| `Entries.Insert` | internal/data/entries.go:61-63 | Returns nil and assigns nothing, so no ID, CreatedAt or Version is set. |
| `Entries.Get` | internal/data/entries.go:66-68 | Returns (nil, nil) for every id, `id < 1` included, unlike the Todo store. |
| `Entries.Update` | internal/data/entries.go:71-73 | Returns nil and changes nothing. |
| `Entries.Delete` | internal/data/entries.go:76-78 | Returns nil for every id and changes nothing. |

## Left out

- SQL text, `lib/pq` array encoding and the `QueryRowContext`/`Scan` mechanics are not modelled. Each statement is one step on the map, and a failing statement changes nothing.
- The full-text match `to_tsvector('simple', …) @@ plainto_tsquery('simple', …)` is the uninterpreted parameter `textMatch`. It is defined elsewhere (in PostgreSQL).
- `sortColumn`, `sortOrder`, `limit`, `offset`, `calculateMetadata` and `Metadata` are called but their bodies are not shown, so they are parameters.
  - `sortColumn` and `sortOrder` together become `sortRank`, an integer rank per row that rows with equal column values share.
  - The floating-point page arithmetic of `calculateMetadata` is not modelled.
- The validator package's source is not shown. It is modelled as follows:
  - `Check` is modelled as "record this message under the key when the condition is false, unless the key already has an error".
  - `Unique` is distinctness, and `In` is sequence membership.
  - `Matches`, `PhoneRX`, `EmailRX` and `ValidWebsite` are parameters.
- The 3-second context timeouts, cancellation and concurrent use of the connection pool are not modelled. Concurrent writers appear only as `Update`'s single compare-and-swap (`RacingWriters`). A timeout surfaces as one of the `Other` faults.
- `time.Time` is the opaque `Time`. The database's `now()` is the `now` parameter of `Insert`.
- A negative LIMIT or OFFSET is modelled as the query failing with `Other`, as PostgreSQL rejects it.
- `ID` (int64) and `Version` (int32) are unbounded integers. Overflow after 2^31-1 updates is not modelled, because the column types are declared in the schema, which is not part of this model.
- A failed INSERT leaves `nextId` unchanged. PostgreSQL would consume a sequence value, which changes only which ids later inserts get.
- SQL array containment `@>` with a NULL stored `Mode` is modelled as containment in the empty array. For a non-empty filter this matches no row, as SQL does.
- Todos.TodoModel.Get: does not state that the returned record is a newly allocated object.
- Todos.TodoModel.GetAll: does not state that the returned records are newly allocated objects.
- HTTP handlers and routing (`cmd/api/todo.go`, `cmd/api/entry.go`, `cmd/api/routes.go`) are transport glue and are not modelled. That includes:
  - the missing `return` after an `Insert` failure in the create handler;
  - `ErrEditConflict` being answered as a server error.
- `internal/data/models.go` is wiring only. It declares `ErrRecordNotFounc`, and no shown file declares the `ErrRecordNotFound` and `ErrEditConflict` that `todos.go` returns. These are modelled as the `Error` kinds `NotFound` and `EditConflict`.
- Both Go files declare the same `Todo` struct. It is modelled once, in `Records`.
- Recorded error messages depend on the order of checks. The model keeps that order and the first message per key.

## Findings

| source | as written | input that shows it | evidently intended | confidence | as-written member | corrected member |
|---|---|---|---|---|---|---|
| internal/data/filters.go:18-19 | both `page_size` checks test `f.Page` (`f.Page > 0`, `f.Page <= 100`), so `PageSize` is never validated and a Page in 101..1000 is reported as a `page_size` error | `Filters{Page: 1, PageSize: 0, Sort: "id", SortList: ["id"]}` records no error | the checks test `f.PageSize` (1..100), as their key and messages say | high; not executed | `Filters.ZeroPageSizeAccepted` | `Filters.IntendedFilterFailures` |

The store does not call either validation. `GetAll` takes its `Filters` as given, so the correction changes no other member.
