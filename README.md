# Access-log record store, modelled in Dafny

The access-log analyzer keeps its per-date, per-resource hit counts in one
SQLite table, `records(record_date, resource, record_count)`. A unique index
`date_content` on `(record_date, resource)` guards the table. The module
`lib/access_log_analyzer/datasource.py` holds the process-wide connection in a
`STATE` dictionary. Each table operation issues one SQL statement; `setup`
issues two, and the connection functions issue none. This project models
that module and proves what each statement does to the table.

- `collation.dfy`, module `Collation`: SQLite's BINARY text order, which the
  `ORDER BY` clauses use. It is proved to be a strict total order and to
  agree with the textbook definition of lexicographic order.
- `records.dfy`, module `Records`: the table as a finite map from
  `Key(date, resource)` to a count. It also holds the pure meaning of each
  statement: `Update`, `Prune` and `CountOf` for the writes and the lookup,
  and `Listing` for the grouped, ordered, limited `SELECT`. `Listing` sorts
  with `SortRows`. `SortedUnique` proves that the `ORDER BY` leaves only one
  possible listing.
- `datasource.dfy`, module `Datasource`: class `RecordStore`. It has a
  `connected` flag (`STATE['connected']`), a `ready` flag (the table and the
  index exist) and the `table`. Each module function is a method or a reading
  function. The three exceptions the model keeps become `Outcome` or `Result`
  values: a missing connection (`NotConnected`), no table before `setup`
  (`NoSuchTable`), and a duplicate insert (`UniqueViolation`). The others
  (`TypeError`, `OverflowError`, a failing `sqlite3.connect`) are listed
  under "## Left out".
- `properties.dfy`, module `StoreProperties`: properties that span several
  calls. They cover the insert/query round trip, the refused duplicate insert,
  update as overwrite, pruning twice, setup twice and close/reopen.

Because the index keeps one row per `(record_date, resource)` pair, each
`GROUP BY record_date, resource` group of `query_records` is one row. Its
`sum(record_count)` is that row's count, and `ORDER BY record_count` orders by
the summed value. `Records.Selected` builds the result tuples on that basis.

Three facts about the code shape the model:
- Counts are any `int`, because nothing in the module checks their sign.
- An integer `date_query` returns one row per `(record_date, resource)` pair,
  because the query groups by `record_date, resource`.
- The errors are whatever a missing `STATE` key (`KeyError`) or `sqlite3`
  raises. The model records when each error occurs, not its Python type.

`limit` is `Option<int>`. `if limit:` adds no clause for `None` or `0`. A
positive value keeps the first `limit` rows. A negative value yields
`LIMIT -n`, which SQLite reads as no bound, so `Capped` is false for it too.

## Model

| member | source | states |
|---|---|---|
| `Datasource.RecordStore.constructor` | lib/access_log_analyzer/datasource.py:4-5 | at module import the store is not connected; the model's single database starts with no schema and no rows |
| `Datasource.RecordStore.Connected` | lib/access_log_analyzer/datasource.py:7-9 | reports exactly the flag that `OpenConnection` sets and `Close` clears |
| `Datasource.RecordStore.OpenConnection` | lib/access_log_analyzer/datasource.py:11-15 | afterwards the store is connected; the schema and rows are untouched |
| `Datasource.RecordStore.Setup` | lib/access_log_analyzer/datasource.py:17-25 | fails with `NotConnected` without a connection; otherwise the schema exists afterwards and no row changes, so repeating it is harmless |
| `Datasource.RecordStore.Commit` | lib/access_log_analyzer/datasource.py:27-29 | succeeds exactly when connected and changes nothing in the model |
| `Datasource.RecordStore.Close` | lib/access_log_analyzer/datasource.py:31-36 | fails with `NotConnected` when there is no connection; the store is disconnected afterwards in every case |
| `Datasource.RecordStore.DeleteStaleRecords` | lib/access_log_analyzer/datasource.py:38-43 | without a connection or schema it reports the error and keeps the table; otherwise the new table is `Prune` of the old one |
| `Datasource.RecordStore.QueryRecords` | lib/access_log_analyzer/datasource.py:45-69 | fails exactly when no statement can run, with that error; otherwise returns the ordered, limited `Listing` of the current table |
| `Datasource.RecordStore.QueryRecordCount` | lib/access_log_analyzer/datasource.py:71-82 | fails exactly when no statement can run; otherwise the stored count of the pair, or 0 when no row matches |
| `Datasource.RecordStore.UpdateRecordCount` | lib/access_log_analyzer/datasource.py:84-90 | without a connection or schema it reports the error and keeps the table; otherwise the new table is `Update` of the old one |
| `Datasource.RecordStore.InsertRecordCount` | lib/access_log_analyzer/datasource.py:92-96 | reports `NotConnected`/`NoSuchTable` first, then `UniqueViolation` for a pair already present, and on every failure the table is unchanged; on success exactly the new row is added |
| `Records.Update` | lib/access_log_analyzer/datasource.py:88-90 | the set of pairs never changes; a present pair gets the new count (not a sum); every other row keeps its count |
| `Records.Prune` | lib/access_log_analyzer/datasource.py:41-43 | survivors keep their counts; every survivor dated with the period's length is dated exactly the period; every row of another length, or dated the period, survives |
| `Records.PruneIdempotent` | lib/access_log_analyzer/datasource.py:38-43 | pruning twice with one period equals pruning once |
| `Records.StalenessExample` | lib/access_log_analyzer/datasource.py:38-43 | with rows dated "2023", "2024" and "2024-01-01", pruning by "2024" removes only the "2023" row |
| `Records.Selected` | lib/access_log_analyzer/datasource.py:56-60 | a tuple is selected iff its pair is in the table with that count and its date matches the query: equal length for `ByLength`, equal text for `Exact` |
| `Records.Listing` | lib/access_log_analyzer/datasource.py:52-69 | strictly in ORDER BY order; only selected rows; with no positive limit, every selected row; length is the limit or the selection size, whichever is smaller; every selected row left out comes after every row returned |
| `Records.SortRows` | lib/access_log_analyzer/datasource.py:58-61 | the result is strictly ordered and holds exactly the rows of the set, each once |
| `Records.SortedUnique` | lib/access_log_analyzer/datasource.py:65-68 | two strictly ordered sequences with the same rows are equal, so the ORDER BY determines the result |
| `Records.First` | lib/access_log_analyzer/datasource.py:61 | picks the row of a non-empty set that comes before all others |
| `Records.FirstExists` | lib/access_log_analyzer/datasource.py:61 | every non-empty finite set of rows has a row that the ORDER BY puts before all others |
| `Records.BeforeIrreflexive` | lib/access_log_analyzer/datasource.py:61 | no row comes before itself |
| `Records.BeforeAsymmetric` | lib/access_log_analyzer/datasource.py:61 | two rows are never each before the other |
| `Records.BeforeTransitive` | lib/access_log_analyzer/datasource.py:61 | the ORDER BY order (date descending, count descending, resource ascending) is transitive |
| `Records.BeforeTotal` | lib/access_log_analyzer/datasource.py:68 | any two different rows are ordered one way or the other |
| `Records.OrderingExample` | lib/access_log_analyzer/datasource.py:64-69 | querying "2024-01-01" over three rows returns the "/b" row (count 5), then the "/a" row (count 3), and omits the other date |
| `Collation.LessIrreflexive` | lib/access_log_analyzer/datasource.py:61 | no text sorts before itself under BINARY collation |
| `Collation.LessAsymmetric` | lib/access_log_analyzer/datasource.py:61 | two texts never each sort before the other |
| `Collation.LessTransitive` | lib/access_log_analyzer/datasource.py:61 | the text order is transitive |
| `Collation.LessTotal` | lib/access_log_analyzer/datasource.py:61 | any two different texts are ordered one way or the other |
| `Collation.LessIsLexBefore` | lib/access_log_analyzer/datasource.py:68 | the order holds iff the first text is a proper prefix of the second or has a smaller code point at the first difference |
| `StoreProperties.InsertThenQuery` | lib/access_log_analyzer/datasource.py:71-96 | inserting a fresh pair succeeds, and reading it back returns the inserted count |
| `StoreProperties.DuplicateInsertFails` | lib/access_log_analyzer/datasource.py:23-25 | a second insert of a pair fails with `UniqueViolation` and the first count stays |
| `StoreProperties.UpdateOverwrites` | lib/access_log_analyzer/datasource.py:84-90 | insert then update reads back the updated count, not the sum |
| `StoreProperties.UpdateAbsentIsNoop` | lib/access_log_analyzer/datasource.py:84-90 | updating an absent pair leaves the table as it was and the pair still reads 0 |
| `StoreProperties.PruneTwice` | lib/access_log_analyzer/datasource.py:38-43 | two prunes with one period leave the same table as one |
| `StoreProperties.SetupTwice` | lib/access_log_analyzer/datasource.py:17-25 | two setups on a connected store both succeed and leave the rows alone |
| `StoreProperties.ReopenKeepsRecords` | lib/access_log_analyzer/datasource.py:11-15 | in the model's single durable database, close then open succeeds and keeps the schema and every row |
| `StoreProperties.ClosedStoreRefuses` | lib/access_log_analyzer/datasource.py:31-36 | after close, from any state, both a query and an insert fail with `NotConnected` and the table is unchanged |
| `StoreProperties.MissingRecordIsZero` | lib/access_log_analyzer/datasource.py:79-82 | on a freshly set up database every pair reads 0 |
| `StoreProperties.AggregationOrdering` | lib/access_log_analyzer/datasource.py:56-69 | after three inserts into a fresh database, the exact-date query returns the two rows of that date, higher count first |

## Left out

- `StoreProperties.ReopenKeepsRecords` holds only for one file database that is reopened under the same `conn_info`, with every write committed before `close`. With `":memory:"` or another path the reopened database is a different one, and `close` without `commit` drops the uncommitted rows.
- `Datasource.RecordStore.constructor` starts the model's single database empty, with no schema. A program that opens an existing file already has the table and its rows, and its statements succeed before `setup`.
- The `sqlite3` connection and cursor objects and the `conn_info` argument are not modelled. The model has one database, and opening it always succeeds. A failing `sqlite3.connect` is not modelled.
- Transactions are not modelled. `commit` has no effect in the model, and every write counts as durable.
- `query_records` returns a lazy cursor that cannot be restarted. The model returns the whole result as a sequence.
- That cursor is the module's one shared cursor. Any later statement (a `query_record_count` while iterating, say) runs its own statement on it and discards the rest of the earlier result. The model does not capture this sharing.
- The `LIMIT %d` text interpolation is not modelled; `limit` is an optional integer. `%d` truncates a float (`2.5` gives `LIMIT 2`, and a truthy `0.5` gives `LIMIT 0`, so no rows) and turns `True` into `LIMIT 1`. A non-numeric limit raises `TypeError`. None of these cases are modelled.
- The `varchar(10)` and `varchar(256)` widths are not modelled, because SQLite does not enforce them.
- NULL values are not modelled. `record_date` and `resource` are always text, and SQLite's unique index would accept several rows with NULL in them. A `None` count is stored as NULL, and `query_record_count` then returns `None`, not 0.
- `period` is always text. `len(period)` on a value with no length raises `TypeError`, which is not modelled.
- SQLite's `length()` stops at the first NUL character of a text value, while `len(period)` counts every character. The model counts every character on both sides, so dates that contain NUL are not modelled.
- Column affinity conversions are not modelled. Counts are unbounded integers, so the 64-bit `INTEGER` range and `OverflowError` are not modelled.
- Python's `bool` counts as an `int` in the `isinstance` test. This quirk is not modelled.
- Concurrency is not modelled, because the module has no synchronisation.
