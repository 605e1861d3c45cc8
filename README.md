# Portfolio site data-access layer, modelled in Dafny

The portfolio site keeps its projects in one SQLite table. Every database access
goes through the `DAL` class. That class has generic verbs: query, scalar,
non-query, batch, insert, update, delete, select-all, select-by-id, and
create/drop table. The query, scalar, non-query and batch verbs pass the
caller's SQL and parameters to SQLite unchanged. The other verbs build a SQL
string and a tuple of bound parameters from their arguments, then hand both to
SQLite. Two verbs then reduce the rows that come back to one answer.

This project models that logic:

- `sql_values.dfy` (module `SqlValues`): the values SQLite binds and returns
  (`Value`, with `Null` for SQL NULL / Python `None`), positional result rows,
  and the column-to-value dict that `insert` and `update` take (`FieldMap`: an
  ordered list of pairs with distinct keys, in the dict's iteration order).
- `sql_text.dfy` (module `SqlText`): Python's `', '.join` (`Join`), its inverse
  for the `", "` separator (`SplitList`), a reader that recovers the text between
  a fixed prefix and suffix (`Between`), and the count of `?` characters in a
  text (`Markers`).
- `dal.dfy` (module `Dal`): one statement builder per verb, returning a
  `Statement(sql, params)`; the first-row and first-column selection rules; and
  the verbs whose answer depends on the engine, with the engine as a parameter
  (`Engine`: a function from the statement sent to the rows it yields).

What is proved:

- Each builder places the caller's text (schema, table name, column list, SET
  clause, WHERE text, ORDER BY fragment or id column) between a prefix and a
  suffix. The prefix and suffix are built from the keywords, the table name,
  and for INSERT and UPDATE the `?, ?, …` list or the WHERE text. `Between`
  reads the caller's text back exactly.
- For a non-empty dict whose keys hold no comma, the column list of an INSERT
  splits back into the dict's keys, in order, and its VALUES list splits into
  one `?` per key. For every dict, the i-th bound value is the i-th column's
  value; an empty dict gives `INSERT INTO t () VALUES ()` with no parameters.
- For a non-empty dict whose keys hold no comma, the SET clause of an UPDATE
  splits into one `key = ?` per key. For every dict, the parameters are the
  dict's values followed by `where_params`.
- INSERT, UPDATE, DELETE, the full-table read and the id query each carry as
  many `?` characters as bound parameters, provided the table and column names
  hold no `?` and, for the full-table read, the ORDER BY fragment holds none.
  This counts `?` characters, so a `?` inside a quoted literal in the caller's
  WHERE text is counted although SQLite binds nothing for it. For UPDATE and
  DELETE this holds exactly when the caller's WHERE text carries as many `?`
  as `where_params` has values.
- `select_all` adds ` ORDER BY …` exactly when the fragment is truthy.
- `select_by_id` and `execute_scalar` return the first row or its first column.
  When there is no row, they return `None`, never 0.

Two details of `execute_scalar` (DAL.py:84) are modelled as written:

- `execute_scalar` reports "no row" as Python `None`. A first column holding
  SQL NULL gives the same value (`ScalarAbsentIsNull`).
- `result[0] if result else None` also treats a fetched row with no columns as
  absent, because such a row is falsy in Python. `ScalarOf` models that branch.

## Model

| member | source | states |
|---|---|---|
| SqlText.Join | DAL.py:140-141 | `', '.join`: the result's length is the elements' total length plus one separator between each pair of neighbours, and it starts with the first element |
| SqlText.SplitJoin | DAL.py:140-141 | splitting `', '.join(xs)` at every `", "` gives back `xs` element by element, for a non-empty list whose elements hold no comma |
| SqlText.MarkersJoin | DAL.py:141 | joining with `", "` adds no `?`: the joined text holds the sum of its elements' `?` characters |
| Dal.CreateTableStatement | DAL.py:116-117 | `CREATE TABLE IF NOT EXISTS t (` … `)` with the schema read back verbatim between them; no parameters |
| Dal.DropTableStatement | DAL.py:126-127 | `DROP TABLE IF EXISTS ` followed by exactly the table name; no parameters |
| Dal.InsertStatement | DAL.py:140-147 | the column list sits between `INSERT INTO t (` and `) VALUES (?, ?, …)`, one `?` per key; one bound value per key, the i-th being the i-th key's value |
| Dal.InsertColumnsAligned | DAL.py:140-147 | for a non-empty dict whose keys hold no comma: the column list splits back into the dict's keys in order, the VALUES list into one `?` per key, and column i and parameter i come from the same dict entry |
| Dal.InsertNoColumns | DAL.py:140-142 | an empty dict gives `INSERT INTO t () VALUES ()` with no parameters |
| Dal.PlaceholderListMarkers | DAL.py:141 | the VALUES list for n columns holds exactly n `?` characters |
| Dal.InsertArity | DAL.py:140-147 | when the table and the keys hold no `?`, the INSERT holds exactly as many `?` as bound values, one per key |
| Dal.UpdateStatement | DAL.py:166-168 | the SET clause sits between `UPDATE t SET ` and ` WHERE <where_clause>`, with the WHERE text verbatim; parameters are the dict's values in key order followed by `where_params`, length `|data| + |where_params|` |
| Dal.UpdateSetFragments | DAL.py:166 | for a non-empty dict whose keys hold no comma: the SET clause splits into exactly one `key = ?` per key, in key order |
| Dal.SetClauseMarkers | DAL.py:166 | when the keys hold no `?`, the SET clause holds exactly one `?` character per key |
| Dal.UpdateArity | DAL.py:166-169 | when the table and the keys hold no `?`, the UPDATE holds as many `?` as parameters if and only if the WHERE text holds as many `?` as `where_params` has values |
| Dal.DeleteStatement | DAL.py:183-184 | `DELETE FROM t WHERE ` followed by exactly the WHERE text; `where_params` forwarded unchanged |
| Dal.DeleteArity | DAL.py:183-184 | when the table holds no `?`, the DELETE holds as many `?` as parameters if and only if the WHERE text holds as many `?` as `where_params` has values |
| Dal.SelectAllStatement | DAL.py:197-199 | exactly `SELECT * FROM t` when `order_by` is `None` or empty; otherwise the fragment follows `SELECT * FROM t ORDER BY ` verbatim; no parameters |
| Dal.SelectAllOrderBy | DAL.py:197-199 | the statement equals the one without ordering if and only if `order_by` is not truthy, so `None` and `""` give the same statement |
| Dal.SelectAllArity | DAL.py:197-200 | the full-table read binds no parameter, and holds no `?` when the table and the ORDER BY fragment hold none |
| Dal.SelectAll | DAL.py:197-200 | the rows returned are the engine's rows for exactly the statement `SelectAllStatement` builds |
| Dal.SelectByIdStatement | DAL.py:214-215 | the id column sits between `SELECT * FROM t WHERE ` and ` = ?`; the one parameter is the id value |
| Dal.SelectByIdArity | DAL.py:214-215 | when the table and the id column hold no `?`, the query holds exactly one `?`, matching its one parameter |
| Dal.SelectByIdDefaultColumn | DAL.py:202 | without an explicit id column, the query filters on `id` |
| Dal.FirstRow | DAL.py:216 | `None` if and only if there are no rows; otherwise the first row, which is one of the rows |
| Dal.SelectById | DAL.py:214-216 | a row is returned if and only if the engine returns some row for the id query, and it is the first such row |
| Dal.ScalarOf | DAL.py:84 | no fetched row, or a fetched row with no columns, gives `None`; otherwise the row's first column |
| Dal.ExecuteScalar | DAL.py:79-86 | `None` when the engine returns no row for the statement; otherwise column 0 of its first row, when that row has columns |
| Dal.ScalarAbsentIsNull | DAL.py:84 | for every engine and statement, `execute_scalar` gives `None` if and only if there is no row, the first row has no columns, or its first column is SQL NULL; "no row" never gives 0 |

## Left out

- SQLite itself is not modelled: executing a statement, `fetchall`/`fetchone`, `commit`, `rowcount` and `lastrowid` (DAL.py:39-46, 59-66, 79-86, 99-106, 144-151). Where a result depends on the engine, the engine is the `Engine` parameter. `fetchone` is taken to be the first row that `fetchall` would return.
- `execute_query` is the `Engine` call itself (`Dal.ExecuteQuery`), so it has no property of its own.
- `execute_non_query` and `execute_many` return the engine's affected-row count. `insert` returns the engine's last row id. `update` and `delete` return `execute_non_query`'s count. Each of these is modelled by the statement it sends; the count or id is not modelled.
- `execute_many` builds no SQL of its own: it forwards the caller's statement and parameter list to the engine.
- The connection opened and closed in `try/finally` is not modelled, and neither is the `Row` factory (DAL.py:17-26). `__init__` (DAL.py:8-15) only stores the database path, which no modelled logic reads.
- Result rows are positional sequences. Access by column name, which `sqlite3.Row` also offers, is not modelled; the layer itself only reads column 0.
- Errors that SQLite raises (for malformed SQL or a missing table) are not modelled. They come from the engine, and the layer passes them on unchanged.
- Python floats are carried as Dafny `real` values. The layer only passes them through, so floating-point behaviour never matters here.
- No identifier, WHERE or ORDER BY text is validated, just as in the source. The `?`-count lemmas state the caller's obligations as preconditions; the builders themselves accept any text.
- The Flask routes in app.py are not part of this model.
