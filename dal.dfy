/**
 The data-access layer of the portfolio site (class `DAL` in DAL.py): the SQL
 text and the parameter tuple each generic verb sends to SQLite, and the rules
 that pick a single result out of the rows SQLite returns.

 The engine itself is not modelled. Where a verb's result depends on what the
 engine returns, the engine is a parameter: a function from the statement sent
 to the rows it yields.
 */
module Dal {

  import opened SqlValues
  import opened SqlText

  /** One statement as handed to `cursor.execute`: SQL text and its bound parameters. */
  datatype Statement = Statement(sql: string, params: seq<Value>)

  /** What the engine returns for a statement: every row, in order (`fetchall`). */
  type Engine = Statement -> seq<Row>

  /** Python truthiness of an optional ORDER BY fragment: both `None` and `""` are false. */
  predicate Truthy(orderBy: Option<string>)
  {
    orderBy.Some? && orderBy.value != ""
  }

  // ---------------------------------------------------------------------------
  // Statement builders
  // ---------------------------------------------------------------------------

  /** `data.keys()` joined by `", "`: the column list of an INSERT. */
  function ColumnList(data: FieldMap): string
  {
    Join(ListSep, Keys(data))
  }

  /** `"?"` once per column, as `['?' for _ in data]` builds it. */
  function Placeholders(n: nat): seq<string>
  {
    seq(n, _ => "?")
  }

  /** The `?, ?, …` list of an INSERT with `n` columns. */
  function PlaceholderList(n: nat): string
  {
    Join(ListSep, Placeholders(n))
  }

  /** One `col = ?` assignment per key, in key order. */
  function SetFragments(data: FieldMap): seq<string>
  {
    seq(|data|, i requires 0 <= i < |data| => data[i].0 + " = ?")
  }

  /** The SET clause of an UPDATE: the assignments joined by `", "`. */
  function SetClause(data: FieldMap): string
  {
    Join(ListSep, SetFragments(data))
  }

  /** `create_table`: an idempotent CREATE with the schema passed through verbatim, no parameters. */
  function CreateTableStatement(table: string, schema: string): (st: Statement)
    ensures Between(st.sql, "CREATE TABLE IF NOT EXISTS " + table + " (", ")") == Some(schema)
    ensures st.params == []
  {
    var prefix := "CREATE TABLE IF NOT EXISTS " + table + " (";
    BetweenFrame(prefix, schema, ")");
    Statement(prefix + schema + ")", [])
  }

  /** `drop_table`: an idempotent DROP naming the table, no parameters. */
  function DropTableStatement(table: string): (st: Statement)
    ensures Between(st.sql, "DROP TABLE IF EXISTS ", "") == Some(table)
    ensures st.params == []
  {
    BetweenFrame("DROP TABLE IF EXISTS ", table, "");
    assert "DROP TABLE IF EXISTS " + table + "" == "DROP TABLE IF EXISTS " + table;
    Statement("DROP TABLE IF EXISTS " + table, [])
  }

  /**
   `insert`: the columns are the dict's keys in order, the VALUES list holds one
   placeholder per column, and the i-th bound value is the i-th column's value.
   */
  function InsertStatement(table: string, data: FieldMap): (st: Statement)
    ensures Between(st.sql, "INSERT INTO " + table + " (", ") VALUES (" + PlaceholderList(|data|) + ")")
            == Some(ColumnList(data))
    ensures |st.params| == |data|
    ensures forall i :: 0 <= i < |data| ==> st.params[i] == data[i].1
  {
    var prefix := "INSERT INTO " + table + " (";
    var suffix := ") VALUES (" + PlaceholderList(|data|) + ")";
    BetweenFrame(prefix, ColumnList(data), suffix);
    Statement(prefix + ColumnList(data) + suffix, ValuesOf(data))
  }

  /**
   `update`: the SET clause sits between `UPDATE t SET ` and the caller's WHERE
   text, which is passed through verbatim; the parameters are the dict's values
   in key order followed by `whereParams`, unchanged.
   */
  function UpdateStatement(table: string, data: FieldMap, whereClause: string, whereParams: seq<Value> := []): (st: Statement)
    ensures Between(st.sql, "UPDATE " + table + " SET ", " WHERE " + whereClause) == Some(SetClause(data))
    ensures |st.params| == |data| + |whereParams|
    ensures forall i :: 0 <= i < |data| ==> st.params[i] == data[i].1
    ensures st.params[|data|..] == whereParams
  {
    var prefix := "UPDATE " + table + " SET ";
    var suffix := " WHERE " + whereClause;
    BetweenFrame(prefix, SetClause(data), suffix);
    Statement(prefix + SetClause(data) + suffix, ValuesOf(data) + whereParams)
  }

  /** `delete`: the caller's WHERE text follows `DELETE FROM t WHERE ` verbatim; its parameters are forwarded unchanged. */
  function DeleteStatement(table: string, whereClause: string, whereParams: seq<Value> := []): (st: Statement)
    ensures Between(st.sql, "DELETE FROM " + table + " WHERE ", "") == Some(whereClause)
    ensures st.params == whereParams
  {
    BetweenFrame("DELETE FROM " + table + " WHERE ", whereClause, "");
    assert "DELETE FROM " + table + " WHERE " + whereClause + "" == "DELETE FROM " + table + " WHERE " + whereClause;
    Statement("DELETE FROM " + table + " WHERE " + whereClause, whereParams)
  }

  /** `select_all`: a full-table read; an ORDER BY suffix appears only for a truthy fragment. */
  function SelectAllStatement(table: string, orderBy: Option<string> := None): (st: Statement)
    ensures !Truthy(orderBy) ==> st.sql == "SELECT * FROM " + table
    ensures Truthy(orderBy) ==> Between(st.sql, "SELECT * FROM " + table + " ORDER BY ", "") == Some(orderBy.value)
    ensures st.params == []
  {
    var query := "SELECT * FROM " + table;
    if Truthy(orderBy) then
      BetweenFrame(query + " ORDER BY ", orderBy.value, "");
      assert query + " ORDER BY " + orderBy.value + "" == query + " ORDER BY " + orderBy.value;
      Statement(query + " ORDER BY " + orderBy.value, [])
    else
      Statement(query, [])
  }

  /** `select_by_id`'s query: one equality test on the id column, bound to the single parameter `(idValue,)`. */
  function SelectByIdStatement(table: string, idValue: Value, idColumn: string := "id"): (st: Statement)
    ensures Between(st.sql, "SELECT * FROM " + table + " WHERE ", " = ?") == Some(idColumn)
    ensures st.params == [idValue]
  {
    var prefix := "SELECT * FROM " + table + " WHERE ";
    BetweenFrame(prefix, idColumn, " = ?");
    Statement(prefix + idColumn + " = ?", [idValue])
  }

  // ---------------------------------------------------------------------------
  // Result selection
  // ---------------------------------------------------------------------------

  /** `results[0] if results else None`, and likewise `cursor.fetchone()`: the first row, if any. */
  function FirstRow(rows: seq<Row>): (r: Option<Row>)
    ensures r == None <==> rows == []
    ensures r.Some? ==> r.value == rows[0] && r.value in rows
  {
    if rows == [] then None else Some(rows[0])
  }

  /**
   `result[0] if result else None` in `execute_scalar`: the first column of the
   fetched row. A missing row, and a row with no columns (falsy in Python),
   both give `None`, which is the same Python value as SQL NULL.
   */
  function ScalarOf(result: Option<Row>): (v: Value)
    ensures result == None ==> v == Null
    ensures result.Some? && result.value == [] ==> v == Null
    ensures result.Some? && result.value != [] ==> v == result.value[0]
  {
    match result
    case Some(row) => if row != [] then row[0] else Null
    case None => Null
  }

  /** `execute_query`: every row the engine returns for the statement. */
  function ExecuteQuery(run: Engine, sql: string, params: seq<Value> := []): seq<Row>
  {
    run(Statement(sql, params))
  }

  /** `execute_scalar`: column 0 of the first row, and `None` (never 0) when there is no row. */
  function ExecuteScalar(run: Engine, sql: string, params: seq<Value> := []): (v: Value)
    ensures run(Statement(sql, params)) == [] ==> v == Null
    ensures run(Statement(sql, params)) != [] && run(Statement(sql, params))[0] != []
            ==> v == run(Statement(sql, params))[0][0]
  {
    ScalarOf(FirstRow(ExecuteQuery(run, sql, params)))
  }

  /** `select_all`: the rows the engine returns for the full-table read. */
  function SelectAll(run: Engine, table: string, orderBy: Option<string> := None): (rows: seq<Row>)
    ensures rows == run(SelectAllStatement(table, orderBy))
  {
    ExecuteQuery(run, SelectAllStatement(table, orderBy).sql)
  }

  /** `select_by_id`: the first row the id query returns, or `None` when it returns none. */
  function SelectById(run: Engine, table: string, idValue: Value, idColumn: string := "id"): (r: Option<Row>)
    ensures r.Some? <==> run(SelectByIdStatement(table, idValue, idColumn)) != []
    ensures r.Some? ==> r.value == run(SelectByIdStatement(table, idValue, idColumn))[0]
  {
    var st := SelectByIdStatement(table, idValue, idColumn);
    FirstRow(ExecuteQuery(run, st.sql, st.params))
  }

  // ---------------------------------------------------------------------------
  // Properties of the builders
  // ---------------------------------------------------------------------------

  // The fixed SQL text around the caller's pieces holds no `?` character. One
  // literal per lemma keeps each proof small.

  lemma InsertIntoMarkers()
    ensures Markers("INSERT INTO ") == 0
  {
    MarkersAbsent("INSERT INTO ");
  }

  lemma OpenParenMarkers()
    ensures Markers(" (") == 0
  {
    MarkersAbsent(" (");
  }

  lemma ValuesKeywordMarkers()
    ensures Markers(") VALUES (") == 0
  {
    MarkersAbsent(") VALUES (");
  }

  lemma CloseParenMarkers()
    ensures Markers(")") == 0
  {
    MarkersAbsent(")");
  }

  lemma UpdateKeywordMarkers()
    ensures Markers("UPDATE ") == 0
  {
    MarkersAbsent("UPDATE ");
  }

  lemma SetKeywordMarkers()
    ensures Markers(" SET ") == 0
  {
    MarkersAbsent(" SET ");
  }

  lemma WhereKeywordMarkers()
    ensures Markers(" WHERE ") == 0
  {
    MarkersAbsent(" WHERE ");
  }

  lemma DeleteFromMarkers()
    ensures Markers("DELETE FROM ") == 0
  {
    MarkersAbsent("DELETE FROM ");
  }

  lemma SelectFromMarkers()
    ensures Markers("SELECT * FROM ") == 0
  {
    MarkersAbsent("SELECT * FROM ");
  }

  lemma OrderByKeywordMarkers()
    ensures Markers(" ORDER BY ") == 0
  {
    MarkersAbsent(" ORDER BY ");
  }

  /** The assignment suffix `" = ?"` holds exactly one `?` character. */
  lemma AssignmentMarkers()
    ensures Markers(" = ?") == 1
  {
    MarkersAbsent(" = ");
    MarkersConcat(" = ", "?");
    assert " = " + "?" == " = ?";
  }

  /** No key of the dict holds a `?`. */
  predicate KeysMarkerFree(data: FieldMap)
  {
    forall i :: 0 <= i < |data| ==> Markers(data[i].0) == 0
  }

  /**
   Reading an INSERT back: its column list splits into exactly the dict's keys,
   its VALUES list into one `?` per key, and the i-th bound value belongs to the
   i-th listed column.
   */
  lemma InsertColumnsAligned(table: string, data: FieldMap)
    requires data != []
    requires CommaFree(Keys(data))
    ensures SplitList(ColumnList(data)) == Keys(data)
    ensures SplitList(PlaceholderList(|data|)) == Placeholders(|data|)
    ensures forall i :: 0 <= i < |data| ==>
              SplitList(ColumnList(data))[i] == data[i].0 && InsertStatement(table, data).params[i] == data[i].1
  {
    SplitJoin(Keys(data));
    SplitJoin(Placeholders(|data|));
  }

  /** An INSERT with no columns is `INSERT INTO t () VALUES ()` with no parameters. */
  lemma InsertNoColumns(table: string)
    ensures InsertStatement(table, []).sql == "INSERT INTO " + table + " () VALUES ()"
    ensures InsertStatement(table, []).params == []
  {
    assert Keys([]) == [] && Placeholders(0) == [];
    assert ColumnList([]) == "" && PlaceholderList(0) == "";
    assert InsertStatement(table, []).sql == "INSERT INTO " + table + " (" + ") VALUES (" + ")";
    assert " (" + ") VALUES (" + ")" == " () VALUES ()";
    assert "INSERT INTO " + table + " (" + ") VALUES (" + ")" == "INSERT INTO " + table + (" (" + ") VALUES (" + ")");
  }

  /** The column list of a dict whose keys hold no `?` holds none either. */
  lemma ColumnListMarkers(data: FieldMap)
    requires KeysMarkerFree(data)
    ensures Markers(ColumnList(data)) == 0
  {
    MarkersJoin(Keys(data));
    SumMarkersUniform(Keys(data), 0);
  }

  /** The VALUES list of an INSERT with `n` columns holds exactly `n` `?` characters. */
  lemma PlaceholderListMarkers(n: nat)
    ensures Markers(PlaceholderList(n)) == n
  {
    MarkersJoin(Placeholders(n));
    SumMarkersUniform(Placeholders(n), 1);
  }

  /** An INSERT carries exactly as many `?` as bound values, when table and keys hold none themselves. */
  lemma InsertArity(table: string, data: FieldMap)
    requires Markers(table) == 0
    requires KeysMarkerFree(data)
    ensures Markers(InsertStatement(table, data).sql) == |InsertStatement(table, data).params| == |data|
  {
    var prefix := "INSERT INTO " + table + " (";
    var suffix := ") VALUES (" + PlaceholderList(|data|) + ")";
    assert InsertStatement(table, data).sql == prefix + ColumnList(data) + suffix;
    InsertIntoMarkers();
    OpenParenMarkers();
    ValuesKeywordMarkers();
    CloseParenMarkers();
    ColumnListMarkers(data);
    PlaceholderListMarkers(|data|);
    FrameMarkers("INSERT INTO ", table, " (");
    FrameMarkers(") VALUES (", PlaceholderList(|data|), ")");
    FrameMarkers(prefix, ColumnList(data), suffix);
  }

  /** Reading an UPDATE back: its SET clause splits into one `key = ?` per key, in key order. */
  lemma UpdateSetFragments(data: FieldMap)
    requires data != []
    requires CommaFree(Keys(data))
    ensures SplitList(SetClause(data)) == SetFragments(data)
    ensures forall i :: 0 <= i < |data| ==> SplitList(SetClause(data))[i] == data[i].0 + " = ?"
  {
    assert CommaFree(SetFragments(data)) by {
      forall i | 0 <= i < |data| ensures ',' !in SetFragments(data)[i] {
        assert ',' !in Keys(data)[i];
        assert ',' !in " = ?";
      }
    }
    SplitJoin(SetFragments(data));
  }

  /** The SET clause of a dict whose keys hold no `?` holds exactly one `?` character per key. */
  lemma SetClauseMarkers(data: FieldMap)
    requires KeysMarkerFree(data)
    ensures Markers(SetClause(data)) == |data|
  {
    forall i | 0 <= i < |data| ensures Markers(SetFragments(data)[i]) == 1 {
      MarkersConcat(data[i].0, " = ?");
      AssignmentMarkers();
    }
    MarkersJoin(SetFragments(data));
    SumMarkersUniform(SetFragments(data), 1);
  }

  /**
   An UPDATE carries as many `?` as bound values exactly when the caller's WHERE
   text carries as many `?` as `whereParams` has values.
   */
  lemma UpdateArity(table: string, data: FieldMap, whereClause: string, whereParams: seq<Value>)
    requires Markers(table) == 0
    requires KeysMarkerFree(data)
    ensures var st := UpdateStatement(table, data, whereClause, whereParams);
            Markers(st.sql) == |st.params| <==> Markers(whereClause) == |whereParams|
  {
    var prefix := "UPDATE " + table + " SET ";
    var suffix := " WHERE " + whereClause;
    assert UpdateStatement(table, data, whereClause, whereParams).sql == prefix + SetClause(data) + suffix;
    UpdateKeywordMarkers();
    SetKeywordMarkers();
    WhereKeywordMarkers();
    SetClauseMarkers(data);
    FrameMarkers("UPDATE ", table, " SET ");
    MarkersConcat(" WHERE ", whereClause);
    FrameMarkers(prefix, SetClause(data), suffix);
  }

  /**
   A DELETE carries as many `?` as bound values exactly when the caller's WHERE
   text carries as many `?` as `whereParams` has values.
   */
  lemma DeleteArity(table: string, whereClause: string, whereParams: seq<Value>)
    requires Markers(table) == 0
    ensures var st := DeleteStatement(table, whereClause, whereParams);
            Markers(st.sql) == |st.params| <==> Markers(whereClause) == |whereParams|
  {
    var prefix := "DELETE FROM " + table + " WHERE ";
    DeleteFromMarkers();
    WhereKeywordMarkers();
    MarkersConcat("DELETE FROM ", table);
    MarkersConcat("DELETE FROM " + table, " WHERE ");
    MarkersConcat(prefix, whereClause);
  }

  /** The ORDER BY suffix is added exactly when the fragment is truthy; `None` and `""` read the same. */
  lemma SelectAllOrderBy(table: string, orderBy: Option<string>)
    ensures SelectAllStatement(table, orderBy) == SelectAllStatement(table) <==> !Truthy(orderBy)
    ensures SelectAllStatement(table, Some("")) == SelectAllStatement(table)
  {
    if Truthy(orderBy) {
      assert |SelectAllStatement(table, orderBy).sql| > |SelectAllStatement(table).sql|;
    }
  }

  /** A full-table read binds nothing, and holds no `?` when the table and the ORDER BY fragment hold none. */
  lemma SelectAllArity(table: string, orderBy: Option<string>)
    requires Markers(table) == 0
    requires Truthy(orderBy) ==> Markers(orderBy.value) == 0
    ensures Markers(SelectAllStatement(table, orderBy).sql) == |SelectAllStatement(table, orderBy).params| == 0
  {
    SelectFromMarkers();
    MarkersConcat("SELECT * FROM ", table);
    if Truthy(orderBy) {
      OrderByKeywordMarkers();
      FrameMarkers("SELECT * FROM " + table, " ORDER BY ", orderBy.value);
    }
  }

  /** The id query carries exactly one `?`, matching its one bound value. */
  lemma SelectByIdArity(table: string, idValue: Value, idColumn: string)
    requires Markers(table) == 0
    requires Markers(idColumn) == 0
    ensures Markers(SelectByIdStatement(table, idValue, idColumn).sql) == |SelectByIdStatement(table, idValue, idColumn).params| == 1
  {
    var prefix := "SELECT * FROM " + table + " WHERE ";
    SelectFromMarkers();
    WhereKeywordMarkers();
    AssignmentMarkers();
    MarkersConcat("SELECT * FROM ", table);
    MarkersConcat("SELECT * FROM " + table, " WHERE ");
    MarkersConcat(prefix, idColumn);
    MarkersConcat(prefix + idColumn, " = ?");
  }

  /** Without an explicit id column, the id query filters on `id`. */
  lemma SelectByIdDefaultColumn(table: string, idValue: Value)
    ensures SelectByIdStatement(table, idValue).sql == "SELECT * FROM " + table + " WHERE id = ?"
  {
  }

  /**
   The scalar result is `None` exactly when there is no row, the first row has
   no columns, or its first column is SQL NULL: the caller cannot tell "no row"
   from a NULL value, and "no row" never reads as 0.
   */
  lemma ScalarAbsentIsNull(run: Engine, sql: string, params: seq<Value>)
    ensures var rows := run(Statement(sql, params));
            ExecuteScalar(run, sql, params) == Null <==> rows == [] || rows[0] == [] || rows[0][0] == Null
    ensures run(Statement(sql, params)) == [] ==> ExecuteScalar(run, sql, params) != Integer(0)
  {
  }
}
