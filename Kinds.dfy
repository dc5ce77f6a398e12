/**
 * The query kinds and the shape of what each kind's callable returns, over an abstract
 * statement: what running it reports (`changes`, `lastInsertRowid`) and the rows it yields.
 *
 * A kind's factory takes the header's argument and yields, given a prepared statement, the
 * function that a module exposes under the query's name. The model keeps the factory's
 * outcome as a `Callable` (the kind, the column chosen by the argument, the SQL text) and
 * states what invoking it on an execution returns.
 */
module Kinds {
  import opened Wrappers

  datatype Kind = Run | Changes | LastRowID | Get | All | One | List

  /** The property names of the kind table. */
  function NameOf(k: Kind): string
  {
    match k
    case Run => "run"
    case Changes => "changes"
    case LastRowID => "lastRowID"
    case Get => "get"
    case All => "all"
    case One => "one"
    case List => "list"
  }

  /** The kind a header's kind word names, if it names one of the table's own entries. */
  function KindNamed(s: string): Option<Kind>
  {
    if s == "run" then Some(Run)
    else if s == "changes" then Some(Changes)
    else if s == "lastRowID" then Some(LastRowID)
    else if s == "get" then Some(Get)
    else if s == "all" then Some(All)
    else if s == "one" then Some(One)
    else if s == "list" then Some(List)
    else None
  }

  /** A kind word names exactly the kind whose name it is (the match is case-sensitive). */
  lemma KindNamedIff(s: string, k: Kind)
    ensures KindNamed(s) == Some(k) <==> NameOf(k) == s
  {
  }

  lemma KindNamedNone(s: string)
    ensures KindNamed(s).None? <==> s !in {"run", "changes", "lastRowID", "get", "all", "one", "list"}
  {
  }

  /** A column value as SQLite hands it back; `Real` stands for a JavaScript number that is not an integer. */
  datatype Value = Null | Integer(i: int) | Real(r: real) | Text(s: string) | Blob(bytes: seq<bv8>)

  /** One column of a result row: its name and value, in select-list order. */
  datatype Cell = Cell(column: string, value: Value)

  type Row = seq<Cell>

  /** What `stmt.run(...)` reports. */
  datatype RunInfo = RunInfo(changes: int, lastInsertRowid: int)

  /** What executing a prepared statement with the caller's arguments produces. */
  datatype Execution = Execution(info: RunInfo, rows: seq<Row>)

  /**
   * The function a kind's factory builds: the kind, the column picked by the header argument
   * (only `get` and `all` take one) and the statement's SQL text.
   */
  datatype Callable = Callable(kind: Kind, column: Option<string>, sql: string)

  /** JavaScript truthiness of the captured argument: present and not the empty string. */
  predicate Truthy(arg: Option<string>) {
    arg.Some? && arg.value != ""
  }

  /** `kinds[name](arg)(db.prepare(sql))`. */
  function Factory(k: Kind, arg: Option<string>, sql: string): (c: Callable)
    ensures c.kind == k && c.sql == sql
    ensures c.column.Some? <==> (k == Get || k == All) && Truthy(arg)
    ensures c.column.Some? ==> c.column == arg
  {
    Callable(k, if (k == Get || k == All) && Truthy(arg) then arg else None, sql)
  }

  /**
   * `row[column]` on the row object: the value of the last cell with that name (a later
   * select-list entry overwrites an earlier property of the same name), `None` for
   * `undefined`.
   */
  function Lookup(row: Row, column: string): (v: Option<Value>)
    ensures v.None? <==> forall i | 0 <= i < |row| :: row[i].column != column
    ensures v.Some? ==> exists i | 0 <= i < |row| ::
      row[i].column == column && row[i].value == v.value
      && forall j | i < j < |row| :: row[j].column != column
  {
    if row == [] then None
    else if row[|row| - 1].column == column then Some(row[|row| - 1].value)
    else Lookup(row[..|row| - 1], column)
  }

  /** With `pluck(true)`: the first column's value. */
  function FirstValue(row: Row): (v: Option<Value>)
    ensures v.Some? <==> row != []
    ensures row != [] ==> v.value == row[0].value
  {
    if row == [] then None else Some(row[0].value)
  }

  /** `rows.map((r) => r[column])`. */
  function ColumnOf(rows: seq<Row>, column: string): (vs: seq<Option<Value>>)
    ensures |vs| == |rows|
    ensures forall i | 0 <= i < |rows| :: vs[i] == Lookup(rows[i], column)
  {
    if rows == [] then [] else ColumnOf(rows[..|rows| - 1], column) + [Lookup(rows[|rows| - 1], column)]
  }

  /** `stmt.pluck(true).all(...)`: the first column of every row. */
  function FirstColumn(rows: seq<Row>): (vs: seq<Option<Value>>)
    ensures |vs| == |rows|
    ensures forall i | 0 <= i < |rows| :: vs[i] == FirstValue(rows[i])
  {
    if rows == [] then [] else FirstColumn(rows[..|rows| - 1]) + [FirstValue(rows[|rows| - 1])]
  }

  /** What a callable returns. */
  datatype Answer =
    | Summary(info: RunInfo)               // the `{ changes, lastInsertRowid }` object
    | Count(n: int)                        // a number taken from it
    | Record(row: Option<Row>)             // one row object, or `undefined`
    | Field(field: Option<Value>)          // one value, or `undefined`
    | Records(rows: seq<Row>)              // an array of row objects
    | Fields(fields: seq<Option<Value>>)   // an array of values

  /** The first row, as `stmt.get(...)` returns it. */
  function FirstRow(rows: seq<Row>): (r: Option<Row>)
    ensures r.Some? <==> rows != []
    ensures rows != [] ==> r.value == rows[0]
  {
    if rows == [] then None else Some(rows[0])
  }

  /** What invoking the callable on an execution returns, kind by kind, as the table is written. */
  function Invoke(c: Callable, e: Execution): (a: Answer)
    ensures c.kind == Run ==> a == Summary(e.info)
    ensures c.kind == Changes || c.kind == LastRowID ==> a == Count(e.info.changes)
    ensures c.kind == Get && c.column.None? ==> a.Record? && (a.row.Some? <==> e.rows != [])
    ensures c.kind == Get && c.column.Some? ==> a.Field? && (e.rows == [] ==> a.field.None?)
    ensures c.kind == Get && e.rows != [] ==>
      a == if c.column.None? then Record(Some(e.rows[0])) else Field(Lookup(e.rows[0], c.column.value))
    ensures c.kind == All && c.column.None? ==> a == Records(e.rows)
    ensures c.kind == All && c.column.Some? ==>
              a.Fields? && |a.fields| == |e.rows|
              && forall i | 0 <= i < |e.rows| :: a.fields[i] == Lookup(e.rows[i], c.column.value)
    ensures c.kind == One ==> a.Field? && a.field == (if e.rows == [] then None else FirstValue(e.rows[0]))
    ensures c.kind == List ==>
              a.Fields? && |a.fields| == |e.rows|
              && forall i | 0 <= i < |e.rows| :: a.fields[i] == FirstValue(e.rows[i])
  {
    match c.kind
    case Run => Summary(e.info)
    case Changes => Count(e.info.changes)
    case LastRowID => Count(e.info.changes)
    case Get =>
      if c.column.None? then Record(FirstRow(e.rows))
      else Field(if e.rows == [] then None else Lookup(e.rows[0], c.column.value))
    case All =>
      if c.column.None? then Records(e.rows) else Fields(ColumnOf(e.rows, c.column.value))
    case One => Field(if e.rows == [] then None else FirstValue(e.rows[0]))
    case List => Fields(FirstColumn(e.rows))
  }

  /** `get` answers with the first element of what `all` answers with the same argument. */
  lemma GetIsHeadOfAll(column: Option<string>, sql: string, e: Execution)
    ensures var g, a := Invoke(Callable(Get, column, sql), e), Invoke(Callable(All, column, sql), e);
      if column.None? then g.row == (if a.rows == [] then None else Some(a.rows[0]))
      else g.field == (if a.fields == [] then None else a.fields[0])
  {
  }

  /** `one` answers with the first element of what `list` answers. */
  lemma OneIsHeadOfList(sql: string, e: Execution)
    ensures var o, l := Invoke(Callable(One, None, sql), e), Invoke(Callable(List, None, sql), e);
      o.field == if l.fields == [] then None else l.fields[0]
  {
  }

  /**
   * Plucking the first column agrees with naming it, as long as no later column of the row
   * repeats its name.
   */
  lemma {:induction false} PluckIsLookup(row: Row)
    requires row != []
    requires forall j | 0 < j < |row| :: row[j].column != row[0].column
    ensures FirstValue(row) == Lookup(row, row[0].column)
  {
    if |row| > 1 {
      var init := row[..|row| - 1];
      assert init[0] == row[0];
      PluckIsLookup(init);
    }
  }

  /** The factory ignores its argument for every kind but `get` and `all`. */
  lemma ArgumentIgnored(k: Kind, a1: Option<string>, a2: Option<string>, sql: string)
    requires k != Get && k != All
    ensures Factory(k, a1, sql) == Factory(k, a2, sql)
  {
  }

  /** An absent or empty argument makes `get` and `all` answer with whole rows. */
  lemma FalsyArgumentMeansWholeRows(k: Kind, arg: Option<string>, sql: string, e: Execution)
    requires k == Get || k == All
    requires !Truthy(arg)
    ensures Invoke(Factory(k, arg, sql), e) == Invoke(Factory(k, None, sql), e)
    ensures Invoke(Factory(k, arg, sql), e).Record? || Invoke(Factory(k, arg, sql), e).Records?
  {
  }

  /** `lastRowID` reports the number of changed rows, not the id of the inserted row. */
  lemma LastRowIDReturnsChanges()
    ensures var e := Execution(RunInfo(1, 3), []);
      Invoke(Callable(LastRowID, None, ""), e) == Count(1)
      && Invoke(Callable(LastRowID, None, ""), e) != Count(e.info.lastInsertRowid)
  {
  }

  /** The kind table as its comment describes it: `lastRowID` answers with the inserted row's id. */
  function InvokeIntended(c: Callable, e: Execution): (a: Answer)
    ensures c.kind == LastRowID ==> a == Count(e.info.lastInsertRowid)
    ensures c.kind != LastRowID ==> a == Invoke(c, e)
  {
    if c.kind == LastRowID then Count(e.info.lastInsertRowid) else Invoke(c, e)
  }

  /** The two tables differ exactly on `lastRowID` executions whose two counts differ. */
  lemma InvokeIntendedDiffers(c: Callable, e: Execution)
    ensures InvokeIntended(c, e) != Invoke(c, e)
        <==> c.kind == LastRowID && e.info.changes != e.info.lastInsertRowid
  {
  }
}
