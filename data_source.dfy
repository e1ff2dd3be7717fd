/** The queryable data source that the pagination helper talks to: tables of
    rows kept in ascending `id` order, a query descriptor (table, filter
    conditions, optional offset/limit window) standing in for the REST
    client's chained query builder, and `Execute`, which answers a query or
    fails the way the server does. */
module DataSource {

  datatype Option<T> = None | Some(value: T)

  type Column = string

  /** A non-null cell value. A SQL NULL is a column absent from the row. */
  datatype Value = Int(i: int) | Text(s: string) | Bool(b: bool)

  /** A row: its primary key `id` and its other cells. */
  datatype Row = Row(id: int, fields: map<Column, Value>)

  /** The value of column `c` in row `r`, or None for NULL. */
  function Get(r: Row, c: Column): Option<Value>
  {
    if c == "id" then Some(Int(r.id))
    else if c in r.fields then Some(r.fields[c])
    else None
  }

  /** Rows in strictly ascending `id` order (ids are unique). */
  predicate IdAscending(rows: seq<Row>)
  {
    forall i, j :: 0 <= i < j < |rows| ==> rows[i].id < rows[j].id
  }

  datatype Table = Table(columns: set<Column>, rows: seq<Row>)

  /** A table as the store keeps it: the rows are listed in the order
      `ORDER BY id` produces. */
  type StoredTable = t: Table | IdAscending(t.rows) witness Table({}, [])

  /** Whether the server knows column `c` of table `t`. */
  predicate Known(t: Table, c: Column)
  {
    c == "id" || c in t.columns
  }

  /** The connection: the tables the server serves and whether it answers. */
  datatype Client = Client(tables: map<string, StoredTable>, online: bool)

  /** A filter operator as the query builder attaches it: `eq` or `in`. */
  datatype Pred = Eq(v: Value) | In(vs: seq<Value>)

  datatype Cond = Cond(column: Column, pred: Pred)

  /** An inclusive row range `first..last`, sent as offset/limit. */
  datatype Range = Range(first: int, last: int)

  /** What the chained builder accumulates before `.execute()`. */
  datatype Query = Query(table: string, conds: seq<Cond>, window: Option<Range>)

  datatype Response = Data(rows: seq<Row>) | Failed

  /** SQL semantics of one operator on a cell: NULL matches nothing. */
  predicate Holds(p: Pred, v: Option<Value>)
  {
    v.Some? &&
    match p
    case Eq(x) => v.value == x
    case In(xs) => v.value in xs
  }

  predicate MatchesAll(conds: seq<Cond>, r: Row)
  {
    forall i :: 0 <= i < |conds| ==> Holds(conds[i].pred, Get(r, conds[i].column))
  }

  /** The elements of `s` that satisfy `f`, in their original order. */
  function Keep(s: seq<Row>, f: Row -> bool): (r: seq<Row>)
    ensures |r| <= |s|
    ensures forall x :: x in r <==> x in s && f(x)
  {
    if s == [] then []
    else if f(s[0]) then [s[0]] + Keep(s[1..], f)
    else Keep(s[1..], f)
  }

  lemma {:induction false} KeepPreservesOrder(rows: seq<Row>, f: Row -> bool)
    requires IdAscending(rows)
    ensures IdAscending(Keep(rows, f))
  {
    if rows != [] {
      KeepPreservesOrder(rows[1..], f);
      var tail := Keep(rows[1..], f);
      forall y | y in tail ensures rows[0].id < y.id {
        var j :| 0 <= j < |rows[1..]| && rows[1..][j] == y;
        assert rows[j + 1] == y;
      }
    }
  }

  /** Keep depends only on the values of `f`, not on how it is written. */
  lemma {:induction false} KeepCongruent(s: seq<Row>, f: Row -> bool, g: Row -> bool)
    requires forall x :: x in s ==> f(x) == g(x)
    ensures Keep(s, f) == Keep(s, g)
  {
    if s != [] {
      KeepCongruent(s[1..], f, g);
    }
  }

  lemma {:induction false} KeepAll(s: seq<Row>, f: Row -> bool)
    requires forall x :: x in s ==> f(x)
    ensures Keep(s, f) == s
  {
    if s != [] {
      KeepAll(s[1..], f);
    }
  }

  /** The rows of `rows` that a WHERE clause made of `conds` selects. */
  function Select(rows: seq<Row>, conds: seq<Cond>): seq<Row>
  {
    Keep(rows, (r: Row) => MatchesAll(conds, r))
  }

  /** Offset/limit window: rows `first..last` inclusive, cut to what exists. */
  function Clip(rows: seq<Row>, w: Option<Range>): (r: seq<Row>)
    ensures w.None? ==> r == rows
    ensures w.Some? && 0 <= w.value.first <= |rows| && w.value.first <= w.value.last + 1 ==>
      r == rows[w.value.first .. if w.value.last + 1 < |rows| then w.value.last + 1 else |rows|]
  {
    match w
    case None => rows
    case Some(Range(first, last)) =>
      var lo := if first < 0 then 0 else if first > |rows| then |rows| else first;
      var hi := if last + 1 < lo then lo else if last + 1 > |rows| then |rows| else last + 1;
      rows[lo..hi]
  }

  /** Whether the server accepts a query on `table` filtering `columns`:
      it is reachable, the table exists and every column is known. */
  predicate Accepts(c: Client, table: string, columns: set<Column>)
  {
    c.online && table in c.tables &&
    forall col :: col in columns ==> Known(c.tables[table], col)
  }

  function ConditionColumns(conds: seq<Cond>): set<Column>
  {
    set i | 0 <= i < |conds| :: conds[i].column
  }

  /** The server's answer to `q`: the rows of the table that match every
      condition, in `id` order, cut to the window; or a failure when the
      server is unreachable, the table is missing or a column is unknown. */
  function Execute(c: Client, q: Query): (resp: Response)
    ensures resp.Data? <==> Accepts(c, q.table, ConditionColumns(q.conds))
    ensures resp.Data? ==> IdAscending(resp.rows)
    ensures resp.Data? ==> forall r :: r in resp.rows ==>
      r in c.tables[q.table].rows && MatchesAll(q.conds, r)
    ensures resp.Data? && q.window.None? ==> forall r :: r in c.tables[q.table].rows && MatchesAll(q.conds, r) ==>
      r in resp.rows
  {
    if !Accepts(c, q.table, ConditionColumns(q.conds)) then Failed
    else
      var matching := Select(c.tables[q.table].rows, q.conds);
      KeepPreservesOrder(c.tables[q.table].rows, (r: Row) => MatchesAll(q.conds, r));
      ClipKeepsOrder(matching, q.window);
      Data(Clip(matching, q.window))
  }

  lemma ClipKeepsOrder(rows: seq<Row>, w: Option<Range>)
    requires IdAscending(rows)
    ensures IdAscending(Clip(rows, w))
    ensures forall r :: r in Clip(rows, w) ==> r in rows
  {
    match w
    case None =>
    case Some(Range(first, last)) =>
      var lo := if first < 0 then 0 else if first > |rows| then |rows| else first;
      var hi := if last + 1 < lo then lo else if last + 1 > |rows| then |rows| else last + 1;
      var s := rows[lo..hi];
      assert Clip(rows, w) == s;
      forall i, j | 0 <= i < j < |s| ensures s[i].id < s[j].id {
        assert s[i] == rows[lo + i] && s[j] == rows[lo + j];
      }
      forall r | r in s ensures r in rows {
        var k :| 0 <= k < |s| && s[k] == r;
        assert rows[lo + k] == r;
      }
  }
}
