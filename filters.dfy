/** Filter composition of `read_paginated_with_filter`: a column-to-value
    mapping becomes one condition per column, a list or tuple value meaning
    membership (`in`) and any other value equality (`eq`). */
module Filters {
  import opened DataSource

  /** A filter value as the caller passes it: a list/tuple of values, or a
      single value. */
  datatype Arg = Scalar(value: Value) | Sequence(items: seq<Value>)

  /** The operator the loop attaches for one filter value. */
  function ToPred(a: Arg): (p: Pred)
    ensures p.In? <==> a.Sequence?
    ensures p.In? ==> p.vs == a.items
    ensures p.Eq? ==> p.v == a.value
  {
    match a
    case Sequence(items) => In(items)
    case Scalar(v) => Eq(v)
  }

  /** The meaning of a filter mapping: the row satisfies every column's
      filter. An empty mapping constrains nothing. */
  predicate Satisfies(filters: map<Column, Arg>, r: Row)
  {
    forall c :: c in filters ==> Holds(ToPred(filters[c]), Get(r, c))
  }

  /** The rows of `rows` that satisfy `filters`, in their order. */
  function Matching(rows: seq<Row>, filters: map<Column, Arg>): seq<Row>
  {
    Keep(rows, (r: Row) => Satisfies(filters, r))
  }

  /** Without filters every row matches. */
  lemma MatchingNoFilters(rows: seq<Row>)
    ensures Matching(rows, map[]) == rows
  {
    KeepAll(rows, (r: Row) => Satisfies(map[], r));
  }

  /** Whether `conds` is, in some order, one condition per filter column,
      each carrying the operator `ToPred` gives for that column's value. */
  predicate Encodes(conds: seq<Cond>, filters: map<Column, Arg>)
  {
    |conds| == |filters| &&
    (forall i :: 0 <= i < |conds| ==>
       conds[i].column in filters && conds[i].pred == ToPred(filters[conds[i].column])) &&
    (forall c :: c in filters ==> Cond(c, ToPred(filters[c])) in conds)
  }

  /** Conditions that encode a filter mapping select exactly the rows that
      satisfy it, whatever order the columns were visited in. */
  lemma EncodesMeaning(conds: seq<Cond>, filters: map<Column, Arg>, r: Row)
    requires Encodes(conds, filters)
    ensures MatchesAll(conds, r) <==> Satisfies(filters, r)
  {
    if MatchesAll(conds, r) {
      forall c | c in filters ensures Holds(ToPred(filters[c]), Get(r, c)) {
        var i :| 0 <= i < |conds| && conds[i] == Cond(c, ToPred(filters[c]));
      }
    }
  }

  /** Conditions that encode a filter mapping name exactly its columns, so
      the server rejects them exactly when it rejects one of those columns. */
  lemma EncodesColumns(conds: seq<Cond>, filters: map<Column, Arg>)
    requires Encodes(conds, filters)
    ensures ConditionColumns(conds) == filters.Keys
  {
    forall c | c in filters ensures c in ConditionColumns(conds) {
      var i :| 0 <= i < |conds| && conds[i] == Cond(c, ToPred(filters[c]));
    }
  }

  /** Two condition lists that encode the same mapping, such as the count
      query's and the data query's, select the same rows of any table. */
  lemma {:induction false} SameFiltersSameRows(rows: seq<Row>, a: seq<Cond>, b: seq<Cond>, filters: map<Column, Arg>)
    requires Encodes(a, filters) && Encodes(b, filters)
    ensures Select(rows, a) == Matching(rows, filters)
    ensures Select(rows, b) == Matching(rows, filters)
  {
    forall r | r in rows
      ensures MatchesAll(a, r) == Satisfies(filters, r) && MatchesAll(b, r) == Satisfies(filters, r)
    {
      EncodesMeaning(a, filters, r);
      EncodesMeaning(b, filters, r);
    }
    KeepCongruent(rows, (r: Row) => MatchesAll(a, r), (r: Row) => Satisfies(filters, r));
    KeepCongruent(rows, (r: Row) => MatchesAll(b, r), (r: Row) => Satisfies(filters, r));
  }

  /** The loop over `filters.items()`: each column's condition is chained
      onto the query, `in` for a list/tuple and `eq` otherwise. The columns
      are visited in no particular order; the result encodes the mapping
      all the same, and nothing else of the query changes. */
  method ApplyFilters(q: Query, filters: map<Column, Arg>) returns (r: Query)
    requires q.conds == []
    ensures r.table == q.table && r.window == q.window
    ensures Encodes(r.conds, filters)
  {
    r := q;
    var remaining := filters.Keys;
    ghost var done: set<Column> := {};
    while remaining != {}
      invariant remaining !! done && remaining + done == filters.Keys
      invariant r.table == q.table && r.window == q.window
      invariant |r.conds| == |done|
      invariant forall i :: 0 <= i < |r.conds| ==>
        r.conds[i].column in done && r.conds[i].pred == ToPred(filters[r.conds[i].column])
      invariant forall c :: c in done ==> Cond(c, ToPred(filters[c])) in r.conds
      decreases remaining
    {
      var column :| column in remaining;
      var value := filters[column];
      if value.Sequence? {
        r := r.(conds := r.conds + [Cond(column, In(value.items))]);
      } else {
        r := r.(conds := r.conds + [Cond(column, Eq(value.value))]);
      }
      remaining := remaining - {column};
      done := done + {column};
    }
    assert done == filters.Keys;
  }

  /** A windowless query whose conditions encode `filters` is answered with
      the rows that satisfy the filters, or fails exactly when the server
      rejects the table or one of the filter columns. */
  lemma EncodedQueryAnswer(c: Client, q: Query, filters: map<Column, Arg>)
    requires Encodes(q.conds, filters) && q.window.None?
    ensures Execute(c, q) ==
      if Accepts(c, q.table, filters.Keys) then Data(Matching(c.tables[q.table].rows, filters)) else Failed
  {
    EncodesColumns(q.conds, filters);
    if Accepts(c, q.table, filters.Keys) {
      SameFiltersSameRows(c.tables[q.table].rows, q.conds, q.conds, filters);
    }
  }
}
