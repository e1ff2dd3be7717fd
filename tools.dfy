/** The two pagination helpers, `read_paginated` and
    `read_paginated_with_filter`: validate the page size, clamp the page,
    count the matching rows, return early on none, compute the page count,
    clamp the page to the last one, read the inclusive row window in `id`
    order and report the metadata. */
module Tools {
  import opened DataSource
  import opened PageMath
  import opened Filters
  import opened Pagination

  /** The `page_size` argument: an `int`, or a value of any other type. */
  datatype SizeArg = IntSize(n: int) | NotInt

  /** The outcome of a call: `ValueError`, the `RuntimeError` every failure
      of the client is turned into, or the result dictionary. */
  datatype Outcome = InvalidArgument | OperationFailed | Ok(page: Page)

  /** `isinstance(page_size, int) and page_size >= 1`. */
  predicate ValidPageSize(s: SizeArg)
  {
    s.IntSize? && s.n >= 1
  }

  /** What a call with `filters` asks for: a bad page size is rejected; a
      query the server refuses fails; otherwise the requested page of the
      table's rows that satisfy the filters, in `id` order. */
  function Expected(c: Client, table: string, filters: map<Column, Arg>, page: int, pageSize: SizeArg): Outcome
  {
    if !ValidPageSize(pageSize) then InvalidArgument
    else if !Accepts(c, table, filters.Keys) then OperationFailed
    else Ok(Paginate(Matching(c.tables[table].rows, filters), page, pageSize.n))
  }

  /** The queries a call sends, in order: `sent[0]` is the count query
      (no window); `sent[1]`, when present, the range read, carrying the
      count query's filters and the window of the served page. */
  predicate QueriesSent(sent: seq<Query>, table: string, filters: map<Column, Arg>, res: Outcome)
  {
    |sent| >= 1 && sent[0] == Query(table, sent[0].conds, None) && Encodes(sent[0].conds, filters) &&
    (|sent| == 2 <==> res.Ok? && res.page.metadata.totalCount > 0) &&
    (|sent| == 2 ==>
       var start := Offset(res.page.metadata.page, res.page.metadata.pageSize);
       sent[1] == Query(table, sent[1].conds, Some(Range(start, start + res.page.metadata.pageSize - 1))) &&
       Encodes(sent[1].conds, filters)) &&
    |sent| <= 2
  }

  /** `read_paginated`: the unfiltered helper. A call that leaves out
      `page` or `page_size` asks for page 1 or for 10 rows per page. */
  method ReadPaginated(c: Client, table: string, page: int := 1, pageSize: SizeArg := IntSize(10))
    returns (res: Outcome, sent: seq<Query>)
    ensures res.InvalidArgument? <==> !ValidPageSize(pageSize)
    ensures res.InvalidArgument? ==> sent == []
    ensures !res.InvalidArgument? ==> QueriesSent(sent, table, map[], res)
    ensures res.OperationFailed? <==> ValidPageSize(pageSize) && !Accepts(c, table, {})
    ensures res.Ok? ==> res.page.metadata.totalCount == |c.tables[table].rows|
    ensures res == Expected(c, table, map[], page, pageSize)
  {
    sent := [];
    if !pageSize.IntSize? || pageSize.n < 1 {
      return InvalidArgument, sent;
    }
    var size := pageSize.n;
    var p := ClampUp(page);
    var offset := Offset(p, size);
    ghost var all := if table in c.tables then c.tables[table].rows else [];
    MatchingNoFilters(all);

    var countQuery := Query(table, [], None);
    var countResult := Execute(c, countQuery);
    sent := sent + [countQuery];
    if countResult.Failed? {
      return OperationFailed, sent;
    }
    var totalCount := |countResult.rows|;
    assert countResult.rows == all by {
      KeepAll(all, (r: Row) => MatchesAll([], r));
    }
    if totalCount == 0 {
      return Ok(Page([], Metadata(0, p, size, 0, false))), sent;
    }
    var rangeQuery;
    res, rangeQuery := ServePage(c, Query(table, [], None), all, p, offset, size, totalCount);
    sent := sent + [rangeQuery];
  }

  /** `read_paginated_with_filter`: `filters` is `None`, or a mapping from
      column to value. Left out, `filters` is `None`, `page` is 1 and
      `page_size` is 10. */
  method ReadPaginatedWithFilter(c: Client, table: string, filters: Option<map<Column, Arg>> := None,
                                 page: int := 1, pageSize: SizeArg := IntSize(10))
    returns (res: Outcome, sent: seq<Query>)
    ensures res.InvalidArgument? <==> !ValidPageSize(pageSize)
    ensures res.InvalidArgument? ==> sent == []
    ensures !res.InvalidArgument? ==> QueriesSent(sent, table, FilterMap(filters), res)
    ensures res.OperationFailed? <==> ValidPageSize(pageSize) && !Accepts(c, table, FilterMap(filters).Keys)
    ensures res.Ok? ==> forall r :: r in res.page.data ==> r in c.tables[table].rows && Satisfies(FilterMap(filters), r)
    ensures res == Expected(c, table, FilterMap(filters), page, pageSize)
  {
    sent := [];
    if !pageSize.IntSize? || pageSize.n < 1 {
      return InvalidArgument, sent;
    }
    var size := pageSize.n;
    var p := ClampUp(page);
    ghost var f := FilterMap(filters);

    var query := FilteredQuery(table, filters);
    var offset := Offset(p, size);
    var countQuery := FilteredQuery(table, filters);
    EncodedQueryAnswer(c, query, f);
    EncodedQueryAnswer(c, countQuery, f);

    var countResult := Execute(c, countQuery);
    sent := sent + [countQuery];
    if countResult.Failed? {
      return OperationFailed, sent;
    }
    var totalCount := |countResult.rows|;
    ghost var matching := Matching(c.tables[table].rows, f);
    if totalCount == 0 {
      return Ok(Page([], Metadata(0, p, size, 0, false))), sent;
    }
    var rangeQuery;
    res, rangeQuery := ServePage(c, query, matching, p, offset, size, totalCount);
    sent := sent + [rangeQuery];
    SuccessfulCallIsFiltered(c, table, f, page, pageSize);
  }

  /** The filter mapping a call applies: `None` and `{}` apply none. */
  function FilterMap(filters: Option<map<Column, Arg>>): map<Column, Arg>
  {
    if filters.Some? then filters.value else map[]
  }

  /** A query on `table` with the filters chained on when there are any
      (`if filters:`), written out once for the data query and once for the
      count query. */
  method FilteredQuery(table: string, filters: Option<map<Column, Arg>>) returns (q: Query)
    ensures q == Query(table, q.conds, None)
    ensures Encodes(q.conds, FilterMap(filters))
  {
    q := Query(table, [], None);
    if filters.Some? && filters.value != map[] {
      q := ApplyFilters(q, filters.value);
    }
  }

  /** Steps shared by both helpers once rows are known to exist: the page
      count, the clamp to the last page with the offset recomputed, and the
      inclusive range read `offset .. offset + page_size - 1` of `query`. */
  method ServePage(c: Client, query: Query, ghost matching: seq<Row>, page: int, offset: int, size: int, totalCount: nat)
    returns (res: Outcome, rangeQuery: Query)
    requires size >= 1 && page >= 1 && offset == Offset(page, size) && query.window.None?
    requires Execute(c, query).Data? && Execute(c, query).rows == matching
    requires totalCount == |matching| > 0
    ensures res == Ok(Paginate(matching, page, size))
    ensures var start := Offset(res.page.metadata.page, size);
      rangeQuery == query.(window := Some(Range(start, start + size - 1)))
  {
    var p, offset := page, offset;
    var totalPages := (totalCount + size - 1) / size;
    if p > totalPages {
      p := totalPages;
      offset := (p - 1) * size;
    }
    TotalPagesBounds(totalCount, size);
    OffsetInside(totalCount, size, p);
    rangeQuery := query.(window := Some(Range(offset, offset + size - 1)));
    var result := Execute(c, rangeQuery);
    if result.Failed? {
      return OperationFailed, rangeQuery;
    }
    res := Ok(Page(result.rows, Metadata(totalCount, p, size, totalPages, p < totalPages)));
  }

  lemma PageMembers(rows: seq<Row>, page: int, size: int)
    requires size >= 1
    ensures forall r :: r in Paginate(rows, page, size).data ==> r in rows
  {
    PageWindow(rows, page, size);
    if |rows| > 0 {
      var pg := Paginate(rows, page, size);
      var o := Offset(pg.metadata.page, size);
      forall r | r in pg.data ensures r in rows {
        var k :| 0 <= k < |pg.data| && pg.data[k] == r;
        assert rows[o + k] == r;
      }
    }
  }

  /** Filter soundness of a successful call: every returned row is a row of
      the table that satisfies every filter, the rows come in ascending `id`
      order, and `total_count` is the number of matching rows, not the size
      of the table. */
  lemma SuccessfulCallIsFiltered(c: Client, table: string, filters: map<Column, Arg>, page: int, pageSize: SizeArg)
    requires Expected(c, table, filters, page, pageSize).Ok?
    ensures var pg := Expected(c, table, filters, page, pageSize).page;
      (forall r :: r in pg.data ==> r in c.tables[table].rows && Satisfies(filters, r)) &&
      IdAscending(pg.data) &&
      pg.metadata.totalCount == |Matching(c.tables[table].rows, filters)|
  {
    var rows := c.tables[table].rows;
    var m := Matching(rows, filters);
    KeepPreservesOrder(rows, (r: Row) => Satisfies(filters, r));
    PageMembers(m, page, pageSize.n);
    PageWindow(m, page, pageSize.n);
    if |m| > 0 {
      ServedPageInRange(m, page, pageSize.n);
      var pg := Paginate(m, page, pageSize.n);
      var o := Offset(pg.metadata.page, pageSize.n);
      forall i, j | 0 <= i < j < |pg.data| ensures pg.data[i].id < pg.data[j].id {
        assert pg.data[i] == m[o + i] && pg.data[j] == m[o + j];
      }
    }
  }

  /** Filter completeness: every row of the table that satisfies the filters
      is served, on page `i / page_size + 1` where `i` is its position among
      the matching rows in `id` order. */
  lemma MatchingRowIsServed(c: Client, table: string, filters: map<Column, Arg>, size: int, r: Row)
    returns (page: int)
    requires size >= 1 && Accepts(c, table, filters.Keys)
    requires r in c.tables[table].rows && Satisfies(filters, r)
    ensures page >= 1
    ensures Expected(c, table, filters, page, IntSize(size)).Ok?
    ensures r in Expected(c, table, filters, page, IntSize(size)).page.data
  {
    var m := Matching(c.tables[table].rows, filters);
    var i :| 0 <= i < |m| && m[i] == r;
    RowOnItsPage(m, size, i);
    page := i / size + 1;
    var pg := Paginate(m, page, size);
    assert Expected(c, table, filters, page, IntSize(size)) == Ok(pg);
    assert pg.data[i % size] == r;
  }

  /** A single equality filter returns only rows holding that value in the
      column; a single list filter only rows whose value is in the list. A
      row whose cell is NULL matches neither. */
  lemma SingleFilterMeaning(c: Client, table: string, column: Column, arg: Arg, page: int, pageSize: SizeArg)
    requires Expected(c, table, map[column := arg], page, pageSize).Ok?
    ensures forall r :: r in Expected(c, table, map[column := arg], page, pageSize).page.data ==>
      Get(r, column).Some? &&
      (arg.Scalar? ==> Get(r, column).value == arg.value) &&
      (arg.Sequence? ==> Get(r, column).value in arg.items)
  {
    SuccessfulCallIsFiltered(c, table, map[column := arg], page, pageSize);
    forall r | r in Expected(c, table, map[column := arg], page, pageSize).page.data
      ensures Holds(ToPred(arg), Get(r, column))
    {
      assert Satisfies(map[column := arg], r);
      assert column in map[column := arg];
    }
  }

  /** Page 0 (or any page below 1) is not an error: with a valid page size
      and a query the server accepts, it is served as page 1. */
  lemma PageBelowOneIsFirstPage(c: Client, table: string, filters: map<Column, Arg>, page: int, pageSize: SizeArg)
    requires page < 1 && ValidPageSize(pageSize) && Accepts(c, table, filters.Keys)
    ensures Expected(c, table, filters, page, pageSize).Ok?
    ensures Expected(c, table, filters, page, pageSize).page.metadata.page == 1
  {
    var m := Matching(c.tables[table].rows, filters);
    if |m| > 0 {
      ServedPageInRange(m, page, pageSize.n);
    }
  }

  /** No matching rows: empty data, zero count, zero pages, no further page,
      whatever page was asked for; the page echoed is the clamped one. */
  lemma NoMatchingRows(c: Client, table: string, filters: map<Column, Arg>, page: int, pageSize: SizeArg)
    requires ValidPageSize(pageSize) && Accepts(c, table, filters.Keys)
    requires |Matching(c.tables[table].rows, filters)| == 0
    ensures Expected(c, table, filters, page, pageSize) ==
      Ok(Page([], Metadata(0, if page < 1 then 1 else page, pageSize.n, 0, false)))
  {
    EmptyPage(Matching(c.tables[table].rows, filters), page, pageSize.n);
  }

  /** Twenty-three matching rows, ten per page: page 1 holds ten rows of
      three pages with more to come; page 3 holds the last three with none
      to come; page 5 is served as page 3, the same three rows. */
  lemma TwentyThreeRows(c: Client, table: string, filters: map<Column, Arg>)
    requires Accepts(c, table, filters.Keys)
    requires |Matching(c.tables[table].rows, filters)| == 23
    ensures var first := Expected(c, table, filters, 1, IntSize(10));
      first.Ok? && |first.page.data| == 10 &&
      first.page.metadata == Metadata(23, 1, 10, 3, true)
    ensures var last := Expected(c, table, filters, 3, IntSize(10));
      last.Ok? && |last.page.data| == 3 &&
      last.page.metadata == Metadata(23, 3, 10, 3, false)
    ensures Expected(c, table, filters, 5, IntSize(10)) == Expected(c, table, filters, 3, IntSize(10))
  {
    assert TotalPages(23, 10) == 3;
  }

  /** A filterless call, with `None` or with `{}`, returns what
      `read_paginated` returns and sends the same queries. */
  method UnfilteredCallsAgree(c: Client, table: string, page: int, pageSize: SizeArg)
    returns (plain: Outcome, withNone: Outcome, withEmpty: Outcome,
             sentPlain: seq<Query>, sentNone: seq<Query>, sentEmpty: seq<Query>)
    ensures plain == withNone == withEmpty
    ensures sentPlain == sentNone == sentEmpty
  {
    plain, sentPlain := ReadPaginated(c, table, page, pageSize);
    withNone, sentNone := ReadPaginatedWithFilter(c, table, None, page, pageSize);
    withEmpty, sentEmpty := ReadPaginatedWithFilter(c, table, Some(map[]), page, pageSize);
  }

  /** Calls that leave arguments out: with every default, either helper
      serves page 1 of the unfiltered table, 10 rows per page; with only
      `page_size` given, page 1 of at most that many rows; with only
      `filters` given, page 1 of 10 rows that satisfy the filters. */
  method DefaultArguments(c: Client, table: string, filters: map<Column, Arg>)
    returns (plain: Outcome, withFilterDefaults: Outcome, fiveRows: Outcome, filtered: Outcome)
    requires Accepts(c, table, filters.Keys)
    ensures plain == withFilterDefaults == Expected(c, table, map[], 1, IntSize(10))
    ensures plain.Ok? && plain.page.metadata.page == 1 && plain.page.metadata.pageSize == 10
    ensures |plain.page.data| <= 10 && plain.page.metadata.totalCount == |c.tables[table].rows|
    ensures fiveRows.Ok? && fiveRows.page.metadata.page == 1 && fiveRows.page.metadata.pageSize == 5
    ensures |fiveRows.page.data| <= 5
    ensures filtered.Ok? && filtered.page.metadata.page == 1 && filtered.page.metadata.pageSize == 10
    ensures |filtered.page.data| <= 10
    ensures forall r :: r in filtered.page.data ==> r in c.tables[table].rows && Satisfies(filters, r)
  {
    var sent;
    plain, sent := ReadPaginated(c, table);
    withFilterDefaults, sent := ReadPaginatedWithFilter(c, table);
    fiveRows, sent := ReadPaginated(c, table, pageSize := IntSize(5));
    filtered, sent := ReadPaginatedWithFilter(c, table, filters := Some(filters));
    FirstPageOf(c, table, map[], 10);
    FirstPageOf(c, table, map[], 5);
    FirstPageOf(c, table, filters, 10);
    MatchingNoFilters(c.tables[table].rows);
  }

  /** Page 1 of an accepted query is served as page 1 and holds at most
      `size` rows. */
  lemma FirstPageOf(c: Client, table: string, filters: map<Column, Arg>, size: int)
    requires size >= 1 && Accepts(c, table, filters.Keys)
    ensures Expected(c, table, filters, 1, IntSize(size)).Ok?
    ensures Expected(c, table, filters, 1, IntSize(size)).page.metadata.page == 1
    ensures Expected(c, table, filters, 1, IntSize(size)).page.metadata.pageSize == size
    ensures |Expected(c, table, filters, 1, IntSize(size)).page.data| <= size
  {
    var m := Matching(c.tables[table].rows, filters);
    PageWindow(m, 1, size);
    if |m| > 0 {
      ServedPageInRange(m, 1, size);
    }
  }
}
