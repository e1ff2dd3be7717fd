# Paginated, filtered reads over a REST-exposed Postgres table

This project models the pagination helper of a small Supabase/PostgREST
tool set: `read_paginated` and `read_paginated_with_filter` in `tools.py`.
Given a table, an optional column-to-value filter mapping, a page number
and a page size, each helper

1. rejects a page size that is not an `int` or is below 1 (`ValueError`,
   raised before the `try`, so never turned into `RuntimeError`);
2. clamps the page up to 1 (`max(1, page)`);
3. counts the rows by fetching the `id` column of every matching row and
   taking the length of the answer;
4. returns at once, with empty data and zero pages, when that count is 0;
5. computes `total_pages = (total_count + page_size - 1) // page_size`;
6. clamps the page down to `total_pages` and recomputes the offset;
7. reads the inclusive row range `offset .. offset + page_size - 1` in `id`
   order;
8. reports `total_count`, the served `page`, `page_size`, `total_pages` and
   `has_more = page < total_pages`.

The filtered helper turns each filter into an `in` condition when the value
is a list or tuple and an `eq` condition otherwise, and chains the same
conditions onto both the count query and the data query.

Files and modules:

- `data_source.dfy`, module `DataSource`: the server side. It defines rows
  with a primary key `id`, and tables whose rows are stored in `id` order, so
  `.order("id")` is the stored order. It defines the connection (`Client`:
  the tables and an `online` flag) and a query descriptor (`Query`: table,
  conditions, optional inclusive range) standing in for the chained query
  builder. `Execute` gives the server's answer: it fails when the server is
  offline, the table is missing or a condition names an unknown column.
- `filters.dfy`, module `Filters`: the filter values (`Arg`), their meaning
  (`Satisfies`, `Matching`), the loop that chains conditions onto a query
  (`ApplyFilters`), and the proof that any two condition lists built from
  the same mapping select the same rows.
- `page_math.dfy`, module `PageMath`: the page clamp, the ceiling division
  and the offset, with their bounds.
- `pagination.dfy`, module `Pagination`: `Paginate`, the reference
  definition of the page served for an already filtered row sequence. The
  lemmas about it cover clamping, window size, `has_more`, and how the pages
  partition the rows.
- `tools.dfy`, module `Tools`: the two helpers as methods that reassign
  their locals the way the source does. Each returns an `Outcome`
  (`InvalidArgument` for `ValueError`, `OperationFailed` for the
  `RuntimeError` wrapper, `Ok(page)` for the result dictionary) and the log
  of queries it sent. Each is proved equal to `Expected`, the
  specification of a call. The lemmas about `Expected` state filter
  soundness and completeness and the worked scenarios.

Where the sources disagree, the model follows the code:

- `test_tools.py:100-101` expects `ValueError` for `page=0`. The code clamps
  the page to 1 (`tools.py:40`, `tools.py:122`), and so does
  `test_user_management.py:127-129`. The model clamps
  (`Tools.PageBelowOneIsFirstPage`).
- The count is not a server-computed exact count. The code counts on the
  client, as the length of an `id`-only select with the same filters
  (`tools.py:46-47`, `tools.py:149-150`). The model does the same.
- Python's `isinstance(x, int)` also accepts `True` and `False`. They count
  as the integers 1 and 0 here (`SizeArg.IntSize`).
- Python's `//` floors. Every division here has a non-negative dividend
  and a positive divisor, so flooring and Dafny's `/` agree.

## Model

| member | source | states |
|---|---|---|
| `DataSource.Execute` | tools.py:70-76 | a query succeeds exactly when the server is online, the table exists and every condition column is known; its rows are rows of the table that match every condition, in ascending `id` order, and without a range every matching row is returned |
| `DataSource.Clip` | tools.py:74 | the range `first..last` is inclusive: for an in-bounds start it yields the rows from `first` up to `last + 1` or the end of the rows, whichever comes first |
| `DataSource.Keep` | tools.py:141-150 | filtering keeps exactly the elements that satisfy the predicate and never adds rows |
| `DataSource.KeepPreservesOrder` | tools.py:173-177 | filtering rows that are in `id` order leaves them in `id` order |
| `PageMath.ClampUp` | tools.py:40 | the clamped page is at least 1, equal to the request when the request is at least 1, and 1 otherwise |
| `PageMath.TotalPagesBounds` | tools.py:62 | the page count is 0 exactly when there are no rows; otherwise `(total_pages-1)*page_size < total_count <= total_pages*page_size` |
| `PageMath.TotalPagesUnique` | tools.py:62 | any `k` with `(k-1)*page_size < total_count <= k*page_size` equals the computed page count, so it is the ceiling of `total_count / page_size` |
| `PageMath.TotalPages` | tools.py:62 | reference definition of `(total_count + page_size - 1) // page_size`, the same expression as tools.py:165; its properties are in the rows `PageMath.TotalPagesBounds` and `PageMath.TotalPagesUnique` |
| `PageMath.Offset` | tools.py:43 | reference definition of `(page - 1) * page_size`, as at tools.py:67, 138 and 170; its properties are in the rows `PageMath.OffsetInside`, `Pagination.PageWindow` and `Pagination.RowOnItsPage` |
| `PageMath.OffsetInside` | tools.py:64-67 | for a page in `1..total_pages` the offset is a row that exists; a page before the last is full, and the last page reaches the final row |
| `Filters.ToPred` | tools.py:130-135 | a list/tuple value becomes an `in` condition on its items; any other value becomes an `eq` condition on that value |
| `Filters.MatchingNoFilters` | tools.py:128 | with no filters every row matches, in the original order |
| `Filters.EncodesMeaning` | tools.py:128-135 | conditions built from a filter mapping hold of a row exactly when the row satisfies every filter, in whatever order the columns were visited |
| `Filters.EncodesColumns` | tools.py:141-147 | conditions built from a filter mapping name exactly the mapping's columns |
| `Filters.SameFiltersSameRows` | tools.py:141-150 | two condition lists built from the same mapping, such as the count query's and the data query's, select the same rows of any table, namely the rows that satisfy the filters |
| `Filters.EncodedQueryAnswer` | tools.py:149-150 | a filtered count query is answered with exactly the matching rows, or fails exactly when the server rejects the table or a filter column |
| `Filters.ApplyFilters` | tools.py:129-135 | the loop chains exactly one condition per filter column, `in` for a list/tuple and `eq` otherwise, and changes nothing else of the query |
| `Pagination.ServedPage` | tools.py:64-66 | the page served after `max(1, page)` and the clamp to the last page (also tools.py:40, 122, 167-169): it lies in `1..total_pages` when there are pages, equals an in-range request, is 1 for a request below 1, and is the last page for a request past it |
| `Pagination.Paginate` | tools.py:49-87 | reference definition of the page served for an already filtered row sequence (also tools.py:152-189); its properties are in the rows `Pagination.EmptyPage`, `Pagination.ServedPageInRange`, `Pagination.PageWindow`, `Pagination.HasMoreMeansRowsRemain`, `Pagination.PageK`, `Pagination.PagesCoverAll`, `Pagination.RowOnItsPage` and `Pagination.EarlierPagesSmallerIds` |
| `Pagination.EmptyPage` | tools.py:49-59 | with no rows the page is empty, `total_count` and `total_pages` are 0, `has_more` is false, and the echoed page is `max(1, page)` together with `page_size` |
| `Pagination.ServedPageInRange` | tools.py:64-66 | with rows present the served page lies in `1..total_pages`: below 1 becomes 1, above the last becomes the last, anything else is served as asked; the count and page size are reported unchanged |
| `Pagination.PageWindow` | tools.py:67-76 | the data is the contiguous run of rows starting at the served page's offset; it holds at most `page_size` rows, at least one when rows exist, and exactly `page_size` on every page but the last |
| `Pagination.HasMoreMeansRowsRemain` | tools.py:85 | `has_more` holds exactly when the served page is not the last, and exactly when rows remain after the served page |
| `Pagination.PageK` | tools.py:67-74 | page `k` in `1..total_pages` is served as asked and holds the rows from `(k-1)*page_size` to `k*page_size` or to the end |
| `Pagination.PagesPrefix` | tools.py:62-76 | reading pages `1..k` in turn yields the first `k*page_size` rows, or all rows once those run out |
| `Pagination.PagesCoverAll` | tools.py:62-76 | pages `1..total_pages`, concatenated, are the whole row sequence: every row is served once, in order |
| `Pagination.RowOnItsPage` | tools.py:43 | row `i` is served on page `i // page_size + 1` at position `i % page_size` |
| `Pagination.EarlierPagesSmallerIds` | tools.py:70-76 | on `id`-ordered rows every row of an earlier page has a smaller `id` than every row of a later page, so distinct pages share no row |
| `Tools.ValidPageSize` | tools.py:35 | reference definition of the page-size check `isinstance(page_size, int) and page_size >= 1` (also tools.py:117); its use is stated by the `InvalidArgument` clauses in the rows `Tools.ReadPaginated` and `Tools.ReadPaginatedWithFilter` |
| `Tools.FilterMap` | tools.py:128 | reference definition of `if filters:` (also tools.py:142): `None` and `{}` apply no filter; stated in the rows `Tools.FilteredQuery` and `Tools.UnfilteredCallsAgree` |
| `Tools.Expected` | tools.py:116-189 | reference definition of what a whole call returns: `InvalidArgument` for a bad page size, `OperationFailed` when the server rejects the query, otherwise `Paginate` of the matching rows; the methods are proved equal to it (rows `Tools.ReadPaginated`, `Tools.ReadPaginatedWithFilter`), and its properties are in the rows `Tools.SuccessfulCallIsFiltered`, `Tools.MatchingRowIsServed`, `Tools.SingleFilterMeaning`, `Tools.PageBelowOneIsFirstPage`, `Tools.NoMatchingRows` and `Tools.TwentyThreeRows` |
| `Tools.ReadPaginated` | tools.py:7-92 | a non-int or sub-1 page size gives `InvalidArgument` before any query; otherwise the count query is sent, failure gives `OperationFailed`, and the range read is sent only when rows exist; the result is the requested page of the whole table and `total_count` is the table's row count; `page` and `page_size` default to 1 and 10 as declared at tools.py:10-11 |
| `Tools.ReadPaginatedWithFilter` | tools.py:94-194 | as `read_paginated`, but both queries carry conditions built from the same filters; it fails exactly when the server rejects the table or a filter column; every returned row is a table row that satisfies every filter; the result is the requested page of the matching rows; `filters`, `page` and `page_size` default to `None`, 1 and 10 as declared at tools.py:97-99 |
| `Tools.FilteredQuery` | tools.py:124-135 | the query built for a table carries one condition per filter, or none when `filters` is `None` or `{}`, and no range |
| `Tools.ServePage` | tools.py:165-189 | once rows exist: computes the page count, clamps the page to the last one with the offset recomputed, and reads the inclusive range of that page; the result equals the reference page |
| `Tools.PageMembers` | tools.py:173-181 | every row of a served page is one of the rows being paginated |
| `Tools.SuccessfulCallIsFiltered` | tools.py:141-181 | on success every returned row is a table row satisfying every filter, the rows are in ascending `id` order, and `total_count` is the number of matching rows rather than the table size |
| `Tools.MatchingRowIsServed` | tools.py:149-177 | every table row that satisfies the filters is returned on some page `>= 1` |
| `Tools.SingleFilterMeaning` | test_tools.py:77-91 | with one filter, every returned row has a non-NULL value in that column: equal to the value for a scalar filter, one of the items for a list filter |
| `Tools.PageBelowOneIsFirstPage` | tools.py:122 | a page below 1 is not an error: with a valid page size and an accepted query it is served as page 1 |
| `Tools.NoMatchingRows` | tools.py:152-162 | when no row matches, the result is empty data with `total_count = 0`, `total_pages = 0`, `has_more = false`, the clamped page and the page size |
| `Tools.TwentyThreeRows` | tools.py:165-187 | with 23 matching rows and page size 10: page 1 has 10 rows of 3 pages with more to come; page 3 has 3 rows and no more; page 5 gives the same result as page 3 |
| `Tools.UnfilteredCallsAgree` | tools.py:128-147 | the filtered helper with `None` or `{}` returns the same result as `read_paginated` and sends the same queries |
| `Tools.DefaultArguments` | tools.py:7-12 | with every argument left out (also tools.py:94-100), both helpers serve page 1 of the unfiltered table, 10 rows at most, with `total_count` the table's row count; with only `page_size=5`, page 1 of at most 5 rows; with only `filters`, page 1 of at most 10 rows, each a table row satisfying the filters (the calls of test_tools.py:38, 52 and 67-71) |
| `Tools.FirstPageOf` | tools.py:40 | page 1 of a query the server accepts succeeds, is served as page 1 with the requested page size, and holds at most that many rows |

## Left out

- The asynchronous PostgREST client, its chained builder and `.execute()`
  are replaced by the `Query` value and the `Execute` function.
- Exception messages: every client failure becomes `OperationFailed`, with
  no message text.
- Server failures are modelled only as the server being offline, a missing
  table, or a filter on an unknown column. Authentication, malformed values
  and other server errors are not modelled.
- The `select` projection is not modelled. The count query's `select("id")`
  matters only through the number of rows it returns. The data query's rows
  are returned whole.
- Concurrent writes between the count query and the range read are not
  modelled: both queries see the same store.
- Failures of the range read on its own are not modelled. In the source
  the range read carries the caller's `select` (tools.py:72, tools.py:125)
  while the count query selects only `id` (tools.py:46, tools.py:141), so a
  bad projection fails only when rows exist and gives an empty result when
  none match. The connection can also drop between the two requests. In the
  model the range read answers whenever the count query did, so the
  `OperationFailed` branch of `Tools.ServePage` is never taken, and the
  range read never starts past the last row.
- A server-side cap on the number of rows one select may return (PostgREST's
  `max-rows`) is not modelled. Such a cap would truncate the client-side
  count.
- Filter values are typed values compared exactly. A `None` filter value,
  nested lists and the server's string coercion of values are not modelled.
- `page` is an integer. Non-integer page arguments are not modelled.
- Python dict iteration order: `ApplyFilters` visits the columns in an
  arbitrary order. The conditions are a conjunction, and the proofs show that
  the order does not change which rows are selected.
- The setup scripts, the connection smoke test and the server behaviour
  exercised by the error-handling tests are not part of this model.
