/** What one page request returns for a given, already filtered, row
    sequence: the reference definition `Paginate` and the properties of the
    pages it describes. */
module Pagination {
  import opened DataSource
  import opened PageMath

  /** The `metadata` dictionary of a result. */
  datatype Metadata = Metadata(totalCount: nat, page: int, pageSize: int, totalPages: nat, hasMore: bool)

  /** A successful result: the rows of the served page and its metadata. */
  datatype Page = Page(data: seq<Row>, metadata: Metadata)

  /** The page actually served for a request when there are `totalPages`
      pages: below 1 goes to the first page, above the last to the last. */
  function ServedPage(requested: int, totalPages: nat): (p: int)
    ensures totalPages >= 1 ==> 1 <= p <= totalPages
    ensures 1 <= requested <= totalPages ==> p == requested
    ensures totalPages >= 1 && requested < 1 ==> p == 1
    ensures requested > totalPages ==> p == totalPages
  {
    if ClampUp(requested) > totalPages then totalPages else ClampUp(requested)
  }

  /** Page `requested` of `rows`, `size` rows per page. No rows gives an
      empty page with zero pages; otherwise the served page is clamped into
      1..totalPages and holds the rows from its offset up to `size` of them. */
  function Paginate(rows: seq<Row>, requested: int, size: int): Page
    requires size >= 1
  {
    if |rows| == 0 then
      Page([], Metadata(0, ClampUp(requested), size, 0, false))
    else
      var total := TotalPages(|rows|, size);
      var p := ServedPage(requested, total);
      TotalPagesBounds(|rows|, size);
      OffsetInside(|rows|, size, p);
      var start := Offset(p, size);
      var end := if start + size < |rows| then start + size else |rows|;
      Page(rows[start..end], Metadata(|rows|, p, size, total, p < total))
  }

  /** An empty row sequence gives no data, zero counts, no further page, and
      echoes the clamped page number and the page size. */
  lemma EmptyPage(rows: seq<Row>, requested: int, size: int)
    requires size >= 1 && |rows| == 0
    ensures Paginate(rows, requested, size).data == []
    ensures Paginate(rows, requested, size).metadata ==
      Metadata(0, if requested < 1 then 1 else requested, size, 0, false)
  {
  }

  /** With rows present, the served page lies in 1..totalPages: a page below
      1 becomes 1, a page above the last becomes the last, any other page is
      served as asked. The count and page size are reported as they are. */
  lemma ServedPageInRange(rows: seq<Row>, requested: int, size: int)
    requires size >= 1 && |rows| > 0
    ensures var m := Paginate(rows, requested, size).metadata;
      m.totalCount == |rows| && m.pageSize == size &&
      m.totalPages >= 1 && 1 <= m.page <= m.totalPages &&
      (requested < 1 ==> m.page == 1) &&
      (requested > m.totalPages ==> m.page == m.totalPages) &&
      (1 <= requested <= m.totalPages ==> m.page == requested)
  {
    TotalPagesBounds(|rows|, size);
  }

  /** The data of a page is the contiguous run of rows starting at the
      page's offset: `size` rows on every page but the last, between 1 and
      `size` rows on the last, none when there are no rows. */
  lemma PageWindow(rows: seq<Row>, requested: int, size: int)
    requires size >= 1
    ensures var pg := Paginate(rows, requested, size);
      |pg.data| <= size &&
      (|rows| > 0 ==> 0 <= Offset(pg.metadata.page, size) &&
                      Offset(pg.metadata.page, size) + |pg.data| <= |rows| &&
                      pg.data == rows[Offset(pg.metadata.page, size) .. Offset(pg.metadata.page, size) + |pg.data|] &&
                      |pg.data| >= 1 &&
                      (pg.metadata.page < pg.metadata.totalPages ==> |pg.data| == size))
  {
    if |rows| > 0 {
      TotalPagesBounds(|rows|, size);
      var p := Paginate(rows, requested, size).metadata.page;
      OffsetInside(|rows|, size, p);
    }
  }

  /** `hasMore` holds exactly when rows remain after the served page, which
      is exactly when the served page is not the last. */
  lemma HasMoreMeansRowsRemain(rows: seq<Row>, requested: int, size: int)
    requires size >= 1
    ensures var pg := Paginate(rows, requested, size);
      pg.metadata.hasMore <==> pg.metadata.page < pg.metadata.totalPages
    ensures var pg := Paginate(rows, requested, size);
      pg.metadata.hasMore <==> (|rows| > 0 && Offset(pg.metadata.page, size) + |pg.data| < |rows|)
  {
    if |rows| > 0 {
      TotalPagesBounds(|rows|, size);
      var p := Paginate(rows, requested, size).metadata.page;
      OffsetInside(|rows|, size, p);
    }
  }

  /** The data of pages 1..k, one after another. */
  function Pages(rows: seq<Row>, size: int, k: nat): seq<Row>
    requires size >= 1
  {
    if k == 0 then [] else Pages(rows, size, k - 1) + Paginate(rows, k, size).data
  }

  /** For 1 <= k <= totalPages, page k is served as asked and holds the
      rows from (k-1)*size up to k*size, or to the end on the last page. */
  lemma PageK(rows: seq<Row>, size: int, k: int)
    requires size >= 1 && 1 <= k <= TotalPages(|rows|, size)
    ensures Paginate(rows, k, size).metadata.page == k
    ensures 0 <= (k - 1) * size < |rows|
    ensures k * size == (k - 1) * size + size
    ensures Paginate(rows, k, size).data ==
      rows[(k - 1) * size .. if k * size < |rows| then k * size else |rows|]
  {
    OffsetInside(|rows|, size, k);
  }

  /** Reading pages 1..k in turn yields the first k*size rows (all of them
      once k reaches the page count). */
  lemma {:induction false} PagesPrefix(rows: seq<Row>, size: int, k: nat)
    requires size >= 1 && k <= TotalPages(|rows|, size)
    ensures Pages(rows, size, k) == rows[..if k * size < |rows| then k * size else |rows|]
  {
    if k > 0 {
      PagesPrefix(rows, size, k - 1);
      PageK(rows, size, k);
      var start := (k - 1) * size;
      var end := if k * size < |rows| then k * size else |rows|;
      assert rows[..start] + rows[start..end] == rows[..end];
    }
  }

  /** Pages 1..totalPages, read in turn, give back every row exactly once
      and in order. */
  lemma PagesCoverAll(rows: seq<Row>, size: int)
    requires size >= 1
    ensures Pages(rows, size, TotalPages(|rows|, size)) == rows
  {
    TotalPagesBounds(|rows|, size);
    PagesPrefix(rows, size, TotalPages(|rows|, size));
    assert rows[..|rows|] == rows;
  }

  /** Row `i` is served on page `i / size + 1`, at position `i % size`. */
  lemma RowOnItsPage(rows: seq<Row>, size: int, i: int)
    requires size >= 1 && 0 <= i < |rows|
    ensures var pg := Paginate(rows, i / size + 1, size);
      pg.metadata.page == i / size + 1 && i % size < |pg.data| && pg.data[i % size] == rows[i]
  {
    var p := i / size + 1;
    TotalPagesBounds(|rows|, size);
    var t := TotalPages(|rows|, size) as int;
    assert i == (p - 1) * size + i % size;
    assert p <= t by {
      if p > t {
        MulMonotone(t, p - 1, size);
      }
    }
    OffsetInside(|rows|, size, p);
    var pg := Paginate(rows, p, size);
    assert pg.metadata.page == p;
    assert Offset(p, size) + i % size == i;
  }

  /** On id-ordered rows, every row of an earlier page has a smaller id
      than every row of a later page; so distinct pages share no row. */
  lemma EarlierPagesSmallerIds(rows: seq<Row>, size: int, p: int, q: int)
    requires size >= 1 && IdAscending(rows)
    requires 1 <= p < q <= TotalPages(|rows|, size)
    ensures forall x, y :: x in Paginate(rows, p, size).data && y in Paginate(rows, q, size).data ==> x.id < y.id
  {
    OffsetInside(|rows|, size, p);
    OffsetInside(|rows|, size, q);
    MulMonotone(p, q - 1, size);
    var a := Paginate(rows, p, size).data;
    var b := Paginate(rows, q, size).data;
    PageWindow(rows, p, size);
    PageWindow(rows, q, size);
    var sa, sb := Offset(p, size), Offset(q, size);
    assert Paginate(rows, p, size).metadata.page == p;
    assert Paginate(rows, q, size).metadata.page == q;
    assert sa + |a| <= sb;
    forall x, y | x in a && y in b ensures x.id < y.id {
      var i :| 0 <= i < |a| && a[i] == x;
      var j :| 0 <= j < |b| && b[j] == y;
      assert x == rows[sa + i] && y == rows[sb + j];
    }
  }
}
