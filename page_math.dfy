/** The integer arithmetic of the pagination helper: the page clamp, the
    page count (a ceiling division) and the row offset of a page. Python's
    `//` floors; every division here has a non-negative dividend and a
    positive divisor, where flooring and Dafny's Euclidean `/` agree. */
module PageMath {

  /** `max(1, page)`: a page number below 1 is served as page 1. */
  function ClampUp(page: int): (p: int)
    ensures p >= 1
    ensures page >= 1 ==> p == page
    ensures page < 1 ==> p == 1
  {
    if page < 1 then 1 else page
  }

  /** `(total_count + page_size - 1) // page_size`. */
  function TotalPages(count: nat, size: int): nat
    requires size >= 1
  {
    (count + size - 1) / size
  }

  /** The index of the first row of `page`: `(page - 1) * page_size`. */
  function Offset(page: int, size: int): int
  {
    (page - 1) * size
  }

  lemma MulMonotone(a: int, b: int, size: int)
    requires a <= b && size >= 0
    ensures a * size <= b * size
  {
    assert b * size - a * size == (b - a) * size;
  }

  /** TotalPages is the ceiling of count / size: the pages before the last
      one hold fewer than `count` rows, and all pages together hold at
      least `count`. No rows means no pages. */
  lemma TotalPagesBounds(count: nat, size: int)
    requires size >= 1
    ensures count == 0 <==> TotalPages(count, size) == 0
    ensures count > 0 ==> (TotalPages(count, size) - 1) * size < count <= TotalPages(count, size) * size
  {
    var n := count + size - 1;
    var q := n / size;
    var m := n % size;
    assert n == q * size + m && 0 <= m < size;
    assert q * size == count + size - 1 - m;
    assert (q - 1) * size == q * size - size;
    if count == 0 {
      assert q == 0;
    } else {
      assert q >= 1 by {
        if q <= 0 {
          MulMonotone(q, 0, size);
        }
      }
    }
  }

  /** Any `k` with `(k-1)*size < count <= k*size` is the page count: the
      ceiling is the unique such number. */
  lemma TotalPagesUnique(count: nat, size: int, k: int)
    requires size >= 1 && count > 0
    requires (k - 1) * size < count <= k * size
    ensures k == TotalPages(count, size)
  {
    TotalPagesBounds(count, size);
    var t := TotalPages(count, size) as int;
    if k < t {
      MulMonotone(k, t - 1, size);
    } else if k > t {
      MulMonotone(t, k - 1, size);
    }
  }

  /** The offset of a page between 1 and the page count lies inside the
      rows: page `p` starts at a row that exists. */
  lemma OffsetInside(count: nat, size: int, p: int)
    requires size >= 1
    requires 1 <= p <= TotalPages(count, size)
    ensures 0 <= Offset(p, size) < count
    ensures p < TotalPages(count, size) ==> Offset(p, size) + size < count
    ensures p == TotalPages(count, size) ==> count <= Offset(p, size) + size
  {
    TotalPagesBounds(count, size);
    var t := TotalPages(count, size) as int;
    MulMonotone(0, p - 1, size);
    MulMonotone(p - 1, t - 1, size);
    if p < t {
      MulMonotone(p, t - 1, size);
      assert Offset(p, size) + size == p * size;
    }
  }
}
