/** Pagination parameters of `GET /api/queue` (backend/main.go:32-36, 161-168, 230). */
module Pagination {

  const DefaultPageSize: int := 10
  const MaxPageSize: int := 100

  /** `page` and `pageSize` as bound from the query string. */
  datatype Params = Params(page: int, pageSize: int)

  predicate Normalized(p: Params) {
    p.page >= 1 && 1 <= p.pageSize <= MaxPageSize
  }

  /** Out-of-range values are replaced: a page below 1 by 1, a size outside 1..100 by 10. */
  function Normalize(page: int, pageSize: int): (p: Params)
    ensures Normalized(p)
    ensures p.page == page <==> page >= 1
    ensures page < 1 ==> p.page == 1
    ensures p.pageSize == pageSize <==> 1 <= pageSize <= MaxPageSize
    ensures !(1 <= pageSize <= MaxPageSize) ==> p.pageSize == DefaultPageSize
  {
    Params(
      if page < 1 then 1 else page,
      if pageSize < 1 || pageSize > MaxPageSize then DefaultPageSize else pageSize)
  }

  /** Normalizing twice changes nothing more. */
  lemma NormalizeIsIdempotent(page: int, pageSize: int)
    ensures var p := Normalize(page, pageSize); Normalize(p.page, p.pageSize) == p
  {
  }

  lemma CeilingBounds(total: nat, pageSize: int, q: int)
    requires pageSize >= 1
    requires q == (total + pageSize - 1) / pageSize
    ensures q >= 0
    ensures q * pageSize >= total
    ensures total > 0 ==> (q - 1) * pageSize < total
    ensures total == 0 ==> q == 0
  {
    var n := total + pageSize - 1;
    var r := n % pageSize;
    assert n == q * pageSize + r && 0 <= r < pageSize;
    assert (q - 1) * pageSize == q * pageSize - pageSize;
  }

  /** `pages`: the number of pages of `pageSize` rows needed to hold `total` rows, that is
      the ceiling of `total / pageSize`. */
  function PageCount(total: nat, pageSize: int): (pages: nat)
    requires pageSize >= 1
    ensures pages * pageSize >= total
    ensures total > 0 ==> (pages - 1) * pageSize < total
    ensures total == 0 ==> pages == 0
  {
    CeilingBounds(total, pageSize, (total + pageSize - 1) / pageSize);
    (total + pageSize - 1) / pageSize
  }

  /** The number of rows on the pages before `p.page`. */
  function Offset(p: Params): (o: nat)
    requires Normalized(p)
  {
    (p.page - 1) * p.pageSize
  }

  /** Rows of page `p.page` start at `Offset(p)`: the pages before it are full. */
  lemma OffsetCountsEarlierPages(p: Params)
    requires Normalized(p)
    ensures Offset(p) / p.pageSize == p.page - 1 && Offset(p) % p.pageSize == 0
  {
    var k, d := p.page - 1, p.pageSize;
    var q, r := (k * d) / d, (k * d) % d;
    DivModSplit(k * d, d);
    assert (q - k) * d == -r by {
      assert q * d + r == k * d;
    }
    if q > k {
      MulMonotone(q - k, 1, d);
    } else if q < k {
      MulMonotone(k - q, 1, d);
    }
  }

  lemma DivModSplit(i: nat, pageSize: int)
    requires pageSize >= 1
    ensures (i / pageSize) * pageSize + i % pageSize == i
    ensures 0 <= i % pageSize < pageSize
    ensures i / pageSize >= 0
  {
  }

  lemma MulMonotone(a: int, b: int, c: int)
    requires a >= b >= 0 && c >= 1
    ensures a * c >= b * c
  {
    assert a * c - b * c == (a - b) * c;
  }

  /** A page past the last one starts at or after the last row. */
  lemma OffsetPastLastPage(p: Params, total: nat)
    requires Normalized(p)
    requires p.page > PageCount(total, p.pageSize)
    ensures Offset(p) >= total
  {
    MulMonotone(p.page - 1, PageCount(total, p.pageSize), p.pageSize);
  }

  /** Row `i` falls on page `i / pageSize + 1`, at position `i % pageSize`, within `pages`. */
  lemma PageOfRow(i: nat, total: nat, pageSize: int)
    requires 1 <= pageSize <= MaxPageSize && i < total
    ensures Normalized(Params(i / pageSize + 1, pageSize))
    ensures Offset(Params(i / pageSize + 1, pageSize)) + i % pageSize == i
    ensures i / pageSize + 1 <= PageCount(total, pageSize)
  {
    DivModSplit(i, pageSize);
    var pages := PageCount(total, pageSize);
    if i / pageSize + 1 > pages {
      MulMonotone(i / pageSize, pages, pageSize);
    }
  }

  const TwoTo63: int := 0x8000_0000_0000_0000
  const TwoTo64: int := 0x1_0000_0000_0000_0000

  /** The range of Go's `int` on a 64-bit platform. */
  predicate IsInt64(x: int) {
    -TwoTo63 <= x < TwoTo63
  }

  /** Two's-complement wrap-around of a 64-bit signed integer. */
  function WrapInt64(x: int): (r: int)
    ensures IsInt64(r)
    ensures (x - r) % TwoTo64 == 0
    ensures IsInt64(x) ==> r == x
  {
    (x + TwoTo63) % TwoTo64 - TwoTo63
  }

  /** The offset exactly as the handler computes it, in 64-bit `int` arithmetic. */
  function OffsetAsWritten(p: Params): (o: int)
    requires Normalized(p) && IsInt64(p.page)
    ensures IsInt64(o)
    ensures IsInt64(Offset(p)) ==> o == Offset(p)
  {
    WrapInt64((p.page - 1) * p.pageSize)
  }

  /** Page 2^62 + 1 with 4 rows per page: the product is 2^64, which wraps to offset 0. */
  lemma OffsetWrapsOnHugePage()
    ensures Normalized(Params(0x4000_0000_0000_0001, 4))
    ensures OffsetAsWritten(Params(0x4000_0000_0000_0001, 4)) == 0
    ensures Offset(Params(0x4000_0000_0000_0001, 4)) == TwoTo64
  {
  }
}
