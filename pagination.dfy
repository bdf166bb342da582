/** Pagination query parameters and paginated responses
    (apps/api/src/schemas/common.py), with the page count that the list
    endpoints compute (apps/api/src/routers/projects.py). */
module Pagination {

  const DefaultPage: int := 1
  const DefaultPageSize: int := 20
  const MaxPageSize: int := 100

  /** `PaginationParams`: `page >= 1` and `1 <= page_size <= 100`. */
  datatype PaginationParams = PaginationParams(page: int, pageSize: int) {
    predicate Valid() {
      page >= 1 && 1 <= pageSize <= MaxPageSize
    }

    /** The `offset` property: rows skipped before this page. */
    function Offset(): (r: int)
      requires Valid()
      ensures r >= 0
      ensures r % pageSize == 0 && r / pageSize == page - 1
    {
      MultipleOf(page - 1, pageSize);
      (page - 1) * pageSize
    }

    /** The `limit` property, an alias of `page_size`. */
    function Limit(): (r: int)
      requires Valid()
      ensures 1 <= r <= MaxPageSize
    {
      pageSize
    }
  }

  /** `k * n` is a multiple of `n` with quotient `k`. */
  lemma MultipleOf(k: int, n: int)
    requires k >= 0 && n >= 1
    ensures k * n >= 0 && (k * n) % n == 0 && (k * n) / n == k
  {
    var q, r := (k * n) / n, (k * n) % n;
    assert (k - q) * n == r;
    if k != q {
      MulMonotone(1, if k - q >= 1 then k - q else q - k, n);
    }
  }

  lemma MulMonotone(a: int, b: int, n: int)
    requires a <= b && n >= 1
    ensures a * n <= b * n
  {
    assert b * n - a * n == (b - a) * n;
  }

  /** The parameters a request without query string gets. */
  function DefaultParams(): (p: PaginationParams)
    ensures p.Valid()
    ensures p.Offset() == 0 && p.Limit() == 20
  {
    PaginationParams(DefaultPage, DefaultPageSize)
  }

  /** Consecutive pages tile the rows: page `p + 1` starts where page `p` ends. */
  lemma PagesTile(p: PaginationParams)
    requires p.Valid()
    ensures p.(page := p.page + 1).Valid()
    ensures p.(page := p.page + 1).Offset() == p.Offset() + p.Limit()
  {
  }

  /** Row `i` is shown on exactly one page: the one whose window holds it. */
  lemma {:induction false} RowOnUniquePage(i: int, pageSize: int)
    requires i >= 0 && 1 <= pageSize <= MaxPageSize
    ensures var p := PaginationParams(i / pageSize + 1, pageSize);
      p.Valid() && p.Offset() <= i < p.Offset() + p.Limit()
    ensures forall page :: page >= 1 && (page - 1) * pageSize <= i < page * pageSize ==> page == i / pageSize + 1
  {
    var q := i / pageSize;
    MultipleOf(q, pageSize);
    assert q * pageSize <= i < (q + 1) * pageSize;
    forall page | page >= 1 && (page - 1) * pageSize <= i < page * pageSize
      ensures page == q + 1
    {
      if page <= q {
        MulMonotone(page, q, pageSize);
      } else if page >= q + 2 {
        MulMonotone(q + 1, page - 1, pageSize);
      }
    }
  }

  /** `(total + page_size - 1) // page_size`; Python's `//` floors, and the
      numerator is non-negative here, so it agrees with Dafny's `/`. */
  function TotalPages(total: int, pageSize: int): (pages: int)
    requires total >= 0 && pageSize >= 1
  {
    (total + pageSize - 1) / pageSize
  }

  /** The page count is the ceiling of `total / page_size`: just enough pages
      to hold every row, and none when there are no rows. */
  lemma {:induction false} TotalPagesIsCeiling(total: int, pageSize: int)
    requires total >= 0 && pageSize >= 1
    ensures TotalPages(total, pageSize) >= 0
    ensures total == 0 ==> TotalPages(total, pageSize) == 0
    ensures total > 0 ==>
      (TotalPages(total, pageSize) - 1) * pageSize < total <= TotalPages(total, pageSize) * pageSize
  {
    var n := total + pageSize - 1;
    var q := n / pageSize;
    var r := n % pageSize;
    assert n == q * pageSize + r && 0 <= r < pageSize;
    if total == 0 {
      assert q == 0;
    } else {
      assert (q - 1) * pageSize == q * pageSize - pageSize;
      assert q * pageSize == total + pageSize - 1 - r;
    }
  }

  /** `PaginatedResponse`: the bounds every response satisfies. */
  datatype PaginatedResponse<T> = PaginatedResponse(items: seq<T>, total: int, page: int, pageSize: int, totalPages: int) {
    predicate Valid() {
      total >= 0 && page >= 1 && pageSize >= 1 && totalPages >= 0
    }
  }

  /** The response a list endpoint builds from its parameters, the row count
      and the rows of the page. */
  function MakePage<T>(items: seq<T>, total: int, params: PaginationParams): (r: PaginatedResponse<T>)
    requires params.Valid() && total >= 0
    ensures r.Valid()
    ensures r.items == items && r.total == total
    ensures r.page == params.page && r.pageSize == params.pageSize
    ensures r.total > 0 ==> (r.totalPages - 1) * r.pageSize < r.total <= r.totalPages * r.pageSize
    ensures r.total == 0 ==> r.totalPages == 0
  {
    TotalPagesIsCeiling(total, params.pageSize);
    PaginatedResponse(items, total, params.page, params.pageSize, TotalPages(total, params.pageSize))
  }
}
