/** components/Pagination.tsx: the page count, the Prev/Next guards, the `go` guard and the
    window of at most five page buttons with an ellipsis on either side when pages are
    hidden there. Rendering and the click handlers themselves are not modelled. */
module Pagination {
  import opened Wrappers

  function Min(a: int, b: int): int { if a <= b then a else b }

  function Max(a: int, b: int): int { if a >= b then a else b }

  /** `Math.ceil(a / b)` for a positive divisor (Dafny's `/` rounds down here). */
  function CeilDiv(a: int, b: int): int
    requires b > 0
  {
    -((-a) / b)
  }

  /** `Math.max(1, Math.ceil(total / pageSize))`. */
  function TotalPages(total: int, pageSize: int): (r: int)
    requires pageSize > 0
    ensures r >= 1
  {
    Max(1, CeilDiv(total, pageSize))
  }

  /** A positive multiple of `b` is at least `b`. */
  lemma MultipleAtLeast(k: int, b: int)
    requires b > 0
    ensures k >= 1 ==> k * b >= b
  {
  }

  /** `CeilDiv(a, b)` is the least number of `b`-sized parts that hold `a`. */
  lemma CeilDivBounds(a: int, b: int)
    requires b > 0
    ensures (CeilDiv(a, b) - 1) * b < a <= CeilDiv(a, b) * b
  {
    var q, m := (-a) / b, (-a) % b;
    assert -a == q * b + m && 0 <= m < b;
    var c := -q;
    assert c * b == -(q * b);
    assert (c - 1) * b == c * b - b;
  }

  /** There is always a page, a single one while the items fit on it, and otherwise exactly
      as many pages of `pageSize` as it takes to hold `total` items. */
  lemma TotalPagesHoldsTotal(total: int, pageSize: int)
    requires pageSize > 0
    ensures var r := TotalPages(total, pageSize);
      && r >= 1
      && (total <= pageSize ==> r == 1)
      && (total > 0 ==> (r - 1) * pageSize < total <= r * pageSize)
  {
    var c := CeilDiv(total, pageSize);
    CeilDivBounds(total, pageSize);
    MultipleAtLeast(c - 1, pageSize);
    MultipleAtLeast(c, pageSize);
  }

  /** `go(to)`: the page handed to `onPageChange`, if any. */
  function Go(to: int, totalPages: int): (r: Option<int>)
    ensures r.Some? <==> 1 <= to <= totalPages
    ensures r.Some? ==> r.value == to
  {
    if to < 1 || to > totalPages then None else Some(to)
  }

  /** The first page button shown. */
  function FirstShown(totalPages: int, page: int): int {
    Max(1, Min(page - 2, totalPages - 4))
  }

  /** The page buttons shown: `min(totalPages, 5)` consecutive pages from `FirstShown`. */
  function ShownPages(totalPages: int, page: int): (r: seq<int>)
    requires totalPages >= 1
    ensures |r| == Min(totalPages, 5)
    ensures forall k :: 0 < k < |r| ==> r[k] == r[k - 1] + 1
    ensures forall k :: 0 <= k < |r| ==> 1 <= r[k] <= totalPages
  {
    var first := FirstShown(totalPages, page);
    seq(Min(totalPages, 5), k => first + k)
  }

  /** The current page is among the shown pages whenever it exists, the first and last
      pages are shown exactly when the row starts or ends with them, and the row is centred
      on the current page as far as the ends allow: near the first page it starts at page 1,
      near the last it ends at the last page. */
  lemma ShownPagesProperties(totalPages: int, page: int)
    requires totalPages >= 1
    ensures var s := ShownPages(totalPages, page);
      && (1 <= page <= totalPages ==> page in s)
      && (1 in s <==> s[0] == 1)
      && (totalPages in s <==> s[|s| - 1] == totalPages)
      && (3 <= page <= totalPages - 2 ==> s == [page - 2, page - 1, page, page + 1, page + 2])
      && (page <= 2 ==> s[0] == 1)
      && (page >= totalPages - 1 ==> s[|s| - 1] == totalPages)
  {
    var s := ShownPages(totalPages, page);
    if 1 <= page <= totalPages {
      assert s[page - s[0]] == page;
    }
  }

  datatype PagerView = PagerView(
    totalPages: int,
    canPrev: bool,
    canNext: bool,
    pages: seq<int>,
    leadingGap: bool,   // the "1 …" before the page buttons
    trailingGap: bool)  // the "… totalPages" after them

  /** The `pagesToShow` computation, with its loop pushing the pages from `start` to `end`. */
  method PagesToShow(totalPages: int, page: int) returns (pages: seq<int>)
    requires totalPages >= 1
    ensures pages == ShownPages(totalPages, page)
  {
    pages := [];
    var max := Min(totalPages, 5);
    var start := Max(1, page - 2);
    var end := Min(totalPages, start + 4);
    if end - start + 1 < max {
      start := Max(1, end - 4);
    }
    assert start == FirstShown(totalPages, page) && end - start + 1 == max;
    for i := start to end + 1
      invariant |pages| == i - start
      invariant forall k :: 0 <= k < |pages| ==> pages[k] == start + k
    {
      pages := pages + [i];
    }
  }

  /** The component's state: the buttons are `ShownPages`, Prev is enabled exactly above
      page 1, Next exactly below the last page, and each ellipsis appears exactly when a
      page on its side is hidden. */
  method Paginate(total: int, page: int, pageSize: int) returns (v: PagerView)
    requires pageSize > 0
    ensures v.totalPages == TotalPages(total, pageSize)
    ensures v.pages == ShownPages(v.totalPages, page)
    ensures v.canPrev <==> page > 1
    ensures v.canNext <==> page < v.totalPages
    ensures v.leadingGap <==> 1 !in v.pages
    ensures v.trailingGap <==> v.totalPages !in v.pages
  {
    var totalPages := TotalPages(total, pageSize);
    var canPrev := page > 1;
    var canNext := page < totalPages;
    var pages := PagesToShow(totalPages, page);
    ShownPagesProperties(totalPages, page);
    v := PagerView(totalPages, canPrev, canNext, pages,
                   pages[0] > 1, pages[|pages| - 1] < totalPages);
  }

  /** On an existing page, an enabled Prev or Next button, a page button and the buttons
      for the first and last pages all lead through `go` to the page they name. */
  lemma ButtonsNavigate(total: int, page: int, pageSize: int)
    requires pageSize > 0
    requires 1 <= page <= TotalPages(total, pageSize)
    ensures var t := TotalPages(total, pageSize);
      && (page > 1 <==> Go(page - 1, t) == Some(page - 1))
      && (page < t <==> Go(page + 1, t) == Some(page + 1))
      && (forall p :: p in ShownPages(t, page) ==> Go(p, t) == Some(p))
      && Go(1, t) == Some(1) && Go(t, t) == Some(t)
  {
    var t := TotalPages(total, pageSize);
    ShownPagesProperties(t, page);
  }
}
