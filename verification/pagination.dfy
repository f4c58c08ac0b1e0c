/**
  Page arithmetic shared by the paginated invite and connection listings:
  `skip = (page - 1) * limit`, `totalPages = ceil(total / limit)`, and a reported
  page of 0 when nothing matched.
*/
module Pagination {
  import opened Sorting

  /** One page of a listing, as the services return it. */
  datatype Page<T> = Page(data: seq<T>, total: nat, page: int, limit: int, totalPages: nat)

  /** Number of rows before the requested page. */
  function Skip(page: int, limit: int): int
  {
    (page - 1) * limit
  }

  /** `pages` pages of `limit` rows hold `total` rows, and one page fewer would not. */
  predicate PagesCover(pages: nat, limit: int, total: nat)
  {
    pages * limit >= total && (pages > 0 ==> (pages - 1) * limit < total)
  }

  /** The ceiling of `total / limit`: the number of pages needed for `total` rows. */
  function TotalPages(total: nat, limit: int): (pages: nat)
    requires limit > 0
    ensures PagesCover(pages, limit, total)
    ensures pages == 0 <==> total == 0
  {
    var q := (total + limit - 1) / limit;
    assert q * limit <= total + limit - 1 < q * limit + limit;
    q
  }

  /** The page number put in the response: 0 for an empty result, else the requested page. */
  function ReportedPage(total: nat, page: int): (p: int)
    ensures total > 0 ==> p == page
    ensures total == 0 ==> p == 0
  {
    if total == 0 then 0 else page
  }

  /** For a requested page of at least 1, the reported page is 0 exactly when nothing matched. */
  lemma ReportedPageZeroIffEmpty(total: nat, page: int)
    requires page >= 1
    ensures ReportedPage(total, page) == 0 <==> total == 0
  {
  }

  /** JavaScript's reading of a `slice` bound: negative counts from the end, then clamp to [0, n]. */
  function SliceBound(x: int, n: nat): (b: nat)
    ensures b <= n
    ensures 0 <= x <= n ==> b == x
  {
    if x < 0 then (if n + x < 0 then 0 else n + x)
    else if x > n then n
    else x
  }

  /** Reading the bounds of an ordered range never widens it. */
  lemma SliceBoundSpread(x: int, y: int, n: nat)
    ensures x <= y ==> SliceBound(y, n) - SliceBound(x, n) <= y - x
  {
  }

  /**
    `Array.prototype.slice(start, end)`: a negative bound counts from the end,
    and bounds outside the sequence are cut to it.
  */
  function JsSlice<T>(s: seq<T>, start: int, end: int): (r: seq<T>)
    ensures start <= end ==> |r| <= end - start
    ensures forall k :: 0 <= k < |r| ==> r[k] in s
    ensures 0 <= start <= end <= |s| ==> r == s[start..end]
    ensures 0 <= end <= start || end <= start < 0 || end == 0 ==> r == []
    ensures -|s| <= start <= end < 0 ==> r == s[|s| + start..|s| + end]
    ensures start < -|s| && -|s| <= end < 0 ==> r == s[..|s| + end]
    ensures 0 <= start <= |s| < end ==> r == s[start..]
  {
    var from := SliceBound(start, |s|);
    var to := SliceBound(end, |s|);
    SliceBoundSpread(start, end, |s|);
    if to <= from then [] else s[from..to]
  }

  /** The rows of one page: the JavaScript slice [skip, skip + limit) of the ordered rows. */
  function Window<T>(rows: seq<T>, page: int, limit: int): (r: seq<T>)
    requires limit > 0
    ensures |r| <= limit
    ensures forall k :: 0 <= k < |r| ==> r[k] in rows
  {
    var skip := Skip(page, limit);
    JsSlice(rows, skip, skip + limit)
  }

  /**
    From page 1 on, the slice equals the store's `skip`/`take`: the rows from
    `skip` to `skip + limit`, cut at the end of the rows.
  */
  lemma {:induction false} WindowIsSkipTake<T>(rows: seq<T>, page: int, limit: int)
    requires limit > 0
    ensures page >= 1 ==> Skip(page, limit) >= 0
    ensures page >= 1 ==>
              Window(rows, page, limit) == rows[Min(Skip(page, limit), |rows|)..Min(Skip(page, limit) + limit, |rows|)]
  {
    if page >= 1 {
      var skip := Skip(page, limit);
      NonNegativeProduct(page - 1, limit);
      assert SliceBound(skip, |rows|) == Min(skip, |rows|);
      assert SliceBound(skip + limit, |rows|) == Min(skip + limit, |rows|);
    }
  }

  /**
    One page of `total` rows: the rows from `skip = (page - 1) * limit`, at most
    `limit` of them, cut by JavaScript's `slice` (so page 0 is empty), with the
    reported page and the page count.
  */
  function Paginate<T>(rows: seq<T>, total: nat, page: int, limit: int): (r: Page<T>)
    requires limit > 0
    ensures page >= 1 ==>
              && 0 <= Skip(page, limit)
              && r.data == rows[Min(Skip(page, limit), |rows|)..Min(Skip(page, limit) + limit, |rows|)]
    ensures page == 0 ==> r.data == []
    ensures |r.data| <= limit
    ensures forall k :: 0 <= k < |r.data| ==> r.data[k] in rows
    ensures r.total == total && r.limit == limit
    ensures total > 0 ==> r.page == page
    ensures total == 0 ==> r.page == 0
    ensures PagesCover(r.totalPages, limit, total)
    ensures r.totalPages == 0 <==> total == 0
  {
    WindowIsSkipTake(rows, page, limit);
    Page(Window(rows, page, limit), total, ReportedPage(total, page), limit, TotalPages(total, limit))
  }

  function Min(a: int, b: int): int
  {
    if a <= b then a else b
  }

  /** From page 1 on, a page of sorted rows is sorted. */
  lemma PageIsSorted<T>(rows: seq<T>, page: int, limit: int, key: T -> real)
    requires limit > 0 && Sorted(rows, key)
    ensures page >= 1 ==> Sorted(Window(rows, page, limit), key)
  {
    if page >= 1 {
      WindowIsSkipTake(rows, page, limit);
      SortedSlice(rows, Min(Skip(page, limit), |rows|), Min(Skip(page, limit) + limit, |rows|), key);
    }
  }

  lemma NonNegativeProduct(a: int, b: int)
    requires a >= 0 && b >= 0
    ensures a * b >= 0
  {
  }
}
