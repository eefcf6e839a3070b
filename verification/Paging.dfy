/**
  Newest-first paging of the stored results and events (app/storage/store/memory/util.go),
  and the request parameters that reach it (app/api/util.go).
*/
module Paging {
  import opened Collections

  const DEFAULT_PAGE := 1
  const DEFAULT_PAGE_SIZE := 50

  /** `getStartAndEndIndex`: page 1 is the end of the list. */
  function StartAndEnd(n: nat, page: int, pageSize: int): (int, int) {
    if page < 1 || pageSize < 0 then (-1, -1)
    else
      var start := n - page * pageSize;
      var end := n - (page - 1) * pageSize;
      (if start > n then -1 else if start < 0 then 0 else start, if end > n then n else end)
  }

  /** Whether the shallow copies slice the list, rather than return nothing. */
  predicate Sliceable(n: nat, page: int, pageSize: int) {
    var (start, end) := StartAndEnd(n, page, pageSize);
    start >= 0 && end >= 0
  }

  /** Whatever the request, the slice taken by the shallow copies is within bounds. */
  lemma SliceIsInBounds(n: nat, page: int, pageSize: int)
    ensures Sliceable(n, page, pageSize) ==>
      var (start, end) := StartAndEnd(n, page, pageSize); 0 <= start <= end <= n
  {
    if page >= 1 && pageSize >= 0 {
      assert page * pageSize == (page - 1) * pageSize + pageSize;
      assert (page - 1) * pageSize >= 0;
    }
  }

  /** The results shown by the shallow copies for a page. */
  function PageOf<T>(s: seq<T>, page: int, pageSize: int): seq<T> {
    SliceIsInBounds(|s|, page, pageSize);
    var (start, end) := StartAndEnd(|s|, page, pageSize);
    if start < 0 || end < 0 then [] else s[start..end]
  }

  /** Number of pages that show something. */
  function PageCount(n: nat, pageSize: nat): nat
    requires pageSize > 0
  {
    (n + pageSize - 1) / pageSize
  }

  /** Pages k, k-1, ..., 1, in that order. */
  function PagesDownFrom<T>(s: seq<T>, k: nat, pageSize: nat): seq<T> {
    if k == 0 then [] else PageOf(s, k, pageSize) + PagesDownFrom(s, k - 1, pageSize)
  }

  function Max0(x: int): nat {
    if x < 0 then 0 else x
  }

  /** A page in terms of the number of newer entries it skips. */
  lemma PageSlice<T>(s: seq<T>, page: int, pageSize: nat, skip: nat)
    requires page >= 1 && skip == (page - 1) * pageSize
    ensures page * pageSize == skip + pageSize
    ensures PageOf(s, page, pageSize) ==
            if skip <= |s| then s[Max0(|s| - skip - pageSize)..|s| - skip] else []
  {
  }

  lemma TailGrows<T>(s: seq<T>, skip: nat, more: nat)
    requires skip <= |s|
    ensures s[Max0(|s| - skip - more)..|s| - skip] + LastN(s, skip) == LastN(s, skip + more)
  {
  }

  /** The first k pages are the tail of the list that they can hold. */
  lemma {:induction false} PagesAreTail<T>(s: seq<T>, k: nat, pageSize: nat)
    ensures PagesDownFrom(s, k, pageSize) == LastN(s, k * pageSize)
  {
    if k > 0 {
      var skip := (k - 1) * pageSize;
      PagesAreTail(s, k - 1, pageSize);
      PageSlice(s, k, pageSize, skip);
      assert PagesDownFrom(s, k, pageSize) == PageOf(s, k, pageSize) + LastN(s, skip);
      if skip <= |s| {
        TailGrows(s, skip, pageSize);
      } else {
        assert LastN(s, skip) == s == LastN(s, skip + pageSize);
      }
    }
  }

  /** Read from the last page to the first, the pages are the whole list, each entry once. */
  lemma PagesCoverEverything<T>(s: seq<T>, pageSize: nat)
    requires pageSize > 0
    ensures PagesDownFrom(s, PageCount(|s|, pageSize), pageSize) == s
  {
    var k := PageCount(|s|, pageSize);
    PagesAreTail(s, k, pageSize);
    CeilingCovers(|s|, pageSize);
    if k * pageSize == |s| {
      assert s[0..] == s;
    }
  }

  lemma CeilingCovers(n: nat, size: nat)
    requires size > 0
    ensures PageCount(n, size) * size >= n
  {
    var m := n + size - 1;
    assert m == m / size * size + m % size;
    assert m % size <= size - 1;
  }

  /** A page that does not exist, or holds nothing, shows nothing: page 0 with size 0, which the list of
      endpoints asks for as its events, is one. */
  lemma NoSuchPage<T>(s: seq<T>, page: int, pageSize: int)
    requires page < 1 || pageSize <= 0
    ensures PageOf(s, page, pageSize) == []
  {
  }

  /** A page beyond the page count is empty, and no page holds more than its size. */
  lemma PageLength<T>(s: seq<T>, page: int, pageSize: nat)
    requires pageSize > 0
    ensures |PageOf(s, page, pageSize)| <= pageSize
    ensures page > PageCount(|s|, pageSize) ==> PageOf(s, page, pageSize) == []
  {
    if page >= 1 {
      assert page * pageSize == (page - 1) * pageSize + pageSize;
      if page > PageCount(|s|, pageSize) {
        CeilingCovers(|s|, pageSize);
        MulMonotone(PageCount(|s|, pageSize), page - 1, pageSize);
      }
    }
  }

  // ---------------------------------------------------------------------------------
  // Request parameters
  // ---------------------------------------------------------------------------------

  /** A query parameter: absent, not a number, or a number. */
  datatype Parameter = Absent | Malformed | Number(value: int)

  /** `extractPageAndPageSizeFromRequest`. */
  method ExtractPageAndPageSize(pageParameter: Parameter, pageSizeParameter: Parameter, maximumNumberOfResults: int)
      returns (page: int, pageSize: int)
    requires maximumNumberOfResults >= 1
    ensures page >= 1 && pageSize >= 1
    ensures page == if pageParameter.Number? && pageParameter.value >= 1 then pageParameter.value else 1
    ensures pageSizeParameter.Number? && pageSizeParameter.value >= 1 ==>
      pageSize == if page == 1 && pageSizeParameter.value > maximumNumberOfResults then maximumNumberOfResults
                  else pageSizeParameter.value
    ensures pageSizeParameter.Number? && pageSizeParameter.value < 1 ==> pageSize == 50
    ensures !pageSizeParameter.Number? ==>
      pageSize == if page == 1 && 50 > maximumNumberOfResults then maximumNumberOfResults else 50
    ensures pageSize == EffectivePageSize(page, pageSizeParameter, maximumNumberOfResults)
  {
    if pageParameter.Absent? {
      page := DEFAULT_PAGE;
    } else {
      page := if pageParameter.Malformed? then DEFAULT_PAGE else pageParameter.value;
      if page < 1 {
        page := DEFAULT_PAGE;
      }
    }
    if pageSizeParameter.Absent? {
      pageSize := DEFAULT_PAGE_SIZE;
    } else {
      pageSize := if pageSizeParameter.Malformed? then DEFAULT_PAGE_SIZE else pageSizeParameter.value;
    }
    if page == 1 && pageSize > maximumNumberOfResults {
      pageSize := maximumNumberOfResults;
    } else if pageSize < 1 {
      pageSize := DEFAULT_PAGE_SIZE;
    }
  }

  /** The page size before the clamp that only page 1 undergoes. */
  function RequestedPageSize(p: Parameter): int {
    if p.Number? && p.value >= 1 then p.value else DEFAULT_PAGE_SIZE
  }

  function EffectivePageSize(page: int, p: Parameter, maximumNumberOfResults: int): int {
    if page == 1 && RequestedPageSize(p) > maximumNumberOfResults && !(p.Number? && p.value < 1)
    then maximumNumberOfResults
    else RequestedPageSize(p)
  }

  /** The clamp never shows on a store that respects its maximum: every page holds what the
      unclamped size would show, so pages requested with one and the same parameter fit
      together even though page 1 may be cut with a different size. */
  lemma ClampIsInvisible<T>(s: seq<T>, page: int, p: Parameter, maximumNumberOfResults: int)
    requires page >= 1 && 1 <= maximumNumberOfResults && |s| <= maximumNumberOfResults
    ensures PageOf(s, page, EffectivePageSize(page, p, maximumNumberOfResults)) == PageOf(s, page, RequestedPageSize(p))
  {
    if page == 1 {
      PageSlice(s, 1, EffectivePageSize(1, p, maximumNumberOfResults), 0);
      PageSlice(s, 1, RequestedPageSize(p), 0);
    }
  }
}
