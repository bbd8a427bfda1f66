/** Pagination of the campaign table: the `slice` that cuts out the current
    page, the page count, and the row of at most five page-number buttons. */
module Pagination {

  /** `itemsPerPage`: rows shown on one page. */
  const ItemsPerPage: nat := 4

  /** Buttons shown in the page-number row at most. */
  const WindowWidth: nat := 5

  function Min(a: int, b: int): int
  {
    if a <= b then a else b
  }

  /** How `Array.prototype.slice` turns an argument into a position: a
      negative one counts from the end, and both are clamped to `[0, len]`. */
  function RelativeIndex(i: int, len: nat): (r: nat)
    ensures r <= len
    ensures 0 <= i ==> r == Min(i, len)
  {
    if i < 0 then (if len + i < 0 then 0 else len + i)
    else if i < len then i
    else len
  }

  /** `s.slice(start, end)`. */
  function Slice<T>(s: seq<T>, start: int, end: int): seq<T>
  {
    var k, f := RelativeIndex(start, |s|), RelativeIndex(end, |s|);
    if k < f then s[k..f] else []
  }

  /** `paginatedData`: the rows of page `page` (numbered from 1). */
  function Page<T>(s: seq<T>, page: int): (r: seq<T>)
    ensures |r| <= ItemsPerPage
  {
    var startIndex := (page - 1) * ItemsPerPage;
    Slice(s, startIndex, startIndex + ItemsPerPage)
  }

  /** `totalPages = Math.ceil(n / itemsPerPage)`: the fewest pages that hold
      `n` rows, which is 0 when there are none. */
  function TotalPages(n: nat): (r: nat)
    ensures (r - 1) * ItemsPerPage < n <= r * ItemsPerPage
    ensures r == 0 <==> n == 0
  {
    (n + ItemsPerPage - 1) / ItemsPerPage
  }

  /** Page `page` (from 1) is the run of rows starting at `(page - 1) * 4`,
      cut short by the end of the sequence. */
  lemma PageIsRun<T>(s: seq<T>, page: int)
    requires page >= 1
    ensures var start := (page - 1) * ItemsPerPage;
            && |Page(s, page)| == (if start >= |s| then 0 else Min(ItemsPerPage, |s| - start))
            && forall i :: 0 <= i < |Page(s, page)| ==> Page(s, page)[i] == s[start + i]
  {
  }

  /** Pages `1..n` laid end to end. */
  function FirstPages<T>(s: seq<T>, n: nat): seq<T>
  {
    if n == 0 then [] else FirstPages(s, n - 1) + Page(s, n)
  }

  /** The first `n` pages are the first `4 * n` rows, or all of them. */
  lemma {:induction false} FirstPagesArePrefix<T>(s: seq<T>, n: nat)
    ensures FirstPages(s, n) == s[..Min(n * ItemsPerPage, |s|)]
  {
    if n > 0 {
      FirstPagesArePrefix(s, n - 1);
      PageIsRun(s, n);
      var a, b := Min((n - 1) * ItemsPerPage, |s|), Min(n * ItemsPerPage, |s|);
      assert Page(s, n) == s[a..b];
      assert s[..a] + s[a..b] == s[..b];
    }
  }

  /** Coverage: pages `1..totalPages` together are exactly the rows, each
      once and in order. */
  lemma PagesCoverAll<T>(s: seq<T>)
    ensures FirstPages(s, TotalPages(|s|)) == s
  {
    FirstPagesArePrefix(s, TotalPages(|s|));
    assert s[..|s|] == s;
  }

  /** A page past the last one is empty, and every page from 1 to the last
      one has at least one row. */
  lemma PageEmptyIffPastEnd<T>(s: seq<T>, page: int)
    requires page >= 1
    ensures Page(s, page) == [] <==> page > TotalPages(|s|)
  {
    PageIsRun(s, page);
  }

  /** The number on button `i` of the page-number row. */
  function PageNumberAt(totalPages: int, currentPage: int, i: int): int
  {
    if totalPages <= WindowWidth then i + 1
    else if currentPage <= 3 then i + 1
    else if currentPage >= totalPages - 2 then totalPages - 4 + i
    else currentPage - 2 + i
  }

  /** The page-number row: `Math.min(totalPages, 5)` buttons. */
  function PageWindow(totalPages: nat, currentPage: int): seq<int>
  {
    seq(Min(totalPages, WindowWidth), i => PageNumberAt(totalPages, currentPage, i))
  }

  function Clamp(x: int, lo: int, hi: int): int
    requires lo <= hi
  {
    if x < lo then lo else if x > hi then hi else x
  }

  /** Where the row starts: page 1 when all pages fit, and otherwise two
      before the current page, held inside `[1, totalPages - 4]`. */
  function WindowStart(totalPages: nat, currentPage: int): int
  {
    if totalPages <= WindowWidth then 1 else Clamp(currentPage - 2, 1, totalPages - 4)
  }

  /** The row is the run of `min(totalPages, 5)` consecutive pages starting at
      `WindowStart`: a window of five centred on the current page and pushed
      back inside at either edge. */
  lemma PageWindowIsClampedRun(totalPages: nat, currentPage: int)
    ensures var w := PageWindow(totalPages, currentPage);
            && |w| == Min(totalPages, WindowWidth)
            && forall i :: 0 <= i < |w| ==> w[i] == WindowStart(totalPages, currentPage) + i
  {
  }

  /** The row's numbers are consecutive pages that exist, and it shows the
      current page whenever that page exists. */
  lemma PageWindowBounds(totalPages: nat, currentPage: int)
    ensures var w := PageWindow(totalPages, currentPage);
            && |w| == Min(totalPages, WindowWidth)
            && (forall i :: 0 <= i < |w| ==> 1 <= w[i] <= totalPages)
            && (forall i :: 0 < i < |w| ==> w[i] == w[i - 1] + 1)
            && (1 <= currentPage <= totalPages ==> currentPage in w)
  {
    var w := PageWindow(totalPages, currentPage);
    PageWindowIsClampedRun(totalPages, currentPage);
    if 1 <= currentPage <= totalPages {
      assert w[currentPage - WindowStart(totalPages, currentPage)] == currentPage;
    }
  }
}
