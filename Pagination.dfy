/**
 * The pagination control: the window of page numbers it offers, the item
 * range it reports, and when its previous and next buttons are disabled.
 */
module Pagination {

  /** At most this many page numbers are offered at once. */
  const MAX_VISIBLE_PAGES: int := 5

  function Max(a: int, b: int): int {
    if a < b then b else a
  }

  function Min(a: int, b: int): int {
    if a < b then a else b
  }

  /** The ascending run `lo, lo + 1, ..., hi`; empty when `hi < lo`. */
  function Run(lo: int, hi: int): (r: seq<int>)
    ensures |r| == if hi < lo then 0 else hi - lo + 1
    ensures forall i :: 0 <= i < |r| ==> r[i] == lo + i
    decreases hi - lo
  {
    if hi < lo then [] else Run(lo, hi - 1) + [hi]
  }

  /** The first page number offered. */
  function WindowStart(currentPage: int, totalPages: int): int {
    if totalPages <= MAX_VISIBLE_PAGES then 1 else Max(1, currentPage - 2)
  }

  /** The last page number offered. */
  function WindowEnd(currentPage: int, totalPages: int): int {
    if totalPages <= MAX_VISIBLE_PAGES then totalPages
    else Min(totalPages, WindowStart(currentPage, totalPages) + MAX_VISIBLE_PAGES - 1)
  }

  /** The page numbers offered, as a value. */
  function PageNumbers(currentPage: int, totalPages: int): seq<int> {
    Run(WindowStart(currentPage, totalPages), WindowEnd(currentPage, totalPages))
  }

  /** `getPageNumbers()`: pushes each offered page number in turn. */
  method GetPageNumbers(currentPage: int, totalPages: int) returns (pages: seq<int>)
    ensures pages == PageNumbers(currentPage, totalPages)
  {
    pages := [];
    var maxVisiblePages := MAX_VISIBLE_PAGES;
    if totalPages <= maxVisiblePages {
      var i := 1;
      while i <= totalPages
        invariant 1 <= i <= Max(totalPages, 0) + 1
        invariant pages == Run(1, i - 1)
        decreases totalPages - i
      {
        pages := pages + [i];
        i := i + 1;
      }
    } else {
      var startPage := Max(1, currentPage - 2);
      var endPage := Min(totalPages, startPage + maxVisiblePages - 1);
      var i := startPage;
      while i <= endPage
        invariant startPage <= i <= Max(endPage, startPage - 1) + 1
        invariant pages == Run(startPage, i - 1)
        decreases endPage - i
      {
        pages := pages + [i];
        i := i + 1;
      }
    }
  }

  /** With at most five pages, every page is offered, in order; none for zero pages. */
  lemma FewPagesAllOffered(currentPage: int, totalPages: int)
    requires totalPages <= MAX_VISIBLE_PAGES
    ensures |PageNumbers(currentPage, totalPages)| == Max(totalPages, 0)
    ensures forall i :: 0 <= i < |PageNumbers(currentPage, totalPages)| ==> PageNumbers(currentPage, totalPages)[i] == i + 1
  {
  }

  /** With more pages, the window runs from two before the current page, at most five long. */
  lemma ManyPagesWindow(currentPage: int, totalPages: int)
    requires totalPages > MAX_VISIBLE_PAGES
    ensures PageNumbers(currentPage, totalPages) ==
      Run(Max(1, currentPage - 2), Min(totalPages, Max(1, currentPage - 2) + 4))
  {
  }

  /** At most five numbers are offered, each a page that exists. */
  lemma PageNumbersInRange(currentPage: int, totalPages: int)
    ensures |PageNumbers(currentPage, totalPages)| <= MAX_VISIBLE_PAGES
    ensures forall i :: 0 <= i < |PageNumbers(currentPage, totalPages)| ==>
      1 <= PageNumbers(currentPage, totalPages)[i] <= totalPages
  {
  }

  /** The current page, when it exists, is always offered. */
  lemma CurrentPageOffered(currentPage: int, totalPages: int)
    requires 1 <= currentPage <= totalPages
    ensures currentPage in PageNumbers(currentPage, totalPages)
  {
    var r := PageNumbers(currentPage, totalPages);
    var k := currentPage - WindowStart(currentPage, totalPages);
    assert 0 <= k < |r| && r[k] == currentPage;
  }

  /**
   * Beyond five pages the window is full exactly when two pages follow the
   * current one; near the last page it shrinks (page 10 of 10 offers 8, 9, 10).
   */
  lemma WindowShrinksNearEnd(currentPage: int, totalPages: int)
    requires totalPages > MAX_VISIBLE_PAGES && 1 <= currentPage <= totalPages
    ensures |PageNumbers(currentPage, totalPages)| == MAX_VISIBLE_PAGES <==> currentPage + 2 <= totalPages
  {
  }

  /** The number of the first item shown, counting from 1. */
  function StartItem(currentPage: int, itemsPerPage: int): int {
    (currentPage - 1) * itemsPerPage + 1
  }

  /** The number of the last item shown. */
  function EndItem(currentPage: int, itemsPerPage: int, totalCount: int): int {
    Min(currentPage * itemsPerPage, totalCount)
  }

  /** "Previous" is disabled on page 1 only. */
  predicate PreviousDisabled(currentPage: int) {
    currentPage == 1
  }

  /** "Next" is disabled on the last page only. */
  predicate NextDisabled(currentPage: int, totalPages: int) {
    currentPage == totalPages
  }

  /**
   * On an existing page, each button is enabled exactly when the page it
   * leads to exists.
   */
  lemma ButtonsEnabledIffTargetExists(currentPage: int, totalPages: int)
    requires 1 <= currentPage <= totalPages
    ensures !PreviousDisabled(currentPage) <==> 1 <= currentPage - 1 <= totalPages
    ensures !NextDisabled(currentPage, totalPages) <==> 1 <= currentPage + 1 <= totalPages
  {
  }
}
