/** The pagination control: a button per page between "previous" and "next",
    the current page highlighted. It holds no state; every click asks the parent
    for a page number. */
module Pagination {
  /** `Array.from({ length: totalPages }, (_, i) => i + 1)`: the page numbers
      from 1 up to the total, none for a total of 0 or less. */
  function Pages(totalPages: int): (pages: seq<int>)
    ensures |pages| == if totalPages <= 0 then 0 else totalPages
    ensures forall i :: 0 <= i < |pages| ==> pages[i] == i + 1
    decreases if totalPages <= 0 then 0 else totalPages
  {
    if totalPages <= 0 then [] else Pages(totalPages - 1) + [totalPages]
  }

  /** The "previous" button is disabled on the first page. */
  predicate PreviousDisabled(currentPage: int)
  {
    currentPage == 1
  }

  /** The page the "previous" button asks for. */
  function PreviousTarget(currentPage: int): int
  {
    currentPage - 1
  }

  /** The "next" button is disabled on the last page. */
  predicate NextDisabled(currentPage: int, totalPages: int)
  {
    currentPage == totalPages
  }

  /** The page the "next" button asks for. */
  function NextTarget(currentPage: int): int
  {
    currentPage + 1
  }

  /** A page button is highlighted when it is the current page; clicking it asks
      for its own number. */
  predicate IsActive(page: int, currentPage: int)
  {
    page == currentPage
  }

  /** Within range, exactly one page button is highlighted, the one at position
      `currentPage - 1`; out of range, none is. */
  lemma ExactlyOneActive(currentPage: int, totalPages: int)
    ensures 1 <= currentPage <= totalPages ==>
              currentPage - 1 < |Pages(totalPages)| && IsActive(Pages(totalPages)[currentPage - 1], currentPage)
    ensures forall i :: 0 <= i < |Pages(totalPages)| && IsActive(Pages(totalPages)[i], currentPage) ==> i == currentPage - 1
    ensures !(1 <= currentPage <= totalPages) ==>
              forall i :: 0 <= i < |Pages(totalPages)| ==> !IsActive(Pages(totalPages)[i], currentPage)
  {
  }

  /** From a page within range, an enabled arrow asks for a page within range. */
  lemma ArrowsStayInRange(currentPage: int, totalPages: int)
    requires 1 <= currentPage <= totalPages
    ensures !PreviousDisabled(currentPage) ==> 1 <= PreviousTarget(currentPage) <= totalPages
    ensures !NextDisabled(currentPage, totalPages) ==> 1 <= NextTarget(currentPage) <= totalPages
  {
  }
}
