/** ui/controller/ArticleCrawlController.java: the paging of the collected notes. */
module CrawlController {
  import opened Entities
  import opened Paging
  import opened CrawlViewModel

  /** updatePagination's count: max(1, ceil(n / 10)), so one (empty) page even without notes. */
  function PaginationPageCount(n: nat): (c: nat)
    ensures c >= 1
    ensures n > 0 ==> c == CeilPages(n)
    ensures (c - 1) * RowsPerPage < n || n == 0
    ensures c * RowsPerPage >= n
  {
    if CeilPages(n) > 1 then CeilPages(n) else 1
  }

  /** Every page below the count shows something, except the single page of an empty list. */
  lemma PagesBelowCountNonEmpty<T>(xs: seq<T>, p: nat)
    requires p < PaginationPageCount(|xs|) && xs != []
    ensures PageSlice(xs, p) != []
  {
  }

  class ArticleCrawlController {
    const viewModel: ArticleCrawlViewModel
    var pageCount: nat
    var currentPageIndex: nat
    var currentPageData: seq<NoteInfo>

    constructor(viewModel: ArticleCrawlViewModel)
      ensures this.viewModel == viewModel && pageCount == 1 && currentPageIndex == 0 && currentPageData == []
    {
      this.viewModel := viewModel;
      pageCount, currentPageIndex := 1, 0;
      currentPageData := [];
    }

    /** refreshPageData: the notes of page `pageIndex`, in model order; nothing past the end. */
    method RefreshPageData(pageIndex: nat)
      modifies this
      ensures currentPageData == PageSlice(viewModel.notes, pageIndex)
      ensures pageCount == old(pageCount) && currentPageIndex == old(currentPageIndex)
    {
      var fromIndex := pageIndex * RowsPerPage;
      var toIndex := if fromIndex + RowsPerPage <= |viewModel.notes| then fromIndex + RowsPerPage else |viewModel.notes|;
      if fromIndex >= |viewModel.notes| {
        currentPageData := [];
      } else {
        currentPageData := viewModel.notes[fromIndex..toIndex];
      }
    }

    /**
     * updatePagination: recount the pages, return to the first page when the current one is gone,
     * and show the rows of the current page.
     */
    method UpdatePagination()
      modifies this
      ensures pageCount == PaginationPageCount(|viewModel.notes|)
      ensures currentPageIndex < pageCount
      ensures currentPageIndex == (if old(currentPageIndex) < pageCount then old(currentPageIndex) else 0)
      ensures currentPageData == PageSlice(viewModel.notes, currentPageIndex)
    {
      var itemCount := |viewModel.notes|;
      pageCount := if CeilPages(itemCount) > 1 then CeilPages(itemCount) else 1;
      if currentPageIndex >= pageCount {
        currentPageIndex := 0;
      }
      RefreshPageData(currentPageIndex);
    }
  }
}
