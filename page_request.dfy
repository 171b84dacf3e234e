/** PageRequestVO, Spring's Pageable and Page, as the list endpoint sees them. */
module PageRequests {

  datatype Direction = ASC | DESC

  /** The paging query parameters of a list request. */
  datatype PageRequestVO = PageRequestVO(page: int, size: int, direction: Direction, orderBy: string)

  /** The field defaults a request starts from: page 0, size 20, ascending, by id. */
  const DefaultPageRequest := PageRequestVO(0, 20, ASC, "id")

  const CURRENT_PAGE_HEADER := "currentPage"
  const CURRENT_ELEMENTS_HEADER := "currentElements"
  const TOTAL_ELEMENTS_HEADER := "totalElements"
  const TOTAL_PAGES_HEADER := "totalPages"

  /** The four header names are pairwise distinct, so no header hides another. */
  lemma HeaderNamesDistinct()
    ensures CURRENT_PAGE_HEADER != CURRENT_ELEMENTS_HEADER && CURRENT_PAGE_HEADER != TOTAL_ELEMENTS_HEADER
    ensures CURRENT_PAGE_HEADER != TOTAL_PAGES_HEADER && CURRENT_ELEMENTS_HEADER != TOTAL_ELEMENTS_HEADER
    ensures CURRENT_ELEMENTS_HEADER != TOTAL_PAGES_HEADER && TOTAL_ELEMENTS_HEADER != TOTAL_PAGES_HEADER
  {
  }

  /** PageRequest.of(page, size, direction, orderBy): a zero-based page of at least one element. */
  datatype Pageable = Pageable(pageNumber: nat, pageSize: nat, direction: Direction, orderBy: string)

  /**
   * What the repository answers to a paged query. The slicing and the
   * totalPages arithmetic belong to the repository, so the four counts are
   * taken as given.
   */
  datatype Page<T> = Page(content: seq<T>, numberOfElements: int, totalElements: int, totalPages: int)
}
