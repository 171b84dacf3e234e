/**
 * CrudController: the REST handlers over a CrudService, with the converter
 * between entities and value objects as two functions. Handlers that
 * throw return Failure, which the controller advice maps to a response.
 */
module Controller {
  import opened Wrappers
  import opened JavaStrings
  import opened Http
  import opened Entities
  import opened CrudErrors
  import opened PageRequests
  import opened UpdaterExamples
  import opened Service

  /** The answer of the list endpoint: status, pagination headers and converted content. */
  datatype ListResponse<VO> = ListResponse(status: int, headers: Headers, content: seq<VO>)

  /**
   * getPageableOf: PageRequest.of(page, size, direction, orderBy), which
   * throws IllegalArgumentException for a negative page, a size below one
   * or a sort property without text, and otherwise carries the four values over.
   */
  function GetPageableOf(request: PageRequestVO): (r: Result<Pageable, Exception>)
    ensures r.Failure? <==> request.page < 0 || request.size < 1 || !HasText(request.orderBy)
    ensures r.Failure? ==> r.error == IllegalArgumentException
    ensures r.Success? ==> r.value.pageNumber == request.page && r.value.pageSize == request.size
    ensures r.Success? ==> r.value.direction == request.direction && r.value.orderBy == request.orderBy
  {
    if request.page < 0 || request.size < 1 || !HasText(request.orderBy) then Failure(IllegalArgumentException)
    else Success(Pageable(request.page, request.size, request.direction, request.orderBy))
  }

  /** The default request is a valid page request: page 0 of 20, ascending by id. */
  lemma DefaultRequestIsAccepted()
    ensures GetPageableOf(DefaultPageRequest) == Success(Pageable(0, 20, ASC, IdProperty))
  {
    assert !IsWhitespace(DefaultPageRequest.orderBy[0]);
  }

  /** The pagination headers: one value each, the requested page and the page's three counts. */
  function PageHeaders<T>(request: PageRequestVO, page: Page<T>): (h: Headers)
    ensures h.Keys == {CURRENT_PAGE_HEADER, CURRENT_ELEMENTS_HEADER, TOTAL_ELEMENTS_HEADER, TOTAL_PAGES_HEADER}
  {
    map[CURRENT_PAGE_HEADER := [IntToDecimal(request.page)],
        CURRENT_ELEMENTS_HEADER := [IntToDecimal(page.numberOfElements)],
        TOTAL_ELEMENTS_HEADER := [IntToDecimal(page.totalElements)],
        TOTAL_PAGES_HEADER := [IntToDecimal(page.totalPages)]]
  }

  /**
   * mountPageableHttpHeaders: four add calls on fresh headers. The
   * names are distinct, so each header ends with exactly its one value.
   */
  method MountPageableHttpHeaders<T>(request: PageRequestVO, page: Page<T>) returns (headers: Headers)
    ensures headers == PageHeaders(request, page)
  {
    HeaderNamesDistinct();
    headers := map[];
    headers := Add(headers, CURRENT_PAGE_HEADER, IntToDecimal(request.page));
    headers := Add(headers, CURRENT_ELEMENTS_HEADER, IntToDecimal(page.numberOfElements));
    headers := Add(headers, TOTAL_ELEMENTS_HEADER, IntToDecimal(page.totalElements));
    headers := Add(headers, TOTAL_PAGES_HEADER, IntToDecimal(page.totalPages));
    assert forall n :: n in headers ==> headers[n] == PageHeaders(request, page)[n];
  }

  /** A client reads back from the headers the requested page and the page's counts. */
  lemma {:induction false} PageHeadersRoundTrip<T>(request: PageRequestVO, page: Page<T>)
    ensures var h := PageHeaders(request, page);
      && |h[CURRENT_PAGE_HEADER]| == 1 && ParseInt(h[CURRENT_PAGE_HEADER][0]) == request.page
      && |h[CURRENT_ELEMENTS_HEADER]| == 1 && ParseInt(h[CURRENT_ELEMENTS_HEADER][0]) == page.numberOfElements
      && |h[TOTAL_ELEMENTS_HEADER]| == 1 && ParseInt(h[TOTAL_ELEMENTS_HEADER][0]) == page.totalElements
      && |h[TOTAL_PAGES_HEADER]| == 1 && ParseInt(h[TOTAL_PAGES_HEADER][0]) == page.totalPages
  {
    HeaderNamesDistinct();
    DecimalRoundTrip(request.page);
    DecimalRoundTrip(page.numberOfElements);
    DecimalRoundTrip(page.totalElements);
    DecimalRoundTrip(page.totalPages);
  }

  /** The list status: no content exactly when the total, not the current page, is empty. */
  function ListStatus<T>(page: Page<T>): (status: int)
    ensures status == NO_CONTENT <==> page.totalElements == 0
    ensures status == NO_CONTENT || status == PARTIAL_CONTENT
  {
    if page.totalElements == 0 then NO_CONTENT else PARTIAL_CONTENT
  }

  /** Page.map(convertToVO).getContent(): the content converted element by element, in order. */
  function ConvertContent<T, VO>(content: seq<T>, toVO: T -> VO): (r: seq<VO>)
    ensures |r| == |content|
    ensures forall i :: 0 <= i < |content| ==> r[i] == toVO(content[i])
  {
    seq(|content|, i requires 0 <= i < |content| => toVO(content[i]))
  }

  /** An out-of-range page of a non-empty result is empty but still partial content. */
  lemma PastTheLastPage<T, VO>(request: PageRequestVO, page: Page<T>, toVO: T -> VO)
    requires page.content == [] && page.totalElements > 0
    ensures ListStatus(page) == PARTIAL_CONTENT && ConvertContent(page.content, toVO) == []
  {
  }

  /**
   * The totalPages header is the page's own count: an empty unpaged result
   * (one page of nothing) reports "1" and an empty real page "0", both with
   * no content.
   */
  lemma EmptyResultPageCounts(request: PageRequestVO)
    ensures var unpaged: Page<Entity> := Page([], 0, 0, 1);
      ListStatus(unpaged) == NO_CONTENT && PageHeaders(request, unpaged)[TOTAL_PAGES_HEADER] == ["1"]
    ensures var paged: Page<Entity> := Page([], 0, 0, 0);
      ListStatus(paged) == NO_CONTENT && PageHeaders(request, paged)[TOTAL_PAGES_HEADER] == ["0"]
  {
  }

  /** The controller for one entity type, over its service and its converter. */
  class CrudController<VO> {
    const service: CrudService
    /** Converter.convertToVO */
    const toVO: Entity -> VO
    /** Converter.convertToEntity */
    const toEntity: VO -> Entity

    ghost predicate Valid()
      reads this, service
    {
      service.Valid()
    }

    constructor (service: CrudService, toVO: Entity -> VO, toEntity: VO -> Entity)
      requires service.Valid()
      ensures Valid() && this.service == service && this.toVO == toVO && this.toEntity == toEntity
    {
      this.service := service;
      this.toVO := toVO;
      this.toEntity := toEntity;
    }

    /** POST: the converted service result, 201; an existing id is refused by the service. */
    method Create(vo: VO, generated: Value) returns (r: Result<Reply<VO>, Exception>)
      requires Valid()
      requires generated !in service.store
      modifies service
      ensures Valid()
      ensures var entity := toEntity(vo);
        && (r.Failure? <==> !IsNew(entity) && Id(entity).value in old(service.store))
        && (r.Failure? ==> r.error == EntityExistsException(None) && service.store == old(service.store))
        && (r.Success? ==> var saved := WithId(entity, Some(generated));
              && r.value == Reply(CREATED, toVO(saved)) && service.store == old(service.store)[generated := saved]
              && service.store.Keys == old(service.store).Keys + {generated})
    {
      var entity := toEntity(vo);
      var created := service.Create(entity, generated);
      if created.Failure? {
        return Failure(created.error);
      }
      r := Success(Reply(CREATED, toVO(created.value)));
    }

    /** GET by id: the converted entity, 200, or a not-found with the formatted message and no conversion. */
    function FindById(id: Value): (r: Result<Reply<VO>, Exception>)
      requires Valid()
      reads this, service
      ensures r.Failure? <==> id !in service.store
      ensures r.Failure? ==> r.error == EntityNotFoundException(Some(NotFoundMessage(id)))
      ensures r.Success? ==> r.value == Reply(OK, toVO(service.store[id]))
    {
      match service.FindById(id)
      case None => Failure(EntityNotFoundException(Some(NotFoundMessage(id))))
      case Some(entity) => Success(Reply(OK, toVO(entity)))
    }

    /**
     * GET: an invalid page request throws; otherwise the repository's page
     * of matches for the converted filters, with its headers, its status
     * and its content converted.
     */
    method FindAll(filters: VO, request: PageRequestVO, pager: (set<Entity>, Pageable) -> Page<Entity>)
      returns (r: Result<ListResponse<VO>, Exception>)
      requires Valid()
      ensures r.Failure? <==> GetPageableOf(request).Failure?
      ensures r.Failure? ==> r.error == IllegalArgumentException
      ensures r.Success? ==>
        var page := pager(service.FindAllByExample(Some(toEntity(filters))).value, GetPageableOf(request).value);
        && r.value.status == ListStatus(page)
        && r.value.headers == PageHeaders(request, page)
        && r.value.content == ConvertContent(page.content, toVO)
    {
      var entityFilters := toEntity(filters);
      var pageable := GetPageableOf(request);
      if pageable.Failure? {
        return Failure(pageable.error);
      }
      var result := service.FindAllPaged(Some(entityFilters), pageable.value, pager);
      var page := result.value;
      var headers := MountPageableHttpHeaders(request, page);
      var content := ConvertContent(page.content, toVO);
      var status := ListStatus(page);
      r := Success(ListResponse(status, headers, content));
    }

    /** PUT: the full-replace update; a not-found propagates unconverted. */
    method Update(id: Value, vo: VO) returns (r: Result<Reply<VO>, Exception>)
      requires Valid()
      modifies service
      ensures Valid()
      ensures r.Failure? <==> id !in old(service.store)
      ensures r.Failure? ==> r.error == NotFound(service.package, id) && service.store == old(service.store)
      ensures r.Success? ==> id in service.store && r.value == Reply(OK, toVO(service.store[id]))
      ensures r.Success? ==> service.store == old(service.store)[id := service.store[id]]
      ensures r.Success? ==> Id(service.store[id]) == Some(id)
      ensures r.Success? ==> service.store[id].props.Keys == old(service.store)[id].props.Keys
      ensures r.Success? ==> forall k :: k in service.store[id].props && k != IdProperty ==>
        service.store[id].props[k] == if k in toEntity(vo).props then toEntity(vo).props[k] else old(service.store)[id].props[k]
    {
      var toUpdate := toEntity(vo);
      var updated := service.Update(id, toUpdate);
      if updated.Failure? {
        return Failure(updated.error);
      }
      r := Success(Reply(OK, toVO(updated.value)));
    }

    /**
     * PATCH: an UpdaterExample built from the converted body, so only its
     * non-null properties are written and the id never is.
     */
    method PartialUpdate(id: Value, vo: VO) returns (r: Result<Reply<VO>, Exception>)
      requires Valid()
      modifies service
      ensures Valid()
      ensures r.Failure? <==> id !in old(service.store)
      ensures r.Failure? ==> r.error == NotFound(service.package, id) && service.store == old(service.store)
      ensures r.Success? ==> id in service.store && r.value == Reply(OK, toVO(service.store[id]))
      ensures r.Success? ==> service.store == old(service.store)[id := service.store[id]]
      ensures r.Success? ==> var probe := toEntity(vo).props; var before := old(service.store)[id].props;
        && service.store[id].props.Keys == before.Keys
        && Id(service.store[id]) == Some(id)
        && (forall k :: k in before && k != IdProperty && k in probe && probe[k].Some? ==> service.store[id].props[k] == probe[k])
        && (forall k :: k in before && (k !in probe || probe[k].None?) ==> service.store[id].props[k] == before[k])
    {
      var toUpdate := toEntity(vo);
      var example := FromProbe(toUpdate);
      ghost var before := service.store;
      var updated := service.PartialUpdate(id, example);
      if updated.Failure? {
        return Failure(updated.error);
      }
      PartialCopyFromProbe(example, before[id].props);
      r := Success(Reply(OK, toVO(updated.value)));
    }

    /** DELETE: 204 once the service has deleted, soft or hard; a not-found propagates. */
    method DeleteById(id: Value) returns (r: Result<Reply<()>, Exception>)
      requires Valid()
      modifies service
      ensures Valid()
      ensures id !in old(service.store) ==> r == Failure(NotFound(service.package, id)) && service.store == old(service.store)
      ensures id in old(service.store) && service.SoftDeletes(old(service.store)[id]) && service.softDeleteOverride.None? ==>
        r == Failure(UnsupportedOperationException) && service.store == old(service.store)
      ensures id in old(service.store) && service.SoftDeletes(old(service.store)[id]) && service.softDeleteOverride.Some? ==>
        r == Success(Reply(NO_CONTENT, ())) && service.store == old(service.store)[id := service.SoftDeleted(old(service.store)[id])]
      ensures id in old(service.store) && !service.SoftDeletes(old(service.store)[id]) ==>
        r == Success(Reply(NO_CONTENT, ())) && service.store == old(service.store) - {id}
      ensures r.Success? ==> (id in service.store <==> service.SoftDeletes(old(service.store)[id]))
      ensures r.Failure? ==> service.store == old(service.store)
    {
      var deleted := service.DeleteById(id);
      if deleted.Fail? {
        return Failure(deleted.error);
      }
      r := Success(Reply(NO_CONTENT, ()));
    }
  }
}
