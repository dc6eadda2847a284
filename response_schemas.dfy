/**
 * The response envelope of app/schemas/response.py: pagination arithmetic,
 * the first/last/next/previous links, and `ResponseModel` with its
 * listing constructor.
 */
module ResponseSchemas {
  import opened Wrappers
  import opened Strings
  import opened Json
  import opened DbErrors
  import opened RequestSchemas

  // ---------------------------------------------------------------------
  // ResponsePaginationModel

  datatype Pagination = Pagination(currentPage: int, perPage: int, totalItems: nat)
  {
    /** `total_pages`: 0 for no items, otherwise the fewest pages of `perPage` that hold every item. */
    function TotalPages(): (n: nat)
      requires perPage > 0
      ensures totalItems == 0 ==> n == 0
      ensures totalItems > 0 ==> (n - 1) * perPage < totalItems <= n * perPage
    {
      if totalItems == 0 then 0 else (totalItems + perPage - 1) / perPage
    }

    /** `next_page`: the following page when it does not pass the last. */
    function NextPage(): (r: Option<int>)
      requires perPage > 0
      ensures r.Some? <==> currentPage + 1 <= TotalPages()
      ensures r.Some? ==> r.value == currentPage + 1
    {
      if currentPage + 1 > TotalPages() then None else Some(currentPage + 1)
    }

    /** `previous_page`: the page before, when it is at least 1. */
    function PreviousPage(): (r: Option<int>)
      ensures r.Some? <==> currentPage >= 2
      ensures r.Some? ==> r.value == currentPage - 1
    {
      if currentPage - 1 < 1 then None else Some(currentPage - 1)
    }
  }

  /** The page count is the only one that fits: fewer pages cannot hold the items, and one more would be empty. */
  lemma TotalPagesIsLeast(p: Pagination, m: nat)
    requires p.perPage > 0
    ensures m * p.perPage >= p.totalItems ==> m >= p.TotalPages()
  {
    var n := p.TotalPages();
    if m * p.perPage >= p.totalItems && m < n {
      assert m <= n - 1;
      assert m * p.perPage <= (n - 1) * p.perPage by {
        MulMonotone(m, n - 1, p.perPage);
      }
    }
  }

  lemma MulMonotone(a: nat, b: nat, c: nat)
    requires a <= b
    ensures a * c <= b * c
  {
  }

  /** Within the page range, the neighbours named by next and previous are again pages of the range. */
  lemma NeighboursStayInRange(p: Pagination)
    requires p.perPage > 0 && 1 <= p.currentPage <= p.TotalPages()
    ensures p.NextPage().Some? ==> 1 <= p.NextPage().value <= p.TotalPages()
    ensures p.PreviousPage().Some? ==> 1 <= p.PreviousPage().value <= p.TotalPages()
    ensures p.currentPage == p.TotalPages() <==> p.NextPage().None?
    ensures p.currentPage == 1 <==> p.PreviousPage().None?
  {
  }

  // ---------------------------------------------------------------------
  // ResponseLinkModel

  /** A URL's query as `parse_qs` reads it: each name with its list of values. */
  type QueryMap = map<string, seq<string>>

  /** The integer a link carries under `name`, read back the way `parse_qs` and `int()` would. */
  function QueryInt(q: QueryMap, name: string): Option<int>
  {
    if name in q && |q[name]| == 1 then ParseInt(q[name][0]) else None
  }

  /**
   * `update_query_params(url, {'page': page, 'per_page': perPage})`: the
   * query with `page` and `per_page` replaced; every other parameter kept.
   */
  function UpdateQueryParams(query: QueryMap, page: int, perPage: int): (r: QueryMap)
    ensures r.Keys == query.Keys + {"page", "per_page"}
    ensures QueryInt(r, "page") == Some(page) && QueryInt(r, "per_page") == Some(perPage)
    ensures forall k :: k in query && k != "page" && k != "per_page" ==> r[k] == query[k]
  {
    IntToStringRoundTrip(page);
    IntToStringRoundTrip(perPage);
    query["page" := [IntToString(page)]]["per_page" := [IntToString(perPage)]]
  }

  /** A link that leads to page `page` of the same listing, with the same page size. */
  predicate LeadsTo(link: QueryMap, url: QueryMap, page: int, perPage: int)
  {
    && QueryInt(link, "page") == Some(page)
    && QueryInt(link, "per_page") == Some(perPage)
    && (forall k :: k in url && k != "page" && k != "per_page" ==> k in link && link[k] == url[k])
  }

  datatype Links = Links(pagination: Pagination, url: QueryMap)
  {
    function First(): (r: Option<QueryMap>)
      requires pagination.perPage > 0
      ensures r.Some? <==> pagination.TotalPages() >= 1
      ensures r.Some? ==> LeadsTo(r.value, url, 1, pagination.perPage)
    {
      if pagination.TotalPages() < 1 then None else Some(UpdateQueryParams(url, 1, pagination.perPage))
    }

    function Last(): (r: Option<QueryMap>)
      requires pagination.perPage > 0
      ensures r.Some? <==> pagination.TotalPages() >= 2
      ensures r.Some? ==> LeadsTo(r.value, url, pagination.TotalPages(), pagination.perPage)
    {
      if pagination.TotalPages() < 2 then None
      else Some(UpdateQueryParams(url, pagination.TotalPages(), pagination.perPage))
    }

    function Next(): (r: Option<QueryMap>)
      requires pagination.perPage > 0
      ensures r.Some? <==> pagination.NextPage().Some?
      ensures r.Some? ==> LeadsTo(r.value, url, pagination.currentPage + 1, pagination.perPage)
    {
      match pagination.NextPage()
      case None => None
      case Some(n) => Some(UpdateQueryParams(url, n, pagination.perPage))
    }

    function Previous(): (r: Option<QueryMap>)
      requires pagination.perPage > 0
      ensures r.Some? <==> pagination.PreviousPage().Some?
      ensures r.Some? ==> LeadsTo(r.value, url, pagination.currentPage - 1, pagination.perPage)
    {
      match pagination.PreviousPage()
      case None => None
      case Some(n) => Some(UpdateQueryParams(url, n, pagination.perPage))
    }
  }

  /** A single page of results has a first link but no last, next or previous one. */
  lemma SinglePageLinks(url: QueryMap, perPage: int, totalItems: nat)
    requires perPage > 0 && 0 < totalItems <= perPage
    ensures var links := Links(Pagination(1, perPage, totalItems), url);
      links.First().Some? && links.Last().None? && links.Next().None? && links.Previous().None?
  {
    var p := Pagination(1, perPage, totalItems);
    assert p.TotalPages() == 1 by {
      TotalPagesIsLeast(p, 1);
    }
  }

  // ---------------------------------------------------------------------
  // ResponseModel

  datatype Meta = Meta(sortBy: Option<string>, sortOrder: Option<string>, filters: Option<map<string, Json>>)

  /** The response envelope; the request id and the timestamp are not part of this model. */
  datatype ResponseModel<P> = ResponseModel(
    status: int,
    success: bool,
    payload: Option<P>,
    message: Option<string>,
    errors: Option<seq<ErrorEntry>>,
    pagination: Option<Pagination>,
    links: Option<Links>,
    meta: Option<Meta>)

  /** The failure envelope the services build from `handle_db_errors`. */
  function Failure<P>(err: DetailedError): (r: ResponseModel<P>)
    ensures !r.success && r.status == err.statusCode && r.payload.None?
    ensures r.message == Some(err.message) && r.errors == Some(err.errors)
  {
    ResponseModel(err.statusCode, false, None, Some(err.message), Some(err.errors), None, None, None)
  }

  /** A success envelope with neither pagination, links nor meta. */
  function Success<P>(status: int, payload: Option<P>, message: Option<string>): (r: ResponseModel<P>)
    ensures r.success && r.status == status && r.payload == payload && r.message == message
    ensures r.errors.None? && r.pagination.None? && r.links.None? && r.meta.None?
  {
    ResponseModel(status, true, payload, message, None, None, None, None)
  }

  /**
   * `ResponseModel.create_model`: the envelope of a listing, with the
   * pagination of the query's page, links over the request URL, and the
   * query's sort and filters as meta. A negative count fails validation.
   */
  function CreateModel<P>(url: QueryMap, q: QueryParams, status: int, success: bool, payload: Option<P>,
                          message: Option<string>, errors: Option<seq<ErrorEntry>>, resultCount: int): (r: Result<ResponseModel<P>, string>)
    requires WellFormed(q)
    ensures r.Ok? <==> resultCount >= 0
    ensures r.Ok? ==> r.value.pagination == Some(Pagination(q.page, q.perPage, resultCount))
    ensures r.Ok? ==> r.value.links == Some(Links(Pagination(q.page, q.perPage, resultCount), url))
    ensures r.Ok? ==> r.value.meta == Some(Meta(Some(q.sortBy), Some(q.sortOrder.Value()), Some(Filters(q))))
    ensures r.Ok? ==> var f := r.value.meta.value.filters.value;
                      && f.Keys == q.others.Keys + {"is_deleted"}
                      && (forall k :: k in PagingFields ==> k !in f)
                      && (forall k :: k in q.others ==> f[k] == q.others[k])
                      && f["is_deleted"] == (if q.isDeleted.Some? then JBool(q.isDeleted.value) else JNull)
    ensures r.Ok? ==> r.value.status == status && r.value.success == success && r.value.payload == payload
    ensures r.Ok? ==> r.value.message == message && r.value.errors == errors
  {
    if resultCount < 0 then Err("total_items: Input should be greater than or equal to 0")
    else
      var pagination := Pagination(q.page, q.perPage, resultCount);
      Ok(ResponseModel(status, success, payload, message, errors, Some(pagination), Some(Links(pagination, url)),
                       Some(Meta(Some(q.sortBy), Some(q.sortOrder.Value()), Some(Filters(q))))))
  }
}
