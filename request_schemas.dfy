/**
 * The request schemas of app/schemas/request.py: the token request with
 * its grant-specific requirement, and the listing query parameters with
 * their defaults.
 */
module RequestSchemas {
  import opened Wrappers
  import opened Json
  import opened Enums
  import opened Tokens
  import opened UserSchemas

  // ---------------------------------------------------------------------
  // LoginRequest

  datatype LoginRequest = LoginRequest(grantType: GrantType, credentials: Option<UserCredentials>, refreshToken: Option<Jwt>)

  const MissingCredentials := "The 'credentials' object is required when 'grant_type' is 'password'."
  const MissingRefreshToken := "The 'refresh_token' field is required when 'grant_type' is 'refresh_token'."

  /** A request carries what its grant needs. */
  predicate CarriesGrantInput(req: LoginRequest)
  {
    && (req.grantType == Password ==> req.credentials.Some?)
    && (req.grantType == RefreshTokenGrant ==> req.refreshToken.Some?)
  }

  /** `LoginRequest.validate_login_request`: the request itself, or the message of the grant's missing input. */
  function ValidateLoginRequest(req: LoginRequest): (r: Result<LoginRequest, string>)
    ensures r.Ok? <==> CarriesGrantInput(req)
    ensures r.Ok? ==> r.value == req
    ensures req.grantType == Password && req.credentials.None? ==> r == Err(MissingCredentials)
    ensures req.grantType == RefreshTokenGrant && req.refreshToken.None? ==> r == Err(MissingRefreshToken)
  {
    if req.grantType == Password && req.credentials.None? then Err(MissingCredentials)
    else if req.grantType == RefreshTokenGrant && req.refreshToken.None? then Err(MissingRefreshToken)
    else Ok(req)
  }

  /** The other grant's field is neither required nor removed. */
  lemma ExtraGrantInputKept(creds: UserCredentials, token: Jwt)
    ensures ValidateLoginRequest(LoginRequest(Password, Some(creds), Some(token))) ==
              Ok(LoginRequest(Password, Some(creds), Some(token)))
    ensures ValidateLoginRequest(LoginRequest(RefreshTokenGrant, Some(creds), Some(token))) ==
              Ok(LoginRequest(RefreshTokenGrant, Some(creds), Some(token)))
    ensures ValidateLoginRequest(LoginRequest(RefreshTokenGrant, Some(creds), None)) == Err(MissingRefreshToken)
  {
  }

  // ---------------------------------------------------------------------
  // QueryParams

  datatype SortOrder = Asc | Desc
  {
    function Value(): string
    {
      match this
      case Asc => "asc"
      case Desc => "desc"
    }
  }

  /**
   * Validated query parameters: the paging and sorting fields, the
   * `is_deleted` filter, and every other field (declared or extra) as JSON.
   */
  datatype QueryParams = QueryParams(
    sortBy: string,
    sortOrder: SortOrder,
    page: int,
    perPage: int,
    isDeleted: Option<bool>,
    others: map<string, Json>)

  /** The fields that are not filters. */
  const PagingFields: set<string> := {"sort_by", "sort_order", "page", "per_page"}

  /** The declared filter fields other than `is_deleted`; each defaults to null. */
  const OtherDeclaredFilters: set<string> :=
    {"is_hidden", "is_verified", "is_approved", "status", "type", "is_subcategory", "expand", "q"}

  /** The declared type of a filter field; each also admits null. */
  datatype FilterType = BoolOrNone | IntOrNone | IntListOrNone | StrOrNone

  /** `bool | None` for the flags, `list[int] | None` for status, `int | None` for type, `str | None` for q. */
  function FilterTypeOf(k: string): FilterType
    requires k in OtherDeclaredFilters
  {
    if k == "status" then IntListOrNone
    else if k == "type" then IntOrNone
    else if k == "q" then StrOrNone
    else BoolOrNone
  }

  predicate HasFilterType(j: Json, t: FilterType)
  {
    || j.JNull?
    || match t
       case BoolOrNone => j.JBool?
       case IntOrNone => j.JInt?
       case IntListOrNone => j.JArray? && forall i :: 0 <= i < |j.items| ==> j.items[i].JInt?
       case StrOrNone => j.JStr?
  }

  /** Every declared filter that is present has its declared type. */
  predicate FiltersTyped(raw: map<string, Json>)
  {
    forall k :: k in OtherDeclaredFilters && k in raw ==> HasFilterType(raw[k], FilterTypeOf(k))
  }

  predicate WellFormed(q: QueryParams)
  {
    && (forall k :: k in q.others ==> k !in PagingFields && k != "is_deleted")
    && OtherDeclaredFilters <= q.others.Keys
  }

  /** The fields a query keeps besides paging and `is_deleted`: the declared filters (null when absent) and the extras. */
  function OthersOf(raw: map<string, Json>): (m: map<string, Json>)
    ensures m.Keys == OtherDeclaredFilters + (raw.Keys - PagingFields - {"is_deleted"})
    ensures forall k :: k in m ==> k !in PagingFields && k != "is_deleted"
    ensures forall k :: k in raw && k !in PagingFields && k != "is_deleted" ==> k in m && m[k] == raw[k]
  {
    map k | k in OtherDeclaredFilters + (raw.Keys - PagingFields - {"is_deleted"}) :: if k in raw then raw[k] else JNull
  }

  /**
   * Validating the query: each paging field takes its default when absent
   * (`created_at`, `asc`, 1, 10); `sort_order` admits only 'asc' and 'desc'.
   */
  function ParseQueryParams(raw: map<string, Json>): (r: Result<QueryParams, string>)
    ensures r.Ok? ==> WellFormed(r.value) && FiltersTyped(raw)
    ensures r.Ok? && "sort_by" !in raw ==> r.value.sortBy == "created_at"
    ensures r.Ok? && "sort_order" !in raw ==> r.value.sortOrder == Asc
    ensures r.Ok? && "page" !in raw ==> r.value.page == 1
    ensures r.Ok? && "per_page" !in raw ==> r.value.perPage == 10
    ensures r.Ok? && "is_deleted" !in raw ==> r.value.isDeleted == None
    ensures "sort_order" in raw && raw["sort_order"] != JStr("asc") && raw["sort_order"] != JStr("desc") ==> r.Err?
    ensures r.Ok? && "sort_order" in raw ==> raw["sort_order"] == JStr(r.value.sortOrder.Value())
    ensures r.Ok? ==> forall k :: k in raw && k !in PagingFields && k != "is_deleted" ==> k in r.value.others && r.value.others[k] == raw[k]
  {
    var sortBy := if "sort_by" in raw then raw["sort_by"] else JStr("created_at");
    var sortOrder := if "sort_order" in raw then raw["sort_order"] else JStr("asc");
    var page := if "page" in raw then raw["page"] else JInt(1);
    var perPage := if "per_page" in raw then raw["per_page"] else JInt(10);
    var isDeleted := if "is_deleted" in raw then raw["is_deleted"] else JNull;
    if !sortBy.JStr? then Err("sort_by: Input should be a valid string")
    else if sortOrder != JStr("asc") && sortOrder != JStr("desc") then Err("sort_order: Input should be 'asc' or 'desc'")
    else if !page.JInt? then Err("page: Input should be a valid integer")
    else if !perPage.JInt? then Err("per_page: Input should be a valid integer")
    else if !isDeleted.JNull? && !isDeleted.JBool? then Err("is_deleted: Input should be a valid boolean")
    else if !FiltersTyped(raw) then Err("filter: Input should match the field's declared type")
    else
      Ok(QueryParams(sortBy.s, if sortOrder == JStr("asc") then Asc else Desc, page.i, perPage.i,
                     if isDeleted.JBool? then Some(isDeleted.b) else None, OthersOf(raw)))
  }

  /** Every field present has its declared type; absent fields take their defaults. */
  predicate Admissible(raw: map<string, Json>)
  {
    && ("sort_by" in raw ==> raw["sort_by"].JStr?)
    && ("sort_order" in raw ==> raw["sort_order"] == JStr("asc") || raw["sort_order"] == JStr("desc"))
    && ("page" in raw ==> raw["page"].JInt?)
    && ("per_page" in raw ==> raw["per_page"].JInt?)
    && ("is_deleted" in raw ==> raw["is_deleted"].JNull? || raw["is_deleted"].JBool?)
    && FiltersTyped(raw)
  }

  /** The query validates exactly when every field present has its declared type. */
  lemma QueryAccepted(raw: map<string, Json>)
    ensures ParseQueryParams(raw).Ok? <==> Admissible(raw)
  {
  }

  /** A status filter must be a list of integers: text is refused, a list of integers accepted. */
  lemma StatusFilterTyped(text: string, codes: seq<int>)
    ensures ParseQueryParams(map["status" := JStr(text)]).Err?
    ensures ParseQueryParams(map["status" := JArray(seq(|codes|, i requires 0 <= i < |codes| => JInt(codes[i])))]).Ok?
  {
    QueryAccepted(map["status" := JStr(text)]);
    QueryAccepted(map["status" := JArray(seq(|codes|, i requires 0 <= i < |codes| => JInt(codes[i])))]);
    var ok := map["status" := JArray(seq(|codes|, i requires 0 <= i < |codes| => JInt(codes[i])))];
    assert FiltersTyped(ok) by {
      forall k | k in OtherDeclaredFilters && k in ok
        ensures HasFilterType(ok[k], FilterTypeOf(k))
      {
        assert k == "status";
      }
    }
    var bad := map["status" := JStr(text)];
    assert !HasFilterType(bad["status"], FilterTypeOf("status"));
  }

  /** With no parameters at all, the defaults apply and every filter is null. */
  lemma QueryDefaults()
    ensures ParseQueryParams(map[]).Ok?
    ensures var q := ParseQueryParams(map[]).value;
      q.sortBy == "created_at" && q.sortOrder == Asc && q.page == 1 && q.perPage == 10 && q.isDeleted == None
      && q.others == map k | k in OtherDeclaredFilters :: JNull
  {
  }

  /** `model_dump(mode='json')` of the query. */
  function Dump(q: QueryParams): (d: map<string, Json>)
    ensures d.Keys == q.others.Keys + PagingFields + {"is_deleted"}
    ensures forall k :: k in q.others && k !in PagingFields && k != "is_deleted" ==> d[k] == q.others[k]
  {
    q.others + map[
      "sort_by" := JStr(q.sortBy), "sort_order" := JStr(q.sortOrder.Value()), "page" := JInt(q.page),
      "per_page" := JInt(q.perPage), "is_deleted" := if q.isDeleted.Some? then JBool(q.isDeleted.value) else JNull]
  }

  /** The `filters` reported in a listing's meta: the dump without the paging fields. */
  function Filters(q: QueryParams): (f: map<string, Json>)
    requires WellFormed(q)
    ensures f.Keys == q.others.Keys + {"is_deleted"}
    ensures forall k :: k in PagingFields ==> k !in f
    ensures forall k :: k in q.others ==> f[k] == q.others[k]
    ensures f["is_deleted"] == if q.isDeleted.Some? then JBool(q.isDeleted.value) else JNull
  {
    Dump(q) - PagingFields
  }
}
