/**
 * The search endpoints of app/Http/Controllers/AdvertisementController.php:
 * `index` (dispatch to the index, with the database as fallback),
 * `advancedSearch` (database filtering, relevance ranking, manual
 * pagination), `suggestions` with its database fallback, and the rules
 * they share: page size, sort allow-lists and the index filter map.
 */
module SearchController {
  import opened Wrappers
  import opened Text
  import opened Listings
  import opened IndexGateway
  import opened Collections

  // ---------------------------------------------------------------------
  // Requests and responses
  // ---------------------------------------------------------------------

  /** The query parameters the search endpoints read; None is a missing parameter. */
  datatype Request = Request(
    search: Option<string>,
    category: Option<string>,
    location: Option<string>,
    minPrice: Option<int>,
    maxPrice: Option<int>,
    sortBy: Option<string>,
    sortOrder: Option<string>,
    page: Option<int>,
    perPage: Option<int>,
    q: Option<string>)

  /** `$request->has(p) && !empty($request->p)`. */
  predicate Filled(p: Option<string>) {
    p.Some? && !PhpEmpty(p.value)
  }

  /** The `pagination` block of a manually paginated response. */
  datatype Pagination = Pagination(currentPage: int, perPage: int, total: int, lastPage: int)

  /** The `data` part of a successful response, by endpoint path. */
  datatype Response =
    | Listing(rows: seq<Advertisement>, perPage: int, sort: Option<SortSpec>, fallback: bool)
    | IndexPage(hits: seq<Document>, pagination: Pagination, processingTime: int, facets: Facets)
    | RankedPage(data: seq<RankedRow>, pagination: Pagination)

  /** A record in `advancedSearch`'s `data`, carrying `relevance_score` when a search was given. */
  datatype RankedRow = RankedRow(ad: Advertisement, relevanceScore: Option<int>)

  /**
   * An error that escapes the endpoint: PHP 8 raises `DivisionByZeroError` for
   * `/ 0`, and `orderBy` throws `InvalidArgumentException` for a direction other
   * than asc or desc where no handler is left to catch it.
   */
  datatype ServerError = DivisionByZero | InvalidOrderDirection

  // ---------------------------------------------------------------------
  // Page size, sorting and the price bounds each path uses
  // ---------------------------------------------------------------------

  /** `min($request->get('per_page', 15), 50)`. */
  function PageSize(req: Request): int {
    Min(req.perPage.GetOr(15), 50)
  }

  /** `$request->get('page', 1)`. */
  function CurrentPage(req: Request): int {
    req.page.GetOr(1)
  }

  /** `($currentPage - 1) * $perPage`. */
  function PageOffset(page: int, perPage: int): int {
    (page - 1) * perPage
  }

  lemma PageSizeClamp(req: Request)
    ensures PageSize(req) <= 50
    ensures req.perPage.None? ==> PageSize(req) == 15
    ensures req.perPage.Some? && req.perPage.value <= 50 ==> PageSize(req) == req.perPage.value
  {
  }

  const DbSortFields: seq<string> := ["title", "price", "created_at", "expires_at"]
  const IndexSortFields: seq<string> := ["price", "created_at", "expires_at"]

  function SortColumn(req: Request): string {
    req.sortBy.GetOr("created_at")
  }

  function SortDirection(req: Request): string {
    req.sortOrder.GetOr("desc")
  }

  /** A database path refuses the request: an allowed sort column with a direction `orderBy` rejects. */
  predicate DbSortRejected(req: Request) {
    SortColumn(req) in DbSortFields && !ValidDirection(SortDirection(req))
  }

  /**
   * The ORDER BY the database paths apply: only an allowed column, with the
   * direction lower-cased, and only when `orderBy` accepts that direction.
   */
  function DbSort(req: Request): (s: Option<SortSpec>)
    ensures s.Some? <==> SortColumn(req) in DbSortFields && !DbSortRejected(req)
    ensures s.Some? ==> s.value.column == SortColumn(req) && s.value.direction == Lower(SortDirection(req))
    ensures s.Some? ==> s.value.direction == "asc" || s.value.direction == "desc"
  {
    if SortColumn(req) in DbSortFields && ValidDirection(SortDirection(req))
    then Some(SortSpec(SortColumn(req), Lower(SortDirection(req)))) else None
  }

  /** The `sort` option the index path sends, `"field:order"`, only for an allowed field. */
  function IndexSort(req: Request): (s: Option<string>)
    ensures s.Some? <==> SortColumn(req) in IndexSortFields
    ensures s.Some? ==> var n := |SortColumn(req)|;
      && |s.value| == n + 1 + |SortDirection(req)|
      && s.value[..n] == SortColumn(req) && s.value[n] == ':' && s.value[n + 1..] == SortDirection(req)
  {
    if SortColumn(req) in IndexSortFields then Some(SortColumn(req) + ":" + SortDirection(req)) else None
  }

  /**
   * The index allow-list is the database one without `title`, and every field
   * it lets through is one the index declares sortable.
   */
  lemma SortAllowLists()
    ensures forall f :: f in IndexSortFields ==> f in DbSortFields && f in SortableAttributes
    ensures "title" in DbSortFields && "title" !in IndexSortFields
  {
  }

  /** `$request->min_price ? (float) $request->min_price : null`: a zero minimum is dropped. */
  function DbMinBound(req: Request): Option<int> {
    if req.minPrice.Some? && req.minPrice.value != 0 then req.minPrice else None
  }

  /** `$request->has('max_price') ? (float) $request->max_price : null`. */
  function DbMaxBound(req: Request): Option<int> {
    req.maxPrice
  }

  // ---------------------------------------------------------------------
  // The database paths
  // ---------------------------------------------------------------------

  /** What the scope chain of a database path admits; `withSearch` says whether it applies `search`. */
  predicate DbAdmits(req: Request, now: int, withSearch: bool, ad: Advertisement) {
    && IsActiveAt(ad, now)
    && (withSearch && Filled(req.search) ==> MatchesSearch(ad, req.search.value))
    && (Filled(req.category) ==> InCategory(ad, req.category.value))
    && (Filled(req.location) ==> InLocation(ad, req.location.value))
    && InPriceRange(ad, DbMinBound(req), DbMaxBound(req))
  }

  /** The records of the table a database path returns, in table order. */
  function Eligible(table: seq<Advertisement>, req: Request, now: int, withSearch: bool): (rows: seq<Advertisement>)
    ensures forall ad :: ad in rows <==> ad in table && DbAdmits(req, now, withSearch, ad)
    decreases |table|
  {
    if |table| == 0 then []
    else
      var last := table[|table| - 1];
      Eligible(table[..|table| - 1], req, now, withSearch) + (if DbAdmits(req, now, withSearch, last) then [last] else [])
  }

  /** A query whose clauses admit exactly the eligible records selects exactly the eligible rows. */
  lemma {:induction false} SelectEligible(table: seq<Advertisement>, clauses: seq<Clause>, req: Request, now: int, withSearch: bool)
    requires forall ad :: Admits(clauses, ad) <==> DbAdmits(req, now, withSearch, ad)
    ensures Select(table, clauses) == Eligible(table, req, now, withSearch)
    decreases |table|
  {
    if |table| > 0 {
      SelectEligible(table[..|table| - 1], clauses, req, now, withSearch);
    }
  }

  /** The scope chain shared by `index`, `fallbackSearch` and `advancedSearch`. */
  method DbQuery(req: Request, now: int, withSearch: bool) returns (query: AdQuery)
    ensures fresh(query)
    ensures query.order == None
    ensures forall ad :: Admits(query.clauses, ad) <==> DbAdmits(req, now, withSearch, ad)
  {
    query := new AdQuery.Active(now);
    if withSearch && Filled(req.search) {
      query.Search(req.search.value);
    }
    if Filled(req.category) {
      query.Category(req.category.value);
    }
    if Filled(req.location) {
      query.Location(req.location.value);
    }
    if req.minPrice.Some? || req.maxPrice.Some? {
      query.PriceRange(DbMinBound(req), DbMaxBound(req));
    }
  }

  /**
   * The listing of `index` without a search term (`withSearch` false, no fallback
   * flag) and of `fallbackSearch` (`withSearch` true, fallback flag set): the
   * eligible rows, the ORDER BY and the page size handed to `paginate`.
   */
  method DbListing(req: Request, table: seq<Advertisement>, now: int, withSearch: bool)
    returns (resp: Result<Response, ServerError>)
    ensures resp.Err? <==> DbSortRejected(req)
    ensures resp.Err? ==> resp.error == InvalidOrderDirection
    ensures resp.Ok? ==> resp.value == Listing(Eligible(table, req, now, withSearch), PageSize(req), DbSort(req), withSearch)
  {
    var query := DbQuery(req, now, withSearch);
    var sortBy := SortColumn(req);
    var sortOrder := SortDirection(req);
    if sortBy in DbSortFields {
      var ok := query.OrderBy(sortBy, sortOrder);
      if !ok {
        return Err(InvalidOrderDirection);
      }
    }
    var perPage := PageSize(req);
    SelectEligible(table, query.clauses, req, now, withSearch);
    resp := Ok(Listing(query.Get(table), perPage, query.order, withSearch));
  }

  /** A zero minimum is no lower bound on the database paths; a maximum always is. */
  lemma DbPriceBounds(req: Request, now: int, withSearch: bool, ad: Advertisement)
    requires req.minPrice == Some(0) && req.maxPrice.None?
    ensures DbAdmits(req, now, withSearch, ad) <==> DbAdmits(req.(minPrice := None), now, withSearch, ad)
    ensures ad.price == Some(-1) ==> InPriceRange(ad, DbMinBound(req), DbMaxBound(req))
  {
  }

  // ---------------------------------------------------------------------
  // advancedSearch: ranking and manual pagination
  // ---------------------------------------------------------------------

  /** The relevance score as the sort key of `sortByDesc('relevance_score')`. */
  function ScoreKey(term: string): Advertisement -> int {
    ad => Score(ad, term)
  }

  /** The full result list of `advancedSearch` before slicing. */
  function Ranked(req: Request, table: seq<Advertisement>, now: int): seq<Advertisement> {
    var rows := Eligible(table, req, now, true);
    if Filled(req.search) then SortByDesc(rows, ScoreKey(req.search.value)) else rows
  }

  /**
   * With a search term the list is a rearrangement of the eligible records,
   * in non-increasing score, equal scores in table order; without one it is the
   * eligible records in table order.
   */
  lemma RankedOrder(req: Request, table: seq<Advertisement>, now: int)
    ensures multiset(Ranked(req, table, now)) == multiset(Eligible(table, req, now, true))
    ensures Filled(req.search) ==> NonIncreasing(Ranked(req, table, now), ScoreKey(req.search.value))
    ensures Filled(req.search) ==> forall k ::
      WithKey(Ranked(req, table, now), ScoreKey(req.search.value), k)
        == WithKey(Eligible(table, req, now, true), ScoreKey(req.search.value), k)
    ensures !Filled(req.search) ==> Ranked(req, table, now) == Eligible(table, req, now, true)
  {
    var rows := Eligible(table, req, now, true);
    if Filled(req.search) {
      var key := ScoreKey(req.search.value);
      SortByDescPermutes(rows, key);
      SortByDescOrders(rows, key);
      forall k ensures WithKey(Ranked(req, table, now), key, k) == WithKey(rows, key, k) {
        SortByDescStable(rows, key, k);
      }
    }
  }

  /** A record is in the list exactly when it is in the table and every requested filter admits it. */
  lemma RankedMembers(req: Request, table: seq<Advertisement>, now: int, ad: Advertisement)
    ensures ad in Ranked(req, table, now) <==> ad in table && DbAdmits(req, now, true, ad)
  {
    RankedOrder(req, table, now);
    assert ad in Ranked(req, table, now) <==> ad in multiset(Ranked(req, table, now));
  }

  /**
   * The `map` that sets `relevance_score` on each record when a search was
   * given; without one the records go out bare.
   */
  method ScoreRows(rows: seq<Advertisement>, req: Request) returns (scored: seq<RankedRow>)
    ensures ScoredAs(scored, rows, req)
  {
    scored := [];
    var i := 0;
    while i < |rows|
      invariant 0 <= i <= |rows| && |scored| == i
      invariant forall j :: 0 <= j < i ==> scored[j].ad == rows[j]
      invariant Filled(req.search) ==> forall j :: 0 <= j < i ==> scored[j].relevanceScore == Some(Score(rows[j], req.search.value))
      invariant !Filled(req.search) ==> forall j :: 0 <= j < i ==> scored[j].relevanceScore.None?
    {
      if Filled(req.search) {
        var score := RelevanceScore(rows[i], req.search.value);
        scored := scored + [RankedRow(rows[i], Some(score))];
      } else {
        scored := scored + [RankedRow(rows[i], None)];
      }
      i := i + 1;
    }
  }

  /**
   * `data` is `rows` in order, each with its relevance score for the request's
   * search when one is given, and with none otherwise.
   */
  predicate ScoredAs(data: seq<RankedRow>, rows: seq<Advertisement>, req: Request) {
    && |data| == |rows|
    && (forall i :: 0 <= i < |rows| ==> data[i].ad == rows[i])
    && (Filled(req.search) ==> forall i :: 0 <= i < |rows| ==> data[i].relevanceScore == Some(Score(rows[i], req.search.value)))
    && (!Filled(req.search) ==> forall i :: 0 <= i < |rows| ==> data[i].relevanceScore.None?)
  }

  /** The scored rows of any page of a searched ranking carry non-increasing scores. */
  lemma RankedPageOrdered(req: Request, table: seq<Advertisement>, now: int, offset: int, length: int, data: seq<RankedRow>)
    requires Filled(req.search)
    requires ScoredAs(data, Slice(Ranked(req, table, now), offset, length), req)
    ensures forall i, j :: 0 <= i < j < |data| ==> data[i].relevanceScore.value >= data[j].relevanceScore.value
  {
    var key := ScoreKey(req.search.value);
    var page := Slice(Ranked(req, table, now), offset, length);
    RankedOrder(req, table, now);
    SliceNonIncreasing(Ranked(req, table, now), key, offset, length);
    forall i, j | 0 <= i < j < |data| ensures data[i].relevanceScore.value >= data[j].relevanceScore.value {
      assert key(page[i]) >= key(page[j]);
    }
  }

  /** A contiguous run of a list in non-increasing key order is in that order too. */
  lemma SliceNonIncreasing<T>(s: seq<T>, key: T -> int, offset: int, length: int)
    requires NonIncreasing(s, key)
    ensures NonIncreasing(Slice(s, offset, length), key)
  {
    var r := Slice(s, offset, length);
    var start := SliceStart(|s|, offset);
    forall i, j | 0 <= i < j < |r| ensures key(r[i]) >= key(r[j]) {
      assert r[i] == s[start + i] && r[j] == s[start + j];
    }
  }

  /**
   * `advancedSearch`; a zero page size fails on the division for `last_page`.
   * The score depends on the record alone, so it is attached to the records of
   * the page rather than to the whole list before sorting.
   */
  method AdvancedSearch(req: Request, table: seq<Advertisement>, now: int)
    returns (resp: Result<Response, ServerError>)
    ensures resp.Err? <==> PageSize(req) == 0
    ensures resp.Ok? ==> resp.value.RankedPage?
    ensures resp.Ok? ==> var all := Ranked(req, table, now);
      && ScoredAs(resp.value.data, Slice(all, PageOffset(CurrentPage(req), PageSize(req)), PageSize(req)), req)
      && resp.value.pagination == Pagination(CurrentPage(req), PageSize(req), |all|, CeilDiv(|all|, PageSize(req)))
    ensures resp.Ok? && Filled(req.search) ==> var data := resp.value.data;
      forall i, j :: 0 <= i < j < |data| ==> data[i].relevanceScore.value >= data[j].relevanceScore.value
  {
    var query := DbQuery(req, now, true);
    SelectEligible(table, query.clauses, req, now, true);
    var advertisements := query.Get(table);
    if Filled(req.search) {
      advertisements := SortByDesc(advertisements, ScoreKey(req.search.value));
    }
    assert advertisements == Ranked(req, table, now);
    var perPage := PageSize(req);
    var currentPage := CurrentPage(req);
    var offset := (currentPage - 1) * perPage;
    assert offset == PageOffset(CurrentPage(req), PageSize(req));
    var page := Slice(advertisements, offset, perPage);
    var paginatedItems := ScoreRows(page, req);
    if perPage == 0 {
      return Err(DivisionByZero);
    }
    if Filled(req.search) {
      RankedPageOrdered(req, table, now, offset, perPage, paginatedItems);
    }
    resp := Ok(RankedPage(paginatedItems,
      Pagination(currentPage, perPage, |advertisements|, CeilDiv(|advertisements|, perPage))));
  }

  /** For page >= 1 and a positive page size, the page is the run starting at the offset, at most one page long. */
  lemma PageIsRun<T>(all: seq<T>, page: int, perPage: int)
    requires page >= 1 && perPage >= 1
    ensures var off := PageOffset(page, perPage);
      Slice(all, off, perPage) == all[Min(off, |all|)..Min(off + perPage, |all|)]
    ensures |Slice(all, PageOffset(page, perPage), perPage)| <= perPage
  {
    MulStep(page, perPage);
    var off := PageOffset(page, perPage);
    assert off >= 0;
  }

  /** The pages 1..n laid end to end. */
  function Pages<T>(all: seq<T>, perPage: int, n: nat): seq<T> {
    if n == 0 then [] else Pages(all, perPage, n - 1) + Slice(all, PageOffset(n, perPage), perPage)
  }

  lemma {:induction false} PagesPrefix<T>(all: seq<T>, perPage: int, n: nat)
    requires perPage >= 1
    ensures Pages(all, perPage, n) == all[..Min(n * perPage, |all|)]
  {
    if n > 0 {
      PagesPrefix(all, perPage, n - 1);
      var lo := (n - 1) * perPage;
      var hi := lo + perPage;
      MulStep(n, perPage);
      PageIsRun(all, n, perPage);
      var a, b := Min(lo, |all|), Min(hi, |all|);
      assert Pages(all, perPage, n) == all[..a] + all[a..b];
      assert all[..a] + all[a..b] == all[..b];
    }
  }

  lemma MulStep(n: nat, p: int)
    requires n > 0 && p >= 1
    ensures (n - 1) * p + p == n * p
    ensures (n - 1) * p >= 0
  {
  }

  /**
   * With a positive page size, `last_page` pages cover the whole list exactly
   * once, and the last page is never empty: the pages before it hold fewer
   * records than the list.
   */
  lemma PagesCoverAll<T>(all: seq<T>, perPage: int)
    requires perPage >= 1
    ensures CeilDiv(|all|, perPage) >= 0
    ensures Pages(all, perPage, CeilDiv(|all|, perPage)) == all
    ensures CeilDiv(|all|, perPage) > 0 ==> (CeilDiv(|all|, perPage) - 1) * perPage < |all|
  {
    var c := CeilDiv(|all|, perPage);
    CeilDivBounds(|all|, perPage);
    assert c >= 0;
    PagesPrefix(all, perPage, c);
  }

  // ---------------------------------------------------------------------
  // The index path (`meiliSearch`)
  // ---------------------------------------------------------------------

  /** The `$filters` map `meiliSearch` fills. */
  function IndexFilters(req: Request): FilterMap {
    FilterMap(
      if Filled(req.category) then req.category else None,
      if Filled(req.location) then req.location else None,
      req.minPrice,
      req.maxPrice,
      Some(true))
  }

  /**
   * Fills the filter map step by step: `is_active` always, category and location
   * only when non-empty, the price bounds whenever present (zero included).
   */
  method BuildIndexFilters(req: Request) returns (filters: FilterMap)
    ensures filters == IndexFilters(req)
    ensures filters.isActive == Some(true)
    ensures filters.category.Some? <==> Filled(req.category)
    ensures filters.location.Some? <==> Filled(req.location)
    ensures filters.category.Some? ==> filters.category == req.category
    ensures filters.location.Some? ==> filters.location == req.location
    ensures filters.minPrice == req.minPrice && filters.maxPrice == req.maxPrice
  {
    filters := NoFilters;
    if Filled(req.category) {
      filters := filters.(category := req.category);
    }
    if Filled(req.location) {
      filters := filters.(location := req.location);
    }
    if req.minPrice.Some? || req.maxPrice.Some? {
      if req.minPrice.Some? {
        filters := filters.(minPrice := req.minPrice);
      }
      if req.maxPrice.Some? {
        filters := filters.(maxPrice := req.maxPrice);
      }
    }
    filters := filters.(isActive := Some(true));
  }

  /** The `$options` map `meiliSearch` passes to `search`. */
  function IndexOptions(req: Request): Options {
    var base := map["limit" := IntValue(PageSize(req)),
                    "offset" := IntValue(PageOffset(CurrentPage(req), PageSize(req)))];
    if IndexSort(req).Some? then base["sort" := ListValue([IndexSort(req).value])] else base
  }

  /** Fills the options: page size as limit, page offset, and a sort only for an allowed field. */
  method BuildIndexOptions(req: Request) returns (options: Options)
    ensures options == IndexOptions(req)
    ensures options.Keys == {"limit", "offset"} + (if SortColumn(req) in IndexSortFields then {"sort"} else {})
    ensures options["limit"] == IntValue(PageSize(req))
    ensures options["offset"] == IntValue((CurrentPage(req) - 1) * PageSize(req))
  {
    options := map["limit" := IntValue(PageSize(req)),
                   "offset" := IntValue((CurrentPage(req) - 1) * PageSize(req))];
    var sortBy := SortColumn(req);
    var sortOrder := SortDirection(req);
    if sortBy in IndexSortFields {
      options := options["sort" := ListValue([sortBy + ":" + sortOrder])];
    }
  }

  /**
   * Every index request carries a filter, and that filter ends with the
   * active flag; limit and offset are the page's.
   */
  lemma IndexRequestShape(req: Request, sent: Options)
    requires MergedOptions(IndexFilters(req), IndexOptions(req), sent)
    ensures "filter" in sent && sent["filter"] == TextValue(FilterString(IndexFilters(req)))
    ensures EndsWith(FilterString(IndexFilters(req)), "is_active = true")
    ensures sent["limit"] == IntValue(PageSize(req))
    ensures sent["offset"] == IntValue(PageOffset(CurrentPage(req), PageSize(req)))
    ensures ("sort" in sent) <==> SortColumn(req) in IndexSortFields
    ensures "sort" in sent ==> sent["sort"] == ListValue([SortColumn(req) + ":" + SortDirection(req)])
  {
    IndexFilterEndsActive(req);
    var options := IndexOptions(req);
    assert !IsEmptyFilters(IndexFilters(req));
    assert "limit" in options && options["limit"] == IntValue(PageSize(req));
    assert "offset" in options && options["offset"] == IntValue(PageOffset(CurrentPage(req), PageSize(req)));
    assert "sort" !in DefaultSearchOptions;
    assert ("sort" in options) <==> SortColumn(req) in IndexSortFields;
  }

  /** The index filter always closes with `is_active = true`. */
  lemma IndexFilterEndsActive(req: Request)
    ensures EndsWith(FilterString(IndexFilters(req)), "is_active = true")
  {
    FilterStringEndsWithActiveFlag(IndexFilters(req));
    assert "is_active = " + BoolLiteral(true) == "is_active = true";
  }

  /** A zero minimum price still becomes a `price >= 0` clause on the index path, unlike the database paths. */
  lemma ZeroMinimumOnIndexPath(req: Request)
    requires req.minPrice == Some(0)
    ensures IndexFilters(req).minPrice == Some(0)
    ensures DbMinBound(req) == None
  {
  }

  /**
   * How the engine reads the expression `buildFilterString` produces:
   * equality on category and location, bounds on price, equality on the flag.
   * Expiry is not part of it.
   */
  predicate IndexFilterAdmits(f: FilterMap, d: Document) {
    && (f.category.Some? ==> d.category == f.category)
    && (f.location.Some? ==> d.location == f.location)
    && (f.minPrice.Some? ==> d.price.Some? && d.price.value >= f.minPrice.value)
    && (f.maxPrice.Some? ==> d.price.Some? && d.price.value <= f.maxPrice.value)
    && (f.isActive.Some? ==> d.isActive == f.isActive.value)
  }

  /** An active record past its expiry is still served by the index path but not by the database paths. */
  lemma ExpiredListingOnIndexPath(req: Request, now: int, ad: Advertisement)
    requires !Filled(req.category) && !Filled(req.location) && req.minPrice.None? && req.maxPrice.None?
    requires ad.isActive && ad.expiresAt == Some(now - 1)
    ensures IndexFilterAdmits(IndexFilters(req), ToDocument(ad))
    ensures !DbAdmits(req, now, false, ad) && !DbAdmits(req, now, true, ad)
    ensures IsExpired(ad, now)
  {
  }

  /** A location that merely contains the requested one passes the database filter but not the index filter. */
  lemma LocationPathsDisagree(req: Request, ad: Advertisement, suffix: string)
    requires Filled(req.location) && suffix != ""
    requires ad.location == Some(req.location.value + suffix)
    ensures InLocation(ad, req.location.value)
    ensures !IndexFilterAdmits(IndexFilters(req), ToDocument(ad))
  {
    var loc := req.location.value;
    LowerAppend(loc, suffix);
    assert Lower(loc) <= Lower(loc + suffix);
    assert |loc + suffix| != |loc|;
  }

  /**
   * `meiliSearch`: builds the filters and options, asks the index, and
   * paginates by its total; `sent` is what the index was given.
   */
  method MeiliSearch(req: Request, engine: SearchEngine)
    returns (sent: Options, r: Result<Result<Response, ServerError>, IndexError>)
    requires Filled(req.search)
    ensures MergedOptions(IndexFilters(req), IndexOptions(req), sent)
    ensures engine(req.search.value, sent).Err? <==> r.Err?
    ensures r.Ok? ==> (r.value.Err? <==> PageSize(req) == 0)
    ensures r.Ok? && r.value.Err? ==> r.value.error == DivisionByZero
    ensures r.Ok? && r.value.Ok? ==> var reply := engine(req.search.value, sent).value;
      r.value.value == IndexPage(reply.hits,
        Pagination(CurrentPage(req), PageSize(req), reply.totalHits, CeilDiv(reply.totalHits, PageSize(req))),
        reply.processingTimeMs, reply.facetDistribution.GetOr(map[]))
  {
    var searchQuery := req.search.value;
    var filters := BuildIndexFilters(req);
    var options := BuildIndexOptions(req);
    var results;
    sent, results := Search(searchQuery, filters, options, engine);
    if results.Err? {
      return sent, Err(results.error);
    }
    var perPage := PageSize(req);
    if perPage == 0 {
      return sent, Ok(Err(DivisionByZero));
    }
    var res := results.value;
    r := Ok(Ok(IndexPage(res.hits,
      Pagination(CurrentPage(req), perPage, res.total, CeilDiv(res.total, perPage)),
      res.processingTime, res.facetDistribution)));
  }

  /**
   * `index`: a non-empty search goes to the index and falls back to the database
   * search when the index fails; otherwise the database listing is served and
   * the index is never consulted (`sent` is None). A rejected sort direction on
   * the listing is caught and retried by the fallback search, which rejects it
   * again with no handler around it.
   */
  method Index(req: Request, table: seq<Advertisement>, now: int, engine: SearchEngine)
    returns (sent: Option<Options>, resp: Result<Response, ServerError>)
    ensures sent.Some? <==> Filled(req.search)
    ensures sent.None? ==>
      resp == (if DbSortRejected(req) then Err(InvalidOrderDirection)
               else Ok(Listing(Eligible(table, req, now, false), PageSize(req), DbSort(req), false)))
    ensures sent.Some? ==> MergedOptions(IndexFilters(req), IndexOptions(req), sent.value)
    ensures sent.Some? && engine(req.search.value, sent.value).Err? ==>
      resp == (if DbSortRejected(req) then Err(InvalidOrderDirection)
               else Ok(Listing(Eligible(table, req, now, true), PageSize(req), DbSort(req), true)))
    ensures sent.Some? && engine(req.search.value, sent.value).Ok? ==>
      (resp.Err? <==> PageSize(req) == 0)
      && (resp.Err? ==> resp.error == DivisionByZero)
      && (resp.Ok? ==> var reply := engine(req.search.value, sent.value).value;
        resp.value == IndexPage(reply.hits,
          Pagination(CurrentPage(req), PageSize(req), reply.totalHits, CeilDiv(reply.totalHits, PageSize(req))),
          reply.processingTimeMs, reply.facetDistribution.GetOr(map[])))
  {
    if Filled(req.search) {
      var options, r := MeiliSearch(req, engine);
      sent := Some(options);
      if r.Err? {
        resp := DbListing(req, table, now, true);
        return;
      }
      return sent, r.value;
    }
    sent := None;
    var listing := DbListing(req, table, now, false);
    if listing.Err? {
      resp := DbListing(req, table, now, true);
      return;
    }
    resp := listing;
  }

  /** Without a search term, the fallback search selects the same rows as the plain listing. */
  lemma {:induction false} EligibleAgrees(table: seq<Advertisement>, req: Request, now: int)
    requires !Filled(req.search)
    ensures Eligible(table, req, now, true) == Eligible(table, req, now, false)
    decreases |table|
  {
    if |table| > 0 {
      EligibleAgrees(table[..|table| - 1], req, now);
    }
  }

  // ---------------------------------------------------------------------
  // Suggestions
  // ---------------------------------------------------------------------

  /** A column the fallback suggestions read. */
  datatype Column = TitleColumn | CategoryColumn | LocationColumn

  function ColumnValue(ad: Advertisement, c: Column): Option<string> {
    match c
    case TitleColumn => Some(ad.title)
    case CategoryColumn => ad.category
    case LocationColumn => ad.location
  }

  /**
   * `Advertisement::active()->where(c, 'LIKE', "%term%")->distinct()->pluck(c)`:
   * the values of the column, in table order, over active records whose value
   * contains the term.
   */
  function Matching(table: seq<Advertisement>, now: int, c: Column, term: string): (vs: seq<string>)
    ensures forall v :: v in vs <==> exists ad :: ad in table && IsActiveAt(ad, now) && ColumnValue(ad, c) == Some(v) && ContainsCI(v, term)
    decreases |table|
  {
    if |table| == 0 then []
    else
      var last := table[|table| - 1];
      var v := ColumnValue(last, c);
      Matching(table[..|table| - 1], now, c, term)
        + (if IsActiveAt(last, now) && v.Some? && ContainsCI(v.value, term) then [v.value] else [])
  }

  /** SQL `DISTINCT`: each value once, at its first position. */
  function Distinct(vs: seq<string>, seen: set<string>): (r: seq<string>)
    ensures forall v :: v in r <==> v in vs && v !in seen
    ensures forall i, j :: 0 <= i < j < |r| ==> r[i] != r[j]
    decreases |vs|
  {
    if |vs| == 0 then []
    else if vs[0] in seen then Distinct(vs[1..], seen)
    else [vs[0]] + Distinct(vs[1..], seen + {vs[0]})
  }

  /** `filter()`: drops the values PHP treats as false. */
  function DropFalsy(vs: seq<string>): (r: seq<string>)
    ensures forall v :: v in r <==> v in vs && !PhpEmpty(v)
    ensures |r| <= |vs|
  {
    if |vs| == 0 then [] else (if PhpEmpty(vs[0]) then [] else [vs[0]]) + DropFalsy(vs[1..])
  }

  function Tagged(kind: SuggestionKind, vs: seq<string>): (r: seq<Suggestion>)
    ensures |r| == |vs|
    ensures forall i :: 0 <= i < |vs| ==> r[i] == Suggestion(kind, vs[i], None, None)
  {
    if |vs| == 0 then [] else [Suggestion(kind, vs[0], None, None)] + Tagged(kind, vs[1..])
  }

  function TitleSuggestions(table: seq<Advertisement>, now: int, term: string): seq<string> {
    Take(Distinct(Matching(table, now, TitleColumn, term), {}), 5)
  }

  function CategorySuggestions(table: seq<Advertisement>, now: int, term: string): seq<string> {
    Take(DropFalsy(Distinct(Matching(table, now, CategoryColumn, term), {})), 5)
  }

  function LocationSuggestions(table: seq<Advertisement>, now: int, term: string): seq<string> {
    Take(DropFalsy(Distinct(Matching(table, now, LocationColumn, term), {})), 5)
  }

  /** The three lists tagged by source and merged in order, first ten kept. */
  function MergeSuggestions(titles: seq<string>, categories: seq<string>, locations: seq<string>): seq<Suggestion> {
    Take(Tagged(TitleKind, titles) + Tagged(CategoryKind, categories) + Tagged(LocationKind, locations), 10)
  }

  /** `fallbackSuggestions`: up to five titles, categories and locations, tagged and merged, first ten kept. */
  function FallbackSuggestions(table: seq<Advertisement>, now: int, term: string): seq<Suggestion> {
    MergeSuggestions(TitleSuggestions(table, now, term), CategorySuggestions(table, now, term),
      LocationSuggestions(table, now, term))
  }

  /** Taking ten from three blocks of at most five cuts only the third block. */
  lemma TakeTenOfThree<T>(a: seq<T>, b: seq<T>, c: seq<T>)
    requires |a| <= 5 && |b| <= 5
    ensures Take(a + b + c, 10) == a + b + Take(c, 10 - |a| - |b|)
  {
    var room := 10 - |a| - |b|;
    if |a + b + c| > 10 {
      assert (a + b + c)[..10] == a + b + c[..room];
    }
  }

  /** Tagging commutes with taking a prefix. */
  lemma TakeTagged(kind: SuggestionKind, vs: seq<string>, n: nat)
    ensures Take(Tagged(kind, vs), n) == Tagged(kind, Take(vs, n))
  {
    var l, r := Take(Tagged(kind, vs), n), Tagged(kind, Take(vs, n));
    assert |l| == |r|;
    forall i | 0 <= i < |l| ensures l[i] == r[i] {
    }
  }

  /** With at most five titles and five categories, the merge keeps them all and cuts only locations. */
  lemma MergeKeepsTitlesAndCategories(titles: seq<string>, categories: seq<string>, locations: seq<string>)
    requires |titles| <= 5 && |categories| <= 5
    ensures MergeSuggestions(titles, categories, locations)
      == Tagged(TitleKind, titles) + Tagged(CategoryKind, categories)
         + Tagged(LocationKind, Take(locations, 10 - |titles| - |categories|))
    ensures |MergeSuggestions(titles, categories, locations)| <= 10
  {
    TakeTenOfThree(Tagged(TitleKind, titles), Tagged(CategoryKind, categories), Tagged(LocationKind, locations));
    TakeTagged(LocationKind, locations, 10 - |titles| - |categories|);
  }

  /**
   * Titles come first, then categories, then locations; since five plus five
   * fit in ten, every title and category entry survives and only locations
   * are cut.
   */
  lemma FallbackSuggestionsLayout(table: seq<Advertisement>, now: int, term: string)
    ensures var titles := TitleSuggestions(table, now, term);
      var categories := CategorySuggestions(table, now, term);
      var locations := LocationSuggestions(table, now, term);
      && |titles| <= 5 && |categories| <= 5 && |locations| <= 5
      && FallbackSuggestions(table, now, term)
        == Tagged(TitleKind, titles) + Tagged(CategoryKind, categories)
           + Tagged(LocationKind, Take(locations, 10 - |titles| - |categories|))
      && |FallbackSuggestions(table, now, term)| <= 10
  {
    MergeKeepsTitlesAndCategories(TitleSuggestions(table, now, term), CategorySuggestions(table, now, term),
      LocationSuggestions(table, now, term));
  }

  /** Every fallback entry is a value of its column on an active record that contains the term; none repeats within a kind. */
  lemma FallbackSuggestionsSound(table: seq<Advertisement>, now: int, term: string)
    ensures forall v :: v in TitleSuggestions(table, now, term) ==>
      exists ad :: ad in table && IsActiveAt(ad, now) && ad.title == v && ContainsCI(v, term)
    ensures forall v :: v in CategorySuggestions(table, now, term) ==>
      !PhpEmpty(v) && exists ad :: ad in table && IsActiveAt(ad, now) && ad.category == Some(v) && ContainsCI(v, term)
    ensures forall v :: v in LocationSuggestions(table, now, term) ==>
      !PhpEmpty(v) && exists ad :: ad in table && IsActiveAt(ad, now) && ad.location == Some(v) && ContainsCI(v, term)
    ensures var t := TitleSuggestions(table, now, term); forall i, j :: 0 <= i < j < |t| ==> t[i] != t[j]
  {
    forall v | v in TitleSuggestions(table, now, term)
      ensures exists ad :: ad in table && IsActiveAt(ad, now) && ad.title == v && ContainsCI(v, term)
    {
      assert v in Matching(table, now, TitleColumn, term);
      var ad :| ad in table && IsActiveAt(ad, now) && ColumnValue(ad, TitleColumn) == Some(v) && ContainsCI(v, term);
    }
    forall v | v in CategorySuggestions(table, now, term)
      ensures !PhpEmpty(v) && exists ad :: ad in table && IsActiveAt(ad, now) && ad.category == Some(v) && ContainsCI(v, term)
    {
      assert v in Matching(table, now, CategoryColumn, term);
      var ad :| ad in table && IsActiveAt(ad, now) && ColumnValue(ad, CategoryColumn) == Some(v) && ContainsCI(v, term);
    }
    forall v | v in LocationSuggestions(table, now, term)
      ensures !PhpEmpty(v) && exists ad :: ad in table && IsActiveAt(ad, now) && ad.location == Some(v) && ContainsCI(v, term)
    {
      assert v in Matching(table, now, LocationColumn, term);
      var ad :| ad in table && IsActiveAt(ad, now) && ColumnValue(ad, LocationColumn) == Some(v) && ContainsCI(v, term);
    }
  }

  /**
   * `suggestions`: a query shorter than two characters answers an empty list
   * without consulting the index; otherwise the index's suggestions, or the
   * fallback ones (flagged) when the index fails.
   */
  method Suggestions(req: Request, table: seq<Advertisement>, now: int, engine: SuggestionEngine)
    returns (consulted: bool, suggestions: seq<Suggestion>, fallback: bool)
    ensures var term := req.q.GetOr("");
      && (consulted <==> |term| >= 2)
      && (!consulted ==> suggestions == [] && !fallback)
      && (consulted && engine(term, 10).Ok? ==> suggestions == SuggestionsFromHits(engine(term, 10).value, 10) && !fallback)
      && (consulted && engine(term, 10).Err? ==> suggestions == FallbackSuggestions(table, now, term) && fallback)
  {
    var searchTerm := req.q.GetOr("");
    if |searchTerm| < 2 {
      return false, [], false;
    }
    consulted := true;
    var r := GetSuggestions(searchTerm, 10, engine);
    if r.Err? {
      return consulted, FallbackSuggestions(table, now, searchTerm), true;
    }
    suggestions, fallback := r.value, false;
  }
}
