/** `getAllMenus` (also exported as `searchMenu`): filter, sort and paginate
    a snapshot of the collection. */
module MenuQuery {
  import opened Wrappers
  import opened JsNumber
  import opened Menu
  import opened Filters
  import opened Sorting
  import opened Pagination

  /** The `pagination` object of the response. */
  datatype PageInfo = PageInfo(total: nat, page: int, perPage: int, totalPages: PageCount)

  /** The response body: one page of items and the pagination metadata. */
  datatype Listing = Listing(data: seq<MenuItem>, pagination: PageInfo)

  /** What a query asks for once its parameters are read: the active
      filters in order, the sort (if any), the page number and the page
      size. */
  datatype Plan = Plan(criteria: seq<Criterion>, order: Option<SortOrder>, page: int, limit: int)

  /** The sort the query asks for, if its `sort` parameter is valid. */
  function SortOrderOf(query: Query): Option<SortOrder> {
    if IsValid(query.sort) then Some(ParseSort(query.sort.value)) else None
  }

  /** `pageNum`: the numeric `page` parameter, else 1. */
  function PageNumber(query: Query): (n: int)
    ensures NumericParam(query.page).None? ==> n == DefaultPage
    ensures NumericParam(query.page).Some? ==> n == NumericParam(query.page).value
  {
    NumericParam(query.page).GetOr(DefaultPage)
  }

  /** `limit`: the numeric `per_page` parameter, else 10. */
  function PageSize(query: Query): (n: int)
    ensures NumericParam(query.perPage).None? ==> n == DefaultPerPage
    ensures NumericParam(query.perPage).Some? ==> n == NumericParam(query.perPage).value
  {
    NumericParam(query.perPage).GetOr(DefaultPerPage)
  }

  /** `page=n` and `per_page=n` for an integer numeral `n` ask for page
      `n` and `n` items per page; an absent or invalid parameter gives page
      1 and 10 items per page. */
  lemma PageParams(snapshot: seq<MenuItem>, query: Query, n: int)
    ensures GetAllMenus(snapshot, query.(page := Some(ShowInt(n)))).pagination.page == n
    ensures GetAllMenus(snapshot, query.(perPage := Some(ShowInt(n)))).pagination.perPage == n
    ensures !IsValid(query.page) ==> GetAllMenus(snapshot, query).pagination.page == 1
    ensures !IsValid(query.perPage) ==> GetAllMenus(snapshot, query).pagination.perPage == 10
  {
    NumericParamOfNumeral(n);
  }

  /** How the handler reads the query. */
  function PlanOf(query: Query): Plan {
    Plan(Criteria(query), SortOrderOf(query), PageNumber(query), PageSize(query))
  }

  /** The sort stage: the filtered items, sorted when a sort is asked for. */
  function Ordered(filtered: seq<MenuItem>, order: Option<SortOrder>): (r: seq<MenuItem>)
    ensures multiset(r) == multiset(filtered)
    ensures |r| == |filtered|
    ensures order.None? ==> r == filtered
  {
    match order
    case None => filtered
    case Some(o) => SortItems(filtered, o)
  }

  /** The pipeline: filter in order, sort, cut the page. */
  function Run(snapshot: seq<MenuItem>, plan: Plan): (r: Listing)
    ensures r.pagination.total == |ApplyInOrder(snapshot, plan.criteria)|
    ensures r.pagination.page == plan.page && r.pagination.perPage == plan.limit
    ensures r.pagination.totalPages == TotalPages(r.pagination.total, plan.limit)
  {
    var filtered := ApplyInOrder(snapshot, plan.criteria);
    var ordered := Ordered(filtered, plan.order);
    var total := |filtered|;
    Listing(PageOf(ordered, plan.page, plan.limit),
            PageInfo(total, plan.page, plan.limit, TotalPages(total, plan.limit)))
  }

  /** `getAllMenus` over a snapshot of the collection. */
  function GetAllMenus(snapshot: seq<MenuItem>, query: Query): (r: Listing)
    ensures r.pagination.total == |Filtered(snapshot, query)|
    ensures r.pagination.page == PageNumber(query)
    ensures r.pagination.perPage == PageSize(query)
    ensures r.pagination.totalPages == TotalPages(r.pagination.total, r.pagination.perPage)
  {
    Run(snapshot, PlanOf(query))
  }

  /** Every page is a contiguous run of the sorted items. */
  lemma PageIsSlice<T>(xs: seq<T>, page: int, limit: int)
    ensures exists i, j :: 0 <= i <= j <= |xs| && PageOf(xs, page, limit) == xs[i..j]
  {
    var i, j := PageBounds(xs, page, limit);
  }

  /** Where a page starts and ends in the sequence it is cut from. */
  lemma PageBounds<T>(xs: seq<T>, page: int, limit: int) returns (i: nat, j: nat)
    ensures i <= j <= |xs| && PageOf(xs, page, limit) == xs[i..j]
  {
    var start := PageStart(page, limit);
    var s := SliceIndex(start, |xs|);
    var e := SliceIndex(start + limit, |xs|);
    if s < e {
      i, j := s, e;
    } else {
      i, j := 0, 0;
    }
  }

  /** Every item on the page comes from the snapshot and satisfies every
      filter, and `total` is the number of snapshot items that satisfy them
      all. */
  lemma RunSound(snapshot: seq<MenuItem>, plan: Plan)
    ensures var r := Run(snapshot, plan);
            && r.pagination.total == |KeepAll(snapshot, plan.criteria)|
            && forall k :: 0 <= k < |r.data| ==>
                 r.data[k] in snapshot && SatisfiesAll(r.data[k], plan.criteria)
  {
    var filtered := ApplyInOrder(snapshot, plan.criteria);
    var ordered := Ordered(filtered, plan.order);
    var data := PageOf(ordered, plan.page, plan.limit);
    assert Run(snapshot, plan).data == data;
    ApplyInOrderIsKeepAll(snapshot, plan.criteria);
    KeepAllMembers(snapshot, plan.criteria);
    OrderedMembers(filtered, plan.order);
    PageMembers(ordered, plan.page, plan.limit);
  }

  /** Sorting adds no item. */
  lemma OrderedMembers(filtered: seq<MenuItem>, order: Option<SortOrder>)
    ensures forall m :: m in Ordered(filtered, order) ==> m in filtered
  {
    var r := Ordered(filtered, order);
    forall m | m in r
      ensures m in filtered
    {
      assert m in multiset(r);
    }
  }

  /** A page holds items of the sequence it is cut from. */
  lemma PageMembers<T>(xs: seq<T>, page: int, limit: int)
    ensures forall k :: 0 <= k < |PageOf(xs, page, limit)| ==> PageOf(xs, page, limit)[k] in xs
  {
    var i, j := PageBounds(xs, page, limit);
    assert forall k :: 0 <= k < j - i ==> xs[i..j][k] == xs[i + k];
  }

  /** `getAllMenus` answers with items of the snapshot that satisfy every
      active filter, and `total` counts the snapshot items that do. */
  lemma ListingSound(snapshot: seq<MenuItem>, query: Query)
    ensures var r := GetAllMenus(snapshot, query);
            && r.pagination.total == |KeepAll(snapshot, Criteria(query))|
            && forall k :: 0 <= k < |r.data| ==>
                 r.data[k] in snapshot && SatisfiesAll(r.data[k], Criteria(query))
  {
    RunSound(snapshot, PlanOf(query));
  }

  /** For a page number and size of at least 1 the page is the window
      `[(page - 1) * limit, min(total, page * limit))` of the sorted items:
      at most `limit` items, and none once the window starts past `total`. */
  lemma RunWindow(snapshot: seq<MenuItem>, plan: Plan)
    requires plan.page >= 1 && plan.limit >= 1
    ensures var r := Run(snapshot, plan);
            var ordered := Ordered(ApplyInOrder(snapshot, plan.criteria), plan.order);
            var total := r.pagination.total;
            var start := PageStart(plan.page, plan.limit);
            && 0 <= start
            && |ordered| == total
            && |r.data| <= plan.limit
            && (start < total ==> r.data == ordered[start..Min(total, start + plan.limit)])
            && (start >= total ==> r.data == [])
  {
    var filtered := ApplyInOrder(snapshot, plan.criteria);
    var ordered := Ordered(filtered, plan.order);
    assert Run(snapshot, plan).data == PageOf(ordered, plan.page, plan.limit);
    assert |ordered| == |filtered|;
    PageWindow(ordered, plan.page, plan.limit);
  }

  /** The metadata does not depend on the page asked for: a page past the
      end still reports the same `total`, `per_page` and `total_pages`. */
  lemma MetadataIndependentOfPage(snapshot: seq<MenuItem>, query: Query, page: Option<string>)
    ensures var a := GetAllMenus(snapshot, query).pagination;
            var b := GetAllMenus(snapshot, query.(page := page)).pagination;
            a.total == b.total && a.perPage == b.perPage && a.totalPages == b.totalPages
  {
    assert PlanOf(query.(page := page)).criteria == PlanOf(query).criteria;
  }

  /** The query with every parameter that fails `isValid` (or, for a numeric
      parameter, is `NaN`) removed. */
  function Sanitized(query: Query): Query {
    Query(
      if IsValid(query.q) then query.q else None,
      if IsValid(query.category) then query.category else None,
      if NumericParam(query.minPrice).Some? then query.minPrice else None,
      if NumericParam(query.maxPrice).Some? then query.maxPrice else None,
      if NumericParam(query.maxCal).Some? then query.maxCal else None,
      if IsValid(query.sort) then query.sort else None,
      if NumericParam(query.page).Some? then query.page else None,
      if NumericParam(query.perPage).Some? then query.perPage else None)
  }

  /** An invalid or non-numeric parameter has the same effect as an absent
      one. */
  lemma InvalidParamsIgnored(snapshot: seq<MenuItem>, query: Query)
    ensures GetAllMenus(snapshot, query) == GetAllMenus(snapshot, Sanitized(query))
  {
    assert PlanOf(Sanitized(query)) == PlanOf(query);
  }

  /** With a sort on a field every filtered item has a number in, the page
      is in non-decreasing order of that field (`field` or `field:asc`) or in
      non-increasing order (`field:desc`). */
  lemma RunSorted(snapshot: seq<MenuItem>, plan: Plan)
    requires plan.order.Some?
    requires AllKeyed(ApplyInOrder(snapshot, plan.criteria), plan.order.value.field)
    ensures InFieldOrder(Run(snapshot, plan).data, plan.order.value)
  {
    var filtered := ApplyInOrder(snapshot, plan.criteria);
    var ordered := Ordered(filtered, plan.order);
    SortedByField(filtered, plan.order.value);
    var i, j := PageBounds(ordered, plan.page, plan.limit);
    InFieldOrderSlice(ordered, plan.order.value, i, j);
    assert Run(snapshot, plan).data == ordered[i..j];
  }

  /** The same ordering, stated for `getAllMenus`. */
  lemma ListingSorted(snapshot: seq<MenuItem>, query: Query)
    requires SortOrderOf(query).Some?
    requires AllKeyed(Filtered(snapshot, query), SortOrderOf(query).value.field)
    ensures InFieldOrder(GetAllMenus(snapshot, query).data, SortOrderOf(query).value)
  {
    RunSorted(snapshot, PlanOf(query));
  }
}
