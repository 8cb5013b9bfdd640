/** The state of the `App` component of src/App.tsx: the filter, the sort
    mode and the pagination the user controls, and the intent handlers that
    overwrite them. */
module App {
  import opened Types
  import opened Utils
  import opened CountriesFetch

  /** The value `{...under, ...over}` gives one key: `over`'s when `over`
      has the key (even holding `undefined`), else `under`'s. */
  function Spread<T>(under: Field<T>, over: Field<T>): Field<T>
  {
    if over.Absent? then under else over
  }

  /** The filter `handleFilter(filterData)` stores:
      `{...current, ...filterData}`, where spreading `undefined` adds nothing. */
  function MergeFilter(current: Option<Filter>, filterData: Filter): (r: Filter)
    ensures var before := if current.Some? then OwnKeys(current.value) else [];
            forall key :: key in OwnKeys(r) <==> key in before || key in OwnKeys(filterData)
    ensures !filterData.region.Absent? ==> r.region == filterData.region
    ensures !filterData.area.Absent? ==> r.area == filterData.area
    ensures filterData.region.Absent? ==> r.region == if current.Some? then current.value.region else Absent
    ensures filterData.area.Absent? ==> r.area == if current.Some? then current.value.area else Absent
  {
    var base := if current.Some? then current.value else Filter(Absent, Absent);
    Filter(Spread(base.region, filterData.region), Spread(base.area, filterData.area))
  }

  /** Merging the same filter data twice is merging it once. */
  lemma MergeIdempotent(current: Option<Filter>, filterData: Filter)
    ensures MergeFilter(Some(MergeFilter(current, filterData)), filterData) == MergeFilter(current, filterData)
  {
  }

  /** The sort mode `handleSort` moves to: none, then ascending, then
      descending, then none again. */
  function NextSort(sort: Option<SortDir>): (r: Option<SortDir>)
    ensures r != sort
  {
    if sort.None? then Some(Asc)
    else if sort.value == Asc then Some(Desc)
    else None
  }

  /** The mode after `k` clicks. */
  function Clicks(k: nat, sort: Option<SortDir>): Option<SortDir>
    decreases k
  {
    if k == 0 then sort else Clicks(k - 1, NextSort(sort))
  }

  /** The sort cycle is a closed 3-cycle: `k` clicks return to the starting
      mode exactly when `k` is a multiple of 3. */
  lemma {:induction false} SortCycle(k: nat, sort: Option<SortDir>)
    ensures Clicks(k, sort) == sort <==> k % 3 == 0
    decreases k
  {
    if k >= 3 {
      assert NextSort(NextSort(NextSort(sort))) == sort;
      assert Clicks(k, sort) == Clicks(k - 1, NextSort(sort));
      assert Clicks(k - 1, NextSort(sort)) == Clicks(k - 2, NextSort(NextSort(sort)));
      assert Clicks(k - 2, NextSort(NextSort(sort))) == Clicks(k - 3, NextSort(NextSort(NextSort(sort))));
      SortCycle(k - 3, sort);
    } else if k == 2 {
      assert Clicks(2, sort) == NextSort(NextSort(sort));
    } else if k == 1 {
      assert Clicks(1, sort) == NextSort(sort);
    }
  }

  /** What the pager is given: App's own pagination, with the current page
      and totals the fetch published. */
  function PagerView(own: Pagination, published: Pagination): Pagination
  {
    own.(currentPage := published.currentPage, totalItems := published.totalItems, totalPages := published.totalPages)
  }

  /** After a successful fetch driven by App's pagination, the pager gets
      App's page size, the totals of the processed list and a valid page. */
  lemma PagerAfterSuccess(own: Pagination, totalItems: nat)
    requires own.pageSize > 0 && own.currentPage >= 1
    ensures var view := PagerView(own, Republished(totalItems, own));
            && view.pageSize == own.pageSize
            && view.totalItems == Some(totalItems)
            && view.totalPages == Some(CeilDiv(totalItems, own.pageSize))
            && 1 <= view.currentPage <= Max(view.totalPages.value, 1)
  {
    RepublishedInRange(totalItems, own);
  }

  class AppState {
    var filter: Option<Filter>
    var sort: Option<SortDir>
    var pagination: Pagination

    /** No filter, no sort, first page of ten. */
    constructor ()
      ensures filter == None && sort == None
      ensures pagination == Pagination(None, 1, None, 10)
    {
      filter := None;
      sort := None;
      pagination := Pagination(None, 1, None, 10);
    }

    method HandleFilter(filterData: Filter)
      modifies this
      ensures filter == Some(MergeFilter(old(filter), filterData))
      ensures sort == old(sort) && pagination == old(pagination)
    {
      filter := Some(MergeFilter(filter, filterData));
    }

    method HandleSort()
      modifies this
      ensures sort == NextSort(old(sort))
      ensures filter == old(filter) && pagination == old(pagination)
    {
      if sort.None? {
        sort := Some(Asc);
      } else if sort.value == Asc {
        sort := Some(Desc);
      } else {
        sort := None;
      }
    }

    /** `handlePagination(page, pageSize = 10)`: the totals, if any, stay. */
    method HandlePagination(page: int, pageSize: int := 10)
      modifies this
      ensures pagination == old(pagination).(currentPage := page, pageSize := pageSize)
      ensures filter == old(filter) && sort == old(sort)
    {
      pagination := pagination.(pageSize := pageSize, currentPage := page);
    }

    /** The `pagination` prop of the pager, given the hook's published one. */
    function PagerProps(published: Pagination): (view: Pagination)
      reads this
      ensures view.pageSize == pagination.pageSize
      ensures view.currentPage == published.currentPage
      ensures view.totalItems == published.totalItems && view.totalPages == published.totalPages
    {
      PagerView(pagination, published)
    }
  }
}
