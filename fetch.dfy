/** The `useCountriesFetch` hook of src/hooks/useCountriesFetch.tsx: five
    state cells and the start, success and failure steps of `fetchData`.
    The network call is an input: the fetched list, or an error message. */
module CountriesFetch {
  import opened Types
  import opened Utils

  /** What `await fetch(url)` and `await response.json()` produced. */
  datatype Outcome = Loaded(countries: seq<Country>) | Failed(message: string)

  /** `isFilterApplied`: the filter object has at least one key. */
  predicate IsFilterApplied(filter: Option<Filter>)
  {
    !IsObjectEmpty(filter)
  }

  /** `rawData` of the success step: the fetched list, run through
      `processData` only when a sort is set or the filter has a key. The
      guard never changes the outcome: with neither, `processData` would
      return its input. */
  function Shaped(result: seq<Country>, sort: Option<SortDir>, filter: Option<Filter>): (r: seq<Country>)
    ensures r == Process(result, sort, filter)
  {
    if sort.Some? || IsFilterApplied(filter) then Process(result, sort, filter) else result
  }

  /** The pagination the success step publishes for `totalItems` processed
      items: `{...current, ...pageParams, currentPage, totalPages, totalItems}`,
      in which every field of `current` is overridden. */
  function Republished(totalItems: nat, pageParams: Pagination): Pagination
    requires pageParams.pageSize > 0
  {
    var totalPages := CeilDiv(totalItems, pageParams.pageSize);
    var isCurrentPageInRange := pageParams.currentPage <= totalPages;
    Pagination(Some(totalPages),
               if isCurrentPageInRange then pageParams.currentPage else 1,
               Some(totalItems),
               pageParams.pageSize)
  }

  function Max(a: int, b: int): int
  {
    if a < b then b else a
  }

  /** After a success the published page is valid for the new totals: the
      requested page when it is in range, page 1 otherwise. */
  lemma RepublishedInRange(totalItems: nat, pageParams: Pagination)
    requires pageParams.pageSize > 0 && pageParams.currentPage >= 1
    ensures var p := Republished(totalItems, pageParams);
            && p.totalItems == Some(totalItems)
            && p.totalPages.Some?
            && (p.totalPages.value - 1) * pageParams.pageSize < totalItems <= p.totalPages.value * pageParams.pageSize
            && p.pageSize == pageParams.pageSize
            && 1 <= p.currentPage <= Max(p.totalPages.value, 1)
            && (pageParams.currentPage <= p.totalPages.value ==> p.currentPage == pageParams.currentPage)
            && (pageParams.currentPage > p.totalPages.value ==> p.currentPage == 1)
  {
  }

  /** The two page values disagree: when the requested page is past the last
      one and the list fills more than one page, page 1 is published while
      the data shown is the run of positions `[pageSize, 2 * pageSize)`. */
  lemma PublishedPageDisagrees(processed: seq<Country>, pageParams: Pagination)
    requires 0 < pageParams.pageSize < |processed|
    requires pageParams.currentPage > CeilDiv(|processed|, pageParams.pageSize)
    ensures Republished(|processed|, pageParams).currentPage == 1
    ensures Paginate(processed, pageParams)
            == processed[pageParams.pageSize..Min(2 * pageParams.pageSize, |processed|)]
    ensures Paginate(processed, pageParams.(currentPage := 1)) == processed[..pageParams.pageSize]
  {
    PaginateOutOfRange(processed, pageParams);
    PaginateInRange(processed, pageParams.(currentPage := 1));
  }

  class Hook {
    var pagination: Pagination
    var isLoading: bool
    var isError: string
    var status: FetchStatus
    var data: seq<Country>

    /** Loading exactly while fetching; nothing is shown or reported before
        the first fetch. */
    ghost predicate Valid()
      reads this
    {
      && (isLoading <==> status == Fetching)
      && (status == Idle ==> data == [] && isError == "")
    }

    /** The initial state of the five cells. */
    constructor (pageParams: Pagination)
      ensures Valid()
      ensures pagination == pageParams && !isLoading && isError == "" && status == Idle && data == []
    {
      pagination := pageParams;
      isLoading := false;
      isError := "";
      status := Idle;
      data := [];
    }

    /** `if (!url) return;` and then the start of `fetchData`. */
    method Start(url: string) returns (started: bool)
      requires Valid()
      modifies this
      ensures Valid()
      ensures started <==> url != ""
      ensures started ==> status == Fetching && isLoading
      ensures !started ==> status == old(status) && isLoading == old(isLoading)
      ensures pagination == old(pagination) && isError == old(isError) && data == old(data)
    {
      if url == "" {
        return false;
      }
      status := Fetching;
      isLoading := true;
      started := true;
    }

    /** The success step, for the list the request produced. */
    method Succeed(result: seq<Country>, sort: Option<SortDir>, filter: Option<Filter>, pageParams: Pagination)
      requires Valid() && pageParams.pageSize > 0
      modifies this
      ensures Valid()
      ensures pagination == Republished(|Process(result, sort, filter)|, pageParams)
      ensures data == Paginate(Process(result, sort, filter), pageParams)
      ensures !isLoading && status == Fetched && isError == old(isError)
    {
      var rawData := result;
      if sort.Some? || IsFilterApplied(filter) {
        var fetched := new Country[|result|](i requires 0 <= i < |result| => result[i]);
        assert fetched[..] == result;
        rawData := ProcessData(fetched, sort, filter);
      }
      assert rawData == Shaped(result, sort, filter);
      var paginatedData := Paginate(rawData, pageParams);
      var totalPages := CeilDiv(|rawData|, pageParams.pageSize);
      var isCurrentPageInRange := pageParams.currentPage <= totalPages;
      pagination := Pagination(Some(totalPages),
                               if isCurrentPageInRange then pageParams.currentPage else 1,
                               Some(|rawData|),
                               pageParams.pageSize);
      data := paginatedData;
      isLoading := false;
      status := Fetched;
    }

    /** The `catch` branch: the message is recorded, the list and the
        pagination stay as they were. */
    method Fail(message: string)
      requires Valid()
      modifies this
      ensures Valid()
      ensures !isLoading && status == Fetched && isError == message
      ensures data == old(data) && pagination == old(pagination)
    {
      isLoading := false;
      status := Fetched;
      isError := message;
    }

    /** One run of the effect whose request resolves before anything else
        happens. */
    method FetchData(url: string, sort: Option<SortDir>, filter: Option<Filter>, pageParams: Pagination, outcome: Outcome)
      requires Valid() && pageParams.pageSize > 0
      modifies this
      ensures Valid()
      ensures url == "" ==> pagination == old(pagination) && isLoading == old(isLoading)
                            && isError == old(isError) && status == old(status) && data == old(data)
      ensures url != "" ==> !isLoading && status == Fetched
      ensures url != "" && outcome.Loaded? ==>
                && pagination == Republished(|Process(outcome.countries, sort, filter)|, pageParams)
                && data == Paginate(Process(outcome.countries, sort, filter), pageParams)
                && isError == old(isError)
      ensures url != "" && outcome.Failed? ==>
                isError == outcome.message && data == old(data) && pagination == old(pagination)
    {
      var started := Start(url);
      if !started {
        return;
      }
      match outcome {
        case Loaded(countries) => Succeed(countries, sort, filter, pageParams);
        case Failed(message) => Fail(message);
      }
    }
  }
}
