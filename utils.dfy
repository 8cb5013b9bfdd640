/** The filter, pipeline and pagination utilities of src/hooks/utils.ts. */
module Utils {
  import opened Types
  import opened Seqs
  import opened Sorting

  /** `if (region)`: a region constrains only when present and non-empty. */
  predicate RegionSet(filter: Filter)
  {
    filter.region.Defined? && filter.region.value != ""
  }

  /** `if (area)`: an area constrains only when it is a number other than 0 and NaN. */
  predicate AreaSet(filter: Filter)
  {
    filter.area.Defined? && filter.area.value.Finite? && filter.area.value.value != 0.0
  }

  /** What a country must satisfy to survive `handleFilter`. */
  predicate Matches(c: Country, filter: Filter)
  {
    && (RegionSet(filter) ==> c.region == filter.region.value)
    && (AreaSet(filter) ==> Less(c.area, filter.area.value))
  }

  /** The countries that satisfy the filter, in their order. */
  function Selected(data: seq<Country>, filter: Filter): seq<Country>
  {
    Keep(data, (c: Country) => Matches(c, filter))
  }

  /** `handleFilter(data, filter)`: a region pass, then an area pass. */
  method HandleFilter(data: seq<Country>, filter: Filter) returns (result: seq<Country>)
    ensures result == Selected(data, filter)
  {
    var inRegion: Country -> bool := (c: Country) => !RegionSet(filter) || c.region == filter.region.value;
    var smaller: Country -> bool := (c: Country) => !AreaSet(filter) || Less(c.area, filter.area.value);
    result := data;
    if RegionSet(filter) {
      var region := filter.region.value;
      result := Keep(result, (c: Country) => c.region == region);
      KeepSame(data, (c: Country) => c.region == region, inRegion);
    } else {
      KeepAll(data, inRegion);
    }
    assert result == Keep(data, inRegion);
    if AreaSet(filter) {
      var area := filter.area.value;
      KeepSame(result, (c: Country) => Less(c.area, area), smaller);
      result := Keep(result, (c: Country) => Less(c.area, area));
    } else {
      KeepAll(result, smaller);
    }
    assert result == Keep(Keep(data, inRegion), smaller);
    KeepTwice(data, inRegion, smaller, (c: Country) => Matches(c, filter));
  }

  /** The filtered list holds exactly the matching countries, each as often
      as in `data`, in their original order. */
  lemma SelectedMeaning(data: seq<Country>, filter: Filter)
    ensures forall c :: c in Selected(data, filter) <==> c in data && Matches(c, filter)
    ensures forall c :: multiset(Selected(data, filter))[c] == if Matches(c, filter) then multiset(data)[c] else 0
    ensures IsSubsequence(Selected(data, filter), data)
  {
    KeepCounts(data, (c: Country) => Matches(c, filter));
    KeepIsSubsequence(data, (c: Country) => Matches(c, filter));
  }

  /** `filter?.area || filter?.region`: the filter has an active field. */
  predicate FilterActive(filter: Option<Filter>)
  {
    filter.Some? && (AreaSet(filter.value) || RegionSet(filter.value))
  }

  /** The order `data` is left in: sorted when a sort was requested. */
  function Reordered(data: seq<Country>, sort: Option<SortDir>): seq<Country>
  {
    if sort.Some? then SortSpec(data, sort.value) else data
  }

  /** What `processData` returns. The filter runs over `data` after
      `handleSort` has sorted it in place; an empty result falls back to
      `data`, sorted or not. */
  function Process(data: seq<Country>, sort: Option<SortDir>, filter: Option<Filter>): seq<Country>
  {
    var sorted := Reordered(data, sort);
    var result := if FilterActive(filter) then Selected(sorted, filter.value)
                  else if sort.Some? then sorted
                  else [];
    if |result| > 0 then result else sorted
  }

  /** `processData({data, sort, filter})`. */
  method ProcessData(data: array<Country>, sort: Option<SortDir>, filter: Option<Filter>) returns (r: seq<Country>)
    modifies data
    ensures data[..] == Reordered(old(data[..]), sort)
    ensures r == Process(old(data[..]), sort, filter)
  {
    var result: seq<Country> := [];
    if sort.Some? {
      var same := HandleSort(data, sort.value);
      result := same[..];
    }
    if FilterActive(filter) {
      result := HandleFilter(data[..], filter.value);
    }
    r := if |result| > 0 then result else data[..];
  }

  /** Reordering keeps the elements and the length. */
  lemma ReorderedPermutes(data: seq<Country>, sort: Option<SortDir>)
    ensures multiset(Reordered(data, sort)) == multiset(data)
    ensures |Reordered(data, sort)| == |data|
  {
    if sort.Some? {
      SortSpecSortsPermutation(data, sort.value);
    }
  }

  /** The pipeline never empties a non-empty list, and never invents
      elements. */
  lemma ProcessNeverEmpty(data: seq<Country>, sort: Option<SortDir>, filter: Option<Filter>)
    ensures |data| > 0 ==> |Process(data, sort, filter)| > 0
    ensures multiset(Process(data, sort, filter)) <= multiset(data)
  {
    var sorted := Reordered(data, sort);
    ReorderedPermutes(data, sort);
    if FilterActive(filter) {
      KeepCounts(sorted, (c: Country) => Matches(c, filter.value));
    }
  }

  /** Reordering keeps exactly the same countries. */
  lemma ReorderedMembers(data: seq<Country>, sort: Option<SortDir>)
    ensures forall c :: c in Reordered(data, sort) <==> c in data
  {
    ReorderedPermutes(data, sort);
    var sorted := Reordered(data, sort);
    forall c ensures c in sorted <==> c in data {
      assert c in sorted <==> multiset(sorted)[c] > 0;
      assert c in data <==> multiset(data)[c] > 0;
    }
  }

  /** When the filter is inactive, or no country matches it, the result is
      the input, sorted if a sort was requested. */
  lemma ProcessNoMatch(data: seq<Country>, sort: Option<SortDir>, filter: Option<Filter>)
    requires !FilterActive(filter) || forall c :: c in data ==> !Matches(c, filter.value)
    ensures Process(data, sort, filter) == Reordered(data, sort)
  {
    if FilterActive(filter) {
      var sorted := Reordered(data, sort);
      ReorderedMembers(data, sort);
      KeepCounts(sorted, (c: Country) => Matches(c, filter.value));
      assert forall c :: c !in Selected(sorted, filter.value);
      assert |Selected(sorted, filter.value)| == 0;
    }
  }

  /** When some country matches an active filter, the result is exactly the
      matching countries: the sorted selection under a sort, the selection in
      input order without. */
  lemma ProcessSomeMatch(data: seq<Country>, sort: Option<SortDir>, filter: Option<Filter>)
    requires FilterActive(filter) && exists c :: c in data && Matches(c, filter.value)
    ensures Process(data, sort, filter) == Reordered(Selected(data, filter.value), sort)
    ensures forall c :: c in Process(data, sort, filter) <==> c in data && Matches(c, filter.value)
  {
    var sorted := Reordered(data, sort);
    var p := (c: Country) => Matches(c, filter.value);
    ReorderedMembers(data, sort);
    KeepCounts(sorted, p);
    var c :| c in data && Matches(c, filter.value);
    assert c in Selected(sorted, filter.value);
    if sort.Some? {
      SortSpecKeep(data, p, sort.value);
    }
  }

  /** The keys `Object.entries` lists for a filter object: every key that
      is present, even one holding `undefined`. */
  function OwnKeys(filter: Filter): seq<string>
  {
    (if filter.region.Absent? then [] else ["region"]) + (if filter.area.Absent? then [] else ["area"])
  }

  /** `isObjectEmpty(obj)`: `Object.entries(obj ?? {}).length === 0`. */
  function IsObjectEmpty(obj: Option<Filter>): (r: bool)
    ensures r <==> obj.None? || (obj.value.region.Absent? && obj.value.area.Absent?)
  {
    var entries := if obj.None? then [] else OwnKeys(obj.value);
    |entries| == 0
  }

  /** `Math.ceil(n / d)` for a whole number of items and a positive size:
      the least whole number of size-`d` pages that hold `n` items. */
  function CeilDiv(n: nat, d: int): (r: nat)
    requires d > 0
    ensures (r - 1) * d < n <= r * d
  {
    var q := (n + d - 1) / d;
    assert q * d + (n + d - 1) % d == n + d - 1;
    q
  }

  /** The zero-based page index `paginate` slices: the requested page when
      it is within range, else index 1 (the second page). */
  function PageIndex(n: nat, pageParams: Pagination): int
    requires pageParams.pageSize > 0
  {
    if pageParams.currentPage <= CeilDiv(n, pageParams.pageSize) then pageParams.currentPage - 1 else 1
  }

  /** `paginate({data, pageParams})`: keeps the items whose position lies in
      `[pageIndex * pageSize, pageIndex * pageSize + pageSize)`. */
  function Paginate(data: seq<Country>, pageParams: Pagination): (r: seq<Country>)
    requires pageParams.pageSize > 0
    ensures |r| <= pageParams.pageSize
  {
    var pageIndex := PageIndex(|data|, pageParams);
    var first := pageIndex * pageParams.pageSize;
    var last := pageIndex * pageParams.pageSize + pageParams.pageSize;
    KeepPositionsIsSlice(data, first, last);
    KeepPositions(data, first, last)
  }

  function Min(a: int, b: int): int
  {
    if a < b then a else b
  }

  /** A page within range is the contiguous, non-empty run of positions
      `[(currentPage - 1) * pageSize, currentPage * pageSize)` clipped to the
      list. */
  lemma PaginateInRange(data: seq<Country>, pageParams: Pagination)
    requires pageParams.pageSize > 0
    requires 1 <= pageParams.currentPage <= CeilDiv(|data|, pageParams.pageSize)
    ensures var size := pageParams.pageSize;
            var page := pageParams.currentPage;
            (page - 1) * size < |data| &&
            Paginate(data, pageParams) == data[(page - 1) * size..Min(page * size, |data|)]
    ensures Paginate(data, pageParams) != []
  {
    var size := pageParams.pageSize;
    var page := pageParams.currentPage;
    var range := CeilDiv(|data|, size);
    var first := (page - 1) * size;
    var last := first + size;
    MulMonotone(0, page - 1, size);
    MulMonotone(page - 1, range - 1, size);
    assert 0 <= first < |data|;
    assert last == page * size by {
      Distribute(page, size);
    }
    assert PageIndex(|data|, pageParams) == page - 1;
    assert Paginate(data, pageParams) == KeepPositions(data, first, last);
    KeepPositionsIsSlice(data, first, last);
    assert Clamp(first, 0, |data|) == first;
    assert Clamp(last, first, |data|) == Min(last, |data|);
  }

  lemma Distribute(page: int, size: int)
    ensures (page - 1) * size + size == page * size
  {
  }

  /** Between one and `d` items make exactly one page. */
  lemma CeilDivOne(m: nat, d: int)
    requires 0 < m <= d
    ensures CeilDiv(m, d) == 1
  {
    var r := CeilDiv(m, d);
    if r >= 2 {
      MulMonotone(1, r - 1, d);
    }
  }

  lemma MulMonotone(a: int, b: int, d: int)
    requires 0 <= a <= b && d > 0
    ensures a * d <= b * d
  {
  }

  /** A page beyond the last one slices page index 1: the positions
      `[pageSize, 2 * pageSize)` clipped to the list, which is empty when the
      list fits on one page (in particular when it is empty). */
  lemma PaginateOutOfRange(data: seq<Country>, pageParams: Pagination)
    requires pageParams.pageSize > 0
    requires pageParams.currentPage > CeilDiv(|data|, pageParams.pageSize)
    ensures var size := pageParams.pageSize;
            Paginate(data, pageParams) == data[Min(size, |data|)..Min(2 * size, |data|)]
    ensures |data| <= pageParams.pageSize ==> Paginate(data, pageParams) == []
  {
    var size := pageParams.pageSize;
    KeepPositionsIsSlice(data, size, size + size);
  }

  /** Paginating the first page again gives the same page. */
  lemma PaginateFirstPageTwice(data: seq<Country>, pageParams: Pagination)
    requires pageParams.pageSize > 0 && pageParams.currentPage == 1
    ensures Paginate(Paginate(data, pageParams), pageParams) == Paginate(data, pageParams)
  {
    var page := Paginate(data, pageParams);
    var size := pageParams.pageSize;
    if |data| == 0 {
      PaginateOutOfRange(data, pageParams);
    } else {
      PaginateInRange(data, pageParams);
      PaginateInRange(page, pageParams);
      assert page[..Min(size, |page|)] == page;
    }
  }

  /** Any later page, paginated again with the same parameters, comes out
      empty: it fits on one page, so its requested page is out of range. */
  lemma PaginateLaterPageTwice(data: seq<Country>, pageParams: Pagination)
    requires pageParams.pageSize > 0
    requires 2 <= pageParams.currentPage <= CeilDiv(|data|, pageParams.pageSize)
    ensures Paginate(data, pageParams) != []
    ensures Paginate(Paginate(data, pageParams), pageParams) == []
  {
    var page := Paginate(data, pageParams);
    PaginateInRange(data, pageParams);
    CeilDivOne(|page|, pageParams.pageSize);
    PaginateOutOfRange(page, pageParams);
  }
}
