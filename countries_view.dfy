/** The two filter checkboxes of src/components/Countries/index.tsx, as the
    filter data they hand to App's `handleFilter`. */
module CountriesView {
  import opened Types
  import opened Utils
  import opened App

  /** The area of Lithuania, the threshold of the area checkbox. */
  const LithuaniaArea: real := 65300.0

  /** `checked={!!filter?.area}` */
  predicate AreaChecked(filter: Option<Filter>)
  {
    filter.Some? && AreaSet(filter.value)
  }

  /** `checked={!!filter?.region}` */
  predicate RegionChecked(filter: Option<Filter>)
  {
    filter.Some? && RegionSet(filter.value)
  }

  /** `{ area: filter?.area ? undefined : 65300 }` */
  function AreaToggle(filter: Option<Filter>): Filter
  {
    Filter(Absent, if AreaChecked(filter) then Undefined else Defined(Finite(LithuaniaArea)))
  }

  /** `{ region: filter?.region ? undefined : "Oceania" }` */
  function RegionToggle(filter: Option<Filter>): Filter
  {
    Filter(if RegionChecked(filter) then Undefined else Defined("Oceania"), Absent)
  }

  /** Clicking the area checkbox flips it and leaves the region alone; the
      area key stays in the filter either way. */
  lemma AreaToggleFlips(filter: Option<Filter>)
    ensures var next := Some(MergeFilter(filter, AreaToggle(filter)));
            && AreaChecked(next) == !AreaChecked(filter)
            && RegionChecked(next) == RegionChecked(filter)
            && !IsObjectEmpty(next)
  {
  }

  /** Clicking the region checkbox flips it and leaves the area alone. */
  lemma RegionToggleFlips(filter: Option<Filter>)
    ensures var next := Some(MergeFilter(filter, RegionToggle(filter)));
            && RegionChecked(next) == !RegionChecked(filter)
            && AreaChecked(next) == AreaChecked(filter)
            && !IsObjectEmpty(next)
  {
  }
}
