# Country-list browser: data shaping, fetch state and intents in Dafny

This project models the data-shaping core of a small country-list browser written in TypeScript and React.

- **Utilities** (`src/hooks/utils.ts`):
  - `handleSort` sorts the fetched countries in place by lower-cased name, ascending or descending.
  - `handleFilter` keeps the countries of one region and/or those whose area is below a threshold.
  - `processData` chains the two and falls back to the input when the result is empty.
  - `paginate` cuts one page out of the list.
  - `isObjectEmpty` counts an object's entries.
- **The `useCountriesFetch` hook** (`src/hooks/useCountriesFetch.tsx`): five state cells and the start, success and failure steps of `fetchData`. The request's outcome (a list or an error message) is an input.
- **The `App` component's state** (`src/App.tsx`): the filter, the sort mode and the pagination, with the intent handlers that overwrite them and the pagination handed to the pager.
- **The sort label** `sortDictionary` (`src/components/Countries/dictionary.ts`).
- **The two filter checkboxes** of `src/components/Countries/index.tsx`, as the filter data they pass to App's `handleFilter`.

Modules:

| file | module | models |
|---|---|---|
| `types.dfy` | `Types` | the data shapes of `src/hooks/types.ts` |
| `seqs.dfy` | `Seqs` | `Array.prototype.filter` (`Keep`) and the filter over positions that `paginate` uses |
| `collation.dfy` | `Collation` | lower-casing, and JavaScript `<` on strings |
| `sorting.dfy` | `Sorting` | `handleSort` |
| `utils.dfy` | `Utils` | `handleFilter`, `processData`, `isObjectEmpty`, `paginate` |
| `fetch.dfy` | `CountriesFetch` | the hook, as class `Hook` |
| `app.dfy` | `App` | App's state, as class `AppState` |
| `dictionary.dfy` | `Dictionary` | `sortDictionary` |
| `countries_view.dfy` | `CountriesView` | the checkbox toggles |

How the model represents the source:

- **Sorting.** `data.sort(comparator)` reorders the caller's array, so `Sorting.HandleSort` sorts an `array<Country>` in place.
  - The method is an insertion sort. It is proved equal to the functional reference `SortSpec`, a stable insertion sort.
  - JavaScript's `Array.prototype.sort` has been stable since ES2019, and stability is stated separately (`SortStable`).
- **Filter fields.** A field is `Absent`, `Undefined` or `Defined(v)`. This lets the model tell a missing key from a key holding `undefined`, which matters to object spread and `Object.entries`.
- **Areas.** A country's area is kept as the number `Number(area)` gives: `NaN` or a finite value. `NaN < x` is false.
- **Pagination.** `paginate` is modelled as the filter over positions it is written as (`KeepPositions`), and proved equal to a clamped slice.
- **The fallback in `processData`.**
  - The code falls back to `data` whenever the result is empty, with or without a sort (`src/hooks/utils.ts:64`).
  - `handleSort` sorts the caller's array in place rather than a copy. So with a sort, the fallback returns the whole sorted list.
- **Two page values.** After a fetch, the hook publishes page 1 when the requested page is out of range. `paginate`, however, slices page index 1, the second page. `CountriesFetch.PublishedPageDisagrees` states both values. The model keeps the behaviour as written.

## Model

| member | source | states |
|---|---|---|
| Collation.Lower | src/hooks/utils.ts:11-12 | lower-casing keeps the length and lower-cases every character in place |
| Collation.Trichotomy | src/hooks/utils.ts:13-19 | for any two names exactly one of `a < b`, `a == b`, `b < a` holds, so the comparator's three branches are exhaustive and exclusive |
| Collation.Transitive | src/hooks/utils.ts:13-19 | string `<` is transitive |
| Collation.Before | src/hooks/utils.ts:13-16 | JavaScript `<` on strings (and `>` with the arguments swapped): the first differing character decides, and a proper prefix comes first |
| Sorting.Compare | src/hooks/utils.ts:10-20 | the comparator: both names lower-cased; -1 or 1 by direction when one name is smaller, 1 or -1 when it is larger, 0 otherwise (its meaning is stated by `CompareMeaning`) |
| Sorting.CompareMeaning | src/hooks/utils.ts:10-20 | the comparator returns 0 exactly when the lower-cased names are equal, a negative number exactly when `x` comes first in the requested direction, and only -1, 0 or 1 |
| Sorting.CompareFlip | src/hooks/utils.ts:10-20 | swapping the arguments negates the comparator (antisymmetry, as `Array.prototype.sort` requires) |
| Sorting.CompareTransitive | src/hooks/utils.ts:10-20 | the comparator is transitive, so it is a consistent total preorder |
| Sorting.SortSpecSortsPermutation | src/hooks/utils.ts:9-20 | the sorted list is ordered by the comparator and is a permutation of the input (same multiset, same length) |
| Sorting.SortedNames | src/hooks/utils.ts:11-19 | in a sorted list the lower-cased names are non-decreasing under ascending order and non-increasing under descending order |
| Sorting.SortStable | src/hooks/utils.ts:10 | countries with the same lower-cased name keep their input order: picking them out of the sorted list gives them in the order they had |
| Sorting.SortSpecKeep | src/hooks/utils.ts:57-62 | filtering after sorting gives the same list as sorting after filtering |
| Sorting.HandleSort | src/hooks/utils.ts:9-21 | returns the very array it was given, whose contents become the sorted permutation `SortSpec` of the old contents |
| Seqs.KeepPositionsIsSlice | src/hooks/utils.ts:95-97 | keeping the positions in `[first, last)` is the slice between the two bounds clamped to the list |
| Utils.Matches | src/hooks/utils.ts:33-37 | a country passes when the region equals a truthy filter region and its area is below a truthy filter area (`NaN` never below); a falsy field imposes nothing |
| Utils.Selected | src/hooks/utils.ts:33-37 | `Array.filter` by `Matches`, keeping input order |
| Utils.HandleFilter | src/hooks/utils.ts:29-40 | the region pass followed by the area pass yields exactly `Selected`, the countries matching both active conditions, in input order |
| Utils.SelectedMeaning | src/hooks/utils.ts:29-39 | a country is in the filtered list iff it is in the input and matches; each matching country occurs as often as in the input; the result is an order-preserving subsequence |
| Utils.Process | src/hooks/utils.ts:56-64 | the list `processData` returns: the filtered (sorted) list when a filter field is active, the sorted list when only a sort is given, and the (sorted) input when that is empty |
| Utils.ProcessData | src/hooks/utils.ts:47-65 | the caller's array is left sorted when a sort is given and untouched otherwise, and the result is `Process` of the old contents |
| Utils.ReorderedPermutes | src/hooks/utils.ts:57-59 | the optional sort keeps the elements and the length |
| Utils.ProcessNeverEmpty | src/hooks/utils.ts:56-64 | a non-empty input never gives an empty result, and the result never holds more copies of a country than the input |
| Utils.ProcessNoMatch | src/hooks/utils.ts:56-64 | with no active filter field, or with no country matching, the result is the input, sorted if a sort was requested (so with neither sort nor filter the input is returned unchanged) |
| Utils.ProcessSomeMatch | src/hooks/utils.ts:57-64 | when some country matches an active filter, the result is the (sorted) selection and holds exactly the matching countries |
| Utils.IsObjectEmpty | src/hooks/utils.ts:72-74 | true iff the filter is missing or has neither key; a key holding `undefined` is an entry |
| Utils.CeilDiv | src/hooks/utils.ts:89 | `Math.ceil(n / d)`: the least number of size-`d` pages holding `n` items |
| Utils.PageIndex | src/hooks/utils.ts:89-91 | the zero-based page sliced: `currentPage - 1` when `currentPage <= ceil(n / pageSize)`, else 1 |
| Utils.Paginate | src/hooks/utils.ts:81-98 | a page never holds more than `pageSize` items |
| Utils.PaginateInRange | src/hooks/utils.ts:88-97 | for `1 <= currentPage <= ceil(n / pageSize)` the page is the non-empty slice `[(currentPage-1)*pageSize, currentPage*pageSize)` clipped to the list |
| Utils.PaginateOutOfRange | src/hooks/utils.ts:89-97 | for a page past the end the slice is page index 1, `[pageSize, 2*pageSize)` clipped; it is empty when the list fits on one page, in particular when it is empty |
| Utils.PaginateFirstPageTwice | src/hooks/utils.ts:81-98 | paginating the first page again returns it unchanged |
| Utils.PaginateLaterPageTwice | src/hooks/utils.ts:81-98 | a later page is non-empty, but paginating it again with the same parameters gives an empty list |
| CountriesFetch.IsFilterApplied | src/hooks/useCountriesFetch.tsx:58 | the filter object is present and has at least one key, even a key holding `undefined` |
| CountriesFetch.Republished | src/hooks/useCountriesFetch.tsx:73-82 | the pagination after a success: `totalPages` the ceiling of processed items over page size, `totalItems` the processed count, the page size requested, and the requested page if in range, else 1 |
| CountriesFetch.Shaped | src/hooks/useCountriesFetch.tsx:68-71 | running `processData` only when a sort is set or the filter has a key gives the same list as always running it |
| CountriesFetch.RepublishedInRange | src/hooks/useCountriesFetch.tsx:72-82 | after a success, `totalItems` is the processed length, `totalPages` its ceiling division by the page size, the page size is kept, and the published page is the requested one when in range, 1 otherwise, so it lies in `[1, max(totalPages, 1)]` |
| CountriesFetch.PublishedPageDisagrees | src/hooks/useCountriesFetch.tsx:72-83 | when the requested page is past the end of a list longer than one page, page 1 is published while the data shown is positions `[pageSize, 2*pageSize)`, not the first page |
| CountriesFetch.Hook.constructor | src/hooks/useCountriesFetch.tsx:53-57 | the initial state: the given pagination, not loading, no error, status IDLE, no data |
| CountriesFetch.Hook.Start | src/hooks/useCountriesFetch.tsx:61-64 | an empty url changes nothing; otherwise status becomes FETCHING and loading true, all else unchanged |
| CountriesFetch.Hook.Succeed | src/hooks/useCountriesFetch.tsx:65-85 | the pagination is republished from the processed list, the data is its page, loading ends with status FETCHED, and an earlier error message stays |
| CountriesFetch.Hook.Fail | src/hooks/useCountriesFetch.tsx:86-90 | loading ends with status FETCHED and the message recorded; data and pagination are unchanged |
| CountriesFetch.Hook.FetchData | src/hooks/useCountriesFetch.tsx:60-93 | one effect run: no change for an empty url, else the success or failure state for the given outcome; loading holds exactly while fetching, in every state |
| App.Spread | src/App.tsx:24-27 | one key of `{...under, ...over}`: `over`'s value when it has the key, even as `undefined`, else `under`'s |
| App.MergeFilter | src/App.tsx:23-28 | the merged filter has exactly the keys of the old filter and of `filterData`; every key present in `filterData` (even as `undefined`) takes its value, the other keys keep theirs |
| App.MergeIdempotent | src/App.tsx:23-28 | merging the same filter data twice equals merging it once |
| App.NextSort | src/App.tsx:31-39 | a click always changes the sort mode |
| App.SortCycle | src/App.tsx:31-39 | `k` clicks return to the starting mode exactly when `k` is a multiple of 3 |
| App.PagerView | src/App.tsx:63-68 | App's own pagination with the current page and both totals replaced by the hook's published ones |
| App.PagerAfterSuccess | src/App.tsx:62-68 | after a successful fetch the pager gets App's page size, the processed totals and a page in `[1, max(totalPages, 1)]` |
| App.AppState.constructor | src/App.tsx:9-14 | no filter, no sort, page 1 of size 10 without totals |
| App.AppState.HandleFilter | src/App.tsx:23-28 | the filter becomes the spread merge of the old one and `filterData`; sort and pagination stay |
| App.AppState.HandleSort | src/App.tsx:31-39 | the sort mode moves none, then ascending, then descending, then none; filter and pagination stay |
| App.AppState.HandlePagination | src/App.tsx:42-48 | only `currentPage` and `pageSize` change (size 10 by default); the totals and the other cells stay |
| App.AppState.PagerProps | src/App.tsx:62-68 | the pager's page size is App's own, its page and totals are the hook's |
| Dictionary.SortDictionary | src/components/Countries/dictionary.ts:8-16 | no sort is labelled "None", ascending "Asc" and descending "Desc", each in both directions |
| Dictionary.LabelDeterminesSort | src/components/Countries/dictionary.ts:8-16 | two modes with the same label are the same mode |
| CountriesView.AreaToggle | src/components/Countries/index.tsx:76 | the area checkbox hands `{area: undefined}` when an area is set, else `{area: 65300}` |
| CountriesView.RegionToggle | src/components/Countries/index.tsx:89 | the region checkbox hands `{region: undefined}` when a region is set, else `{region: "Oceania"}` |
| CountriesView.AreaToggleFlips | src/components/Countries/index.tsx:74-78 | clicking the area checkbox flips its state, leaves the region checkbox as it was, and leaves the filter non-empty |
| CountriesView.RegionToggleFlips | src/components/Countries/index.tsx:87-91 | clicking the region checkbox flips its state, leaves the area checkbox as it was, and leaves the filter non-empty |

## Left out

- The network call: `fetch(url)` and `response.json()` become the `Outcome` parameter of `Hook.FetchData`, a list on success or a message on failure.
- React machinery: `useState`, `useEffect` and `useMemo` dependency tracking and re-rendering. Each setter call is a field assignment, and one effect run is one `FetchData` call.
- Concurrency: interleaved effect runs and stale responses. The code has no guard against them, and the model adds none.
- Rendering: the JSX of the components, and the pager component.
- Parsing of `Number(country.area)`: a country carries the parsed number, `NaN` or a finite real. Infinities and floating-point rounding are not modelled.
- Case folding: `toLowerCase` and `toLocaleLowerCase` are one function that lower-cases the ASCII letters; other scripts and locale rules are not modelled.
- String order: characters are compared as Dafny `char` values, standing in for the UTF-16 code units JavaScript compares. This differs only outside the Basic Multilingual Plane.
- Utils.Paginate: requires `pageSize > 0`. A zero or negative page size, which `Math.ceil` would turn into infinities or a negative range, is not modelled; App only ever passes the pager's sizes, 10 by default.
- CountriesFetch.Hook.Succeed: requires `pageSize > 0`, for the same reason.
- CountriesFetch.Hook.Fail: the message is a string; an error without a `message` (which would store `undefined`) is not modelled.
- Utils.ProcessData: returns the contents of the result, not the identity of the JavaScript array. The returned array is `data` itself exactly when no filter field is active or the filter matches nothing, with or without a sort; otherwise it is a fresh array built by `filter`.
