/** The data shapes of the country-list browser (src/hooks/types.ts). */
module Types {

  datatype Option<+T> = None | Some(value: T)

  /** The value of `Number(text)`: a finite number, or NaN when the text does not parse. */
  datatype Num = NaN | Finite(value: real)

  /** JavaScript `<` on numbers: false whenever either side is NaN. */
  predicate Less(a: Num, b: Num)
  {
    a.Finite? && b.Finite? && a.value < b.value
  }

  /** An optional property of a JavaScript object: the key is missing, present
      holding `undefined`, or present holding a value. Spreading and
      `Object.entries` tell the first two apart. */
  datatype Field<+T> = Absent | Undefined | Defined(value: T)

  /** A country as fetched. `area` arrives as text; the model keeps the number
      `Number(area)` that every comparison uses. */
  datatype Country = Country(name: string, region: string, area: Num)

  /** The filter object: `{ region?: string, area?: number }`. */
  datatype Filter = Filter(region: Field<string>, area: Field<Num>)

  /** The pagination object; `totalPages` and `totalItems` may be missing. */
  datatype Pagination = Pagination(totalPages: Option<int>, currentPage: int, totalItems: Option<int>, pageSize: int)

  /** The `Sort` enum; "no sort" is `None` of `Option<SortDir>`. */
  datatype SortDir = Asc | Desc

  datatype FetchStatus = Idle | Fetching | Fetched
}
