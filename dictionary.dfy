/** `sortDictionary` of src/components/Countries/dictionary.ts: the label of
    the sort button. */
module Dictionary {
  import opened Types

  function SortDictionary(sort: Option<SortDir>): (text: string)
    ensures sort == None <==> text == "None"
    ensures sort == Some(Asc) <==> text == "Asc"
    ensures sort == Some(Desc) <==> text == "Desc"
  {
    assert "None"[0] != "Desc"[0] && |"Asc"| != |"Desc"|;
    if sort == None then "None"
    else if sort == Some(Asc) then "Asc"
    else assert sort.value == Desc; "Desc"
  }

  /** The label determines the sort mode. */
  lemma LabelDeterminesSort(a: Option<SortDir>, b: Option<SortDir>)
    requires SortDictionary(a) == SortDictionary(b)
    ensures a == b
  {
  }
}
