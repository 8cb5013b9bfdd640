/** `handleSort` of src/hooks/utils.ts: `data.sort(comparator)` reorders the
    caller's array in place by lower-cased name. `Array.prototype.sort` is a
    stable sort, so its result is fixed by the comparator; `SortSpec`, an
    insertion sort, is the reference definition of that result. */
module Sorting {
  import opened Types
  import opened Collation
  import opened Seqs

  /** The lower-cased name a country is sorted by. */
  function Key(c: Country): string
  {
    Lower(c.name)
  }

  /** The comparator passed to `data.sort`. */
  function Compare(x: Country, y: Country, sort: SortDir): int
  {
    var currentName := Key(x);
    var nextName := Key(y);
    if Before(currentName, nextName) then
      (if sort == Asc then -1 else 1)
    else if Before(nextName, currentName) then
      (if sort == Asc then 1 else -1)
    else 0
  }

  /** The comparator answers 0 exactly for equal lower-cased names, and a
      negative number exactly when `x` belongs before `y`. */
  lemma CompareMeaning(x: Country, y: Country, sort: SortDir)
    ensures Compare(x, y, sort) == 0 <==> Key(x) == Key(y)
    ensures Compare(x, y, sort) < 0 <==> (if sort == Asc then Before(Key(x), Key(y)) else Before(Key(y), Key(x)))
    ensures Compare(x, y, sort) in {-1, 0, 1}
  {
    Trichotomy(Key(x), Key(y));
  }

  /** The comparator is antisymmetric and transitive: a total preorder. */
  lemma CompareFlip(x: Country, y: Country, sort: SortDir)
    ensures Compare(y, x, sort) == -Compare(x, y, sort)
  {
    Trichotomy(Key(x), Key(y));
  }

  lemma CompareTransitive(x: Country, y: Country, z: Country, sort: SortDir)
    requires Compare(x, y, sort) <= 0 && Compare(y, z, sort) <= 0
    ensures Compare(x, z, sort) <= 0
  {
    CompareMeaning(x, y, sort);
    CompareMeaning(y, z, sort);
    CompareMeaning(x, z, sort);
    Trichotomy(Key(x), Key(z));
    if Compare(x, y, sort) < 0 && Compare(y, z, sort) < 0 {
      if sort == Asc {
        Transitive(Key(x), Key(y), Key(z));
      } else {
        Transitive(Key(z), Key(y), Key(x));
      }
    }
  }

  /** Every earlier element compares at most 0 with every later one. */
  ghost predicate Sorted(s: seq<Country>, sort: SortDir)
  {
    forall i, j :: 0 <= i < j < |s| ==> Compare(s[i], s[j], sort) <= 0
  }

  /** Inserting `x` behind a sorted prefix the way insertion sort does:
      `x` moves left past every element that compares greater than it. */
  function Insert(s: seq<Country>, x: Country, sort: SortDir): seq<Country>
    decreases |s|
  {
    if s == [] then [x]
    else if Compare(s[|s| - 1], x, sort) <= 0 then s + [x]
    else Insert(s[..|s| - 1], x, sort) + [s[|s| - 1]]
  }

  /** The reference definition of a stable sort by the comparator. */
  function SortSpec(s: seq<Country>, sort: SortDir): seq<Country>
    decreases |s|
  {
    if s == [] then [] else Insert(SortSpec(s[..|s| - 1], sort), s[|s| - 1], sort)
  }

  lemma AppendSorted(s: seq<Country>, x: Country, sort: SortDir)
    requires Sorted(s, sort)
    requires forall i :: 0 <= i < |s| ==> Compare(s[i], x, sort) <= 0
    ensures Sorted(s + [x], sort)
  {
  }

  lemma {:induction false} InsertPermutes(s: seq<Country>, x: Country, sort: SortDir)
    ensures multiset(Insert(s, x, sort)) == multiset(s) + multiset{x}
    decreases |s|
  {
    if s != [] && Compare(s[|s| - 1], x, sort) > 0 {
      var s' := s[..|s| - 1];
      assert s == s' + [s[|s| - 1]];
      InsertPermutes(s', x, sort);
    }
  }

  lemma {:induction false} InsertSorted(s: seq<Country>, x: Country, sort: SortDir)
    requires Sorted(s, sort)
    ensures Sorted(Insert(s, x, sort), sort)
    decreases |s|
  {
    if s != [] {
      var n := |s|;
      var last := s[n - 1];
      if Compare(last, x, sort) <= 0 {
        AppendAfterLast(s, x, sort);
      } else {
        var s' := s[..n - 1];
        assert s == s' + [last];
        assert Sorted(s', sort);
        InsertSorted(s', x, sort);
        InsertPermutes(s', x, sort);
        var t := Insert(s', x, sort);
        BelowLast(s', last, x, t, sort);
        AppendSorted(t, last, sort);
      }
    }
  }

  /** An element no smaller than the last of a sorted sequence may follow it. */
  lemma AppendAfterLast(s: seq<Country>, x: Country, sort: SortDir)
    requires Sorted(s, sort) && s != [] && Compare(s[|s| - 1], x, sort) <= 0
    ensures Sorted(s + [x], sort)
  {
    var n := |s|;
    forall i | 0 <= i < n ensures Compare(s[i], x, sort) <= 0 {
      if i < n - 1 {
        CompareTransitive(s[i], s[n - 1], x, sort);
      }
    }
    AppendSorted(s, x, sort);
  }

  /** Inserting an element smaller than `last` into the rest keeps every
      element at most `last`. */
  lemma BelowLast(s': seq<Country>, last: Country, x: Country, t: seq<Country>, sort: SortDir)
    requires Sorted(s' + [last], sort) && Compare(last, x, sort) > 0
    requires multiset(t) == multiset(s') + multiset{x}
    ensures forall i :: 0 <= i < |t| ==> Compare(t[i], last, sort) <= 0
  {
    var s := s' + [last];
    CompareFlip(last, x, sort);
    forall i | 0 <= i < |t| ensures Compare(t[i], last, sort) <= 0 {
      assert t[i] in multiset(t);
      if t[i] != x {
        assert t[i] in multiset(s');
        var k :| 0 <= k < |s'| && s'[k] == t[i];
        assert s[k] == t[i] && s[|s'|] == last;
      }
    }
  }

  /** `SortSpec` yields a sorted permutation of its input. */
  lemma {:induction false} SortSpecSortsPermutation(s: seq<Country>, sort: SortDir)
    ensures Sorted(SortSpec(s, sort), sort)
    ensures multiset(SortSpec(s, sort)) == multiset(s)
    ensures |SortSpec(s, sort)| == |s|
    decreases |s|
  {
    if s != [] {
      var s' := s[..|s| - 1];
      assert s == s' + [s[|s| - 1]];
      SortSpecSortsPermutation(s', sort);
      InsertSorted(SortSpec(s', sort), s[|s| - 1], sort);
      InsertPermutes(SortSpec(s', sort), s[|s| - 1], sort);
    }
    var r := SortSpec(s, sort);
    assert |r| == |multiset(r)| == |multiset(s)| == |s|;
  }

  /** In a sorted sequence the lower-cased names never decrease under `Asc`
      and never increase under `Desc`. */
  lemma SortedNames(r: seq<Country>, sort: SortDir)
    requires Sorted(r, sort)
    ensures forall i, j :: 0 <= i < j < |r| ==>
              if sort == Asc then !Before(Key(r[j]), Key(r[i])) else !Before(Key(r[i]), Key(r[j]))
  {
    forall i, j | 0 <= i < j < |r|
      ensures if sort == Asc then !Before(Key(r[j]), Key(r[i])) else !Before(Key(r[i]), Key(r[j]))
    {
      Trichotomy(Key(r[i]), Key(r[j]));
    }
  }

  lemma KeepSingleton(x: Country, p: Country -> bool)
    ensures Keep([x], p) == if p(x) then [x] else []
  {
    assert [x][1..] == [];
  }

  /** When `x` compares at least as great as the last kept element, it
      goes to the end. */
  lemma InsertAtEnd(u: seq<Country>, x: Country, sort: SortDir)
    requires u == [] || Compare(u[|u| - 1], x, sort) <= 0
    ensures Insert(u, x, sort) == u + [x]
  {
  }

  /** When `x` compares less than the last element, it moves before it. */
  lemma InsertBeforeLast(u: seq<Country>, last: Country, x: Country, sort: SortDir)
    requires Compare(last, x, sort) > 0
    ensures Insert(u + [last], x, sort) == Insert(u, x, sort) + [last]
  {
    assert (u + [last])[..|u|] == u;
  }

  /** Every element of a sorted sequence compares at most 0 with its last. */
  lemma SortedLast(t: seq<Country>, k: int, sort: SortDir)
    requires Sorted(t, sort) && 0 <= k < |t|
    ensures Compare(t[k], t[|t| - 1], sort) <= 0
  {
    if k == |t| - 1 {
      CompareMeaning(t[k], t[k], sort);
    }
  }

  /** Filtering after inserting into a sorted sequence is inserting into the
      filtered sequence, when `x` is kept at all. */
  lemma {:induction false} KeepInsert(t: seq<Country>, x: Country, p: Country -> bool, sort: SortDir)
    requires Sorted(t, sort)
    ensures Keep(Insert(t, x, sort), p) == if p(x) then Insert(Keep(t, p), x, sort) else Keep(t, p)
    decreases |t|
  {
    KeepSingleton(x, p);
    if t == [] {
      assert Insert(t, x, sort) == [x];
    } else {
      var n := |t|;
      var last := t[n - 1];
      var t' := t[..n - 1];
      assert t == t' + [last];
      if Compare(last, x, sort) <= 0 {
        KeepInsertAtEnd(t, x, p, sort);
      } else {
        assert Sorted(t', sort);
        KeepInsert(t', x, p, sort);
        KeepInsertBeforeLast(t', last, x, p, sort);
      }
    }
  }

  lemma KeepInsertAtEnd(t: seq<Country>, x: Country, p: Country -> bool, sort: SortDir)
    requires Sorted(t, sort) && t != [] && Compare(t[|t| - 1], x, sort) <= 0
    ensures Keep(Insert(t, x, sort), p) == if p(x) then Insert(Keep(t, p), x, sort) else Keep(t, p)
  {
    InsertAtEnd(t, x, sort);
    KeepConcat(t, [x], p);
    KeepSingleton(x, p);
    var u := Keep(t, p);
    if p(x) && u != [] {
      KeepCounts(t, p);
      assert u[|u| - 1] in u;
      var k :| 0 <= k < |t| && t[k] == u[|u| - 1];
      SortedLast(t, k, sort);
      CompareTransitive(t[k], t[|t| - 1], x, sort);
    }
    if p(x) {
      InsertAtEnd(u, x, sort);
    }
  }

  lemma KeepInsertBeforeLast(t': seq<Country>, last: Country, x: Country, p: Country -> bool, sort: SortDir)
    requires Compare(last, x, sort) > 0
    requires Keep(Insert(t', x, sort), p) == if p(x) then Insert(Keep(t', p), x, sort) else Keep(t', p)
    ensures Keep(Insert(t' + [last], x, sort), p) == if p(x) then Insert(Keep(t' + [last], p), x, sort) else Keep(t' + [last], p)
  {
    var a := Insert(t', x, sort);
    var k' := Keep(t', p);
    var tail := if p(last) then [last] else [];
    InsertBeforeLast(t', last, x, sort);
    KeepConcat(a, [last], p);
    KeepConcat(t', [last], p);
    KeepSingleton(last, p);
    assert Keep(t' + [last], p) == k' + tail;
    assert Keep(Insert(t' + [last], x, sort), p) == Keep(a, p) + tail;
    if p(x) && p(last) {
      InsertBeforeLast(k', last, x, sort);
      assert Insert(k' + tail, x, sort) == Insert(k', x, sort) + tail;
    } else if p(x) {
      assert k' + tail == k';
      assert Insert(k', x, sort) + tail == Insert(k', x, sort);
    } else {
      assert Keep(a, p) == k';
    }
  }

  /** Sorting commutes with filtering: keeping the elements that satisfy `p`
      of the sorted sequence gives the sorted sequence of the kept elements. */
  lemma {:induction false} SortSpecKeep(s: seq<Country>, p: Country -> bool, sort: SortDir)
    ensures Keep(SortSpec(s, sort), p) == SortSpec(Keep(s, p), sort)
    decreases |s|
  {
    if s != [] {
      var x := s[|s| - 1];
      var s' := s[..|s| - 1];
      assert s == s' + [x];
      var k' := Keep(s', p);
      var sorted' := SortSpec(s', sort);
      assert SortSpec(s, sort) == Insert(sorted', x, sort);
      SortSpecKeep(s', p, sort);
      SortSpecSortsPermutation(s', sort);
      KeepInsert(sorted', x, p, sort);
      KeepConcat(s', [x], p);
      KeepSingleton(x, p);
      SortSpecAppend(k', x, p, sort);
      if p(x) {
        assert Keep(s, p) == k' + [x];
      } else {
        assert Keep(s, p) == k' + [];
      }
    }
  }

  /** Unfolding `SortSpec` of a filtered sequence one element from the end. */
  lemma SortSpecAppend(k': seq<Country>, x: Country, p: Country -> bool, sort: SortDir)
    ensures SortSpec(k' + (if p(x) then [x] else []), sort)
            == if p(x) then Insert(SortSpec(k', sort), x, sort) else SortSpec(k', sort)
  {
    if p(x) {
      assert (k' + [x])[..|k'|] == k';
    } else {
      assert k' + [] == k';
    }
  }

  /** The countries whose lower-cased name is `key`. */
  function NamedAs(key: string): Country -> bool
  {
    (c: Country) => Key(c) == key
  }

  /** Elements that all share one name are left in their order. */
  lemma {:induction false} SortSpecSameName(s: seq<Country>, key: string, sort: SortDir)
    requires forall i :: 0 <= i < |s| ==> Key(s[i]) == key
    ensures SortSpec(s, sort) == s
    decreases |s|
  {
    if s != [] {
      var s' := s[..|s| - 1];
      assert s == s' + [s[|s| - 1]];
      SortSpecSameName(s', key, sort);
      if s' != [] {
        CompareMeaning(s'[|s'| - 1], s[|s| - 1], sort);
      }
    }
  }

  /** Stability: countries with equal lower-cased names keep their relative
      input order, in either direction. */
  lemma SortStable(s: seq<Country>, key: string, sort: SortDir)
    ensures Keep(SortSpec(s, sort), NamedAs(key)) == Keep(s, NamedAs(key))
  {
    SortSpecKeep(s, NamedAs(key), sort);
    KeepCounts(s, NamedAs(key));
    var k := Keep(s, NamedAs(key));
    forall i | 0 <= i < |k| ensures Key(k[i]) == key {
      assert k[i] in k;
    }
    SortSpecSameName(k, key, sort);
  }

  /** `handleSort(data, sort)`: sorts the caller's array in place and
      returns that same array. */
  method HandleSort(data: array<Country>, sort: SortDir) returns (sorted: array<Country>)
    modifies data
    ensures sorted == data
    ensures data[..] == SortSpec(old(data[..]), sort)
  {
    ghost var input := data[..];
    var i := 0;
    assert data[..0] == SortSpec(input[..0], sort);
    while i < data.Length
      invariant 0 <= i <= data.Length
      invariant data[..i] == SortSpec(input[..i], sort)
      invariant data[i..] == input[i..]
    {
      InsertNext(data, i, sort, input);
      i := i + 1;
    }
    assert data[..] == data[..i] && input[..i] == input;
    sorted := data;
  }

  /** One pass of insertion sort: with `data[..i]` the sorted `input[..i]`,
      the pass extends the sorted prefix by `input[i]`. */
  method InsertNext(data: array<Country>, i: int, sort: SortDir, ghost input: seq<Country>)
    requires 0 <= i < data.Length == |input|
    requires data[..i] == SortSpec(input[..i], sort) && data[i..] == input[i..]
    modifies data
    ensures data[..i + 1] == SortSpec(input[..i + 1], sort) && data[i + 1..] == input[i + 1..]
  {
    assert data[i] == input[i] && data[i + 1..] == input[i + 1..];
    InsertAt(data, i, sort);
    SortSpecStep(input, i, sort);
  }

  /** Finds where `data[i]` belongs among `data[..i]` and moves it there,
      shifting the greater elements one place right. */
  method InsertAt(data: array<Country>, i: int, sort: SortDir)
    requires 0 <= i < data.Length
    modifies data
    ensures data[..i + 1] == Insert(old(data[..i]), old(data[i]), sort)
    ensures data[i + 1..] == old(data[i + 1..])
  {
    ghost var done := data[..i];
    var x := data[i];
    var j := FindSlot(data, i, x, sort);
    ShiftRight(data, j, i);
    data[j] := x;
    Placed(data[..i + 1], done, j, x);
    assert data[i + 1..] == old(data[i + 1..]);
  }

  /** Sorting one more element of the input inserts it. */
  lemma SortSpecStep(s: seq<Country>, i: int, sort: SortDir)
    requires 0 <= i < |s|
    ensures SortSpec(s[..i + 1], sort) == Insert(SortSpec(s[..i], sort), s[i], sort)
  {
    assert s[..i + 1][..i] == s[..i];
  }

  /** Scans `data[..i]` from the right past every element that compares
      greater than `x`; `x` belongs at the returned index. */
  method FindSlot(data: array<Country>, i: int, x: Country, sort: SortDir) returns (j: int)
    requires 0 <= i <= data.Length
    ensures 0 <= j <= i
    ensures data[..j] + [x] + data[j..i] == Insert(data[..i], x, sort)
  {
    ghost var done := data[..i];
    j := i;
    ShiftStart(done, x, sort);
    while j > 0 && Compare(data[j - 1], x, sort) > 0
      invariant 0 <= j <= i
      invariant Shifted(done, j, x, sort)
    {
      ShiftStep(done, j, x, sort);
      j := j - 1;
    }
    FinishStep(done, j, x, sort);
    assert done[..j] == data[..j] && done[j..] == data[j..i];
  }

  /** Moves `data[j..i]` one place right, leaving `data[j]` as it was. */
  method ShiftRight(data: array<Country>, j: int, i: int)
    requires 0 <= j <= i < data.Length
    modifies data
    ensures forall k :: 0 <= k <= j ==> data[k] == old(data[k])
    ensures forall k :: j < k <= i ==> data[k] == old(data[k - 1])
    ensures forall k :: i < k < data.Length ==> data[k] == old(data[k])
  {
    var k := i;
    while k > j
      invariant j <= k <= i
      invariant forall m :: 0 <= m <= k ==> data[m] == old(data[m])
      invariant forall m :: k < m <= i ==> data[m] == old(data[m - 1])
      invariant forall m :: i < m < data.Length ==> data[m] == old(data[m])
    {
      data[k] := data[k - 1];
      k := k - 1;
    }
  }

  /** The array prefix after the pass, read as a sequence. */
  lemma Placed(a: seq<Country>, done: seq<Country>, j: int, x: Country)
    requires |a| == |done| + 1 && 0 <= j <= |done|
    requires forall k :: 0 <= k < j ==> a[k] == done[k]
    requires a[j] == x
    requires forall k :: j < k < |a| ==> a[k] == done[k - 1]
    ensures a == done[..j] + [x] + done[j..]
  {
  }

  /** After shifting the elements `done[j..]` right, inserting `x` into what
      is left gives the insertion of `x` into all of `done`. */
  ghost predicate Shifted(done: seq<Country>, j: int, x: Country, sort: SortDir)
    requires 0 <= j <= |done|
  {
    Insert(done[..j], x, sort) + done[j..] == Insert(done, x, sort)
  }

  /** Nothing is shifted yet. */
  lemma ShiftStart(done: seq<Country>, x: Country, sort: SortDir)
    ensures Shifted(done, |done|, x, sort)
  {
    assert done[..|done|] == done && done[|done|..] == [];
  }

  /** Moving `x` one place left past a greater element keeps the insertion
      result. */
  lemma ShiftStep(done: seq<Country>, j: int, x: Country, sort: SortDir)
    requires 0 < j <= |done| && Compare(done[j - 1], x, sort) > 0
    requires Shifted(done, j, x, sort)
    ensures Shifted(done, j - 1, x, sort)
  {
    InsertBeforeLast(done[..j - 1], done[j - 1], x, sort);
    assert done[..j - 1] + [done[j - 1]] == done[..j];
    assert done[j - 1..] == [done[j - 1]] + done[j..];
  }

  /** Where the shifting stops, `x` is placed. */
  lemma FinishStep(done: seq<Country>, j: int, x: Country, sort: SortDir)
    requires 0 <= j <= |done| && (j == 0 || Compare(done[j - 1], x, sort) <= 0)
    requires Shifted(done, j, x, sort)
    ensures done[..j] + [x] + done[j..] == Insert(done, x, sort)
  {
    InsertAtEnd(done[..j], x, sort);
  }
}
