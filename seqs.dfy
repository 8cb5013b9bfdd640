/** The two uses of `Array.prototype.filter` in the pipeline: keeping the
    elements that satisfy a predicate, and keeping the elements whose position
    lies in a range. */
module Seqs {

  /** `s.filter(p)`: the elements of `s` that satisfy `p`, in their order. */
  function Keep<T>(s: seq<T>, p: T -> bool): (r: seq<T>)
    ensures |r| <= |s|
  {
    if s == [] then []
    else (if p(s[0]) then [s[0]] else []) + Keep(s[1..], p)
  }

  /** `Keep` keeps exactly the elements that satisfy `p`, each as often as
      it occurs in `s`. */
  lemma {:induction false} KeepCounts<T(!new)>(s: seq<T>, p: T -> bool)
    ensures forall x :: multiset(Keep(s, p))[x] == if p(x) then multiset(s)[x] else 0
    ensures forall x :: x in Keep(s, p) <==> x in s && p(x)
    decreases |s|
  {
    if s != [] {
      KeepCounts(s[1..], p);
      assert s == [s[0]] + s[1..];
      assert multiset(s) == multiset{s[0]} + multiset(s[1..]);
      forall x ensures x in Keep(s, p) <==> x in s && p(x) {
        assert x in Keep(s, p) <==> multiset(Keep(s, p))[x] > 0;
        assert x in s <==> multiset(s)[x] > 0;
      }
    }
  }

  /** `r` is obtained from `s` by deleting elements, keeping the order. */
  ghost predicate IsSubsequence<T>(r: seq<T>, s: seq<T>)
    decreases |s|
  {
    if s == [] then r == []
    else (r != [] && r[0] == s[0] && IsSubsequence(r[1..], s[1..])) || IsSubsequence(r, s[1..])
  }

  lemma {:induction false} KeepIsSubsequence<T>(s: seq<T>, p: T -> bool)
    ensures IsSubsequence(Keep(s, p), s)
    decreases |s|
  {
    if s != [] {
      KeepIsSubsequence(s[1..], p);
      if p(s[0]) {
        assert Keep(s, p) == [s[0]] + Keep(s[1..], p);
        assert Keep(s, p)[1..] == Keep(s[1..], p);
      } else {
        assert Keep(s, p) == Keep(s[1..], p);
      }
    }
  }

  lemma {:induction false} KeepConcat<T>(a: seq<T>, b: seq<T>, p: T -> bool)
    ensures Keep(a + b, p) == Keep(a, p) + Keep(b, p)
    decreases |a|
  {
    if a != [] {
      assert (a + b)[0] == a[0];
      assert (a + b)[1..] == a[1..] + b;
      KeepConcat(a[1..], b, p);
      calc {
        Keep(a + b, p);
        (if p(a[0]) then [a[0]] else []) + Keep(a[1..] + b, p);
        (if p(a[0]) then [a[0]] else []) + Keep(a[1..], p) + Keep(b, p);
        Keep(a, p) + Keep(b, p);
      }
    } else {
      assert a + b == b;
    }
  }

  /** Filtering with `p` and then with `q` keeps what the conjunction keeps. */
  lemma {:induction false} KeepTwice<T>(s: seq<T>, p: T -> bool, q: T -> bool, pq: T -> bool)
    requires forall x :: pq(x) == (p(x) && q(x))
    ensures Keep(Keep(s, p), q) == Keep(s, pq)
    decreases |s|
  {
    if s != [] {
      KeepTwice(s[1..], p, q, pq);
      KeepConcat(if p(s[0]) then [s[0]] else [], Keep(s[1..], p), q);
    }
  }

  /** Two predicates that agree everywhere keep the same elements. */
  lemma {:induction false} KeepSame<T>(s: seq<T>, p: T -> bool, q: T -> bool)
    requires forall x :: p(x) == q(x)
    ensures Keep(s, p) == Keep(s, q)
    decreases |s|
  {
    if s != [] {
      KeepSame(s[1..], p, q);
    }
  }

  /** A predicate that holds everywhere keeps everything. */
  lemma {:induction false} KeepAll<T>(s: seq<T>, p: T -> bool)
    requires forall x :: p(x)
    ensures Keep(s, p) == s
    decreases |s|
  {
    if s != [] {
      KeepAll(s[1..], p);
      assert s == [s[0]] + s[1..];
    }
  }

  /** `s.filter((_, i) => first <= i && i < last)`. */
  function KeepPositions<T>(s: seq<T>, first: int, last: int): seq<T>
    decreases |s|
  {
    if s == [] then []
    else KeepPositions(s[..|s| - 1], first, last) + (if first <= |s| - 1 < last then [s[|s| - 1]] else [])
  }

  function Clamp(x: int, lo: int, hi: int): (r: int)
    requires lo <= hi
    ensures lo <= r <= hi
    ensures lo <= x <= hi ==> r == x
  {
    if x < lo then lo else if x > hi then hi else x
  }

  /** Keeping the positions in `[first, last)` is the contiguous slice of
      that range, clipped to the sequence. */
  lemma {:induction false} KeepPositionsIsSlice<T>(s: seq<T>, first: int, last: int)
    ensures var lo := Clamp(first, 0, |s|);
            KeepPositions(s, first, last) == s[lo..Clamp(last, lo, |s|)]
    decreases |s|
  {
    if s != [] {
      var n := |s|;
      var s' := s[..n - 1];
      KeepPositionsIsSlice(s', first, last);
      var lo' := Clamp(first, 0, n - 1);
      var hi' := Clamp(last, lo', n - 1);
      var lo := Clamp(first, 0, n);
      var hi := Clamp(last, lo, n);
      if first <= n - 1 < last {
        assert lo == lo' && hi == n && hi' == n - 1;
        assert s'[lo'..hi'] == s[lo..n - 1];
        assert s[lo..hi] == s[lo..n - 1] + [s[n - 1]];
      } else if first > n - 1 {
        assert lo == n && hi == n;
        assert hi' == lo';
      } else {
        assert lo == lo' && hi == hi';
        assert hi <= n - 1;
        assert s'[lo'..hi'] == s[lo..hi];
      }
    }
  }
}
