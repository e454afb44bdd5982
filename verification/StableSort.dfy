/** A stable insertion sort: what `sorted` and `sort` return, for any total preorder. */
module StableSort {
  import opened InsertionOrder

  ghost predicate IsOrder<T(!new)>(le: (T, T) -> bool) {
    && (forall a, b :: le(a, b) || le(b, a))
    && (forall a, b, c :: le(a, b) && le(b, c) ==> le(a, c))
  }

  ghost predicate IsSorted<T>(s: seq<T>, le: (T, T) -> bool) {
    forall i, j :: 0 <= i < j < |s| ==> le(s[i], s[j])
  }

  /** Behind every element that is not greater. */
  function Insert<T>(s: seq<T>, x: T, le: (T, T) -> bool): seq<T> {
    if s == [] || le(s[|s| - 1], x) then s + [x]
    else Insert(s[..|s| - 1], x, le) + [s[|s| - 1]]
  }

  function Sort<T>(s: seq<T>, le: (T, T) -> bool): seq<T> {
    if s == [] then [] else Insert(Sort(s[..|s| - 1], le), s[|s| - 1], le)
  }

  lemma {:induction false} InsertKeepsMembers<T>(s: seq<T>, x: T, le: (T, T) -> bool)
    ensures multiset(Insert(s, x, le)) == multiset(s) + multiset{x}
    ensures forall y :: y in Insert(s, x, le) <==> y in s || y == x
    decreases |s|
  {
    if s == [] || le(s[|s| - 1], x) {
    } else {
      assert s == s[..|s| - 1] + [s[|s| - 1]];
      InsertKeepsMembers(s[..|s| - 1], x, le);
    }
  }

  lemma {:induction false} InsertSorts<T(!new)>(s: seq<T>, x: T, le: (T, T) -> bool)
    requires IsOrder(le) && IsSorted(s, le)
    ensures IsSorted(Insert(s, x, le), le)
    decreases |s|
  {
    if s == [] || le(s[|s| - 1], x) {
      forall i | 0 <= i < |s| ensures le(s[i], x) {
        assert i < |s| - 1 ==> le(s[i], s[|s| - 1]);
      }
    } else {
      var before, last := s[..|s| - 1], s[|s| - 1];
      InsertSorts(before, x, le);
      InsertKeepsMembers(before, x, le);
      var sorted := Insert(before, x, le);
      forall i | 0 <= i < |sorted| ensures le(sorted[i], last) {
        assert sorted[i] in sorted;
        if sorted[i] in before {
          var k :| 0 <= k < |before| && before[k] == sorted[i];
          assert le(s[k], s[|s| - 1]);
        }
      }
    }
  }

  lemma {:induction false} SortSorts<T(!new)>(s: seq<T>, le: (T, T) -> bool)
    requires IsOrder(le)
    ensures IsSorted(Sort(s, le), le)
    ensures multiset(Sort(s, le)) == multiset(s)
    ensures forall y :: y in Sort(s, le) <==> y in s
    decreases |s|
  {
    if s == [] {
    } else {
      var before, last := s[..|s| - 1], s[|s| - 1];
      assert s == before + [last];
      SortSorts(before, le);
      InsertSorts(Sort(before, le), last, le);
      InsertKeepsMembers(Sort(before, le), last, le);
    }
  }

  lemma {:induction false} InsertKeepsDistinct<T>(s: seq<T>, x: T, le: (T, T) -> bool)
    requires Distinct(s) && x !in s
    ensures Distinct(Insert(s, x, le))
    decreases |s|
  {
    if s == [] || le(s[|s| - 1], x) {
    } else {
      var before, last := s[..|s| - 1], s[|s| - 1];
      InsertKeepsDistinct(before, x, le);
      InsertKeepsMembers(before, x, le);
      var rest := Insert(before, x, le);
      forall i | 0 <= i < |rest| ensures rest[i] != last {
        assert rest[i] in rest;
      }
    }
  }

  lemma {:induction false} SortKeepsDistinct<T(!new)>(s: seq<T>, le: (T, T) -> bool)
    requires IsOrder(le) && Distinct(s)
    ensures Distinct(Sort(s, le))
    decreases |s|
  {
    if s == [] {
    } else {
      var before, last := s[..|s| - 1], s[|s| - 1];
      assert s == before + [last];
      SortKeepsDistinct(before, le);
      SortSorts(before, le);
      InsertKeepsDistinct(Sort(before, le), last, le);
    }
  }

  /** The elements that compare equal to `x`, in their order. */
  function Alike<T>(s: seq<T>, x: T, le: (T, T) -> bool): seq<T> {
    if s == [] then []
    else
      var last := s[|s| - 1];
      Alike(s[..|s| - 1], x, le) + if le(last, x) && le(x, last) then [last] else []
  }

  lemma {:induction false} InsertIsStable<T(!new)>(s: seq<T>, y: T, x: T, le: (T, T) -> bool)
    requires IsOrder(le)
    ensures Alike(Insert(s, y, le), x, le) == Alike(s, x, le) + if le(y, x) && le(x, y) then [y] else []
    decreases |s|
  {
    if s == [] || le(s[|s| - 1], y) {
      assert (s + [y])[..|s|] == s;
    } else {
      var before, last := s[..|s| - 1], s[|s| - 1];
      InsertIsStable(before, y, x, le);
      var rest := Insert(before, y, le);
      assert (rest + [last])[..|rest|] == rest;
    }
  }

  /** Elements that compare equal keep their order. */
  lemma {:induction false} SortIsStable<T(!new)>(s: seq<T>, x: T, le: (T, T) -> bool)
    requires IsOrder(le)
    ensures Alike(Sort(s, le), x, le) == Alike(s, x, le)
    decreases |s|
  {
    if s == [] {
    } else {
      SortIsStable(s[..|s| - 1], x, le);
      InsertIsStable(Sort(s[..|s| - 1], le), s[|s| - 1], x, le);
    }
  }
}
