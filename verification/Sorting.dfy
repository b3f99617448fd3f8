/** The stable sort by a numeric key that orders fees, periods and items. */
module Sorting {

  /** Puts an element behind all those whose key is not greater. */
  function Insert<T>(list: seq<T>, x: T, key: T -> int): (all: seq<T>)
    ensures |all| == |list| + 1
  {
    if list == [] then [x]
    else
      var last, before := list[|list| - 1], list[..|list| - 1];
      if key(x) < key(last) then Insert(before, x, key) + [last] else list + [x]
  }

  function Sort<T>(list: seq<T>, key: T -> int): (all: seq<T>)
    ensures |all| == |list|
  {
    if list == [] then [] else Insert(Sort(list[..|list| - 1], key), list[|list| - 1], key)
  }

  predicate IsSorted<T>(list: seq<T>, key: T -> int) {
    forall i, j | 0 <= i < j < |list| :: key(list[i]) <= key(list[j])
  }

  /** The elements with a key, in their order. */
  function WithKey<T>(list: seq<T>, key: T -> int, v: int): seq<T> {
    if list == [] then []
    else
      var last, before := list[|list| - 1], WithKey(list[..|list| - 1], key, v);
      if key(last) == v then before + [last] else before
  }

  lemma AppendedIsSorted<T>(list: seq<T>, x: T, key: T -> int)
    requires IsSorted(list, key) && forall y | y in list :: key(y) <= key(x)
    ensures IsSorted(list + [x], key)
  {
    forall i | 0 <= i < |list| ensures key(list[i]) <= key(x) {
      assert list[i] in list;
    }
  }

  lemma {:induction false} InsertSorts<T>(list: seq<T>, x: T, key: T -> int)
    requires IsSorted(list, key)
    ensures IsSorted(Insert(list, x, key), key) && multiset(Insert(list, x, key)) == multiset(list) + multiset{x}
  {
    if list != [] {
      var last, before := list[|list| - 1], list[..|list| - 1];
      assert list == before + [last];
      if key(x) < key(last) {
        InsertSorts(before, x, key);
        forall y | y in Insert(before, x, key) ensures key(y) <= key(last) {
          assert y in multiset(before) + multiset{x};
          assert y == x || y in before;
        }
        AppendedIsSorted(Insert(before, x, key), last, key);
      } else {
        forall y | y in list ensures key(y) <= key(x) {
          var i :| 0 <= i < |list| && list[i] == y;
        }
        AppendedIsSorted(list, x, key);
      }
    }
  }

  /** Sorting orders the elements and loses none. */
  lemma {:induction false} SortSorts<T>(list: seq<T>, key: T -> int)
    ensures IsSorted(Sort(list, key), key) && multiset(Sort(list, key)) == multiset(list)
    ensures forall x :: x in Sort(list, key) <==> x in list
  {
    if list != [] {
      var last, before := list[|list| - 1], list[..|list| - 1];
      assert list == before + [last];
      SortSorts(before, key);
      InsertSorts(Sort(before, key), last, key);
    }
    forall x ensures x in Sort(list, key) <==> x in list {
      assert x in multiset(Sort(list, key)) <==> x in multiset(list);
    }
  }

  lemma {:induction false} InsertIsStable<T>(list: seq<T>, x: T, key: T -> int, v: int)
    ensures WithKey(Insert(list, x, key), key, v) ==
            if key(x) == v then WithKey(list, key, v) + [x] else WithKey(list, key, v)
  {
    if list != [] && key(x) < key(list[|list| - 1]) {
      var last, before := list[|list| - 1], list[..|list| - 1];
      InsertIsStable(before, x, key, v);
      assert (Insert(before, x, key) + [last])[..|list|] == Insert(before, x, key);
    } else {
      assert (list + [x])[..|list|] == list;
    }
  }

  /** Elements with the same key stay in their order. */
  lemma {:induction false} SortIsStable<T>(list: seq<T>, key: T -> int, v: int)
    ensures WithKey(Sort(list, key), key, v) == WithKey(list, key, v)
  {
    if list != [] {
      SortIsStable(list[..|list| - 1], key, v);
      InsertIsStable(Sort(list[..|list| - 1], key), list[|list| - 1], key, v);
    }
  }

  // ---------- Elements that are apart ----------

  predicate Pairwise<T>(list: seq<T>, apart: (T, T) -> bool) {
    forall i, j | 0 <= i < j < |list| :: apart(list[i], list[j])
  }

  lemma AppendedIsPairwise<T>(list: seq<T>, x: T, apart: (T, T) -> bool)
    requires Pairwise(list, apart) && forall y | y in list :: apart(y, x)
    ensures Pairwise(list + [x], apart)
  {
    forall i | 0 <= i < |list| ensures apart(list[i], x) {
      assert list[i] in list;
    }
  }

  lemma {:induction false} InsertKeepsPairwise<T(!new)>(list: seq<T>, x: T, key: T -> int, apart: (T, T) -> bool)
    requires forall y, z :: apart(y, z) == apart(z, y)
    requires Pairwise(list, apart) && forall y | y in list :: apart(y, x)
    ensures Pairwise(Insert(list, x, key), apart)
    ensures forall y :: y in Insert(list, x, key) <==> y in list || y == x
  {
    if list != [] && key(x) < key(list[|list| - 1]) {
      var last, before := list[|list| - 1], list[..|list| - 1];
      assert list == before + [last];
      InsertKeepsPairwise(before, x, key, apart);
      forall y | y in before ensures apart(y, last) {
        var i :| 0 <= i < |before| && before[i] == y;
        assert list[i] == y;
      }
      AppendedIsPairwise(Insert(before, x, key), last, apart);
    } else {
      AppendedIsPairwise(list, x, apart);
    }
  }

  lemma {:induction false} SortKeepsPairwise<T(!new)>(list: seq<T>, key: T -> int, apart: (T, T) -> bool)
    requires forall y, z :: apart(y, z) == apart(z, y)
    requires Pairwise(list, apart)
    ensures Pairwise(Sort(list, key), apart)
  {
    if list != [] {
      var last, before := list[|list| - 1], list[..|list| - 1];
      assert list == before + [last];
      SortKeepsPairwise(before, key, apart);
      SortSorts(before, key);
      forall y | y in Sort(before, key) ensures apart(y, last) {
        var i :| 0 <= i < |before| && before[i] == y;
        assert list[i] == y;
      }
      InsertKeepsPairwise(Sort(before, key), last, key, apart);
    }
  }
}
