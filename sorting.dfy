/**
 * The stable sorts the engine borrows from the Java library (List.sort and Stream.sorted
 * are stable merge sorts), written as insertion sorts: one by an integer key, one by
 * String.compareTo.
 */
module Sorting {
  import opened Text

  predicate SortedByKey<T>(s: seq<T>, key: T -> int)
  {
    forall i, j :: 0 <= i < j < |s| ==> key(s[i]) <= key(s[j])
  }

  /** The elements of `s` whose key is `k`, in order. */
  function WithKey<T>(s: seq<T>, key: T -> int, k: int): seq<T>
  {
    if s == [] then []
    else WithKey(s[..|s| - 1], key, k) + (if key(s[|s| - 1]) == k then [s[|s| - 1]] else [])
  }

  /** Every element's key is at most `b`. */
  predicate KeysAtMost<T>(s: seq<T>, key: T -> int, b: int)
  {
    forall i :: 0 <= i < |s| ==> key(s[i]) <= b
  }

  /** Places `x` after every element whose key is at most its own. */
  function InsertByKey<T>(s: seq<T>, x: T, key: T -> int): seq<T>
  {
    if s == [] || key(s[|s| - 1]) <= key(x) then s + [x]
    else InsertByKey(s[..|s| - 1], x, key) + [s[|s| - 1]]
  }

  lemma SortedAppend<T>(s: seq<T>, y: T, key: T -> int)
    requires SortedByKey(s, key) && KeysAtMost(s, key, key(y))
    ensures SortedByKey(s + [y], key)
  {
  }

  /** Inserting adds exactly `x`. */
  lemma {:induction false} InsertPermutes<T>(s: seq<T>, x: T, key: T -> int)
    ensures multiset(InsertByKey(s, x, key)) == multiset(s) + multiset{x}
  {
    if s != [] && key(s[|s| - 1]) > key(x) {
      var init, last := s[..|s| - 1], s[|s| - 1];
      assert s == init + [last];
      InsertPermutes(init, x, key);
    }
  }

  /** Inserting into a sorted sequence keeps it sorted and respects any key bound. */
  lemma {:induction false} InsertSorted<T>(s: seq<T>, x: T, key: T -> int, b: int)
    requires SortedByKey(s, key)
    ensures SortedByKey(InsertByKey(s, x, key), key)
    ensures KeysAtMost(s, key, b) && key(x) <= b ==> KeysAtMost(InsertByKey(s, x, key), key, b)
  {
    if s == [] || key(s[|s| - 1]) <= key(x) {
      SortedAppend(s, x, key);
    } else {
      var init, last := s[..|s| - 1], s[|s| - 1];
      assert s == init + [last];
      assert KeysAtMost(init, key, key(last));
      InsertSorted(init, x, key, key(last));
      InsertSorted(init, x, key, b);
      SortedAppend(InsertByKey(init, x, key), last, key);
    }
  }

  /** The insertion sort itself. */
  function InsertionSort<T>(s: seq<T>, key: T -> int): seq<T>
  {
    if s == [] then [] else InsertByKey(InsertionSort(s[..|s| - 1], key), s[|s| - 1], key)
  }

  lemma {:induction false} InsertionSortSorts<T>(s: seq<T>, key: T -> int)
    ensures multiset(InsertionSort(s, key)) == multiset(s)
    ensures SortedByKey(InsertionSort(s, key), key)
  {
    if s != [] {
      var init, last := s[..|s| - 1], s[|s| - 1];
      assert s == init + [last];
      InsertionSortSorts(init, key);
      InsertPermutes(InsertionSort(init, key), last, key);
      InsertSorted(InsertionSort(init, key), last, key, 0);
    }
  }

  /** A stable sort by key: sorted, a permutation, and equal keys keep their order. */
  function SortByKey<T>(s: seq<T>, key: T -> int): (r: seq<T>)
    ensures multiset(r) == multiset(s)
    ensures SortedByKey(r, key)
  {
    InsertionSortSorts(s, key);
    InsertionSort(s, key)
  }

  lemma {:induction false} WithKeyAppend<T>(a: seq<T>, b: seq<T>, key: T -> int, k: int)
    ensures WithKey(a + b, key, k) == WithKey(a, key, k) + WithKey(b, key, k)
    decreases |b|
  {
    if b == [] {
      assert a + b == a;
    } else {
      assert (a + b)[..|a + b| - 1] == a + b[..|b| - 1];
      WithKeyAppend(a, b[..|b| - 1], key, k);
    }
  }

  lemma WithKeySingle<T>(y: T, key: T -> int, k: int)
    ensures WithKey([y], key, k) == if key(y) == k then [y] else []
  {
    assert [y][..0] == [];
  }

  lemma {:induction false} InsertKeepsOrder<T>(s: seq<T>, x: T, key: T -> int, k: int)
    ensures WithKey(InsertByKey(s, x, key), key, k) == WithKey(s + [x], key, k)
  {
    if s != [] && key(s[|s| - 1]) > key(x) {
      var init, last := s[..|s| - 1], s[|s| - 1];
      assert s == init + [last];
      var r := InsertByKey(init, x, key);
      WithKeySingle(x, key, k);
      WithKeySingle(last, key, k);
      calc {
        WithKey(r + [last], key, k);
      == { WithKeyAppend(r, [last], key, k); }
        WithKey(r, key, k) + WithKey([last], key, k);
      == { InsertKeepsOrder(init, x, key, k); WithKeyAppend(init, [x], key, k); }
        WithKey(init, key, k) + WithKey([x], key, k) + WithKey([last], key, k);
      ==  // x and last have different keys, so at most one of them has key k
        WithKey(init, key, k) + WithKey([last], key, k) + WithKey([x], key, k);
      == { WithKeyAppend(init, [last], key, k); WithKeyAppend(init + [last], [x], key, k); }
        WithKey(s + [x], key, k);
      }
    }
  }

  lemma {:induction false} InsertionSortStable<T>(s: seq<T>, key: T -> int, k: int)
    ensures WithKey(InsertionSort(s, key), key, k) == WithKey(s, key, k)
  {
    if s != [] {
      var init, last := s[..|s| - 1], s[|s| - 1];
      InsertionSortStable(init, key, k);
      InsertKeepsOrder(InsertionSort(init, key), last, key, k);
      WithKeyAppend(InsertionSort(init, key), [last], key, k);
      WithKeyAppend(init, [last], key, k);
      assert s == init + [last];
    }
  }

  /** Stability: the elements sharing any one key come out in their input order. */
  lemma SortStable<T>(s: seq<T>, key: T -> int, k: int)
    ensures WithKey(SortByKey(s, key), key, k) == WithKey(s, key, k)
  {
    InsertionSortStable(s, key, k);
  }

  predicate SortedStrings(s: seq<string>)
  {
    forall i, j :: 0 <= i < j < |s| ==> LexLessEq(s[i], s[j])
  }

  function InsertString(s: seq<string>, x: string): (r: seq<string>)
    requires SortedStrings(s)
    ensures multiset(r) == multiset(s) + multiset{x}
    ensures SortedStrings(r)
  {
    if s == [] || LexLessEq(s[|s| - 1], x) then
      AppendAbove(s, x);
      s + [x]
    else
      var init, last := s[..|s| - 1], s[|s| - 1];
      assert s == init + [last];
      LexTotal(x, last);
      var t := InsertString(init, x);
      AllBelow(init, x, last, t);
      t + [last]
  }

  /** Appending an element no smaller than the last keeps a sorted sequence sorted. */
  lemma AppendAbove(s: seq<string>, x: string)
    requires SortedStrings(s)
    requires s == [] || LexLessEq(s[|s| - 1], x)
    ensures SortedStrings(s + [x])
  {
    forall i | 0 <= i < |s|
      ensures LexLessEq(s[i], x)
    {
      if i < |s| - 1 {
        LexTransitive(s[i], s[|s| - 1], x);
      }
    }
  }

  lemma AllBelow(init: seq<string>, x: string, last: string, t: seq<string>)
    requires SortedStrings(init + [last]) && LexLessEq(x, last) && SortedStrings(t)
    requires multiset(t) == multiset(init) + multiset{x}
    ensures SortedStrings(t + [last])
  {
    forall i | 0 <= i < |t|
      ensures LexLessEq(t[i], last)
    {
      assert t[i] in multiset(t);
      if t[i] != x {
        assert t[i] in multiset(init);
        var j :| 0 <= j < |init| && init[j] == t[i];
        assert (init + [last])[j] == init[j] && (init + [last])[|init|] == last;
      }
    }
  }

  /** Stream.sorted() on strings: ascending by String.compareTo, a permutation. */
  function SortStrings(s: seq<string>): (r: seq<string>)
    ensures multiset(r) == multiset(s)
    ensures SortedStrings(r)
  {
    if s == [] then []
    else
      assert s == s[..|s| - 1] + [s[|s| - 1]];
      InsertString(SortStrings(s[..|s| - 1]), s[|s| - 1])
  }
}
