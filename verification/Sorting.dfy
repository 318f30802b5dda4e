/** Stable sorting by an integer key, and the partition point of a sorted sequence. */
module Sorting {
  import opened Options

  ghost predicate SortedBy<T>(s: seq<T>, key: T -> int) {
    forall i, j :: 0 <= i < j < |s| ==> key(s[i]) <= key(s[j])
  }

  /** Insert after all elements whose key is not greater. */
  function InsertLast<T>(s: seq<T>, x: T, key: T -> int): seq<T> {
    if s == [] || key(s[|s| - 1]) <= key(x) then s + [x]
    else InsertLast(s[..|s| - 1], x, key) + [s[|s| - 1]]
  }

  function StableSort<T>(s: seq<T>, key: T -> int): seq<T> {
    if s == [] then [] else InsertLast(StableSort(s[..|s| - 1], key), s[|s| - 1], key)
  }

  lemma {:induction false} InsertLastMembers<T>(s: seq<T>, x: T, key: T -> int)
    ensures multiset(InsertLast(s, x, key)) == multiset(s) + multiset{x}
  {
    if s != [] && key(s[|s| - 1]) > key(x) {
      InsertLastMembers(s[..|s| - 1], x, key);
      assert s == s[..|s| - 1] + [s[|s| - 1]];
    }
  }

  lemma {:induction false} InsertLastSorted<T>(s: seq<T>, x: T, key: T -> int)
    requires SortedBy(s, key)
    ensures SortedBy(InsertLast(s, x, key), key)
    ensures forall y :: y in InsertLast(s, x, key) ==> y == x || y in s
  {
    if s != [] && key(s[|s| - 1]) > key(x) {
      InsertLastSorted(s[..|s| - 1], x, key);
      var t := InsertLast(s[..|s| - 1], x, key);
      forall i | 0 <= i < |t| ensures key(t[i]) <= key(s[|s| - 1]) {
        assert t[i] == x || t[i] in s[..|s| - 1];
      }
    }
  }

  lemma {:induction false} StableSortSorts<T>(s: seq<T>, key: T -> int)
    ensures SortedBy(StableSort(s, key), key)
    ensures multiset(StableSort(s, key)) == multiset(s)
    ensures |StableSort(s, key)| == |s|
  {
    if s != [] {
      var front, last := s[..|s| - 1], s[|s| - 1];
      StableSortSorts(front, key);
      InsertLastSorted(StableSort(front, key), last, key);
      InsertLastMembers(StableSort(front, key), last, key);
      assert s == front + [last];
      assert |multiset(StableSort(s, key))| == |multiset(s)|;
    }
  }

  lemma {:induction false} StableSortKeepsSorted<T>(s: seq<T>, key: T -> int)
    requires SortedBy(s, key)
    ensures StableSort(s, key) == s
  {
    if s != [] {
      StableSortKeepsSorted(s[..|s| - 1], key);
    }
  }

  lemma SameMembers<T>(s: seq<T>, t: seq<T>)
    requires multiset(s) == multiset(t)
    ensures forall x :: x in s <==> x in t
  {
    forall x ensures x in s <==> x in t {
      assert x in s <==> x in multiset(s);
      assert x in t <==> x in multiset(t);
    }
  }

  /** Index of the first element whose key exceeds `bound`. */
  function PartitionPoint<T>(s: seq<T>, key: T -> int, bound: int): (k: nat)
    ensures k <= |s|
    ensures k > 0 ==> key(s[k - 1]) <= bound
  {
    if s == [] then 0
    else if key(s[|s| - 1]) <= bound then |s|
    else PartitionPoint(s[..|s| - 1], key, bound)
  }

  lemma {:induction false} PartitionPointSplits<T>(s: seq<T>, key: T -> int, bound: int)
    requires SortedBy(s, key)
    ensures var k := PartitionPoint(s, key, bound);
            (forall i :: 0 <= i < k ==> key(s[i]) <= bound) && (forall i :: k <= i < |s| ==> bound < key(s[i]))
  {
    if s != [] && key(s[|s| - 1]) > bound {
      PartitionPointSplits(s[..|s| - 1], key, bound);
    }
  }

  /** The first element with the given key: what stability preserves. */
  function FirstWithKey<T>(s: seq<T>, key: T -> int, k: int): Option<T> {
    if s == [] then None
    else
      var r := FirstWithKey(s[..|s| - 1], key, k);
      if r.Some? then r else if key(s[|s| - 1]) == k then Some(s[|s| - 1]) else None
  }

  lemma {:induction false} InsertLastStable<T>(s: seq<T>, x: T, key: T -> int, k: int)
    ensures FirstWithKey(InsertLast(s, x, key), key, k) == FirstWithKey(s + [x], key, k)
  {
    assert (s + [x])[..|s|] == s;
    if s != [] && key(s[|s| - 1]) > key(x) {
      var front := s[..|s| - 1];
      InsertLastStable(front, x, key, k);
      assert (front + [x])[..|front|] == front;
      var t := InsertLast(front, x, key);
      assert (t + [s[|s| - 1]])[..|t|] == t;
    }
  }

  lemma {:induction false} StableSortStable<T>(s: seq<T>, key: T -> int, k: int)
    ensures FirstWithKey(StableSort(s, key), key, k) == FirstWithKey(s, key, k)
  {
    if s != [] {
      var front := s[..|s| - 1];
      StableSortStable(front, key, k);
      InsertLastStable(StableSort(front, key), s[|s| - 1], key, k);
      var t := StableSort(front, key);
      assert (t + [s[|s| - 1]])[..|t|] == t;
    }
  }
}
