/**
  Ordering of query results. An `orderBy` of the store and JavaScript's stable
  `Array.prototype.sort` are both modelled by one stable insertion sort over a
  real-valued sort key: ascending order on a column is the key itself, descending
  order is its negation, and a locale collation is an abstract key into the reals
  (every total preorder on the countable set of strings has such a key).
*/
module Sorting {

  /** The `sort` argument of the listings. */
  datatype SortOrder = Asc | Desc

  /** `s` is in non-decreasing key order. */
  ghost predicate Sorted<T>(s: seq<T>, key: T -> real)
  {
    forall i, j :: 0 <= i < j < |s| ==> key(s[i]) <= key(s[j])
  }

  /** Inserts `x` after every leading element whose key does not exceed its own. */
  function Insert<T>(x: T, s: seq<T>, key: T -> real): (r: seq<T>)
    ensures multiset(r) == multiset(s) + multiset{x}
    ensures |r| == |s| + 1
  {
    if |s| == 0 then [x]
    else if key(s[0]) <= key(x) then
      assert s == [s[0]] + s[1..];
      [s[0]] + Insert(x, s[1..], key)
    else [x] + s
  }

  /** Stable sort of `s` by `key`: each element is inserted after its equals. */
  function SortBy<T>(s: seq<T>, key: T -> real): (r: seq<T>)
    ensures multiset(r) == multiset(s)
    ensures |r| == |s|
  {
    if |s| == 0 then []
    else
      assert s == s[..|s| - 1] + [s[|s| - 1]];
      Insert(s[|s| - 1], SortBy(s[..|s| - 1], key), key)
  }

  /** Inserting into a sorted sequence keeps it sorted. */
  lemma {:induction false} InsertSorted<T>(x: T, s: seq<T>, key: T -> real)
    requires Sorted(s, key)
    ensures Sorted(Insert(x, s, key), key)
  {
    if |s| == 0 {
    } else if key(s[0]) <= key(x) {
      SortedSlice(s, 1, |s|, key);
      InsertSorted(x, s[1..], key);
      HeadBelowInsert(x, s, key);
      ConsSorted(s[0], Insert(x, s[1..], key), key);
    } else {
      ConsSorted(x, s, key);
    }
  }

  /** The head of a sorted sequence is at most every element of the insertion into its tail. */
  lemma HeadBelowInsert<T>(x: T, s: seq<T>, key: T -> real)
    requires Sorted(s, key) && |s| > 0 && key(s[0]) <= key(x)
    ensures forall j :: 0 <= j < |Insert(x, s[1..], key)| ==> key(s[0]) <= key(Insert(x, s[1..], key)[j])
  {
    var tail := Insert(x, s[1..], key);
    forall j | 0 <= j < |tail|
      ensures key(s[0]) <= key(tail[j])
    {
      assert tail[j] in multiset(tail);
      if tail[j] != x {
        assert tail[j] in s[1..];
        var k :| 0 <= k < |s[1..]| && s[1..][k] == tail[j];
        assert s[k + 1] == tail[j];
      }
    }
  }

  /** Putting an element no larger than every other in front of a sorted sequence keeps it sorted. */
  lemma ConsSorted<T>(y: T, s: seq<T>, key: T -> real)
    requires Sorted(s, key)
    requires forall j :: 0 <= j < |s| ==> key(y) <= key(s[j])
    ensures Sorted([y] + s, key)
  {
    var r := [y] + s;
    forall i, j | 0 <= i < j < |r|
      ensures key(r[i]) <= key(r[j])
    {
      assert r[j] == s[j - 1];
      if i > 0 {
        assert r[i] == s[i - 1];
      }
    }
  }

  /** The sort's result is in key order. */
  lemma {:induction false} SortBySorted<T>(s: seq<T>, key: T -> real)
    ensures Sorted(SortBy(s, key), key)
  {
    if |s| > 0 {
      SortBySorted(s[..|s| - 1], key);
      InsertSorted(s[|s| - 1], SortBy(s[..|s| - 1], key), key);
    }
  }

  /** Sorting keeps exactly the elements it was given. */
  lemma SortByMembers<T>(s: seq<T>, key: T -> real)
    ensures forall k :: 0 <= k < |SortBy(s, key)| ==> SortBy(s, key)[k] in s
    ensures forall k :: 0 <= k < |s| ==> s[k] in SortBy(s, key)
  {
    var r := SortBy(s, key);
    assert forall k :: 0 <= k < |r| ==> r[k] in multiset(s);
    assert forall k :: 0 <= k < |s| ==> s[k] in multiset(r);
  }

  /** The elements of `s` whose key is `v`, in the order they occur in `s`. */
  function WithKey<T>(s: seq<T>, key: T -> real, v: real): seq<T>
  {
    if |s| == 0 then []
    else (if key(s[0]) == v then [s[0]] else []) + WithKey(s[1..], key, v)
  }

  /** `[x]` when `x` has key `v`, otherwise nothing. */
  function Own<T>(x: T, key: T -> real, v: real): seq<T>
  {
    if key(x) == v then [x] else []
  }

  /** Picking the elements of one key commutes with appending an element. */
  lemma {:induction false} WithKeySnoc<T>(s: seq<T>, x: T, key: T -> real, v: real)
    ensures WithKey(s + [x], key, v) == WithKey(s, key, v) + Own(x, key, v)
  {
    if |s| > 0 {
      assert (s + [x])[1..] == s[1..] + [x];
      WithKeySnoc(s[1..], x, key, v);
    }
  }

  /** A sequence with no element of key `v` has none to pick. */
  lemma {:induction false} WithKeyNone<T>(s: seq<T>, key: T -> real, v: real)
    requires forall k :: 0 <= k < |s| ==> key(s[k]) != v
    ensures WithKey(s, key, v) == []
  {
    if |s| > 0 {
      WithKeyNone(s[1..], key, v);
    }
  }

  /** Picking from a sequence with a known first element. */
  lemma WithKeyCons<T>(y: T, t: seq<T>, key: T -> real, v: real)
    ensures WithKey([y] + t, key, v) == (if key(y) == v then [y] else []) + WithKey(t, key, v)
  {
    assert ([y] + t)[1..] == t;
  }

  /** Every element of a sorted sequence has a key at least its first one's. */
  lemma SortedAboveHead<T>(s: seq<T>, key: T -> real, v: real)
    requires Sorted(s, key) && |s| > 0 && v < key(s[0])
    ensures forall k :: 0 <= k < |s| ==> key(s[k]) != v
  {
    forall k | 0 <= k < |s|
      ensures key(s[k]) != v
    {
      if k > 0 {
        assert key(s[0]) <= key(s[k]);
      }
    }
  }

  /** Inserting into a sorted sequence puts `x` after every element of equal key. */
  lemma {:induction false} InsertWithKey<T>(x: T, s: seq<T>, key: T -> real, v: real)
    requires Sorted(s, key)
    ensures WithKey(Insert(x, s, key), key, v) == WithKey(s, key, v) + Own(x, key, v)
  {
    if |s| == 0 {
    } else if key(s[0]) <= key(x) {
      SortedSlice(s, 1, |s|, key);
      InsertWithKey(x, s[1..], key, v);
      WithKeyCons(s[0], Insert(x, s[1..], key), key, v);
    } else {
      WithKeyCons(x, s, key, v);
      if key(x) == v {
        SortedAboveHead(s, key, v);
        WithKeyNone(s, key, v);
      }
    }
  }

  /**
    The sort is stable: for every key value, the elements with that key appear
    in the result in the same order as in the input.
  */
  lemma {:induction false} SortByStable<T>(s: seq<T>, key: T -> real, v: real)
    ensures WithKey(SortBy(s, key), key, v) == WithKey(s, key, v)
  {
    if |s| > 0 {
      var init, last := s[..|s| - 1], s[|s| - 1];
      SortByLast(s, key, v);
      SortByStable(init, key, v);
      InsertIntoSorted(last, init, key, v);
      WithKeyOfSplit(s, key, v);
    }
  }

  /** The last step of the sort, seen through `WithKey`. */
  lemma SortByLast<T>(s: seq<T>, key: T -> real, v: real)
    requires |s| > 0
    ensures WithKey(SortBy(s, key), key, v) == WithKey(Insert(s[|s| - 1], SortBy(s[..|s| - 1], key), key), key, v)
  {
  }

  /** Picking from `s` is picking from all but its last element, then the last. */
  lemma WithKeyOfSplit<T>(s: seq<T>, key: T -> real, v: real)
    requires |s| > 0
    ensures WithKey(s, key, v) == WithKey(s[..|s| - 1], key, v) + Own(s[|s| - 1], key, v)
  {
    assert s[..|s| - 1] + [s[|s| - 1]] == s;
    WithKeySnoc(s[..|s| - 1], s[|s| - 1], key, v);
  }

  /** One step of the sort keeps the order among equal keys. */
  lemma InsertIntoSorted<T>(x: T, s: seq<T>, key: T -> real, v: real)
    ensures WithKey(Insert(x, SortBy(s, key), key), key, v)
            == WithKey(SortBy(s, key), key, v) + Own(x, key, v)
  {
    SortBySorted(s, key);
    InsertWithKey(x, SortBy(s, key), key, v);
  }

  /** Any contiguous part of a sorted sequence is sorted. */
  lemma SortedSlice<T>(s: seq<T>, from: int, to: int, key: T -> real)
    requires Sorted(s, key) && 0 <= from <= to <= |s|
    ensures Sorted(s[from..to], key)
  {
    var w := s[from..to];
    forall i, j | 0 <= i < j < |w|
      ensures key(w[i]) <= key(w[j])
    {
      assert w[i] == s[from + i] && w[j] == s[from + j];
    }
  }
}
