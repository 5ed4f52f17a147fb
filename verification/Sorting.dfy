/**
  Python's `sorted` with a key: the stable rearrangement in ascending key order.  Sorting with
  `reverse=True` is the same with the key negated, since Python keeps equal elements in order there too.
*/
module Sorting {

  function InsertSorted<T>(t: seq<T>, x: T, key: T -> real): seq<T> {
    if |t| == 0 || key(t[|t| - 1]) <= key(x) then t + [x]
    else InsertSorted(t[..|t| - 1], x, key) + [t[|t| - 1]]
  }

  function Sorted<T>(s: seq<T>, key: T -> real): seq<T> {
    if |s| == 0 then [] else InsertSorted(Sorted(s[..|s| - 1], key), s[|s| - 1], key)
  }

  ghost predicate Ascending<T>(s: seq<T>, key: T -> real) {
    forall i, j :: 0 <= i < j < |s| ==> key(s[i]) <= key(s[j])
  }

  /** The elements with key `k`, in order of occurrence. */
  ghost function WithKey<T>(s: seq<T>, key: T -> real, k: real): seq<T> {
    if |s| == 0 then []
    else WithKey(s[..|s| - 1], key, k) + if key(s[|s| - 1]) == k then [s[|s| - 1]] else []
  }

  lemma {:induction false} InsertSortedIsRight<T>(t: seq<T>, x: T, key: T -> real)
    requires Ascending(t, key)
    ensures Ascending(InsertSorted(t, x, key), key)
    ensures multiset(InsertSorted(t, x, key)) == multiset(t) + multiset{x}
  {
    if |t| == 0 || key(t[|t| - 1]) <= key(x) {
      InsertAtEnd(t, x, key);
    } else {
      hide Ascending;
      var init, last := t[..|t| - 1], t[|t| - 1];
      assert t == init + [last];
      AscendingInit(t, key);
      InsertSortedIsRight(init, x, key);
      AscendingSnoc(InsertSorted(init, x, key), init, x, last, key);
    }
  }

  lemma AscendingInit<T>(t: seq<T>, key: T -> real)
    requires |t| != 0 && Ascending(t, key)
    ensures Ascending(t[..|t| - 1], key)
    ensures forall i :: 0 <= i < |t| - 1 ==> key(t[i]) <= key(t[|t| - 1])
  {
  }

  lemma AscendingSnoc<T>(r: seq<T>, init: seq<T>, x: T, last: T, key: T -> real)
    requires Ascending(r, key) && multiset(r) == multiset(init) + multiset{x}
    requires forall i :: 0 <= i < |init| ==> key(init[i]) <= key(last)
    requires key(x) <= key(last)
    ensures Ascending(r + [last], key)
  {
    forall i | 0 <= i < |r|
      ensures key(r[i]) <= key(last)
    {
      assert r[i] in multiset(r);
      if r[i] != x {
        assert r[i] in multiset(init);
      }
    }
  }

  /** Sorting yields an ascending permutation. */
  lemma {:induction false} SortedIsPermutation<T>(s: seq<T>, key: T -> real)
    ensures Ascending(Sorted(s, key), key)
    ensures multiset(Sorted(s, key)) == multiset(s)
    ensures |Sorted(s, key)| == |s|
    ensures forall x :: x in Sorted(s, key) <==> x in s
  {
    if |s| != 0 {
      var init, last := s[..|s| - 1], s[|s| - 1];
      assert s == init + [last];
      SortedIsPermutation(init, key);
      InsertSortedIsRight(Sorted(init, key), last, key);
    }
    var t := Sorted(s, key);
    assert |multiset(t)| == |multiset(s)|;
    assert forall x :: x in t <==> x in multiset(t);
    assert forall x :: x in s <==> x in multiset(s);
  }

  lemma {:induction false} InsertSortedIsStable<T>(t: seq<T>, x: T, key: T -> real, k: real)
    ensures WithKey(InsertSorted(t, x, key), key, k) == WithKey(t + [x], key, k)
  {
    assert (t + [x])[..|t|] == t;
    if !(|t| == 0 || key(t[|t| - 1]) <= key(x)) {
      var init, last := t[..|t| - 1], t[|t| - 1];
      InsertSortedIsStable(init, x, key, k);
      var r := InsertSorted(init, x, key);
      assert (r + [last])[..|r|] == r && (init + [x])[..|init|] == init;
    }
  }

  /** Elements with equal keys keep their order. */
  lemma {:induction false} SortedIsStable<T>(s: seq<T>, key: T -> real, k: real)
    ensures WithKey(Sorted(s, key), key, k) == WithKey(s, key, k)
  {
    if |s| != 0 {
      var init, last := s[..|s| - 1], s[|s| - 1];
      SortedIsStable(init, key, k);
      InsertSortedIsStable(Sorted(init, key), last, key, k);
      var t := Sorted(init, key);
      assert (t + [last])[..|t|] == t;
    }
  }

  lemma SortedUnfolds<T>(s: seq<T>, key: T -> real)
    requires |s| != 0
    ensures Sorted(s, key) == InsertSorted(Sorted(s[..|s| - 1], key), s[|s| - 1], key)
  {
  }

  lemma InsertAtEnd<T>(t: seq<T>, x: T, key: T -> real)
    requires |t| != 0 ==> key(t[|t| - 1]) <= key(x)
    ensures InsertSorted(t, x, key) == t + [x]
  {
  }

  /** Sorting a list that is already in order leaves it alone. */
  lemma {:induction false} SortedOfAscending<T>(s: seq<T>, key: T -> real)
    requires Ascending(s, key)
    ensures Sorted(s, key) == s
  {
    if |s| != 0 {
      hide Sorted, InsertSorted;
      var init, last := s[..|s| - 1], s[|s| - 1];
      SortedOfAscending(init, key);
      SortedUnfolds(s, key);
      InsertAtEnd(init, last, key);
      assert s == init + [last];
    }
  }

  lemma {:induction false} WithKeyHead<T>(s: seq<T>, key: T -> real, first: nat)
    requires first < |s| && forall i :: 0 <= i < first ==> key(s[i]) != key(s[first])
    ensures |WithKey(s, key, key(s[first]))| > 0 && WithKey(s, key, key(s[first]))[0] == s[first]
  {
    var n := |s| - 1;
    if first < n {
      WithKeyHead(s[..n], key, first);
    } else {
      WithoutKey(s[..n], key, key(s[first]));
    }
  }

  lemma {:induction false} WithoutKey<T>(s: seq<T>, key: T -> real, k: real)
    requires forall i :: 0 <= i < |s| ==> key(s[i]) != k
    ensures WithKey(s, key, k) == []
  {
    if |s| != 0 {
      WithoutKey(s[..|s| - 1], key, k);
    }
  }

  lemma SortedMember<T>(s: seq<T>, key: T -> real, x: T)
    requires x in Sorted(s, key)
    ensures x in s
  {
    SortedIsPermutation(s, key);
  }

  /** The first element after sorting is the earliest one with the least key. */
  lemma SortedHead<T>(s: seq<T>, key: T -> real, first: nat)
    requires first < |s|
    requires forall i :: 0 <= i < |s| ==> key(s[first]) <= key(s[i])
    requires forall i :: 0 <= i < first ==> key(s[first]) < key(s[i])
    ensures |Sorted(s, key)| > 0 && Sorted(s, key)[0] == s[first]
  {
    hide WithKey;
    var t := Sorted(s, key);
    SortedIsPermutation(s, key);
    SortedIsStable(s, key, key(s[first]));
    WithKeyHead(s, key, first);
    SortedMember(s, key, t[0]);
    assert s[first] in t;
    assert key(t[0]) == key(s[first]) by {
      var i :| 0 <= i < |s| && s[i] == t[0];
      var j :| 0 <= j < |t| && t[j] == s[first];
    }
    WithKeyHead(t, key, 0);
  }
}
