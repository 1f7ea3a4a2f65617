/** Python's `sorted(..., key=...)` as a stable insertion sort. */
module Sorting {

  predicate SortedBy<T>(s: seq<T>, key: T -> int) {
    forall i, j :: 0 <= i < j < |s| ==> key(s[i]) <= key(s[j])
  }

  function InsertBy<T>(s: seq<T>, x: T, key: T -> int): seq<T> {
    if s == [] || key(x) <= key(s[0]) then [x] + s else [s[0]] + InsertBy(s[1..], x, key)
  }

  function SortBy<T>(s: seq<T>, key: T -> int): seq<T> {
    if s == [] then [] else InsertBy(SortBy(s[1..], key), s[0], key)
  }

  lemma {:induction false} InsertMultiset<T>(s: seq<T>, x: T, key: T -> int)
    ensures multiset(InsertBy(s, x, key)) == multiset(s) + multiset{x}
  {
    if s != [] && key(s[0]) < key(x) {
      InsertMultiset(s[1..], x, key);
      assert s == [s[0]] + s[1..];
    }
  }

  lemma {:induction false} InsertSorted<T>(s: seq<T>, x: T, key: T -> int)
    requires SortedBy(s, key)
    ensures SortedBy(InsertBy(s, x, key), key)
    ensures InsertBy(s, x, key)[0] == x || (s != [] && InsertBy(s, x, key)[0] == s[0])
  {
    if s != [] && key(s[0]) < key(x) {
      InsertSorted(s[1..], x, key);
      var t := InsertBy(s[1..], x, key);
      assert key(s[0]) <= key(t[0]);
      forall j | 0 <= j < |t|
        ensures key(s[0]) <= key(t[j])
      {
        assert j > 0 ==> key(t[0]) <= key(t[j]);
      }
    }
  }

  /** Sorting orders the keys and keeps every element. */
  lemma {:induction false} SortBySorts<T>(s: seq<T>, key: T -> int)
    ensures SortedBy(SortBy(s, key), key) && multiset(SortBy(s, key)) == multiset(s)
    ensures |SortBy(s, key)| == |s|
  {
    if s != [] {
      SortBySorts(s[1..], key);
      InsertSorted(SortBy(s[1..], key), s[0], key);
      InsertMultiset(SortBy(s[1..], key), s[0], key);
      assert s == [s[0]] + s[1..];
    }
    assert |multiset(SortBy(s, key))| == |multiset(s)|;
  }

  /** Entries `i` and `j` of a sorted list: the keys do not fall, and equal keys keep their order. */
  ghost predicate InOrder<T>(sorted: seq<T>, key: T -> int, places: seq<nat>, i: nat, j: nat)
    requires i < |sorted| == |places| && j < |places|
  {
    key(sorted[i]) < key(sorted[j]) || (key(sorted[i]) == key(sorted[j]) && places[i] < places[j])
  }

  /** Position `i` of the sorted list holds entry `places[i]` of the given one; keys do not fall, and entries with
      equal keys keep their order. No entry is used twice. */
  ghost predicate StableOrder<T>(given: seq<T>, sorted: seq<T>, key: T -> int, places: seq<nat>) {
    && |places| == |sorted| == |given|
    && (forall i, j :: 0 <= i < j < |places| ==> places[i] != places[j])
    && (forall i :: 0 <= i < |places| ==> places[i] < |given| && sorted[i] == given[places[i]])
    && (forall i, j :: 0 <= i < j < |places| ==> InOrder(sorted, key, places, i, j))
  }

  function PutAt<T>(s: seq<T>, k: nat, x: T): (r: seq<T>)
    requires k <= |s|
    ensures |r| == |s| + 1 && r[k] == x
    ensures forall i :: 0 <= i < k ==> r[i] == s[i]
    ensures forall i :: k < i <= |s| ==> r[i] == s[i - 1]
  {
    s[..k] + [x] + s[k..]
  }

  lemma {:induction false} InsertPlace<T>(s: seq<T>, x: T, key: T -> int) returns (k: nat)
    requires SortedBy(s, key)
    ensures k <= |s| && InsertBy(s, x, key) == PutAt(s, k, x)
    ensures forall i :: 0 <= i < k ==> key(s[i]) < key(x)
    ensures forall i :: k <= i < |s| ==> key(x) <= key(s[i])
  {
    if s == [] || key(x) <= key(s[0]) {
      k := 0;
      assert forall i :: 0 < i < |s| ==> key(s[0]) <= key(s[i]);
    } else {
      var rest := InsertPlace(s[1..], x, key);
      k := rest + 1;
      assert [s[0]] + PutAt(s[1..], rest, x) == PutAt(s, k, x);
    }
  }

  function Raised(places: seq<nat>): (r: seq<nat>)
    ensures |r| == |places| && forall i :: 0 <= i < |r| ==> r[i] == places[i] + 1
  {
    seq(|places|, i requires 0 <= i < |places| => places[i] + 1)
  }

  lemma PutInOrder<T>(sorted: seq<T>, x: T, key: T -> int, places: seq<nat>, k: nat, i: nat, j: nat)
    requires |places| == |sorted| && k <= |sorted| && i < j <= |sorted|
    requires forall a, b :: 0 <= a < b < |places| ==> InOrder(sorted, key, places, a, b)
    requires forall a :: 0 <= a < k ==> key(sorted[a]) < key(x)
    requires forall a :: k <= a < |sorted| ==> key(x) <= key(sorted[a])
    ensures InOrder(PutAt(sorted, k, x), key, PutAt(Raised(places), k, 0), i, j)
  {
    var a, b := if i < k then i else i - 1, if j < k then j else j - 1;
    if i != k && j != k {
      assert InOrder(sorted, key, places, a, b);
    }
  }

  lemma PutDistinct(places: seq<nat>, k: nat)
    requires k <= |places| && forall i, j :: 0 <= i < j < |places| ==> places[i] != places[j]
    ensures var all := PutAt(Raised(places), k, 0); forall i, j :: 0 <= i < j < |all| ==> all[i] != all[j]
  {
    var all := PutAt(Raised(places), k, 0);
    forall i, j | 0 <= i < j < |all|
      ensures all[i] != all[j]
    {
      if i != k && j != k {
        assert places[if i < k then i else i - 1] != places[if j < k then j else j - 1];
      }
    }
  }

  lemma PlaceFirst<T>(given: seq<T>, sorted: seq<T>, key: T -> int, places: seq<nat>, k: nat)
    requires given != [] && k <= |sorted| && StableOrder(given[1..], sorted, key, places)
    requires forall i :: 0 <= i < k ==> key(sorted[i]) < key(given[0])
    requires forall i :: k <= i < |sorted| ==> key(given[0]) <= key(sorted[i])
    ensures StableOrder(given, PutAt(sorted, k, given[0]), key, PutAt(Raised(places), k, 0))
  {
    var longer, all := PutAt(sorted, k, given[0]), PutAt(Raised(places), k, 0);
    PutDistinct(places, k);
    forall i, j | 0 <= i < j < |all|
      ensures InOrder(longer, key, all, i, j)
    {
      PutInOrder(sorted, given[0], key, places, k, i, j);
    }
    forall i | 0 <= i < |all|
      ensures all[i] < |given| && longer[i] == given[all[i]]
    {
      if i != k {
        var a := if i < k then i else i - 1;
        assert sorted[a] == given[1..][places[a]];
      }
    }
  }

  /** Sorting is stable. */
  lemma {:induction false} SortPlaces<T>(s: seq<T>, key: T -> int) returns (places: seq<nat>)
    ensures StableOrder(s, SortBy(s, key), key, places)
  {
    places := [];
    if s != [] {
      var rest := SortPlaces(s[1..], key);
      SortBySorts(s[1..], key);
      var k := InsertPlace(SortBy(s[1..], key), s[0], key);
      PlaceFirst(s, SortBy(s[1..], key), key, rest, k);
      places := PutAt(Raised(rest), k, 0);
    }
  }

  lemma SameKeys<T>(given: seq<T>, sorted: seq<T>, key: T -> int, other: T -> int, places: seq<nat>)
    requires StableOrder(given, sorted, key, places) && forall i :: 0 <= i < |sorted| ==> key(sorted[i]) == other(sorted[i])
    ensures StableOrder(given, sorted, other, places)
  {
    forall i, j | 0 <= i < j < |places|
      ensures InOrder(sorted, other, places, i, j)
    {
      assert InOrder(sorted, key, places, i, j);
    }
  }
}
