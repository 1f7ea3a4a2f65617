/** Results, options and lists of lists. */
module Sequences {

  datatype Option<+T> = None | Some(value: T)

  datatype Result<+T> = Ok(value: T) | Err

  predicate NoRepeat<T(==)>(s: seq<T>) {
    forall i, j :: 0 <= i < j < |s| ==> s[i] != s[j]
  }

  /** The lists of a list one after another. */
  function Flatten<T>(lists: seq<seq<T>>): seq<T> {
    if lists == [] then [] else Flatten(lists[..|lists| - 1]) + lists[|lists| - 1]
  }

  lemma {:induction false} FlattenConcat<T>(a: seq<seq<T>>, b: seq<seq<T>>)
    ensures Flatten(a + b) == Flatten(a) + Flatten(b)
  {
    if b == [] {
      assert a + b == a;
    } else {
      var n := |b| - 1;
      FlattenConcat(a, b[..n]);
      assert (a + b)[..|a| + n] == a + b[..n] && (a + b)[|a| + n] == b[n];
      assert Flatten(a + b) == Flatten(a + b[..n]) + b[n];
    }
  }

  lemma FlattenOne<T>(x: seq<T>)
    ensures Flatten([x]) == x
  {
    assert [x][..0] == [];
  }

  lemma FlattenAppend<T>(lists: seq<seq<T>>, x: seq<T>)
    ensures Flatten(lists + [x]) == Flatten(lists) + x
  {
    assert (lists + [x])[..|lists|] == lists;
  }

  lemma FlattenFirst<T>(lists: seq<seq<T>>)
    requires lists != []
    ensures Flatten(lists) == lists[0] + Flatten(lists[1..])
  {
    assert lists == [lists[0]] + lists[1..];
    FlattenConcat([lists[0]], lists[1..]);
    FlattenOne(lists[0]);
  }

  lemma {:induction false} FlattenWithout<T>(s: seq<seq<T>>, i: nat)
    requires i < |s|
    ensures multiset(Flatten(s)) == multiset(Flatten(s[..i] + s[i + 1..])) + multiset(s[i])
  {
    assert s == s[..i] + [s[i]] + s[i + 1..];
    FlattenConcat(s[..i] + [s[i]], s[i + 1..]);
    FlattenConcat(s[..i], [s[i]]);
    FlattenConcat(s[..i], s[i + 1..]);
    FlattenOne(s[i]);
  }

  lemma RemoveOne<T>(s: seq<T>, i: nat)
    requires i < |s|
    ensures multiset(s[..i] + s[i + 1..]) == multiset(s) - multiset{s[i]}
  {
    assert s == s[..i] + [s[i]] + s[i + 1..];
  }

  lemma {:induction false} FlattenPermuted<T>(a: seq<seq<T>>, b: seq<seq<T>>)
    requires multiset(a) == multiset(b)
    ensures multiset(Flatten(a)) == multiset(Flatten(b))
  {
    assert |multiset(a)| == |a| && |multiset(b)| == |b|;
    if a != [] {
      var n := |a| - 1;
      assert a[n] in multiset(b);
      var i :| 0 <= i < |b| && b[i] == a[n];
      RemoveOne(a, n);
      RemoveOne(b, i);
      assert a[..n] + a[n + 1..] == a[..n];
      FlattenPermuted(a[..n], b[..i] + b[i + 1..]);
      FlattenWithout(b, i);
    }
  }

  lemma {:induction false} FlattenMember<T>(lists: seq<seq<T>>, i: nat, j: nat)
    requires i < |lists| && j < |lists[i]|
    ensures lists[i][j] in Flatten(lists)
  {
    var last := |lists| - 1;
    if i < last {
      FlattenMember(lists[..last], i, j);
    }
  }

  function Count<T(==)>(s: seq<T>, x: T): nat {
    if s == [] then 0 else (if s[0] == x then 1 else 0) + Count(s[1..], x)
  }

  lemma {:induction false} CountMultiset<T>(s: seq<T>, x: T)
    ensures Count(s, x) == multiset(s)[x]
  {
    if s != [] {
      CountMultiset(s[1..], x);
      assert s == [s[0]] + s[1..];
    }
  }

  lemma {:induction false} OnceIn<T>(s: seq<T>, x: T)
    requires NoRepeat(s)
    ensures Count(s, x) <= 1
  {
    if s != [] {
      OnceIn(s[1..], x);
      CountIn(s[1..], x);
    }
  }

  lemma TwiceIn<T>(s: seq<T>, i: nat, j: nat)
    requires i < j < |s| && s[i] == s[j]
    ensures Count(s, s[i]) >= 2
  {
    CountMultiset(s, s[i]);
    assert s == s[..i] + [s[i]] + s[i + 1..j] + [s[j]] + s[j + 1..];
  }

  lemma NoRepeatByCount<T>(s: seq<T>)
    requires forall x :: x in s ==> Count(s, x) == 1
    ensures NoRepeat(s)
  {
    forall i, j | 0 <= i < j < |s|
      ensures s[i] != s[j]
    {
      assert Count(s, s[i]) == 1;
      if s[i] == s[j] {
        TwiceIn(s, i, j);
      }
    }
  }

  lemma CountConcat<T>(a: seq<T>, b: seq<T>, x: T)
    ensures Count(a + b, x) == Count(a, x) + Count(b, x)
  {
    CountMultiset(a + b, x);
    CountMultiset(a, x);
    CountMultiset(b, x);
  }

  lemma CountPermuted<T>(a: seq<T>, b: seq<T>, x: T)
    requires multiset(a) == multiset(b)
    ensures Count(a, x) == Count(b, x)
  {
    CountMultiset(a, x);
    CountMultiset(b, x);
  }

  lemma SumCount<T>(a: seq<T>, b: seq<T>, c: seq<T>, x: T)
    requires multiset(a) + multiset(b) == multiset(c)
    ensures Count(a, x) + Count(b, x) == Count(c, x)
  {
    CountMultiset(a, x);
    CountMultiset(b, x);
    CountMultiset(c, x);
  }

  lemma CountIn<T>(s: seq<T>, x: T)
    ensures x in s <==> Count(s, x) > 0
  {
    CountMultiset(s, x);
  }
}
