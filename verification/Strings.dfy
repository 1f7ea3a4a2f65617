/** Joining and splitting strings on a separator character. */
module Strings {

  predicate Free(s: string, sep: char) {
    sep !in s
  }

  predicate AllFree(xs: seq<string>, sep: char) {
    forall i :: 0 <= i < |xs| ==> Free(xs[i], sep)
  }

  function Join(xs: seq<string>, sep: char): string {
    if xs == [] then ""
    else if |xs| == 1 then xs[0]
    else xs[0] + [sep] + Join(xs[1..], sep)
  }

  /** Index of the first occurrence of `c`, or the length. */
  function Find(s: string, c: char): (i: nat)
    ensures i <= |s| && c !in s[..i]
    ensures i < |s| ==> s[i] == c
  {
    if s == [] || s[0] == c then 0
    else
      var i := 1 + Find(s[1..], c);
      assert s[..i] == [s[0]] + s[1..][..i - 1];
      i
  }

  /** The pieces between separators; a string without separator is one piece. */
  function Split(s: string, sep: char): (xs: seq<string>)
    ensures xs != []
    decreases |s|
  {
    var i := Find(s, sep);
    if i == |s| then [s] else [s[..i]] + Split(s[i + 1..], sep)
  }

  lemma FindPrefix(a: string, sep: char, b: string)
    requires Free(a, sep)
    ensures Find(a + [sep] + b, sep) == |a|
  {
    var s := a + [sep] + b;
    var i := Find(s, sep);
    assert s[|a|] == sep;
    assert forall k :: 0 <= k < |a| ==> s[k] == a[k];
    assert forall k :: 0 <= k < i ==> s[k] == s[..i][k];
  }

  lemma {:induction false} SplitJoin(xs: seq<string>, sep: char)
    requires xs != [] && AllFree(xs, sep)
    ensures Split(Join(xs, sep), sep) == xs
  {
    if |xs| == 1 {
      var s := xs[0];
      var i := Find(s, sep);
      assert s[..i] <= s && sep !in s;
    } else {
      var tail := Join(xs[1..], sep);
      var s := xs[0] + [sep] + tail;
      FindPrefix(xs[0], sep, tail);
      SplitJoin(xs[1..], sep);
      assert s[..|xs[0]|] == xs[0] && s[|xs[0]| + 1..] == tail;
    }
  }

  /** Lists of separator-free strings are determined by their join. */
  lemma JoinInjective(xs: seq<string>, ys: seq<string>, sep: char)
    requires xs != [] && ys != [] && AllFree(xs, sep) && AllFree(ys, sep)
    requires Join(xs, sep) == Join(ys, sep)
    ensures xs == ys
  {
    SplitJoin(xs, sep);
    SplitJoin(ys, sep);
  }
}
