/** The contiguous nonzero stretches of a mask, found from the differences of neighbouring entries. */
module MaskRuns {

  function Bit(x: int): int {
    if x != 0 then 1 else 0
  }

  function MaskInt(arr: seq<int>): (m: seq<int>)
    ensures |m| == |arr| && forall i :: 0 <= i < |m| ==> m[i] == Bit(arr[i])
  {
    seq(|arr|, i requires 0 <= i < |arr| => Bit(arr[i]))
  }

  /** Each entry minus the one before it. */
  function Diff(m: seq<int>): (d: seq<int>)
    ensures m == [] ==> d == []
    ensures m != [] ==> |d| == |m| - 1 && forall i :: 0 <= i < |d| ==> d[i] == m[i + 1] - m[i]
  {
    if m == [] then [] else seq(|m| - 1, i requires 0 <= i < |m| - 1 => m[i + 1] - m[i])
  }

  /** The positions of a value, in order, each moved by an offset. */
  function Where(d: seq<int>, v: int, offset: nat): seq<nat> {
    if d == [] then []
    else
      var n := |d| - 1;
      Where(d[..n], v, offset) + if d[n] == v then [n + offset] else []
  }

  /** The boundaries found from the differences alone. */
  function Inner(arr: seq<int>, v: int, offset: nat): seq<nat> {
    Where(Diff(MaskInt(arr)), v, offset)
  }

  function Starts(arr: seq<int>): seq<nat> {
    var starts := Inner(arr, 1, 1);
    if arr != [] && arr[0] != 0 then [0] + starts else starts
  }

  function Ends(arr: seq<int>): seq<nat> {
    var ends := Inner(arr, -1, 0);
    if arr != [] && arr[|arr| - 1] != 0 then ends + [|arr| - 1] else ends
  }

  function Zip(a: seq<nat>, b: seq<nat>): seq<(nat, nat)> {
    seq(if |a| < |b| then |a| else |b|, i requires 0 <= i < |a| && i < |b| => (a[i], b[i]))
  }

  /** `get_mask_start_and_end_idx`. */
  function MaskStartAndEndIdx(arr: seq<int>): seq<(nat, nat)> {
    Zip(Starts(arr), Ends(arr))
  }

  // ---- The stretches, read from left to right ----

  /** The nonzero stretches of the first entries: each entry opens one, extends the last or is skipped. */
  function Runs(arr: seq<int>): seq<(nat, nat)> {
    if arr == [] then []
    else
      var n := |arr| - 1;
      var before := Runs(arr[..n]);
      if arr[n] == 0 then before
      else if n > 0 && arr[n - 1] != 0 && before != [] then before[..|before| - 1] + [(before[|before| - 1].0, n)]
      else before + [(n, n)]
  }

  /** A stretch of nonzero entries that cannot be made longer. */
  ghost predicate IsRun(arr: seq<int>, run: (nat, nat)) {
    && run.0 <= run.1 < |arr|
    && (forall i :: run.0 <= i <= run.1 ==> arr[i] != 0)
    && (run.0 == 0 || arr[run.0 - 1] == 0)
    && (run.1 == |arr| - 1 || arr[run.1 + 1] == 0)
  }

  ghost predicate Covered(runs: seq<(nat, nat)>, i: int) {
    exists k :: 0 <= k < |runs| && runs[k].0 <= i <= runs[k].1
  }

  ghost predicate AllRuns(arr: seq<int>, runs: seq<(nat, nat)>) {
    && (forall k :: 0 <= k < |runs| ==> IsRun(arr, runs[k]))
    && (forall k, l :: 0 <= k < l < |runs| ==> runs[k].1 + 1 < runs[l].0)
    && (forall i :: 0 <= i < |arr| && arr[i] != 0 ==> Covered(runs, i))
  }

  lemma LastRun(arr: seq<int>, runs: seq<(nat, nat)>)
    requires arr != [] && AllRuns(arr, runs) && arr[|arr| - 1] != 0
    ensures runs != [] && runs[|runs| - 1].1 == |arr| - 1
  {
    var n := |arr| - 1;
    var k :| 0 <= k < |runs| && runs[k].0 <= n <= runs[k].1;
    assert forall j :: 0 <= j < |runs| - 1 ==> runs[j].1 + 1 < runs[|runs| - 1].0;
  }

  lemma {:induction false} SkipZero(arr: seq<int>, runs: seq<(nat, nat)>)
    requires AllRuns(arr, runs)
    ensures AllRuns(arr + [0], runs)
  {
    var longer := arr + [0];
    forall k | 0 <= k < |runs|
      ensures IsRun(longer, runs[k])
    {
      assert IsRun(arr, runs[k]);
    }
  }

  lemma {:induction false} OpenRun(arr: seq<int>, runs: seq<(nat, nat)>, x: int)
    requires AllRuns(arr, runs) && x != 0 && (arr == [] || arr[|arr| - 1] == 0)
    ensures AllRuns(arr + [x], runs + [(|arr|, |arr|)])
  {
    var longer, more := arr + [x], runs + [(|arr|, |arr|)];
    forall k | 0 <= k < |runs|
      ensures IsRun(longer, runs[k]) && runs[k].1 + 1 < |arr|
    {
      assert IsRun(arr, runs[k]);
    }
    forall i | 0 <= i < |longer| && longer[i] != 0
      ensures Covered(more, i)
    {
      if i == |arr| {
        assert more[|runs|].0 <= i <= more[|runs|].1;
      } else {
        var k :| 0 <= k < |runs| && runs[k].0 <= i <= runs[k].1;
        assert more[k] == runs[k];
      }
    }
  }

  lemma ExtendCovers(arr: seq<int>, runs: seq<(nat, nat)>, x: int, i: nat)
    requires arr != [] && AllRuns(arr, runs) && arr[|arr| - 1] != 0 && runs != [] && i <= |arr| && (arr + [x])[i] != 0
    ensures Covered(runs[..|runs| - 1] + [(runs[|runs| - 1].0, |arr|)], i)
  {
    LastRun(arr, runs);
    var m := |runs| - 1;
    var more := runs[..m] + [(runs[m].0, |arr|)];
    if i == |arr| {
      assert more[m].0 <= i <= more[m].1;
    } else {
      var k :| 0 <= k < |runs| && runs[k].0 <= i <= runs[k].1;
      assert more[k].0 <= i <= more[k].1;
    }
  }

  lemma {:induction false} ExtendRun(arr: seq<int>, runs: seq<(nat, nat)>, x: int)
    requires arr != [] && AllRuns(arr, runs) && x != 0 && arr[|arr| - 1] != 0 && runs != []
    ensures AllRuns(arr + [x], runs[..|runs| - 1] + [(runs[|runs| - 1].0, |arr|)])
  {
    LastRun(arr, runs);
    var m := |runs| - 1;
    var longer, more := arr + [x], runs[..m] + [(runs[m].0, |arr|)];
    forall k | 0 <= k < |more|
      ensures IsRun(longer, more[k])
    {
      assert IsRun(arr, runs[k]);
      assert k < m ==> runs[k].1 + 1 < runs[m].0;
    }
    forall i | 0 <= i < |longer| && longer[i] != 0
      ensures Covered(more, i)
    {
      ExtendCovers(arr, runs, x, i);
    }
  }

  lemma RunsAppend(arr: seq<int>, x: int)
    ensures var before := Runs(arr);
            Runs(arr + [x]) ==
              if x == 0 then before
              else if arr != [] && arr[|arr| - 1] != 0 && before != [] then before[..|before| - 1] + [(before[|before| - 1].0, |arr|)]
              else before + [(|arr|, |arr|)]
  {
    assert (arr + [x])[..|arr|] == arr;
  }

  lemma RunsStep(arr: seq<int>, x: int)
    requires AllRuns(arr, Runs(arr))
    ensures AllRuns(arr + [x], Runs(arr + [x]))
  {
    RunsAppend(arr, x);
    if x == 0 {
      SkipZero(arr, Runs(arr));
    } else if arr != [] && arr[|arr| - 1] != 0 {
      LastRun(arr, Runs(arr));
      ExtendRun(arr, Runs(arr), x);
    } else {
      OpenRun(arr, Runs(arr), x);
    }
  }

  lemma {:induction false} RunsExact(arr: seq<int>)
    ensures AllRuns(arr, Runs(arr))
  {
    if arr != [] {
      var n := |arr| - 1;
      RunsExact(arr[..n]);
      RunsStep(arr[..n], arr[n]);
      assert arr == arr[..n] + [arr[n]];
    }
  }

  // ---- The two lists of boundaries pair up ----

  function Firsts(runs: seq<(nat, nat)>): (r: seq<nat>)
    ensures |r| == |runs|
  {
    seq(|runs|, i requires 0 <= i < |runs| => runs[i].0)
  }

  function Seconds(runs: seq<(nat, nat)>): (r: seq<nat>)
    ensures |r| == |runs|
  {
    seq(|runs|, i requires 0 <= i < |runs| => runs[i].1)
  }

  lemma MaskAppend(arr: seq<int>, x: int)
    ensures MaskInt(arr + [x]) == MaskInt(arr) + [Bit(x)]
  {
  }

  lemma DiffLast(m: seq<int>, y: int)
    requires m != []
    ensures Diff(m + [y]) == Diff(m) + [y - m[|m| - 1]]
  {
    var longer := m + [y];
    forall i | 0 <= i < |m| - 1
      ensures Diff(longer)[i] == Diff(m)[i]
    {
      assert longer[i + 1] == m[i + 1] && longer[i] == m[i];
    }
    assert Diff(longer)[|m| - 1] == y - m[|m| - 1];
  }

  lemma DiffAppend(arr: seq<int>, x: int)
    requires arr != []
    ensures Diff(MaskInt(arr + [x])) == Diff(MaskInt(arr)) + [Bit(x) - Bit(arr[|arr| - 1])]
  {
    MaskAppend(arr, x);
    DiffLast(MaskInt(arr), Bit(x));
  }

  lemma WhereAppend(d: seq<int>, y: int, v: int, offset: nat)
    ensures Where(d + [y], v, offset) == Where(d, v, offset) + if y == v then [|d| + offset] else []
  {
    assert (d + [y])[..|d|] == d;
  }

  lemma InnerAppend(arr: seq<int>, x: int, v: int, offset: nat)
    requires arr != []
    ensures Inner(arr + [x], v, offset)
         == Inner(arr, v, offset) + if Bit(x) - Bit(arr[|arr| - 1]) == v then [|arr| - 1 + offset] else []
  {
    DiffAppend(arr, x);
    WhereAppend(Diff(MaskInt(arr)), Bit(x) - Bit(arr[|arr| - 1]), v, offset);
  }

  lemma InFront(first: seq<nat>, inner: seq<nat>, tail: seq<nat>)
    ensures first + (inner + tail) == first + inner + tail
  {
  }

  lemma StartsAppend(arr: seq<int>, x: int)
    ensures Starts(arr + [x]) == Starts(arr) + if x != 0 && (arr == [] || arr[|arr| - 1] == 0) then [|arr|] else []
  {
    if arr == [] {
      assert arr + [x] == [x];
    } else {
      InnerAppend(arr, x, 1, 1);
      assert (arr + [x])[0] == arr[0];
      InFront([0], Inner(arr, 1, 1), if x != 0 && arr[|arr| - 1] == 0 then [|arr|] else []);
    }
  }

  lemma EndsAppend(arr: seq<int>, x: int)
    ensures x == 0 ==> Ends(arr + [x]) == Ends(arr)
    ensures x != 0 && (arr == [] || arr[|arr| - 1] == 0) ==> Ends(arr + [x]) == Ends(arr) + [|arr|]
    ensures x != 0 && arr != [] && arr[|arr| - 1] != 0 ==>
              Ends(arr) != [] && Ends(arr + [x]) == Ends(arr)[..|Ends(arr)| - 1] + [|arr|]
  {
    if arr == [] {
      assert arr + [x] == [x];
    } else {
      var inner := Inner(arr, -1, 0);
      InnerAppend(arr, x, -1, 0);
      assert inner + [] == inner;
      assert (inner + [|arr| - 1])[..|inner|] == inner;
    }
  }

  lemma BoundsAppend(runs: seq<(nat, nat)>, run: (nat, nat))
    ensures Firsts(runs + [run]) == Firsts(runs) + [run.0] && Seconds(runs + [run]) == Seconds(runs) + [run.1]
  {
  }

  lemma BoundsExtend(runs: seq<(nat, nat)>, n: nat)
    requires runs != []
    ensures var longer := runs[..|runs| - 1] + [(runs[|runs| - 1].0, n)];
            Firsts(longer) == Firsts(runs) && Seconds(longer) == Seconds(runs)[..|runs| - 1] + [n]
  {
    var m := |runs| - 1;
    assert runs == runs[..m] + [runs[m]];
    BoundsAppend(runs[..m], runs[m]);
    BoundsAppend(runs[..m], (runs[m].0, n));
  }

  predicate Opens(arr: seq<int>, x: int) {
    x != 0 && (arr == [] || arr[|arr| - 1] == 0)
  }

  /** What one more entry does to the boundaries of the stretches. */
  lemma RunsBounds(arr: seq<int>, x: int)
    ensures x == 0 ==> Runs(arr + [x]) == Runs(arr)
    ensures Opens(arr, x) ==> Firsts(Runs(arr + [x])) == Firsts(Runs(arr)) + [|arr|] && Seconds(Runs(arr + [x])) == Seconds(Runs(arr)) + [|arr|]
    ensures x != 0 && !Opens(arr, x) ==>
              && Runs(arr) != [] && Firsts(Runs(arr + [x])) == Firsts(Runs(arr))
              && Seconds(Runs(arr + [x])) == Seconds(Runs(arr))[..|Runs(arr)| - 1] + [|arr|]
  {
    RunsAppend(arr, x);
    if Opens(arr, x) {
      BoundsAppend(Runs(arr), (|arr|, |arr|));
    } else if x != 0 {
      RunsExact(arr);
      LastRun(arr, Runs(arr));
      BoundsExtend(Runs(arr), |arr|);
    }
  }

  lemma StartsStep(arr: seq<int>, x: int)
    requires Starts(arr) == Firsts(Runs(arr))
    ensures Starts(arr + [x]) == Firsts(Runs(arr + [x]))
  {
    RunsBounds(arr, x);
    StartsAppend(arr, x);
  }

  lemma EndsStep(arr: seq<int>, x: int)
    requires Ends(arr) == Seconds(Runs(arr))
    ensures Ends(arr + [x]) == Seconds(Runs(arr + [x]))
  {
    RunsBounds(arr, x);
    EndsAppend(arr, x);
  }

  lemma {:induction false} BoundariesOfRuns(arr: seq<int>)
    ensures Starts(arr) == Firsts(Runs(arr)) && Ends(arr) == Seconds(Runs(arr))
  {
    if arr != [] {
      var n := |arr| - 1;
      BoundariesOfRuns(arr[..n]);
      StartsStep(arr[..n], arr[n]);
      EndsStep(arr[..n], arr[n]);
      assert arr == arr[..n] + [arr[n]];
    }
  }

  /** The start and end lists have equal length and pair up into exactly the maximal nonzero stretches, in
      order, separated by zeros and covering every nonzero entry. */
  lemma {:induction false} MaskRunsExact(arr: seq<int>)
    ensures |Starts(arr)| == |Ends(arr)| == |MaskStartAndEndIdx(arr)|
    ensures AllRuns(arr, MaskStartAndEndIdx(arr))
  {
    BoundariesOfRuns(arr);
    assert MaskStartAndEndIdx(arr) == Runs(arr);
    RunsExact(arr);
  }

  /** Nothing else is a maximal stretch. */
  lemma {:induction false} MaskRunsComplete(arr: seq<int>, run: (nat, nat))
    requires IsRun(arr, run)
    ensures run in MaskStartAndEndIdx(arr)
  {
    MaskRunsExact(arr);
    var runs := MaskStartAndEndIdx(arr);
    assert arr[run.0] != 0;
    var k :| 0 <= k < |runs| && runs[k].0 <= run.0 <= runs[k].1;
    SameRun(arr, runs[k], run);
  }

  lemma SameRun(arr: seq<int>, a: (nat, nat), b: (nat, nat))
    requires IsRun(arr, a) && IsRun(arr, b) && a.0 <= b.0 <= a.1
    ensures a == b
  {
  }
}
