/** Distributing the lines of the input files over partition files. */
module FilePartition {
  import opened Arith
  import opened Sequences

  type Line = string

  // ---- Counting lines ----

  /** The lines counted so far and the last index the counting loop has seen, if any. */
  datatype Counted = Counted(total: nat, last: Option<nat>)

  /** One more file. An empty file leaves the index of the file before it in place, so that file is
      counted again; before any line was seen there is no index and the addition fails. */
  function CountFile(c: Counted, size: nat): Result<Counted> {
    var last := if size > 0 then Some(size - 1) else c.last;
    if last.None? then Err else Ok(Counted(c.total + last.value + 1, last))
  }

  function CountFiles<T>(files: seq<seq<T>>): Result<Counted> {
    if files == [] then Ok(Counted(0, None))
    else
      var before := CountFiles(files[..|files| - 1]);
      if before.Err? then Err else CountFile(before.value, |files[|files| - 1]|)
  }

  /** The size of the last file that has lines. */
  function LastSize<T>(files: seq<seq<T>>): nat {
    if files == [] then 0
    else
      var n := |files| - 1;
      if files[n] == [] then LastSize(files[..n]) else |files[n]|
  }

  /** The lines counted again: every empty file repeats the last file with lines before it. */
  function Recounted<T>(files: seq<seq<T>>): nat {
    if files == [] then 0
    else
      var n := |files| - 1;
      Recounted(files[..n]) + if files[n] == [] then LastSize(files[..n]) else 0
  }

  ghost predicate NoneEmpty<T>(files: seq<seq<T>>) {
    forall i :: 0 <= i < |files| ==> files[i] != []
  }

  /** Counting fails exactly when the first file is empty; otherwise it is over by the lines counted again, so it
      is right exactly when no file is empty. */
  lemma {:induction false} CountIff<T>(files: seq<seq<T>>)
    ensures CountFiles(files).Err? <==> files != [] && files[0] == []
    ensures CountFiles(files).Ok? ==> CountFiles(files).value.total == |Flatten(files)| + Recounted(files)
    ensures CountFiles(files).Ok? ==> (Recounted(files) == 0 <==> NoneEmpty(files))
    ensures CountFiles(files).Ok? && files != [] ==> CountFiles(files).value.last == Some(LastSize(files) - 1)
  {
    if files != [] {
      var n := |files| - 1;
      CountIff(files[..n]);
      assert NoneEmpty(files) <==> NoneEmpty(files[..n]) && files[n] != [];
    }
  }

  /** Rounded up. */
  function Ceil(a: nat, b: nat): nat
    requires b > 0
  {
    (a + b - 1) / b
  }

  lemma CeilIff(a: nat, b: nat, k: nat)
    requires b > 0
    ensures a <= k * b <==> Ceil(a, b) <= k
  {
    var q := Ceil(a, b);
    DivModId(a + b - 1, b);
    assert (q + 1) * b == q * b + b;
    if q <= k {
      MulMono(q, k, b);
    } else {
      MulMono(k + 1, q, b);
      assert (k + 1) * b == k * b + b;
    }
  }

  method CountLines(files: seq<seq<Line>>) returns (r: Result<nat>)
    ensures r.Err? <==> CountFiles(files).Err?
    ensures r.Ok? ==> CountFiles(files).Ok? && r.value == CountFiles(files).value.total
  {
    var total: nat, fc: Option<nat> := 0, None;
    ghost var done: seq<seq<Line>> := [];
    for i := 0 to |files|
      invariant done == files[..i] && CountFiles(done) == Ok(Counted(total, fc))
    {
      for k := 0 to |files[i]|
        invariant fc == if k == 0 then CountFiles(done).value.last else Some(k - 1)
      {
        fc := Some(k);
      }
      assert (done + [files[i]])[..i] == done;
      if fc.None? {
        CountIff(files);
        CountIff(done);
        assert i == 0;
        return Err;
      }
      total := total + fc.value + 1;
      done := done + [files[i]];
    }
    assert done == files;
    r := Ok(total);
  }

  // ---- Distributing lines ----

  /** In order, a fixed number of lines per partition, or in turn. */
  datatype Mode = Sequential(size: nat) | RoundRobin(partitions: nat) {
    predicate Valid() {
      if Sequential? then size > 0 else partitions > 0
    }

    /** The partition of the line with number `k`. */
    function Slot(k: nat): nat
      requires Valid()
    {
      if Sequential? then k / size else k % partitions
    }
  }

  /** The lines of one partition. */
  function PartOf<T>(mode: Mode, lines: seq<T>, i: nat): seq<T>
    requires mode.Valid()
  {
    if lines == [] then []
    else
      var n := |lines| - 1;
      PartOf(mode, lines[..n], i) + if mode.Slot(n) == i then [lines[n]] else []
  }

  lemma PartAppend<T>(mode: Mode, lines: seq<T>, x: T, i: nat)
    requires mode.Valid()
    ensures PartOf(mode, lines + [x], i) == PartOf(mode, lines, i) + if mode.Slot(|lines|) == i then [x] else []
  {
    assert (lines + [x])[..|lines|] == lines;
  }

  /** The partition files hold the lines written so far. */
  ghost predicate Holds(mode: Mode, parts: seq<seq<Line>>, lines: seq<Line>)
    requires mode.Valid()
  {
    forall i :: 0 <= i < |parts| ==> parts[i] == PartOf(mode, lines, i)
  }

  lemma HoldsAppend(mode: Mode, parts: seq<seq<Line>>, lines: seq<Line>, x: Line)
    requires mode.Valid() && Holds(mode, parts, lines) && mode.Slot(|lines|) < |parts|
    ensures var i := mode.Slot(|lines|); Holds(mode, parts[i := parts[i] + [x]], lines + [x])
  {
    var i := mode.Slot(|lines|);
    forall j | 0 <= j < |parts|
      ensures parts[i := parts[i] + [x]][j] == PartOf(mode, lines + [x], j)
    {
      PartAppend(mode, lines, x, j);
    }
  }

  lemma NextSlot(mode: Mode, k: nat)
    requires mode.Valid()
    ensures mode.Sequential? ==> mode.Slot(k + 1) == if (k + 1) % mode.size == 0 then mode.Slot(k) + 1 else mode.Slot(k)
    ensures mode.RoundRobin? ==> mode.Slot(k + 1) == (mode.Slot(k) + 1) % mode.partitions
    ensures mode.Slot(0) == 0
  {
    var d := if mode.Sequential? then mode.size else mode.partitions;
    var q, r := k / d, k % d;
    DivModId(k, d);
    if r + 1 < d {
      DivModUnique(k + 1, d, q, r + 1);
      DivModUnique(r + 1, d, 0, r + 1);
    } else {
      assert (q + 1) * d == q * d + d;
      DivModUnique(k + 1, d, q + 1, 0);
      DivModUnique(d, d, 1, 0);
    }
    DivModUnique(0, d, 0, 0);
  }

  /** Writes every line to its partition; a partition that does not exist is an error. The index moves to
      the next partition after every full one, or after every line. */
  method WriteLines(mode: Mode, files: seq<seq<Line>>, partitions: nat) returns (r: Result<seq<seq<Line>>>)
    requires mode.Valid() && (mode.RoundRobin? ==> mode.partitions == partitions)
    ensures mode.Sequential? ==> (r.Ok? <==> |Flatten(files)| <= partitions * mode.size)
    ensures mode.RoundRobin? ==> r.Ok?
    ensures r.Ok? ==> |r.value| == partitions && Holds(mode, r.value, Flatten(files))
  {
    var parts: seq<seq<Line>> := seq(partitions, _ => []);
    var index, count: nat := 0, 0;
    ghost var done: seq<Line> := [];
    ghost var doneFiles: seq<seq<Line>> := [];
    NextSlot(mode, 0);
    for f := 0 to |files|
      invariant doneFiles == files[..f] && done == Flatten(doneFiles)
      invariant |parts| == partitions && count == |done| && index == mode.Slot(count) && Holds(mode, parts, done)
      invariant count > 0 ==> mode.Slot(count - 1) < partitions
    {
      ghost var before := done;
      for l := 0 to |files[f]|
        invariant done == before + files[f][..l]
        invariant |parts| == partitions && count == |done| && index == mode.Slot(count) && Holds(mode, parts, done)
        invariant count > 0 ==> mode.Slot(count - 1) < partitions
      {
        if index >= partitions {
          TooMany(mode, files, partitions, f, l, |done|);
          return Err;
        }
        HoldsAppend(mode, parts, done, files[f][l]);
        NextSlot(mode, count);
        parts := parts[index := parts[index] + [files[f][l]]];
        done := done + [files[f][l]];
        count := count + 1;
        if mode.Sequential? {
          if count % mode.size == 0 {
            index := index + 1;
          }
        } else {
          index := (index + 1) % partitions;
        }
      }
      FlattenAppend(doneFiles, files[f]);
      doneFiles := doneFiles + [files[f]];
    }
    assert doneFiles == files;
    if mode.Sequential? && count > 0 {
      LastFits(count - 1, mode.size, partitions);
    }
    r := Ok(parts);
  }

  lemma LastFits(k: nat, size: nat, partitions: nat)
    requires size > 0 && k / size < partitions
    ensures k < partitions * size
  {
    DivModId(k, size);
    MulMono(k / size + 1, partitions, size);
  }

  /** A slot past the partitions means more lines than they have room for. */
  lemma TooMany(mode: Mode, files: seq<seq<Line>>, partitions: nat, f: nat, l: nat, k: nat)
    requires mode.Valid() && (mode.RoundRobin? ==> mode.partitions == partitions)
    requires f < |files| && l < |files[f]| && k == |Flatten(files[..f])| + l && mode.Slot(k) >= partitions
    ensures mode.Sequential? && |Flatten(files)| > partitions * mode.size
  {
    assert files == files[..f] + [files[f]] + files[f + 1..];
    FlattenConcat(files[..f] + [files[f]], files[f + 1..]);
    FlattenAppend(files[..f], files[f]);
    if mode.Sequential? && k < partitions * mode.size {
      assert k < mode.size * partitions;
      DivBound(k, mode.size, partitions);
    }
  }

  // ---- Partitions in order ----

  function Min(a: nat, b: nat): nat {
    if a < b then a else b
  }

  function Chunk<T>(lines: seq<T>, size: nat, i: nat): seq<T> {
    lines[Min(i * size, |lines|)..Min((i + 1) * size, |lines|)]
  }

  lemma SlotIff(k: nat, size: nat, i: nat)
    requires size > 0
    ensures k / size == i <==> i * size <= k < (i + 1) * size
  {
    DivModId(k, size);
    assert (i + 1) * size == i * size + size;
    if i * size <= k < (i + 1) * size {
      DivModUnique(k, size, i, k - i * size);
    }
  }

  /** In order, a partition holds one stretch of the lines. */
  lemma {:induction false} SequentialChunk<T>(lines: seq<T>, size: nat, i: nat)
    requires size > 0
    ensures i * size <= (i + 1) * size && PartOf(Sequential(size), lines, i) == Chunk(lines, size, i)
  {
    assert (i + 1) * size == i * size + size;
    if lines != [] {
      var n := |lines| - 1;
      SequentialChunk(lines[..n], size, i);
      SlotIff(n, size, i);
      ChunkAppend(lines[..n], lines[n], i * size, (i + 1) * size);
      assert lines == lines[..n] + [lines[n]];
    }
  }

  lemma ChunkAppend<T>(lines: seq<T>, x: T, from: nat, to: nat)
    requires from <= to
    ensures var n, longer := |lines|, lines + [x];
            longer[Min(from, n + 1)..Min(to, n + 1)] == lines[Min(from, n)..Min(to, n)] + if from <= n < to then [x] else []
  {
  }

  lemma Stretch<T>(s: seq<T>, a: nat, b: nat)
    requires a <= b <= |s|
    ensures s[..a] + s[a..b] == s[..b]
  {
  }

  lemma {:induction false} ChunksConcat(parts: seq<seq<Line>>, lines: seq<Line>, size: nat, m: nat)
    requires size > 0 && m <= |parts| && Holds(Sequential(size), parts, lines)
    ensures Flatten(parts[..m]) == lines[..Min(m * size, |lines|)]
  {
    if m > 0 {
      ChunksConcat(parts, lines, size, m - 1);
      SequentialChunk(lines, size, m - 1);
      FlattenAppend(parts[..m - 1], parts[m - 1]);
      assert parts[..m] == parts[..m - 1] + [parts[m - 1]];
      Stretch(lines, Min((m - 1) * size, |lines|), Min(m * size, |lines|));
    }
  }

  /** In order, the partitions together are the input, and none has more lines than the partition size. */
  lemma {:induction false} SequentialExact(parts: seq<seq<Line>>, lines: seq<Line>, size: nat)
    requires size > 0 && Holds(Sequential(size), parts, lines) && |lines| <= |parts| * size
    ensures Flatten(parts) == lines
    ensures forall i :: 0 <= i < |parts| ==> |parts[i]| <= size
    ensures parts != [] ==> |parts[0]| == Min(size, |lines|)
  {
    ChunksConcat(parts, lines, size, |parts|);
    assert parts[..|parts|] == parts && lines[..|lines|] == lines;
    forall i | 0 <= i < |parts|
      ensures |parts[i]| <= size && (i == 0 ==> |parts[i]| == Min(size, |lines|))
    {
      SequentialChunk(lines, size, i);
      assert (i + 1) * size == i * size + size;
    }
  }

  ghost predicate Balanced(parts: seq<seq<Line>>, bound: nat) {
    forall i :: 0 <= i < |parts| ==> |parts[i]| <= bound
  }

  lemma CeilMono(a: nat, b: nat, p: nat)
    requires a <= b && p > 0
    ensures Ceil(a, p) <= Ceil(b, p)
  {
    CeilIff(b, p, Ceil(b, p));
    CeilIff(a, p, Ceil(b, p));
  }

  /** The partitions are as even as the line count allows exactly when counting an empty file again did not
      change the partition size, or the first partition could take all lines anyway. */
  lemma {:induction false} BalancedIff(parts: seq<seq<Line>>, lines: seq<Line>, total: nat)
    requires parts != [] && |lines| <= total && Ceil(total, |parts|) > 0
    requires Holds(Sequential(Ceil(total, |parts|)), parts, lines)
    ensures var even := Ceil(|lines|, |parts|);
            Balanced(parts, even) <==> Ceil(total, |parts|) == even || |lines| <= even
  {
    var size := Ceil(total, |parts|);
    CeilIff(total, |parts|, size);
    assert size * |parts| == |parts| * size;
    CeilMono(|lines|, total, |parts|);
    SequentialExact(parts, lines, size);
    if |lines| <= Ceil(|lines|, |parts|) {
      PartsWithin(parts, lines, size);
    }
  }

  lemma PartsWithin(parts: seq<seq<Line>>, lines: seq<Line>, size: nat)
    requires size > 0 && Holds(Sequential(size), parts, lines)
    ensures Balanced(parts, |lines|)
  {
    forall i | 0 <= i < |parts|
      ensures |parts[i]| <= |lines|
    {
      SequentialChunk(lines, size, i);
    }
  }

  // ---- Partitions in turn ----

  /** How many of the first `n` lines fall to partition `i`. */
  function Turns(n: nat, p: nat, i: nat): nat
    requires p > 0
  {
    if n == 0 then 0 else Turns(n - 1, p, i) + if (n - 1) % p == i then 1 else 0
  }

  lemma ProductOrder(j: nat, q: nat, p: nat)
    requires p > 0
    ensures j < q <==> j * p < q * p
    ensures j == q <==> j * p == q * p
  {
    if j < q {
      MulMono(j + 1, q, p);
    } else {
      MulMono(q, j, p);
      if q < j {
        MulMono(q + 1, j, p);
      }
    }
  }

  /** Line `m` is the turn number `m / p` of its partition. */
  lemma TurnOf(m: nat, p: nat, i: nat, j: nat)
    requires i < p && m % p == i
    ensures j < m / p <==> i + j * p < m
    ensures j == m / p <==> i + j * p == m
  {
    DivModId(m, p);
    ProductOrder(j, m / p, p);
  }

  lemma NotTurnOf(m: nat, p: nat, i: nat, j: nat)
    requires i < p && m % p != i
    ensures i + j * p != m
  {
    DivModUnique(i + j * p, p, j, i);
  }

  lemma {:induction false} TurnsIff(n: nat, p: nat, i: nat, j: nat)
    requires i < p
    ensures j < Turns(n, p, i) <==> i + j * p < n
  {
    if n > 0 {
      var m := n - 1;
      TurnsIff(m, p, i, j);
      if m % p == i {
        var q := m / p;
        TurnsIff(m, p, i, q);
        TurnOf(m, p, i, q);
        if q > 0 {
          TurnsIff(m, p, i, q - 1);
          TurnOf(m, p, i, q - 1);
        }
        assert Turns(m, p, i) == q;
        TurnOf(m, p, i, j);
      } else {
        NotTurnOf(m, p, i, j);
      }
    }
  }

  lemma {:induction false} PartLength<T>(lines: seq<T>, p: nat, i: nat)
    requires p > 0
    ensures |PartOf(RoundRobin(p), lines, i)| == Turns(|lines|, p, i)
  {
    if lines != [] {
      PartLength(lines[..|lines| - 1], p, i);
    }
  }

  /** In turn, partition `i` holds exactly the lines whose number is `i` modulo the partitions, in order. */
  lemma {:induction false} RoundRobinExact<T>(lines: seq<T>, p: nat, i: nat, j: nat)
    requires i < p
    ensures var part := PartOf(RoundRobin(p), lines, i);
            && (j < |part| <==> i + j * p < |lines|)
            && (j < |part| ==> part[j] == lines[i + j * p])
  {
    PartLength(lines, p, i);
    TurnsIff(|lines|, p, i, j);
    if lines != [] {
      var n := |lines| - 1;
      RoundRobinExact(lines[..n], p, i, j);
      PartLength(lines[..n], p, i);
    }
  }

  // ---- The whole step ----

  /** Every partition takes the lines of its stretch, a stretch being the counted lines over the partitions, and
      the partitions are as even as the line count allows exactly when counting empty files did not change the
      length of a stretch, or one even share could take all lines anyway. */
  ghost predicate InOrder(files: seq<seq<Line>>, parts: seq<seq<Line>>)
    requires parts != []
  {
    var lines := Flatten(files);
    var size, even := Ceil(|lines| + Recounted(files), |parts|), Ceil(|lines|, |parts|);
    && (size > 0 ==> Holds(Sequential(size), parts, lines))
    && (Balanced(parts, even) <==> size == even || |lines| <= even)
  }

  /** The partitioning loops of `main`. */
  method PartitionFiles(files: seq<seq<Line>>, partitions: nat, keepSequential: bool) returns (r: Result<seq<seq<Line>>>)
    requires partitions > 0
    ensures r.Err? <==> keepSequential && files != [] && files[0] == []
    ensures r.Ok? ==> |r.value| == partitions
    ensures r.Ok? && keepSequential ==> Flatten(r.value) == Flatten(files)
    ensures r.Ok? && keepSequential ==> InOrder(files, r.value)
    ensures r.Ok? && !keepSequential ==> Holds(RoundRobin(partitions), r.value, Flatten(files))
  {
    if !keepSequential {
      r := WriteLines(RoundRobin(partitions), files, partitions);
      return;
    }
    r := PartitionInOrder(files, partitions);
  }

  method PartitionInOrder(files: seq<seq<Line>>, partitions: nat) returns (r: Result<seq<seq<Line>>>)
    requires partitions > 0
    ensures r.Err? <==> files != [] && files[0] == []
    ensures r.Ok? ==> |r.value| == partitions && Flatten(r.value) == Flatten(files)
    ensures r.Ok? ==> InOrder(files, r.value)
  {
    CountIff(files);
    var total := CountLines(files);
    if total.Err? {
      return Err;
    }
    var size := Ceil(total.value, partitions);
    CeilIff(total.value, partitions, size);
    var parts := WriteInOrder(files, partitions, size);
    if size > 0 {
      BalancedIff(parts, Flatten(files), total.value);
    }
    r := Ok(parts);
  }

  method WriteInOrder(files: seq<seq<Line>>, partitions: nat, size: nat) returns (parts: seq<seq<Line>>)
    requires |Flatten(files)| <= size * partitions
    ensures |parts| == partitions && Flatten(parts) == Flatten(files) && Balanced(parts, size)
    ensures size > 0 ==> Holds(Sequential(size), parts, Flatten(files))
  {
    if size == 0 {
      parts := seq(partitions, _ => []);
      AllEmpty(parts);
      return;
    }
    assert size * partitions == partitions * size;
    var r := WriteLines(Sequential(size), files, partitions);
    parts := r.value;
    SequentialExact(parts, Flatten(files), size);
  }

  lemma {:induction false} AllEmpty(parts: seq<seq<Line>>)
    requires forall i :: 0 <= i < |parts| ==> parts[i] == []
    ensures Flatten(parts) == []
  {
    if parts != [] {
      AllEmpty(parts[..|parts| - 1]);
    }
  }

  /** An empty file after one of two lines: both lines land in the first of two partitions. */
  lemma EmptyFileUnbalances()
    ensures var files: seq<seq<Line>> := [["a", "b"], []];
            && CountFiles(files) == Ok(Counted(4, Some(1))) && |Flatten(files)| == 2
            && PartOf(Sequential(Ceil(4, 2)), ["a", "b"], 0) == ["a", "b"]
  {
    var files: seq<seq<Line>> := [["a", "b"], []];
    assert files[..1] == [["a", "b"]] && files[..1][..0] == [];
    FlattenFirst(files);
    FlattenOne<Line>([]);
    SequentialChunk(["a", "b"], 2, 0);
  }
}
