/** Laying out trace spans on lines: a line never shows two spans at the same time. */
module SpanLayout {
  import opened Sequences

  datatype Span = Span(start: int, end: int)

  predicate Overlap(a: Span, b: Span) {
    a.start < b.end && b.start < a.end
  }

  /** Spans in order of their starts, each ending before any later one begins. A span may end before it starts:
      1000 ns are taken off every end. */
  ghost predicate Tidy(line: seq<Span>) {
    forall i, j :: 0 <= i < j < |line| ==> line[i].start <= line[j].start && line[i].end <= line[j].start
  }

  ghost predicate Clear(line: seq<Span>, x: Span) {
    forall i :: 0 <= i < |line| ==> !Overlap(line[i], x)
  }

  /** `bisect_left` with the key `(start, -inf)`: how many leading spans start before `start`. */
  function Before(line: seq<Span>, start: int): (i: nat)
    ensures i <= |line|
  {
    if line == [] || start <= line[0].start then 0 else 1 + Before(line[1..], start)
  }

  lemma {:induction false} BeforeSplits(line: seq<Span>, start: int)
    requires Tidy(line)
    ensures forall i :: 0 <= i < Before(line, start) ==> line[i].start < start
    ensures forall i :: Before(line, start) <= i < |line| ==> start <= line[i].start
  {
    if line != [] {
      BeforeSplits(line[1..], start);
      assert forall i :: 0 < i < |line| ==> line[0].start <= line[i].start;
    }
  }

  /** `check_overlap`: looks at the two neighbours of the insertion point only. */
  function CheckOverlap(line: seq<Span>, start: int, end: int): bool {
    var idx := Before(line, start);
    (idx > 0 && line[idx - 1].end > start) || (idx < |line| && line[idx].start < end)
  }

  /** Spans that start earlier end before `x` begins, and `x` ends before the others begin. */
  ghost predicate Separate(line: seq<Span>, x: Span) {
    forall i :: 0 <= i < |line| ==> if line[i].start < x.start then line[i].end <= x.start else x.end <= line[i].start
  }

  /** On a tidy line the two neighbours speak for all spans, whatever the length of the new one. */
  lemma {:induction false} CheckOverlapSeparates(line: seq<Span>, x: Span)
    requires Tidy(line)
    ensures CheckOverlap(line, x.start, x.end) <==> !Separate(line, x)
  {
    var idx := Before(line, x.start);
    BeforeSplits(line, x.start);
    if CheckOverlap(line, x.start, x.end) {
      var i := if idx > 0 && line[idx - 1].end > x.start then idx - 1 else idx;
      assert line[i].start < x.start <==> i < idx;
    } else {
      forall i | 0 <= i < |line|
        ensures if line[i].start < x.start then line[i].end <= x.start else x.end <= line[i].start
      {
        assert i < idx - 1 ==> line[i].end <= line[idx - 1].start;
        assert idx < i ==> line[idx].start <= line[i].start;
      }
    }
  }

  /** Looking at two neighbours never misses an overlap. */
  lemma {:induction false} CheckOverlapSound(line: seq<Span>, x: Span)
    requires Tidy(line) && !CheckOverlap(line, x.start, x.end)
    ensures Clear(line, x)
  {
    CheckOverlapSeparates(line, x);
  }

  /** For spans of positive length it answers true exactly when some stored span overlaps. */
  lemma {:induction false} CheckOverlapIff(line: seq<Span>, x: Span)
    requires Tidy(line) && x.start < x.end && forall i :: 0 <= i < |line| ==> line[i].start < line[i].end
    ensures CheckOverlap(line, x.start, x.end) <==> !Clear(line, x)
  {
    BeforeSplits(line, x.start);
    if CheckOverlap(line, x.start, x.end) {
      var idx := Before(line, x.start);
      if idx > 0 && line[idx - 1].end > x.start {
        assert Overlap(line[idx - 1], x);
      } else {
        assert Overlap(line[idx], x);
      }
    } else {
      CheckOverlapSound(line, x);
    }
  }

  predicate Less(a: Span, b: Span) {
    a.start < b.start || (a.start == b.start && a.end < b.end)
  }

  /** `insort_left`: before the first span that is not smaller. */
  function Insert(line: seq<Span>, x: Span): seq<Span> {
    if line != [] && Less(line[0], x) then [line[0]] + Insert(line[1..], x) else [x] + line
  }

  lemma {:induction false} InsertMultiset(line: seq<Span>, x: Span)
    ensures multiset(Insert(line, x)) == multiset(line) + multiset{x}
    ensures |Insert(line, x)| == |line| + 1
  {
    if line != [] && Less(line[0], x) {
      InsertMultiset(line[1..], x);
      assert line == [line[0]] + line[1..];
    }
  }

  lemma {:induction false} InsertMember(line: seq<Span>, x: Span, j: nat)
    requires j < |Insert(line, x)|
    ensures Insert(line, x)[j] == x || Insert(line, x)[j] in line
  {
    if line != [] && Less(line[0], x) && j > 0 {
      InsertMember(line[1..], x, j - 1);
    }
  }

  /** Where the inserted span ends up. */
  lemma {:induction false} InsertPlace(line: seq<Span>, x: Span) returns (k: nat)
    ensures k < |Insert(line, x)| && Insert(line, x)[k] == x
  {
    k := 0;
    if line != [] && Less(line[0], x) {
      k := InsertPlace(line[1..], x);
      k := k + 1;
    }
  }

  /** The stored order: by start, and by end where starts are equal. */
  ghost predicate TupleSorted(line: seq<Span>) {
    forall i, j :: 0 <= i < j < |line| ==>
      line[i].start < line[j].start || (line[i].start == line[j].start && line[i].end <= line[j].end)
  }

  lemma {:induction false} InsertTupleSorted(line: seq<Span>, x: Span)
    requires TupleSorted(line)
    ensures TupleSorted(Insert(line, x))
  {
    if line != [] && Less(line[0], x) {
      InsertTupleSorted(line[1..], x);
      var rest := Insert(line[1..], x);
      forall j | 0 <= j < |rest|
        ensures line[0].start < rest[j].start || (line[0].start == rest[j].start && line[0].end <= rest[j].end)
      {
        InsertMember(line[1..], x, j);
      }
    } else {
      forall j | 0 <= j < |line|
        ensures x.start < line[j].start || (x.start == line[j].start && x.end <= line[j].end)
      {
        assert j > 0 ==> line[0].start < line[j].start || (line[0].start == line[j].start && line[0].end <= line[j].end);
      }
    }
  }

  /** A span that keeps apart from the others leaves a tidy line tidy. */
  lemma {:induction false} InsertTidy(line: seq<Span>, x: Span)
    requires Tidy(line) && Separate(line, x)
    ensures Tidy(Insert(line, x))
  {
    if line != [] && Less(line[0], x) {
      InsertTidy(line[1..], x);
      var rest := Insert(line[1..], x);
      forall j | 0 <= j < |rest|
        ensures line[0].start <= rest[j].start && line[0].end <= rest[j].start
      {
        InsertMember(line[1..], x, j);
      }
    } else {
      forall j | 0 <= j < |line|
        ensures x.start <= line[j].start && x.end <= line[j].start
      {
        assert j > 0 ==> line[0].start <= line[j].start;
      }
    }
  }

  /** An untidy line stays untidy. */
  lemma {:induction false} InsertTidyBack(line: seq<Span>, x: Span)
    requires Tidy(Insert(line, x))
    ensures Tidy(line)
  {
    var all := Insert(line, x);
    TidyTail(all);
    if line != [] && Less(line[0], x) {
      var rest := Insert(line[1..], x);
      assert all[1..] == rest;
      InsertTidyBack(line[1..], x);
      forall j | 0 <= j < |line[1..]|
        ensures line[0].start <= line[1..][j].start && line[0].end <= line[1..][j].start
      {
        var k := InsertKeeps(line[1..], x, j);
        assert all[0] == line[0] && all[k + 1] == rest[k] == line[1..][j];
        assert all[0].start <= all[k + 1].start && all[0].end <= all[k + 1].start;
      }
      TidyCons(line[0], line[1..]);
      assert line == [line[0]] + line[1..];
    } else {
      assert all[1..] == line;
    }
  }

  lemma TidyTail(line: seq<Span>)
    requires Tidy(line) && line != []
    ensures Tidy(line[1..])
  {
  }

  lemma TidyCons(x: Span, line: seq<Span>)
    requires Tidy(line) && forall j :: 0 <= j < |line| ==> x.start <= line[j].start && x.end <= line[j].start
    ensures Tidy([x] + line)
  {
  }

  lemma {:induction false} InsertKeeps(line: seq<Span>, x: Span, j: nat) returns (k: nat)
    requires j < |line|
    ensures k < |Insert(line, x)| && Insert(line, x)[k] == line[j]
  {
    if !Less(line[0], x) {
      k := j + 1;
    } else if j == 0 {
      k := 0;
    } else {
      k := InsertKeeps(line[1..], x, j - 1);
      k := k + 1;
    }
  }

  /** A tidy line has no two overlapping spans, and inserting into it needs the new span to be clear. */
  lemma {:induction false} TidyInsertClear(line: seq<Span>, x: Span)
    requires Tidy(Insert(line, x))
    ensures Clear(line, x)
  {
    var all := Insert(line, x);
    forall i | 0 <= i < |line|
      ensures !Overlap(line[i], x)
    {
      InsertSeparates(line, x, i);
    }
  }

  lemma {:induction false} InsertSeparates(line: seq<Span>, x: Span, i: nat)
    requires i < |line| && Tidy(Insert(line, x))
    ensures !Overlap(line[i], x)
  {
    var all := Insert(line, x);
    if Less(line[0], x) {
      var rest := Insert(line[1..], x);
      if i > 0 {
        assert Tidy(rest) by {
          assert forall a :: 0 <= a < |rest| ==> rest[a] == all[a + 1];
        }
        InsertSeparates(line[1..], x, i - 1);
      } else {
        var k := InsertPlace(line[1..], x);
        assert all[0].end <= all[k + 1].start;
      }
    } else {
      assert all[0] == x && all[i + 1] == line[i];
    }
  }

  ghost predicate AllTidy(lines: seq<seq<Span>>) {
    forall i :: 0 <= i < |lines| ==> Tidy(lines[i])
  }

  /** The first line on which the span raises no conflict, or the number of lines. */
  function FirstFree(lines: seq<seq<Span>>, x: Span): (i: nat)
    ensures i <= |lines|
    ensures i < |lines| ==> !CheckOverlap(lines[i], x.start, x.end)
    ensures forall j :: 0 <= j < i ==> CheckOverlap(lines[j], x.start, x.end)
  {
    if lines == [] || !CheckOverlap(lines[0], x.start, x.end) then 0 else 1 + FirstFree(lines[1..], x)
  }

  /** The lines of one process, and the line its current request last used. */
  datatype Board = Board(lines: seq<seq<Span>>, current: Option<nat>) {
    predicate Valid() {
      current.Some? ==> current.value < |lines|
    }
  }

  /** `__find_line`: the current line if the span is empty or raises no conflict there, else the first
      free line, else a new one (the number of lines). */
  function FindLine(b: Board, x: Span): (i: nat)
    requires b.Valid()
    ensures i <= |b.lines|
  {
    if b.current.Some? && (x.start == x.end || !CheckOverlap(b.lines[b.current.value], x.start, x.end))
    then b.current.value
    else FirstFree(b.lines, x)
  }

  function PutOn(lines: seq<seq<Span>>, i: nat, x: Span): (r: seq<seq<Span>>)
    requires i <= |lines|
  {
    if i == |lines| then lines + [[x]] else lines[i := Insert(lines[i], x)]
  }

  function Step(b: Board, x: Span): (r: Board)
    requires b.Valid()
    ensures r.Valid()
  {
    Board(PutOn(b.lines, FindLine(b, x), x), Some(FindLine(b, x)))
  }

  /** Placing spans one after another. */
  function Run(b: Board, spans: seq<Span>): (r: Board)
    requires b.Valid()
    ensures r.Valid()
  {
    if spans == [] then b else Step(Run(b, spans[..|spans| - 1]), spans[|spans| - 1])
  }

  /** An empty span placed on the current line goes there unchecked; that is the only way to spoil a
      line. */
  ghost predicate Unchecked(b: Board, x: Span)
    requires b.Valid()
  {
    x.start == x.end && b.current.Some? && !Clear(b.lines[b.current.value], x)
  }

  /** Whatever its length, placing a span keeps every line tidy exactly when it is not an unchecked empty span
      that falls inside another span. */
  lemma {:induction false} StepTidyIff(b: Board, x: Span)
    requires b.Valid() && AllTidy(b.lines)
    ensures AllTidy(Step(b, x).lines) <==> !Unchecked(b, x)
  {
    var i := FindLine(b, x);
    var lines := PutOn(b.lines, i, x);
    if i < |b.lines| {
      CheckOverlapSeparates(b.lines[i], x);
      if Separate(b.lines[i], x) {
        InsertTidy(b.lines[i], x);
      } else if Tidy(lines[i]) {
        TidyInsertClear(b.lines[i], x);
      }
    }
  }

  lemma {:induction false} StepTidyBack(b: Board, x: Span)
    requires b.Valid() && AllTidy(Step(b, x).lines)
    ensures AllTidy(b.lines)
  {
    var i, lines := FindLine(b, x), Step(b, x).lines;
    forall j | 0 <= j < |b.lines|
      ensures Tidy(b.lines[j])
    {
      assert Tidy(lines[j]);
      if j == i {
        InsertTidyBack(b.lines[j], x);
      }
    }
  }

  /** None of the spans, as its turn comes, is an unchecked empty span. */
  ghost predicate AllChecked(b: Board, spans: seq<Span>)
    requires b.Valid()
  {
    spans == []
    || (AllChecked(b, spans[..|spans| - 1]) && !Unchecked(Run(b, spans[..|spans| - 1]), spans[|spans| - 1]))
  }

  /** Over any run, whatever the spans and their order, the lines end tidy exactly when no empty span went
      unchecked into another span. */
  lemma {:induction false} RunTidyIff(b: Board, spans: seq<Span>)
    requires b.Valid() && AllTidy(b.lines)
    ensures AllTidy(Run(b, spans).lines) <==> AllChecked(b, spans)
  {
    if spans != [] {
      var last := |spans| - 1;
      var before := Run(b, spans[..last]);
      RunTidyIff(b, spans[..last]);
      if AllTidy(Step(before, spans[last]).lines) {
        StepTidyBack(before, spans[last]);
      }
      if AllTidy(before.lines) {
        StepTidyIff(before, spans[last]);
      }
    }
  }

  ghost predicate NoneInstant(spans: seq<Span>) {
    forall i :: 0 <= i < |spans| ==> spans[i].start != spans[i].end
  }

  ghost predicate AllPositive(spans: seq<Span>) {
    forall i :: 0 <= i < |spans| ==> spans[i].start < spans[i].end
  }

  lemma {:induction false} NoneInstantChecked(b: Board, spans: seq<Span>)
    requires b.Valid() && NoneInstant(spans)
    ensures AllChecked(b, spans)
  {
    if spans != [] {
      NoneInstantChecked(b, spans[..|spans| - 1]);
    }
  }

  /** Over any run of spans that do not end where they start, in any order, every line stays tidy. */
  lemma RunTidy(b: Board, spans: seq<Span>)
    requires b.Valid() && AllTidy(b.lines) && NoneInstant(spans)
    ensures AllTidy(Run(b, spans).lines)
  {
    NoneInstantChecked(b, spans);
    RunTidyIff(b, spans);
  }

  lemma RunAppend(b: Board, spans: seq<Span>, x: Span)
    requires b.Valid()
    ensures Run(b, spans + [x]) == Step(Run(b, spans), x)
  {
    assert (spans + [x])[..|spans|] == spans;
  }

  lemma InsertAtEnd(line: seq<Span>, x: Span)
    requires forall i :: 0 <= i < |line| ==> line[i].start < x.start
    ensures Insert(line, x) == line + [x] && Before(line, x.start) == |line|
  {
    if line != [] {
      InsertAtEnd(line[1..], x);
      assert line == [line[0]] + line[1..];
    }
  }

  /** An empty span inside another one goes unchecked, and after it even a span of positive length lands
      on top of an earlier one: the neighbour check no longer sees it. */
  lemma EmptySpanBreaksLayout()
    ensures var b := Run(Board([], None), [Span(0, 10), Span(5, 5), Span(6, 8)]);
            b.lines == [[Span(0, 10), Span(5, 5), Span(6, 8)]] && Overlap(Span(0, 10), Span(6, 8))
  {
    var x, y, z := Span(0, 10), Span(5, 5), Span(6, 8);
    RunAppend(Board([], None), [], x);
    RunAppend(Board([], None), [x], y);
    RunAppend(Board([], None), [x, y], z);
    assert [] + [x] == [x] && [x] + [y] == [x, y] && [x, y] + [z] == [x, y, z];
    InsertAtEnd([x], y);
    InsertAtEnd([x, y], z);
    assert !CheckOverlap([x, y], z.start, z.end);
  }

  lemma {:induction false} FlattenPut(lines: seq<seq<Span>>, i: nat, x: Span)
    requires i <= |lines|
    ensures multiset(Flatten(PutOn(lines, i, x))) == multiset(Flatten(lines)) + multiset{x}
  {
    if i == |lines| {
      FlattenAppend(lines, [x]);
    } else {
      var put := PutOn(lines, i, x);
      assert put[..i] + put[i + 1..] == lines[..i] + lines[i + 1..];
      FlattenWithout(lines, i);
      FlattenWithout(put, i);
      InsertMultiset(lines[i], x);
    }
  }

  /** Every span is stored exactly once. */
  lemma {:induction false} RunConserves(b: Board, spans: seq<Span>)
    requires b.Valid()
    ensures multiset(Flatten(Run(b, spans).lines)) == multiset(Flatten(b.lines)) + multiset(spans)
  {
    if spans != [] {
      var last := |spans| - 1;
      RunConserves(b, spans[..last]);
      StepConserves(Run(b, spans[..last]), spans[last]);
      LastMultiset(spans);
    }
  }

  lemma {:induction false} StepConserves(b: Board, x: Span)
    requires b.Valid()
    ensures multiset(Flatten(Step(b, x).lines)) == multiset(Flatten(b.lines)) + multiset{x}
  {
    FlattenPut(b.lines, FindLine(b, x), x);
  }

  lemma LastMultiset(spans: seq<Span>)
    requires spans != []
    ensures multiset(spans) == multiset(spans[..|spans| - 1]) + multiset{spans[|spans| - 1]}
  {
    assert spans == spans[..|spans| - 1] + [spans[|spans| - 1]];
  }

  predicate Live(x: Span, t: int) {
    x.start <= t < x.end
  }

  /** How many of the spans are live at time `t`. */
  function LiveCount(spans: seq<Span>, t: int): nat {
    if spans == [] then 0
    else LiveCount(spans[..|spans| - 1], t) + if Live(spans[|spans| - 1], t) then 1 else 0
  }

  lemma {:induction false} LiveConcat(a: seq<Span>, b: seq<Span>, t: int)
    ensures LiveCount(a + b, t) == LiveCount(a, t) + LiveCount(b, t)
  {
    if b == [] {
      assert a + b == a;
    } else {
      assert (a + b)[..|a + b| - 1] == a + b[..|b| - 1];
      LiveConcat(a, b[..|b| - 1], t);
    }
  }

  lemma {:induction false} LivePermuted(a: seq<Span>, b: seq<Span>, t: int)
    requires multiset(a) == multiset(b)
    ensures LiveCount(a, t) == LiveCount(b, t)
  {
    assert |multiset(a)| == |a| && |multiset(b)| == |b|;
    if a != [] {
      var last := |a| - 1;
      var x := a[last];
      assert a == a[..last] + [x];
      assert x in multiset(b);
      var i :| 0 <= i < |b| && b[i] == x;
      assert b == b[..i] + [x] + b[i + 1..];
      var rest := b[..i] + b[i + 1..];
      assert multiset(a[..last]) == multiset(a) - multiset{x};
      assert multiset(rest) == multiset(b) - multiset{x};
      LivePermuted(a[..last], rest, t);
      LiveRemove(b, i, t);
    }
  }

  lemma {:induction false} LiveRemove(b: seq<Span>, i: nat, t: int)
    requires i < |b|
    ensures LiveCount(b, t) == LiveCount(b[..i] + b[i + 1..], t) + if Live(b[i], t) then 1 else 0
  {
    assert b == b[..i] + [b[i]] + b[i + 1..];
    LiveConcat(b[..i] + [b[i]], b[i + 1..], t);
    LiveConcat(b[..i], b[i + 1..], t);
    assert (b[..i] + [b[i]])[..i] == b[..i];
  }

  /** On a tidy line at most one span is live at any time. */
  lemma {:induction false} TidyLiveOnce(line: seq<Span>, t: int)
    requires Tidy(line)
    ensures LiveCount(line, t) <= 1
    ensures (forall i :: 0 <= i < |line| ==> !Live(line[i], t)) ==> LiveCount(line, t) == 0
  {
    if line != [] {
      var last := |line| - 1;
      TidyLiveOnce(line[..last], t);
      assert forall i :: 0 <= i < last ==> line[i].end <= line[last].start;
    }
  }

  lemma {:induction false} LiveMember(line: seq<Span>, i: nat, t: int)
    requires i < |line| && Live(line[i], t)
    ensures 1 <= LiveCount(line, t)
  {
    if i < |line| - 1 {
      LiveMember(line[..|line| - 1], i, t);
    }
  }

  /** A layout without overlaps needs at least as many lines as spans are ever live together. */
  lemma {:induction false} LinesAtLeastLive(lines: seq<seq<Span>>, t: int)
    requires AllTidy(lines)
    ensures LiveCount(Flatten(lines), t) <= |lines|
  {
    if lines != [] {
      var last := |lines| - 1;
      LinesAtLeastLive(lines[..last], t);
      LiveConcat(Flatten(lines[..last]), lines[last], t);
      TidyLiveOnce(lines[last], t);
    }
  }

  ghost predicate EachLive(lines: seq<seq<Span>>, t: int) {
    forall i :: 0 <= i < |lines| ==> 1 <= LiveCount(lines[i], t)
  }

  lemma {:induction false} EachLiveCount(lines: seq<seq<Span>>, t: int)
    requires EachLive(lines, t)
    ensures |lines| <= LiveCount(Flatten(lines), t)
  {
    if lines != [] {
      var last := |lines| - 1;
      EachLiveCount(lines[..last], t);
      LiveConcat(Flatten(lines[..last]), lines[last], t);
    }
  }

  /** A new line is opened only when every line shows a span at the start of the new one. */
  lemma {:induction false} NewLineMeansAllLive(b: Board, x: Span)
    requires b.Valid() && AllTidy(b.lines) && x.start < x.end && FindLine(b, x) == |b.lines|
    requires forall y :: y in Flatten(b.lines) ==> y.start < y.end && y.start <= x.start
    ensures EachLive(b.lines, x.start)
  {
    forall i | 0 <= i < |b.lines|
      ensures 1 <= LiveCount(b.lines[i], x.start)
    {
      var line := b.lines[i];
      assert CheckOverlap(line, x.start, x.end);
      forall j | 0 <= j < |line|
        ensures line[j].start < line[j].end && line[j].start <= x.start
      {
        FlattenMember(b.lines, i, j);
      }
      CheckOverlapIff(line, x);
      var j :| 0 <= j < |line| && Overlap(line[j], x);
      LiveMember(line, j, x.start);
    }
  }

  ghost predicate ByStart(spans: seq<Span>) {
    forall i, j :: 0 <= i < j < |spans| ==> spans[i].start <= spans[j].start
  }

  /** The requests of a process one after another: each begins without a current line. */
  function RunAll(requests: seq<seq<Span>>): (lines: seq<seq<Span>>) {
    if requests == [] then []
    else
      var n := |requests| - 1;
      Run(Board(RunAll(requests[..n]), None), requests[n]).lines
  }

  /** Whatever the requests, spans that do not end where they start never overlap on a line. */
  lemma {:induction false} RunAllTidy(requests: seq<seq<Span>>)
    requires NoneInstant(Flatten(requests))
    ensures AllTidy(RunAll(requests))
  {
    if requests != [] {
      var n := |requests| - 1;
      var before := Flatten(requests[..n]);
      assert forall i :: 0 <= i < |before| ==> before[i] == Flatten(requests)[i];
      assert forall i :: 0 <= i < |requests[n]| ==> requests[n][i] == Flatten(requests)[|before| + i];
      RunAllTidy(requests[..n]);
      RunTidy(Board(RunAll(requests[..n]), None), requests[n]);
    }
  }

  /** Every span is stored exactly once. */
  lemma {:induction false} RunAllConserves(requests: seq<seq<Span>>)
    ensures multiset(Flatten(RunAll(requests))) == multiset(Flatten(requests))
  {
    if requests != [] {
      var n := |requests| - 1;
      RunAllConserves(requests[..n]);
      RunConserves(Board(RunAll(requests[..n]), None), requests[n]);
    }
  }

  lemma StartsBefore(lines: seq<seq<Span>>, spans: seq<Span>, x: Span)
    requires multiset(Flatten(lines)) == multiset(spans)
    requires ByStart(spans + [x]) && AllPositive(spans)
    ensures forall y :: y in Flatten(lines) ==> y.start < y.end && y.start <= x.start
  {
    forall y | y in Flatten(lines)
      ensures y.start < y.end && y.start <= x.start
    {
      assert y in multiset(Flatten(lines));
      var i :| 0 <= i < |spans| && spans[i] == y;
      assert (spans + [x])[i] == y && (spans + [x])[|spans|] == x;
    }
  }

  lemma ReachStep(b: Board, seen: seq<Span>, x: Span, t0: int) returns (t: int)
    requires b.Valid() && AllTidy(b.lines) && multiset(Flatten(b.lines)) == multiset(seen)
    requires ByStart(seen + [x]) && AllPositive(seen) && x.start < x.end
    requires |b.lines| <= LiveCount(seen, t0)
    ensures |Step(b, x).lines| <= LiveCount(seen + [x], t)
  {
    assert (seen + [x])[..|seen|] == seen;
    t := t0;
    if FindLine(b, x) == |b.lines| {
      t := x.start;
      StartsBefore(b.lines, seen, x);
      NewLineMeansAllLive(b, x);
      EachLiveCount(b.lines, t);
      LivePermuted(Flatten(b.lines), seen, t);
    }
  }

  lemma Prefixes(seen: seq<Span>, x: Span)
    requires ByStart(seen + [x]) && AllPositive(seen + [x])
    ensures ByStart(seen) && AllPositive(seen) && x.start < x.end
  {
    var all := seen + [x];
    assert forall i :: 0 <= i < |seen| ==> seen[i] == all[i];
    assert all[|seen|] == x;
  }

  lemma PositiveParts(a: seq<Span>, b: seq<Span>)
    requires AllPositive(a + b)
    ensures AllPositive(a) && AllPositive(b)
  {
    assert forall i :: 0 <= i < |a| ==> a[i] == (a + b)[i];
    assert forall i :: 0 <= i < |b| ==> b[i] == (a + b)[|a| + i];
  }

  /** In start order, the lines opened are never more than the spans live at some moment. */
  lemma {:induction false} LinesReachLive(b: Board, done: seq<Span>, spans: seq<Span>, t0: int) returns (t: int)
    requires b.Valid() && AllTidy(b.lines) && multiset(Flatten(b.lines)) == multiset(done)
    requires ByStart(done + spans) && AllPositive(done + spans)
    requires |b.lines| <= LiveCount(done, t0)
    ensures |Run(b, spans).lines| <= LiveCount(done + spans, t)
    decreases |spans|
  {
    if spans == [] {
      t := t0;
      assert done + spans == done;
    } else {
      var last := |spans| - 1;
      var x, before := spans[last], spans[..last];
      assert done + spans == done + before + [x];
      Prefixes(done + before, x);
      t := LinesReachLive(b, done, before, t0);
      PositiveParts(done, before);
      RunTidy(b, before);
      RunConserves(b, before);
      t := ReachStep(Run(b, before), done + before, x, t);
    }
  }

  lemma {:induction false} AllLinesReachLive(requests: seq<seq<Span>>) returns (t: int)
    requires ByStart(Flatten(requests)) && AllPositive(Flatten(requests))
    ensures |RunAll(requests)| <= LiveCount(Flatten(requests), t)
  {
    t := 0;
    if requests != [] {
      var n := |requests| - 1;
      var before := requests[..n];
      assert forall i :: 0 <= i < |Flatten(before)| ==> Flatten(before)[i] == Flatten(requests)[i];
      t := AllLinesReachLive(before);
      RunAllTidy(before);
      RunAllConserves(before);
      t := LinesReachLive(Board(RunAll(before), None), Flatten(before), requests[n], t);
    }
  }

  /** In start order, the number of lines is the largest number of spans live at one moment, and no
      overlap-free layout of the same spans uses fewer lines. */
  lemma {:induction false} LinesOptimal(requests: seq<seq<Span>>, other: seq<seq<Span>>, t: int)
    requires ByStart(Flatten(requests)) && AllPositive(Flatten(requests))
    requires AllTidy(other) && multiset(Flatten(other)) == multiset(Flatten(requests))
    ensures exists u :: |RunAll(requests)| == LiveCount(Flatten(requests), u)
    ensures LiveCount(Flatten(requests), t) <= |RunAll(requests)| <= |other|
  {
    var lines, spans := RunAll(requests), Flatten(requests);
    RunAllTidy(requests);
    RunAllConserves(requests);
    var u := AllLinesReachLive(requests);
    LinesAtLeastLive(lines, t);
    LinesAtLeastLive(lines, u);
    LinesAtLeastLive(other, u);
    LivePermuted(Flatten(lines), spans, t);
    LivePermuted(Flatten(lines), spans, u);
    LivePermuted(Flatten(other), spans, u);
  }
}
