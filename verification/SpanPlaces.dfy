/** Which line a span is shown on, said without the layout: from the lines the spans before it were given. */
module SpanPlaces {
  import opened Sequences
  import opened SpanLayout
  import opened SpanGraph

  /** A span and the line it is shown on. */
  datatype Entry = Entry(x: PidSpan, tid: nat)

  function Entries(xs: seq<PidSpan>, tids: seq<nat>): (r: seq<Entry>)
    requires |xs| == |tids|
    ensures |r| == |xs|
  {
    seq(|xs|, i requires 0 <= i < |xs| => Entry(xs[i], tids[i]))
  }

  /** Everything shown so far, request after request. */
  function History(requests: seq<seq<PidSpan>>, tids: seq<seq<nat>>): seq<Entry>
    requires |requests| == |tids| && forall i :: 0 <= i < |tids| ==> |tids[i]| == |requests[i]|
  {
    if requests == [] then []
    else
      var n := |requests| - 1;
      History(requests[..n], tids[..n]) + Entries(requests[n], tids[n])
  }

  /** The spans shown on a line of a process. */
  function OnLine(shown: seq<Entry>, p: Pid, t: nat): seq<Span> {
    if shown == [] then []
    else
      var n := |shown| - 1;
      OnLine(shown[..n], p, t) + if shown[n].x.pid == p && shown[n].tid == t then [shown[n].x.span] else []
  }

  /** The line of the last span of a process. */
  function LastLine(shown: seq<Entry>, p: Pid): Option<nat> {
    if shown == [] then None
    else
      var n := |shown| - 1;
      if shown[n].x.pid == p then Some(shown[n].tid) else LastLine(shown[..n], p)
  }

  /** Nothing on the line is in the way of the span. */
  ghost predicate FreeLine(shown: seq<Entry>, x: PidSpan, t: nat) {
    Separate(OnLine(shown, x.pid, t), x.span)
  }

  /** A span stays on the line its request last used on its process if that line is free for it, and otherwise goes
      to the first line that is. A line that shows nothing yet is free. */
  ghost predicate PlacedRight(earlier: seq<Entry>, request: seq<Entry>, x: PidSpan, tid: nat) {
    var last := LastLine(request, x.pid);
    if last.Some? && FreeLine(earlier + request, x, last.value) then tid == last.value
    else
      && 1 <= tid && FreeLine(earlier + request, x, tid)
      && forall t :: 1 <= t < tid ==> !FreeLine(earlier + request, x, t)
  }

  // ---- The layout mirrors what is shown ----

  ghost predicate LineMirrors(lines: seq<seq<Span>>, shown: seq<Entry>, p: Pid, t: nat) {
    if 1 <= t <= |lines| then multiset(lines[t - 1]) == multiset(OnLine(shown, p, t)) else OnLine(shown, p, t) == []
  }

  ghost predicate LinesMirror(lines: seq<seq<Span>>, shown: seq<Entry>, p: Pid) {
    forall t: nat :: LineMirrors(lines, shown, p, t)
  }

  ghost predicate Mirrors(l: Layout, shown: seq<Entry>, request: seq<Entry>, p: Pid) {
    && LinesMirror(On(l.lines, p), shown, p)
    && LastLine(request, p) == if p in l.status then Some(l.status[p]) else None
  }

  lemma OnLineAppend(shown: seq<Entry>, e: Entry, p: Pid, t: nat)
    ensures OnLine(shown + [e], p, t) == OnLine(shown, p, t) + if e.x.pid == p && e.tid == t then [e.x.span] else []
  {
    assert (shown + [e])[..|shown|] == shown;
  }

  lemma LastLineAppend(shown: seq<Entry>, e: Entry, p: Pid)
    ensures LastLine(shown + [e], p) == if e.x.pid == p then Some(e.tid) else LastLine(shown, p)
  {
    assert (shown + [e])[..|shown|] == shown;
  }

  lemma PutLineMirrors(lines: seq<seq<Span>>, shown: seq<Entry>, x: PidSpan, i: nat, t: nat)
    requires LineMirrors(lines, shown, x.pid, t) && i <= |lines|
    ensures LineMirrors(PutOn(lines, i, x.span), shown + [Entry(x, i + 1)], x.pid, t)
  {
    OnLineAppend(shown, Entry(x, i + 1), x.pid, t);
    if t == i + 1 {
      if i < |lines| {
        InsertMultiset(lines[i], x.span);
      } else {
        assert OnLine(shown, x.pid, t) + [x.span] == [x.span];
      }
    } else {
      assert OnLine(shown, x.pid, t) + [] == OnLine(shown, x.pid, t);
    }
  }

  lemma PutMirrors(lines: seq<seq<Span>>, shown: seq<Entry>, x: PidSpan, i: nat)
    requires LinesMirror(lines, shown, x.pid) && i <= |lines|
    ensures LinesMirror(PutOn(lines, i, x.span), shown + [Entry(x, i + 1)], x.pid)
  {
    var put, longer := PutOn(lines, i, x.span), shown + [Entry(x, i + 1)];
    forall t: nat
      ensures LineMirrors(put, longer, x.pid, t)
    {
      assert LineMirrors(lines, shown, x.pid, t);
      PutLineMirrors(lines, shown, x, i, t);
    }
  }

  lemma OtherMirrors(lines: seq<seq<Span>>, shown: seq<Entry>, e: Entry, p: Pid)
    requires LinesMirror(lines, shown, p) && e.x.pid != p
    ensures LinesMirror(lines, shown + [e], p)
  {
    forall t: nat
      ensures LineMirrors(lines, shown + [e], p, t)
    {
      assert LineMirrors(lines, shown, p, t);
      OnLineAppend(shown, e, p, t);
    }
  }

  /** What a step does to the lines of one process and to the status. */
  lemma StepEffect(l: Layout, x: PidSpan, p: Pid, i: nat)
    requires l.Valid() && i == FindLine(l.BoardOf(x.pid), x.span)
    ensures On(PlaceStep(l, x).lines, p) == if x.pid == p then PutOn(On(l.lines, p), i, x.span) else On(l.lines, p)
    ensures PlaceStep(l, x).status == l.status[x.pid := i + 1]
  {
  }

  lemma StepMirrors(l: Layout, shown: seq<Entry>, request: seq<Entry>, x: PidSpan, p: Pid)
    requires l.Valid() && Mirrors(l, shown, request, p)
    ensures var e := Entry(x, PlaceStep(l, x).status[x.pid]); Mirrors(PlaceStep(l, x), shown + [e], request + [e], p)
  {
    var i := FindLine(l.BoardOf(x.pid), x.span);
    var e := Entry(x, i + 1);
    StepEffect(l, x, p, i);
    LastLineAppend(request, e, p);
    if x.pid == p {
      PutMirrors(On(l.lines, p), shown, x, i);
    } else {
      OtherMirrors(On(l.lines, p), shown, e, p);
    }
  }

  lemma SeparatePermuted(a: seq<Span>, b: seq<Span>, x: Span)
    requires multiset(a) == multiset(b)
    ensures Separate(a, x) <==> Separate(b, x)
  {
    if Separate(a, x) {
      SeparateFrom(a, b, x);
    }
    if Separate(b, x) {
      SeparateFrom(b, a, x);
    }
  }

  lemma SeparateFrom(a: seq<Span>, b: seq<Span>, x: Span)
    requires multiset(a) == multiset(b) && Separate(a, x)
    ensures Separate(b, x)
  {
    forall i | 0 <= i < |b|
      ensures if b[i].start < x.start then b[i].end <= x.start else x.end <= b[i].start
    {
      assert b[i] in multiset(a);
    }
  }

  /** On tidy lines the check answers whether the line is free. */
  lemma CheckIsFree(lines: seq<seq<Span>>, shown: seq<Entry>, x: PidSpan, t: nat)
    requires LinesMirror(lines, shown, x.pid) && AllTidy(lines) && 1 <= t
    ensures FreeLine(shown, x, t) <==> (t <= |lines| ==> !CheckOverlap(lines[t - 1], x.span.start, x.span.end))
  {
    assert LineMirrors(lines, shown, x.pid, t);
    if t <= |lines| {
      CheckOverlapSeparates(lines[t - 1], x.span);
      SeparatePermuted(lines[t - 1], OnLine(shown, x.pid, t), x.span);
    }
  }

  /** On every line, the check answers whether it is free. */
  ghost predicate ChecksFree(lines: seq<seq<Span>>, shown: seq<Entry>, x: PidSpan) {
    forall t: nat :: 1 <= t ==>
      (FreeLine(shown, x, t) <==> (t <= |lines| ==> !CheckOverlap(lines[t - 1], x.span.start, x.span.end)))
  }

  lemma CheckAllFree(lines: seq<seq<Span>>, shown: seq<Entry>, x: PidSpan)
    requires LinesMirror(lines, shown, x.pid) && AllTidy(lines)
    ensures ChecksFree(lines, shown, x)
  {
    forall t: nat | 1 <= t
      ensures FreeLine(shown, x, t) <==> (t <= |lines| ==> !CheckOverlap(lines[t - 1], x.span.start, x.span.end))
    {
      CheckIsFree(lines, shown, x, t);
    }
  }

  lemma StepPlacedRight(l: Layout, earlier: seq<Entry>, request: seq<Entry>, x: PidSpan)
    requires l.Valid() && Mirrors(l, earlier + request, request, x.pid)
    requires AllTidy(On(l.lines, x.pid)) && x.span.start != x.span.end
    ensures PlacedRight(earlier, request, x, PlaceStep(l, x).status[x.pid])
  {
    var lines, shown := On(l.lines, x.pid), earlier + request;
    var i := FindLine(l.BoardOf(x.pid), x.span);
    StepEffect(l, x, x.pid, i);
    CheckAllFree(lines, shown, x);
    LineIsRight(lines, Current(l.status, x.pid), shown, x);
  }

  lemma LineIsRight(lines: seq<seq<Span>>, current: Option<nat>, shown: seq<Entry>, x: PidSpan)
    requires Board(lines, current).Valid() && x.span.start != x.span.end && ChecksFree(lines, shown, x)
    ensures var tid := FindLine(Board(lines, current), x.span) + 1;
            if current.Some? && FreeLine(shown, x, current.value + 1) then tid == current.value + 1
            else FreeLine(shown, x, tid) && forall t :: 1 <= t < tid ==> !FreeLine(shown, x, t)
  {
    if !(current.Some? && FreeLine(shown, x, current.value + 1)) {
      var tid := FirstFree(lines, x.span) + 1;
      forall t | 1 <= t < tid
        ensures !FreeLine(shown, x, t)
      {
        assert CheckOverlap(lines[t - 1], x.span.start, x.span.end);
      }
    }
  }

  // ---- Over a request, and over all requests ----

  lemma EntriesAppend(xs: seq<PidSpan>, x: PidSpan, tids: seq<nat>, tid: nat)
    requires |xs| == |tids|
    ensures Entries(xs + [x], tids + [tid]) == Entries(xs, tids) + [Entry(x, tid)]
  {
  }

  /** A request placed after what was shown earlier. */
  ghost predicate RunMirrored(l: Layout, earlier: seq<Entry>, xs: seq<PidSpan>, p: Pid)
    requires l.Valid()
  {
    var request := Entries(xs, Tids(l, xs));
    Mirrors(PlaceRun(l, xs), earlier + request, request, p)
  }

  lemma RunMirrorsNext(l: Layout, earlier: seq<Entry>, xs: seq<PidSpan>, x: PidSpan, p: Pid)
    requires l.Valid() && RunMirrored(l, earlier, xs, p)
    ensures RunMirrored(l, earlier, xs + [x], p)
  {
    var mid, request := PlaceRun(l, xs), Entries(xs, Tids(l, xs));
    var e := Entry(x, PlaceStep(mid, x).status[x.pid]);
    StepMirrors(mid, earlier + request, request, x, p);
    PlaceRunAppend(l, xs, x);
    EntriesAppend(xs, x, Tids(l, xs), e.tid);
    assert earlier + request + [e] == earlier + (request + [e]);
  }

  lemma {:induction false} RunMirrors(l: Layout, earlier: seq<Entry>, xs: seq<PidSpan>, p: Pid)
    requires l.Valid() && Mirrors(l, earlier, [], p)
    ensures RunMirrored(l, earlier, xs, p)
  {
    if xs == [] {
      assert earlier + [] == earlier;
    } else {
      var n := |xs| - 1;
      RunMirrors(l, earlier, xs[..n], p);
      RunMirrorsNext(l, earlier, xs[..n], xs[n], p);
      assert xs == xs[..n] + [xs[n]];
    }
  }

  lemma {:induction false} RequestsMirror(requests: seq<seq<PidSpan>>, p: Pid)
    ensures LinesMirror(On(PlaceRequests(requests).lines, p), History(requests, AllTids(requests)), p)
  {
    if requests != [] {
      var n := |requests| - 1;
      RequestsMirror(requests[..n], p);
      var l := PlaceRequests(requests[..n]).(status := map[]);
      assert AllTids(requests)[..n] == AllTids(requests[..n]);
      RunMirrors(l, History(requests[..n], AllTids(requests[..n])), requests[n], p);
    }
  }

  lemma PrefixOfLonger<T>(a: seq<T>, x: T, j: nat)
    requires j <= |a|
    ensures (a + [x])[..j] == a[..j] && (j == |a| ==> a[..j] == a)
  {
  }

  lemma {:induction false} TidsPrefix(l: Layout, xs: seq<PidSpan>, j: nat)
    requires l.Valid() && j < |xs|
    ensures Tids(l, xs)[..j] == Tids(l, xs[..j])
    ensures Tids(l, xs)[j] == PlaceStep(PlaceRun(l, xs[..j]), xs[j]).status[xs[j].pid]
  {
    var n := |xs| - 1;
    var before, x := xs[..n], xs[n];
    assert xs == before + [x];
    PlaceRunAppend(l, before, x);
    PrefixOfLonger(Tids(l, before), PlaceStep(PlaceRun(l, before), x).status[x.pid], j);
    PrefixOfLonger(before, x, j);
    if j < n {
      TidsPrefix(l, before, j);
    }
  }

  lemma {:induction false} AllTidsPrefix(requests: seq<seq<PidSpan>>, i: nat)
    requires i < |requests|
    ensures AllTids(requests)[..i] == AllTids(requests[..i])
    ensures AllTids(requests)[i] == Tids(PlaceRequests(requests[..i]).(status := map[]), requests[i])
  {
    var n := |requests| - 1;
    var before, xs := requests[..n], requests[n];
    assert requests == before + [xs];
    PlaceRequestsAppend(before, xs);
    PrefixOfLonger(AllTids(before), Tids(PlaceRequests(before).(status := map[]), xs), i);
    PrefixOfLonger(before, xs, i);
    if i < n {
      AllTidsPrefix(before, i);
    }
  }

  lemma {:induction false} OnPidPrefix(xs: seq<PidSpan>, p: Pid, j: nat)
    requires j <= |xs|
    ensures OnPid(xs[..j], p) <= OnPid(xs, p)
  {
    if j == |xs| {
      assert xs[..j] == xs;
    } else {
      OnPidPrefix(xs[..|xs| - 1], p, j);
      assert xs[..|xs| - 1][..j] == xs[..j];
    }
  }

  lemma PrefixLonger<T>(a: seq<T>, b: seq<T>, c: seq<T>)
    requires a <= b
    ensures a <= b + c
  {
  }

  lemma {:induction false} ProjectPrefix(requests: seq<seq<PidSpan>>, p: Pid, i: nat)
    requires i < |requests|
    ensures Flatten(Project(requests[..i], p)) + OnPid(requests[i], p) <= Flatten(Project(requests, p))
  {
    var n := |requests| - 1;
    var before, own := requests[..n], OnPid(requests[n], p);
    var flat := Flatten(Project(before, p));
    assert Flatten(Project(requests, p)) == flat + own by {
      FlattenAppend(Project(before, p), own);
    }
    if i < n {
      assert before[..i] == requests[..i];
      ProjectPrefix(before, p, i);
      PrefixLonger(Flatten(Project(requests[..i], p)) + OnPid(requests[i], p), flat, own);
    }
  }

  lemma NoneInstantPrefix(a: seq<Span>, b: seq<Span>, part: seq<Span>, all: seq<Span>)
    requires a + b <= all && part <= b && NoneInstant(all)
    ensures NoneInstant(a) && NoneInstant(part)
  {
    assert forall k :: 0 <= k < |a| ==> a[k] == all[k];
    assert forall k :: 0 <= k < |part| ==> part[k] == b[k] == (a + b)[|a| + k] == all[|a| + k];
  }

  lemma TidyBefore(requests: seq<seq<PidSpan>>, i: nat, j: nat, p: Pid)
    requires i < |requests| && j <= |requests[i]| && NoneInstant(Flatten(Project(requests, p)))
    ensures AllTidy(On(PlaceRun(PlaceRequests(requests[..i]).(status := map[]), requests[i][..j]).lines, p))
  {
    var l, xs := PlaceRequests(requests[..i]).(status := map[]), requests[i][..j];
    ProjectPrefix(requests, p, i);
    OnPidPrefix(requests[i], p, j);
    NoneInstantPrefix(Flatten(Project(requests[..i], p)), OnPid(requests[i], p), OnPid(xs, p), Flatten(Project(requests, p)));
    RequestsProject(requests[..i], p);
    RunAllTidy(Project(requests[..i], p));
    RunProjects(l, xs, p);
    RunTidy(l.BoardOf(p), OnPid(xs, p));
  }

  /** Every span of a trace is on the right line: where no span of its process ends where it starts, it stays on the
      line its own request last used there if nothing is in its way, and otherwise goes to the first free line. */
  lemma {:induction false} SpanPlacedRight(requests: seq<seq<PidSpan>>, i: nat, j: nat)
    requires i < |requests| && j < |requests[i]| && NoneInstant(Flatten(Project(requests, requests[i][j].pid)))
    ensures var tids := AllTids(requests);
            PlacedRight(History(requests[..i], tids[..i]), Entries(requests[i][..j], tids[i][..j]), requests[i][j], tids[i][j])
  {
    var x, xs := requests[i][j], requests[i];
    var l := PlaceRequests(requests[..i]).(status := map[]);
    AllTidsPrefix(requests, i);
    TidsPrefix(l, xs, j);
    var earlier, request := History(requests[..i], AllTids(requests[..i])), Entries(xs[..j], Tids(l, xs[..j]));
    RequestsMirror(requests[..i], x.pid);
    RunMirrors(l, earlier, xs[..j], x.pid);
    TidyBefore(requests, i, j, x.pid);
    NotInstant(requests, i, j);
    StepPlacedRight(PlaceRun(l, xs[..j]), earlier, request, x);
  }

  lemma NotInstant(requests: seq<seq<PidSpan>>, i: nat, j: nat)
    requires i < |requests| && j < |requests[i]| && NoneInstant(Flatten(Project(requests, requests[i][j].pid)))
    ensures requests[i][j].span.start != requests[i][j].span.end
  {
    var x := requests[i][j];
    OnPidFrom(requests[i], x.pid, x.span);
    ProjectPrefix(requests, x.pid, i);
    InPart(Flatten(Project(requests[..i], x.pid)), OnPid(requests[i], x.pid), Flatten(Project(requests, x.pid)), x.span);
  }

  lemma InPart(a: seq<Span>, b: seq<Span>, all: seq<Span>, y: Span)
    requires a + b <= all && y in b && NoneInstant(all)
    ensures y.start != y.end
  {
    NoneInstantPrefix(a, b, b, all);
  }

  // ---- Across requests ----

  /** Two spans one after the other, the second of which fits on the line of the first. */
  lemma TwoSpans(lines: seq<seq<Span>>, x: Span, y: Span)
    requires FirstFree(lines, x) == |lines| && x.start < y.start && x.end <= y.start
    ensures Run(Board(lines, None), [x, y]).lines == lines + [[x, y]]
  {
    var b := Board(lines, None);
    RunAppend(b, [], x);
    RunAppend(b, [x], y);
    assert [] + [x] == [x] && [x] + [y] == [x, y];
    InsertAtEnd([x], y);
    assert !CheckOverlap([x], y.start, y.end);
    assert (lines + [[x]])[|lines| := [x, y]] == lines + [[x, y]];
  }

  lemma OneSpan(lines: seq<seq<Span>>, x: Span)
    requires FirstFree(lines, x) == |lines|
    ensures Run(Board(lines, None), [x]).lines == lines + [[x]]
  {
    RunAppend(Board(lines, None), [], x);
    assert [] + [x] == [x];
  }

  /** Three requests of a process for which two lines would do take three: the later spans of the first two are
      placed before the third request, which overlaps both. */
  lemma AcrossRequestsNotOptimal()
    ensures var a, b, c := [Span(0, 2), Span(6, 7)], [Span(1, 3), Span(8, 9)], [Span(4, 10)];
            var other := [[Span(0, 2), Span(4, 10)], [Span(1, 3), Span(6, 7), Span(8, 9)]];
            && RunAll([a, b, c]) == [a, b, c]
            && AllTidy(other) && multiset(Flatten(other)) == multiset(Flatten([a, b, c]))
  {
    var a, b, c := [Span(0, 2), Span(6, 7)], [Span(1, 3), Span(8, 9)], [Span(4, 10)];
    ThreeRequests(a, b, c);
    TwoLinesDo();
  }

  lemma FirstRequest(a: seq<Span>)
    requires a == [Span(0, 2), Span(6, 7)]
    ensures RunAll([a]) == [a]
  {
    RunAllAppend([], a);
    TwoSpans([], a[0], a[1]);
    assert [] + [a] == [a];
  }

  lemma TwoRequests(a: seq<Span>, b: seq<Span>)
    requires a == [Span(0, 2), Span(6, 7)] && b == [Span(1, 3), Span(8, 9)]
    ensures RunAll([a, b]) == [a, b]
  {
    FirstRequest(a);
    RunAllAppend([a], b);
    assert CheckOverlap(a, 1, 3) by {
      assert Before(a, 1) == 1;
    }
    FirstFreeUnique([a], b[0], 1);
    TwoSpans([a], b[0], b[1]);
    assert [a] + [b] == [a, b];
  }

  lemma ThreeRequests(a: seq<Span>, b: seq<Span>, c: seq<Span>)
    requires a == [Span(0, 2), Span(6, 7)] && b == [Span(1, 3), Span(8, 9)] && c == [Span(4, 10)]
    ensures RunAll([a, b, c]) == [a, b, c]
  {
    TwoRequests(a, b);
    RunAllAppend([a, b], c);
    assert CheckOverlap(a, 4, 10) && CheckOverlap(b, 4, 10) by {
      assert Before(a, 4) == 1 && Before(b, 4) == 1;
    }
    FirstFreeUnique([a, b], c[0], 2);
    OneSpan([a, b], c[0]);
    assert [a, b] + [c] == [a, b, c];
  }

  lemma TwoLinesDo()
    ensures var a, b, c := [Span(0, 2), Span(6, 7)], [Span(1, 3), Span(8, 9)], [Span(4, 10)];
            var other := [[Span(0, 2), Span(4, 10)], [Span(1, 3), Span(6, 7), Span(8, 9)]];
            AllTidy(other) && multiset(Flatten(other)) == multiset(Flatten([a, b, c]))
  {
    var x, y := [Span(0, 2), Span(4, 10)], [Span(1, 3), Span(6, 7), Span(8, 9)];
    assert Tidy(x) && Tidy(y);
    BothTidy(x, y);
    Reshuffled(Span(0, 2), Span(6, 7), Span(1, 3), Span(8, 9), Span(4, 10));
  }

  lemma BothTidy(x: seq<Span>, y: seq<Span>)
    requires Tidy(x) && Tidy(y)
    ensures AllTidy([x, y])
  {
  }

  lemma Reshuffled(a: Span, a': Span, b: Span, b': Span, c: Span)
    ensures multiset(Flatten([[a, c], [b, a', b']])) == multiset(Flatten([[a, a'], [b, b'], [c]]))
  {
    var x, y := [[a, c], [b, a', b']], [[a, a'], [b, b'], [c]];
    assert Flatten(x) == [a, c] + [b, a', b'] by {
      FlattenAppend([[a, c]], [b, a', b']);
      FlattenOne([a, c]);
      assert [[a, c]] + [[b, a', b']] == x;
    }
    assert Flatten(y) == [a, a'] + [b, b'] + [c] by {
      FlattenThree([a, a'], [b, b'], [c]);
    }
    SameSpans(a, a', b, b', c);
  }

  lemma SameSpans(a: Span, a': Span, b: Span, b': Span, c: Span)
    ensures multiset([a, c] + [b, a', b']) == multiset([a, a'] + [b, b'] + [c])
  {
    assert [a, c] + [b, a', b'] == [a] + [c] + [b] + [a'] + [b'];
    assert [a, a'] + [b, b'] + [c] == [a] + [a'] + [b] + [b'] + [c];
    FiveParts([a], [c], [b], [a'], [b']);
    FiveParts([a], [a'], [b], [b'], [c]);
    Union(multiset([a]), multiset([a']), multiset([b]), multiset([b']), multiset([c]));
  }

  lemma FiveParts(a: seq<Span>, b: seq<Span>, c: seq<Span>, d: seq<Span>, e: seq<Span>)
    ensures multiset(a + b + c + d + e) == multiset(a) + multiset(b) + multiset(c) + multiset(d) + multiset(e)
  {
  }

  lemma Union(a: multiset<Span>, a': multiset<Span>, b: multiset<Span>, b': multiset<Span>, c: multiset<Span>)
    ensures a + c + b + a' + b' == a + a' + b + b' + c
  {
  }

  lemma FlattenThree(a: seq<Span>, b: seq<Span>, c: seq<Span>)
    ensures Flatten([a, b, c]) == a + b + c
  {
    FlattenAppend([a, b], c);
    FlattenAppend([a], b);
    FlattenOne(a);
    assert [a] + [b] == [a, b] && [a, b] + [c] == [a, b, c];
  }
}
