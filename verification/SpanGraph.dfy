/** The span layout as it is kept while a trace is converted: containers updated in place, one list of
    lines per process, and one slot record per line. */
module SpanGraph {
  import opened SpanLayout
  import opened Sorting
  import opened Sequences

  /** Engine processes have numbers; the gateway spans share one process of their own. */
  datatype Pid = Process(id: int) | Gateway

  class SpanLayoutContainer {
    var intervals: seq<Span>
    // The place of this container in the graph.
    ghost const pid: Pid
    ghost const line: nat

    constructor (ghost pid: Pid, ghost line: nat)
      ensures intervals == [] && this.pid == pid && this.line == line
    {
      intervals := [];
      this.pid, this.line := pid, line;
    }

    method HasOverlap(start: int, end: int) returns (overlap: bool)
      ensures overlap == CheckOverlap(intervals, start, end)
    {
      var idx := Before(intervals, start);
      if idx > 0 {
        if intervals[idx - 1].end > start {
          return true;
        }
      }
      if idx < |intervals| {
        if intervals[idx].start < end {
          return true;
        }
      }
      return false;
    }

    method InsertSpan(start: int, end: int)
      modifies this
      ensures intervals == Insert(old(intervals), Span(start, end))
      ensures multiset(intervals) == multiset(old(intervals)) + multiset{Span(start, end)}
      ensures old(TupleSorted(intervals)) ==> TupleSorted(intervals)
      ensures old(Tidy(intervals) && !CheckOverlap(intervals, start, end)) ==> Tidy(intervals)
    {
      if TupleSorted(intervals) {
        InsertTupleSorted(intervals, Span(start, end));
      }
      SpanLayout.InsertMultiset(intervals, Span(start, end));
      if Tidy(intervals) && !CheckOverlap(intervals, start, end) {
        CheckOverlapSeparates(intervals, Span(start, end));
        InsertTidy(intervals, Span(start, end));
      }
      intervals := Insert(intervals, Span(start, end));
    }
  }

  type Graph = map<Pid, seq<SpanLayoutContainer>>

  /** The lines of every process, as values. */
  type Lines = map<Pid, seq<seq<Span>>>

  function On<T>(m: map<Pid, seq<T>>, p: Pid): seq<T> {
    if p in m then m[p] else []
  }

  /** The line a request last used on a process, if any. Lines are numbered from 1. */
  function Current(status: map<Pid, nat>, pid: Pid): Option<nat> {
    if pid in status && 0 < status[pid] then Some(status[pid] - 1) else None
  }

  predicate StatusFits(status: map<Pid, nat>, lines: Lines) {
    forall p :: p in status ==> p in lines && 1 <= status[p] <= |lines[p]|
  }

  /** Everything a request reads and changes while its spans are placed. */
  datatype Layout = Layout(lines: Lines, slots: seq<(Pid, nat)>, status: map<Pid, nat>) {
    predicate Valid() {
      StatusFits(status, lines)
    }

    /** What one process looks like to the current request. */
    function BoardOf(p: Pid): (b: Board)
      requires Valid()
      ensures b.Valid()
    {
      Board(On(lines, p), Current(status, p))
    }
  }

  datatype PidSpan = PidSpan(pid: Pid, span: Span)

  /** One span placed: a slot is recorded exactly when a line is opened. */
  function PlaceStep(l: Layout, x: PidSpan): (r: Layout)
    requires l.Valid()
    ensures r.Valid()
  {
    var before := On(l.lines, x.pid);
    var i := FindLine(l.BoardOf(x.pid), x.span);
    Layout(l.lines[x.pid := PutOn(before, i, x.span)],
           l.slots + if i == |before| then [(x.pid, i + 1)] else [],
           l.status[x.pid := i + 1])
  }

  /** The spans of one request, placed one after another. */
  function PlaceRun(l: Layout, xs: seq<PidSpan>): (r: Layout)
    requires l.Valid()
    ensures r.Valid()
  {
    if xs == [] then l else PlaceStep(PlaceRun(l, xs[..|xs| - 1]), xs[|xs| - 1])
  }

  /** The line each span of a request is shown on. */
  function Tids(l: Layout, xs: seq<PidSpan>): (tids: seq<nat>)
    requires l.Valid()
    ensures |tids| == |xs|
  {
    if xs == [] then [] else Tids(l, xs[..|xs| - 1]) + [PlaceRun(l, xs).status[xs[|xs| - 1].pid]]
  }

  lemma PlaceRunAppend(l: Layout, xs: seq<PidSpan>, x: PidSpan)
    requires l.Valid()
    ensures PlaceRun(l, xs + [x]) == PlaceStep(PlaceRun(l, xs), x)
    ensures Tids(l, xs + [x]) == Tids(l, xs) + [PlaceStep(PlaceRun(l, xs), x).status[x.pid]]
  {
    assert (xs + [x])[..|xs|] == xs;
  }

  /** The requests one after another: each begins with an empty status. */
  function PlaceRequests(requests: seq<seq<PidSpan>>): (r: Layout)
    ensures r.Valid()
  {
    if requests == [] then Layout(map[], [], map[])
    else
      var n := |requests| - 1;
      PlaceRun(PlaceRequests(requests[..n]).(status := map[]), requests[n])
  }

  function AllTids(requests: seq<seq<PidSpan>>): (tids: seq<seq<nat>>)
    ensures |tids| == |requests| && forall i :: 0 <= i < |tids| ==> |tids[i]| == |requests[i]|
  {
    if requests == [] then []
    else
      var n := |requests| - 1;
      AllTids(requests[..n]) + [Tids(PlaceRequests(requests[..n]).(status := map[]), requests[n])]
  }

  lemma PlaceRequestsAppend(requests: seq<seq<PidSpan>>, xs: seq<PidSpan>)
    ensures var l := PlaceRequests(requests).(status := map[]);
            && PlaceRequests(requests + [xs]) == PlaceRun(l, xs)
            && AllTids(requests + [xs]) == AllTids(requests) + [Tids(l, xs)]
  {
    assert (requests + [xs])[..|requests|] == requests;
  }

  /** The graph of a conversion and the slot records beside it. */
  class LayoutGraph {
    var graph: Graph
    var slots: seq<(Pid, nat)>
    // What the containers hold, and the containers.
    ghost var lines: Lines
    ghost var repr: set<SpanLayoutContainer>

    constructor ()
      ensures Valid() && fresh(repr) && lines == map[] && slots == []
    {
      graph, slots := map[], [];
      lines, repr := map[], {};
    }

    ghost predicate Valid()
      reads this, repr
    {
      && lines.Keys == graph.Keys
      && (forall p :: p in graph ==> |lines[p]| == |graph[p]|)
      && (forall p, i :: p in graph && 0 <= i < |graph[p]| ==>
            && graph[p][i] in repr && graph[p][i].pid == p && graph[p][i].line == i
            && graph[p][i].intervals == lines[p][i])
    }

    /** Adds an empty line to a process, with its slot record. */
    method NewLine(pid: Pid) returns (line: nat)
      requires Valid()
      modifies this
      ensures Valid() && fresh(repr - old(repr))
      ensures line == |On(old(lines), pid)| + 1
      ensures lines == old(lines)[pid := On(old(lines), pid) + [[]]] && slots == old(slots) + [(pid, line)]
    {
      var containers := On(graph, pid);
      line := |containers| + 1;
      var c := new SpanLayoutContainer(pid, line - 1);
      graph := graph[pid := containers + [c]];
      slots := slots + [(pid, line)];
      lines, repr := lines[pid := On(lines, pid) + [[]]], repr + {c};
    }

    /** The first line of a known process that raises no conflict, or the number of lines. */
    method FindFree(pid: Pid, start: int, end: int) returns (i: nat)
      requires Valid() && pid in graph
      ensures i == FirstFree(lines[pid], Span(start, end))
    {
      var containers := graph[pid];
      i := 0;
      while i < |containers|
        invariant i <= |containers|
        invariant forall j :: 0 <= j < i ==> CheckOverlap(lines[pid][j], start, end)
      {
        var overlap := containers[i].HasOverlap(start, end);
        if !overlap {
          break;
        }
        i := i + 1;
      }
      FirstFreeUnique(lines[pid], Span(start, end), i);
    }

    /** The current line or the first free one, or 0 if a new line is needed. */
    method FindExisting(status: map<Pid, nat>, pid: Pid, start: int, end: int) returns (line: nat)
      requires Valid() && StatusFits(status, lines)
      ensures line <= |On(lines, pid)|
      ensures FindLine(Board(On(lines, pid), Current(status, pid)), Span(start, end)) == (if line == 0 then |On(lines, pid)| else line - 1)
    {
      if pid in status {
        line := status[pid];
        if start == end {
          return;
        }
        var overlap := graph[pid][line - 1].HasOverlap(start, end);
        if !overlap {
          return;
        }
      }
      if pid !in graph {
        return 0;
      }
      var free := FindFree(pid, start, end);
      line := if free < |graph[pid]| then free + 1 else 0;
    }

    /** Stores a span on a line; no other line changes. */
    method Store(pid: Pid, line: nat, start: int, end: int)
      requires Valid() && pid in lines && 1 <= line <= |lines[pid]|
      modifies this`lines, repr
      ensures Valid() && lines == old(lines)[pid := old(lines)[pid][line - 1 := Insert(old(lines)[pid][line - 1], Span(start, end))]]
    {
      var c := graph[pid][line - 1];
      c.InsertSpan(start, end);
      lines := lines[pid := lines[pid][line - 1 := c.intervals]];
    }

    /** `__find_line`: the line for a span, opened if need be. */
    method FindOrOpen(status: map<Pid, nat>, pid: Pid, start: int, end: int) returns (line: nat)
      requires Valid() && StatusFits(status, lines)
      modifies this
      ensures Valid() && fresh(repr - old(repr))
      ensures Found(Layout(old(lines), old(slots), status), PidSpan(pid, Span(start, end)), line, lines, slots)
    {
      line := FindExisting(status, pid, start, end);
      if line == 0 {
        line := NewLine(pid);
      }
    }

    /** Places one span: finds or opens its line, stores it there and records the line as current. */
    method Place(status: map<Pid, nat>, x: PidSpan) returns (line: nat, status': map<Pid, nat>)
      requires Valid() && StatusFits(status, lines)
      modifies this, repr
      ensures Valid() && fresh(repr - old(repr))
      ensures status' == status[x.pid := line]
      ensures Layout(lines, slots, status') == PlaceStep(Layout(old(lines), old(slots), status), x)
    {
      line := FindOrOpen(status, x.pid, x.span.start, x.span.end);
      StoredIsPlaced(Layout(old(lines), old(slots), status), x, line, lines, slots);
      Store(x.pid, line, x.span.start, x.span.end);
      status' := status[x.pid := line];
    }

    /** Places the spans of one request in the order given. */
    method PlaceRequest(xs: seq<PidSpan>) returns (tids: seq<nat>)
      requires Valid()
      modifies this, repr
      ensures Valid() && fresh(repr - old(repr))
      ensures Placed(Layout(old(lines), old(slots), map[]), xs, tids)
    {
      ghost var l := Layout(lines, slots, map[]);
      var status: map<Pid, nat>;
      tids, status := PlaceSpans(l, xs);
    }

    method PlaceSpans(ghost l: Layout, xs: seq<PidSpan>) returns (tids: seq<nat>, status: map<Pid, nat>)
      requires Valid() && l == Layout(lines, slots, map[])
      modifies this, repr
      ensures Valid() && fresh(repr - old(repr)) && PlacedSoFar(l, xs, tids, status)
    {
      tids, status := [], map[];
      for i := 0 to |xs|
        invariant Valid() && fresh(repr - old(repr)) && PlacedSoFar(l, xs[..i], tids, status)
      {
        var line;
        line, status := PlaceAfter(l, xs, i, tids, status);
        tids := tids + [line];
      }
      assert xs[..|xs|] == xs;
    }

    ghost predicate PlacedSoFar(l: Layout, done: seq<PidSpan>, tids: seq<nat>, status: map<Pid, nat>)
      reads this
    {
      l.Valid() && Layout(lines, slots, status) == PlaceRun(l, done) && tids == Tids(l, done)
    }

    /** A request was placed, its spans on these lines. */
    ghost predicate Placed(l: Layout, xs: seq<PidSpan>, tids: seq<nat>)
      reads this
    {
      l.Valid() && lines == PlaceRun(l, xs).lines && slots == PlaceRun(l, xs).slots && tids == Tids(l, xs)
    }

    method PlaceAfter(ghost l: Layout, xs: seq<PidSpan>, i: nat, ghost tids: seq<nat>, status: map<Pid, nat>)
      returns (line: nat, status': map<Pid, nat>)
      requires Valid() && i < |xs| && PlacedSoFar(l, xs[..i], tids, status)
      modifies this, repr
      ensures Valid() && fresh(repr - old(repr)) && PlacedSoFar(l, xs[..i + 1], tids + [line], status')
    {
      assert xs[..i] + [xs[i]] == xs[..i + 1];
      PlaceRunAppend(l, xs[..i], xs[i]);
      line, status' := Place(status, xs[i]);
    }

    /** The graph holds the layout of these requests, each span on the line it was given. */
    ghost predicate Holds(requests: seq<seq<PidSpan>>, tids: seq<seq<nat>>)
      reads this, repr
    {
      && Valid()
      && lines == PlaceRequests(requests).lines && slots == PlaceRequests(requests).slots
      && tids == AllTids(requests)
    }

    /** Places one request after those already placed. */
    method PlaceNext(ghost done: seq<seq<PidSpan>>, ghost tids: seq<seq<nat>>, xs: seq<PidSpan>) returns (shown: seq<nat>)
      requires Holds(done, tids)
      modifies this, repr
      ensures Holds(done + [xs], tids + [shown]) && fresh(repr - old(repr))
    {
      PlaceRequestsAppend(done, xs);
      shown := PlaceRequest(xs);
    }

    /** Places the requests one after another. */
    method PlaceOrder(requests: seq<seq<PidSpan>>) returns (tids: seq<seq<nat>>)
      requires Valid() && lines == map[] && slots == []
      modifies this, repr
      ensures Holds(requests, tids)
    {
      tids := [];
      ghost var done: seq<seq<PidSpan>> := [];
      for i := 0 to |requests|
        invariant done == requests[..i]
        invariant Holds(done, tids) && fresh(repr - old(repr))
      {
        assert requests[..i] + [requests[i]] == requests[..i + 1];
        var shown := PlaceNext(done, tids, requests[i]);
        done, tids := done + [requests[i]], tids + [shown];
      }
      assert done == requests;
    }
  }

  /** A line was chosen and, if need be, opened. */
  ghost predicate Found(l: Layout, x: PidSpan, line: nat, lines: Lines, slots: seq<(Pid, nat)>)
    requires l.Valid()
  {
    && line == FindLine(l.BoardOf(x.pid), x.span) + 1
    && if line <= |On(l.lines, x.pid)| then lines == l.lines && slots == l.slots
       else lines == l.lines[x.pid := On(l.lines, x.pid) + [[]]] && slots == l.slots + [(x.pid, line)]
  }

  lemma StoredIsPlaced(l: Layout, x: PidSpan, line: nat, lines: Lines, slots: seq<(Pid, nat)>)
    requires l.Valid() && Found(l, x, line, lines, slots)
    ensures x.pid in lines && 1 <= line <= |lines[x.pid]|
    ensures Layout(lines[x.pid := lines[x.pid][line - 1 := Insert(lines[x.pid][line - 1], x.span)]], slots, l.status[x.pid := line])
         == PlaceStep(l, x)
  {
    var before := On(l.lines, x.pid);
    if line <= |before| {
      assert l.slots + [] == l.slots;
    } else {
      assert Insert([], x.span) == [x.span];
      assert (before + [[]])[line - 1 := [x.span]] == before + [[x.span]];
    }
  }

  lemma FirstFreeUnique(lines: seq<seq<Span>>, x: Span, i: nat)
    requires i <= |lines| && (i < |lines| ==> !CheckOverlap(lines[i], x.start, x.end))
    requires forall j :: 0 <= j < i ==> CheckOverlap(lines[j], x.start, x.end)
    ensures i == FirstFree(lines, x)
  {
    assert FirstFree(lines, x) <= |lines|;
  }

  // ---- What a whole layout looks like ----

  function Own(x: PidSpan, p: Pid): seq<Span> {
    if x.pid == p then [x.span] else []
  }

  /** The spans of one process, in order. */
  function OnPid(xs: seq<PidSpan>, p: Pid): seq<Span> {
    if xs == [] then [] else OnPid(xs[..|xs| - 1], p) + Own(xs[|xs| - 1], p)
  }

  function Project(requests: seq<seq<PidSpan>>, p: Pid): (r: seq<seq<Span>>)
    ensures |r| == |requests|
  {
    if requests == [] then []
    else Project(requests[..|requests| - 1], p) + [OnPid(requests[|requests| - 1], p)]
  }

  lemma StepProjects(l: Layout, x: PidSpan, p: Pid)
    requires l.Valid()
    ensures PlaceStep(l, x).BoardOf(p) == if x.pid == p then Step(l.BoardOf(p), x.span) else l.BoardOf(p)
  {
  }

  lemma RunOwn(b: Board, spans: seq<Span>, x: PidSpan, p: Pid)
    requires b.Valid()
    ensures Run(b, spans + Own(x, p)) == if x.pid == p then Step(Run(b, spans), x.span) else Run(b, spans)
  {
    if x.pid == p {
      assert (spans + [x.span])[..|spans|] == spans;
    } else {
      assert spans + [] == spans;
    }
  }

  /** The processes do not influence one another: each sees a run of its own spans. */
  lemma {:induction false} RunProjects(l: Layout, xs: seq<PidSpan>, p: Pid)
    requires l.Valid()
    ensures PlaceRun(l, xs).BoardOf(p) == Run(l.BoardOf(p), OnPid(xs, p))
  {
    if xs != [] {
      var n := |xs| - 1;
      RunProjects(l, xs[..n], p);
      StepProjects(PlaceRun(l, xs[..n]), xs[n], p);
      RunOwn(l.BoardOf(p), OnPid(xs[..n], p), xs[n], p);
    }
  }

  lemma RunAllAppend(requests: seq<seq<Span>>, x: seq<Span>)
    ensures RunAll(requests + [x]) == Run(Board(RunAll(requests), None), x).lines
    ensures Flatten(requests + [x]) == Flatten(requests) + x
  {
    assert (requests + [x])[..|requests|] == requests;
  }

  lemma {:induction false} RequestsProject(requests: seq<seq<PidSpan>>, p: Pid)
    ensures On(PlaceRequests(requests).lines, p) == RunAll(Project(requests, p))
  {
    if requests != [] {
      var n := |requests| - 1;
      RequestsProject(requests[..n], p);
      RunProjects(PlaceRequests(requests[..n]).(status := map[]), requests[n], p);
      RunAllAppend(Project(requests[..n], p), OnPid(requests[n], p));
    }
  }

  /** The line numbers recorded for a process, in order. */
  function Recorded(slots: seq<(Pid, nat)>, p: Pid): seq<nat> {
    if slots == [] then []
    else
      var n := |slots| - 1;
      Recorded(slots[..n], p) + if slots[n].0 == p then [slots[n].1] else []
  }

  /** The numbers 1..n. */
  function UpTo(n: nat): seq<nat> {
    if n == 0 then [] else UpTo(n - 1) + [n]
  }

  ghost predicate Records(l: Layout, p: Pid) {
    Recorded(l.slots, p) == UpTo(|On(l.lines, p)|)
  }

  lemma RecordedAppend(slots: seq<(Pid, nat)>, pid: Pid, line: nat, p: Pid)
    ensures Recorded(slots + [(pid, line)], p) == Recorded(slots, p) + if pid == p then [line] else []
  {
    assert (slots + [(pid, line)])[..|slots|] == slots;
  }

  /** A step opens at most one line, on the process of its span. */
  lemma StepOpens(l: Layout, x: PidSpan, p: Pid)
    requires l.Valid()
    ensures var r, n := PlaceStep(l, x), |On(l.lines, x.pid)|;
            if FindLine(l.BoardOf(x.pid), x.span) == n then
              && r.slots == l.slots + [(x.pid, n + 1)]
              && |On(r.lines, p)| == |On(l.lines, p)| + if p == x.pid then 1 else 0
            else r.slots == l.slots && |On(r.lines, p)| == |On(l.lines, p)|
  {
  }

  lemma OpenRecords(slots: seq<(Pid, nat)>, pid: Pid, own: nat, p: Pid, n: nat)
    requires Recorded(slots, p) == UpTo(n) && (pid == p ==> own == n)
    ensures Recorded(slots + [(pid, own + 1)], p) == UpTo(n + if p == pid then 1 else 0)
  {
    RecordedAppend(slots, pid, own + 1, p);
  }

  lemma StepRecords(l: Layout, x: PidSpan, p: Pid)
    requires l.Valid() && Records(l, p)
    ensures Records(PlaceStep(l, x), p)
  {
    StepOpens(l, x, p);
    OpenRecords(l.slots, x.pid, |On(l.lines, x.pid)|, p, |On(l.lines, p)|);
  }

  lemma {:induction false} RunRecords(l: Layout, xs: seq<PidSpan>, p: Pid)
    requires l.Valid() && Records(l, p)
    ensures Records(PlaceRun(l, xs), p)
  {
    if xs != [] {
      RunRecords(l, xs[..|xs| - 1], p);
      StepRecords(PlaceRun(l, xs[..|xs| - 1]), xs[|xs| - 1], p);
    }
  }

  /** The lines of a process are 1..n, with one slot record for each, in order. */
  lemma {:induction false} RequestsRecord(requests: seq<seq<PidSpan>>, p: Pid)
    ensures Records(PlaceRequests(requests), p)
  {
    if requests != [] {
      var n := |requests| - 1;
      RequestsRecord(requests[..n], p);
      var l := PlaceRequests(requests[..n]).(status := map[]);
      assert Records(l, p);
      RunRecords(l, requests[n], p);
    }
  }

  /** The span is shown on that line of its process. */
  predicate Shows(lines: Lines, x: PidSpan, tid: nat) {
    x.pid in lines && 1 <= tid <= |lines[x.pid]| && x.span in lines[x.pid][tid - 1]
  }

  lemma {:induction false} InsertMember(line: seq<Span>, x: Span, y: Span)
    requires y in line || y == x
    ensures y in Insert(line, x)
  {
    SpanLayout.InsertMultiset(line, x);
    assert y in multiset(Insert(line, x));
  }

  lemma {:induction false} StepShows(l: Layout, x: PidSpan, y: PidSpan, tid: nat)
    requires l.Valid()
    requires Shows(l.lines, y, tid) || (y == x && tid == PlaceStep(l, x).status[x.pid])
    ensures Shows(PlaceStep(l, x).lines, y, tid)
  {
    var i := FindLine(l.BoardOf(x.pid), x.span);
    if y.pid == x.pid && tid == i + 1 <= |On(l.lines, x.pid)| {
      InsertMember(l.lines[x.pid][i], x.span, y.span);
    }
  }

  /** Once shown, a span stays on its line. */
  lemma {:induction false} RunKeeps(l: Layout, xs: seq<PidSpan>, y: PidSpan, tid: nat)
    requires l.Valid() && Shows(l.lines, y, tid)
    ensures Shows(PlaceRun(l, xs).lines, y, tid)
  {
    if xs != [] {
      var n := |xs| - 1;
      RunKeeps(l, xs[..n], y, tid);
      StepShows(PlaceRun(l, xs[..n]), xs[n], y, tid);
    }
  }

  lemma {:induction false} RunShows(l: Layout, xs: seq<PidSpan>, i: nat)
    requires l.Valid() && i < |xs|
    ensures Shows(PlaceRun(l, xs).lines, xs[i], Tids(l, xs)[i])
  {
    var n := |xs| - 1;
    if i < n {
      RunShows(l, xs[..n], i);
    }
    StepShows(PlaceRun(l, xs[..n]), xs[n], xs[i], Tids(l, xs)[i]);
  }

  // ---- The layout of a whole trace ----

  function StartOf(x: PidSpan): int {
    x.span.start
  }

  function FirstStart(request: seq<PidSpan>): int {
    if request == [] then 0 else request[0].span.start
  }

  function EachSorted(requests: seq<seq<PidSpan>>): (r: seq<seq<PidSpan>>)
    ensures |r| == |requests| && forall i :: 0 <= i < |r| ==> r[i] == SortBy(requests[i], StartOf)
  {
    seq(|requests|, i requires 0 <= i < |requests| => SortBy(requests[i], StartOf))
  }

  /** Every request in start order, the requests by their first span, the gateway spans last. */
  function Order(engine: seq<seq<PidSpan>>, smg: seq<PidSpan>): seq<seq<PidSpan>> {
    SortBy(EachSorted(engine), FirstStart) + [SortBy(smg, StartOf)]
  }

  /** The same spans by their starts; spans that start together keep their order. */
  ghost predicate StartSorted(given: seq<PidSpan>, sorted: seq<PidSpan>) {
    exists places :: StartPlaces(given, sorted, places)
  }

  ghost predicate StartPlaces(given: seq<PidSpan>, sorted: seq<PidSpan>, places: seq<nat>) {
    StableOrder(given, sorted, (x: PidSpan) => x.span.start, places)
  }

  /** One for one the requests, each by its starts, in the order of their first spans; requests that start together
      keep their order. */
  ghost predicate RequestsOrdered(engine: seq<seq<PidSpan>>, order: seq<seq<PidSpan>>, places: seq<nat>) {
    && |places| == |order| == |engine|
    && (forall i, j :: 0 <= i < j < |places| ==> places[i] != places[j])
    && (forall i :: 0 <= i < |order| ==> places[i] < |engine| && order[i] != [] && StartSorted(engine[places[i]], order[i]))
    && (forall i, j :: 0 <= i < j < |order| ==>
          || order[i][0].span.start < order[j][0].span.start
          || (order[i][0].span.start == order[j][0].span.start && places[i] < places[j]))
  }

  /** The order in which spans are placed: the engine requests, then the gateway spans. */
  ghost predicate Ordered(engine: seq<seq<PidSpan>>, smg: seq<PidSpan>, order: seq<seq<PidSpan>>) {
    && |order| == |engine| + 1
    && (exists places :: RequestsOrdered(engine, order[..|engine|], places))
    && StartSorted(smg, order[|engine|])
  }

  lemma SortedByStart(xs: seq<PidSpan>)
    ensures StartSorted(xs, SortBy(xs, StartOf))
  {
    var places := SortPlaces(xs, StartOf);
    var sorted := SortBy(xs, StartOf);
    SameKeys(xs, sorted, StartOf, (x: PidSpan) => x.span.start, places);
    assert StartPlaces(xs, sorted, places);
  }

  lemma EachSource(engine: seq<seq<PidSpan>>) returns (places: seq<nat>)
    ensures StableOrder(EachSorted(engine), SortBy(EachSorted(engine), FirstStart), FirstStart, places)
    ensures |places| == |engine|
    ensures forall i :: 0 <= i < |engine| ==> places[i] < |engine| && StartSorted(engine[places[i]], SortBy(EachSorted(engine), FirstStart)[i])
  {
    places := SortPlaces(EachSorted(engine), FirstStart);
    forall i | 0 <= i < |engine|
      ensures StartSorted(engine[places[i]], SortBy(EachSorted(engine), FirstStart)[i])
    {
      SortedByStart(engine[places[i]]);
    }
  }

  lemma {:induction false} OrderIsOrdered(engine: seq<seq<PidSpan>>, smg: seq<PidSpan>)
    requires [] !in engine
    ensures Ordered(engine, smg, Order(engine, smg))
  {
    var sorted: seq<seq<PidSpan>> := SortBy(EachSorted(engine), FirstStart);
    var places := EachSource(engine);
    SortedByStart(smg);
    assert Order(engine, smg)[..|engine|] == sorted;
    forall i | 0 <= i < |engine|
      ensures sorted[i] != []
    {
      SortBySorts(engine[places[i]], StartOf);
      assert engine[places[i]] in engine;
    }
    forall i, j | 0 <= i < j < |engine|
      ensures || sorted[i][0].span.start < sorted[j][0].span.start
              || (sorted[i][0].span.start == sorted[j][0].span.start && places[i] < places[j])
    {
      assert InOrder(sorted, FirstStart, places, i, j);
    }
    assert RequestsOrdered(engine, sorted, places);
  }

  /** `generate_perfetto_span_layout`. A request without spans has no first span: an error. */
  method GenerateLayout(engine: seq<seq<PidSpan>>, smg: seq<PidSpan>)
    returns (ok: bool, g: LayoutGraph, order: seq<seq<PidSpan>>, tids: seq<seq<nat>>)
    ensures ok <==> [] !in engine
    ensures ok ==> order == Order(engine, smg) && Ordered(engine, smg, order) && g.Holds(order, tids)
  {
    g := new LayoutGraph();
    order, tids := [], [];
    ok := [] !in engine;
    if ok {
      order := SortBy(EachSorted(engine), FirstStart) + [SortBy(smg, StartOf)];
      OrderIsOrdered(engine, smg);
      tids := g.PlaceOrder(order);
    }
  }

  /** Every span is shown on the line it was given, whatever is placed later. */
  lemma {:induction false} RequestsShow(requests: seq<seq<PidSpan>>, i: nat, j: nat)
    requires i < |requests| && j < |requests[i]|
    ensures Shows(PlaceRequests(requests).lines, requests[i][j], AllTids(requests)[i][j])
  {
    var n := |requests| - 1;
    var before, xs := requests[..n], requests[n];
    var l := PlaceRequests(before).(status := map[]);
    assert requests == before + [xs];
    PlaceRequestsAppend(before, xs);
    if i < n {
      RequestsShow(before, i, j);
      assert AllTids(requests)[i] == AllTids(before)[i];
      RunKeeps(l, xs, requests[i][j], AllTids(before)[i][j]);
    } else {
      assert AllTids(requests)[i] == Tids(l, xs);
      RunShows(l, xs, j);
    }
  }

  lemma {:induction false} EachSortedFlat(requests: seq<seq<PidSpan>>)
    ensures multiset(Flatten(EachSorted(requests))) == multiset(Flatten(requests))
  {
    if requests != [] {
      var n := |requests| - 1;
      EachSortedFlat(requests[..n]);
      assert EachSorted(requests)[..n] == EachSorted(requests[..n]);
      SortBySorts(requests[n], StartOf);
    }
  }

  /** Neither sort loses or invents a span. */
  lemma {:induction false} OrderKeepsSpans(engine: seq<seq<PidSpan>>, smg: seq<PidSpan>)
    ensures multiset(Flatten(Order(engine, smg))) == multiset(Flatten(engine) + smg)
  {
    var sorted := SortBy(EachSorted(engine), FirstStart);
    FlattenConcat(sorted, [SortBy(smg, StartOf)]);
    FlattenOne(SortBy(smg, StartOf));
    SortBySorts(smg, StartOf);
    SortBySorts(EachSorted(engine), FirstStart);
    FlattenPermuted(sorted, EachSorted(engine));
    EachSortedFlat(engine);
  }

  lemma OwnCount(before: seq<Span>, x: PidSpan, p: Pid, span: Span)
    ensures multiset(before + Own(x, p))[span] == multiset(before)[span] + if x == PidSpan(p, span) then 1 else 0
  {
  }

  lemma LastCount<T>(xs: seq<T>, y: T)
    requires xs != []
    ensures multiset(xs)[y] == multiset(xs[..|xs| - 1])[y] + if xs[|xs| - 1] == y then 1 else 0
  {
    assert xs == xs[..|xs| - 1] + [xs[|xs| - 1]];
  }

  lemma {:induction false} OnPidCount(xs: seq<PidSpan>, p: Pid, span: Span)
    ensures multiset(OnPid(xs, p))[span] == multiset(xs)[PidSpan(p, span)]
  {
    if xs != [] {
      var n := |xs| - 1;
      OnPidCount(xs[..n], p, span);
      OwnCount(OnPid(xs[..n], p), xs[n], p, span);
      LastCount(xs, PidSpan(p, span));
    }
  }

  lemma {:induction false} ProjectCount(requests: seq<seq<PidSpan>>, p: Pid, span: Span)
    ensures multiset(Flatten(Project(requests, p)))[span] == multiset(Flatten(requests))[PidSpan(p, span)]
  {
    if requests != [] {
      var n := |requests| - 1;
      ProjectCount(requests[..n], p, span);
      RunAllAppend(Project(requests[..n], p), OnPid(requests[n], p));
      OnPidCount(requests[n], p, span);
    }
  }

  /** The spans given for a process. */
  function Given(engine: seq<seq<PidSpan>>, smg: seq<PidSpan>, p: Pid): seq<Span> {
    OnPid(Flatten(engine) + smg, p)
  }

  lemma OrderProjects(engine: seq<seq<PidSpan>>, smg: seq<PidSpan>, p: Pid)
    ensures multiset(Flatten(Project(Order(engine, smg), p))) == multiset(Given(engine, smg, p))
  {
    var order := Order(engine, smg);
    OrderKeepsSpans(engine, smg);
    forall span: Span
      ensures multiset(Flatten(Project(order, p)))[span] == multiset(Given(engine, smg, p))[span]
    {
      ProjectCount(order, p, span);
      OnPidCount(Flatten(engine) + smg, p, span);
    }
  }

  lemma LengthsPermuted(a: seq<Span>, b: seq<Span>)
    requires multiset(a) == multiset(b)
    ensures AllPositive(b) ==> AllPositive(a)
    ensures NoneInstant(b) ==> NoneInstant(a)
  {
    assert forall i :: 0 <= i < |a| ==> a[i] in multiset(a);
    assert forall i :: 0 <= i < |a| ==> a[i] in b;
  }

  /** The layout of a whole trace of spans that do not end where they start: on every process the lines are free of
      overlaps, hold exactly the spans of that process, and have one slot record each. */
  lemma {:induction false} LayoutIsSound(engine: seq<seq<PidSpan>>, smg: seq<PidSpan>, p: Pid)
    requires NoneInstant(Given(engine, smg, p))
    ensures var l := PlaceRequests(Order(engine, smg));
            && AllTidy(On(l.lines, p))
            && multiset(Flatten(On(l.lines, p))) == multiset(Given(engine, smg, p))
            && Records(l, p)
  {
    var order := Order(engine, smg);
    OrderProjects(engine, smg, p);
    LengthsPermuted(Flatten(Project(order, p)), Given(engine, smg, p));
    RequestsProject(order, p);
    RunAllTidy(Project(order, p));
    RunAllConserves(Project(order, p));
    RequestsRecord(order, p);
  }

  /** Where the spans of a process come in start order, no overlap-free layout of them has fewer lines. */
  lemma {:induction false} LayoutIsOptimal(engine: seq<seq<PidSpan>>, smg: seq<PidSpan>, p: Pid, other: seq<seq<Span>>)
    requires AllPositive(Given(engine, smg, p)) && ByStart(Flatten(Project(Order(engine, smg), p)))
    requires AllTidy(other) && multiset(Flatten(other)) == multiset(Given(engine, smg, p))
    ensures |On(PlaceRequests(Order(engine, smg)).lines, p)| <= |other|
  {
    var order := Order(engine, smg);
    OrderProjects(engine, smg, p);
    LengthsPermuted(Flatten(Project(order, p)), Given(engine, smg, p));
    RequestsProject(order, p);
    LinesOptimal(Project(order, p), other, 0);
  }

  // ---- Processes with a single source ----

  lemma {:induction false} OnPidFrom(xs: seq<PidSpan>, p: Pid, y: Span)
    ensures y in OnPid(xs, p) <==> PidSpan(p, y) in xs
  {
    if xs != [] {
      var n := |xs| - 1;
      OnPidFrom(xs[..n], p, y);
      assert xs == xs[..n] + [xs[n]];
    }
  }

  lemma {:induction false} OnPidByStart(xs: seq<PidSpan>, p: Pid)
    requires forall i, j :: 0 <= i < j < |xs| ==> xs[i].span.start <= xs[j].span.start
    ensures ByStart(OnPid(xs, p))
  {
    if xs != [] {
      var n := |xs| - 1;
      OnPidByStart(xs[..n], p);
      var before := OnPid(xs[..n], p);
      forall i | 0 <= i < |before|
        ensures before[i].start <= xs[n].span.start
      {
        OnPidFrom(xs[..n], p, before[i]);
      }
    }
  }

  lemma {:induction false} ProjectAt(requests: seq<seq<PidSpan>>, p: Pid, i: nat)
    requires i < |requests|
    ensures Project(requests, p)[i] == OnPid(requests[i], p)
  {
    if i < |requests| - 1 {
      ProjectAt(requests[..|requests| - 1], p, i);
    }
  }

  /** All spans of the process come from one request, or all from the gateway. */
  ghost predicate OneSource(engine: seq<seq<PidSpan>>, smg: seq<PidSpan>, p: Pid) {
    && (forall i, j :: 0 <= i < j < |engine| ==> OnPid(engine[i], p) == [] || OnPid(engine[j], p) == [])
    && (forall i :: 0 <= i < |engine| ==> OnPid(engine[i], p) == [] || OnPid(smg, p) == [])
  }

  ghost predicate AtMostOne(lists: seq<seq<Span>>) {
    forall i, j :: 0 <= i < j < |lists| ==> lists[i] == [] || lists[j] == []
  }

  lemma {:induction false} FlattenEmpty(lists: seq<seq<Span>>)
    requires forall i :: 0 <= i < |lists| ==> lists[i] == []
    ensures Flatten(lists) == []
  {
    if lists != [] {
      FlattenEmpty(lists[..|lists| - 1]);
    }
  }

  lemma {:induction false} FlattenByStart(lists: seq<seq<Span>>)
    requires AtMostOne(lists) && forall i :: 0 <= i < |lists| ==> ByStart(lists[i])
    ensures ByStart(Flatten(lists))
  {
    if lists != [] {
      var n := |lists| - 1;
      if lists[n] == [] {
        FlattenByStart(lists[..n]);
        assert Flatten(lists) == Flatten(lists[..n]);
      } else {
        FlattenEmpty(lists[..n]);
        assert Flatten(lists) == lists[n];
      }
    }
  }

  /** Sorting does not move spans between processes, and gives each process its spans in start order. */
  lemma SortedOnPid(given: seq<PidSpan>, sorted: seq<PidSpan>, p: Pid)
    requires StartSorted(given, sorted)
    ensures ByStart(OnPid(sorted, p)) && (OnPid(given, p) == [] ==> OnPid(sorted, p) == [])
  {
    var places :| StartPlaces(given, sorted, places);
    forall i, j | 0 <= i < j < |sorted|
      ensures sorted[i].span.start <= sorted[j].span.start
    {
      assert InOrder(sorted, (x: PidSpan) => x.span.start, places, i, j);
    }
    OnPidByStart(sorted, p);
    var own := OnPid(sorted, p);
    if OnPid(given, p) == [] && own != [] {
      OnPidFrom(sorted, p, own[0]);
      OnPidFrom(given, p, own[0]);
    }
  }

  lemma {:induction false} ProjectedLists(engine: seq<seq<PidSpan>>, smg: seq<PidSpan>, p: Pid) returns (places: seq<nat>)
    ensures |places| == |engine| && forall i, j :: 0 <= i < j < |places| ==> places[i] != places[j]
    ensures var lists := Project(Order(engine, smg), p);
            && |lists| == |engine| + 1 && (forall i :: 0 <= i < |lists| ==> ByStart(lists[i]))
            && (forall i :: 0 <= i < |engine| ==> places[i] < |engine| && (OnPid(engine[places[i]], p) == [] ==> lists[i] == []))
            && (OnPid(smg, p) == [] ==> lists[|engine|] == [])
  {
    var order, n := Order(engine, smg), |engine|;
    var sorted := SortBy(EachSorted(engine), FirstStart);
    places := EachSource(engine);
    SortedByStart(smg);
    SortedOnPid(smg, order[n], p);
    ProjectAt(order, p, n);
    forall i | 0 <= i < n
      ensures ByStart(Project(order, p)[i]) && (OnPid(engine[places[i]], p) == [] ==> Project(order, p)[i] == [])
    {
      ProjectAt(order, p, i);
      SortedOnPid(engine[places[i]], sorted[i], p);
    }
  }

  lemma {:induction false} OneSourceByStart(engine: seq<seq<PidSpan>>, smg: seq<PidSpan>, p: Pid)
    requires OneSource(engine, smg, p)
    ensures ByStart(Flatten(Project(Order(engine, smg), p)))
  {
    var places := ProjectedLists(engine, smg, p);
    var lists := Project(Order(engine, smg), p);
    forall i, j | 0 <= i < j < |lists|
      ensures lists[i] == [] || lists[j] == []
    {
      if j < |engine| {
        assert places[i] != places[j];
      }
    }
    FlattenByStart(lists);
  }

  /** The spans of a process that all come from one request, or all from the gateway, take as few lines as any
      layout of them without overlaps. */
  lemma {:induction false} OneSourceOptimal(engine: seq<seq<PidSpan>>, smg: seq<PidSpan>, p: Pid, other: seq<seq<Span>>)
    requires AllPositive(Given(engine, smg, p)) && OneSource(engine, smg, p)
    requires AllTidy(other) && multiset(Flatten(other)) == multiset(Given(engine, smg, p))
    ensures |On(PlaceRequests(Order(engine, smg)).lines, p)| <= |other|
  {
    OneSourceByStart(engine, smg, p);
    LayoutIsOptimal(engine, smg, p, other);
  }
}
