/** Dividing the cores of the NUMA nodes among the local workers. */
module CpuAllocation {
  import opened Arith
  import opened Sequences

  type Cores = seq<nat>

  // ---- Consecutive runs ----

  /** The id at `i` does not follow the one before it. */
  predicate BreakAt(cores: Cores, i: nat)
    requires i < |cores|
  {
    i == 0 || cores[i] != cores[i - 1] + 1
  }

  /** Where the run that ends before position `n` begins. */
  function RunStart(cores: Cores, n: nat): (b: nat)
    requires 0 < n <= |cores|
    ensures b < n && BreakAt(cores, b)
    ensures forall i :: b < i < n ==> !BreakAt(cores, i)
  {
    if BreakAt(cores, n - 1) then n - 1 else RunStart(cores, n - 1)
  }

  /** The first `n` ids, cut before every break. */
  function Runs(cores: Cores, n: nat): seq<Cores>
    requires n <= |cores|
  {
    if n == 0 then [] else Runs(cores, RunStart(cores, n)) + [cores[RunStart(cores, n)..n]]
  }

  predicate Consecutive(run: Cores) {
    forall i :: 0 < i < |run| ==> run[i] == run[i - 1] + 1
  }

  predicate Follows(a: Cores, b: Cores)
    requires a != [] && b != []
  {
    b[0] == a[|a| - 1] + 1
  }

  /** Nonempty runs of consecutive ids that cannot be joined with their neighbours. */
  ghost predicate MaximalRuns(runs: seq<Cores>) {
    && (forall i :: 0 <= i < |runs| ==> runs[i] != [] && Consecutive(runs[i]))
    && (forall i :: 0 < i < |runs| ==> !Follows(runs[i - 1], runs[i]))
  }

  lemma SliceConsecutive(cores: Cores, b: nat, n: nat)
    requires b < n <= |cores| && forall i :: b < i < n ==> !BreakAt(cores, i)
    ensures Consecutive(cores[b..n])
  {
    forall i | 0 < i < n - b
      ensures cores[b..n][i] == cores[b..n][i - 1] + 1
    {
      assert !BreakAt(cores, b + i);
    }
  }

  lemma {:induction false} LastRun(cores: Cores, n: nat)
    requires 0 < n <= |cores|
    ensures var r := Runs(cores, n); r != [] && var last := r[|r| - 1]; last != [] && last[|last| - 1] == cores[n - 1]
  {
  }

  lemma MaximalAppend(runs: seq<Cores>, run: Cores)
    requires MaximalRuns(runs) && run != [] && Consecutive(run)
    requires runs == [] || !Follows(runs[|runs| - 1], run)
    ensures MaximalRuns(runs + [run])
  {
  }

  lemma {:induction false} RunsFlatten(cores: Cores, n: nat)
    requires n <= |cores|
    ensures Flatten(Runs(cores, n)) == cores[..n]
  {
    if n > 0 {
      var b := RunStart(cores, n);
      RunsFlatten(cores, b);
      FlattenAppend(Runs(cores, b), cores[b..n]);
      assert cores[..b] + cores[b..n] == cores[..n];
    }
  }

  /** The runs are the maximal runs of consecutive ids, in order, and make up the ids again. */
  lemma {:induction false} RunsMaximal(cores: Cores, n: nat)
    requires n <= |cores|
    ensures MaximalRuns(Runs(cores, n)) && Flatten(Runs(cores, n)) == cores[..n]
  {
    RunsFlatten(cores, n);
    if n > 0 {
      var b := RunStart(cores, n);
      RunsMaximal(cores, b);
      SliceConsecutive(cores, b, n);
      if b > 0 {
        LastRun(cores, b);
      }
      MaximalAppend(Runs(cores, b), cores[b..n]);
    }
  }

  lemma {:induction false} RunStartIs(cores: Cores, b: nat, n: nat)
    requires b < n <= |cores| && BreakAt(cores, b) && forall i :: b < i < n ==> !BreakAt(cores, i)
    ensures RunStart(cores, n) == b
    decreases n
  {
    if b < n - 1 {
      RunStartIs(cores, b, n - 1);
    }
  }

  /** The breaks among the first `n` ids, other than the start. */
  ghost predicate AreBreaks(split: seq<nat>, cores: Cores, n: nat)
    requires n <= |cores|
  {
    && (forall k :: 0 <= k < |split| ==> 0 < split[k] < n)
    && (forall k, l :: 0 <= k < l < |split| ==> split[k] < split[l])
    && (forall i :: 0 < i < n ==> (BreakAt(cores, i) <==> i in split))
  }

  method SplitIndex(node: Cores, quota: nat) returns (split: seq<nat>)
    requires 0 < quota <= |node|
    ensures AreBreaks(split, node, quota)
  {
    split := [];
    for i := 1 to quota
      invariant AreBreaks(split, node, i)
    {
      if node[i] != node[i - 1] + 1 {
        split := split + [i];
      }
    }
  }

  method CutAt(node: Cores, quota: nat, split: seq<nat>) returns (ret: seq<Cores>)
    requires 0 < quota <= |node| && AreBreaks(split, node, quota)
    ensures ret == Runs(node, quota)
  {
    ret := [];
    var last, left := 0, quota;
    for k := 0 to |split|
      invariant last == if k == 0 then 0 else split[k - 1]
      invariant left == quota - last && ret == Runs(node, last)
    {
      NextBreak(split, node, quota, k);
      RunStartIs(node, last, split[k]);
      ret := ret + [node[last..split[k]]];
      left := left - (split[k] - last);
      last := split[k];
    }
    NextBreak(split, node, quota, |split|);
    RunStartIs(node, last, quota);
    ret := ret + [node[last..last + left]];
  }

  /** Between two recorded breaks there is no other. */
  lemma NextBreak(split: seq<nat>, cores: Cores, n: nat, k: nat)
    requires 0 < n <= |cores| && AreBreaks(split, cores, n) && k <= |split|
    ensures var from, to := if k == 0 then 0 else split[k - 1], if k == |split| then n else split[k];
            from < to <= n && BreakAt(cores, from) && forall i :: from < i < to ==> !BreakAt(cores, i)
  {
    var from, to := if k == 0 then 0 else split[k - 1], if k == |split| then n else split[k];
    assert k > 0 ==> split[k - 1] in split;
    assert forall j :: 0 <= j < k ==> split[j] <= from;
    assert forall j :: k <= j < |split| ==> to <= split[j];
    assert forall i :: from < i < to ==> i !in split;
  }

  lemma {:induction false} RunsPrefix(cores: Cores, m: nat, n: nat)
    requires n <= m <= |cores|
    ensures Runs(cores[..m], n) == Runs(cores, n)
  {
    if n > 0 {
      var b := RunStart(cores, n);
      assert forall i :: b <= i < n ==> (BreakAt(cores[..m], i) <==> BreakAt(cores, i));
      RunStartIs(cores[..m], b, n);
      RunsPrefix(cores, m, b);
      assert cores[..m][b..n] == cores[b..n];
    }
  }

  // ---- One allocation ----

  /** What a worker is given: the runs of its cores and, with hyperthreading, the siblings of the last
      run only. */
  function Grant(cores: Cores, cpuNum: nat, mt: bool): seq<Cores>
    requires cores != []
  {
    WithSiblings(Runs(cores, |cores|), cpuNum, mt)
  }

  function Siblings(run: Cores, cpuNum: nat): (r: Cores)
    ensures |r| == |run|
  {
    seq(|run|, i requires 0 <= i < |run| => run[i] + cpuNum)
  }

  function WithSiblings(runs: seq<Cores>, cpuNum: nat, mt: bool): seq<Cores> {
    if mt && runs != [] then runs + [Siblings(runs[|runs| - 1], cpuNum)] else runs
  }

  /** The first node with at least `quota` cores, or the number of nodes. */
  function FirstFit(nodes: seq<Cores>, quota: nat): (f: nat)
    ensures f <= |nodes| && (f < |nodes| ==> quota <= |nodes[f]|)
    ensures forall i :: 0 <= i < f ==> |nodes[i]| < quota
  {
    if nodes == [] || quota <= |nodes[0]| then 0 else 1 + FirstFit(nodes[1..], quota)
  }

  /** The size of the largest node. */
  function Largest(nodes: seq<Cores>): (m: nat)
    ensures forall i :: 0 <= i < |nodes| ==> |nodes[i]| <= m
  {
    if nodes == [] then 0
    else
      var m := Largest(nodes[1..]);
      if |nodes[0]| > m then |nodes[0]| else m
  }

  lemma {:induction false} FitsIff(nodes: seq<Cores>, quota: nat)
    requires quota > 0
    ensures FirstFit(nodes, quota) < |nodes| <==> quota <= Largest(nodes)
  {
    if nodes != [] {
      FitsIff(nodes[1..], quota);
    }
  }

  lemma FirstFitIs(nodes: seq<Cores>, quota: nat, f: nat)
    requires f <= |nodes| && (f < |nodes| ==> quota <= |nodes[f]|)
    requires forall i :: 0 <= i < f ==> |nodes[i]| < quota
    ensures f == FirstFit(nodes, quota)
  {
    assert FirstFit(nodes, quota) <= |nodes|;
  }

  function Taken(nodes: seq<Cores>, k: nat): (cores: Cores)
    requires FirstFit(nodes, k) < |nodes|
    ensures |cores| == k
  {
    nodes[FirstFit(nodes, k)][..k]
  }

  function Rest(nodes: seq<Cores>, k: nat): (left: seq<Cores>)
    requires FirstFit(nodes, k) < |nodes|
  {
    var f := FirstFit(nodes, k);
    nodes[f := nodes[f][k..]]
  }

  /** Deletes the first `quota` ids of a node, from the last to the first. */
  method DeleteFirst(nodes: array<Cores>, f: nat, quota: nat)
    requires f < nodes.Length && quota <= |nodes[f]|
    modifies nodes
    ensures nodes[..] == old(nodes[..])[f := old(nodes[f])[quota..]]
  {
    ghost var node := nodes[f];
    var idx := quota;
    while idx > 0
      invariant 0 <= idx <= quota && nodes[f] == node[..idx] + node[quota..]
      invariant forall i :: 0 <= i < nodes.Length && i != f ==> nodes[i] == old(nodes[i])
    {
      idx := idx - 1;
      nodes[f] := nodes[f][..idx] + nodes[f][idx + 1..];
    }
    assert nodes[f] == node[quota..];
  }

  /** `_get_allocation`. */
  method GetAllocation(nodes: array<Cores>, quota: int, cpuNum: nat, mt: bool) returns (r: Result<seq<Cores>>)
    modifies nodes
    ensures r.Err? <==> quota < 1
    ensures quota < 1 || FirstFit(old(nodes[..]), quota) == nodes.Length ==> nodes[..] == old(nodes[..])
    ensures quota >= 1 && FirstFit(old(nodes[..]), quota) == nodes.Length ==> r == Ok([])
    ensures quota >= 1 && FirstFit(old(nodes[..]), quota) < nodes.Length ==>
              && r == Ok(Grant(Taken(old(nodes[..]), quota), cpuNum, mt))
              && nodes[..] == Rest(old(nodes[..]), quota)
  {
    if quota < 1 {
      return Err;
    }
    var f := 0;
    while f < nodes.Length && |nodes[f]| < quota
      invariant f <= nodes.Length && forall i :: 0 <= i < f ==> |nodes[i]| < quota
    {
      f := f + 1;
    }
    FirstFitIs(nodes[..], quota, f);
    if f == nodes.Length {
      return Ok([]);
    }
    var split := SplitIndex(nodes[f], quota);
    var runs := CutAt(nodes[f], quota, split);
    RunsPrefix(nodes[f], quota, quota);
    r := Ok(WithSiblings(runs, cpuNum, mt));
    DeleteFirst(nodes, f, quota);
  }

  // ---- All allocations ----

  /** How many cores a worker gets: its quota, or the largest remaining node. */
  function Amount(nodes: seq<Cores>, quota: int): (k: nat)
    ensures k > 0 ==> FirstFit(nodes, k) < |nodes|
  {
    if quota <= 0 then 0
    else if quota <= Largest(nodes) then FitsIff(nodes, quota); quota
    else if Largest(nodes) == 0 then 0
    else FitsIff(nodes, Largest(nodes)); Largest(nodes)
  }

  /** The cores of every worker that got any, and what is left. */
  datatype Outcome = Outcome(taken: seq<Cores>, left: seq<Cores>)

  function ServeOne(o: Outcome, quota: int): Outcome {
    var k := Amount(o.left, quota);
    if k == 0 then o else Outcome(o.taken + [Taken(o.left, k)], Rest(o.left, k))
  }

  function Serve(nodes: seq<Cores>, quotas: seq<int>): Outcome {
    if quotas == [] then Outcome([], nodes)
    else ServeOne(Serve(nodes, quotas[..|quotas| - 1]), quotas[|quotas| - 1])
  }

  lemma ServeAppend(nodes: seq<Cores>, quotas: seq<int>, quota: int)
    ensures Serve(nodes, quotas + [quota]) == ServeOne(Serve(nodes, quotas), quota)
  {
    assert (quotas + [quota])[..|quotas|] == quotas;
  }

  predicate AllNonempty(taken: seq<Cores>) {
    forall i :: 0 <= i < |taken| ==> taken[i] != []
  }

  lemma {:induction false} ServedNonempty(nodes: seq<Cores>, quotas: seq<int>)
    ensures AllNonempty(Serve(nodes, quotas).taken)
  {
    if quotas != [] {
      ServedNonempty(nodes, quotas[..|quotas| - 1]);
    }
  }

  function Grants(taken: seq<Cores>, cpuNum: nat, mt: bool): (r: seq<seq<Cores>>)
    requires AllNonempty(taken)
    ensures |r| == |taken|
  {
    seq(|taken|, i requires 0 <= i < |taken| => Grant(taken[i], cpuNum, mt))
  }

  lemma GrantsAppend(taken: seq<Cores>, cores: Cores, cpuNum: nat, mt: bool)
    requires AllNonempty(taken) && cores != []
    ensures AllNonempty(taken + [cores])
    ensures Grants(taken + [cores], cpuNum, mt) == Grants(taken, cpuNum, mt) + [Grant(cores, cpuNum, mt)]
  {
  }

  /** The nodes and the allocations after these quotas. */
  ghost predicate Served(nodes: seq<Cores>, quotas: seq<int>, left: seq<Cores>, ret: seq<seq<Cores>>, cpuNum: nat, mt: bool) {
    var o := Serve(nodes, quotas);
    left == o.left && AllNonempty(o.taken) && ret == Grants(o.taken, cpuNum, mt)
  }

  /** Lowers the quota of one worker until some node can meet it. */
  method AllocateOne(nodes: array<Cores>, quota: int, cpuNum: nat, mt: bool) returns (allocation: seq<Cores>)
    modifies nodes
    ensures var k := Amount(old(nodes[..]), quota);
            if k == 0 then allocation == [] && nodes[..] == old(nodes[..])
            else allocation == Grant(Taken(old(nodes[..]), k), cpuNum, mt) && nodes[..] == Rest(old(nodes[..]), k)
    ensures allocation == [] <==> Amount(old(nodes[..]), quota) == 0
  {
    var q := quota;
    while q > 0
      invariant q <= quota && nodes[..] == old(nodes[..])
      invariant q < quota ==> Largest(nodes[..]) <= q && 0 <= q
    {
      FitsIff(nodes[..], q);
      var r := GetAllocation(nodes, q, cpuNum, mt);
      if r.value != [] {
        return r.value;
      }
      q := q - 1;
    }
    allocation := [];
  }

  method AllocateNext(nodes: array<Cores>, ghost was: seq<Cores>, ghost done: seq<int>, ret: seq<seq<Cores>>, quota: int, cpuNum: nat, mt: bool)
    returns (ret': seq<seq<Cores>>)
    requires Served(was, done, nodes[..], ret, cpuNum, mt)
    modifies nodes
    ensures Served(was, done + [quota], nodes[..], ret', cpuNum, mt)
  {
    ServeAppend(was, done, quota);
    ghost var o := Serve(was, done);
    if Amount(o.left, quota) > 0 {
      GrantsAppend(o.taken, Taken(o.left, Amount(o.left, quota)), cpuNum, mt);
    }
    var allocation := AllocateOne(nodes, quota, cpuNum, mt);
    ret' := if allocation != [] then ret + [allocation] else ret;
  }

  method AllocateAll(nodes: array<Cores>, quotas: seq<int>, cpuNum: nat, mt: bool) returns (ret: seq<seq<Cores>>)
    modifies nodes
    ensures Served(old(nodes[..]), quotas, nodes[..], ret, cpuNum, mt)
  {
    ret := [];
    ghost var done: seq<int> := [];
    for i := 0 to |quotas|
      invariant done == quotas[..i] && Served(old(nodes[..]), done, nodes[..], ret, cpuNum, mt)
    {
      ret := AllocateNext(nodes, old(nodes[..]), done, ret, quotas[i], cpuNum, mt);
      done := done + [quotas[i]];
    }
    assert done == quotas;
  }

  // ---- The quotas ----

  /** A quota lowered by one until it is at most the bound or below one. */
  function Lower(quota: int, bound: nat): int {
    if quota > bound then bound else quota
  }

  function Repeat(x: int, n: nat): (r: seq<int>)
    ensures |r| == n && forall i :: 0 <= i < n ==> r[i] == x
  {
    seq(n, _ => x)
  }

  function DefaultQuota(cpuNum: nat, localSize: nat, setting: Option<int>): int
    requires localSize > 0
  {
    Lower(if setting.Some? then setting.value else cpuNum / localSize, cpuNum / localSize)
  }

  /** The size of the first node, halved once more with hyperthreading. */
  function NodeSize(nodes: seq<Cores>, mt: bool): nat
    requires nodes != []
  {
    if mt then |nodes[0]| / 2 else |nodes[0]|
  }

  function Quotas(nodes: seq<Cores>, localSize: nat, cpuNum: nat, mt: bool, setting: Option<int>, rootSetting: int): seq<int>
    requires nodes != [] && localSize > 0
  {
    var d := DefaultQuota(cpuNum, localSize, setting);
    var root := if rootSetting != 0 then rootSetting else cpuNum - d * (localSize - 1);
    Repeat(d, localSize - 1) + [Lower(root, NodeSize(nodes, mt))]
  }

  lemma AtMostQuotient(d: int, localSize: nat, cpuNum: nat)
    requires localSize > 0
    ensures d * localSize > cpuNum <==> d > cpuNum / localSize
  {
    DivModId(cpuNum, localSize);
    var q := cpuNum / localSize;
    if d > q {
      MulMono(q + 1, d, localSize);
    } else if 0 <= d {
      MulMono(d, q, localSize);
    }
  }

  /** `_get_quota`. Dividing by a local size of zero is an error. */
  method GetQuota(nodes: seq<Cores>, localSize: nat, cpuNum: nat, mt: bool, setting: Option<int>, rootSetting: int)
    returns (r: Result<seq<int>>)
    requires nodes != []
    ensures r.Err? <==> localSize == 0
    ensures r.Ok? ==> r.value == Quotas(nodes, localSize, cpuNum, mt, setting, rootSetting)
  {
    if localSize == 0 {
      return Err;
    }
    var d := if setting.Some? then setting.value else cpuNum / localSize;
    ghost var d0 := d;
    AtMostQuotient(d, localSize, cpuNum);
    while d >= 1 && d * localSize > cpuNum
      invariant d <= d0 && (d < d0 ==> cpuNum / localSize <= d)
      invariant d * localSize > cpuNum <==> d > cpuNum / localSize
      decreases d
    {
      d := d - 1;
      AtMostQuotient(d, localSize, cpuNum);
    }
    var root := if rootSetting != 0 then rootSetting else cpuNum - d * (localSize - 1);
    ghost var root0 := root;
    var nodeSize := |nodes[0]|;
    if mt {
      nodeSize := nodeSize / 2;
    }
    while root >= 1 && root > nodeSize
      invariant root <= root0 && (root < root0 ==> nodeSize <= root)
      decreases root
    {
      root := root - 1;
    }
    r := Ok(Repeat(d, localSize - 1) + [root]);
  }

  method CountCores(nodes: seq<Cores>) returns (cpuNum: nat)
    ensures cpuNum == |Flatten(nodes)|
  {
    cpuNum := 0;
    for i := 0 to |nodes|
      invariant cpuNum == |Flatten(nodes[..i])|
    {
      FlattenAppend(nodes[..i], nodes[i]);
      assert nodes[..i + 1] == nodes[..i] + [nodes[i]];
      cpuNum := cpuNum + |nodes[i]|;
    }
    assert nodes[..|nodes|] == nodes;
  }

  /** `allocate_cpu` after the NUMA information has been read: nothing without nodes. */
  method AllocateCpu(nodes: array<Cores>, localSize: nat, mt: bool, setting: Option<int>, rootSetting: int)
    returns (r: Result<Option<seq<seq<Cores>>>>)
    modifies nodes
    ensures r.Err? <==> nodes.Length > 0 && localSize == 0
    ensures nodes.Length == 0 ==> r == Ok(None)
    ensures r.Ok? && nodes.Length > 0 ==>
              && r.value.Some?
              && var cpuNum := |Flatten(old(nodes[..]))|;
                 Served(old(nodes[..]), Quotas(old(nodes[..]), localSize, cpuNum, mt, setting, rootSetting), nodes[..], r.value.value, cpuNum, mt)
  {
    if nodes.Length == 0 {
      return Ok(None);
    }
    var cpuNum := CountCores(nodes[..]);
    var quotas := GetQuota(nodes[..], localSize, cpuNum, mt, setting, rootSetting);
    if quotas.Err? {
      return Err;
    }
    var ret := AllocateAll(nodes, quotas.value, cpuNum, mt);
    r := Ok(Some(ret));
  }

  // ---- What the allocation promises ----

  lemma {:induction false} TakeConserves(nodes: seq<Cores>, k: nat)
    requires FirstFit(nodes, k) < |nodes|
    ensures multiset(Taken(nodes, k)) + multiset(Flatten(Rest(nodes, k))) == multiset(Flatten(nodes))
  {
    var f, rest := FirstFit(nodes, k), Rest(nodes, k);
    FlattenWithout(nodes, f);
    FlattenWithout(rest, f);
    assert rest[..f] + rest[f + 1..] == nodes[..f] + nodes[f + 1..];
    assert nodes[f] == nodes[f][..k] + nodes[f][k..];
  }

  /** The cores taken and the cores left are the cores there were. */
  lemma {:induction false} ServeConserves(nodes: seq<Cores>, quotas: seq<int>)
    ensures var o := Serve(nodes, quotas); multiset(Flatten(o.taken)) + multiset(Flatten(o.left)) == multiset(Flatten(nodes))
  {
    if quotas != [] {
      var n := |quotas| - 1;
      var o := Serve(nodes, quotas[..n]);
      ServeConserves(nodes, quotas[..n]);
      var k := Amount(o.left, quotas[n]);
      if k > 0 {
        TakeConserves(o.left, k);
        FlattenAppend(o.taken, Taken(o.left, k));
      }
    }
  }

  /** No core is given to two workers, or given and kept. */
  lemma {:induction false} ServeDisjoint(nodes: seq<Cores>, quotas: seq<int>)
    requires NoRepeat(Flatten(nodes))
    ensures var o := Serve(nodes, quotas); NoRepeat(Flatten(o.taken) + Flatten(o.left))
  {
    var o := Serve(nodes, quotas);
    var all := Flatten(o.taken) + Flatten(o.left);
    ServeConserves(nodes, quotas);
    forall x: nat | x in all
      ensures Count(all, x) == 1
    {
      SumCount(Flatten(o.taken), Flatten(o.left), Flatten(nodes), x);
      CountConcat(Flatten(o.taken), Flatten(o.left), x);
      OnceIn(Flatten(nodes), x);
      CountIn(all, x);
    }
    NoRepeatByCount(all);
  }

  lemma {:induction false} GrantShape(cores: Cores, cpuNum: nat, mt: bool)
    requires cores != []
    ensures var runs := Runs(cores, |cores|);
            && runs != [] && MaximalRuns(runs) && Flatten(runs) == cores
            && Grant(cores, cpuNum, mt) == runs + if mt then [Siblings(runs[|runs| - 1], cpuNum)] else []
  {
    RunsMaximal(cores, |cores|);
    LastRun(cores, |cores|);
    assert cores[..|cores|] == cores;
    var runs := Runs(cores, |cores|);
    assert runs + [] == runs;
  }

  /** Every worker is given maximal runs of consecutive ids that make up its cores, and with hyperthreading also the
      siblings of the last run. */
  lemma {:induction false} GrantIsRuns(cores: Cores, cpuNum: nat, mt: bool)
    requires cores != []
    ensures var g := Grant(cores, cpuNum, mt);
            var runs := if mt then g[..|g| - 1] else g;
            && g != [] && runs != [] && MaximalRuns(runs) && Flatten(runs) == cores
            && (mt ==> var last := runs[|runs| - 1];
                       |g[|g| - 1]| == |last| && forall i :: 0 <= i < |last| ==> g[|g| - 1][i] == last[i] + cpuNum)
  {
    GrantShape(cores, cpuNum, mt);
    var runs, g := Runs(cores, |cores|), Grant(cores, cpuNum, mt);
    assert mt ==> g[..|g| - 1] == runs;
    assert runs + [] == runs;
  }

  /** The amount a worker gets is the most any remaining node can give up to its quota. */
  lemma AmountIsMost(nodes: seq<Cores>, quota: int, k: nat)
    requires 0 < k
    ensures k <= Amount(nodes, quota) <==> k <= quota && exists i :: 0 <= i < |nodes| && k <= |nodes[i]|
  {
    FitsIff(nodes, k);
    if k <= Largest(nodes) {
      assert k <= |nodes[FirstFit(nodes, k)]|;
    }
  }

  /** A worker is served from the first node that has the most cores any node can give it up to its quota; it takes
      the first cores of that node, and the other nodes keep theirs. */
  lemma ServedFrom(o: Outcome, quota: int, k: nat, f: nat)
    requires f < |o.left| && 0 < k <= quota && k <= |o.left[f]|
    requires forall i :: 0 <= i < f ==> |o.left[i]| < k
    requires k == quota || forall i :: 0 <= i < |o.left| ==> |o.left[i]| <= k
    ensures ServeOne(o, quota) == Outcome(o.taken + [o.left[f][..k]], o.left[f := o.left[f][k..]])
  {
    AmountIsMost(o.left, quota, k);
    AmountIsMost(o.left, quota, k + 1);
    FirstFitIs(o.left, k, f);
  }

  /** A worker with a quota below one, or with no core left, gets nothing. */
  lemma NotServed(o: Outcome, quota: int)
    requires quota < 1 || forall i :: 0 <= i < |o.left| ==> o.left[i] == []
    ensures ServeOne(o, quota) == o
  {
    AmountIsMost(o.left, quota, 1);
  }

  // ---- Quotas and cores ----

  function Sum(quotas: seq<int>): int {
    if quotas == [] then 0 else Sum(quotas[..|quotas| - 1]) + quotas[|quotas| - 1]
  }

  lemma {:induction false} SumRepeat(x: int, n: nat)
    ensures Sum(Repeat(x, n)) == x * n
  {
    if n > 0 {
      SumRepeat(x, n - 1);
      assert Repeat(x, n)[..n - 1] == Repeat(x, n - 1);
      assert x * n == x * (n - 1) + x;
    }
  }

  lemma SumAppend(quotas: seq<int>, x: int)
    ensures Sum(quotas + [x]) == Sum(quotas) + x
  {
    assert (quotas + [x])[..|quotas|] == quotas;
  }

  /** The quota of a worker that is not the root: its setting where the cores allow it for all workers, otherwise the
      largest number that they do allow. */
  predicate IsShare(d: int, localSize: nat, cpuNum: nat, setting: Option<int>) {
    if setting.Some? && setting.value * localSize <= cpuNum then d == setting.value
    else d * localSize <= cpuNum < (d + 1) * localSize
  }

  lemma DefaultIsShare(localSize: nat, cpuNum: nat, setting: Option<int>)
    requires localSize > 0
    ensures IsShare(DefaultQuota(cpuNum, localSize, setting), localSize, cpuNum, setting)
  {
    var q := cpuNum / localSize;
    AtMostQuotient(q, localSize, cpuNum);
    AtMostQuotient(q + 1, localSize, cpuNum);
    if setting.Some? {
      AtMostQuotient(setting.value, localSize, cpuNum);
    }
  }

  /** What every worker asks for. The root asks for its setting, or for all cores the others leave, but for no more
      than the first node, halved with hyperthreading. */
  lemma {:induction false} QuotasExact(nodes: seq<Cores>, localSize: nat, cpuNum: nat, mt: bool, setting: Option<int>, rootSetting: int)
    requires nodes != [] && localSize > 0
    ensures var quotas := Quotas(nodes, localSize, cpuNum, mt, setting, rootSetting);
            var size := if mt then |nodes[0]| / 2 else |nodes[0]|;
            && |quotas| == localSize
            && (forall i :: 0 <= i < localSize - 1 ==> IsShare(quotas[i], localSize, cpuNum, setting))
            && var others, root := Sum(quotas[..localSize - 1]), quotas[localSize - 1];
               if rootSetting != 0 then root == if rootSetting <= size then rootSetting else size
               else if cpuNum - others <= size then Sum(quotas) == cpuNum
               else root == size
  {
    var d := DefaultQuota(cpuNum, localSize, setting);
    var quotas := Quotas(nodes, localSize, cpuNum, mt, setting, rootSetting);
    DefaultIsShare(localSize, cpuNum, setting);
    assert quotas[..localSize - 1] == Repeat(d, localSize - 1);
    SumRepeat(d, localSize - 1);
    SumAppend(Repeat(d, localSize - 1), quotas[localSize - 1]);
  }

  /** Without overrides the workers never ask for more cores than there are. */
  lemma {:induction false} QuotasFit(nodes: seq<Cores>, localSize: nat, mt: bool)
    requires nodes != [] && localSize > 0
    ensures Sum(Quotas(nodes, localSize, |Flatten(nodes)|, mt, None, 0)) <= |Flatten(nodes)|
  {
    QuotasExact(nodes, localSize, |Flatten(nodes)|, mt, None, 0);
  }

  lemma {:induction false} SomethingLeft(nodes: seq<Cores>)
    ensures Largest(nodes) == 0 <==> Flatten(nodes) == []
  {
    if nodes != [] {
      FlattenFirst(nodes);
      SomethingLeft(nodes[1..]);
    }
  }

  lemma Sizes(nodes: seq<Cores>, quotas: seq<int>)
    ensures var o := Serve(nodes, quotas); |Flatten(o.taken)| + |Flatten(o.left)| == |Flatten(nodes)|
  {
    var o := Serve(nodes, quotas);
    ServeConserves(nodes, quotas);
    assert |multiset(Flatten(o.taken)) + multiset(Flatten(o.left))| == |Flatten(o.taken)| + |Flatten(o.left)|;
    assert |multiset(Flatten(nodes))| == |Flatten(nodes)|;
  }

  /** As long as the quotas do not exhaust the cores, everyone gets some. */
  lemma {:induction false} RepeatServes(nodes: seq<Cores>, d: nat, n: nat)
    requires d > 0 && d * n < |Flatten(nodes)|
    ensures var o := Serve(nodes, Repeat(d, n)); |o.taken| == n && |Flatten(o.taken)| <= d * n
  {
    if n > 0 {
      LastShare(d, n);
      RepeatServes(nodes, d, n - 1);
      var quotas := Repeat(d, n - 1);
      var o := Serve(nodes, quotas);
      assert Repeat(d, n) == quotas + [d];
      ServeAppend(nodes, quotas, d);
      assert Flatten(o.left) != [] by {
        Sizes(nodes, quotas);
      }
      NextServed(o, d);
    }
  }

  lemma LastShare(d: nat, n: nat)
    requires n > 0
    ensures d * n == d * (n - 1) + d
  {
  }

  lemma NextServed(o: Outcome, d: nat)
    requires d > 0 && Flatten(o.left) != []
    ensures var r := ServeOne(o, d).taken; |r| == |o.taken| + 1 && |Flatten(r)| <= |Flatten(o.taken)| + d
  {
    SomethingLeft(o.left);
    var k := Amount(o.left, d);
    FlattenAppend(o.taken, Taken(o.left, k));
  }

  lemma {:induction false} NothingServed(nodes: seq<Cores>, n: nat)
    ensures Serve(nodes, Repeat(0, n)) == Outcome([], nodes)
  {
    if n > 0 {
      NothingServed(nodes, n - 1);
      assert Repeat(0, n) == Repeat(0, n - 1) + [0];
      ServeAppend(nodes, Repeat(0, n - 1), 0);
    }
  }

  lemma ServedOne(o: Outcome, quota: int)
    ensures |ServeOne(o, quota).taken| == |o.taken| + if quota >= 1 && Flatten(o.left) != [] then 1 else 0
  {
    SomethingLeft(o.left);
  }

  lemma Enough(nodes: seq<Cores>, d: nat, n: nat, root: int)
    requires d > 0 && d * n < |Flatten(nodes)|
    ensures |Serve(nodes, Repeat(d, n) + [root]).taken| == n + if root >= 1 then 1 else 0
  {
    RepeatServes(nodes, d, n);
    Sizes(nodes, Repeat(d, n));
    ServeAppend(nodes, Repeat(d, n), root);
    ServedOne(Serve(nodes, Repeat(d, n)), root);
  }

  lemma TooFew(nodes: seq<Cores>, n: nat, root: int)
    ensures |Serve(nodes, Repeat(0, n) + [root]).taken| == if root >= 1 && Flatten(nodes) != [] then 1 else 0
  {
    NothingServed(nodes, n);
    ServeAppend(nodes, Repeat(0, n), root);
    ServedOne(Outcome([], nodes), root);
  }

  lemma QuotientLeaves(cpuNum: nat, localSize: nat)
    requires localSize > 0
    ensures var d := cpuNum / localSize; (d > 0 <==> localSize <= cpuNum) && d * (localSize - 1) + d <= cpuNum
  {
    var d := cpuNum / localSize;
    DivModId(cpuNum, localSize);
    AtMostQuotient(1, localSize, cpuNum);
    assert localSize * d == d * (localSize - 1) + d;
  }

  lemma QuotaShape(nodes: seq<Cores>, localSize: nat, cpuNum: nat, mt: bool) returns (d: nat, root: int)
    requires nodes != [] && localSize > 0
    ensures Quotas(nodes, localSize, cpuNum, mt, None, 0) == Repeat(d, localSize - 1) + [root]
    ensures d > 0 <==> localSize <= cpuNum
    ensures d > 0 ==> d * (localSize - 1) < cpuNum && (root >= 1 <==> NodeSize(nodes, mt) >= 1)
  {
    d := cpuNum / localSize;
    root := Lower(cpuNum - d * (localSize - 1), NodeSize(nodes, mt));
    QuotientLeaves(cpuNum, localSize);
  }

  lemma {:induction false} ServedIff(nodes: seq<Cores>, d: nat, n: nat, root: int)
    requires d > 0 ==> d * n < |Flatten(nodes)|
    requires d == 0 ==> |Flatten(nodes)| < n + 1
    ensures |Serve(nodes, Repeat(d, n) + [root]).taken| == n + 1 <==> d > 0 && root >= 1
  {
    if d > 0 {
      Enough(nodes, d, n, root);
    } else {
      TooFew(nodes, n, root);
    }
  }

  /** Without overrides every worker is served exactly when there are as many cores as workers and the
      first node, halved with hyperthreading, is not empty. Otherwise the list of allocations is too
      short for the worker that indexes it. */
  lemma {:induction false} EveryoneServedIff(nodes: seq<Cores>, localSize: nat, mt: bool)
    requires nodes != [] && localSize > 0
    ensures var cpuNum := |Flatten(nodes)|;
            var o := Serve(nodes, Quotas(nodes, localSize, cpuNum, mt, None, 0));
            |o.taken| == localSize <==> localSize <= cpuNum && NodeSize(nodes, mt) >= 1
  {
    var d, root := QuotaShape(nodes, localSize, |Flatten(nodes)|, mt);
    ServedIff(nodes, d, localSize - 1, root);
  }

  // ---- Hyperthread siblings ----

  /** Every id given to any worker, siblings included. */
  function AllIds(taken: seq<Cores>, cpuNum: nat, mt: bool): Cores
    requires AllNonempty(taken)
  {
    Flatten(Flatten(Grants(taken, cpuNum, mt)))
  }

  ghost predicate Below(cores: Cores, bound: nat) {
    forall x: nat :: x in cores ==> x < bound
  }

  lemma {:induction false} SiblingCount(run: Cores, cpuNum: nat, x: nat)
    ensures Count(Siblings(run, cpuNum), x) == if cpuNum <= x then Count<nat>(run, x - cpuNum) else 0
  {
    if run != [] {
      SiblingCount(run[1..], cpuNum, x);
      assert Siblings(run, cpuNum)[1..] == Siblings(run[1..], cpuNum);
    }
  }

  lemma GrantFlat(cores: Cores, cpuNum: nat, mt: bool)
    requires cores != []
    ensures var runs := Runs(cores, |cores|);
            && runs != [] && Flatten(Grant(cores, cpuNum, mt)) == cores + if mt then Siblings(runs[|runs| - 1], cpuNum) else []
  {
    var runs := Runs(cores, |cores|);
    RunsFlatten(cores, |cores|);
    LastRun(cores, |cores|);
    assert cores[..|cores|] == cores;
    FlattenAppend(runs, Siblings(runs[|runs| - 1], cpuNum));
  }

  lemma LastRunCount(cores: Cores, x: nat)
    requires cores != []
    ensures var runs := Runs(cores, |cores|); runs != [] && Count(runs[|runs| - 1], x) <= Count(cores, x)
  {
    var runs := Runs(cores, |cores|);
    LastRun(cores, |cores|);
    RunsFlatten(cores, |cores|);
    assert cores[..|cores|] == cores;
    var n := |runs| - 1;
    assert runs == runs[..n] + [runs[n]];
    FlattenAppend(runs[..n], runs[n]);
    CountConcat(Flatten(runs[..n]), runs[n], x);
  }

  /** How often a list holds the core that an id is the sibling of. */
  ghost function SiblingOf(cores: Cores, cpuNum: nat, x: nat): nat {
    if cpuNum <= x then Count<nat>(cores, x - cpuNum) else 0
  }

  /** An id is granted as often as it is a core of the worker or the sibling of one, at most; exactly so when
      the worker has a single core. */
  lemma {:induction false} GrantCount(cores: Cores, cpuNum: nat, x: nat)
    requires cores != []
    ensures Count(Flatten(Grant(cores, cpuNum, true)), x) <= Count(cores, x) + SiblingOf(cores, cpuNum, x)
    ensures |cores| == 1 ==> Count(Flatten(Grant(cores, cpuNum, true)), x) == Count(cores, x) + SiblingOf(cores, cpuNum, x)
  {
    var runs := Runs(cores, |cores|);
    GrantFlat(cores, cpuNum, true);
    var last := runs[|runs| - 1];
    assert Flatten(Grant(cores, cpuNum, true)) == cores + Siblings(last, cpuNum);
    CountConcat(cores, Siblings(last, cpuNum), x);
    SiblingCount(last, cpuNum, x);
    if cpuNum <= x {
      LastRunCount(cores, x - cpuNum);
    }
    if |cores| == 1 {
      assert last == cores;
    }
  }

  lemma IdsAppend(taken: seq<Cores>, cores: Cores, cpuNum: nat, mt: bool)
    requires AllNonempty(taken) && cores != []
    ensures AllNonempty(taken + [cores])
    ensures AllIds(taken + [cores], cpuNum, mt) == AllIds(taken, cpuNum, mt) + Flatten(Grant(cores, cpuNum, mt))
  {
    GrantsAppend(taken, cores, cpuNum, mt);
    FlattenAppend(Grants(taken, cpuNum, mt), Grant(cores, cpuNum, mt));
    FlattenConcat(Flatten(Grants(taken, cpuNum, mt)), Grant(cores, cpuNum, mt));
  }

  ghost predicate Singles(taken: seq<Cores>) {
    forall i :: 0 <= i < |taken| ==> |taken[i]| == 1
  }

  lemma SiblingConcat(a: Cores, b: Cores, cpuNum: nat, x: nat)
    ensures Count(a + b, x) + SiblingOf(a + b, cpuNum, x)
         == Count(a, x) + SiblingOf(a, cpuNum, x) + (Count(b, x) + SiblingOf(b, cpuNum, x))
  {
    CountConcat<nat>(a, b, x);
    SiblingOfConcat(a, b, cpuNum, x);
  }

  lemma SiblingOfConcat(a: Cores, b: Cores, cpuNum: nat, x: nat)
    ensures SiblingOf(a + b, cpuNum, x) == SiblingOf(a, cpuNum, x) + SiblingOf(b, cpuNum, x)
  {
    if cpuNum <= x {
      var y: nat := x - cpuNum;
      CountConcat<nat>(a, b, y);
    }
  }

  lemma IdsCountStep(taken: seq<Cores>, cores: Cores, cpuNum: nat, x: nat)
    requires AllNonempty(taken) && cores != []
    requires Count(AllIds(taken, cpuNum, true), x) <= Count(Flatten(taken), x) + SiblingOf(Flatten(taken), cpuNum, x)
    requires Singles(taken) ==> Count(AllIds(taken, cpuNum, true), x) == Count(Flatten(taken), x) + SiblingOf(Flatten(taken), cpuNum, x)
    ensures var all := taken + [cores];
            && AllNonempty(all)
            && Count(AllIds(all, cpuNum, true), x) <= Count(Flatten(all), x) + SiblingOf(Flatten(all), cpuNum, x)
            && (Singles(all) ==> Count(AllIds(all, cpuNum, true), x) == Count(Flatten(all), x) + SiblingOf(Flatten(all), cpuNum, x))
  {
    IdsAppend(taken, cores, cpuNum, true);
    GrantCount(cores, cpuNum, x);
    CountConcat(AllIds(taken, cpuNum, true), Flatten(Grant(cores, cpuNum, true)), x);
    FlattenAppend(taken, cores);
    SiblingConcat(Flatten(taken), cores, cpuNum, x);
    assert Singles(taken + [cores]) ==> Singles(taken) && |cores| == 1 by {
      assert forall i :: 0 <= i < |taken| ==> (taken + [cores])[i] == taken[i];
      assert (taken + [cores])[|taken|] == cores;
    }
  }

  lemma {:induction false} IdsCount(taken: seq<Cores>, cpuNum: nat, x: nat)
    requires AllNonempty(taken)
    ensures Count(AllIds(taken, cpuNum, true), x) <= Count(Flatten(taken), x) + SiblingOf(Flatten(taken), cpuNum, x)
    ensures Singles(taken) ==> Count(AllIds(taken, cpuNum, true), x) == Count(Flatten(taken), x) + SiblingOf(Flatten(taken), cpuNum, x)
  {
    if taken != [] {
      var n := |taken| - 1;
      assert taken == taken[..n] + [taken[n]];
      IdsCount(taken[..n], cpuNum, x);
      IdsCountStep(taken[..n], taken[n], cpuNum, x);
    }
  }

  lemma TakenCount(nodes: seq<Cores>, quotas: seq<int>, x: nat)
    ensures Count(Flatten(Serve(nodes, quotas).taken), x) <= Count(Flatten(nodes), x)
  {
    ServeConserves(nodes, quotas);
    var o := Serve(nodes, quotas);
    SumCount(Flatten(o.taken), Flatten(o.left), Flatten(nodes), x);
  }

  /** No id is given out twice, siblings included. */
  ghost predicate DisjointIds(nodes: seq<Cores>, quotas: seq<int>, cpuNum: nat) {
    var taken := Serve(nodes, quotas).taken;
    AllNonempty(taken) && NoRepeat(AllIds(taken, cpuNum, true))
  }

  /** No core is the sibling id of a core. */
  ghost predicate NoSiblingCore(cores: Cores, cpuNum: nat) {
    forall x: nat :: x in cores ==> x + cpuNum !in cores
  }

  lemma {:induction false} DisjointIf(nodes: seq<Cores>, quotas: seq<int>, cpuNum: nat)
    requires NoRepeat(Flatten(nodes)) && NoSiblingCore(Flatten(nodes), cpuNum)
    ensures DisjointIds(nodes, quotas, cpuNum)
  {
    var taken := Serve(nodes, quotas).taken;
    ServedNonempty(nodes, quotas);
    var ids := AllIds(taken, cpuNum, true);
    forall x: nat | x in ids
      ensures Count(ids, x) == 1
    {
      CountIn(ids, x);
      IdsCount(taken, cpuNum, x);
      OnceOrSibling(nodes, quotas, cpuNum, x);
    }
    NoRepeatByCount(ids);
  }

  lemma {:induction false} OnceOrSibling(nodes: seq<Cores>, quotas: seq<int>, cpuNum: nat, x: nat)
    requires NoRepeat(Flatten(nodes)) && NoSiblingCore(Flatten(nodes), cpuNum)
    ensures var cores := Flatten(Serve(nodes, quotas).taken); Count(cores, x) + SiblingOf(cores, cpuNum, x) <= 1
  {
    TakenCount(nodes, quotas, x);
    if cpuNum <= x {
      TakenCount(nodes, quotas, x - cpuNum);
    }
    OnceWithin(Flatten(nodes), Flatten(Serve(nodes, quotas).taken), cpuNum, x);
  }

  lemma OnceWithin(all: Cores, cores: Cores, cpuNum: nat, x: nat)
    requires NoRepeat(all) && NoSiblingCore(all, cpuNum) && Count<nat>(cores, x) <= Count<nat>(all, x)
    requires cpuNum <= x ==> Count<nat>(cores, x - cpuNum) <= Count<nat>(all, x - cpuNum)
    ensures Count<nat>(cores, x) + SiblingOf(cores, cpuNum, x) <= 1
  {
    OnceIn<nat>(all, x);
    CountIn<nat>(all, x);
    if cpuNum <= x {
      var y: nat := x - cpuNum;
      OnceIn<nat>(all, y);
      CountIn<nat>(all, y);
      assert y in all ==> y + cpuNum !in all;
    }
  }

  lemma OneMore(o: Outcome)
    requires Singles(o.taken) && Flatten(o.left) != []
    ensures var r := ServeOne(o, 1).taken; Singles(r) && |Flatten(r)| == |Flatten(o.taken)| + 1
  {
    SomethingLeft(o.left);
    var k := Amount(o.left, 1);
    assert k == 1;
    FlattenAppend(o.taken, Taken(o.left, k));
  }

  /** Quotas of one core for as many workers as there are cores give every core out on its own. */
  lemma {:induction false} OnesServe(nodes: seq<Cores>, n: nat)
    requires n <= |Flatten(nodes)|
    ensures var o := Serve(nodes, Repeat(1, n)); |Flatten(o.taken)| == n && Singles(o.taken)
  {
    if n > 0 {
      OnesServe(nodes, n - 1);
      var quotas := Repeat(1, n - 1);
      var o := Serve(nodes, quotas);
      assert Repeat(1, n) == quotas + [1];
      ServeAppend(nodes, quotas, 1);
      Sizes(nodes, quotas);
      OneMore(o);
    } else {
      assert Repeat(1, 0) == [];
    }
  }

  lemma {:induction false} AllTaken(nodes: seq<Cores>, x: nat)
    ensures Count(Flatten(Serve(nodes, Repeat(1, |Flatten(nodes)|)).taken), x) == Count(Flatten(nodes), x)
  {
    var quotas := Repeat(1, |Flatten(nodes)|);
    var o := Serve(nodes, quotas);
    OnesServe(nodes, |Flatten(nodes)|);
    Sizes(nodes, quotas);
    assert Flatten(o.left) == [];
    ServeConserves(nodes, quotas);
    SumCount(Flatten(o.taken), Flatten(o.left), Flatten(nodes), x);
  }

  lemma {:induction false} ClashIfSibling(nodes: seq<Cores>, cpuNum: nat, x: nat)
    requires x in Flatten(nodes) && x + cpuNum in Flatten(nodes)
    ensures !DisjointIds(nodes, Repeat(1, |Flatten(nodes)|), cpuNum)
  {
    var quotas, y: nat := Repeat(1, |Flatten(nodes)|), x + cpuNum;
    var taken := Serve(nodes, quotas).taken;
    ServedNonempty(nodes, quotas);
    OnesServe(nodes, |Flatten(nodes)|);
    AllTaken(nodes, x);
    AllTaken(nodes, y);
    CountIn(Flatten(nodes), x);
    CountIn(Flatten(nodes), y);
    ClashCount(taken, cpuNum, x);
  }

  lemma ClashCount(taken: seq<Cores>, cpuNum: nat, x: nat)
    requires AllNonempty(taken) && Singles(taken) && 0 < Count(Flatten(taken), x) && 0 < Count<nat>(Flatten(taken), x + cpuNum)
    ensures !NoRepeat(AllIds(taken, cpuNum, true))
  {
    var ids := AllIds(taken, cpuNum, true);
    IdsCount(taken, cpuNum, x + cpuNum);
    if NoRepeat(ids) {
      OnceIn<nat>(ids, x + cpuNum);
    }
  }

  /** With distinct cores, no id is ever given out twice, siblings included, exactly when no core is the sibling
      id of a core. */
  lemma {:induction false} IdsDisjointIff(nodes: seq<Cores>, cpuNum: nat)
    requires NoRepeat(Flatten(nodes))
    ensures (forall quotas :: DisjointIds(nodes, quotas, cpuNum)) <==> NoSiblingCore(Flatten(nodes), cpuNum)
  {
    if NoSiblingCore(Flatten(nodes), cpuNum) {
      forall quotas
        ensures DisjointIds(nodes, quotas, cpuNum)
      {
        DisjointIf(nodes, quotas, cpuNum);
      }
    } else {
      var x: nat :| x in Flatten(nodes) && x + cpuNum in Flatten(nodes);
      ClashIfSibling(nodes, cpuNum, x);
    }
  }

  /** In particular when every physical id is below the number of cores. */
  lemma {:induction false} IdsDisjoint(nodes: seq<Cores>, quotas: seq<int>, cpuNum: nat)
    requires NoRepeat(Flatten(nodes)) && Below(Flatten(nodes), cpuNum)
    ensures DisjointIds(nodes, quotas, cpuNum)
  {
    IdsDisjointIff(nodes, cpuNum);
  }

  /** With an id that is not below the number of cores a sibling can be another worker's core. */
  lemma SiblingClash()
    ensures AllNonempty([[0], [2]]) && AllIds([[0], [2]], 2, true) == [0, 2, 2, 4]
  {
    SingleGrant(0, 2);
    SingleGrant(2, 2);
    IdsAppend([], [0], 2, true);
    IdsAppend([[0]], [2], 2, true);
    assert [] + [[0]] == [[0]] && [[0]] + [[2]] == [[0], [2]];
  }

  lemma SingleGrant(x: nat, cpuNum: nat)
    ensures Flatten(Grant([x], cpuNum, true)) == [x, x + cpuNum]
  {
    GrantFlat([x], cpuNum, true);
    assert Siblings([x], cpuNum) == [x + cpuNum];
  }

  lemma OneNode(taken: seq<Cores>, node: Cores, quota: nat)
    requires 0 < quota <= |node|
    ensures ServeOne(Outcome(taken, [node]), quota) == Outcome(taken + [node[..quota]], [node[quota..]])
  {
    FitsIff([node], quota);
    assert Largest([node]) >= |[node][0]|;
  }

  lemma SiblingClashServed()
    ensures Serve([[0, 2]], Quotas([[0, 2]], 2, 2, true, None, 0)) == Outcome([[0], [2]], [[]])
  {
    var nodes: seq<Cores> := [[0, 2]];
    assert Quotas(nodes, 2, 2, true, None, 0) == [1] + [1];
    ServeAppend(nodes, [], 1);
    ServeAppend(nodes, [1], 1);
    assert [] + [1] == [1];
    OneNode([], [0, 2], 1);
    assert [0, 2][..1] == [0] && [0, 2][1..] == [2];
    OneNode([[0]], [2], 1);
    assert [2][..1] == [2] && [2][1..] == [];
  }

  /** One core under hyperthreading: the halved node has no core to give, and the only worker gets nothing. */
  lemma OneCoreUnserved()
    ensures Serve([[0]], Quotas([[0]], 1, 1, true, None, 0)).taken == []
  {
    FlattenOne<nat>([0]);
    EveryoneServedIff([[0]], 1, true);
    var quotas := Quotas([[0]], 1, 1, true, None, 0);
    assert quotas == [] + [0];
    ServeAppend([[0]], [], 0);
  }
}
