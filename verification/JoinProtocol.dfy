/** The condition-variable protocol by which the launcher joins its worker threads, as interleaved steps. */
module JoinProtocol {
  import opened Sequences

  /** Where a worker thread is: running its command, in `done_callback`, or finished. */
  datatype WorkerPc =
    | Running    // the target runs
    | Calling    // the callback wants the lock
    | Appending  // holds the lock, about to append its index
    | Notifying  // holds the lock, about to notify
    | Leaving    // holds the lock, about to release it
    | Finished

  /** Where the launcher is in `join_threads`. */
  datatype LauncherPc =
    | Head                  // compares the count with the number of threads
    | Entering              // wants the lock
    | Checking              // holds the lock, looks at the list of done threads
    | Waiting               // released the lock in `wait`, not notified
    | Woken                 // notified, wants the lock back
    | Releasing(idx: nat)   // holds the lock, has popped an index
    | Joining(idx: nat)     // joins that thread
    | Done
    | Raised(idx: nat)      // the joined thread had an exception

  datatype Lock = Free | ByLauncher | ByWorker(i: nat)

  datatype State = State(
    workers: seq<WorkerPc>,
    failed: seq<bool>,      // the thread holds an exception
    lock: Lock,
    stack: seq<nat>,        // `done_threads`
    launcher: LauncherPc,
    joined: seq<nat>)       // the indices joined so far, in order; its length is `count`

  datatype Action = Worker(i: nat, fails: bool) | Launcher

  function Init(n: nat): State {
    State(seq(n, _ => Running), seq(n, _ => false), Free, [], Head, [])
  }

  predicate WorkerEnabled(s: State, i: nat) {
    i < |s.workers| && |s.failed| == |s.workers| && s.workers[i] != Finished && (s.workers[i] == Calling ==> s.lock == Free)
  }

  /** Notifying wakes the launcher if it waits and is lost otherwise. */
  function WorkerStep(s: State, i: nat, fails: bool): State
    requires WorkerEnabled(s, i)
  {
    match s.workers[i]
    case Running => s.(workers := s.workers[i := Calling], failed := s.failed[i := fails])
    case Calling => s.(workers := s.workers[i := Appending], lock := ByWorker(i))
    case Appending => s.(workers := s.workers[i := Notifying], stack := s.stack + [i])
    case Notifying => s.(workers := s.workers[i := Leaving], launcher := if s.launcher == Waiting then Woken else s.launcher)
    case Leaving => s.(workers := s.workers[i := Finished], lock := Free)
  }

  predicate LauncherEnabled(s: State) {
    match s.launcher
    case Head | Checking | Releasing(_) => true
    case Entering | Woken => s.lock == Free
    case Waiting | Done | Raised(_) => false
    case Joining(idx) => idx < |s.workers| && idx < |s.failed| && s.workers[idx] == Finished
  }

  function LauncherStep(s: State): State
    requires LauncherEnabled(s)
  {
    match s.launcher
    case Head => s.(launcher := if |s.joined| < |s.workers| then Entering else Done)
    case Entering | Woken => s.(launcher := Checking, lock := ByLauncher)
    case Checking =>
      if s.stack == [] then s.(launcher := Waiting, lock := Free)
      else
        var last := |s.stack| - 1;
        s.(launcher := Releasing(s.stack[last]), stack := s.stack[..last])
    case Releasing(idx) => s.(launcher := Joining(idx), lock := Free)
    case Joining(idx) =>
      if s.failed[idx] then s.(launcher := Raised(idx)) else s.(launcher := Head, joined := s.joined + [idx])
  }

  predicate Enabled(s: State, a: Action) {
    match a
    case Worker(i, _) => WorkerEnabled(s, i)
    case Launcher => LauncherEnabled(s)
  }

  function Step(s: State, a: Action): State
    requires Enabled(s, a)
  {
    match a
    case Worker(i, fails) => WorkerStep(s, i, fails)
    case Launcher => LauncherStep(s)
  }

  // ---- The invariant ----

  /** The index the launcher has popped and not yet joined. */
  predicate Held(s: State, i: nat) {
    (s.launcher.Releasing? || s.launcher.Joining? || s.launcher.Raised?) && s.launcher.idx == i
  }

  /** The worker has put its index on the stack. */
  predicate Pushed(w: WorkerPc) {
    w == Notifying || w == Leaving || w == Finished
  }

  predicate HoldsLock(w: WorkerPc) {
    w == Appending || w == Notifying || w == Leaving
  }

  /** Mutual exclusion. */
  ghost predicate LockInv(s: State) {
    && |s.failed| == |s.workers|
    && (forall i :: 0 <= i < |s.workers| ==> (HoldsLock(s.workers[i]) <==> s.lock == ByWorker(i)))
    && (s.lock.ByWorker? ==> s.lock.i < |s.workers|)
    && (s.lock == ByLauncher <==> s.launcher == Checking || s.launcher.Releasing?)
  }

  /** An index is in one place at most, and in one place exactly when its callback has put it there. */
  ghost predicate PlaceInv(s: State) {
    && NoRepeat(s.stack) && NoRepeat(s.joined)
    && (forall i: nat :: i in s.stack ==> i < |s.workers| && Pushed(s.workers[i]) && i !in s.joined && !Held(s, i))
    && (forall i: nat :: i in s.joined ==> i < |s.workers| == |s.failed| && s.workers[i] == Finished && !s.failed[i] && !Held(s, i))
    && (forall i: nat :: Held(s, i) ==> i < |s.workers| && Pushed(s.workers[i]))
    && (forall i: nat :: i < |s.workers| && Pushed(s.workers[i]) ==> i in s.stack || i in s.joined || Held(s, i))
  }

  /** A launcher that waits has an empty stack or is about to be notified. */
  ghost predicate WakeInv(s: State) {
    s.launcher == Waiting && s.stack != [] ==> s.lock.ByWorker? && s.lock.i < |s.workers| && s.workers[s.lock.i] == Notifying
  }

  ghost predicate OutcomeInv(s: State) {
    && (s.launcher == Done ==> |s.joined| >= |s.workers|)
    && (s.launcher.Raised? ==> s.launcher.idx < |s.failed| && s.failed[s.launcher.idx])
    && (s.launcher.Raised? ==> s.launcher.idx < |s.workers| && s.workers[s.launcher.idx] == Finished)
    && ((s.launcher == Entering || s.launcher == Checking || s.launcher == Waiting || s.launcher == Woken
         || s.launcher.Releasing? || s.launcher.Joining?) ==> |s.joined| < |s.workers|)
  }

  ghost predicate Inv(s: State) {
    LockInv(s) && PlaceInv(s) && WakeInv(s) && OutcomeInv(s)
  }

  lemma InitInv(n: nat)
    ensures Inv(Init(n))
  {
  }

  lemma WorkerKeepsLock(s: State, i: nat, fails: bool)
    requires Inv(s) && WorkerEnabled(s, i)
    ensures LockInv(WorkerStep(s, i, fails)) && WakeInv(WorkerStep(s, i, fails)) && OutcomeInv(WorkerStep(s, i, fails))
  {
  }

  lemma AppendMembers(s: seq<nat>, x: nat)
    ensures forall y :: y in s + [x] <==> y in s || y == x
    ensures NoRepeat(s) && x !in s ==> NoRepeat(s + [x])
  {
  }

  lemma WorkerKeepsPlaces(s: State, i: nat, fails: bool)
    requires Inv(s) && WorkerEnabled(s, i)
    ensures PlaceInv(WorkerStep(s, i, fails))
  {
    var s' := WorkerStep(s, i, fails);
    assert forall j: nat :: Held(s', j) <==> Held(s, j);
    assert forall j: nat :: j < |s.workers| && j != i ==> s'.workers[j] == s.workers[j] && s'.failed[j] == s.failed[j];
    assert !Pushed(s.workers[i]) ==> i !in s.stack && i !in s.joined && !Held(s, i);
    if s.workers[i] == Appending {
      AppendMembers(s.stack, i);
    }
  }

  lemma LauncherKeepsLock(s: State)
    requires Inv(s) && LauncherEnabled(s)
    ensures LockInv(LauncherStep(s)) && WakeInv(LauncherStep(s)) && OutcomeInv(LauncherStep(s))
  {
  }

  lemma LauncherKeepsPlaces(s: State)
    requires Inv(s) && LauncherEnabled(s)
    ensures PlaceInv(LauncherStep(s))
  {
    if s.launcher == Checking && s.stack != [] {
      var last := |s.stack| - 1;
      assert s.stack == s.stack[..last] + [s.stack[last]];
      assert s.stack[last] !in s.stack[..last];
      AppendMembers(s.stack[..last], s.stack[last]);
    } else if s.launcher.Joining? {
      assert s.launcher.idx !in s.joined && s.launcher.idx !in s.stack by {
        assert Held(s, s.launcher.idx);
      }
      AppendMembers(s.joined, s.launcher.idx);
    }
  }

  lemma StepInv(s: State, a: Action)
    requires Inv(s) && Enabled(s, a)
    ensures Inv(Step(s, a))
  {
    match a
    case Worker(i, fails) =>
      WorkerKeepsLock(s, i, fails);
      WorkerKeepsPlaces(s, i, fails);
    case Launcher =>
      LauncherKeepsLock(s);
      LauncherKeepsPlaces(s);
  }

  // ---- Whole runs ----

  /** The actions can be taken one after another. */
  predicate IsRun(s: State, actions: seq<Action>)
    decreases |actions|
  {
    actions == [] || (Enabled(s, actions[0]) && IsRun(Step(s, actions[0]), actions[1..]))
  }

  function After(s: State, actions: seq<Action>): State
    requires IsRun(s, actions)
    decreases |actions|
  {
    if actions == [] then s else After(Step(s, actions[0]), actions[1..])
  }

  lemma {:induction false} RunInv(s: State, actions: seq<Action>)
    requires Inv(s) && IsRun(s, actions)
    ensures Inv(After(s, actions)) && |After(s, actions).workers| == |s.workers|
    decreases |actions|
  {
    if actions != [] {
      StepInv(s, actions[0]);
      RunInv(Step(s, actions[0]), actions[1..]);
    }
  }

  /** Whatever the interleaving: no index is stacked or joined twice, none is joined before its callback
      and its thread are over, and a launcher that waits on a nonempty stack is about to be notified. */
  lemma {:induction false} JoinSafety(n: nat, actions: seq<Action>)
    requires IsRun(Init(n), actions)
    ensures var s := After(Init(n), actions);
            && NoRepeat(s.stack) && NoRepeat(s.joined)
            && (forall i :: i in s.joined ==> i !in s.stack)
            && (forall i :: i in s.joined ==> i < n == |s.workers| && s.workers[i] == Finished)
            && (s.launcher == Waiting && s.stack != [] ==> exists i :: 0 <= i < |s.workers| && s.workers[i] == Notifying)
  {
    InitInv(n);
    RunInv(Init(n), actions);
    var s := After(Init(n), actions);
    if s.launcher == Waiting && s.stack != [] {
      assert s.workers[s.lock.i] == Notifying;
    }
  }

  /** A state in which the launcher has returned or raised. */
  predicate Over(s: State) {
    s.launcher == Done || s.launcher.Raised?
  }

  // ---- Counting indices ----

  function Range(n: nat): (r: set<nat>)
    ensures forall i: nat :: i in r <==> i < n
  {
    if n == 0 then {} else Range(n - 1) + {n - 1}
  }

  lemma {:induction false} RangeSize(n: nat)
    ensures |Range(n)| == n
  {
    if n > 0 {
      RangeSize(n - 1);
    }
  }

  function Members(s: seq<nat>): (r: set<nat>)
    ensures forall x :: x in r <==> x in s
  {
    set x | x in s
  }

  lemma {:induction false} MembersSize(s: seq<nat>)
    ensures |Members(s)| <= |s| && (NoRepeat(s) ==> |Members(s)| == |s|)
  {
    if s != [] {
      var last := |s| - 1;
      MembersSize(s[..last]);
      assert s == s[..last] + [s[last]];
      assert Members(s) == Members(s[..last]) + {s[last]};
    }
  }

  lemma Larger<T>(a: set<T>, b: set<T>)
    requires a <= b
    ensures |a| <= |b| && (|a| == |b| ==> a == b)
  {
    assert b == a + (b - a);
    assert |b| == |a| + |b - a|;
  }

  lemma {:induction false} Missing(s: seq<nat>, n: nat) returns (i: nat)
    requires |s| < n
    ensures i < n && i !in s
  {
    RangeSize(n);
    MembersSize(s);
    if Range(n) <= Members(s) {
      Larger(Range(n), Members(s));
    }
    i :| i in Range(n) && i !in Members(s);
  }

  lemma {:induction false} Everyone(s: seq<nat>, n: nat)
    requires NoRepeat(s) && n <= |s| && forall i :: i in s ==> i < n
    ensures |s| == n && forall i: nat :: i < n ==> i in s
  {
    RangeSize(n);
    MembersSize(s);
    Larger(Members(s), Range(n));
  }

  /** As long as the launcher is not through, some thread can take a step: no deadlock. */
  lemma {:induction false} NoDeadlock(s: State) returns (a: Action)
    requires Inv(s) && !Over(s)
    ensures Enabled(s, a)
  {
    if LauncherEnabled(s) {
      a := Launcher;
    } else if s.lock.ByWorker? {
      assert HoldsLock(s.workers[s.lock.i]);
      a := Worker(s.lock.i, false);
    } else if s.launcher.Joining? {
      assert Held(s, s.launcher.idx);
      a := Worker(s.launcher.idx, false);
    } else {
      // The launcher waits on an empty stack with the lock free: some thread is still to come.
      var i := Missing(s.joined, |s.workers|);
      assert !Held(s, i);
      a := Worker(i, false);
    }
  }

  // ---- Every run ends ----

  function Rank(w: WorkerPc): nat {
    match w
    case Running => 5
    case Calling => 4
    case Appending => 3
    case Notifying => 2
    case Leaving => 1
    case Finished => 0
  }

  function Ranks(workers: seq<WorkerPc>): nat {
    if workers == [] then 0 else Rank(workers[0]) + Ranks(workers[1..])
  }

  lemma {:induction false} RanksUpdate(workers: seq<WorkerPc>, i: nat, w: WorkerPc)
    requires i < |workers|
    ensures Ranks(workers[i := w]) == Ranks(workers) - Rank(workers[i]) + Rank(w)
  {
    if i == 0 {
      assert workers[0 := w][1..] == workers[1..];
    } else {
      RanksUpdate(workers[1..], i - 1, w);
      assert workers[i := w][1..] == workers[1..][i - 1 := w];
    }
  }

  lemma {:induction false} RanksInit(n: nat)
    ensures Ranks(seq(n, _ => Running)) == 5 * n
  {
    if n > 0 {
      RanksInit(n - 1);
      assert seq(n, _ => Running)[1..] == seq(n - 1, _ => Running);
    }
  }

  function LauncherRank(l: LauncherPc): nat {
    match l
    case Head => 7
    case Entering => 6
    case Woken => 6
    case Checking => 5
    case Releasing(_) => 4
    case Joining(_) => 3
    case Waiting => 1
    case Done => 0
    case Raised(_) => 0
  }

  function Measure(s: State): int {
    8 * Ranks(s.workers) + 8 * (|s.workers| - |s.joined|) + LauncherRank(s.launcher)
  }

  lemma {:induction false} MeasureBound(s: State)
    requires Inv(s)
    ensures Measure(s) >= 0
  {
    if |s.joined| >= |s.workers| {
      Everyone(s.joined, |s.workers|);
    }
  }

  lemma {:induction false} StepDecreases(s: State, a: Action)
    requires Inv(s) && Enabled(s, a)
    ensures Measure(Step(s, a)) < Measure(s)
  {
    if a.Worker? {
      RanksUpdate(s.workers, a.i, Step(s, a).workers[a.i]);
    }
  }

  lemma {:induction false} RunShort(s: State, actions: seq<Action>)
    requires Inv(s) && IsRun(s, actions)
    ensures |actions| <= Measure(s)
    decreases |actions|
  {
    MeasureBound(s);
    if actions != [] {
      StepInv(s, actions[0]);
      StepDecreases(s, actions[0]);
      RunShort(Step(s, actions[0]), actions[1..]);
    }
  }

  /** No run has more than 48 n + 7 steps. */
  lemma {:induction false} RunsEnd(n: nat, actions: seq<Action>)
    requires IsRun(Init(n), actions)
    ensures |actions| <= 48 * n + 7
  {
    InitInv(n);
    RunShort(Init(n), actions);
    RanksInit(n);
  }

  /** The launcher returns only when every thread has been joined once and none failed; it raises only
      the exception of a finished thread. */
  lemma {:induction false} OutcomeIsRight(s: State)
    requires Inv(s) && Over(s)
    ensures s.launcher == Done ==> |s.joined| == |s.workers| && forall i: nat :: i < |s.workers| ==> i in s.joined && !s.failed[i]
    ensures s.launcher.Raised? ==> s.failed[s.launcher.idx] && s.workers[s.launcher.idx] == Finished
  {
    if s.launcher == Done {
      Everyone(s.joined, |s.workers|);
    }
  }

  /** Nothing can happen any more. */
  ghost predicate Stuck(s: State) {
    forall a :: !Enabled(s, a)
  }

  /** A run that cannot go on has ended: the launcher has returned if and only if no thread failed. */
  lemma {:induction false} RunsEndRight(n: nat, actions: seq<Action>)
    requires IsRun(Init(n), actions) && Stuck(After(Init(n), actions))
    ensures var s := After(Init(n), actions);
            && Over(s) && |s.workers| == |s.failed| == n
            && (s.launcher == Done <==> forall i: nat :: i < n ==> !s.failed[i])
            && (forall i: nat :: i < n ==> s.workers[i] == Finished)
  {
    InitInv(n);
    RunInv(Init(n), actions);
    var s := After(Init(n), actions);
    if !Over(s) {
      var a := NoDeadlock(s);
    }
    OutcomeIsRight(s);
    forall i: nat | i < n
      ensures s.workers[i] == Finished
    {
      assert !Enabled(s, Worker(i, false));
      if s.lock.ByWorker? {
        assert !Enabled(s, Worker(s.lock.i, false));
      }
    }
  }
}
