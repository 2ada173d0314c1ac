/** When a tick starts something, when it does not, and that a validated chain gets finished. */
module Progress {
  import opened Wrappers
  import opened ChainTypes
  import opened CycleDetection
  import opened Scheduler
  import opened SelectionLaws
  import opened ChainRuns
  import opened ChainSafety

  // --- when a tick starts nothing ------------------------------------------------

  /** The global cap is reached, or every group with an eligible task is named and at its cap. */
  ghost predicate NothingToStart(ts: seq<Task>, outputs: Outputs, cap: u32) {
    RunningTotal(ts) >= cap ||
    forall g :: FullQueue(ts, outputs, g) != [] ==> g.Some? && RunningIn(ts, g) >= GroupCap(cap)
  }

  /** A tick starts nothing exactly when there is nothing it may start. */
  lemma IdleExactlyWhen(pre: Chain, outputs: Outputs, clock: Clock, post: Chain, ready: seq<string>)
    requires IsTick(pre, outputs, clock, post, ready) && Schedules(pre)
    ensures ready == [] <==> NothingToStart(ExpireAll(pre.tasks, clock.millis), outputs, pre.config.maxConcurrent)
  {
    var ts, cap := ExpireAll(pre.tasks, clock.millis), pre.config.maxConcurrent;
    var order, picks :| IsSelection(ts, outputs, cap, order, picks, ready);
    forall g ensures Servable(ts, outputs, cap, g, [], []) <==>
                       FullQueue(ts, outputs, g) != [] && (g.Some? ==> RunningIn(ts, g) < GroupCap(cap)) {
    }
    if ready == [] {
      assert picks == [];
    } else {
      GoesOn(ts, outputs, cap, order, picks, ready, 0);
      assert picks[..0] == [] && ready[..0] == [];
    }
  }

  // --- progress ------------------------------------------------------------------

  ghost predicate IsUnconditional(ts: seq<Task>) {
    forall i :: 0 <= i < |ts| ==> ts[i].condition.None?
  }

  ghost predicate DependsOn(ts: seq<Task>, i: int, j: int) {
    0 <= i < |ts| && 0 <= j < |ts| && ts[j].id in ts[i].dependsOn
  }

  /** One unfinished task needs the other, which has to wait for the round of the first. */
  ghost predicate WaitForEachOther(ts: seq<Task>, i: int, j: int) {
    DependsOn(ts, i, j) && MustWaitFor(ts[j], ts[i]) && ts[i].status.IsStartable() && ts[j].status.IsStartable()
  }

  ghost predicate NoMutualWait(ts: seq<Task>) {
    forall i, j :: !WaitForEachOther(ts, i, j)
  }

  ghost predicate NoneActive(ts: seq<Task>) {
    forall i :: 0 <= i < |ts| ==> ts[i].status.IsStartable() || ts[i].status.IsDone()
  }

  predicate IsChainComplete(ts: seq<Task>) {
    forall i :: 0 <= i < |ts| ==> ts[i].status.IsTerminal()
  }

  function RankAt(rank: map<string, nat>, id: string): nat {
    if id in rank then rank[id] else 0
  }

  // From any unfinished task, walking to lower rounds and along dependencies finds an eligible one.
  lemma {:induction false} SomeTaskIsEligible(ts: seq<Task>, outputs: Outputs, rank: map<string, nat>, i: nat) returns (k: nat)
    requires DistinctIds(ts) && ReferencesResolve(ts) && IsRank(TaskGraph(ts), rank)
    requires IsUnconditional(ts) && NoMutualWait(ts) && NoneActive(ts)
    requires i < |ts| && ts[i].status.IsStartable()
    ensures k < |ts| && Eligible(ts[k], ts, outputs)
    decreases Max(1, RoundOf(ts[i])), RankAt(rank, ts[i].id)
  {
    if !RoundOpen(ts[i], ts) {
      var j :| 0 <= j < |ts| && !ts[j].status.IsTerminal() && RoundOf(ts[j]) < RoundOf(ts[i]);
      k := SomeTaskIsEligible(ts, outputs, rank, j);
    } else if !DependenciesMet(ts[i], StatusMap(ts)) {
      MetMeansDone(ts[i], ts);
      var d :| 0 <= d < |ts[i].dependsOn| && !HasDone(ts, ts[i].dependsOn[d]);
      assert DependenciesResolve(ts[i], ts);
      var j :| 0 <= j < |ts| && ts[j].id == ts[i].dependsOn[d];
      TaskGraphAt(ts, i);
      assert Edge(TaskGraph(ts), ts[i].id, ts[j].id);
      assert DependsOn(ts, i, j) && ts[j].status.IsStartable() && !WaitForEachOther(ts, i, j);
      k := SomeTaskIsEligible(ts, outputs, rank, j);
    } else {
      k := i;
    }
  }

  /** A validated chain that the scheduler works on, without conditions, while nothing runs. */
  ghost predicate IsSettled(c: Chain) {
    Schedules(c) && IsValidChain(c.tasks) && IsUnconditional(c.tasks) && NoneActive(c.tasks)
  }

  /** What progress needs of a chain. */
  ghost predicate CanProgress(c: Chain) {
    IsSettled(c) && NoMutualWait(c.tasks)
  }

  lemma SameShapeSameGraph(ts: seq<Task>, us: seq<Task>)
    requires |ts| == |us| && forall i :: 0 <= i < |ts| ==> SameSpec(ts[i], us[i])
    ensures TaskGraph(ts) == TaskGraph(us)
  {
    if ts != [] {
      SameShapeSameGraph(ts[..|ts| - 1], us[..|us| - 1]);
    }
  }

  lemma SameShapeNoMutualWait(ts: seq<Task>, us: seq<Task>)
    requires |ts| == |us| && NoMutualWait(ts)
    requires forall i :: 0 <= i < |ts| ==> SameSpec(ts[i], us[i]) && (us[i].status.IsStartable() ==> ts[i].status.IsStartable())
    ensures NoMutualWait(us)
  {
    forall i, j ensures !WaitForEachOther(us, i, j) {
      assert !WaitForEachOther(ts, i, j);
    }
  }

  // Everything progress asks for, apart from the statuses, is fixed when the chain is made.
  lemma SameShapeCanProgress(c: Chain, d: Chain)
    requires CanProgress(c) && d == c.(tasks := d.tasks) && |d.tasks| == |c.tasks| && NoneActive(d.tasks)
    requires forall i :: 0 <= i < |c.tasks| ==>
               SameSpec(c.tasks[i], d.tasks[i]) && (d.tasks[i].status.IsStartable() ==> c.tasks[i].status.IsStartable())
    ensures CanProgress(d)
  {
    hide NoMutualWait;
    var ts, us := c.tasks, d.tasks;
    SameShapeSameGraph(ts, us);
    forall id ensures HasId(ts, id) <==> HasId(us, id) {
      if HasId(ts, id) {
        var i :| 0 <= i < |ts| && ts[i].id == id;
        assert us[i].id == id;
      }
      if HasId(us, id) {
        var i :| 0 <= i < |us| && us[i].id == id;
        assert ts[i].id == id;
      }
    }
    forall i | 0 <= i < |us| ensures DependenciesResolve(us[i], us) && SourceResolves(us[i], us) {
      assert DependenciesResolve(ts[i], ts) && SourceResolves(ts[i], ts);
    }
    SameShapeNoMutualWait(ts, us);
  }

  lemma ExpireKeepsProgress(c: Chain, millis: int)
    requires CanProgress(c)
    ensures CanProgress(c.(tasks := ExpireAll(c.tasks, millis)))
  {
    SameShapeCanProgress(c, c.(tasks := ExpireAll(c.tasks, millis)));
  }

  /** While something is unfinished and nothing is running, a tick starts at least one task. */
  lemma TickMakesProgress(pre: Chain, outputs: Outputs, clock: Clock, post: Chain, ready: seq<string>)
    requires IsTick(pre, outputs, clock, post, ready) && CanProgress(pre) && !IsChainComplete(pre.tasks)
    ensures ready != []
  {
    hide IsTick, RunningTotal, RunningIn, DependenciesMet, RoundOpen, IsValidChain, NoMutualWait, FullQueue,
         Eligible, Ranked;
    IdleExactlyWhen(pre, outputs, clock, post, ready);
    var ts := ExpireAll(pre.tasks, clock.millis);
    ExpireKeepsProgress(pre, clock.millis);
    var i :| 0 <= i < |pre.tasks| && !pre.tasks[i].status.IsTerminal();
    var k := EligibleExists(ts, outputs, i);
    QueueNotEmpty(ts, outputs, k);
    NoneRunning(ts, ts[k].group);
  }

  lemma EligibleExists(ts: seq<Task>, outputs: Outputs, i: nat) returns (k: nat)
    requires IsValidChain(ts) && IsUnconditional(ts) && NoMutualWait(ts) && NoneActive(ts)
    requires i < |ts| && ts[i].status.IsStartable()
    ensures k < |ts| && Eligible(ts[k], ts, outputs)
  {
    var rank :| IsRank(TaskGraph(ts), rank);
    k := SomeTaskIsEligible(ts, outputs, rank, i);
  }

  lemma QueueNotEmpty(ts: seq<Task>, outputs: Outputs, k: nat)
    requires k < |ts| && Eligible(ts[k], ts, outputs)
    ensures FullQueue(ts, outputs, ts[k].group) != []
  {
    QueueHolds(ts, outputs, k, |ts|);
  }

  // --- finishing the chain ---------------------------------------------------------

  // Every running task is reported complete.
  function CompleteRunning(ts: seq<Task>, at: string): (r: seq<Task>)
    ensures |r| == |ts|
    ensures forall i :: 0 <= i < |ts| ==>
              r[i] == if ts[i].status.Running? then ts[i].(status := Completed, completedAt := Some(at)) else ts[i]
  {
    seq(|ts|, i requires 0 <= i < |ts| =>
      if ts[i].status.Running? then ts[i].(status := Completed, completedAt := Some(at)) else ts[i])
  }

  function Unfinished(ts: seq<Task>): (n: nat)
    ensures n <= |ts|
  {
    if ts == [] then 0 else Unfinished(ts[..|ts| - 1]) + (if ts[|ts| - 1].status.IsTerminal() then 0 else 1)
  }

  lemma {:induction false} UnfinishedShrinks(ts: seq<Task>, us: seq<Task>)
    requires |ts| == |us|
    requires forall i :: 0 <= i < |ts| && ts[i].status.IsTerminal() ==> us[i].status.IsTerminal()
    ensures Unfinished(us) <= Unfinished(ts)
    ensures (exists i :: 0 <= i < |ts| && !ts[i].status.IsTerminal() && us[i].status.IsTerminal()) ==> Unfinished(us) < Unfinished(ts)
  {
    if ts != [] {
      var n := |ts| - 1;
      UnfinishedShrinks(ts[..n], us[..n]);
      if i :| 0 <= i < n && !ts[i].status.IsTerminal() && us[i].status.IsTerminal() {
        assert !ts[..n][i].status.IsTerminal() && us[..n][i].status.IsTerminal();
      }
    }
  }

  lemma {:induction false} NoneUnfinished(ts: seq<Task>)
    ensures IsChainComplete(ts) <==> Unfinished(ts) == 0
  {
    if ts != [] {
      var n := |ts| - 1;
      NoneUnfinished(ts[..n]);
      assert IsChainComplete(ts) <==> IsChainComplete(ts[..n]) && ts[n].status.IsTerminal() by {
        forall i | 0 <= i < n ensures ts[..n][i] == ts[i] {
        }
      }
    }
  }

  ghost predicate IsRoundTrip(pre: Chain, post: Chain) {
    exists outputs, clock, mid, ready, at ::
      IsTick(pre, outputs, clock, mid, ready) && post == mid.(tasks := CompleteRunning(mid.tasks, at))
  }

  lemma RoundTripShrinks(pre: Chain, post: Chain)
    requires IsRoundTrip(pre, post) && CanProgress(pre)
    ensures CanProgress(post) && |post.tasks| == |pre.tasks|
    ensures Unfinished(post.tasks) <= Unfinished(pre.tasks)
    ensures !IsChainComplete(pre.tasks) ==> Unfinished(post.tasks) < Unfinished(pre.tasks)
  {
    hide IsTick, CanProgress, IsChainComplete, DistinctIds, Eligible;
    var outputs, clock, mid, ready, at :|
      IsTick(pre, outputs, clock, mid, ready) && post == mid.(tasks := CompleteRunning(mid.tasks, at));
    ProgressFacts(pre);
    var waiting := ExpireAll(pre.tasks, clock.millis);
    TickFrame(pre, outputs, clock, mid, ready);
    forall i | 0 <= i < |pre.tasks|
      ensures SameSpec(pre.tasks[i], post.tasks[i])
      ensures post.tasks[i].status.IsStartable() || post.tasks[i].status.IsDone()
      ensures post.tasks[i].status.IsStartable() ==> pre.tasks[i].status.IsStartable()
      ensures pre.tasks[i].status.IsTerminal() ==> post.tasks[i].status.IsTerminal()
      ensures waiting[i].id in ready ==> !pre.tasks[i].status.IsTerminal() && post.tasks[i].status.IsTerminal()
    {
      TickAt(pre, outputs, clock, mid, ready, i);
    }
    SameShapeCanProgress(pre, post);
    if !IsChainComplete(pre.tasks) {
      TickMakesProgress(pre, outputs, clock, mid, ready);
      var i := ReadyTask(pre, outputs, clock, mid, ready);
      assert !pre.tasks[i].status.IsTerminal() && post.tasks[i].status.IsTerminal();
    }
    UnfinishedShrinks(pre.tasks, post.tasks);
  }

  lemma ProgressFacts(c: Chain)
    requires CanProgress(c)
    ensures Schedules(c) && DistinctIds(c.tasks) && NoneActive(c.tasks)
  {
  }

  lemma TickFrame(pre: Chain, outputs: Outputs, clock: Clock, post: Chain, ready: seq<string>)
    requires IsTick(pre, outputs, clock, post, ready)
    ensures post == pre.(tasks := post.tasks) && |post.tasks| == |pre.tasks|
  {
  }

  lemma ReadyTask(pre: Chain, outputs: Outputs, clock: Clock, post: Chain, ready: seq<string>) returns (i: nat)
    requires IsTick(pre, outputs, clock, post, ready) && Schedules(pre) && ready != []
    ensures i < |pre.tasks| && ExpireAll(pre.tasks, clock.millis)[i].id in ready
  {
    var waiting := ExpireAll(pre.tasks, clock.millis);
    var order, picks :| IsSelection(waiting, outputs, pre.config.maxConcurrent, order, picks, ready);
    i := PickedTask(waiting, outputs, pre.config.maxConcurrent, order, picks, ready, 0);
  }

  lemma {:induction false} RoundTripsShrink(trace: seq<Chain>, n: nat)
    requires n < |trace| && CanProgress(trace[0])
    requires forall k :: 0 <= k < |trace| - 1 ==> IsRoundTrip(trace[k], trace[k + 1])
    ensures CanProgress(trace[n]) && |trace[n].tasks| == |trace[0].tasks|
    ensures Unfinished(trace[n].tasks) == 0 || Unfinished(trace[n].tasks) + n <= |trace[0].tasks|
  {
    hide CanProgress, IsRoundTrip, Unfinished;
    if n > 0 {
      RoundTripsShrink(trace, n - 1);
      assert IsRoundTrip(trace[n - 1], trace[n - 1 + 1]);
      RoundTripShrinks(trace[n - 1], trace[n]);
      NoneUnfinished(trace[n - 1].tasks);
    } else {
      assert Unfinished(trace[0].tasks) <= |trace[0].tasks|;
    }
  }

  /** Alternating ticks with the completion of what runs finishes the chain in at most as many ticks
      as it has tasks. */
  lemma ChainGetsFinished(trace: seq<Chain>)
    requires |trace| > 0 && CanProgress(trace[0]) && |trace| == |trace[0].tasks| + 1
    requires forall k :: 0 <= k < |trace| - 1 ==> IsRoundTrip(trace[k], trace[k + 1])
    ensures IsChainComplete(trace[|trace| - 1].tasks)
  {
    hide CanProgress, IsRoundTrip, Unfinished;
    RoundTripsShrink(trace, |trace| - 1);
    NoneUnfinished(trace[|trace| - 1].tasks);
  }

  // --- chains that get stuck ---------------------------------------------------------

  /** No tick starts either of two tasks that wait for each other, whatever the conditions and caps. */
  lemma MutualWaitStays(pre: Chain, outputs: Outputs, clock: Clock, post: Chain, ready: seq<string>, i: int, j: int)
    requires IsTick(pre, outputs, clock, post, ready) && DistinctIds(pre.tasks) && WaitForEachOther(pre.tasks, i, j)
    ensures pre.tasks[i].id !in ready && pre.tasks[j].id !in ready && WaitForEachOther(post.tasks, i, j)
  {
    hide IsSelection, DistinctIds, Eligible;
    if Schedules(pre) {
      var waiting := ExpireAll(pre.tasks, clock.millis);
      ExpireKeepsIds(pre.tasks, clock.millis);
      NeitherIsEligible(waiting, outputs, i, j);
      TickAt(pre, outputs, clock, post, ready, i);
      TickAt(pre, outputs, clock, post, ready, j);
    }
  }

  lemma NeitherIsEligible(ts: seq<Task>, outputs: Outputs, i: int, j: int)
    requires DistinctIds(ts) && WaitForEachOther(ts, i, j)
    ensures !Eligible(ts[i], ts, outputs) && !Eligible(ts[j], ts, outputs)
  {
    MetMeansDone(ts[i], ts);
    assert !HasDone(ts, ts[j].id);
  }

  lemma RoundTripStaysStuck(pre: Chain, post: Chain, i: int, j: int)
    requires IsRoundTrip(pre, post) && DistinctIds(pre.tasks) && WaitForEachOther(pre.tasks, i, j)
    ensures DistinctIds(post.tasks) && WaitForEachOther(post.tasks, i, j)
  {
    hide IsTick;
    var outputs, clock, mid, ready, at :|
      IsTick(pre, outputs, clock, mid, ready) && post == mid.(tasks := CompleteRunning(mid.tasks, at));
    MutualWaitStays(pre, outputs, clock, mid, ready, i, j);
    StepKeepsIds(pre, Tick(outputs, clock, ready), mid);
  }

  lemma {:induction false} StaysStuck(trace: seq<Chain>, n: nat, i: int, j: int)
    requires n < |trace| && DistinctIds(trace[0].tasks) && WaitForEachOther(trace[0].tasks, i, j)
    requires forall k :: 0 <= k < |trace| - 1 ==> IsRoundTrip(trace[k], trace[k + 1])
    ensures DistinctIds(trace[n].tasks) && WaitForEachOther(trace[n].tasks, i, j)
  {
    hide DistinctIds, IsRoundTrip, WaitForEachOther;
    if n > 0 {
      StaysStuck(trace, n - 1, i, j);
      assert IsRoundTrip(trace[n - 1], trace[n - 1 + 1]);
      RoundTripStaysStuck(trace[n - 1], trace[n], i, j);
    }
  }

  /** The exact condition for finishing: alternating ticks with completions finishes a validated chain without
      conditions if and only if no two of its unfinished tasks wait for each other. */
  lemma ChainGetsFinishedWhen(trace: seq<Chain>)
    requires |trace| > 0 && IsSettled(trace[0]) && |trace| == |trace[0].tasks| + 1
    requires forall k :: 0 <= k < |trace| - 1 ==> IsRoundTrip(trace[k], trace[k + 1])
    ensures IsChainComplete(trace[|trace| - 1].tasks) <==> NoMutualWait(trace[0].tasks)
  {
    hide IsRoundTrip, Unfinished, IsUnconditional, NoneActive, Ranked, ReferencesResolve;
    if NoMutualWait(trace[0].tasks) {
      ChainGetsFinished(trace);
    } else {
      var i, j :| WaitForEachOther(trace[0].tasks, i, j);
      StaysStuck(trace, |trace| - 1, i, j);
    }
  }

  function PlainTask(id: string, dependsOn: seq<string>, round: Option<u32>, condition: Option<Condition>): Task {
    Task(id, dependsOn, round, condition, None, None, None, Pending, 0, None, None, None, None, [])
  }

  /** Validation does not relate rounds to dependencies: this chain is valid, and its two tasks wait for each other. */
  lemma LaterRoundDependencyDeadlocks()
    ensures var ts := [PlainTask("a", ["b"], None, None), PlainTask("b", [], Some(2), None)];
            IsSettled(Chain(Dag, ts, Config(4, None, PauseDag), false)) && WaitForEachOther(ts, 0, 1)
  {
    var ts := [PlainTask("a", ["b"], None, None), PlainTask("b", [], Some(2), None)];
    assert ts[0].id != ts[1].id;
    assert HasId(ts, "b") by {
      assert ts[1].id == "b";
    }
    assert DistinctIds(ts) && ReferencesResolve(ts);
    var rank: map<string, nat> := map["a" := 1, "b" := 0];
    assert IsRank(TaskGraph(ts), rank) by {
      forall u, v | Edge(TaskGraph(ts), u, v) ensures u == "a" && v == "b" {
        TaskGraphKeys(ts, u);
        TaskGraphAt(ts, 0);
        TaskGraphAt(ts, 1);
      }
    }
    assert ts[1].id in ts[0].dependsOn;
  }
}
