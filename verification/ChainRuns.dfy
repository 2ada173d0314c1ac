/** Whole runs of a chain: every interleaving of ticks, timeout passes, failure passes and
    completions or failures reported from outside. */
module ChainRuns {
  import opened Wrappers
  import opened ChainTypes
  import opened Scheduler
  import opened SelectionLaws
  import opened Tracker
  import opened TrackerLaws

  // --- reports from outside ------------------------------------------------

  function CompletedById(ts: seq<Task>, id: string, at: string): (r: seq<Task>)
    ensures |r| == |ts|
  {
    var k := FirstIndex(ts, id);
    if k < |ts| && !ts[k].status.Completed? then ts[k := ts[k].(status := Completed, completedAt := Some(at))] else ts
  }

  function FailedById(ts: seq<Task>, id: string, message: string): (r: seq<Task>)
    ensures |r| == |ts|
  {
    FailOne(ts, id, message)
  }

  /** A report touches one task: a completion takes any task that is not completed, a failure only one that runs. */
  lemma ReportsTouchOne(ts: seq<Task>, id: string, text: string, i: nat)
    requires DistinctIds(ts) && i < |ts|
    ensures CompletedById(ts, id, text)[i] ==
              if ts[i].id == id && ts[i].status != Completed then ts[i].(status := Completed, completedAt := Some(text)) else ts[i]
    ensures FailedById(ts, id, text)[i] ==
              if ts[i].id == id && ts[i].status == TaskStatus.Running then ts[i].(status := TaskStatus.Failed, error := Some(text)) else ts[i]
  {
    if ts[i].id == id {
      FirstIndexIs(ts, i);
    }
  }

  // A finished task is recorded, then the chain advances.
  method CompleteAndAdvance(root: ChainDagRoot, id: string, outputs: Outputs, clock: Clock) returns (ready: seq<string>)
    modifies root.tasks
    ensures exists mid ::
              && mid == old(root.View()).(tasks := CompletedById(old(root.tasks[..]), id, clock.iso))
              && IsTick(mid, outputs, clock, root.View(), ready)
  {
    var k := FindIndex(root, id);
    if k < root.tasks.Length && root.tasks[k].status != Completed {
      root.tasks[k] := root.tasks[k].(status := Completed, completedAt := Some(clock.iso));
    }
    ghost var mid := root.View();
    ready := AdvanceDag(root, outputs, clock);
  }

  // --- steps and runs --------------------------------------------------------

  datatype Event =
    | Tick(outputs: Outputs, clock: Clock, ready: seq<string>)
    | Timeouts(read: StampReader, now: string, failed: seq<string>, expired: seq<string>)
    | Failures(plan: BackoffPlan)
    | Completion(id: string, at: string)
    | Failure(id: string, message: string)

  ghost predicate IsStep(pre: Chain, e: Event, post: Chain) {
    match e
    case Tick(outputs, clock, ready) => IsTick(pre, outputs, clock, post, ready)
    case Timeouts(read, now, failed, expired) => IsTimeoutPass(pre, read, now, post, failed, expired)
    case Failures(plan) => post == AfterFailures(pre, plan).0
    case Completion(id, at) => post == pre.(tasks := CompletedById(pre.tasks, id, at))
    case Failure(id, message) => post == pre.(tasks := FailedById(pre.tasks, id, message))
  }

  predicate IsEngineEvent(e: Event) {
    e.Tick? || e.Timeouts? || e.Failures?
  }

  ghost predicate IsFresh(c: Chain) {
    DistinctIds(c.tasks) && forall i :: 0 <= i < |c.tasks| ==> c.tasks[i].status.Pending? && c.tasks[i].attempt == 0
  }

  ghost predicate IsRun(trace: seq<Chain>, events: seq<Event>) {
    && |trace| == |events| + 1
    && IsFresh(trace[0])
    && forall i :: 0 <= i < |events| ==> IsStep(trace[i], events[i], trace[i + 1])
  }

  // --- one task across one step ----------------------------------------------

  predicate SameSpec(t: Task, u: Task) {
    && t.id == u.id && t.dependsOn == u.dependsOn && t.round == u.round && t.condition == u.condition
    && t.group == u.group && t.timeout == u.timeout && t.retry == u.retry
  }

  // Every way a step can change the status and the attempt of a task.
  predicate LocalStep(config: Config, t: Task, u: Task) {
    SameSpec(t, u) &&
    if u.status.Running? && !t.status.Running? then
      t.status.IsStartable() && u.attempt == (if t.attempt < U32_MAX then t.attempt + 1 else t.attempt)
    else
      u.attempt == t.attempt &&
      (|| u.status == t.status
       || u.status.Completed?
       || (t.status.RetryScheduled? && u.status.Pending?)
       || (t.status.Running? && (u.status.Failed? || u.status.Skipped?))
       || (t.status.IsStartable() && (u.status.Skipped? || u.status.Blocked?))
       || (WillRetry(t, config) && (u.status.RetryScheduled? || u.status.Skipped? || u.status.Blocked?)))
  }

  lemma TickAt(pre: Chain, outputs: Outputs, clock: Clock, post: Chain, ready: seq<string>, i: nat)
    requires IsTick(pre, outputs, clock, post, ready) && Schedules(pre) && DistinctIds(pre.tasks) && i < |pre.tasks|
    ensures |post.tasks| == |pre.tasks|
    ensures var waiting := ExpireAll(pre.tasks, clock.millis);
            if waiting[i].id in ready
            then Eligible(waiting[i], waiting, outputs) && waiting[i].status.IsStartable()
                 && post.tasks[i] == Started(waiting[i], clock.iso)
            else post.tasks[i] == waiting[i]
  {
    var waiting := ExpireAll(pre.tasks, clock.millis);
    var cap := pre.config.maxConcurrent;
    var order, picks :| IsSelection(waiting, outputs, cap, order, picks, ready);
    ReadyHasNoRepeats(waiting, outputs, cap, order, picks, ready);
    StartAllAt(waiting, ready, clock.iso, i);
    if waiting[i].id in ready {
      var j :| 0 <= j < |ready| && ready[j] == waiting[i].id;
      var k := PickedTask(waiting, outputs, cap, order, picks, ready, j);
    }
  }

  lemma StepShape(pre: Chain, e: Event, post: Chain)
    requires IsStep(pre, e, post)
    ensures |post.tasks| == |pre.tasks| && post.config == pre.config && post.mode == pre.mode
  {
  }

  lemma TickIsLocal(pre: Chain, outputs: Outputs, clock: Clock, post: Chain, ready: seq<string>, i: nat)
    requires IsTick(pre, outputs, clock, post, ready) && DistinctIds(pre.tasks) && i < |pre.tasks| == |post.tasks|
    ensures LocalStep(pre.config, pre.tasks[i], post.tasks[i])
  {
    hide IsSelection, DistinctIds, Eligible;
    if Schedules(pre) {
      TickAt(pre, outputs, clock, post, ready, i);
    }
  }

  lemma TimeoutIsLocal(pre: Chain, read: StampReader, now: string, post: Chain, failed: seq<string>, expired: seq<string>, i: nat)
    requires IsTimeoutPass(pre, read, now, post, failed, expired) && DistinctIds(pre.tasks) && i < |pre.tasks| == |post.tasks|
    ensures LocalStep(pre.config, pre.tasks[i], post.tasks[i])
  {
    hide DistinctIds, NoRepeats, GroupExpired;
    if pre.mode == Dag {
      TimeoutsAreExact(pre, read, now, post, failed, expired);
    }
  }

  lemma FailurePassIsLocal(pre: Chain, plan: BackoffPlan, i: nat)
    requires i < |pre.tasks| == |AfterFailures(pre, plan).0.tasks|
    ensures LocalStep(pre.config, pre.tasks[i], AfterFailures(pre, plan).0.tasks[i])
  {
    hide IdsWith, RetriedIds;
  }

  lemma StepIsLocal(pre: Chain, e: Event, post: Chain, i: nat)
    requires IsStep(pre, e, post) && DistinctIds(pre.tasks) && i < |pre.tasks|
    ensures |post.tasks| == |pre.tasks| && LocalStep(pre.config, pre.tasks[i], post.tasks[i])
  {
    hide IsTick, DistinctIds, IsTimeoutPass, AfterFailures;
    StepShape(pre, e, post);
    match e {
      case Tick(outputs, clock, ready) => TickIsLocal(pre, outputs, clock, post, ready, i);
      case Timeouts(read, now, failed, expired) => TimeoutIsLocal(pre, read, now, post, failed, expired, i);
      case Failures(plan) => FailurePassIsLocal(pre, plan, i);
      case Completion(id, at) =>
      case Failure(id, message) =>
    }
  }

  lemma StepKeepsIds(pre: Chain, e: Event, post: Chain)
    requires IsStep(pre, e, post) && DistinctIds(pre.tasks)
    ensures |post.tasks| == |pre.tasks| && DistinctIds(post.tasks)
  {
    hide IsStep;
    StepShape(pre, e, post);
    forall i | 0 <= i < |pre.tasks| ensures post.tasks[i].id == pre.tasks[i].id {
      StepIsLocal(pre, e, post, i);
    }
  }

  /** The engine never touches a completed, skipped or blocked task. */
  lemma EngineKeepsFinished(pre: Chain, e: Event, post: Chain, i: nat)
    requires IsStep(pre, e, post) && IsEngineEvent(e) && DistinctIds(pre.tasks) && i < |pre.tasks|
    requires pre.tasks[i].status.Completed? || pre.tasks[i].status.Skipped? || pre.tasks[i].status.Blocked?
    ensures |post.tasks| == |pre.tasks| && post.tasks[i] == pre.tasks[i]
  {
    hide IsSelection, DistinctIds, Eligible, NoRepeats, GroupExpired;
    StepShape(pre, e, post);
    match e {
      case Tick(outputs, clock, ready) =>
        if Schedules(pre) {
          TickAt(pre, outputs, clock, post, ready, i);
        }
      case Timeouts(read, now, failed, expired) =>
        if pre.mode == Dag {
          TimeoutsAreExact(pre, read, now, post, failed, expired);
        }
      case Failures(plan) =>
    }
  }

  // --- termination -----------------------------------------------------------

  /** How often the task may be started: once, or as often as its retry policy allows. */
  function Budget(t: Task, config: Config): u32 {
    var policy := PolicyOf(t, config);
    if policy.Some? && policy.value.maxAttempts > 1 then policy.value.maxAttempts else 1
  }

  function Weight(s: TaskStatus): nat {
    match s
    case Completed => 0
    case Skipped => 1
    case Blocked => 1
    case Pending => 2
    case RetryScheduled => 3
    case Failed => 4
    case Running => 5
  }

  ghost predicate WithinBudget(t: Task, config: Config) {
    t.attempt <= Budget(t, config) && (t.status.IsStartable() ==> t.attempt < Budget(t, config))
  }

  function Measure(t: Task, config: Config): int {
    4 * (Budget(t, config) - t.attempt) + Weight(t.status)
  }

  lemma LocalStepDescends(config: Config, t: Task, u: Task)
    requires LocalStep(config, t, u) && WithinBudget(t, config)
    ensures WithinBudget(u, config)
    ensures u.status != t.status ==> Measure(u, config) < Measure(t, config)
    ensures u.status == t.status ==> Measure(u, config) == Measure(t, config)
    ensures Measure(u, config) >= 0
  {
  }

  function TotalMeasure(ts: seq<Task>, config: Config): int {
    if ts == [] then 0 else TotalMeasure(ts[..|ts| - 1], config) + Measure(ts[|ts| - 1], config)
  }

  function Statuses(ts: seq<Task>): (r: seq<TaskStatus>)
    ensures |r| == |ts| && forall i :: 0 <= i < |ts| ==> r[i] == ts[i].status
  {
    seq(|ts|, i requires 0 <= i < |ts| => ts[i].status)
  }

  lemma {:induction false} TotalDescends(ts: seq<Task>, us: seq<Task>, config: Config)
    requires |ts| == |us|
    requires forall i :: 0 <= i < |ts| ==> LocalStep(config, ts[i], us[i]) && WithinBudget(ts[i], config)
    ensures 0 <= TotalMeasure(us, config) <= TotalMeasure(ts, config)
    ensures Statuses(ts) != Statuses(us) ==> TotalMeasure(us, config) < TotalMeasure(ts, config)
  {
    hide LocalStep, WithinBudget, Measure;
    if ts != [] {
      var n := |ts| - 1;
      TotalDescends(ts[..n], us[..n], config);
      LocalStepDescends(config, ts[n], us[n]);
      if ts[n].status == us[n].status && Statuses(ts[..n]) == Statuses(us[..n]) {
        forall i | 0 <= i < |ts| ensures ts[i].status == us[i].status {
          if i < n {
            assert Statuses(ts[..n])[i] == Statuses(us[..n])[i];
          }
        }
        assert Statuses(ts) == Statuses(us);
      }
    }
  }

  // How many steps of the run change the status of some task.
  function Changes(trace: seq<Chain>): nat {
    if |trace| <= 1 then 0 else
      var n := |trace| - 1;
      Changes(trace[..n]) + (if Statuses(trace[n].tasks) != Statuses(trace[n - 1].tasks) then 1 else 0)
  }

  // The most status changes a fresh chain can go through.
  function Bound(ts: seq<Task>, config: Config): nat {
    if ts == [] then 0 else Bound(ts[..|ts| - 1], config) + 4 * Budget(ts[|ts| - 1], config) + 2
  }

  lemma {:induction false} FreshMeasure(ts: seq<Task>, config: Config)
    requires forall i :: 0 <= i < |ts| ==> ts[i].status.Pending? && ts[i].attempt == 0
    ensures TotalMeasure(ts, config) == Bound(ts, config)
  {
    if ts != [] {
      FreshMeasure(ts[..|ts| - 1], config);
    }
  }

  ghost predicate InBudget(c: Chain) {
    DistinctIds(c.tasks) && forall i :: 0 <= i < |c.tasks| ==> WithinBudget(c.tasks[i], c.config)
  }

  lemma StepDescends(pre: Chain, e: Event, post: Chain)
    requires IsStep(pre, e, post) && InBudget(pre)
    ensures InBudget(post) && post.config == pre.config && |post.tasks| == |pre.tasks|
    ensures 0 <= TotalMeasure(post.tasks, post.config) <= TotalMeasure(pre.tasks, pre.config)
    ensures Statuses(pre.tasks) != Statuses(post.tasks) ==>
              TotalMeasure(post.tasks, post.config) < TotalMeasure(pre.tasks, pre.config)
  {
    hide IsStep, LocalStep, WithinBudget, Measure, TotalMeasure, DistinctIds;
    StepShape(pre, e, post);
    StepKeepsIds(pre, e, post);
    forall i | 0 <= i < |pre.tasks|
      ensures LocalStep(pre.config, pre.tasks[i], post.tasks[i]) && WithinBudget(post.tasks[i], post.config)
    {
      StepIsLocal(pre, e, post, i);
      LocalStepDescends(pre.config, pre.tasks[i], post.tasks[i]);
    }
    TotalDescends(pre.tasks, post.tasks, pre.config);
  }

  lemma {:induction false} RunDescends(trace: seq<Chain>, events: seq<Event>, n: nat)
    requires IsRun(trace, events) && n < |trace|
    ensures InBudget(trace[n]) && trace[n].config == trace[0].config && |trace[n].tasks| == |trace[0].tasks|
    ensures TotalMeasure(trace[n].tasks, trace[0].config) >= 0
    ensures Changes(trace[..n + 1]) + TotalMeasure(trace[n].tasks, trace[0].config)
            <= TotalMeasure(trace[0].tasks, trace[0].config)
  {
    hide IsStep, TotalMeasure, Statuses;
    if n == 0 {
      FreshMeasure(trace[0].tasks, trace[0].config);
    } else {
      RunDescends(trace, events, n - 1);
      assert IsStep(trace[n - 1], events[n - 1], trace[n]);
      StepDescends(trace[n - 1], events[n - 1], trace[n]);
      assert trace[..n + 1][..n] == trace[..n];
    }
  }

  /** Every run settles: whatever the interleaving, no task is started more often than its budget, and
      the steps that change a status are at most 4·budget + 2 for each task. */
  lemma RunsTerminate(trace: seq<Chain>, events: seq<Event>)
    requires IsRun(trace, events)
    ensures Changes(trace) <= Bound(trace[0].tasks, trace[0].config)
    ensures forall n, i :: 0 <= n < |trace| && 0 <= i < |trace[n].tasks| ==>
              trace[n].tasks[i].attempt <= Budget(trace[n].tasks[i], trace[0].config)
  {
    hide Changes, TotalMeasure, Bound, IsStep, Budget;
    RunDescends(trace, events, |trace| - 1);
    FreshMeasure(trace[0].tasks, trace[0].config);
    assert trace[..|trace|] == trace;
    forall n | 0 <= n < |trace| ensures InBudget(trace[n]) && trace[n].config == trace[0].config {
      RunDescends(trace, events, n);
    }
  }
}
