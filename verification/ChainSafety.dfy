/** What holds in every reachable state of a chain: the caps, the dependencies of started tasks,
    and, without retries, the round barrier. */
module ChainSafety {
  import opened Wrappers
  import opened ChainTypes
  import opened Scheduler
  import opened SelectionLaws
  import opened Tracker
  import opened ChainRuns
  import TrackerLaws

  // --- caps ------------------------------------------------------------------

  lemma {:induction false} CountsShrink(ts: seq<Task>, us: seq<Task>, g: GroupKey)
    requires |ts| == |us|
    requires forall i :: 0 <= i < |ts| ==> us[i].group == ts[i].group && (us[i].status.Running? ==> ts[i].status.Running?)
    ensures RunningTotal(us) <= RunningTotal(ts) && RunningIn(us, g) <= RunningIn(ts, g)
  {
    if ts != [] {
      CountsShrink(ts[..|ts| - 1], us[..|us| - 1], g);
    }
  }

  lemma TickRespectsCaps(pre: Chain, outputs: Outputs, clock: Clock, post: Chain, ready: seq<string>, g: GroupKey)
    requires IsTick(pre, outputs, clock, post, ready) && DistinctIds(pre.tasks)
    ensures RunningTotal(post.tasks) <= Max(RunningTotal(pre.tasks), pre.config.maxConcurrent)
    ensures g.Some? ==> RunningIn(post.tasks, g) <= Max(RunningIn(pre.tasks, g), GroupCap(pre.config.maxConcurrent))
  {
    hide IsSelectionSoFar, RunningTotal, RunningIn, StartAll, DistinctIds, IsOrder, Servable;
    if Schedules(pre) {
      var cap := pre.config.maxConcurrent;
      var waiting := ExpireAll(pre.tasks, clock.millis);
      var order, picks :| IsSelection(waiting, outputs, cap, order, picks, ready);
      ExpireKeepsIds(pre.tasks, clock.millis);
      CountsAgree(pre.tasks, waiting, g);
      SameLength(waiting, outputs, cap, order, picks, ready);
      assert ready[..|ready|] == ready && picks[..|picks|] == picks;
      CountsAfterStart(waiting, outputs, cap, order, picks, ready, clock.iso, |ready|, g);
      RespectsGlobalCap(waiting, outputs, cap, order, picks, ready);
      if g.Some? {
        RespectsGroupCap(waiting, outputs, cap, order, picks, ready, g);
      }
    }
  }

  /** In numbers: a named group runs at most half the cap, rounded up, unless it ran more before. */
  lemma TickSharesTheCap(pre: Chain, outputs: Outputs, clock: Clock, post: Chain, ready: seq<string>, name: string)
    requires IsTick(pre, outputs, clock, post, ready) && DistinctIds(pre.tasks)
    ensures 2 * RunningIn(post.tasks, Some(name)) <= Max(2 * RunningIn(pre.tasks, Some(name)), pre.config.maxConcurrent + 1)
  {
    hide IsTick, RunningIn, DistinctIds;
    TickRespectsCaps(pre, outputs, clock, post, ready, Some(name));
  }

  lemma LeftOverIsCapped(ts: seq<Task>, outputs: Outputs, cap: u32, order: seq<GroupKey>, picks: seq<GroupKey>,
                         ready: seq<string>, i: nat)
    requires IsSelection(ts, outputs, cap, order, picks, ready) && DistinctIds(ts) && RunningTotal(ts) + |ready| < cap
    requires i < |ts| && Eligible(ts[i], ts, outputs) && ts[i].id !in ready
    ensures ts[i].group.Some? && 2 * (RunningIn(ts, ts[i].group) + Count(picks, ts[i].group)) >= cap
  {
    hide Eligible, PickOk, Queue, RunningTotal, RunningIn, Count;
    var g := ts[i].group;
    QueueHolds(ts, outputs, i, |ts|);
    var queue := FullQueue(ts, outputs, g);
    var p :| 0 <= p < |queue| && queue[p] == ts[i].id;
    if p < Count(picks, g) {
      FrontIsReady(ts, outputs, cap, order, picks, ready, g, p);
    }
    assert g in order && !Servable(ts, outputs, cap, g, picks, ready);
    assert picks[..|picks|] == picks && ready[..|ready|] == ready;
    GroupsOfAreThePicks(ts, outputs, cap, order, picks, ready, |ready|);
  }

  /** And it runs no less: a tick leaves an eligible task where it is only when the cap is full, or its group is a named
      one that runs half the cap or more. */
  lemma TickFillsGroups(pre: Chain, outputs: Outputs, clock: Clock, post: Chain, ready: seq<string>, i: nat)
    requires IsTick(pre, outputs, clock, post, ready) && Schedules(pre) && DistinctIds(pre.tasks) && i < |pre.tasks|
    requires var waiting := ExpireAll(pre.tasks, clock.millis); Eligible(waiting[i], waiting, outputs) && waiting[i].id !in ready
    requires RunningTotal(post.tasks) < pre.config.maxConcurrent
    ensures pre.tasks[i].group.Some? && 2 * RunningIn(post.tasks, pre.tasks[i].group) >= pre.config.maxConcurrent
  {
    hide IsSelectionSoFar, RunningTotal, RunningIn, StartAll, DistinctIds, IsOrder, Servable, Eligible, Count;
    var cap, waiting := pre.config.maxConcurrent, ExpireAll(pre.tasks, clock.millis);
    var order, picks :| IsSelection(waiting, outputs, cap, order, picks, ready);
    ExpireKeepsIds(pre.tasks, clock.millis);
    SameLength(waiting, outputs, cap, order, picks, ready);
    assert ready[..|ready|] == ready && picks[..|picks|] == picks;
    CountsAfterStart(waiting, outputs, cap, order, picks, ready, clock.iso, |ready|, waiting[i].group);
    LeftOverIsCapped(waiting, outputs, cap, order, picks, ready, i);
  }

  /** Within a group tasks start in entry order. */
  lemma TickKeepsOrder(pre: Chain, outputs: Outputs, clock: Clock, post: Chain, ready: seq<string>, i: nat, j: nat)
    requires IsTick(pre, outputs, clock, post, ready) && Schedules(pre) && DistinctIds(pre.tasks)
    requires i < j < |pre.tasks| && pre.tasks[i].group == pre.tasks[j].group && pre.tasks[j].id in ready
    requires var waiting := ExpireAll(pre.tasks, clock.millis);
             Eligible(waiting[i], waiting, outputs) && Eligible(waiting[j], waiting, outputs)
    ensures pre.tasks[i].id in ready
  {
    hide IsSelectionSoFar, StartAll, DistinctIds, IsOrder, Servable, Eligible, RunningTotal;
    var cap, waiting := pre.config.maxConcurrent, ExpireAll(pre.tasks, clock.millis);
    var order, picks :| IsSelection(waiting, outputs, cap, order, picks, ready);
    ExpireKeepsIds(pre.tasks, clock.millis);
    EarlierIsPickedFirst(waiting, outputs, cap, order, picks, ready, i, j);
  }

  lemma ExpireKeepsIds(ts: seq<Task>, millis: int)
    requires DistinctIds(ts)
    ensures DistinctIds(ExpireAll(ts, millis))
  {
  }

  ghost predicate WithinCaps(c: Chain) {
    && RunningTotal(c.tasks) <= c.config.maxConcurrent
    && forall g: GroupKey :: g.Some? ==> RunningIn(c.tasks, g) <= GroupCap(c.config.maxConcurrent)
  }

  lemma StepRespectsCap(pre: Chain, e: Event, post: Chain, g: GroupKey)
    requires IsStep(pre, e, post) && DistinctIds(pre.tasks)
    ensures RunningTotal(post.tasks) <= Max(RunningTotal(pre.tasks), pre.config.maxConcurrent)
    ensures g.Some? ==> RunningIn(post.tasks, g) <= Max(RunningIn(pre.tasks, g), GroupCap(pre.config.maxConcurrent))
  {
    hide RunningTotal, RunningIn, DistinctIds, IsTick, IsTimeoutPass;
    if e.Tick? {
      TickRespectsCaps(pre, e.outputs, e.clock, post, e.ready, g);
    } else {
      OnlyTicksStart(pre, e, post);
      CountsShrink(pre.tasks, post.tasks, g);
    }
  }

  lemma StepRespectsCaps(pre: Chain, e: Event, post: Chain)
    requires IsStep(pre, e, post) && DistinctIds(pre.tasks) && WithinCaps(pre)
    ensures WithinCaps(post)
  {
    hide RunningTotal, RunningIn, DistinctIds, IsStep;
    StepShape(pre, e, post);
    StepRespectsCap(pre, e, post, None);
    forall g: GroupKey | g.Some? ensures RunningIn(post.tasks, g) <= GroupCap(post.config.maxConcurrent) {
      StepRespectsCap(pre, e, post, g);
    }
  }

  lemma OnlyTicksStart(pre: Chain, e: Event, post: Chain)
    requires IsStep(pre, e, post) && DistinctIds(pre.tasks) && !e.Tick?
    ensures |post.tasks| == |pre.tasks|
    ensures forall i :: 0 <= i < |pre.tasks| ==>
              post.tasks[i].group == pre.tasks[i].group
              && (post.tasks[i].status.Running? ==> pre.tasks[i].status.Running?)
              && post.tasks[i].attempt == pre.tasks[i].attempt
  {
    hide DistinctIds, GroupExpired, NoRepeats;
    StepShape(pre, e, post);
    if e.Timeouts? && pre.mode == Dag {
      TrackerLaws.TimeoutsAreExact(pre, e.read, e.now, post, e.failed, e.expired);
    }
  }

  lemma {:induction false} NoneRunning(ts: seq<Task>, g: GroupKey)
    requires forall i :: 0 <= i < |ts| ==> !ts[i].status.Running?
    ensures RunningTotal(ts) == 0 && RunningIn(ts, g) == 0
  {
    if ts != [] {
      NoneRunning(ts[..|ts| - 1], g);
    }
  }

  // --- dependencies ------------------------------------------------------------

  ghost predicate HasDone(ts: seq<Task>, id: string) {
    exists i :: 0 <= i < |ts| && ts[i].id == id && ts[i].status.IsDone()
  }

  lemma MetMeansDone(t: Task, ts: seq<Task>)
    requires DistinctIds(ts)
    ensures DependenciesMet(t, StatusMap(ts)) <==> forall k :: 0 <= k < |t.dependsOn| ==> HasDone(ts, t.dependsOn[k])
  {
    forall k | 0 <= k < |t.dependsOn|
      ensures t.dependsOn[k] in StatusMap(ts) && StatusMap(ts)[t.dependsOn[k]].IsDone() <==> HasDone(ts, t.dependsOn[k])
    {
      StatusMapKeys(ts, t.dependsOn[k]);
      if HasDone(ts, t.dependsOn[k]) {
        var i :| 0 <= i < |ts| && ts[i].id == t.dependsOn[k] && ts[i].status.IsDone();
        StatusMapAt(ts, i);
      }
    }
  }

  // A task without a round is in round 1.
  predicate IsInLowerRound(t: Task, round: u32) {
    (if t.round.Some? then t.round.value else 1) < round
  }

  predicate HasEnded(t: Task) {
    t.status in {Completed, TaskStatus.Failed, Skipped, Blocked}
  }

  ghost predicate IsCompletedOrSkipped(ts: seq<Task>, id: string) {
    exists j :: 0 <= j < |ts| && ts[j].id == id && ts[j].status in {Completed, Skipped}
  }

  lemma DoneMeans(ts: seq<Task>, id: string)
    ensures HasDone(ts, id) <==> IsCompletedOrSkipped(ts, id)
  {
  }

  // What the condition reads: the status of a task in the chain, or the stored output of one.
  ghost predicate ConditionHolds(ts: seq<Task>, outputs: Outputs, condition: Option<Condition>) {
    match condition
    case None => true
    case Some(StatusGate(source, accepts)) => exists j :: 0 <= j < |ts| && ts[j].id == source && ts[j].status in accepts
    case Some(OutputGate(source, test)) => source in outputs && test in outputs[source]
    case Some(ExpressionGate(_)) => false
  }

  /** Eligibility in terms of the entries alone: a task waits or has a retry scheduled, each of its dependencies names a
      completed or skipped task, its condition holds, and every task of a lower round has ended. */
  lemma EligibleWhen(ts: seq<Task>, outputs: Outputs, i: nat)
    requires DistinctIds(ts) && i < |ts|
    ensures Eligible(ts[i], ts, outputs) <==>
              && ts[i].status in {Pending, RetryScheduled}
              && (forall d :: 0 <= d < |ts[i].dependsOn| ==> IsCompletedOrSkipped(ts, ts[i].dependsOn[d]))
              && ConditionHolds(ts, outputs, ts[i].condition)
              && (ts[i].round.Some? && ts[i].round.value > 1 ==>
                    forall j :: 0 <= j < |ts| && IsInLowerRound(ts[j], ts[i].round.value) ==> HasEnded(ts[j]))
  {
    hide StatusMap, DependenciesMet, DistinctIds, ConditionMet, RoundOpen, ConditionHolds, HasDone, IsCompletedOrSkipped,
         IsInLowerRound, HasEnded;
    MetMeansDone(ts[i], ts);
    forall id ensures HasDone(ts, id) <==> IsCompletedOrSkipped(ts, id) {
      DoneMeans(ts, id);
    }
    ConditionReads(ts, outputs, i);
    RoundWaits(ts, i);
  }

  lemma ConditionReads(ts: seq<Task>, outputs: Outputs, i: nat)
    requires DistinctIds(ts) && i < |ts|
    ensures ConditionMet(ts[i], StatusMap(ts), outputs) <==> ConditionHolds(ts, outputs, ts[i].condition)
  {
    hide StatusMap;
    if ts[i].condition.Some? && ts[i].condition.value.StatusGate? {
      var source := ts[i].condition.value.source;
      StatusMapKeys(ts, source);
      if j :| 0 <= j < |ts| && ts[j].id == source {
        StatusMapAt(ts, j);
      }
    }
  }

  lemma RoundWaits(ts: seq<Task>, i: nat)
    requires i < |ts|
    ensures RoundOpen(ts[i], ts) <==>
              (ts[i].round.Some? && ts[i].round.value > 1 ==>
                 forall j :: 0 <= j < |ts| && IsInLowerRound(ts[j], ts[i].round.value) ==> HasEnded(ts[j]))
  {
  }

  // The task after its backoff, if that is over.
  function Awake(t: Task, millis: int): Task {
    match t.backoffUntil
    case Some(At(end)) => if t.status == RetryScheduled && end <= millis then t.(status := Pending, backoffUntil := None) else t
    case _ => t
  }

  /** All that a tick changes: nothing in a linear or paused chain or with a zero cap; and else the backoffs that are over,
      and the status, attempt and start of the tasks it reports. */
  lemma TickChanges(pre: Chain, outputs: Outputs, clock: Clock, post: Chain, ready: seq<string>, i: nat)
    requires IsTick(pre, outputs, clock, post, ready) && DistinctIds(pre.tasks) && i < |pre.tasks|
    ensures post == pre.(tasks := post.tasks) && |post.tasks| == |pre.tasks|
    ensures post.tasks[i] ==
              if pre.mode == Linear || pre.paused || pre.config.maxConcurrent == 0 then pre.tasks[i] else
                var t := Awake(pre.tasks[i], clock.millis);
                if t.id !in ready then t else
                  t.(status := TaskStatus.Running, startedAt := Some(clock.iso),
                     attempt := if t.attempt < 0xFFFF_FFFF then t.attempt + 1 else 0xFFFF_FFFF)
  {
    hide IsSelection, DistinctIds, Eligible;
    if Schedules(pre) {
      TickAt(pre, outputs, clock, post, ready, i);
    }
  }

  /** A task that was ever started has all its dependencies completed or skipped. */
  ghost predicate DependenciesSafe(ts: seq<Task>) {
    forall i, k :: 0 <= i < |ts| && ts[i].attempt > 0 && 0 <= k < |ts[i].dependsOn| ==> HasDone(ts, ts[i].dependsOn[k])
  }

  lemma DoneStays(pre: Chain, e: Event, post: Chain, id: string)
    requires IsStep(pre, e, post) && DistinctIds(pre.tasks) && HasDone(pre.tasks, id)
    ensures HasDone(post.tasks, id)
  {
    hide IsStep, DistinctIds;
    var i :| 0 <= i < |pre.tasks| && pre.tasks[i].id == id && pre.tasks[i].status.IsDone();
    StepIsLocal(pre, e, post, i);
    assert post.tasks[i].id == id && post.tasks[i].status.IsDone();
  }

  // A task whose attempt count a step raised was eligible when the step started it.
  lemma StartedWasEligible(pre: Chain, e: Event, post: Chain, i: nat)
    requires IsStep(pre, e, post) && DistinctIds(pre.tasks) && i < |pre.tasks|
    ensures |post.tasks| == |pre.tasks|
    ensures post.tasks[i].attempt != pre.tasks[i].attempt ==>
              e.Tick? && var waiting := ExpireAll(pre.tasks, e.clock.millis); Eligible(waiting[i], waiting, e.outputs)
  {
    hide DistinctIds, IsTick, Eligible, GroupExpired, NoRepeats, IsTimeoutPass;
    StepShape(pre, e, post);
    if e.Tick? {
      TickCases(pre, e.outputs, e.clock, post, e.ready, i);
    } else {
      OnlyTicksStart(pre, e, post);
    }
  }

  lemma TickCases(pre: Chain, outputs: Outputs, clock: Clock, post: Chain, ready: seq<string>, i: nat)
    requires IsTick(pre, outputs, clock, post, ready) && DistinctIds(pre.tasks) && i < |pre.tasks| == |post.tasks|
    ensures post.tasks[i].attempt == pre.tasks[i].attempt ||
            var waiting := ExpireAll(pre.tasks, clock.millis); Eligible(waiting[i], waiting, outputs)
  {
    hide DistinctIds, Eligible, IsSelection;
    if Schedules(pre) {
      TickAt(pre, outputs, clock, post, ready, i);
    }
  }

  lemma StepKeepsDependenciesSafe(pre: Chain, e: Event, post: Chain)
    requires IsStep(pre, e, post) && DistinctIds(pre.tasks) && DependenciesSafe(pre.tasks)
    ensures DependenciesSafe(post.tasks)
  {
    hide IsStep, DistinctIds, HasDone, DependenciesMet;
    StepShape(pre, e, post);
    var ts, us := pre.tasks, post.tasks;
    forall i, k | 0 <= i < |us| && us[i].attempt > 0 && 0 <= k < |us[i].dependsOn| ensures HasDone(us, us[i].dependsOn[k]) {
      StepIsLocal(pre, e, post, i);
      if us[i].attempt != ts[i].attempt {
        StartedWasEligible(pre, e, post, i);
        DependenciesDoneWhenEligible(ts, e.outputs, e.clock.millis, i, k);
      }
      DoneStays(pre, e, post, us[i].dependsOn[k]);
    }
  }

  lemma DependenciesDoneWhenEligible(ts: seq<Task>, outputs: Outputs, millis: int, i: nat, k: nat)
    requires DistinctIds(ts) && i < |ts| && k < |ts[i].dependsOn|
    requires var waiting := ExpireAll(ts, millis); Eligible(waiting[i], waiting, outputs)
    ensures HasDone(ts, ts[i].dependsOn[k])
  {
    var waiting := ExpireAll(ts, millis);
    ExpireKeepsIds(ts, millis);
    MetMeansDone(waiting[i], waiting);
    assert waiting[i].dependsOn == ts[i].dependsOn;
    var j :| 0 <= j < |waiting| && waiting[j].id == ts[i].dependsOn[k] && waiting[j].status.IsDone();
    assert ts[j].id == ts[i].dependsOn[k] && ts[j].status.IsDone();
  }

  // --- rounds ------------------------------------------------------------------

  ghost predicate HasNoRetries(c: Chain) {
    c.config.defaultRetry.None? && forall i :: 0 <= i < |c.tasks| ==> c.tasks[i].retry.None?
  }

  predicate MustWaitFor(t: Task, other: Task) {
    t.round.Some? && t.round.value > 1 && RoundOf(other) < t.round.value
  }

  /** Once a task of a round above 1 was started, every task of a lower round is terminal. */
  ghost predicate RoundsSafe(ts: seq<Task>) {
    forall i, j ::
      0 <= i < |ts| && 0 <= j < |ts| && ts[i].attempt > 0 && MustWaitFor(ts[i], ts[j]) ==> ts[j].status.IsTerminal()
  }

  // A failure pass that schedules a retry in a round some started task had waited for, and leaves the chain going.
  ghost predicate ReopensRound(c: Chain) {
    && c.mode == Dag
    && (c.config.onAnyFailure == Continue || forall k :: 0 <= k < |c.tasks| && c.tasks[k].status.Failed? ==> WillRetry(c.tasks[k], c.config))
    && exists i, j :: 0 <= i < |c.tasks| && 0 <= j < |c.tasks| && c.tasks[i].attempt > 0
                      && MustWaitFor(c.tasks[i], c.tasks[j]) && WillRetry(c.tasks[j], c.config)
  }

  lemma OtherEventsKeepTerminal(pre: Chain, e: Event, post: Chain, i: nat)
    requires IsStep(pre, e, post) && DistinctIds(pre.tasks) && !e.Failures? && i < |pre.tasks| && pre.tasks[i].status.IsTerminal()
    ensures |post.tasks| == |pre.tasks| && post.tasks[i].status.IsTerminal()
  {
    hide IsSelection, DistinctIds, Eligible, NoRepeats, GroupExpired, FirstIndex;
    StepShape(pre, e, post);
    match e {
      case Tick(outputs, clock, ready) =>
        if Schedules(pre) {
          TickAt(pre, outputs, clock, post, ready, i);
        }
      case Timeouts(read, now, failed, expired) =>
        if pre.mode == Dag {
          TrackerLaws.TimeoutsAreExact(pre, read, now, post, failed, expired);
        }
      case Completion(id, at) =>
      case Failure(id, message) =>
    }
  }

  lemma FailurePassOn(c: Chain, plan: BackoffPlan, i: nat)
    requires i < |c.tasks| && c.tasks[i].status.IsTerminal()
    ensures var us := AfterFailures(c, plan).0.tasks;
            |us| == |c.tasks| &&
            (us[i].status.IsTerminal() <==>
               !(c.mode == Dag && WillRetry(c.tasks[i], c.config) && (c.config.onAnyFailure == Continue || !AnyFailed(RetryAll(c.tasks, c.config, plan)))))
  {
    hide AnyFailed, AbortedIds, IdsWith, RetriedIds;
  }

  lemma FailedAfterRetries(c: Chain, plan: BackoffPlan)
    ensures AnyFailed(RetryAll(c.tasks, c.config, plan)) <==>
              exists k :: 0 <= k < |c.tasks| && c.tasks[k].status.Failed? && !WillRetry(c.tasks[k], c.config)
  {
    var ts := RetryAll(c.tasks, c.config, plan);
    forall k | 0 <= k < |ts| ensures ts[k].status.Failed? <==> c.tasks[k].status.Failed? && !WillRetry(c.tasks[k], c.config) {
    }
  }

  lemma StartsKeepRounds(pre: Chain, e: Event, post: Chain, i: nat, j: nat)
    requires IsStep(pre, e, post) && DistinctIds(pre.tasks) && RoundsSafe(pre.tasks) && i < |pre.tasks| && j < |pre.tasks|
    ensures |post.tasks| == |pre.tasks| && (MustWaitFor(post.tasks[i], post.tasks[j]) <==> MustWaitFor(pre.tasks[i], pre.tasks[j]))
    ensures post.tasks[i].attempt > 0 && MustWaitFor(pre.tasks[i], pre.tasks[j]) ==> pre.tasks[j].status.IsTerminal()
  {
    hide IsStep, DistinctIds, DependenciesMet, ConditionMet, WillRetry;
    StepShape(pre, e, post);
    StepIsLocal(pre, e, post, i);
    StepIsLocal(pre, e, post, j);
    StartedWasEligible(pre, e, post, i);
  }

  /** The round barrier survives a step exactly when the step is not a failure pass that reopens a round. */
  lemma RoundsStaySafeWhen(pre: Chain, e: Event, post: Chain)
    requires IsStep(pre, e, post) && DistinctIds(pre.tasks) && RoundsSafe(pre.tasks)
    ensures RoundsSafe(post.tasks) <==> !(e.Failures? && ReopensRound(pre))
  {
    hide IsStep, DistinctIds, MustWaitFor, WillRetry, AnyFailed, RetryAll;
    StepShape(pre, e, post);
    forall i, j | 0 <= i < |pre.tasks| && 0 <= j < |pre.tasks|
      ensures MustWaitFor(post.tasks[i], post.tasks[j]) <==> MustWaitFor(pre.tasks[i], pre.tasks[j])
      ensures post.tasks[i].attempt > 0 && MustWaitFor(pre.tasks[i], pre.tasks[j]) ==> pre.tasks[j].status.IsTerminal()
    {
      StartsKeepRounds(pre, e, post, i, j);
    }
    if e.Failures? {
      FailurePassKeepsRoundsWhen(pre, e.plan, post);
    } else {
      forall j | 0 <= j < |pre.tasks| && pre.tasks[j].status.IsTerminal() ensures post.tasks[j].status.IsTerminal() {
        OtherEventsKeepTerminal(pre, e, post, j);
      }
    }
  }

  lemma FailurePassKeepsRoundsWhen(pre: Chain, plan: BackoffPlan, post: Chain)
    requires IsStep(pre, Failures(plan), post) && |post.tasks| == |pre.tasks| && DistinctIds(pre.tasks)
    requires forall i, j :: 0 <= i < |pre.tasks| && 0 <= j < |pre.tasks| ==>
               && (MustWaitFor(post.tasks[i], post.tasks[j]) <==> MustWaitFor(pre.tasks[i], pre.tasks[j]))
               && (post.tasks[i].attempt > 0 && MustWaitFor(pre.tasks[i], pre.tasks[j]) ==> pre.tasks[j].status.IsTerminal())
    ensures RoundsSafe(post.tasks) <==> !ReopensRound(pre)
  {
    hide AfterFailures, DistinctIds, MustWaitFor, WillRetry, AnyFailed, RetryAll;
    FailedAfterRetries(pre, plan);
    forall i | 0 <= i < |pre.tasks| ensures post.tasks[i].attempt == pre.tasks[i].attempt {
      StartedWasEligible(pre, Failures(plan), post, i);
    }
    forall j | 0 <= j < |pre.tasks| && pre.tasks[j].status.IsTerminal()
      ensures post.tasks[j].status.IsTerminal() <==>
                !(pre.mode == Dag && WillRetry(pre.tasks[j], pre.config)
                  && (pre.config.onAnyFailure == Continue || !AnyFailed(RetryAll(pre.tasks, pre.config, plan))))
    {
      FailurePassOn(pre, plan, j);
    }
    if ReopensRound(pre) {
      var i, j :| 0 <= i < |pre.tasks| && 0 <= j < |pre.tasks| && pre.tasks[i].attempt > 0
                  && MustWaitFor(pre.tasks[i], pre.tasks[j]) && WillRetry(pre.tasks[j], pre.config);
      assert MustWaitFor(post.tasks[i], post.tasks[j]) && pre.tasks[j].status.IsTerminal();
    }
  }

  lemma StepKeepsRoundsSafe(pre: Chain, e: Event, post: Chain)
    requires IsStep(pre, e, post) && DistinctIds(pre.tasks) && HasNoRetries(pre) && RoundsSafe(pre.tasks)
    ensures RoundsSafe(post.tasks) && HasNoRetries(post)
  {
    RoundsStaySafeWhen(pre, e, post);
    StepShape(pre, e, post);
    forall i | 0 <= i < |pre.tasks| ensures SameSpec(pre.tasks[i], post.tasks[i]) {
      StepIsLocal(pre, e, post, i);
    }
  }

  // --- every reachable state -----------------------------------------------------

  lemma {:induction false} StateIsSafe(trace: seq<Chain>, events: seq<Event>, n: nat)
    requires IsRun(trace, events) && n < |trace|
    ensures DistinctIds(trace[n].tasks) && WithinCaps(trace[n]) && DependenciesSafe(trace[n].tasks)
    ensures HasNoRetries(trace[0]) ==> HasNoRetries(trace[n]) && RoundsSafe(trace[n].tasks)
  {
    hide IsStep, RunningTotal, RunningIn, HasDone;
    if n == 0 {
      NoneRunning(trace[0].tasks, None);
      forall g: GroupKey ensures RunningIn(trace[0].tasks, g) == 0 {
        NoneRunning(trace[0].tasks, g);
      }
    } else {
      StateIsSafe(trace, events, n - 1);
      assert IsStep(trace[n - 1], events[n - 1], trace[n]);
      StepKeepsAll(trace[n - 1], events[n - 1], trace[n]);
    }
  }

  lemma StepKeepsAll(pre: Chain, e: Event, post: Chain)
    requires IsStep(pre, e, post) && DistinctIds(pre.tasks) && WithinCaps(pre) && DependenciesSafe(pre.tasks)
    ensures DistinctIds(post.tasks) && WithinCaps(post) && DependenciesSafe(post.tasks)
    ensures HasNoRetries(pre) && RoundsSafe(pre.tasks) ==> HasNoRetries(post) && RoundsSafe(post.tasks)
  {
    hide *;
    StepKeepsIds(pre, e, post);
    StepRespectsCaps(pre, e, post);
    StepKeepsDependenciesSafe(pre, e, post);
    if HasNoRetries(pre) && RoundsSafe(pre.tasks) {
      StepKeepsRoundsSafe(pre, e, post);
    }
  }

  /** In every state of every run the caps hold and every started task had its dependencies met;
      and if nothing can be retried, no round starts before the lower ones have ended. */
  lemma RunsAreSafe(trace: seq<Chain>, events: seq<Event>)
    requires IsRun(trace, events)
    ensures forall n :: 0 <= n < |trace| ==> WithinCaps(trace[n]) && DependenciesSafe(trace[n].tasks)
    ensures HasNoRetries(trace[0]) ==> forall n :: 0 <= n < |trace| ==> RoundsSafe(trace[n].tasks)
  {
    hide *;
    forall n | 0 <= n < |trace|
      ensures WithinCaps(trace[n]) && DependenciesSafe(trace[n].tasks)
      ensures HasNoRetries(trace[0]) ==> RoundsSafe(trace[n].tasks)
    {
      StateIsSafe(trace, events, n);
    }
  }

  lemma {:induction false} RoundsSafeUpTo(trace: seq<Chain>, events: seq<Event>, n: nat)
    requires IsRun(trace, events) && n < |trace|
    requires forall k :: 0 <= k < n ==> !(events[k].Failures? && ReopensRound(trace[k]))
    ensures RoundsSafe(trace[n].tasks) && DistinctIds(trace[n].tasks)
  {
    hide IsStep, ReopensRound, DistinctIds, MustWaitFor;
    if n > 0 {
      RoundsSafeUpTo(trace, events, n - 1);
      assert IsStep(trace[n - 1], events[n - 1], trace[n - 1 + 1]);
      RoundsStaySafeWhen(trace[n - 1], events[n - 1], trace[n]);
      StepKeepsIds(trace[n - 1], events[n - 1], trace[n]);
    }
  }

  /** Over a whole run, with any retry policies, the round barrier holds in every state if and only if no failure
      pass reopens a round. */
  lemma RunsKeepRoundsWhen(trace: seq<Chain>, events: seq<Event>)
    requires IsRun(trace, events)
    ensures (forall n :: 0 <= n < |trace| ==> RoundsSafe(trace[n].tasks)) <==>
              forall n :: 0 <= n < |events| ==> !(events[n].Failures? && ReopensRound(trace[n]))
  {
    hide IsStep, ReopensRound, DistinctIds, RoundsSafe;
    if n :| 0 <= n < |events| && events[n].Failures? && ReopensRound(trace[n])
            && forall k :: 0 <= k < n ==> !(events[k].Failures? && ReopensRound(trace[k])) {
      RoundsSafeUpTo(trace, events, n);
      assert IsStep(trace[n], events[n], trace[n + 1]);
      RoundsStaySafeWhen(trace[n], events[n], trace[n + 1]);
    } else {
      NoneReopens(trace, events, |events|);
      forall n | 0 <= n < |trace| ensures RoundsSafe(trace[n].tasks) {
        RoundsSafeUpTo(trace, events, n);
      }
    }
  }

  // If there is no first pass that reopens a round, there is none at all.
  lemma {:induction false} NoneReopens(trace: seq<Chain>, events: seq<Event>, n: nat)
    requires n <= |events| < |trace|
    requires forall m :: 0 <= m < n && (forall k :: 0 <= k < m ==> !(events[k].Failures? && ReopensRound(trace[k]))) ==>
               !(events[m].Failures? && ReopensRound(trace[m]))
    ensures forall k :: 0 <= k < n ==> !(events[k].Failures? && ReopensRound(trace[k]))
  {
    hide ReopensRound;
    if n > 0 {
      NoneReopens(trace, events, n - 1);
    }
  }

  // --- pauses ------------------------------------------------------------------------

  ghost predicate StartsNothing(pre: Chain, post: Chain) {
    && |post.tasks| == |pre.tasks|
    && forall i :: 0 <= i < |pre.tasks| ==>
         post.tasks[i].attempt == pre.tasks[i].attempt && (post.tasks[i].status.Running? ==> pre.tasks[i].status.Running?)
  }

  lemma PauseStays(pre: Chain, e: Event, post: Chain)
    requires IsStep(pre, e, post) && DistinctIds(pre.tasks) && pre.paused
    ensures post.paused && StartsNothing(pre, post)
    ensures e.Tick? ==> post == pre && e.ready == []
  {
    hide IsTick, DistinctIds, NoRepeats;
    if e.Tick? {
      TrackerLaws.PausedStartsNothing(pre, e.outputs, e.clock, post, e.ready);
    } else {
      OnlyTicksStart(pre, e, post);
    }
  }

  /** A pause holds for the rest of every run: from then on no event starts a task, ticks change nothing at all, and
      only tasks that already ran still run. */
  lemma {:induction false} PauseLasts(trace: seq<Chain>, events: seq<Event>, m: nat, n: nat)
    requires IsRun(trace, events) && m <= n < |trace| && trace[m].paused
    ensures trace[n].paused && StartsNothing(trace[m], trace[n])
    ensures forall k :: m <= k < n && events[k].Tick? ==> trace[k + 1] == trace[k] && events[k].ready == []
    decreases n
  {
    hide IsStep, DistinctIds, WithinCaps, DependenciesSafe;
    if m < n {
      PauseLasts(trace, events, m, n - 1);
      StateIsSafe(trace, events, n - 1);
      assert IsStep(trace[n - 1], events[n - 1], trace[n - 1 + 1]);
      PauseStays(trace[n - 1], events[n - 1], trace[n]);
    }
  }

  // --- a run that reopens a round ----------------------------------------------------

  lemma {:induction false} QueueOfOne(ts: seq<Task>, outputs: Outputs, i: nat, g: GroupKey, n: nat)
    requires i < |ts| && n <= |ts| && ts[i].group.None?
    requires forall k :: 0 <= k < |ts| ==> (Eligible(ts[k], ts, outputs) <==> k == i)
    ensures Queue(ts, outputs, g, n) == if g.None? && i < n then [ts[i].id] else []
  {
    hide Eligible;
    if n > 0 {
      QueueOfOne(ts, outputs, i, g, n - 1);
    }
  }

  // A tick that finds one eligible task, in no group and with room for it, starts that task.
  lemma SoleTick(pre: Chain, outputs: Outputs, clock: Clock, i: nat)
    requires Schedules(pre) && i < |pre.tasks| && pre.tasks[i].group.None?
    requires ExpireAll(pre.tasks, clock.millis) == pre.tasks && RunningTotal(pre.tasks) < pre.config.maxConcurrent
    requires forall k :: 0 <= k < |pre.tasks| ==> (Eligible(pre.tasks[k], pre.tasks, outputs) <==> k == i)
    ensures var id := pre.tasks[i].id;
            IsTick(pre, outputs, clock, pre.(tasks := StartAll(pre.tasks, [id], clock.iso)), [id])
  {
    hide Eligible, RunningTotal;
    var ts, cap := pre.tasks, pre.config.maxConcurrent;
    forall g: GroupKey ensures FullQueue(ts, outputs, g) == if g.None? then [ts[i].id] else [] {
      QueueOfOne(ts, outputs, i, g, |ts|);
    }
    var order: seq<GroupKey>, ready := [None], [ts[i].id];
    assert order[..0] == [] && ready[..0] == [];
    assert PickOk(ts, outputs, cap, order, order, ready, 0) by {
      assert LeastServed(ts, outputs, cap, order, 0, [], []);
    }
    assert IsSelection(ts, outputs, cap, order, order, ready);
  }

  function InRound(id: string, round: u32, retry: Option<RetryPolicy>, status: TaskStatus, attempt: u32): Task {
    Task(id, [], Some(round), None, None, None, retry, status, attempt, None, None, None, None, [])
  }

  function TwoRounds(a: Task, b: Task): Chain {
    Chain(Dag, [a, b], Config(4, None, PauseDag), false)
  }

  // A task of round 1 is started and fails, which lets a task of round 2 start.
  function ReopeningRun(plan: BackoffPlan): (seq<Chain>, seq<Event>) {
    var clock, retry := Clock(0, ""), Some(RetryPolicy(2));
    var a, b := InRound("a", 1, retry, Pending, 0), InRound("b", 2, None, Pending, 0);
    var a1, b1 := Started(a, ""), Started(b, "");
    var a2 := TimedOut(a1, "");
    ([TwoRounds(a, b), TwoRounds(a1, b), TwoRounds(a2, b), TwoRounds(a2, b1), TwoRounds(Retried(a2, Config(4, None, PauseDag), plan), b1)],
     [Tick(map[], clock, ["a"]), Failure("a", ""), Tick(map[], clock, ["b"]), Failures(plan)])
  }

  lemma StartsOf(a: Task, b: Task, iso: string)
    requires a.id != b.id
    ensures StartAll([a, b], [a.id], iso) == [Started(a, iso), b] && StartAll([a, b], [b.id], iso) == [a, Started(b, iso)]
  {
    var ts := [a, b];
    FirstIndexIs(ts, 0);
    FirstIndexIs(ts, 1);
    assert [a.id][..0] == [] && [b.id][..0] == [];
    assert StartAll(ts, [], iso) == ts;
  }

  lemma FirstTick(a: Task, b: Task, clock: Clock)
    requires a.status.Pending? && b.status.Pending? && a.id != b.id && a.group.None?
    requires a.dependsOn == [] && a.condition.None? && a.round == Some(1) && b.round == Some(2)
    ensures IsTick(TwoRounds(a, b), map[], clock, TwoRounds(Started(a, clock.iso), b), [a.id])
  {
    var ts := [a, b];
    assert ExpireAll(ts, clock.millis) == ts;
    assert Eligible(ts[0], ts, map[]) && !RoundOpen(ts[1], ts);
    NoneRunning(ts, None);
    StartsOf(a, b, clock.iso);
    SoleTick(TwoRounds(a, b), map[], clock, 0);
  }

  lemma SecondTick(a: Task, b: Task, clock: Clock)
    requires a.status.Failed? && b.status.Pending? && a.id != b.id && b.group.None?
    requires b.dependsOn == [] && b.condition.None? && a.round == Some(1) && b.round == Some(2)
    ensures IsTick(TwoRounds(a, b), map[], clock, TwoRounds(a, Started(b, clock.iso)), [b.id])
  {
    var ts := [a, b];
    assert ExpireAll(ts, clock.millis) == ts;
    assert Eligible(ts[1], ts, map[]) && !Eligible(ts[0], ts, map[]);
    NoneRunning(ts, None);
    StartsOf(a, b, clock.iso);
    SoleTick(TwoRounds(a, b), map[], clock, 1);
  }

  /** It does happen: a tick starts a task of round 1 that may be retried, the task fails, the next tick starts a
      task of round 2, and the failure pass schedules the retry. */
  lemma RetryReopensRound(plan: BackoffPlan)
    ensures var (trace, events) := ReopeningRun(plan); IsRun(trace, events) && !RoundsSafe(trace[4].tasks)
  {
    hide IsTick, StartAll, IsSelection, Eligible;
    var (trace, events) := ReopeningRun(plan);
    var a, b, a2 := trace[0].tasks[0], trace[0].tasks[1], trace[2].tasks[0];
    assert a.id == "a" && b.id == "b" && a.id != b.id;
    FirstTick(a, b, Clock(0, ""));
    SecondTick(a2, b, Clock(0, ""));
    FirstIndexIs(trace[1].tasks, 0);
    assert trace[2].tasks == FailedById(trace[1].tasks, "a", "");
    assert trace[4].tasks == RetryAll(trace[3].tasks, trace[3].config, plan);
    assert !AnyFailed(trace[4].tasks);
    forall i | 0 <= i < |events| ensures IsStep(trace[i], events[i], trace[i + 1]) {
    }
    assert MustWaitFor(trace[4].tasks[1], trace[4].tasks[0]);
  }
}
