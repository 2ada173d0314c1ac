/** A tick right after a tick: the scheduler recomputes everything and finds nothing new to start,
    unless a condition looks at the status of another task. */
module Quiescence {
  import opened Wrappers
  import opened ChainTypes
  import opened Scheduler
  import opened SelectionLaws
  import opened ChainRuns
  import opened ChainSafety
  import opened Progress

  ghost predicate HasNoStatusGate(ts: seq<Task>) {
    forall i :: 0 <= i < |ts| && ts[i].condition.Some? ==> !ts[i].condition.value.StatusGate?
  }

  // Two states of one chain that agree on what is done and what is terminal.
  ghost predicate SameProgress(ts: seq<Task>, us: seq<Task>) {
    && |ts| == |us|
    && forall i :: 0 <= i < |ts| ==>
         && SameSpec(ts[i], us[i])
         && (ts[i].status.IsDone() <==> us[i].status.IsDone())
         && (ts[i].status.IsTerminal() <==> us[i].status.IsTerminal())
  }

  lemma SameDependenciesMet(ts: seq<Task>, us: seq<Task>, i: nat)
    requires DistinctIds(ts) && DistinctIds(us) && SameProgress(ts, us) && i < |ts|
    ensures DependenciesMet(ts[i], StatusMap(ts)) <==> DependenciesMet(us[i], StatusMap(us))
  {
    MetMeansDone(ts[i], ts);
    MetMeansDone(us[i], us);
    forall id ensures HasDone(ts, id) <==> HasDone(us, id) {
      if HasDone(ts, id) {
        var j :| 0 <= j < |ts| && ts[j].id == id && ts[j].status.IsDone();
        assert us[j].id == id;
      }
      if HasDone(us, id) {
        var j :| 0 <= j < |us| && us[j].id == id && us[j].status.IsDone();
        assert ts[j].id == id;
      }
    }
  }

  // --- backoffs -------------------------------------------------------------------

  // Task i waits for nothing but a status gate on task j, and the gate takes only one of the statuses that task j
  // has at the two clocks.
  ghost predicate GateSeesBackoff(ts: seq<Task>, early: int, late: int, i: int, j: int) {
    && 0 <= i < |ts| && 0 <= j < |ts|
    && ts[i].status.IsStartable() && DependenciesMet(ts[i], StatusMap(ts)) && RoundOpen(ts[i], ts)
    && ts[i].condition.Some? && ts[i].condition.value.StatusGate? && ts[i].condition.value.source == ts[j].id
    && (Expire(ts[j], early).status in ts[i].condition.value.accepts <==> Expire(ts[j], late).status !in ts[i].condition.value.accepts)
  }

  lemma ExpiringKeepsEligibility(ts: seq<Task>, outputs: Outputs, millis: int, i: nat)
    requires DistinctIds(ts) && i < |ts|
    ensures var us := ExpireAll(ts, millis);
            Eligible(us[i], us, outputs) <==>
              && ts[i].status.IsStartable() && DependenciesMet(ts[i], StatusMap(ts)) && RoundOpen(ts[i], ts)
              && ConditionMet(ts[i], StatusMap(us), outputs)
  {
    hide DependenciesMet, RoundOpen, ConditionMet, SameProgress, DistinctIds;
    var us := ExpireAll(ts, millis);
    ExpireKeepsIds(ts, millis);
    ExpiringIsNoProgress(ts, millis);
    SameDependenciesMet(ts, us, i);
    SameRoundOpen(ts, us, i);
    SameCondition(ts[i], us[i], StatusMap(us), outputs);
  }

  lemma ExpiringIsNoProgress(ts: seq<Task>, millis: int)
    ensures SameProgress(ts, ExpireAll(ts, millis))
  {
  }

  lemma SameRoundOpen(ts: seq<Task>, us: seq<Task>, i: nat)
    requires SameProgress(ts, us) && i < |ts|
    ensures RoundOpen(ts[i], ts) <==> RoundOpen(us[i], us)
  {
    assert forall k :: 0 <= k < |ts| ==> RoundOf(ts[k]) == RoundOf(us[k]) && ts[k].status.IsTerminal() == us[k].status.IsTerminal();
  }

  lemma SameCondition(t: Task, u: Task, statuses: map<string, TaskStatus>, outputs: Outputs)
    requires t.condition == u.condition
    ensures ConditionMet(t, statuses, outputs) <==> ConditionMet(u, statuses, outputs)
  {
  }

  // What a status gate sees of the task it names.
  lemma GateReads(ts: seq<Task>, outputs: Outputs, millis: int, i: nat)
    requires DistinctIds(ts) && i < |ts| && ts[i].condition.Some? && ts[i].condition.value.StatusGate?
    ensures var gate := ts[i].condition.value;
            var met := ConditionMet(ts[i], StatusMap(ExpireAll(ts, millis)), outputs);
            && (forall j :: 0 <= j < |ts| && ts[j].id == gate.source ==> (met <==> Expire(ts[j], millis).status in gate.accepts))
            && ((forall j :: 0 <= j < |ts| ==> ts[j].id != gate.source) ==> !met)
  {
    var us, gate := ExpireAll(ts, millis), ts[i].condition.value;
    ExpireKeepsIds(ts, millis);
    StatusMapKeys(us, gate.source);
    forall j | 0 <= j < |ts| && ts[j].id == gate.source ensures StatusMap(us)[gate.source] == Expire(ts[j], millis).status {
      StatusMapAt(us, j);
    }
  }

  // The clocks make a difference to task i exactly when some gate sees it.
  lemma EligibilityDiffersWhen(ts: seq<Task>, outputs: Outputs, early: int, late: int, i: nat)
    requires DistinctIds(ts) && i < |ts|
    ensures var us, ws := ExpireAll(ts, early), ExpireAll(ts, late);
            (Eligible(us[i], us, outputs) <==> Eligible(ws[i], ws, outputs)) <==> forall j :: !GateSeesBackoff(ts, early, late, i, j)
  {
    hide DependenciesMet, RoundOpen, Eligible, ConditionMet, Expire;
    ExpiringKeepsEligibility(ts, outputs, early, i);
    ExpiringKeepsEligibility(ts, outputs, late, i);
    if ts[i].condition.Some? && ts[i].condition.value.StatusGate? {
      GateReads(ts, outputs, early, i);
      GateReads(ts, outputs, late, i);
      var source := ts[i].condition.value.source;
      if j :| 0 <= j < |ts| && ts[j].id == source {
        assert GateSeesBackoff(ts, early, late, i, j) || forall k :: !GateSeesBackoff(ts, early, late, i, k);
      }
    } else {
      NoGateNoStatus(ts[i], StatusMap(ExpireAll(ts, early)), StatusMap(ExpireAll(ts, late)), outputs);
    }
  }

  lemma NoGateNoStatus(t: Task, a: map<string, TaskStatus>, b: map<string, TaskStatus>, outputs: Outputs)
    requires t.condition.None? || !t.condition.value.StatusGate?
    ensures ConditionMet(t, a, outputs) <==> ConditionMet(t, b, outputs)
  {
  }

  lemma {:induction false} SameQueue(us: seq<Task>, ws: seq<Task>, outputs: Outputs, g: GroupKey, n: nat)
    requires |us| == |ws| && n <= |us|
    requires forall i :: 0 <= i < |us| ==>
               us[i].id == ws[i].id && us[i].group == ws[i].group && (Eligible(us[i], us, outputs) <==> Eligible(ws[i], ws, outputs))
    ensures Queue(us, outputs, g, n) == Queue(ws, outputs, g, n)
  {
    hide Eligible;
    if n > 0 {
      SameQueue(us, ws, outputs, g, n - 1);
    }
  }

  lemma QueueTells(us: seq<Task>, ws: seq<Task>, outputs: Outputs, i: nat)
    requires |us| == |ws| && DistinctIds(us) && DistinctIds(ws) && i < |us| && us[i].id == ws[i].id
    requires FullQueue(us, outputs, us[i].group) == FullQueue(ws, outputs, us[i].group) && Eligible(us[i], us, outputs)
    ensures Eligible(ws[i], ws, outputs)
  {
    hide Eligible;
    QueueHolds(us, outputs, i, |us|);
    var q := FullQueue(ws, outputs, us[i].group);
    var k :| 0 <= k < |q| && q[k] == us[i].id;
    QueueMembers(ws, outputs, us[i].group, |ws|, k);
  }

  /** When a backoff delays anything: the eligible tasks at two readings of the clock are the same, in every group, if
      and only if no status gate that a task is waiting for tells a task with an expired backoff from one without.
      Everything else may start before its backoff has expired. */
  lemma BackoffDelaysNothingWhen(ts: seq<Task>, outputs: Outputs, early: int, late: int)
    requires DistinctIds(ts)
    ensures (forall g :: FullQueue(ExpireAll(ts, early), outputs, g) == FullQueue(ExpireAll(ts, late), outputs, g)) <==>
              forall i, j :: !GateSeesBackoff(ts, early, late, i, j)
  {
    hide DistinctIds, Eligible, FullQueue, GateSeesBackoff;
    var us, ws := ExpireAll(ts, early), ExpireAll(ts, late);
    ExpireKeepsIds(ts, early);
    ExpireKeepsIds(ts, late);
    if forall g :: FullQueue(us, outputs, g) == FullQueue(ws, outputs, g) {
      forall i, j ensures !GateSeesBackoff(ts, early, late, i, j) {
        if 0 <= i < |ts| {
          EligibilityDiffersWhen(ts, outputs, early, late, i);
          if Eligible(us[i], us, outputs) {
            QueueTells(us, ws, outputs, i);
          } else if Eligible(ws[i], ws, outputs) {
            QueueTells(ws, us, outputs, i);
          }
        } else {
          OutsideSeesNothing(ts, early, late, i, j);
        }
      }
    }
    if forall i, j :: !GateSeesBackoff(ts, early, late, i, j) {
      forall g ensures FullQueue(us, outputs, g) == FullQueue(ws, outputs, g) {
        forall i | 0 <= i < |ts| ensures Eligible(us[i], us, outputs) <==> Eligible(ws[i], ws, outputs) {
          EligibilityDiffersWhen(ts, outputs, early, late, i);
        }
        SameFullQueue(us, ws, outputs, g);
      }
    }
  }

  lemma OutsideSeesNothing(ts: seq<Task>, early: int, late: int, i: int, j: int)
    requires !(0 <= i < |ts|)
    ensures !GateSeesBackoff(ts, early, late, i, j)
  {
  }

  lemma SameFullQueue(us: seq<Task>, ws: seq<Task>, outputs: Outputs, g: GroupKey)
    requires |us| == |ws|
    requires forall i :: 0 <= i < |us| ==>
               us[i].id == ws[i].id && us[i].group == ws[i].group && (Eligible(us[i], us, outputs) <==> Eligible(ws[i], ws, outputs))
    ensures FullQueue(us, outputs, g) == FullQueue(ws, outputs, g)
  {
    SameQueue(us, ws, outputs, g, |us|);
  }

  /** So without status gates the queues are the same whatever the clock reads. */
  lemma BackoffDelaysNothing(ts: seq<Task>, outputs: Outputs, g: GroupKey, early: int, late: int)
    requires DistinctIds(ts) && HasNoStatusGate(ts)
    ensures FullQueue(ExpireAll(ts, early), outputs, g) == FullQueue(ExpireAll(ts, late), outputs, g)
  {
    hide DistinctIds, FullQueue, DependenciesMet, RoundOpen;
    BackoffDelaysNothingWhen(ts, outputs, early, late);
  }

  /** It does happen: every tick before the deadline starts this task although it is waiting for its retry. */
  lemma TickStartsWaitingTask(outputs: Outputs, clock: Clock, post: Chain, ready: seq<string>)
    requires clock.millis < 1000
    requires var t := PlainTask("a", [], None, None).(status := RetryScheduled, attempt := 1, backoffUntil := Some(At(1000)));
             IsTick(Chain(Dag, [t], Config(4, None, PauseDag), false), outputs, clock, post, ready)
    ensures ready != []
  {
    hide IsSelection, RunningTotal, RunningIn, FullQueue, StartAll;
    var t := PlainTask("a", [], None, None).(status := RetryScheduled, attempt := 1, backoffUntil := Some(At(1000)));
    var pre := Chain(Dag, [t], Config(4, None, PauseDag), false);
    assert ExpireAll(pre.tasks, clock.millis) == pre.tasks;
    NoneRunning(pre.tasks, None);
    assert Eligible(pre.tasks[0], pre.tasks, outputs);
    QueueNotEmpty(pre.tasks, outputs, 0);
    IdleExactlyWhen(pre, outputs, clock, post, ready);
  }

  // --- a second tick ----------------------------------------------------------------

  lemma EligibleTaskOf(ts: seq<Task>, outputs: Outputs, g: GroupKey) returns (i: nat)
    requires FullQueue(ts, outputs, g) != []
    ensures i < |ts| && ts[i].group == g && Eligible(ts[i], ts, outputs)
  {
    QueueMembers(ts, outputs, g, |ts|, 0);
    i :| 0 <= i < |ts| && ts[i].group == g && Eligible(ts[i], ts, outputs);
  }

  lemma {:induction false} TakenIsReady(picks: seq<GroupKey>, ready: seq<string>, g: GroupKey)
    requires |picks| == |ready|
    ensures forall id :: id in TakenFrom(picks, ready, g) ==> id in ready
  {
    if picks != [] {
      var n := |picks| - 1;
      TakenIsReady(picks[..n], ready[..n], g);
      assert ready == ready[..n] + [ready[n]];
    }
  }

  // After a selection, a group with an eligible task left over is at its cap, or the global cap is reached.
  lemma LeftOverMeansCapped(ts: seq<Task>, outputs: Outputs, cap: u32, order: seq<GroupKey>,
                            picks: seq<GroupKey>, ready: seq<string>, i: nat)
    requires IsSelection(ts, outputs, cap, order, picks, ready) && DistinctIds(ts)
    requires i < |ts| && Eligible(ts[i], ts, outputs) && ts[i].id !in ready
    ensures RunningTotal(ts) + |ready| >= cap
            || (ts[i].group.Some? && RunningIn(ts, ts[i].group) + Count(picks, ts[i].group) >= GroupCap(cap))
  {
    hide Eligible, Queue, PickOk, RunningTotal, RunningIn, DistinctIds;
    var g := ts[i].group;
    QueueHolds(ts, outputs, i, |ts|);
    assert g in order;
    assert picks[..|picks|] == picks && ready[..|ready|] == ready;
    TakesAPrefix(ts, outputs, cap, order, picks, ready, g, |picks|);
    TakenIsReady(picks, ready, g);
    GroupsOfAreThePicks(ts, outputs, cap, order, picks, ready, |ready|);
    var q := FullQueue(ts, outputs, g);
    assert q[..|q|] == q;
  }

  lemma CountsOfNextTick(pre: Chain, clock: Clock, outputs: Outputs, mid: Chain, ready: seq<string>, millis: int,
                         order: seq<GroupKey>, picks: seq<GroupKey>, g: GroupKey)
    requires DistinctIds(pre.tasks) && Schedules(pre)
    requires mid == pre.(tasks := StartAll(ExpireAll(pre.tasks, clock.millis), ready, clock.iso))
    requires IsSelection(ExpireAll(pre.tasks, clock.millis), outputs, pre.config.maxConcurrent, order, picks, ready)
    ensures var (waiting, next) := (ExpireAll(pre.tasks, clock.millis), ExpireAll(mid.tasks, millis));
            && RunningTotal(next) == RunningTotal(waiting) + |ready|
            && RunningIn(next, g) == RunningIn(waiting, g) + Count(picks, g)
  {
    hide RunningTotal, RunningIn, StartAll, IsSelectionSoFar, DistinctIds;
    var waiting, next := ExpireAll(pre.tasks, clock.millis), ExpireAll(mid.tasks, millis);
    ExpireKeepsIds(pre.tasks, clock.millis);
    SameLength(waiting, outputs, pre.config.maxConcurrent, order, picks, ready);
    assert ready[..|ready|] == ready && picks[..|picks|] == picks;
    CountsAfterStart(waiting, outputs, pre.config.maxConcurrent, order, picks, ready, clock.iso, |ready|, g);
    CountsAgree(mid.tasks, next, g);
  }

  // What the second tick sees, compared with what the first one saw.
  lemma SecondLook(pre: Chain, outputs: Outputs, clock: Clock, mid: Chain, ready: seq<string>, millis: int)
    requires IsTick(pre, outputs, clock, mid, ready) && Schedules(pre) && DistinctIds(pre.tasks)
    ensures var (waiting, next) := (ExpireAll(pre.tasks, clock.millis), ExpireAll(mid.tasks, millis));
            && DistinctIds(waiting) && DistinctIds(next) && SameProgress(waiting, next)
            && forall i :: 0 <= i < |next| && next[i].status.IsStartable() ==>
                 waiting[i].status.IsStartable() && waiting[i].id !in ready
  {
    TickFrame(pre, outputs, clock, mid, ready);
    var waiting, next := ExpireAll(pre.tasks, clock.millis), ExpireAll(mid.tasks, millis);
    forall i | 0 <= i < |pre.tasks|
      ensures mid.tasks[i] == (if waiting[i].id in ready then Started(waiting[i], clock.iso) else waiting[i])
      ensures waiting[i].id in ready ==> waiting[i].status.IsStartable()
    {
      TickAt(pre, outputs, clock, mid, ready, i);
    }
    ExpireKeepsIds(pre.tasks, clock.millis);
  }

  /** A task that the first tick refused for a status alone and that the second tick has room to start. */
  ghost predicate GateHasOpened(waiting: seq<Task>, next: seq<Task>, outputs: Outputs, cap: u32, i: int) {
    && 0 <= i < |waiting| == |next|
    && Eligible(next[i], next, outputs)
    && next[i].condition.Some? && next[i].condition.value.StatusGate?
    && !ConditionMet(waiting[i], StatusMap(waiting), outputs)
    && (next[i].group.Some? ==> RunningIn(next, next[i].group) < GroupCap(cap))
  }

  // Only a status can have opened a condition between two looks with the same outputs.
  lemma OnlyStatusesOpen(waiting: seq<Task>, next: seq<Task>, outputs: Outputs, i: nat)
    requires DistinctIds(waiting) && DistinctIds(next) && SameProgress(waiting, next)
    requires i < |next| && Eligible(next[i], next, outputs) && waiting[i].status.IsStartable()
    ensures Eligible(waiting[i], waiting, outputs)
            || (next[i].condition.Some? && next[i].condition.value.StatusGate? && !ConditionMet(waiting[i], StatusMap(waiting), outputs))
  {
    SameDependenciesMet(waiting, next, i);
  }

  /** The exact condition for a second tick right after the first, with the same outputs, to start anything: there
      is room, and a status gate that refused a task in the first tick has opened for it. */
  lemma SecondTickStartsWhen(pre: Chain, outputs: Outputs, clock: Clock, mid: Chain, ready: seq<string>,
                             clock2: Clock, post: Chain, ready2: seq<string>)
    requires IsTick(pre, outputs, clock, mid, ready) && IsTick(mid, outputs, clock2, post, ready2)
    requires DistinctIds(pre.tasks) && Schedules(pre)
    ensures var (waiting, next, cap) := (ExpireAll(pre.tasks, clock.millis), ExpireAll(mid.tasks, clock2.millis), pre.config.maxConcurrent);
            ready2 != [] <==> RunningTotal(next) < cap && exists i :: GateHasOpened(waiting, next, outputs, cap, i)
  {
    hide IsSelection, DistinctIds, Eligible, RunningTotal, RunningIn, FullQueue, StartAll, SameProgress, ConditionMet;
    var cap := pre.config.maxConcurrent;
    var waiting, next := ExpireAll(pre.tasks, clock.millis), ExpireAll(mid.tasks, clock2.millis);
    var order, picks :| IsSelection(waiting, outputs, cap, order, picks, ready);
    SecondLook(pre, outputs, clock, mid, ready, clock2.millis);
    CountsOfNextTick(pre, clock, outputs, mid, ready, clock2.millis, order, picks, None);
    IdleExactlyWhen(mid, outputs, clock2, post, ready2);
    if ready2 != [] {
      var g :| FullQueue(next, outputs, g) != [] && (g.Some? ==> RunningIn(next, g) < GroupCap(cap));
      var i := EligibleTaskOf(next, outputs, g);
      LeftOver(waiting, next, outputs, cap, order, picks, ready, i);
      CountsOfNextTick(pre, clock, outputs, mid, ready, clock2.millis, order, picks, g);
      assert GateHasOpened(waiting, next, outputs, cap, i);
    }
    if i :| GateHasOpened(waiting, next, outputs, cap, i) {
      QueueNotEmpty(next, outputs, i);
    }
  }

  // A task left over is refused by its gate, or there is no room for it.
  lemma LeftOver(waiting: seq<Task>, next: seq<Task>, outputs: Outputs, cap: u32, order: seq<GroupKey>,
                 picks: seq<GroupKey>, ready: seq<string>, i: nat)
    requires DistinctIds(waiting) && DistinctIds(next) && SameProgress(waiting, next)
    requires IsSelection(waiting, outputs, cap, order, picks, ready)
    requires i < |next| && Eligible(next[i], next, outputs)
    requires next[i].status.IsStartable() ==> waiting[i].status.IsStartable() && waiting[i].id !in ready
    ensures var g := next[i].group;
            || RunningTotal(waiting) + |ready| >= cap
            || (g.Some? && RunningIn(waiting, g) + Count(picks, g) >= GroupCap(cap))
            || (next[i].condition.Some? && next[i].condition.value.StatusGate? && !ConditionMet(waiting[i], StatusMap(waiting), outputs))
  {
    hide IsSelection, DistinctIds, RunningTotal, RunningIn, DependenciesMet, RoundOpen, ConditionMet;
    OnlyStatusesOpen(waiting, next, outputs, i);
    if Eligible(waiting[i], waiting, outputs) {
      LeftOverMeansCapped(waiting, outputs, cap, order, picks, ready, i);
    }
  }

  /** Without status gates, a second tick with the same outputs starts nothing, whatever the two hash
      orders and whatever time has passed. */
  lemma SecondTickStartsNothing(pre: Chain, outputs: Outputs, clock: Clock, mid: Chain, ready: seq<string>,
                                clock2: Clock, post: Chain, ready2: seq<string>)
    requires IsTick(pre, outputs, clock, mid, ready) && IsTick(mid, outputs, clock2, post, ready2)
    requires DistinctIds(pre.tasks) && HasNoStatusGate(pre.tasks)
    ensures ready2 == []
  {
    hide IsSelection, DistinctIds, Eligible, RunningTotal, RunningIn, ConditionMet;
    if Schedules(pre) {
      SecondTickStartsWhen(pre, outputs, clock, mid, ready, clock2, post, ready2);
      SecondLook(pre, outputs, clock, mid, ready, clock2.millis);
    }
  }

  /** It does happen: here the second tick always starts the task that waits for the
      first one to be running. */
  lemma StatusGateStartsAgain(outputs: Outputs, clock: Clock, mid: Chain, ready: seq<string>,
                              clock2: Clock, post: Chain, ready2: seq<string>)
    requires var ts := [PlainTask("a", [], None, None), PlainTask("b", [], None, Some(StatusGate("a", {TaskStatus.Running})))];
             IsTick(Chain(Dag, ts, Config(4, None, PauseDag), false), outputs, clock, mid, ready)
    requires IsTick(mid, outputs, clock2, post, ready2)
    ensures ready2 != []
  {
    hide IsSelection, RunningTotal, RunningIn, FullQueue, StartAll;
    var ts := [PlainTask("a", [], None, None), PlainTask("b", [], None, Some(StatusGate("a", {TaskStatus.Running})))];
    var pre := Chain(Dag, ts, Config(4, None, PauseDag), false);
    assert ExpireAll(ts, clock.millis) == ts;
    StatusMapAt(ts, 0);
    assert Eligible(ts[0], ts, outputs) && !Eligible(ts[1], ts, outputs);
    TickAt(pre, outputs, clock, mid, ready, 1);
    TickAt(pre, outputs, clock, mid, ready, 0);
    NoneRunning(ts, None);
    QueueNotEmpty(ts, outputs, 0);
    IdleExactlyWhen(pre, outputs, clock, mid, ready);
    var i := ReadyTask(pre, outputs, clock, mid, ready);
    assert mid.tasks == [Started(ts[0], clock.iso), ts[1]];
    var next := mid.tasks;
    assert ExpireAll(next, clock2.millis) == next;
    StatusMapAt(next, 0);
    assert Eligible(next[1], next, outputs);
    QueueNotEmpty(next, outputs, 1);
    OneRunning(next);
    IdleExactlyWhen(mid, outputs, clock2, post, ready2);
  }

  lemma OneRunning(ts: seq<Task>)
    requires |ts| == 2 && ts[0].status.Running? && !ts[1].status.Running?
    ensures RunningTotal(ts) == 1
  {
    assert ts[..1] == [ts[0]] && ts[..1][..0] == [];
    assert RunningTotal(ts[..1]) == RunningTotal(ts[..1][..0]) + 1;
  }
}
