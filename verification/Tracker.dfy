/** What happens after a tick: timeout groups, retries, and the failure strategy. */
module Tracker {
  import opened Wrappers
  import opened ChainTypes
  import opened Strings
  import opened Scheduler

  // --- timeout groups ------------------------------------------------------

  /** Reading a timestamp text as seconds since the epoch, when it is one. */
  type StampReader = string -> Option<nat>

  predicate IsTimedOut(read: StampReader, startedAt: string, now: string, maxSeconds: nat) {
    match (read(startedAt), read(now))
    case (Some(s), Some(n)) => (if s <= n then n - s else 0) >= maxSeconds
    case _ => false
  }

  datatype GroupInfo = GroupInfo(maxSeconds: nat, earliest: Option<string>, running: seq<string>)

  predicate InTimeoutGroup(t: Task, g: string) {
    t.timeout.Some? && t.timeout.value.groupId == g
  }

  // One more member of a timeout group.
  function AddMember(info: Option<GroupInfo>, t: Task): GroupInfo
    requires t.timeout.Some?
  {
    var i := if info.Some? then info.value else GroupInfo(t.timeout.value.maxSeconds, None, []);
    GroupInfo(i.maxSeconds,
              if t.startedAt.Some? && (i.earliest.None? || Less(t.startedAt.value, i.earliest.value)) then t.startedAt else i.earliest,
              if t.status.Running? then i.running + [t.id] else i.running)
  }

  function Info(ts: seq<Task>, g: string): Option<GroupInfo> {
    if ts == [] then None else
      var front, t := ts[..|ts| - 1], ts[|ts| - 1];
      if InTimeoutGroup(t, g) then Some(AddMember(Info(front, g), t)) else Info(front, g)
  }

  predicate GroupExpired(ts: seq<Task>, g: string, read: StampReader, now: string) {
    var info := Info(ts, g);
    info.Some? && info.value.earliest.Some? && IsTimedOut(read, info.value.earliest.value, now, info.value.maxSeconds)
  }

  function TimeoutMessage(g: string, maxSeconds: nat): string {
    "group_timeout: group '" + g + "' exceeded " + Decimal(maxSeconds) + "s limit"
  }

  function TimedOut(t: Task, message: string): Task {
    t.(status := Failed, error := Some(message))
  }

  function FailOne(ts: seq<Task>, id: string, message: string): (r: seq<Task>)
    ensures |r| == |ts|
  {
    var k := FirstIndex(ts, id);
    if k < |ts| && ts[k].status.Running? then ts[k := TimedOut(ts[k], message)] else ts
  }

  function FailIds(ts: seq<Task>, ids: seq<string>, message: string): (r: seq<Task>)
    ensures |r| == |ts|
  {
    if ids == [] then ts else FailOne(FailIds(ts, ids[..|ids| - 1], message), ids[|ids| - 1], message)
  }

  // Which of the listed ids are running when their turn comes.
  function FailedIds(ts: seq<Task>, ids: seq<string>, message: string): seq<string> {
    if ids == [] then [] else
      var front, id := ids[..|ids| - 1], ids[|ids| - 1];
      var us := FailIds(ts, front, message);
      var k := FirstIndex(us, id);
      FailedIds(ts, front, message) + (if k < |us| && us[k].status.Running? then [id] else [])
  }

  // Failing the listed running tasks of each listed group, as they were listed in `was`.
  function FailGroups(was: seq<Task>, groups: seq<string>): (r: seq<Task>)
    ensures |r| == |was|
  {
    if groups == [] then was else
      var g := groups[|groups| - 1];
      var before := FailGroups(was, groups[..|groups| - 1]);
      if Info(was, g).None? then before else
        FailIds(before, Info(was, g).value.running, TimeoutMessage(g, Info(was, g).value.maxSeconds))
  }

  function FailedInGroups(was: seq<Task>, groups: seq<string>): seq<string> {
    if groups == [] then [] else
      var front, g := groups[..|groups| - 1], groups[|groups| - 1];
      FailedInGroups(was, front) +
      (if Info(was, g).None? then [] else
         FailedIds(FailGroups(was, front), Info(was, g).value.running, TimeoutMessage(g, Info(was, g).value.maxSeconds)))
  }

  ghost predicate IsExpiredList(ts: seq<Task>, read: StampReader, now: string, groups: seq<string>) {
    NoRepeats(groups) && forall g :: g in groups <==> GroupExpired(ts, g, read, now)
  }

  ghost predicate IsTimeoutPass(pre: Chain, read: StampReader, now: string, post: Chain,
                                failed: seq<string>, expired: seq<string>) {
    if pre.mode != Dag then post == pre && failed == [] && expired == [] else
      && IsExpiredList(pre.tasks, read, now, expired)
      && post == pre.(tasks := FailGroups(pre.tasks, expired))
      && failed == FailedInGroups(pre.tasks, expired)
  }

  method CollectGroups(ts: seq<Task>) returns (groups: map<string, GroupInfo>)
    ensures forall g :: g in groups <==> Info(ts, g).Some?
    ensures forall g :: g in groups ==> groups[g] == Info(ts, g).value
  {
    groups := map[];
    for i := 0 to |ts|
      invariant forall g :: g in groups <==> Info(ts[..i], g).Some?
      invariant forall g :: g in groups ==> groups[g] == Info(ts[..i], g).value
    {
      var t := ts[i];
      assert ts[..i + 1][..i] == ts[..i] && ts[..i + 1][i] == t;
      assert forall g :: !InTimeoutGroup(t, g) ==> Info(ts[..i + 1], g) == Info(ts[..i], g);
      if t.timeout.Some? {
        var g := t.timeout.value.groupId;
        var info := if g in groups then groups[g] else GroupInfo(t.timeout.value.maxSeconds, None, []);
        if t.startedAt.Some? && (info.earliest.None? || Less(t.startedAt.value, info.earliest.value)) {
          info := info.(earliest := t.startedAt);
        }
        if t.status == TaskStatus.Running {
          info := info.(running := info.running + [t.id]);
        }
        assert Info(ts[..i + 1], g) == Some(info);
        groups := groups[g := info];
      }
    }
    assert ts[..|ts|] == ts;
  }

  // The expired groups, in hash-map order.
  method CollectExpired(groups: map<string, GroupInfo>, read: StampReader, now: string) returns (expired: seq<string>)
    ensures NoRepeats(expired)
    ensures forall g :: g in expired <==>
              g in groups && groups[g].earliest.Some?
              && IsTimedOut(read, groups[g].earliest.value, now, groups[g].maxSeconds)
  {
    expired := [];
    var left := groups.Keys;
    while left != {}
      invariant left <= groups.Keys && NoRepeats(expired)
      invariant forall g :: g in expired <==>
                  g in groups && g !in left && groups[g].earliest.Some?
                  && IsTimedOut(read, groups[g].earliest.value, now, groups[g].maxSeconds)
    {
      var g :| g in left;
      left := left - {g};
      var info := groups[g];
      if info.earliest.Some? && IsTimedOut(read, info.earliest.value, now, info.maxSeconds) {
        expired := expired + [g];
      }
    }
  }

  method FailRunning(root: ChainDagRoot, ids: seq<string>, message: string) returns (failed: seq<string>)
    modifies root.tasks
    ensures root.tasks[..] == FailIds(old(root.tasks[..]), ids, message)
    ensures failed == FailedIds(old(root.tasks[..]), ids, message)
  {
    failed := [];
    for j := 0 to |ids|
      invariant root.tasks[..] == FailIds(old(root.tasks[..]), ids[..j], message)
      invariant failed == FailedIds(old(root.tasks[..]), ids[..j], message)
    {
      assert ids[..j + 1][..j] == ids[..j];
      var k := FindIndex(root, ids[j]);
      if k < root.tasks.Length && root.tasks[k].status == TaskStatus.Running {
        root.tasks[k] := root.tasks[k].(status := Failed, error := Some(message));
        failed := failed + [ids[j]];
      }
    }
    assert ids[..|ids|] == ids;
  }

  /** The timeout pass: returns the ids it failed and the groups that expired. */
  method ProcessTimeouts(root: ChainDagRoot, read: StampReader, now: string)
    returns (failed: seq<string>, expired: seq<string>)
    modifies root.tasks
    ensures IsTimeoutPass(old(root.View()), read, now, root.View(), failed, expired)
  {
    failed, expired := [], [];
    if root.mode != Dag {
      return;
    }
    var was := root.tasks[..];
    var groups := CollectGroups(was);
    expired := CollectExpired(groups, read, now);
    for e := 0 to |expired|
      invariant root.tasks[..] == FailGroups(was, expired[..e])
      invariant failed == FailedInGroups(was, expired[..e])
    {
      assert expired[..e + 1][..e] == expired[..e] && expired[e] in expired;
      var info := groups[expired[e]];
      var some := FailRunning(root, info.running, TimeoutMessage(expired[e], info.maxSeconds));
      failed := failed + some;
    }
    assert expired[..|expired|] == expired;
  }

  // --- failures ------------------------------------------------------------

  datatype FailureActions = FailureActions(retryScheduled: seq<string>, tasksSkipped: seq<string>, dagPaused: bool, dagAborted: bool)

  /** Where the backoff of a retried task is set to end. */
  type BackoffPlan = Task -> Deadline

  function PolicyOf(t: Task, config: Config): Option<RetryPolicy> {
    if t.retry.Some? then t.retry else config.defaultRetry
  }

  predicate WillRetry(t: Task, config: Config) {
    t.status.Failed? && PolicyOf(t, config).Some? && t.attempt < PolicyOf(t, config).value.maxAttempts
  }

  function Retried(t: Task, config: Config, plan: BackoffPlan): Task {
    if WillRetry(t, config) then t.(backoffUntil := Some(plan(t)), status := RetryScheduled) else t
  }

  function RetryAll(ts: seq<Task>, config: Config, plan: BackoffPlan): (r: seq<Task>)
    ensures |r| == |ts| && forall i :: 0 <= i < |ts| ==> r[i] == Retried(ts[i], config, plan)
  {
    seq(|ts|, i requires 0 <= i < |ts| => Retried(ts[i], config, plan))
  }

  predicate AnyFailed(ts: seq<Task>) {
    exists i :: 0 <= i < |ts| && ts[i].status.Failed?
  }

  // The ids of the tasks whose status is one of these, in entry order.
  function IdsWith(ts: seq<Task>, statuses: set<TaskStatus>): seq<string> {
    if ts == [] then [] else
      IdsWith(ts[..|ts| - 1], statuses) + (if ts[|ts| - 1].status in statuses then [ts[|ts| - 1].id] else [])
  }

  function RetriedIds(ts: seq<Task>, config: Config): seq<string> {
    if ts == [] then [] else
      RetriedIds(ts[..|ts| - 1], config) + (if WillRetry(ts[|ts| - 1], config) then [ts[|ts| - 1].id] else [])
  }

  const ABORT_MESSAGE := "aborted by failure strategy"
  const PAUSE_MESSAGE := "paused by failure strategy"

  function Stopped(t: Task, statuses: set<TaskStatus>, to: TaskStatus, message: string, skips: seq<string>): Task {
    if t.status in statuses then t.(status := to, error := Some(message))
    else if t.status.Failed? then t.(causedSkips := skips)
    else t
  }

  // Tasks in one of `statuses` move to `to`; failed ones record the list.
  function StopAll(ts: seq<Task>, statuses: set<TaskStatus>, to: TaskStatus, message: string, skips: seq<string>): (r: seq<Task>)
    ensures |r| == |ts| && forall i :: 0 <= i < |ts| ==> r[i] == Stopped(ts[i], statuses, to, message, skips)
  {
    seq(|ts|, i requires 0 <= i < |ts| => Stopped(ts[i], statuses, to, message, skips))
  }

  const ABORTABLE := {Pending, TaskStatus.Running, RetryScheduled}
  const PAUSABLE := {Pending, RetryScheduled}

  function AbortedIds(ts: seq<Task>): seq<string> {
    IdsWith(ts, {Pending, TaskStatus.Running}) + IdsWith(ts, {RetryScheduled})
  }

  function AfterFailures(c: Chain, plan: BackoffPlan): (Chain, FailureActions) {
    if c.mode != Dag then (c, FailureActions([], [], false, false)) else
      var ts := RetryAll(c.tasks, c.config, plan);
      var retried := RetriedIds(c.tasks, c.config);
      if !AnyFailed(ts) then (c.(tasks := ts), FailureActions(retried, [], false, false)) else
        match c.config.onAnyFailure
        case AbortDag =>
          (c.(tasks := StopAll(ts, ABORTABLE, Skipped, ABORT_MESSAGE, AbortedIds(ts))),
           FailureActions(retried, AbortedIds(ts), false, true))
        case PauseDag =>
          (c.(tasks := StopAll(ts, PAUSABLE, Blocked, PAUSE_MESSAGE, IdsWith(ts, PAUSABLE)), paused := true),
           FailureActions(retried, IdsWith(ts, PAUSABLE), true, false))
        case Continue => (c.(tasks := ts), FailureActions(retried, [], false, false))
  }

  method ScheduleRetries(root: ChainDagRoot, plan: BackoffPlan) returns (retried: seq<string>)
    modifies root.tasks
    ensures root.tasks[..] == RetryAll(old(root.tasks[..]), root.config, plan)
    ensures retried == RetriedIds(old(root.tasks[..]), root.config)
  {
    retried := [];
    ghost var was := root.tasks[..];
    for i := 0 to root.tasks.Length
      invariant retried == RetriedIds(was[..i], root.config)
      invariant forall k :: 0 <= k < i ==> root.tasks[k] == Retried(was[k], root.config, plan)
      invariant forall k :: i <= k < root.tasks.Length ==> root.tasks[k] == was[k]
    {
      assert was[..i + 1][..i] == was[..i];
      var t := root.tasks[i];
      if t.status == Failed {
        var policy := if t.retry.Some? then t.retry else root.config.defaultRetry;
        if policy.Some? && t.attempt < policy.value.maxAttempts {
          root.tasks[i] := t.(backoffUntil := Some(plan(t)), status := RetryScheduled);
          retried := retried + [t.id];
        }
      }
    }
    assert was[..|was|] == was;
  }

  // One loop over the entries that moves every task in `from` to `to` and lists it.
  method MoveAll(root: ChainDagRoot, from: set<TaskStatus>, to: TaskStatus, message: string) returns (ids: seq<string>)
    requires to !in from
    modifies root.tasks
    ensures ids == IdsWith(old(root.tasks[..]), from)
    ensures forall k :: 0 <= k < root.tasks.Length ==>
              root.tasks[k] == var t := old(root.tasks[k]); if t.status in from then t.(status := to, error := Some(message)) else t
  {
    ids := [];
    ghost var was := root.tasks[..];
    for i := 0 to root.tasks.Length
      invariant ids == IdsWith(was[..i], from)
      invariant forall k :: 0 <= k < i ==>
                  root.tasks[k] == var t := was[k]; if t.status in from then t.(status := to, error := Some(message)) else t
      invariant forall k :: i <= k < root.tasks.Length ==> root.tasks[k] == was[k]
    {
      assert was[..i + 1][..i] == was[..i];
      var t := root.tasks[i];
      if t.status in from {
        root.tasks[i] := t.(status := to, error := Some(message));
        ids := ids + [t.id];
      }
    }
    assert was[..|was|] == was;
  }

  method RecordSkips(root: ChainDagRoot, ids: seq<string>)
    modifies root.tasks
    ensures forall k :: 0 <= k < root.tasks.Length ==>
              root.tasks[k] == var t := old(root.tasks[k]); if t.status.Failed? then t.(causedSkips := ids) else t
  {
    for i := 0 to root.tasks.Length
      invariant forall k :: 0 <= k < i ==>
                  root.tasks[k] == var t := old(root.tasks[k]); if t.status.Failed? then t.(causedSkips := ids) else t
      invariant forall k :: i <= k < root.tasks.Length ==> root.tasks[k] == old(root.tasks[k])
    {
      if root.tasks[i].status == Failed {
        root.tasks[i] := root.tasks[i].(causedSkips := ids);
      }
    }
  }

  // Skipping the pending and running tasks first lists the retry-scheduled ones unchanged.
  lemma {:induction false} IdsWithSameStatus(ts: seq<Task>, us: seq<Task>, statuses: set<TaskStatus>)
    requires |ts| == |us|
    requires forall k :: 0 <= k < |ts| ==> ts[k].id == us[k].id && (ts[k].status in statuses <==> us[k].status in statuses)
    ensures IdsWith(ts, statuses) == IdsWith(us, statuses)
  {
    if ts != [] {
      IdsWithSameStatus(ts[..|ts| - 1], us[..|us| - 1], statuses);
    }
  }

  method AbortRemaining(root: ChainDagRoot) returns (skipped: seq<string>)
    modifies root.tasks
    ensures skipped == AbortedIds(old(root.tasks[..]))
    ensures root.tasks[..] == StopAll(old(root.tasks[..]), ABORTABLE, Skipped, ABORT_MESSAGE, skipped)
  {
    ghost var ts := root.tasks[..];
    var first := MoveAll(root, {Pending, TaskStatus.Running}, Skipped, ABORT_MESSAGE);
    IdsWithSameStatus(ts, root.tasks[..], {RetryScheduled});
    var second := MoveAll(root, {RetryScheduled}, Skipped, ABORT_MESSAGE);
    skipped := first + second;
    RecordSkips(root, skipped);
  }

  method PauseRemaining(root: ChainDagRoot) returns (blocked: seq<string>)
    modifies root.tasks
    ensures blocked == IdsWith(old(root.tasks[..]), PAUSABLE)
    ensures root.tasks[..] == StopAll(old(root.tasks[..]), PAUSABLE, Blocked, PAUSE_MESSAGE, blocked)
  {
    blocked := MoveAll(root, {Pending, RetryScheduled}, Blocked, PAUSE_MESSAGE);
    RecordSkips(root, blocked);
  }

  method HasFailed(root: ChainDagRoot) returns (any: bool)
    ensures any <==> AnyFailed(root.tasks[..])
  {
    any := exists i :: 0 <= i < root.tasks.Length && root.tasks[i].status == Failed;
    if any {
      var i :| 0 <= i < root.tasks.Length && root.tasks[i].status == Failed;
      assert root.tasks[..][i].status.Failed?;
    }
  }

  /** Retries, then the failure strategy. */
  method ProcessFailures(root: ChainDagRoot, plan: BackoffPlan) returns (action: FailureActions)
    modifies root, root.tasks
    ensures root.tasks == old(root.tasks)
    ensures (root.View(), action) == AfterFailures(old(root.View()), plan)
  {
    action := FailureActions([], [], false, false);
    if root.mode != Dag {
      return;
    }
    var retried := ScheduleRetries(root, plan);
    action := action.(retryScheduled := retried);
    var anyFailed := HasFailed(root);
    if !anyFailed {
      return;
    }
    match root.config.onAnyFailure {
      case AbortDag =>
        var skipped := AbortRemaining(root);
        action := action.(dagAborted := true, tasksSkipped := skipped);
      case PauseDag =>
        root.paused := true;
        var blocked := PauseRemaining(root);
        action := action.(dagPaused := true, tasksSkipped := blocked);
      case Continue =>
    }
  }

  /** Timeouts, then failures. */
  method ProcessPostTick(root: ChainDagRoot, read: StampReader, now: string, plan: BackoffPlan)
    returns (failed: seq<string>, expired: seq<string>, action: FailureActions)
    modifies root, root.tasks
    ensures exists mid :: IsTimeoutPass(old(root.View()), read, now, mid, failed, expired)
                          && (root.View(), action) == AfterFailures(mid, plan)
  {
    failed, expired := ProcessTimeouts(root, read, now);
    ghost var mid := root.View();
    action := ProcessFailures(root, plan);
  }
}
