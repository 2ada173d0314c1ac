/** What the timeout pass and the failure strategies achieve. */
module TrackerLaws {
  import opened Wrappers
  import opened ChainTypes
  import opened Strings
  import opened Scheduler
  import opened Tracker

  // --- what is collected about a timeout group ---------------------------------

  ghost predicate IsMember(ts: seq<Task>, g: string, i: int) {
    0 <= i < |ts| && InTimeoutGroup(ts[i], g)
  }

  /** The limit is the one of the member listed first. */
  lemma {:induction false} LimitIsFirstListed(ts: seq<Task>, g: string, i: nat)
    requires IsMember(ts, g, i) && forall j :: 0 <= j < i ==> !InTimeoutGroup(ts[j], g)
    ensures Info(ts, g).Some? && Info(ts, g).value.maxSeconds == ts[i].timeout.value.maxSeconds
  {
    var front := ts[..|ts| - 1];
    if i < |front| {
      LimitIsFirstListed(front, g, i);
    } else if Info(front, g).Some? {
      var j := InfoNeedsMember(front, g);
    }
  }

  lemma {:induction false} InfoNeedsMember(ts: seq<Task>, g: string) returns (i: nat)
    requires Info(ts, g).Some?
    ensures IsMember(ts, g, i)
  {
    if InTimeoutGroup(ts[|ts| - 1], g) {
      i := |ts| - 1;
    } else {
      i := InfoNeedsMember(ts[..|ts| - 1], g);
    }
  }

  function Earliest(ts: seq<Task>, g: string): Option<string> {
    if Info(ts, g).Some? then Info(ts, g).value.earliest else None
  }

  // `least` is the stamp of a started member, and no member's stamp is smaller.
  ghost predicate IsLeastStamp(ts: seq<Task>, g: string, least: Option<string>) {
    match least
    case None => forall i :: IsMember(ts, g, i) ==> ts[i].startedAt.None?
    case Some(s) =>
      && (exists i :: IsMember(ts, g, i) && ts[i].startedAt == least)
      && (forall i :: IsMember(ts, g, i) && ts[i].startedAt.Some? ==> !Less(ts[i].startedAt.value, s))
  }

  lemma LeastAfterEarlier(front: seq<Task>, t: Task, g: string, least: Option<string>)
    requires IsLeastStamp(front, g, least)
    requires InTimeoutGroup(t, g) && t.startedAt.Some? && (least.Some? ==> Less(t.startedAt.value, least.value))
    ensures IsLeastStamp(front + [t], g, t.startedAt)
  {
    var ts, s := front + [t], t.startedAt.value;
    assert IsMember(ts, g, |front|);
    forall i | IsMember(ts, g, i) && ts[i].startedAt.Some? ensures !Less(ts[i].startedAt.value, s) {
      if i == |front| {
        LessIsIrreflexive(s);
      } else {
        assert IsMember(front, g, i);
        if Less(ts[i].startedAt.value, s) {
          LessIsTransitive(ts[i].startedAt.value, s, least.value);
        }
      }
    }
  }

  /** The stamp kept for a group is the least one of its started members. */
  lemma {:induction false} EarliestIsLeast(ts: seq<Task>, g: string)
    ensures IsLeastStamp(ts, g, Earliest(ts, g))
  {
    if ts != [] {
      var front, t := ts[..|ts| - 1], ts[|ts| - 1];
      EarliestIsLeast(front, g);
      assert ts == front + [t];
      if InTimeoutGroup(t, g) && t.startedAt.Some? && Earliest(ts, g) != Earliest(front, g) {
        LeastAfterEarlier(front, t, g, Earliest(front, g));
      } else {
        if InTimeoutGroup(t, g) && t.startedAt.Some? {
          LessIsIrreflexive(t.startedAt.value);
        }
      }
    }
  }

  /** A group has expired exactly when its least start stamp can be read, the clock can be read, and the limit of the
      first listed member has passed since; a start in the future has passed no limit but zero. */
  lemma ExpiredWhen(ts: seq<Task>, g: string, first: nat, read: StampReader, now: string)
    requires IsMember(ts, g, first) && forall j :: 0 <= j < first ==> !InTimeoutGroup(ts[j], g)
    ensures var limit := ts[first].timeout.value.maxSeconds;
            GroupExpired(ts, g, read, now) <==>
              exists s :: IsLeastStamp(ts, g, Some(s)) && read(s).Some? && read(now).Some?
                          && (limit == 0 || read(now).value >= read(s).value + limit)
  {
    hide IsMember, InTimeoutGroup, Less, Info;
    LimitIsFirstListed(ts, g, first);
    EarliestIsLeast(ts, g);
    forall s | IsLeastStamp(ts, g, Some(s)) ensures Earliest(ts, g) == Some(s) {
      OneLeastStamp(ts, g, s, Earliest(ts, g));
    }
    if Earliest(ts, g).Some? {
      assert IsLeastStamp(ts, g, Some(Earliest(ts, g).value));
    }
  }

  lemma OneLeastStamp(ts: seq<Task>, g: string, s: string, other: Option<string>)
    requires IsLeastStamp(ts, g, Some(s)) && IsLeastStamp(ts, g, other)
    ensures other == Some(s)
  {
    hide Less, InTimeoutGroup;
    var i :| IsMember(ts, g, i) && ts[i].startedAt == Some(s);
    if other.Some? {
      var j :| IsMember(ts, g, j) && ts[j].startedAt == other;
      LessIsTotal(s, other.value);
    }
  }

  lemma {:induction false} RunningMembersListed(ts: seq<Task>, g: string, i: nat)
    requires DistinctIds(ts) && i < |ts|
    ensures (Info(ts, g).Some? && ts[i].id in Info(ts, g).value.running) <==>
              (InTimeoutGroup(ts[i], g) && ts[i].status.Running?)
    decreases |ts|
  {
    var n := |ts| - 1;
    var front := ts[..n];
    if i < n {
      RunningMembersListed(front, g, i);
    } else if Info(front, g).Some? && ts[n].id in Info(front, g).value.running {
      ListedAreMembers(front, g, ts[n].id);
      assert false;
    }
  }

  lemma {:induction false} ListedAreMembers(ts: seq<Task>, g: string, id: string)
    requires Info(ts, g).Some? && id in Info(ts, g).value.running
    ensures exists i :: 0 <= i < |ts| && ts[i].id == id
  {
    var n := |ts| - 1;
    var front := ts[..n];
    if Info(front, g).Some? && id in Info(front, g).value.running {
      ListedAreMembers(front, g, id);
      var i :| 0 <= i < n && front[i].id == id;
      assert ts[i].id == id;
    } else {
      assert ts[n].id == id;
    }
  }

  // --- timeouts are exact --------------------------------------------------------

  lemma {:induction false} FailIdsAt(ts: seq<Task>, ids: seq<string>, message: string, i: nat)
    requires DistinctIds(ts) && i < |ts|
    ensures FailIds(ts, ids, message)[i] == if ts[i].id in ids && ts[i].status.Running? then TimedOut(ts[i], message) else ts[i]
    decreases |ids|
  {
    if ids != [] {
      var front, last := ids[..|ids| - 1], ids[|ids| - 1];
      var us := FailIds(ts, front, message);
      assert ids == front + [last];
      forall k | 0 <= k < |ts|
        ensures us[k] == if ts[k].id in front && ts[k].status.Running? then TimedOut(ts[k], message) else ts[k]
      {
        FailIdsAt(ts, front, message, k);
      }
      if ts[i].id == last {
        FirstIndexIs(us, i);
      }
    }
  }

  lemma FailIdsKeepsIds(ts: seq<Task>, ids: seq<string>, message: string)
    requires DistinctIds(ts)
    ensures DistinctIds(FailIds(ts, ids, message))
  {
    forall k | 0 <= k < |ts| ensures FailIds(ts, ids, message)[k].id == ts[k].id {
      FailIdsAt(ts, ids, message, k);
    }
  }

  // The group that times this task out, if one of `groups` does.
  predicate TimesOut(t: Task, groups: seq<string>) {
    t.status.Running? && t.timeout.Some? && t.timeout.value.groupId in groups
  }

  function Message(ts: seq<Task>, g: string): string {
    if Info(ts, g).Some? then TimeoutMessage(g, Info(ts, g).value.maxSeconds) else ""
  }

  lemma {:induction false} FailGroupsAt(was: seq<Task>, groups: seq<string>, i: nat)
    requires DistinctIds(was) && i < |was|
    ensures FailGroups(was, groups)[i] ==
              if TimesOut(was[i], groups) then TimedOut(was[i], Message(was, was[i].timeout.value.groupId)) else was[i]
    decreases |groups|
  {
    if groups != [] {
      var front, g := groups[..|groups| - 1], groups[|groups| - 1];
      assert groups == front + [g];
      FailGroupsKeepsIds(was, front);
      FailGroupsAt(was, front, i);
      RunningMembersListed(was, g, i);
      if Info(was, g).Some? {
        FailIdsAt(FailGroups(was, front), Info(was, g).value.running, TimeoutMessage(g, Info(was, g).value.maxSeconds), i);
      }
    }
  }

  lemma FailGroupsKeepsIds(was: seq<Task>, groups: seq<string>)
    requires DistinctIds(was)
    ensures DistinctIds(FailGroups(was, groups))
    decreases |groups|, 1
  {
    if groups != [] {
      var front, g := groups[..|groups| - 1], groups[|groups| - 1];
      FailGroupsKeepsIds(was, front);
      if Info(was, g).Some? {
        FailIdsKeepsIds(FailGroups(was, front), Info(was, g).value.running, TimeoutMessage(g, Info(was, g).value.maxSeconds));
      }
    }
  }

  ghost predicate HasRunning(ts: seq<Task>, id: string) {
    exists i :: 0 <= i < |ts| && ts[i].id == id && ts[i].status.Running?
  }

  // Whether an id's turn finds a running task.
  lemma FindsRunning(ts: seq<Task>, front: seq<string>, message: string, id: string)
    requires DistinctIds(ts)
    ensures var us := FailIds(ts, front, message);
            (FirstIndex(us, id) < |us| && us[FirstIndex(us, id)].status.Running?) <==> HasRunning(ts, id) && id !in front
  {
    var us := FailIds(ts, front, message);
    forall k | 0 <= k < |ts|
      ensures us[k] == if ts[k].id in front && ts[k].status.Running? then TimedOut(ts[k], message) else ts[k]
    {
      FailIdsAt(ts, front, message, k);
    }
    if i :| 0 <= i < |ts| && ts[i].id == id {
      FirstIndexIs(us, i);
    }
  }

  lemma {:induction false} FailedIdsAre(ts: seq<Task>, ids: seq<string>, message: string)
    requires DistinctIds(ts)
    ensures NoRepeats(FailedIds(ts, ids, message))
    ensures forall id :: id in FailedIds(ts, ids, message) <==> id in ids && HasRunning(ts, id)
  {
    hide DistinctIds, HasRunning;
    if ids != [] {
      var front, last := ids[..|ids| - 1], ids[|ids| - 1];
      FailedIdsAre(ts, front, message);
      assert ids == front + [last];
      FindsRunning(ts, front, message, last);
    }
  }

  lemma {:induction false} FailedInGroupsAre(was: seq<Task>, groups: seq<string>)
    requires DistinctIds(was)
    ensures NoRepeats(FailedInGroups(was, groups))
    ensures forall id :: id in FailedInGroups(was, groups) <==>
              exists i :: 0 <= i < |was| && was[i].id == id && TimesOut(was[i], groups)
  {
    if groups != [] {
      var front, g := groups[..|groups| - 1], groups[|groups| - 1];
      FailedInGroupsAre(was, front);
      assert groups == front + [g];
      if Info(was, g).Some? {
        FailGroupsKeepsIds(was, front);
        var us := FailGroups(was, front);
        var message, ids := TimeoutMessage(g, Info(was, g).value.maxSeconds), Info(was, g).value.running;
        FailedIdsAre(us, ids, message);
        forall k | 0 <= k < |was|
          ensures us[k].id == was[k].id && (us[k].status.Running? <==> was[k].status.Running? && !TimesOut(was[k], front))
          ensures was[k].id in ids <==> InTimeoutGroup(was[k], g) && was[k].status.Running?
        {
          FailGroupsAt(was, front, k);
          RunningMembersListed(was, g, k);
        }
        LastGroupFails(was, front, g, us, ids, FailedIds(us, ids, message));
        forall id | id in FailedInGroups(was, front) ensures id !in FailedIds(us, ids, message) {
          var i :| 0 <= i < |was| && was[i].id == id && TimesOut(was[i], front);
        }
        NoRepeatsConcat(FailedInGroups(was, front), FailedIds(us, ids, message));
      } else {
        forall k | 0 <= k < |was| ensures TimesOut(was[k], groups) <==> TimesOut(was[k], front) {
          RunningMembersListed(was, g, k);
        }
      }
    }
  }

  lemma LastGroupFails(was: seq<Task>, front: seq<string>, g: string, us: seq<Task>, ids: seq<string>, failed: seq<string>)
    requires |us| == |was| && DistinctIds(was)
    requires forall k :: 0 <= k < |was| ==>
               us[k].id == was[k].id && (us[k].status.Running? <==> was[k].status.Running? && !TimesOut(was[k], front))
    requires forall k :: 0 <= k < |was| ==> (was[k].id in ids <==> InTimeoutGroup(was[k], g) && was[k].status.Running?)
    requires forall id :: id in failed <==>
               id in ids && HasRunning(us, id)
    requires NoRepeats(failed)
    ensures forall id :: id in failed <==>
              exists i :: 0 <= i < |was| && was[i].id == id && TimesOut(was[i], front + [g]) && !TimesOut(was[i], front)
  {
    forall id
      ensures id in failed <==>
                exists i :: 0 <= i < |was| && was[i].id == id && TimesOut(was[i], front + [g]) && !TimesOut(was[i], front)
    {
      if id in failed {
        var i :| 0 <= i < |us| && us[i].id == id && us[i].status.Running?;
        assert was[i].id == id && InTimeoutGroup(was[i], g);
      }
      if i :| 0 <= i < |was| && was[i].id == id && TimesOut(was[i], front + [g]) && !TimesOut(was[i], front) {
        assert us[i].id == id && us[i].status.Running?;
      }
    }
  }

  lemma NoRepeatsConcat(a: seq<string>, b: seq<string>)
    requires NoRepeats(a) && NoRepeats(b) && forall id :: id in a ==> id !in b
    ensures NoRepeats(a + b)
  {
    forall i, j | 0 <= i < j < |a + b| ensures (a + b)[i] != (a + b)[j] {
      if i < |a| <= j {
        assert a[i] in a && b[j - |a|] in b;
      }
    }
  }

  /** Exactly the running tasks of expired groups fail, each listed once; nothing else changes. */
  lemma TimeoutsAreExact(pre: Chain, read: StampReader, now: string, post: Chain, failed: seq<string>, expired: seq<string>)
    requires IsTimeoutPass(pre, read, now, post, failed, expired) && pre.mode == Dag && DistinctIds(pre.tasks)
    ensures post == pre.(tasks := post.tasks) && |post.tasks| == |pre.tasks|
    ensures forall i :: 0 <= i < |pre.tasks| ==>
              var t := pre.tasks[i];
              post.tasks[i] ==
                if t.status.Running? && t.timeout.Some? && GroupExpired(pre.tasks, t.timeout.value.groupId, read, now)
                then TimedOut(t, Message(pre.tasks, t.timeout.value.groupId))
                else t
    ensures NoRepeats(failed)
    ensures forall id :: id in failed <==>
              exists i :: 0 <= i < |pre.tasks| && pre.tasks[i].id == id
                          && pre.tasks[i].status.Running? && post.tasks[i].status.Failed?
  {
    forall i | 0 <= i < |pre.tasks|
      ensures post.tasks[i] ==
                if TimesOut(pre.tasks[i], expired) then TimedOut(pre.tasks[i], Message(pre.tasks, pre.tasks[i].timeout.value.groupId))
                else pre.tasks[i]
    {
      FailGroupsAt(pre.tasks, expired, i);
    }
    FailedInGroupsAre(pre.tasks, expired);
  }

  /** What a timeout pass may touch: nothing in linear mode, and else the status and the error of a running task, which
      names its group and the group's first listed limit. So starts, and with them the clock of a group, are kept. */
  lemma TimeoutsTouchLittle(pre: Chain, read: StampReader, now: string, post: Chain, failed: seq<string>, expired: seq<string>, i: nat)
    requires IsTimeoutPass(pre, read, now, post, failed, expired) && DistinctIds(pre.tasks) && i < |pre.tasks|
    ensures post == pre.(tasks := post.tasks) && |post.tasks| == |pre.tasks|
    ensures post.tasks[i] == pre.tasks[i].(status := post.tasks[i].status, error := post.tasks[i].error)
    ensures post.tasks[i] != pre.tasks[i] ==>
              && pre.mode == Dag && pre.tasks[i].status.Running? && post.tasks[i].status.Failed? && pre.tasks[i].timeout.Some?
              && var g := pre.tasks[i].timeout.value.groupId;
                 exists first :: IsMember(pre.tasks, g, first) && (forall j :: 0 <= j < first ==> !InTimeoutGroup(pre.tasks[j], g))
                   && post.tasks[i].error ==
                        Some("group_timeout: group '" + g + "' exceeded " + Decimal(pre.tasks[first].timeout.value.maxSeconds) + "s limit")
  {
    hide GroupExpired, DistinctIds;
    if pre.mode == Dag {
      TimeoutsAreExact(pre, read, now, post, failed, expired);
      if post.tasks[i] != pre.tasks[i] {
        var g := pre.tasks[i].timeout.value.groupId;
        var first := FirstMember(pre.tasks, g, i);
        LimitIsFirstListed(pre.tasks, g, first);
      }
    }
  }

  lemma {:induction false} FirstMember(ts: seq<Task>, g: string, i: nat) returns (first: nat)
    requires IsMember(ts, g, i)
    ensures IsMember(ts, g, first) && forall j :: 0 <= j < first ==> !InTimeoutGroup(ts[j], g)
  {
    if j: nat :| j < i && InTimeoutGroup(ts[j], g) {
      first := FirstMember(ts, g, j);
    } else {
      first := i;
    }
  }

  // --- the order of the failed tasks ---------------------------------------------

  lemma {:induction false} FailedKeepsOrder(ts: seq<Task>, ids: seq<string>, message: string, p: nat, q: nat) returns (a: nat, b: nat)
    requires DistinctIds(ts) && NoRepeats(ids) && p < q < |ids| && HasRunning(ts, ids[p]) && HasRunning(ts, ids[q])
    ensures var failed := FailedIds(ts, ids, message); a < b < |failed| && failed[a] == ids[p] && failed[b] == ids[q]
  {
    hide DistinctIds, HasRunning, FailIds;
    var n := |ids| - 1;
    var front := ids[..n];
    if q < n {
      a, b := FailedKeepsOrder(ts, front, message, p, q);
    } else {
      FailedIdsAre(ts, front, message);
      assert front[p] == ids[p];
      FindsRunning(ts, front, message, ids[n]);
      a :| 0 <= a < |FailedIds(ts, front, message)| && FailedIds(ts, front, message)[a] == ids[p];
      b := |FailedIds(ts, front, message)|;
    }
  }

  lemma {:induction false} RunningKeepsOrder(ts: seq<Task>, g: string, i: nat, j: nat) returns (p: nat, q: nat)
    requires DistinctIds(ts) && i < j < |ts| && IsMember(ts, g, i) && IsMember(ts, g, j)
    requires ts[i].status.Running? && ts[j].status.Running?
    ensures Info(ts, g).Some?
    ensures var running := Info(ts, g).value.running; p < q < |running| && running[p] == ts[i].id && running[q] == ts[j].id
  {
    var n := |ts| - 1;
    if j < n {
      p, q := RunningKeepsOrder(ts[..n], g, i, j);
    } else {
      RunningMembersListed(ts[..n], g, i);
      var front := Info(ts[..n], g).value.running;
      p :| 0 <= p < |front| && front[p] == ts[i].id;
      q := |front|;
    }
  }

  lemma {:induction false} RunningHasNoRepeats(ts: seq<Task>, g: string)
    requires DistinctIds(ts)
    ensures Info(ts, g).Some? ==> NoRepeats(Info(ts, g).value.running)
  {
    if ts != [] {
      var n := |ts| - 1;
      RunningHasNoRepeats(ts[..n], g);
      if Info(ts[..n], g).Some? && ts[n].id in Info(ts[..n], g).value.running {
        ListedAreMembers(ts[..n], g, ts[n].id);
      }
    }
  }

  lemma {:induction false} GroupsKeepOrder(was: seq<Task>, groups: seq<string>, g: string, i: nat, j: nat) returns (a: nat, b: nat)
    requires DistinctIds(was) && NoRepeats(groups) && g in groups && i < j < |was|
    requires IsMember(was, g, i) && IsMember(was, g, j) && was[i].status.Running? && was[j].status.Running?
    ensures var failed := FailedInGroups(was, groups); a < b < |failed| && failed[a] == was[i].id && failed[b] == was[j].id
    decreases |groups|
  {
    hide DistinctIds, Info, FailIds, FailedIds, FailGroups;
    var front, last := groups[..|groups| - 1], groups[|groups| - 1];
    assert groups == front + [last];
    if last != g {
      a, b := GroupsKeepOrder(was, front, g, i, j);
    } else {
      var p, q := RunningKeepsOrder(was, g, i, j);
      RunningHasNoRepeats(was, g);
      FailGroupsKeepsIds(was, front);
      FailGroupsAt(was, front, i);
      FailGroupsAt(was, front, j);
      var us, info := FailGroups(was, front), Info(was, g).value;
      assert g !in front && us[i] == was[i] && us[j] == was[j];
      assert HasRunning(us, info.running[p]) && HasRunning(us, info.running[q]);
      a, b := FailedKeepsOrder(us, info.running, TimeoutMessage(g, info.maxSeconds), p, q);
      a, b := a + |FailedInGroups(was, front)|, b + |FailedInGroups(was, front)|;
    }
  }

  /** The failed tasks of one group are reported in entry order. */
  lemma TimeoutsAreInOrder(pre: Chain, read: StampReader, now: string, post: Chain, failed: seq<string>, expired: seq<string>, i: nat, j: nat)
    returns (a: nat, b: nat)
    requires IsTimeoutPass(pre, read, now, post, failed, expired) && DistinctIds(pre.tasks) && i < j < |pre.tasks| == |post.tasks|
    requires pre.tasks[i] != post.tasks[i] && pre.tasks[j] != post.tasks[j]
    requires pre.tasks[i].timeout.Some? && pre.tasks[j].timeout.Some?
             && pre.tasks[i].timeout.value.groupId == pre.tasks[j].timeout.value.groupId
    ensures a < b < |failed| && failed[a] == pre.tasks[i].id && failed[b] == pre.tasks[j].id
  {
    hide DistinctIds, GroupExpired, Info, FailGroups, FailedInGroups;
    FailGroupsAt(pre.tasks, expired, i);
    FailGroupsAt(pre.tasks, expired, j);
    a, b := GroupsKeepOrder(pre.tasks, expired, pre.tasks[i].timeout.value.groupId, i, j);
  }

  // --- failure strategies ----------------------------------------------------------

  ghost predicate HasIdWith(ts: seq<Task>, id: string, statuses: set<TaskStatus>) {
    exists i :: 0 <= i < |ts| && ts[i].id == id && ts[i].status in statuses
  }

  lemma {:induction false} IdsWithAre(ts: seq<Task>, statuses: set<TaskStatus>)
    requires DistinctIds(ts)
    ensures NoRepeats(IdsWith(ts, statuses))
    ensures forall id :: id in IdsWith(ts, statuses) <==> HasIdWith(ts, id, statuses)
  {
    if ts != [] {
      var n := |ts| - 1;
      var front, last := ts[..n], if ts[n].status in statuses then [ts[n].id] else [];
      IdsWithAre(front, statuses);
      forall id ensures HasIdWith(ts, id, statuses) <==> HasIdWith(front, id, statuses) || id in last {
        if HasIdWith(front, id, statuses) {
          var i :| 0 <= i < n && front[i].id == id && front[i].status in statuses;
          assert ts[i].id == id;
        }
        if HasIdWith(ts, id, statuses) && id !in last {
          var i :| 0 <= i < |ts| && ts[i].id == id && ts[i].status in statuses;
          assert front[i].id == id;
        }
      }
      NoRepeatsConcat(IdsWith(front, statuses), last);
    }
  }

  lemma {:induction false} IdsWithNone(ts: seq<Task>, statuses: set<TaskStatus>)
    requires forall i :: 0 <= i < |ts| ==> ts[i].status !in statuses
    ensures IdsWith(ts, statuses) == []
  {
    if ts != [] {
      IdsWithNone(ts[..|ts| - 1], statuses);
    }
  }

  lemma AbortedIdsAre(ts: seq<Task>)
    requires DistinctIds(ts)
    ensures NoRepeats(AbortedIds(ts))
    ensures forall id :: id in AbortedIds(ts) <==> HasIdWith(ts, id, ABORTABLE)
  {
    IdsWithAre(ts, {Pending, TaskStatus.Running});
    IdsWithAre(ts, {RetryScheduled});
    forall id
      ensures HasIdWith(ts, id, ABORTABLE) <==>
                HasIdWith(ts, id, {Pending, TaskStatus.Running}) || HasIdWith(ts, id, {RetryScheduled})
      ensures !(HasIdWith(ts, id, {Pending, TaskStatus.Running}) && HasIdWith(ts, id, {RetryScheduled}))
    {
    }
    NoRepeatsConcat(IdsWith(ts, {Pending, TaskStatus.Running}), IdsWith(ts, {RetryScheduled}));
  }

  // `list` holds exactly the ids of the tasks that newly have status `to`, once each.
  ghost predicate ListsNew(list: seq<string>, pre: seq<Task>, post: seq<Task>, to: TaskStatus)
    requires |pre| == |post|
  {
    NoRepeats(list) &&
    forall id :: id in list <==>
      exists i :: 0 <= i < |pre| && pre[i].id == id && pre[i].status != to && post[i].status == to
  }

  lemma RetryKeepsIds(c: Chain, plan: BackoffPlan)
    requires DistinctIds(c.tasks)
    ensures DistinctIds(RetryAll(c.tasks, c.config, plan))
  {
  }

  // The task has attempts left under its own policy, or under the default when it has none.
  predicate HasAttemptsLeft(t: Task, config: Config) {
    match t.retry
    case Some(own) => t.attempt < own.maxAttempts
    case None => config.defaultRetry.Some? && t.attempt < config.defaultRetry.value.maxAttempts
  }

  // A task that the strategy moves to `to`. Only a failed one can have got a new backoff before that.
  predicate IsStopped(t: Task, u: Task, to: TaskStatus, message: string) {
    u == t.(status := to, error := Some(message), backoffUntil := if t.status.Failed? then u.backoffUntil else t.backoffUntil)
  }

  // Some failure survives the retries.
  ghost predicate StaysFailed(c: Chain) {
    exists i :: 0 <= i < |c.tasks| && c.tasks[i].status.Failed? && !HasAttemptsLeft(c.tasks[i], c.config)
  }

  lemma StaysFailedWhen(c: Chain, plan: BackoffPlan)
    ensures StaysFailed(c) <==> AnyFailed(RetryAll(c.tasks, c.config, plan))
  {
    if StaysFailed(c) {
      var i :| 0 <= i < |c.tasks| && c.tasks[i].status.Failed? && !HasAttemptsLeft(c.tasks[i], c.config);
      assert RetryAll(c.tasks, c.config, plan)[i].status.Failed?;
    }
  }

  // Finished tasks stay, failures that are not retried record the list, and the rest is skipped.
  ghost predicate IsAborted(config: Config, t: Task, u: Task, skips: seq<string>) {
    if t.status.Completed? || t.status.Skipped? || t.status.Blocked? then u == t
    else if t.status.Failed? && !HasAttemptsLeft(t, config) then u == t.(causedSkips := skips)
    else IsStopped(t, u, Skipped, "aborted by failure strategy")
  }

  /** When a failure survives the retries, aborting leaves only terminal tasks, keeps the completed,
      skipped and blocked ones, and lists exactly the newly skipped ones once each, also on every failed task. */
  lemma AbortStrategy(c: Chain, plan: BackoffPlan)
    requires c.mode == Dag && c.config.onAnyFailure == AbortDag && DistinctIds(c.tasks)
    requires StaysFailed(c)
    ensures var (c', action) := AfterFailures(c, plan);
            && |c'.tasks| == |c.tasks| && c' == c.(tasks := c'.tasks) && action.dagAborted && !action.dagPaused
            && (forall i :: 0 <= i < |c.tasks| ==> IsAborted(c.config, c.tasks[i], c'.tasks[i], action.tasksSkipped))
            && ListsNew(action.tasksSkipped, c.tasks, c'.tasks, Skipped)
  {
    hide AnyFailed, NoRepeats, IdsWith, RetriedIds;
    StaysFailedWhen(c, plan);
    var ts := RetryAll(c.tasks, c.config, plan);
    RetryKeepsIds(c, plan);
    AbortedIdsAre(ts);
  }

  // The same, but what runs goes on and what waits is blocked.
  ghost predicate IsPaused(config: Config, t: Task, u: Task, skips: seq<string>) {
    if t.status.Completed? || t.status.Skipped? || t.status.Blocked? || t.status.Running? then u == t
    else if t.status.Failed? && !HasAttemptsLeft(t, config) then u == t.(causedSkips := skips)
    else IsStopped(t, u, Blocked, "paused by failure strategy")
  }

  /** Pausing leaves nothing startable, touches no running task, and lists what it blocked. */
  lemma PauseStrategy(c: Chain, plan: BackoffPlan)
    requires c.mode == Dag && c.config.onAnyFailure == PauseDag && DistinctIds(c.tasks)
    requires StaysFailed(c)
    ensures var (c', action) := AfterFailures(c, plan);
            && |c'.tasks| == |c.tasks| && c' == c.(tasks := c'.tasks, paused := true) && action.dagPaused && !action.dagAborted
            && (forall i :: 0 <= i < |c.tasks| ==> IsPaused(c.config, c.tasks[i], c'.tasks[i], action.tasksSkipped))
            && ListsNew(action.tasksSkipped, c.tasks, c'.tasks, Blocked)
  {
    hide AnyFailed, NoRepeats, IdsWith, RetriedIds;
    StaysFailedWhen(c, plan);
    var ts := RetryAll(c.tasks, c.config, plan);
    RetryKeepsIds(c, plan);
    IdsWithAre(ts, PAUSABLE);
  }

  // --- the order of the reports --------------------------------------------------------

  // The list holds the ids of the entries at these places, in entry order.
  ghost predicate IsListOf(list: seq<string>, ts: seq<Task>, at: seq<nat>) {
    && |list| == |at|
    && (forall k :: 0 <= k < |at| ==> at[k] < |ts| && list[k] == ts[at[k]].id)
    && forall j, k :: 0 <= j < k < |at| ==> at[j] < at[k]
  }

  lemma {:induction false} IdsInOrder(ts: seq<Task>, statuses: set<TaskStatus>) returns (at: seq<nat>)
    ensures IsListOf(IdsWith(ts, statuses), ts, at)
    ensures forall i :: 0 <= i < |ts| ==> (i in at <==> ts[i].status in statuses)
  {
    if ts == [] {
      at := [];
    } else {
      at := IdsInOrder(ts[..|ts| - 1], statuses);
      if ts[|ts| - 1].status in statuses {
        at := at + [|ts| - 1];
      }
    }
  }

  lemma {:induction false} RetriedInOrder(ts: seq<Task>, config: Config) returns (at: seq<nat>)
    ensures IsListOf(RetriedIds(ts, config), ts, at)
    ensures forall i :: 0 <= i < |ts| ==> (i in at <==> ts[i].status.Failed? && HasAttemptsLeft(ts[i], config))
  {
    if ts == [] {
      at := [];
    } else {
      at := RetriedInOrder(ts[..|ts| - 1], config);
      if WillRetry(ts[|ts| - 1], config) {
        at := at + [|ts| - 1];
      }
    }
  }

  /** A failure pass reports in entry order: the retried tasks; and of the stopped ones, under abort the pending and
      running tasks before those with a retry scheduled, under pause all that waited as they come. */
  lemma ReportsAreInOrder(c: Chain, plan: BackoffPlan) returns (retried: seq<nat>, first: seq<nat>, second: seq<nat>)
    requires c.mode == Dag
    ensures IsListOf(AfterFailures(c, plan).1.retryScheduled, c.tasks, retried)
    ensures forall i :: 0 <= i < |c.tasks| ==> (i in retried <==> c.tasks[i].status.Failed? && HasAttemptsLeft(c.tasks[i], c.config))
    ensures var skipped := AfterFailures(c, plan).1.tasksSkipped;
            |skipped| == |first| + |second| && IsListOf(skipped[..|first|], c.tasks, first) && IsListOf(skipped[|first|..], c.tasks, second)
    ensures StaysFailed(c) && c.config.onAnyFailure == AbortDag ==> forall i :: 0 <= i < |c.tasks| ==>
              && (i in first <==> c.tasks[i].status in {Pending, TaskStatus.Running})
              && (i in second <==> c.tasks[i].status == RetryScheduled || i in retried)
    ensures StaysFailed(c) && c.config.onAnyFailure == PauseDag ==> second == [] && forall i :: 0 <= i < |c.tasks| ==>
              (i in first <==> c.tasks[i].status in {Pending, RetryScheduled} || i in retried)
  {
    hide IdsWith, RetriedIds, StopAll, AnyFailed;
    retried := RetriedInOrder(c.tasks, c.config);
    StaysFailedWhen(c, plan);
    var ts := RetryAll(c.tasks, c.config, plan);
    first, second := [], [];
    if StaysFailed(c) && c.config.onAnyFailure == AbortDag {
      first := IdsInOrder(ts, {Pending, TaskStatus.Running});
      second := IdsInOrder(ts, {RetryScheduled});
    } else if StaysFailed(c) && c.config.onAnyFailure == PauseDag {
      first := IdsInOrder(ts, {Pending, RetryScheduled});
    }
  }

  // --- retries ---------------------------------------------------------------------

  lemma {:induction false} RetriedIdsAre(ts: seq<Task>, config: Config, i: nat)
    requires DistinctIds(ts) && i < |ts|
    ensures ts[i].id in RetriedIds(ts, config) <==> ts[i].status.Failed? && HasAttemptsLeft(ts[i], config)
    decreases |ts|
  {
    var n := |ts| - 1;
    if i < n {
      RetriedIdsAre(ts[..n], config, i);
    } else if ts[n].id in RetriedIds(ts[..n], config) {
      RetriedIsTask(ts[..n], config, ts[n].id);
    }
  }

  lemma {:induction false} RetriedIsTask(ts: seq<Task>, config: Config, id: string)
    requires id in RetriedIds(ts, config)
    ensures exists i :: 0 <= i < |ts| && ts[i].id == id
  {
    var n := |ts| - 1;
    if id in RetriedIds(ts[..n], config) {
      RetriedIsTask(ts[..n], config, id);
      var i :| 0 <= i < n && ts[..n][i].id == id;
      assert ts[i].id == id;
    } else {
      assert ts[n].id == id;
    }
  }

  /** A failure pass retries exactly the failed tasks with attempts left, where a task's own policy wins over the
      default. */
  lemma RetriesAreExact(c: Chain, plan: BackoffPlan, i: nat)
    requires DistinctIds(c.tasks) && i < |c.tasks|
    ensures c.tasks[i].id in AfterFailures(c, plan).1.retryScheduled <==>
              c.mode == Dag && c.tasks[i].status.Failed? && HasAttemptsLeft(c.tasks[i], c.config)
  {
    hide StopAll, AnyFailed, IdsWith, RetryAll;
    RetriedIdsAre(c.tasks, c.config, i);
  }

  /** Under Continue, and whenever no failure survives the retries, a failure pass stops nothing, pauses nothing and
      aborts nothing: it schedules the retries, and that is all. */
  lemma ContinueStrategy(c: Chain, plan: BackoffPlan)
    requires DistinctIds(c.tasks)
    requires c.config.onAnyFailure == Continue || !StaysFailed(c)
    ensures var (d, action) := AfterFailures(c, plan);
            && |d.tasks| == |c.tasks| && d == c.(tasks := d.tasks)
            && action == FailureActions(action.retryScheduled, [], false, false)
            && forall i :: 0 <= i < |c.tasks| ==>
                 d.tasks[i] == if c.tasks[i].id in action.retryScheduled
                               then c.tasks[i].(status := RetryScheduled, backoffUntil := Some(plan(c.tasks[i])))
                               else c.tasks[i]
  {
    hide RetriedIds, AnyFailed;
    StaysFailedWhen(c, plan);
    forall i | 0 <= i < |c.tasks|
      ensures c.tasks[i].id in RetriedIds(c.tasks, c.config) <==> WillRetry(c.tasks[i], c.config)
    {
      RetriedIdsAre(c.tasks, c.config, i);
    }
  }

  lemma PausedStartsNothing(pre: Chain, outputs: Outputs, clock: Clock, post: Chain, ready: seq<string>)
    requires IsTick(pre, outputs, clock, post, ready) && pre.paused
    ensures post == pre && ready == []
  {
  }

  ghost predicate SameStatuses(c: Chain, d: Chain) {
    && |c.tasks| == |d.tasks| && c.paused == d.paused
    && forall i :: 0 <= i < |c.tasks| ==> c.tasks[i].status == d.tasks[i].status
  }

  // After one pass nothing is left to retry.
  lemma NothingLeftToRetry(c: Chain, plan: BackoffPlan, plan2: BackoffPlan)
    requires c.mode == Dag
    ensures var d := AfterFailures(c, plan).0; RetryAll(d.tasks, d.config, plan2) == d.tasks
  {
  }

  // A pass that stops everything in `statuses` finds nothing more to stop, and forgets its list.
  lemma StopTwice(ts: seq<Task>, statuses: set<TaskStatus>, to: TaskStatus, message: string, skips: seq<string>)
    requires to !in statuses && !to.Failed? && Failed !in statuses && AnyFailed(ts)
    ensures var us := StopAll(ts, statuses, to, message, skips);
            var vs := StopAll(us, statuses, to, message, []);
            && AnyFailed(us)
            && (forall i :: 0 <= i < |us| ==> us[i].status !in statuses)
            && (forall i :: 0 <= i < |us| ==> us[i].status == vs[i].status)
            && (us == vs <==> skips == [])
  {
    var us := StopAll(ts, statuses, to, message, skips);
    var vs := StopAll(us, statuses, to, message, []);
    var f :| 0 <= f < |ts| && ts[f].status.Failed?;
    assert us[f].status.Failed? && us[f].causedSkips == skips && vs[f].causedSkips == [];
  }

  /** A second pass changes no status and not `paused`; and it changes nothing at all exactly when the
      first pass stopped no task, because it replaces the recorded skips by an empty list. */
  lemma SecondPass(c: Chain, plan: BackoffPlan, plan2: BackoffPlan)
    requires c.mode == Dag
    ensures var (d, action) := AfterFailures(c, plan);
            var e := AfterFailures(d, plan2).0;
            SameStatuses(d, e) && (e == d <==> action.tasksSkipped == [])
  {
    hide AnyFailed, RetriedIds, StopAll;
    var (d, action) := AfterFailures(c, plan);
    NothingLeftToRetry(c, plan, plan2);
    var ts := RetryAll(c.tasks, c.config, plan);
    if AnyFailed(ts) && c.config.onAnyFailure == AbortDag {
      StopTwice(ts, ABORTABLE, Skipped, ABORT_MESSAGE, AbortedIds(ts));
      IdsWithNone(d.tasks, {RetryScheduled});
      IdsWithNone(d.tasks, {Pending, TaskStatus.Running});
    } else if AnyFailed(ts) && c.config.onAnyFailure == PauseDag {
      StopTwice(ts, PAUSABLE, Blocked, PAUSE_MESSAGE, IdsWith(ts, PAUSABLE));
      IdsWithNone(d.tasks, PAUSABLE);
    }
  }

  /** The recorded skips really are lost: one failed task and one it made the engine skip. */
  lemma SecondPassForgetsSkips()
    ensures exists c: Chain, plan: BackoffPlan ::
              c.mode == Dag && DistinctIds(c.tasks)
              && AfterFailures(AfterFailures(c, plan).0, plan).0 != AfterFailures(c, plan).0
  {
    hide StopAll, RetriedIds, IdsWith, NoRepeats;
    var t := Task("a", [], None, None, None, None, None, Failed, 1, None, None, None, None, []);
    var u := t.(id := "b", status := Pending, attempt := 0);
    var c := Chain(Dag, [t, u], Config(4, None, AbortDag), false);
    var plan: BackoffPlan := _ => Unreadable;
    var ts := RetryAll(c.tasks, c.config, plan);
    assert ts[0].status.Failed? && ts[1] == u;
    IdsWithAre(ts, {Pending, TaskStatus.Running});
    assert HasIdWith(ts, ts[1].id, {Pending, TaskStatus.Running});
    SecondPass(c, plan, plan);
  }
}
