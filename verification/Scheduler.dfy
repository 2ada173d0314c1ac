/** One scheduler tick: expired backoffs, eligibility, selection under the two caps, and the
    transitions to Running. */
module Scheduler {
  import opened Wrappers
  import opened ChainTypes

  // --- eligibility ---------------------------------------------------------

  predicate DependenciesMet(t: Task, statuses: map<string, TaskStatus>) {
    forall k :: 0 <= k < |t.dependsOn| ==> t.dependsOn[k] in statuses && statuses[t.dependsOn[k]].IsDone()
  }

  predicate ConditionMet(t: Task, statuses: map<string, TaskStatus>, outputs: Outputs) {
    t.condition.None? ||
    match t.condition.value
    case StatusGate(source, accepts) => source in statuses && statuses[source] in accepts
    case OutputGate(source, test) => source in outputs && test in outputs[source]
    case ExpressionGate(_) => false
  }

  /** A task of a round above 1 waits for every task of a lower round to be terminal. */
  predicate RoundOpen(t: Task, ts: seq<Task>) {
    t.round.Some? && t.round.value > 1 ==>
      forall k :: 0 <= k < |ts| && !ts[k].status.IsTerminal() ==> t.round.value <= RoundOf(ts[k])
  }

  predicate Eligible(t: Task, ts: seq<Task>, outputs: Outputs) {
    && t.status.IsStartable()
    && DependenciesMet(t, StatusMap(ts))
    && ConditionMet(t, StatusMap(ts), outputs)
    && RoundOpen(t, ts)
  }

  // The eligible ids of one parallel group among the first n entries, in entry order.
  function Queue(ts: seq<Task>, outputs: Outputs, g: GroupKey, n: nat): seq<string>
    requires n <= |ts|
  {
    if n == 0 then [] else
      var q := Queue(ts, outputs, g, n - 1);
      if ts[n - 1].group == g && Eligible(ts[n - 1], ts, outputs) then q + [ts[n - 1].id] else q
  }

  function FullQueue(ts: seq<Task>, outputs: Outputs, g: GroupKey): seq<string> {
    Queue(ts, outputs, g, |ts|)
  }

  lemma {:induction false} QueueMembers(ts: seq<Task>, outputs: Outputs, g: GroupKey, n: nat, k: nat)
    requires n <= |ts| && k < |Queue(ts, outputs, g, n)|
    ensures exists i :: 0 <= i < n && ts[i].id == Queue(ts, outputs, g, n)[k] && ts[i].group == g
                        && Eligible(ts[i], ts, outputs)
  {
    var q := Queue(ts, outputs, g, n - 1);
    if k < |q| {
      QueueMembers(ts, outputs, g, n - 1, k);
    } else {
      assert ts[n - 1].group == g && Eligible(ts[n - 1], ts, outputs);
    }
  }

  lemma {:induction false} QueueHolds(ts: seq<Task>, outputs: Outputs, i: nat, n: nat)
    requires i < n <= |ts| && Eligible(ts[i], ts, outputs)
    ensures ts[i].id in Queue(ts, outputs, ts[i].group, n)
  {
    if i < n - 1 {
      QueueHolds(ts, outputs, i, n - 1);
    }
  }

  ghost predicate NoRepeats(q: seq<string>) {
    forall a, b :: 0 <= a < b < |q| ==> q[a] != q[b]
  }

  lemma {:induction false} QueueDistinct(ts: seq<Task>, outputs: Outputs, g: GroupKey, n: nat)
    requires n <= |ts| && DistinctIds(ts)
    ensures NoRepeats(Queue(ts, outputs, g, n))
  {
    if n > 0 {
      QueueDistinct(ts, outputs, g, n - 1);
      var q := Queue(ts, outputs, g, n - 1);
      forall a | 0 <= a < |q| ensures q[a] != ts[n - 1].id {
        QueueMembers(ts, outputs, g, n - 1, a);
        var i :| 0 <= i < n - 1 && ts[i].id == q[a];
      }
    }
  }

  // --- running counts ------------------------------------------------------

  function RunningTotal(ts: seq<Task>): (c: nat) {
    if ts == [] then 0 else RunningTotal(ts[..|ts| - 1]) + (if ts[|ts| - 1].status.Running? then 1 else 0)
  }

  function RunningIn(ts: seq<Task>, g: GroupKey): (c: nat) {
    if ts == [] then 0 else
      RunningIn(ts[..|ts| - 1], g) + (if ts[|ts| - 1].status.Running? && ts[|ts| - 1].group == g then 1 else 0)
  }

  function GroupCap(cap: u32): nat {
    (cap + 1) / 2
  }

  method CountRunning(ts: seq<Task>) returns (all: nat, byGroup: map<string, nat>)
    ensures all == RunningTotal(ts)
    ensures forall name :: (if name in byGroup then byGroup[name] else 0) == RunningIn(ts, Some(name))
  {
    all, byGroup := 0, map[];
    for i := 0 to |ts|
      invariant all == RunningTotal(ts[..i])
      invariant forall name :: (if name in byGroup then byGroup[name] else 0) == RunningIn(ts[..i], Some(name))
    {
      assert ts[..i + 1][..i] == ts[..i];
      if ts[i].status == TaskStatus.Running {
        all := all + 1;
        if ts[i].group.Some? {
          var name := ts[i].group.value;
          byGroup := byGroup[name := (if name in byGroup then byGroup[name] else 0) + 1];
        }
      }
    }
    assert ts[..|ts|] == ts;
  }

  // --- selection -----------------------------------------------------------

  function Count(gs: seq<GroupKey>, g: GroupKey): (c: nat)
    ensures c <= |gs|
  {
    if gs == [] then 0 else Count(gs[..|gs| - 1], g) + (if gs[|gs| - 1] == g then 1 else 0)
  }

  lemma CountAppend(gs: seq<GroupKey>, last: GroupKey, g: GroupKey)
    ensures Count(gs + [last], g) == Count(gs, g) + (if last == g then 1 else 0)
  {
    assert (gs + [last])[..|gs|] == gs;
  }

  lemma {:induction false} CountGrows(gs: seq<GroupKey>, i: nat, j: nat, g: GroupKey)
    requires i <= j <= |gs|
    ensures Count(gs[..i], g) <= Count(gs[..j], g)
    ensures i < j && gs[i] == g ==> Count(gs[..i], g) < Count(gs[..j], g)
    decreases j - i
  {
    if i < j {
      assert gs[..i + 1][..i] == gs[..i];
      CountGrows(gs, i + 1, j, g);
    }
  }

  // The group of the first entry with this id, as the selection looks it up.
  function GroupOfId(ts: seq<Task>, id: string): GroupKey {
    if FirstIndex(ts, id) < |ts| then ts[FirstIndex(ts, id)].group else None
  }

  function GroupsOf(ts: seq<Task>, ready: seq<string>): (gs: seq<GroupKey>)
    ensures |gs| == |ready|
  {
    if ready == [] then [] else GroupsOf(ts, ready[..|ready| - 1]) + [GroupOfId(ts, ready[|ready| - 1])]
  }

  /** The group still has an eligible task to give and is not at its cap. */
  ghost predicate Servable(ts: seq<Task>, outputs: Outputs, cap: u32, g: GroupKey, picks: seq<GroupKey>, ready: seq<string>) {
    && Count(picks, g) < |FullQueue(ts, outputs, g)|
    && (g.Some? ==> RunningIn(ts, g) + Count(GroupsOf(ts, ready), g) < GroupCap(cap))
  }

  ghost predicate IsOrder(ts: seq<Task>, outputs: Outputs, order: seq<GroupKey>) {
    && (forall i, j :: 0 <= i < j < |order| ==> order[i] != order[j])
    && (forall g :: g in order <==> FullQueue(ts, outputs, g) != [])
  }

  // Group `order[k]` can be served, and no group that can be served has been served less,
  // or as little while standing earlier in the order.
  ghost predicate LeastServed(ts: seq<Task>, outputs: Outputs, cap: u32, order: seq<GroupKey>, k: nat,
                              picks: seq<GroupKey>, ready: seq<string>)
    requires k < |order|
  {
    && Servable(ts, outputs, cap, order[k], picks, ready)
    && (forall i :: 0 <= i < |order| && Servable(ts, outputs, cap, order[i], picks, ready) ==>
          Count(picks, order[k]) <= Count(picks, order[i])
          && (i < k ==> Count(picks, order[k]) < Count(picks, order[i])))
  }

  ghost predicate PickOk(ts: seq<Task>, outputs: Outputs, cap: u32, order: seq<GroupKey>,
                         picks: seq<GroupKey>, ready: seq<string>, j: nat)
    requires j < |picks| == |ready|
  {
    && RunningTotal(ts) + j < cap
    && Count(picks[..j], picks[j]) < |FullQueue(ts, outputs, picks[j])|
    && ready[j] == FullQueue(ts, outputs, picks[j])[Count(picks[..j], picks[j])]
    && exists k :: 0 <= k < |order| && order[k] == picks[j] && LeastServed(ts, outputs, cap, order, k, picks[..j], ready[..j])
  }

  ghost predicate IsSelectionSoFar(ts: seq<Task>, outputs: Outputs, cap: u32, order: seq<GroupKey>,
                                   picks: seq<GroupKey>, ready: seq<string>) {
    |picks| == |ready| && forall j :: 0 <= j < |picks| ==> PickOk(ts, outputs, cap, order, picks, ready, j)
  }

  /** What a selection is, with no loop in it. Every pick goes to the least served group that can
      still be served, ties going to the group that stands first in `order`; it takes that group's next
      eligible task; and picking stops only when the global cap is reached or no group can be served. */
  ghost predicate IsSelection(ts: seq<Task>, outputs: Outputs, cap: u32, order: seq<GroupKey>,
                              picks: seq<GroupKey>, ready: seq<string>) {
    && IsOrder(ts, outputs, order)
    && IsSelectionSoFar(ts, outputs, cap, order, picks, ready)
    && (RunningTotal(ts) + |ready| >= cap || forall g :: g in order ==> !Servable(ts, outputs, cap, g, picks, ready))
  }

  method BuildStatusMap(ts: seq<Task>) returns (statuses: map<string, TaskStatus>)
    ensures statuses == StatusMap(ts)
  {
    statuses := map[];
    for i := 0 to |ts|
      invariant statuses == StatusMap(ts[..i])
    {
      assert ts[..i + 1][..i] == ts[..i];
      statuses := statuses[ts[i].id := ts[i].status];
    }
    assert ts[..|ts|] == ts;
  }

  // The lowest round that still has a task which is not terminal.
  method MinNonTerminalRound(ts: seq<Task>) returns (low: Option<u32>)
    ensures forall k :: 0 <= k < |ts| && !ts[k].status.IsTerminal() ==> low.Some? && low.value <= RoundOf(ts[k])
    ensures low.Some? ==> exists k :: 0 <= k < |ts| && !ts[k].status.IsTerminal() && RoundOf(ts[k]) == low.value
  {
    low := None;
    for i := 0 to |ts|
      invariant forall k :: 0 <= k < i && !ts[k].status.IsTerminal() ==> low.Some? && low.value <= RoundOf(ts[k])
      invariant low.Some? ==> exists k :: 0 <= k < i && !ts[k].status.IsTerminal() && RoundOf(ts[k]) == low.value
    {
      if !ts[i].status.IsTerminal() && (low.None? || RoundOf(ts[i]) < low.value) {
        low := Some(RoundOf(ts[i]));
      }
    }
  }

  method CollectEligible(ts: seq<Task>, outputs: Outputs) returns (queues: map<GroupKey, seq<string>>)
    ensures forall g :: g in queues <==> FullQueue(ts, outputs, g) != []
    ensures forall g :: g in queues ==> queues[g] == FullQueue(ts, outputs, g)
  {
    var statuses := BuildStatusMap(ts);
    var low := MinNonTerminalRound(ts);
    queues := map[];
    for i := 0 to |ts|
      invariant forall g :: g in queues <==> Queue(ts, outputs, g, i) != []
      invariant forall g :: g in queues ==> queues[g] == Queue(ts, outputs, g, i)
    {
      var t := ts[i];
      if t.status != Pending && t.status != RetryScheduled {
        continue;
      }
      if !DependenciesMet(t, statuses) {
        continue;
      }
      if !ConditionMet(t, statuses, outputs) {
        continue;
      }
      if t.round.Some? && t.round.value > 1 && low.Some? && low.value < t.round.value {
        continue;
      }
      queues := queues[t.group := (if t.group in queues then queues[t.group] else []) + [t.id]];
    }
  }

  // Hash-map order: any enumeration of the keys.
  method EnumerateKeys(queues: map<GroupKey, seq<string>>) returns (order: seq<GroupKey>)
    ensures forall i, j :: 0 <= i < j < |order| ==> order[i] != order[j]
    ensures forall g :: g in order <==> g in queues
  {
    order := [];
    var left := queues.Keys;
    while left != {}
      invariant forall i, j :: 0 <= i < j < |order| ==> order[i] != order[j]
      invariant forall g :: g in order <==> g in queues && g !in left
      invariant left <= queues.Keys
    {
      var g :| g in left;
      order, left := order + [g], left - {g};
    }
  }

  lemma PickExtends(ts: seq<Task>, outputs: Outputs, cap: u32, order: seq<GroupKey>, k: nat,
                    picks: seq<GroupKey>, ready: seq<string>)
    requires IsSelectionSoFar(ts, outputs, cap, order, picks, ready)
    requires k < |order| && LeastServed(ts, outputs, cap, order, k, picks, ready)
    requires RunningTotal(ts) + |ready| < cap
    ensures var next := FullQueue(ts, outputs, order[k])[Count(picks, order[k])];
            IsSelectionSoFar(ts, outputs, cap, order, picks + [order[k]], ready + [next])
  {
    var picks', ready' := picks + [order[k]], ready + [FullQueue(ts, outputs, order[k])[Count(picks, order[k])]];
    forall j | 0 <= j < |picks'| ensures PickOk(ts, outputs, cap, order, picks', ready', j) {
      if j < |picks| {
        assert PickOk(ts, outputs, cap, order, picks, ready, j);
        assert picks'[..j] == picks[..j] && ready'[..j] == ready[..j];
      } else {
        assert picks'[..j] == picks && ready'[..j] == ready;
      }
    }
  }

  // A group that cannot be served stays so, whatever is picked.
  lemma ServableShrinks(ts: seq<Task>, outputs: Outputs, cap: u32, g: GroupKey,
                        picks: seq<GroupKey>, ready: seq<string>, pick: GroupKey, id: string)
    requires Servable(ts, outputs, cap, g, picks + [pick], ready + [id])
    ensures Servable(ts, outputs, cap, g, picks, ready)
  {
    CountAppend(picks, pick, g);
    assert (ready + [id])[..|ready|] == ready;
    CountAppend(GroupsOf(ts, ready), GroupOfId(ts, id), g);
  }

  // Where the round-robin stands: `pass` whole passes are done and `k` groups of the next one.
  ghost predicate RoundRobinInv(ts: seq<Task>, outputs: Outputs, cap: u32, order: seq<GroupKey>,
                                picks: seq<GroupKey>, ready: seq<string>, pass: nat, k: nat) {
    k <= |order| &&
    forall i :: 0 <= i < |order| && Servable(ts, outputs, cap, order[i], picks, ready) ==>
      Count(picks, order[i]) == (if i < k then pass + 1 else pass)
  }

  lemma RoundRobinPicksLeastServed(ts: seq<Task>, outputs: Outputs, cap: u32, order: seq<GroupKey>,
                                   picks: seq<GroupKey>, ready: seq<string>, pass: nat, k: nat)
    requires RoundRobinInv(ts, outputs, cap, order, picks, ready, pass, k)
    requires k < |order| && Servable(ts, outputs, cap, order[k], picks, ready)
    ensures LeastServed(ts, outputs, cap, order, k, picks, ready)
  {
    hide Servable, Count;
  }

  lemma RoundRobinMovesOn(ts: seq<Task>, outputs: Outputs, cap: u32, order: seq<GroupKey>,
                          picks: seq<GroupKey>, ready: seq<string>, pass: nat, k: nat, id: string)
    requires RoundRobinInv(ts, outputs, cap, order, picks, ready, pass, k)
    requires forall i, j :: 0 <= i < j < |order| ==> order[i] != order[j]
    requires k < |order| && Servable(ts, outputs, cap, order[k], picks, ready)
    ensures RoundRobinInv(ts, outputs, cap, order, picks + [order[k]], ready + [id], pass, k + 1)
  {
    hide Servable, Count;
    forall i | 0 <= i < |order| && Servable(ts, outputs, cap, order[i], picks + [order[k]], ready + [id])
      ensures Count(picks + [order[k]], order[i]) == (if i < k + 1 then pass + 1 else pass)
    {
      ServableShrinks(ts, outputs, cap, order[i], picks, ready, order[k], id);
      CountAppend(picks, order[k], order[i]);
    }
  }

  ghost predicate QueueLeft(ts: seq<Task>, outputs: Outputs, queues: map<GroupKey, seq<string>>,
                            picks: seq<GroupKey>, g: GroupKey) {
    && g in queues && Count(picks, g) <= |FullQueue(ts, outputs, g)|
    && queues[g] == FullQueue(ts, outputs, g)[Count(picks, g)..]
  }

  ghost predicate QueuesLeft(ts: seq<Task>, outputs: Outputs, order: seq<GroupKey>,
                             queues: map<GroupKey, seq<string>>, picks: seq<GroupKey>) {
    forall i :: 0 <= i < |order| ==> QueueLeft(ts, outputs, queues, picks, order[i])
  }

  lemma QueuesAfterPick(ts: seq<Task>, outputs: Outputs, order: seq<GroupKey>,
                        queues: map<GroupKey, seq<string>>, picks: seq<GroupKey>, k: nat)
    requires QueuesLeft(ts, outputs, order, queues, picks)
    requires k < |order| && order[k] in queues && queues[order[k]] != []
    ensures QueuesLeft(ts, outputs, order, queues[order[k] := queues[order[k]][1..]], picks + [order[k]])
    ensures Count(picks, order[k]) < |FullQueue(ts, outputs, order[k])|
    ensures queues[order[k]][0] == FullQueue(ts, outputs, order[k])[Count(picks, order[k])]
  {
    var g := order[k];
    assert QueueLeft(ts, outputs, queues, picks, g);
    forall i | 0 <= i < |order|
      ensures QueueLeft(ts, outputs, queues[g := queues[g][1..]], picks + [g], order[i])
    {
      assert QueueLeft(ts, outputs, queues, picks, order[i]);
      CountAppend(picks, g, order[i]);
      if order[i] == g {
        var q, c := FullQueue(ts, outputs, g), Count(picks, g);
        assert q[c..][1..] == q[c + 1..];
      }
    }
  }

  // How many of the ids picked so far look up to this group.
  method CountReadyIn(ts: seq<Task>, ready: seq<string>, g: GroupKey) returns (c: nat)
    ensures c == Count(GroupsOf(ts, ready), g)
  {
    c := 0;
    for i := 0 to |ready|
      invariant c == Count(GroupsOf(ts, ready[..i]), g)
    {
      assert ready[..i + 1][..i] == ready[..i];
      CountAppend(GroupsOf(ts, ready[..i]), GroupOfId(ts, ready[i]), g);
      if GroupOfId(ts, ready[i]) == g {
        c := c + 1;
      }
    }
    assert ready[..|ready|] == ready;
  }

  // The test the loop makes on a group is exactly whether it can be served.
  lemma TestIsServable(ts: seq<Task>, outputs: Outputs, cap: u32, order: seq<GroupKey>, queues: map<GroupKey, seq<string>>,
                       byGroup: map<string, nat>, picks: seq<GroupKey>, ready: seq<string>, k: nat)
    requires QueuesLeft(ts, outputs, order, queues, picks) && k < |order|
    requires forall name :: (if name in byGroup then byGroup[name] else 0) == RunningIn(ts, Some(name))
    ensures order[k] in queues
    ensures Servable(ts, outputs, cap, order[k], picks, ready) <==>
              queues[order[k]] != []
              && (order[k].None? ||
                  (if order[k].value in byGroup then byGroup[order[k].value] else 0)
                  + Count(GroupsOf(ts, ready), order[k]) < GroupCap(cap))
  {
    assert QueueLeft(ts, outputs, queues, picks, order[k]);
  }

  /** The round-robin over the groups, in whatever order the hash map lists them. */
  method SelectReady(ts: seq<Task>, outputs: Outputs, cap: u32, initial: map<GroupKey, seq<string>>)
    returns (ready: seq<string>, ghost order: seq<GroupKey>, ghost picks: seq<GroupKey>)
    requires forall g :: g in initial <==> FullQueue(ts, outputs, g) != []
    requires forall g :: g in initial ==> initial[g] == FullQueue(ts, outputs, g)
    ensures IsSelection(ts, outputs, cap, order, picks, ready)
  {
    hide *;
    var queues := initial;
    var keys := EnumerateKeys(queues);
    order, picks, ready := keys, [], [];
    var running, byGroup := CountRunning(ts);
    ghost var pass := 0;
    StartRoundRobin(ts, outputs, cap, order, initial);
    while true
      invariant IsSelectionSoFar(ts, outputs, cap, order, picks, ready)
      invariant RoundRobinInv(ts, outputs, cap, order, picks, ready, pass, 0)
      invariant QueuesLeft(ts, outputs, order, queues, picks)
      decreases cap - |ready|
    {
      var anyAdded := false;
      var k := 0;
      ghost var before := |ready|;
      while k < |keys|
        invariant 0 <= k <= |keys|
        invariant IsSelectionSoFar(ts, outputs, cap, order, picks, ready)
        invariant RoundRobinInv(ts, outputs, cap, order, picks, ready, pass, k)
        invariant QueuesLeft(ts, outputs, order, queues, picks)
        invariant if anyAdded then before < |ready| <= cap else before == |ready|
        invariant !anyAdded ==> forall i :: 0 <= i < k ==> !Servable(ts, outputs, cap, order[i], picks, ready)
      {
        if running + |ready| >= cap {
          break;
        }
        var g := keys[k];
        var inGroup := CountReadyIn(ts, ready, g);
        TestIsServable(ts, outputs, cap, order, queues, byGroup, picks, ready, k);
        if queues[g] != []
           && (g.None? || (if g.value in byGroup then byGroup[g.value] else 0) + inGroup < GroupCap(cap)) {
          RoundRobinPicksLeastServed(ts, outputs, cap, order, picks, ready, pass, k);
          RoundRobinMovesOn(ts, outputs, cap, order, picks, ready, pass, k, queues[g][0]);
          PickExtends(ts, outputs, cap, order, k, picks, ready);
          QueuesAfterPick(ts, outputs, order, queues, picks, k);
          picks, ready := picks + [g], ready + [queues[g][0]];
          queues := queues[g := queues[g][1..]];
          anyAdded := true;
        } else {
          RoundRobinSkips(ts, outputs, cap, order, picks, ready, pass, k);
        }
        k := k + 1;
      }
      if !anyAdded || running + |ready| >= cap {
        SelectionDone(ts, outputs, cap, order, picks, ready);
        return;
      }
      NextPass(ts, outputs, cap, order, picks, ready, pass);
      pass := pass + 1;
    }
  }

  lemma SelectionDone(ts: seq<Task>, outputs: Outputs, cap: u32, order: seq<GroupKey>, picks: seq<GroupKey>, ready: seq<string>)
    requires forall i, j :: 0 <= i < j < |order| ==> order[i] != order[j]
    requires forall g :: g in order <==> FullQueue(ts, outputs, g) != []
    requires IsSelectionSoFar(ts, outputs, cap, order, picks, ready)
    requires RunningTotal(ts) + |ready| >= cap
             || forall i :: 0 <= i < |order| ==> !Servable(ts, outputs, cap, order[i], picks, ready)
    ensures IsSelection(ts, outputs, cap, order, picks, ready)
  {
  }

  lemma StartRoundRobin(ts: seq<Task>, outputs: Outputs, cap: u32, order: seq<GroupKey>, queues: map<GroupKey, seq<string>>)
    requires forall g :: g in order <==> g in queues
    requires forall g :: g in queues ==> queues[g] == FullQueue(ts, outputs, g)
    ensures RoundRobinInv(ts, outputs, cap, order, [], [], 0, 0)
    ensures QueuesLeft(ts, outputs, order, queues, [])
    ensures IsSelectionSoFar(ts, outputs, cap, order, [], [])
  {
  }

  lemma RoundRobinSkips(ts: seq<Task>, outputs: Outputs, cap: u32, order: seq<GroupKey>,
                        picks: seq<GroupKey>, ready: seq<string>, pass: nat, k: nat)
    requires RoundRobinInv(ts, outputs, cap, order, picks, ready, pass, k)
    requires k < |order| && !Servable(ts, outputs, cap, order[k], picks, ready)
    ensures RoundRobinInv(ts, outputs, cap, order, picks, ready, pass, k + 1)
  {
  }

  lemma NextPass(ts: seq<Task>, outputs: Outputs, cap: u32, order: seq<GroupKey>,
                 picks: seq<GroupKey>, ready: seq<string>, pass: nat)
    requires RoundRobinInv(ts, outputs, cap, order, picks, ready, pass, |order|)
    ensures RoundRobinInv(ts, outputs, cap, order, picks, ready, pass + 1, 0)
  {
  }

  // --- transitions ---------------------------------------------------------

  function Expire(t: Task, millis: int): Task {
    if t.status.RetryScheduled? && t.backoffUntil.Some? && t.backoffUntil.value.At? && t.backoffUntil.value.millis <= millis
    then t.(status := Pending, backoffUntil := None)
    else t
  }

  function ExpireAll(ts: seq<Task>, millis: int): (r: seq<Task>)
    ensures |r| == |ts| && forall i :: 0 <= i < |ts| ==> r[i] == Expire(ts[i], millis)
  {
    seq(|ts|, i requires 0 <= i < |ts| => Expire(ts[i], millis))
  }

  function Started(t: Task, iso: string): Task {
    t.(status := TaskStatus.Running, attempt := if t.attempt < U32_MAX then t.attempt + 1 else t.attempt, startedAt := Some(iso))
  }

  function StartOne(ts: seq<Task>, id: string, iso: string): (r: seq<Task>)
    ensures |r| == |ts|
  {
    var k := FirstIndex(ts, id);
    if k < |ts| then ts[k := Started(ts[k], iso)] else ts
  }

  function StartAll(ts: seq<Task>, ready: seq<string>, iso: string): (r: seq<Task>)
    ensures |r| == |ts|
  {
    if ready == [] then ts else StartOne(StartAll(ts, ready[..|ready| - 1], iso), ready[|ready| - 1], iso)
  }

  predicate Schedules(c: Chain) {
    c.mode == Dag && !c.paused && c.config.maxConcurrent > 0
  }

  /** One tick, for some hash order of the groups. */
  ghost predicate IsTick(pre: Chain, outputs: Outputs, clock: Clock, post: Chain, ready: seq<string>) {
    if !Schedules(pre) then post == pre && ready == [] else
      var waiting := ExpireAll(pre.tasks, clock.millis);
      && post == pre.(tasks := StartAll(waiting, ready, clock.iso))
      && exists order, picks :: IsSelection(waiting, outputs, pre.config.maxConcurrent, order, picks, ready)
  }

  method HandleExpiredBackoffs(root: ChainDagRoot, clock: Clock)
    modifies root.tasks
    ensures root.tasks[..] == ExpireAll(old(root.tasks[..]), clock.millis)
  {
    for i := 0 to root.tasks.Length
      invariant forall k :: 0 <= k < i ==> root.tasks[k] == Expire(old(root.tasks[k]), clock.millis)
      invariant forall k :: i <= k < root.tasks.Length ==> root.tasks[k] == old(root.tasks[k])
    {
      var t := root.tasks[i];
      if t.status == RetryScheduled && t.backoffUntil.Some? {
        match t.backoffUntil.value
        case At(millis) =>
          if clock.millis >= millis {
            root.tasks[i] := t.(status := Pending, backoffUntil := None);
          }
        case Unreadable =>
      }
    }
  }

  method FindIndex(root: ChainDagRoot, id: string) returns (k: nat)
    ensures k == FirstIndex(root.tasks[..], id)
  {
    k := 0;
    while k < root.tasks.Length && root.tasks[k].id != id
      invariant k <= root.tasks.Length
      invariant forall j :: 0 <= j < k ==> root.tasks[j].id != id
    {
      k := k + 1;
    }
  }

  method StartReady(root: ChainDagRoot, ready: seq<string>, iso: string)
    modifies root.tasks
    ensures root.tasks[..] == StartAll(old(root.tasks[..]), ready, iso)
  {
    for j := 0 to |ready|
      invariant root.tasks[..] == StartAll(old(root.tasks[..]), ready[..j], iso)
    {
      assert ready[..j + 1][..j] == ready[..j];
      var k := FindIndex(root, ready[j]);
      if k < root.tasks.Length {
        var t := root.tasks[k];
        root.tasks[k] := t.(status := TaskStatus.Running,
                            attempt := if t.attempt < U32_MAX then t.attempt + 1 else t.attempt,
                            startedAt := Some(iso));
      }
    }
    assert ready[..|ready|] == ready;
  }

  /** The scheduler's tick: returns the ids it moved to Running. */
  method AdvanceDag(root: ChainDagRoot, outputs: Outputs, clock: Clock) returns (ready: seq<string>)
    modifies root.tasks
    ensures IsTick(old(root.View()), outputs, clock, root.View(), ready)
  {
    if root.mode != Dag || root.paused || root.config.maxConcurrent == 0 {
      return [];
    }
    HandleExpiredBackoffs(root, clock);
    var ts := root.tasks[..];
    var queues := CollectEligible(ts, outputs);
    ghost var order, picks;
    ready, order, picks := SelectReady(ts, outputs, root.config.maxConcurrent, queues);
    StartReady(root, ready, clock.iso);
  }
}
