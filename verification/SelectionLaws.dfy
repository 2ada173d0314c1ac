/** What every selection guarantees, whatever the order of the groups: the caps, prefixes of the
    queues, fairness, and that the order alone determines it. */
module SelectionLaws {
  import opened ChainTypes
  import opened Scheduler

  // --- the picks -----------------------------------------------------------

  lemma PickedTask(ts: seq<Task>, outputs: Outputs, cap: u32, order: seq<GroupKey>,
                   picks: seq<GroupKey>, ready: seq<string>, j: nat) returns (i: nat)
    requires IsSelectionSoFar(ts, outputs, cap, order, picks, ready) && j < |ready|
    ensures i < |ts| && ts[i].id == ready[j] && ts[i].group == picks[j]
    ensures Eligible(ts[i], ts, outputs) && ts[i].status.IsStartable()
  {
    assert PickOk(ts, outputs, cap, order, picks, ready, j);
    QueueMembers(ts, outputs, picks[j], |ts|, Count(picks[..j], picks[j]));
    i :| 0 <= i < |ts| && ts[i].id == ready[j] && ts[i].group == picks[j] && Eligible(ts[i], ts, outputs);
  }

  lemma {:induction false} GroupsOfAreThePicks(ts: seq<Task>, outputs: Outputs, cap: u32, order: seq<GroupKey>,
                                               picks: seq<GroupKey>, ready: seq<string>, j: nat)
    requires IsSelectionSoFar(ts, outputs, cap, order, picks, ready) && j <= |ready| && DistinctIds(ts)
    ensures GroupsOf(ts, ready[..j]) == picks[..j]
  {
    if j > 0 {
      GroupsOfAreThePicks(ts, outputs, cap, order, picks, ready, j - 1);
      var i := PickedTask(ts, outputs, cap, order, picks, ready, j - 1);
      FirstIndexIs(ts, i);
      assert ready[..j][..j - 1] == ready[..j - 1];
    }
  }

  lemma {:induction false} LastPick(picks: seq<GroupKey>, g: GroupKey, n: nat) returns (j: nat)
    requires n <= |picks| && Count(picks[..n], g) > 0
    ensures j < n && picks[j] == g && Count(picks[..j], g) == Count(picks[..n], g) - 1
  {
    assert picks[..n][..n - 1] == picks[..n - 1];
    if picks[n - 1] == g {
      j := n - 1;
    } else {
      j := LastPick(picks, g, n - 1);
    }
  }

  lemma {:induction false} ServableEarlier(ts: seq<Task>, outputs: Outputs, cap: u32, g: GroupKey,
                                           picks: seq<GroupKey>, ready: seq<string>, j: nat, n: nat)
    requires j <= n <= |picks| == |ready| && Servable(ts, outputs, cap, g, picks[..n], ready[..n])
    ensures Servable(ts, outputs, cap, g, picks[..j], ready[..j])
    decreases n - j
  {
    if j < n {
      assert picks[..n] == picks[..n - 1] + [picks[n - 1]] && ready[..n] == ready[..n - 1] + [ready[n - 1]];
      ServableEarlier(ts, outputs, cap, g, picks, ready, j, n - 1);
    }
  }

  // --- the caps ------------------------------------------------------------

  lemma RespectsGlobalCap(ts: seq<Task>, outputs: Outputs, cap: u32, order: seq<GroupKey>,
                          picks: seq<GroupKey>, ready: seq<string>)
    requires IsSelectionSoFar(ts, outputs, cap, order, picks, ready)
    ensures RunningTotal(ts) + |ready| <= Max(RunningTotal(ts), cap)
  {
    if |ready| > 0 {
      assert PickOk(ts, outputs, cap, order, picks, ready, |ready| - 1);
    }
  }

  lemma RespectsGroupCap(ts: seq<Task>, outputs: Outputs, cap: u32, order: seq<GroupKey>,
                         picks: seq<GroupKey>, ready: seq<string>, g: GroupKey)
    requires IsSelectionSoFar(ts, outputs, cap, order, picks, ready) && DistinctIds(ts) && g.Some?
    ensures RunningIn(ts, g) + Count(picks, g) <= Max(RunningIn(ts, g), GroupCap(cap))
  {
    if Count(picks, g) > 0 {
      assert picks[..|picks|] == picks;
      var j := LastPick(picks, g, |picks|);
      assert PickOk(ts, outputs, cap, order, picks, ready, j);
      GroupsOfAreThePicks(ts, outputs, cap, order, picks, ready, j);
    }
  }

  // --- prefixes, fairness, determinism ---------------------------------------

  // The ids taken from one group, in the order they were taken.
  function TakenFrom(picks: seq<GroupKey>, ready: seq<string>, g: GroupKey): seq<string>
    requires |picks| == |ready|
  {
    if picks == [] then [] else
      var n := |picks| - 1;
      TakenFrom(picks[..n], ready[..n], g) + (if picks[n] == g then [ready[n]] else [])
  }

  /** Each group gives a prefix of its eligible tasks. */
  lemma {:induction false} TakesAPrefix(ts: seq<Task>, outputs: Outputs, cap: u32, order: seq<GroupKey>,
                                        picks: seq<GroupKey>, ready: seq<string>, g: GroupKey, n: nat)
    requires IsSelectionSoFar(ts, outputs, cap, order, picks, ready) && n <= |picks|
    ensures Count(picks[..n], g) <= |FullQueue(ts, outputs, g)|
    ensures TakenFrom(picks[..n], ready[..n], g) == FullQueue(ts, outputs, g)[..Count(picks[..n], g)]
  {
    hide LeastServed, FullQueue;
    if n > 0 {
      TakesAPrefix(ts, outputs, cap, order, picks, ready, g, n - 1);
      assert PickOk(ts, outputs, cap, order, picks, ready, n - 1);
      assert picks[..n][..n - 1] == picks[..n - 1] && ready[..n][..n - 1] == ready[..n - 1];
    }
  }

  lemma {:induction false} TakenIsReady(picks: seq<GroupKey>, ready: seq<string>, g: GroupKey, id: string)
    requires |picks| == |ready| && id in TakenFrom(picks, ready, g)
    ensures id in ready
  {
    var n := |picks| - 1;
    if id in TakenFrom(picks[..n], ready[..n], g) {
      TakenIsReady(picks[..n], ready[..n], g, id);
    }
  }

  // What stands in the queue before the last pick of its group was picked as well.
  lemma FrontIsReady(ts: seq<Task>, outputs: Outputs, cap: u32, order: seq<GroupKey>,
                     picks: seq<GroupKey>, ready: seq<string>, g: GroupKey, p: nat)
    requires IsSelectionSoFar(ts, outputs, cap, order, picks, ready) && p < Count(picks, g)
    ensures p < |FullQueue(ts, outputs, g)| && FullQueue(ts, outputs, g)[p] in ready
  {
    hide PickOk, FullQueue, Count;
    assert picks[..|picks|] == picks && ready[..|ready|] == ready;
    TakesAPrefix(ts, outputs, cap, order, picks, ready, g, |picks|);
    TakenIsReady(picks, ready, g, FullQueue(ts, outputs, g)[p]);
  }

  /** Of two eligible tasks of one group, the earlier entry stands earlier in the queue. */
  lemma {:induction false} QueueKeepsOrder(ts: seq<Task>, outputs: Outputs, i: nat, j: nat, n: nat) returns (p: nat, q: nat)
    requires i < j < n <= |ts| && ts[i].group == ts[j].group
    requires Eligible(ts[i], ts, outputs) && Eligible(ts[j], ts, outputs)
    ensures var queue := Queue(ts, outputs, ts[i].group, n); p < q < |queue| && queue[p] == ts[i].id && queue[q] == ts[j].id
  {
    hide Eligible;
    if j < n - 1 {
      p, q := QueueKeepsOrder(ts, outputs, i, j, n - 1);
    } else {
      QueueHolds(ts, outputs, i, n - 1);
      var front := Queue(ts, outputs, ts[i].group, n - 1);
      p :| 0 <= p < |front| && front[p] == ts[i].id;
      q := |front|;
    }
  }

  /** So a group's tasks start in entry order: no task is picked before an earlier eligible one of its group. */
  lemma EarlierIsPickedFirst(ts: seq<Task>, outputs: Outputs, cap: u32, order: seq<GroupKey>,
                             picks: seq<GroupKey>, ready: seq<string>, i: nat, j: nat)
    requires IsSelectionSoFar(ts, outputs, cap, order, picks, ready) && DistinctIds(ts)
    requires i < j < |ts| && ts[i].group == ts[j].group && Eligible(ts[i], ts, outputs) && Eligible(ts[j], ts, outputs)
    requires ts[j].id in ready
    ensures ts[i].id in ready
  {
    hide Eligible, LeastServed, Queue;
    var g := ts[i].group;
    var p, q := QueueKeepsOrder(ts, outputs, i, j, |ts|);
    QueueDistinct(ts, outputs, g, |ts|);
    var k :| 0 <= k < |ready| && ready[k] == ts[j].id;
    var at := PickedTask(ts, outputs, cap, order, picks, ready, k);
    assert at == j;
    assert PickOk(ts, outputs, cap, order, picks, ready, k);
    assert picks[..|picks|] == picks;
    CountGrows(picks, k, |picks|, g);
    FrontIsReady(ts, outputs, cap, order, picks, ready, g, p);
  }

  /** No group gets over one task more than a group that could still be served. */
  lemma IsFair(ts: seq<Task>, outputs: Outputs, cap: u32, order: seq<GroupKey>,
               picks: seq<GroupKey>, ready: seq<string>, g: GroupKey, h: GroupKey)
    requires IsSelection(ts, outputs, cap, order, picks, ready)
    requires h in order && Servable(ts, outputs, cap, h, picks, ready)
    ensures Count(picks, g) <= Count(picks, h) + 1
  {
    if Count(picks, g) > 0 {
      assert picks[..|picks|] == picks && ready[..|ready|] == ready;
      var j := LastPick(picks, g, |picks|);
      assert PickOk(ts, outputs, cap, order, picks, ready, j);
      ServableEarlier(ts, outputs, cap, h, picks, ready, j, |picks|);
      var i :| 0 <= i < |order| && order[i] == h;
      CountGrows(picks, j, |picks|, h);
    }
  }

  lemma LeastServedIsUnique(ts: seq<Task>, outputs: Outputs, cap: u32, order: seq<GroupKey>, k1: nat, k2: nat,
                            picks: seq<GroupKey>, ready: seq<string>)
    requires k1 < |order| && k2 < |order|
    requires LeastServed(ts, outputs, cap, order, k1, picks, ready) && LeastServed(ts, outputs, cap, order, k2, picks, ready)
    ensures k1 == k2
  {
  }

  lemma {:induction false} SamePrefix(ts: seq<Task>, outputs: Outputs, cap: u32, order: seq<GroupKey>,
                                      p1: seq<GroupKey>, r1: seq<string>, p2: seq<GroupKey>, r2: seq<string>, j: nat)
    requires IsSelection(ts, outputs, cap, order, p1, r1) && IsSelection(ts, outputs, cap, order, p2, r2)
    requires j <= |p1| && j <= |p2|
    ensures p1[..j] == p2[..j] && r1[..j] == r2[..j]
  {
    hide Servable, FullQueue, LeastServed;
    if j > 0 {
      SamePrefix(ts, outputs, cap, order, p1, r1, p2, r2, j - 1);
      assert PickOk(ts, outputs, cap, order, p1, r1, j - 1) && PickOk(ts, outputs, cap, order, p2, r2, j - 1);
      var k1 :| 0 <= k1 < |order| && order[k1] == p1[j - 1]
                && LeastServed(ts, outputs, cap, order, k1, p1[..j - 1], r1[..j - 1]);
      var k2 :| 0 <= k2 < |order| && order[k2] == p2[j - 1]
                && LeastServed(ts, outputs, cap, order, k2, p2[..j - 1], r2[..j - 1]);
      LeastServedIsUnique(ts, outputs, cap, order, k1, k2, p1[..j - 1], r1[..j - 1]);
      assert p1[..j] == p1[..j - 1] + [p1[j - 1]] && p2[..j] == p2[..j - 1] + [p2[j - 1]];
      assert r1[..j] == r1[..j - 1] + [r1[j - 1]] && r2[..j] == r2[..j - 1] + [r2[j - 1]];
    }
  }

  // Before each pick the global cap is not reached and some group can be served.
  lemma GoesOn(ts: seq<Task>, outputs: Outputs, cap: u32, order: seq<GroupKey>,
               picks: seq<GroupKey>, ready: seq<string>, n: nat)
    requires IsSelectionSoFar(ts, outputs, cap, order, picks, ready) && n < |picks|
    ensures RunningTotal(ts) + n < cap
    ensures exists g :: g in order && Servable(ts, outputs, cap, g, picks[..n], ready[..n])
  {
    assert PickOk(ts, outputs, cap, order, picks, ready, n);
  }

  lemma NotLonger(ts: seq<Task>, outputs: Outputs, cap: u32, order: seq<GroupKey>,
                  p1: seq<GroupKey>, r1: seq<string>, p2: seq<GroupKey>, r2: seq<string>)
    requires IsSelection(ts, outputs, cap, order, p1, r1) && IsSelection(ts, outputs, cap, order, p2, r2)
    ensures |p2| <= |p1|
  {
    var n := |p1|;
    assert p1[..n] == p1 && r1[..n] == r1;
    if n < |p2| {
      SamePrefix(ts, outputs, cap, order, p1, r1, p2, r2, n);
      GoesOn(ts, outputs, cap, order, p2, r2, n);
    }
  }

  /** Two selections over the same group order are the same selection. */
  lemma OrderDeterminesSelection(ts: seq<Task>, outputs: Outputs, cap: u32, order: seq<GroupKey>,
                                 p1: seq<GroupKey>, r1: seq<string>, p2: seq<GroupKey>, r2: seq<string>)
    requires IsSelection(ts, outputs, cap, order, p1, r1) && IsSelection(ts, outputs, cap, order, p2, r2)
    ensures p1 == p2 && r1 == r2
  {
    NotLonger(ts, outputs, cap, order, p1, r1, p2, r2);
    NotLonger(ts, outputs, cap, order, p2, r2, p1, r1);
    SamePrefix(ts, outputs, cap, order, p1, r1, p2, r2, |p1|);
    assert p1[..|p1|] == p1 && r1[..|r1|] == r1 && p2[..|p1|] == p2 && r2[..|r1|] == r2;
  }

  // --- the transitions -------------------------------------------------------

  lemma ReadyHasNoRepeats(ts: seq<Task>, outputs: Outputs, cap: u32, order: seq<GroupKey>,
                          picks: seq<GroupKey>, ready: seq<string>)
    requires IsSelectionSoFar(ts, outputs, cap, order, picks, ready) && DistinctIds(ts)
    ensures NoRepeats(ready)
  {
    forall a, b | 0 <= a < b < |ready| ensures ready[a] != ready[b] {
      if picks[a] == picks[b] {
        assert PickOk(ts, outputs, cap, order, picks, ready, a) && PickOk(ts, outputs, cap, order, picks, ready, b);
        CountGrows(picks, a, b, picks[a]);
        QueueDistinct(ts, outputs, picks[a], |ts|);
      } else {
        var i1 := PickedTask(ts, outputs, cap, order, picks, ready, a);
        var i2 := PickedTask(ts, outputs, cap, order, picks, ready, b);
      }
    }
  }

  lemma {:induction false} StartAllAt(ts: seq<Task>, ready: seq<string>, iso: string, i: nat)
    requires DistinctIds(ts) && NoRepeats(ready) && i < |ts|
    ensures StartAll(ts, ready, iso)[i] == if ts[i].id in ready then Started(ts[i], iso) else ts[i]
    decreases |ready|
  {
    if ready != [] {
      var front, last := ready[..|ready| - 1], ready[|ready| - 1];
      var mid := StartAll(ts, front, iso);
      assert ready == front + [last];
      forall k | 0 <= k < |ts| ensures mid[k].id == ts[k].id && mid[k] == if ts[k].id in front then Started(ts[k], iso) else ts[k] {
        StartAllAt(ts, front, iso, k);
      }
      if ts[i].id == last {
        FirstIndexIs(mid, i);
      }
    }
  }

  function B(b: bool): nat {
    if b then 1 else 0
  }

  lemma {:induction false} CountsAfterUpdate(ts: seq<Task>, k: nat, t: Task, g: GroupKey)
    requires k < |ts| && t.group == ts[k].group
    ensures RunningTotal(ts[k := t]) + B(ts[k].status.Running?) == RunningTotal(ts) + B(t.status.Running?)
    ensures RunningIn(ts[k := t], g) + B(ts[k].status.Running? && t.group == g)
            == RunningIn(ts, g) + B(t.status.Running? && t.group == g)
  {
    var n := |ts| - 1;
    if k < n {
      CountsAfterUpdate(ts[..n], k, t, g);
      assert ts[k := t][..n] == ts[..n][k := t];
    } else {
      assert ts[k := t][..n] == ts[..n];
    }
  }

  lemma {:induction false} CountsAgree(ts: seq<Task>, us: seq<Task>, g: GroupKey)
    requires |ts| == |us|
    requires forall i :: 0 <= i < |ts| ==> ts[i].group == us[i].group && ts[i].status.Running? == us[i].status.Running?
    ensures RunningTotal(ts) == RunningTotal(us) && RunningIn(ts, g) == RunningIn(us, g)
  {
    if ts != [] {
      CountsAgree(ts[..|ts| - 1], us[..|us| - 1], g);
    }
  }

  lemma StartAllKeepsIds(ts: seq<Task>, ready: seq<string>, iso: string)
    requires DistinctIds(ts) && NoRepeats(ready)
    ensures DistinctIds(StartAll(ts, ready, iso))
  {
    forall k | 0 <= k < |ts| ensures StartAll(ts, ready, iso)[k].id == ts[k].id {
      StartAllAt(ts, ready, iso, k);
    }
  }

  lemma NotStartedYet(ts: seq<Task>, ready: seq<string>, iso: string, n: nat, i: nat)
    requires DistinctIds(ts) && NoRepeats(ready) && n < |ready| && i < |ts|
    requires ts[i].id == ready[n] && ts[i].status.IsStartable()
    ensures NoRepeats(ready[..n])
    ensures StartAll(ts, ready[..n], iso)[i] == ts[i] && !ts[i].status.Running?
  {
    StartAllAt(ts, ready[..n], iso, i);
  }

  lemma CountsAfterOneStart(ts: seq<Task>, i: nat, iso: string, g: GroupKey)
    requires DistinctIds(ts) && i < |ts| && !ts[i].status.Running?
    ensures RunningTotal(StartOne(ts, ts[i].id, iso)) == RunningTotal(ts) + 1
    ensures RunningIn(StartOne(ts, ts[i].id, iso), g) == RunningIn(ts, g) + (if ts[i].group == g then 1 else 0)
  {
    FirstIndexIs(ts, i);
    CountsAfterUpdate(ts, i, Started(ts[i], iso), g);
  }

  lemma StartAllAppend(ts: seq<Task>, ready: seq<string>, id: string, iso: string)
    ensures StartAll(ts, ready + [id], iso) == StartOne(StartAll(ts, ready, iso), id, iso)
  {
    assert (ready + [id])[..|ready|] == ready;
  }

  lemma NothingStarted(ts: seq<Task>, iso: string, g: GroupKey)
    ensures StartAll(ts, [], iso) == ts && Count([], g) == 0
  {
  }

  lemma SameLength(ts: seq<Task>, outputs: Outputs, cap: u32, order: seq<GroupKey>, picks: seq<GroupKey>, ready: seq<string>)
    requires IsSelectionSoFar(ts, outputs, cap, order, picks, ready)
    ensures |picks| == |ready|
  {
  }

  /** Starting a selection adds exactly its size to the running tasks, and to each group what it took. */
  lemma {:induction false} CountsAfterStart(ts: seq<Task>, outputs: Outputs, cap: u32, order: seq<GroupKey>,
                                            picks: seq<GroupKey>, ready: seq<string>, iso: string, n: nat, g: GroupKey)
    requires IsSelectionSoFar(ts, outputs, cap, order, picks, ready) && DistinctIds(ts) && n <= |ready|
    ensures RunningTotal(StartAll(ts, ready[..n], iso)) == RunningTotal(ts) + n
    ensures RunningIn(StartAll(ts, ready[..n], iso), g) == RunningIn(ts, g) + Count(picks[..n], g)
  {
    hide *;
    SameLength(ts, outputs, cap, order, picks, ready);
    if n > 0 {
      CountsAfterStart(ts, outputs, cap, order, picks, ready, iso, n - 1, g);
      var front := ready[..n - 1];
      ReadyHasNoRepeats(ts, outputs, cap, order, picks, ready);
      var i := PickedTask(ts, outputs, cap, order, picks, ready, n - 1);
      NotStartedYet(ts, ready, iso, n - 1, i);
      StartAllKeepsIds(ts, front, iso);
      CountsAfterOneStart(StartAll(ts, front, iso), i, iso, g);
      StartAllAppend(ts, front, ready[n - 1], iso);
      CountAppend(picks[..n - 1], picks[n - 1], g);
      assert ready[..n] == front + [ready[n - 1]] && picks[..n] == picks[..n - 1] + [picks[n - 1]];
    } else {
      NothingStarted(ts, iso, g);
      assert ready[..n] == [] && picks[..n] == [];
    }
  }
}
