/** Which tasks of a chain stay unfinished for ever: failed and blocked tasks allowed, dependencies and rounds in any
    order, validated or not. */
module StuckTasks {
  import opened ChainTypes
  import opened Scheduler
  import opened SelectionLaws
  import opened ChainRuns
  import opened ChainSafety
  import opened Progress

  /** A chain that the scheduler works on, without conditions, while nothing runs. */
  ghost predicate IsQuiet(c: Chain) {
    Schedules(c) && DistinctIds(c.tasks) && IsUnconditional(c.tasks) && forall i :: 0 <= i < |c.tasks| ==> !c.tasks[i].status.Running?
  }

  // While the tasks in `stuck` do not start, nothing with this id is ever done: not a failed or blocked task, not a
  // task that is stuck itself, and not a task that does not exist.
  ghost predicate NeverDone(ts: seq<Task>, stuck: set<int>, id: string) {
    forall j :: 0 <= j < |ts| && ts[j].id == id ==> !ts[j].status.IsDone() && (j in stuck || !ts[j].status.IsStartable())
  }

  ghost predicate IsHeldUp(ts: seq<Task>, stuck: set<int>, i: int)
    requires 0 <= i < |ts|
  {
    || (exists d :: 0 <= d < |ts[i].dependsOn| && NeverDone(ts, stuck, ts[i].dependsOn[d]))
    || (exists j :: 0 <= j < |ts| && j in stuck && MustWaitFor(ts[i], ts[j]))
  }

  /** Tasks that could be started, were it not that each of them waits for a task that is lost or in the set as well. */
  ghost predicate IsStuckSet(ts: seq<Task>, stuck: set<int>) {
    forall i :: i in stuck ==> 0 <= i < |ts| && ts[i].status.IsStartable() && IsHeldUp(ts, stuck, i)
  }

  function Startables(ts: seq<Task>): (r: set<int>)
    ensures forall i :: i in r <==> 0 <= i < |ts| && ts[i].status.IsStartable()
  {
    set i | 0 <= i < |ts| && ts[i].status.IsStartable()
  }

  // --- one round trip ------------------------------------------------------------------

  // What a round trip can do to a chain in which nothing runs.
  ghost predicate HasMovedOn(ts: seq<Task>, us: seq<Task>) {
    && |us| == |ts|
    && forall i :: 0 <= i < |ts| ==>
         && SameSpec(ts[i], us[i])
         && (if ts[i].status.IsStartable() then us[i].status.IsStartable() || us[i].status.Completed? else us[i].status == ts[i].status)
  }

  lemma StuckBefore(ts: seq<Task>, us: seq<Task>, stuck: set<int>)
    requires HasMovedOn(ts, us) && IsStuckSet(us, stuck)
    requires forall i :: 0 <= i < |ts| ==> !ts[i].status.Running?
    ensures IsStuckSet(ts, stuck)
  {
    forall i | i in stuck ensures 0 <= i < |ts| && ts[i].status.IsStartable() && IsHeldUp(ts, stuck, i) {
      assert IsHeldUp(us, stuck, i);
      if d :| 0 <= d < |us[i].dependsOn| && NeverDone(us, stuck, us[i].dependsOn[d]) {
        assert NeverDone(ts, stuck, ts[i].dependsOn[d]);
      } else {
        var j :| 0 <= j < |us| && j in stuck && MustWaitFor(us[i], us[j]);
        assert MustWaitFor(ts[i], ts[j]);
      }
    }
  }

  lemma StuckAfter(ts: seq<Task>, us: seq<Task>, stuck: set<int>)
    requires HasMovedOn(ts, us) && IsStuckSet(ts, stuck)
    requires forall i :: i in stuck ==> us[i].status.IsStartable()
    ensures IsStuckSet(us, stuck)
  {
    forall i | i in stuck ensures IsHeldUp(us, stuck, i) {
      assert IsHeldUp(ts, stuck, i);
      if d :| 0 <= d < |ts[i].dependsOn| && NeverDone(ts, stuck, ts[i].dependsOn[d]) {
        assert NeverDone(us, stuck, us[i].dependsOn[d]);
      } else {
        var j :| 0 <= j < |ts| && j in stuck && MustWaitFor(ts[i], ts[j]);
        assert MustWaitFor(us[i], us[j]);
      }
    }
  }

  lemma StuckIsNotEligible(ts: seq<Task>, outputs: Outputs, stuck: set<int>, i: int)
    requires DistinctIds(ts) && IsStuckSet(ts, stuck) && i in stuck
    ensures !Eligible(ts[i], ts, outputs)
  {
    MetMeansDone(ts[i], ts);
    assert IsHeldUp(ts, stuck, i);
    if d :| 0 <= d < |ts[i].dependsOn| && NeverDone(ts, stuck, ts[i].dependsOn[d]) {
      assert !HasDone(ts, ts[i].dependsOn[d]);
    }
  }

  // When nothing is eligible, everything that could be started is stuck.
  lemma NothingEligibleIsStuck(ts: seq<Task>, outputs: Outputs)
    requires DistinctIds(ts) && IsUnconditional(ts) && forall i :: 0 <= i < |ts| ==> !ts[i].status.Running?
    requires forall i :: 0 <= i < |ts| ==> !Eligible(ts[i], ts, outputs)
    ensures IsStuckSet(ts, Startables(ts))
  {
    var stuck := Startables(ts);
    forall i | i in stuck ensures IsHeldUp(ts, stuck, i) {
      MetMeansDone(ts[i], ts);
      if d :| 0 <= d < |ts[i].dependsOn| && !HasDone(ts, ts[i].dependsOn[d]) {
        assert NeverDone(ts, stuck, ts[i].dependsOn[d]);
      } else {
        assert !RoundOpen(ts[i], ts);
      }
    }
  }

  lemma ExpiryMovesOn(c: Chain, millis: int)
    requires IsQuiet(c)
    ensures HasMovedOn(c.tasks, ExpireAll(c.tasks, millis)) && IsQuiet(c.(tasks := ExpireAll(c.tasks, millis)))
  {
  }

  // A tick that starts nothing leaves everything startable stuck.
  lemma IdleTickIsStuck(pre: Chain, outputs: Outputs, clock: Clock, post: Chain, ready: seq<string>)
    requires IsQuiet(pre) && IsTick(pre, outputs, clock, post, ready) && ready == []
    ensures IsStuckSet(pre.tasks, Startables(pre.tasks))
  {
    hide IsTick, RunningTotal, RunningIn, FullQueue, Eligible, HasMovedOn, IsStuckSet;
    var ts := ExpireAll(pre.tasks, clock.millis);
    ExpiryMovesOn(pre, clock.millis);
    IdleExactlyWhen(pre, outputs, clock, post, ready);
    forall i | 0 <= i < |ts| ensures !Eligible(ts[i], ts, outputs) {
      NoneRunning(ts, ts[i].group);
      if Eligible(ts[i], ts, outputs) {
        QueueNotEmpty(ts, outputs, i);
      }
    }
    NothingEligibleIsStuck(ts, outputs);
    StuckBefore(pre.tasks, ts, Startables(ts));
    assert Startables(ts) == Startables(pre.tasks);
  }

  // One task across a round trip: it was picked and is complete, or nothing but its backoff has changed.
  ghost predicate IsTripOf(t: Task, waiting: Task, all: seq<Task>, outputs: Outputs, ready: seq<string>, u: Task) {
    if waiting.id in ready then t.status.IsStartable() && Eligible(waiting, all, outputs) && SameSpec(t, u) && u.status.Completed?
    else u == waiting
  }

  lemma TripAt(pre: Chain, outputs: Outputs, clock: Clock, mid: Chain, ready: seq<string>, at: string, i: nat)
    requires IsQuiet(pre) && IsTick(pre, outputs, clock, mid, ready) && i < |pre.tasks| == |mid.tasks|
    ensures var waiting := ExpireAll(pre.tasks, clock.millis);
            IsTripOf(pre.tasks[i], waiting[i], waiting, outputs, ready, CompleteRunning(mid.tasks, at)[i])
  {
    hide IsTick, Eligible, DistinctIds, IsUnconditional;
    TickAt(pre, outputs, clock, mid, ready, i);
  }

  lemma TripMovesOn(pre: Chain, post: Chain)
    requires IsQuiet(pre) && IsRoundTrip(pre, post)
    ensures IsQuiet(post) && HasMovedOn(pre.tasks, post.tasks)
    ensures Unfinished(post.tasks) < Unfinished(pre.tasks) || IsStuckSet(pre.tasks, Startables(pre.tasks))
    ensures forall stuck, i :: IsStuckSet(pre.tasks, stuck) && i in stuck ==> 0 <= i < |post.tasks| && post.tasks[i].status.IsStartable()
  {
    hide IsTick, Eligible, IsStuckSet, DistinctIds, Unfinished, IsTripOf;
    var outputs, clock, mid, ready, at :|
      IsTick(pre, outputs, clock, mid, ready) && post == mid.(tasks := CompleteRunning(mid.tasks, at));
    var waiting := ExpireAll(pre.tasks, clock.millis);
    TickFrame(pre, outputs, clock, mid, ready);
    forall i | 0 <= i < |pre.tasks| ensures IsTripOf(pre.tasks[i], waiting[i], waiting, outputs, ready, post.tasks[i]) {
      TripAt(pre, outputs, clock, mid, ready, at, i);
    }
    ExpiryMovesOn(pre, clock.millis);
    TripShape(pre, clock.millis, outputs, ready, post);
    if ready == [] {
      IdleTickIsStuck(pre, outputs, clock, mid, ready);
    } else {
      var i := ReadyTask(pre, outputs, clock, mid, ready);
      SomeFinish(pre.tasks, waiting, outputs, ready, post.tasks, i);
    }
    forall stuck, i | IsStuckSet(pre.tasks, stuck) && i in stuck ensures 0 <= i < |post.tasks| && post.tasks[i].status.IsStartable() {
      StuckIsLeftOut(pre.tasks, waiting, outputs, ready, post.tasks, stuck, i);
    }
  }

  ghost predicate AreTrips(ts: seq<Task>, waiting: seq<Task>, outputs: Outputs, ready: seq<string>, us: seq<Task>) {
    |waiting| == |us| == |ts| && forall i :: 0 <= i < |ts| ==> IsTripOf(ts[i], waiting[i], waiting, outputs, ready, us[i])
  }

  lemma TripShape(pre: Chain, millis: int, outputs: Outputs, ready: seq<string>, post: Chain)
    requires IsQuiet(pre) && AreTrips(pre.tasks, ExpireAll(pre.tasks, millis), outputs, ready, post.tasks)
    requires post == pre.(tasks := post.tasks)
    ensures IsQuiet(post) && HasMovedOn(pre.tasks, post.tasks)
  {
    hide Eligible, DistinctIds;
    forall i | 0 <= i < |pre.tasks|
      ensures SameSpec(pre.tasks[i], post.tasks[i]) && !post.tasks[i].status.Running?
      ensures if pre.tasks[i].status.IsStartable() then post.tasks[i].status.IsStartable() || post.tasks[i].status.Completed?
              else post.tasks[i].status == pre.tasks[i].status
    {
      assert IsTripOf(pre.tasks[i], ExpireAll(pre.tasks, millis)[i], ExpireAll(pre.tasks, millis), outputs, ready, post.tasks[i]);
    }
    SameIds(pre.tasks, post.tasks);
  }

  lemma SomeFinish(ts: seq<Task>, waiting: seq<Task>, outputs: Outputs, ready: seq<string>, us: seq<Task>, i: nat)
    requires AreTrips(ts, waiting, outputs, ready, us) && HasMovedOn(ts, us) && i < |ts| && waiting[i].id in ready
    ensures Unfinished(us) < Unfinished(ts)
  {
    hide Eligible;
    assert IsTripOf(ts[i], waiting[i], waiting, outputs, ready, us[i]);
    assert !ts[i].status.IsTerminal() && us[i].status.IsTerminal();
    UnfinishedShrinks(ts, us);
  }

  lemma SameIds(ts: seq<Task>, us: seq<Task>)
    requires DistinctIds(ts) && |us| == |ts| && forall i :: 0 <= i < |ts| ==> us[i].id == ts[i].id
    ensures DistinctIds(us)
  {
  }

  lemma StuckIsLeftOut(ts: seq<Task>, waiting: seq<Task>, outputs: Outputs, ready: seq<string>, us: seq<Task>, stuck: set<int>, i: int)
    requires AreTrips(ts, waiting, outputs, ready, us) && DistinctIds(waiting) && HasMovedOn(ts, waiting)
    requires forall k :: 0 <= k < |ts| ==> (ts[k].status.IsStartable() <==> waiting[k].status.IsStartable())
    requires IsStuckSet(ts, stuck) && i in stuck
    ensures 0 <= i < |us| && us[i].status.IsStartable()
  {
    hide Eligible, DistinctIds, IsHeldUp;
    StuckAfter(ts, waiting, stuck);
    StuckIsNotEligible(waiting, outputs, stuck, i);
    assert IsTripOf(ts[i], waiting[i], waiting, outputs, ready, us[i]);
  }

  // --- all round trips ----------------------------------------------------------------------

  ghost predicate AreRoundTrips(trace: seq<Chain>) {
    trace != [] && forall k :: 0 <= k < |trace| - 1 ==> IsRoundTrip(trace[k], trace[k + 1])
  }

  lemma {:induction false} StuckThroughout(trace: seq<Chain>, n: nat, stuck: set<int>)
    requires AreRoundTrips(trace) && n < |trace| && IsQuiet(trace[0])
    ensures IsQuiet(trace[n]) && |trace[n].tasks| == |trace[0].tasks|
    ensures IsStuckSet(trace[n].tasks, stuck) <==> IsStuckSet(trace[0].tasks, stuck)
  {
    hide IsRoundTrip, IsStuckSet, Schedules, DistinctIds, IsUnconditional;
    if n > 0 {
      StuckThroughout(trace, n - 1, stuck);
      assert IsRoundTrip(trace[n - 1], trace[n - 1 + 1]);
      TripKeepsStuck(trace[n - 1], trace[n], stuck);
    }
  }

  lemma TripKeepsStuck(pre: Chain, post: Chain, stuck: set<int>)
    requires IsQuiet(pre) && IsRoundTrip(pre, post)
    ensures IsQuiet(post) && |post.tasks| == |pre.tasks|
    ensures IsStuckSet(post.tasks, stuck) <==> IsStuckSet(pre.tasks, stuck)
  {
    hide IsRoundTrip, IsStuckSet, Schedules, DistinctIds, IsUnconditional;
    TripMovesOn(pre, post);
    if IsStuckSet(pre.tasks, stuck) {
      StuckAfter(pre.tasks, post.tasks, stuck);
    }
    if IsStuckSet(post.tasks, stuck) {
      StuckBefore(pre.tasks, post.tasks, stuck);
    }
  }

  lemma StuckStaysAll(pre: Chain, post: Chain)
    requires IsQuiet(pre) && IsRoundTrip(pre, post) && IsStuckSet(pre.tasks, Startables(pre.tasks))
    ensures IsStuckSet(post.tasks, Startables(post.tasks))
  {
    hide IsRoundTrip, IsStuckSet, Schedules, DistinctIds, IsUnconditional;
    TripMovesOn(pre, post);
    TripKeepsStuck(pre, post, Startables(pre.tasks));
    assert Startables(post.tasks) == Startables(pre.tasks);
  }

  // Every trip finishes something, until everything startable is stuck.
  lemma {:induction false} TripsFinishOrStick(trace: seq<Chain>, n: nat)
    requires AreRoundTrips(trace) && n < |trace| && IsQuiet(trace[0])
    ensures Unfinished(trace[n].tasks) + n <= |trace[0].tasks| || IsStuckSet(trace[n].tasks, Startables(trace[n].tasks))
  {
    hide IsRoundTrip, IsStuckSet, IsQuiet, HasMovedOn, Unfinished;
    if n == 0 {
      assert Unfinished(trace[0].tasks) <= |trace[0].tasks|;
    } else {
      TripsFinishOrStick(trace, n - 1);
      StuckThroughout(trace, n - 1, {});
      assert IsRoundTrip(trace[n - 1], trace[n - 1 + 1]);
      TripMovesOn(trace[n - 1], trace[n]);
      if IsStuckSet(trace[n - 1].tasks, Startables(trace[n - 1].tasks)) {
        StuckStaysAll(trace[n - 1], trace[n]);
      }
    }
  }

  /** Alternating ticks with completions, from the first as many round trips as there are tasks on, a task is unfinished
      if and only if it was in a stuck set at the start: what a failed or blocked task or a missing one holds up, directly
      or not, and what waits in a circle of dependencies and rounds. Everything else is finished. */
  lemma StaysUnfinishedWhen(trace: seq<Chain>, n: nat, i: nat)
    requires AreRoundTrips(trace) && IsQuiet(trace[0])
    requires |trace[0].tasks| <= n < |trace| && i < |trace[n].tasks|
    ensures !trace[n].tasks[i].status.IsTerminal() <==> exists stuck :: i in stuck && IsStuckSet(trace[0].tasks, stuck)
  {
    hide IsRoundTrip, Schedules, DistinctIds, IsUnconditional, IsHeldUp;
    var ts := trace[n].tasks;
    StuckThroughout(trace, n, Startables(ts));
    if !ts[i].status.IsTerminal() {
      TripsFinishOrStick(trace, n);
      NoneUnfinished(ts);
      assert i in Startables(ts) && IsStuckSet(trace[0].tasks, Startables(ts));
    }
    if stuck :| i in stuck && IsStuckSet(trace[0].tasks, stuck) {
      StuckThroughout(trace, n, stuck);
    }
  }
}
