/** The data of a DAG task chain: the entries, the configuration, and the root object
    whose entries the scheduler and the tracker update in place. */
module ChainTypes {
  import opened Wrappers

  const U32_MAX := 0xFFFF_FFFF

  type u32 = x: int | 0 <= x <= U32_MAX

  datatype ChainMode = Linear | Dag

  datatype TaskStatus = Pending | Running | Completed | Failed | Blocked | Skipped | RetryScheduled {
    predicate IsTerminal() {
      Completed? || Failed? || Skipped? || Blocked?
    }

    // What the scheduler may move to Running.
    predicate IsStartable() {
      Pending? || RetryScheduled?
    }

    // What satisfies a dependency.
    predicate IsDone() {
      Completed? || Skipped?
    }
  }

  datatype FailureStrategy = PauseDag | AbortDag | Continue

  /** A condition gate. The comparison itself is abstract: a status gate is the set of statuses
      whose names it accepts, an output gate is the number of a test on its source's output. */
  datatype Condition =
    | StatusGate(source: string, accepts: set<TaskStatus>)
    | OutputGate(source: string, test: nat)
    | ExpressionGate(source: string)

  /** For each task with a loaded output, the output tests it passes. */
  type Outputs = map<string, set<nat>>

  datatype TimeoutGroup = TimeoutGroup(groupId: string, maxSeconds: nat)

  datatype RetryPolicy = RetryPolicy(maxAttempts: u32)

  /** A stored backoff expiry: an instant, or text that is not a timestamp. */
  datatype Deadline = At(millis: int) | Unreadable

  /** One reading of the clock, as an instant and as the timestamp text it is printed to. */
  datatype Clock = Clock(millis: int, iso: string)

  type GroupKey = Option<string>

  datatype Task = Task(
    id: string,
    dependsOn: seq<string>,
    round: Option<u32>,
    condition: Option<Condition>,
    group: GroupKey,
    timeout: Option<TimeoutGroup>,
    retry: Option<RetryPolicy>,
    status: TaskStatus,
    attempt: u32,
    startedAt: Option<string>,
    completedAt: Option<string>,
    error: Option<string>,
    backoffUntil: Option<Deadline>,
    causedSkips: seq<string>)

  datatype Config = Config(maxConcurrent: u32, defaultRetry: Option<RetryPolicy>, onAnyFailure: FailureStrategy)

  /** The value of a whole chain at one moment. */
  datatype Chain = Chain(mode: ChainMode, tasks: seq<Task>, config: Config, paused: bool)

  /** The chain object. The entries sit in an array and are changed in place. */
  class ChainDagRoot {
    var mode: ChainMode
    var tasks: array<Task>
    var config: Config
    var paused: bool

    constructor (entries: array<Task>)
      ensures View() == Chain(Dag, entries[..], Config(4, None, PauseDag), false)
      ensures tasks == entries
    {
      mode, tasks, config, paused := Dag, entries, Config(4, None, PauseDag), false;
    }

    ghost function View(): Chain
      reads this, tasks
    {
      Chain(mode, tasks[..], config, paused)
    }
  }

  predicate DistinctIds(ts: seq<Task>) {
    forall i, j :: 0 <= i < j < |ts| ==> ts[i].id != ts[j].id
  }

  // The index of the first entry with this id, or the length of the list.
  function FirstIndex(ts: seq<Task>, id: string): (k: nat)
    ensures k <= |ts|
    ensures k < |ts| ==> ts[k].id == id
    ensures forall j :: 0 <= j < k ==> ts[j].id != id
  {
    if ts == [] then 0 else if ts[0].id == id then 0 else 1 + FirstIndex(ts[1..], id)
  }

  lemma FirstIndexIs(ts: seq<Task>, i: nat)
    requires DistinctIds(ts) && i < |ts|
    ensures FirstIndex(ts, ts[i].id) == i
  {
  }

  /** Each id's status; when an id occurs twice the later entry wins. */
  function StatusMap(ts: seq<Task>): map<string, TaskStatus> {
    if ts == [] then map[] else StatusMap(ts[..|ts| - 1])[ts[|ts| - 1].id := ts[|ts| - 1].status]
  }

  lemma {:induction false} StatusMapKeys(ts: seq<Task>, id: string)
    ensures id in StatusMap(ts) ==> exists i :: 0 <= i < |ts| && ts[i].id == id && StatusMap(ts)[id] == ts[i].status
    ensures (exists i :: 0 <= i < |ts| && ts[i].id == id) ==> id in StatusMap(ts)
  {
    if ts != [] {
      var front := ts[..|ts| - 1];
      StatusMapKeys(front, id);
      if ts[|ts| - 1].id != id {
        if id in StatusMap(ts) {
          var i :| 0 <= i < |front| && front[i].id == id && StatusMap(front)[id] == front[i].status;
          assert ts[i].id == id;
        }
        if i :| 0 <= i < |ts| && ts[i].id == id {
          assert front[i].id == id;
        }
      }
    }
  }

  lemma StatusMapAt(ts: seq<Task>, i: nat)
    requires DistinctIds(ts) && i < |ts|
    ensures ts[i].id in StatusMap(ts) && StatusMap(ts)[ts[i].id] == ts[i].status
  {
    StatusMapKeys(ts, ts[i].id);
  }

  function RoundOf(t: Task): u32 {
    if t.round.Some? then t.round.value else 1
  }

  function Max(a: int, b: int): int {
    if a < b then b else a
  }
}
