/** Validation of a chain: distinct ids, resolving references, and no dependency cycle,
    the last by a depth-first search with an explicit stack. */
module CycleDetection {
  import opened Wrappers
  import opened ChainTypes

  type Graph = map<string, seq<string>>

  predicate Edge(g: Graph, u: string, v: string) {
    u in g && v in g[u]
  }

  ghost predicate Closed(g: Graph) {
    forall u, v :: Edge(g, u, v) ==> v in g
  }

  ghost predicate IsPath(g: Graph, p: seq<string>) {
    |p| > 0 && forall i :: 0 <= i < |p| - 1 ==> Edge(g, p[i], p[i + 1])
  }

  /** A path that comes back to a node it has already visited. */
  ghost predicate IsLasso(g: Graph, p: seq<string>) {
    IsPath(g, p) && exists i :: 0 <= i < |p| - 1 && p[i] == p[|p| - 1]
  }

  /** A dependency cycle can be reached from `start`. */
  ghost predicate CycleReachable(g: Graph, start: string) {
    exists p :: IsLasso(g, p) && p[0] == start
  }

  /** A ranking that strictly decreases along every dependency. */
  ghost predicate IsRank(g: Graph, rank: map<string, nat>) {
    forall u, v :: Edge(g, u, v) ==> u in rank && v in rank && rank[v] < rank[u]
  }

  ghost predicate Ranked(g: Graph) {
    exists rank :: IsRank(g, rank)
  }

  // Every node of `o` is preceded in `o` by everything it depends on.
  ghost predicate IsTopological(g: Graph, o: seq<string>) {
    forall i, v :: 0 <= i < |o| && Edge(g, o[i], v) ==> v in o[..i]
  }

  lemma NoEdgeNoCycle(g: Graph, start: string)
    requires start !in g
    ensures !CycleReachable(g, start)
  {
    forall p | IsPath(g, p) && |p| > 1 ensures p[0] in g {
      assert Edge(g, p[0], p[1]);
    }
  }

  lemma {:induction false} RankDropsAlongPath(g: Graph, rank: map<string, nat>, p: seq<string>, i: nat, j: nat)
    requires IsRank(g, rank) && IsPath(g, p) && i < j < |p|
    ensures p[i] in rank && p[j] in rank && rank[p[j]] < rank[p[i]]
    decreases j
  {
    assert Edge(g, p[j - 1], p[j]);
    if i < j - 1 {
      RankDropsAlongPath(g, rank, p, i, j - 1);
    }
  }

  lemma RankedHasNoLasso(g: Graph, p: seq<string>)
    requires Ranked(g)
    ensures !IsLasso(g, p)
  {
    var rank :| IsRank(g, rank);
    if IsLasso(g, p) {
      var i :| 0 <= i < |p| - 1 && p[i] == p[|p| - 1];
      RankDropsAlongPath(g, rank, p, i, |p| - 1);
    }
  }

  // A path that starts in a topological order stays in it and moves strictly towards its front.
  lemma {:induction false} PathStaysInOrder(g: Graph, o: seq<string>, p: seq<string>, k: nat, at: nat)
    requires IsTopological(g, o) && IsPath(g, p) && k < |p| && at < |o| && p[0] == o[at]
    ensures exists j :: 0 <= j <= at && o[j] == p[k] && (k > 0 ==> j < at)
    decreases k
  {
    if k > 0 {
      PathStaysInOrder(g, o, p, k - 1, at);
      var j :| 0 <= j <= at && o[j] == p[k - 1];
      assert Edge(g, p[k - 1], p[k]);
      assert p[k] in o[..j];
    }
  }

  // The first place of a node in an order that holds it.
  function FirstAt(o: seq<string>, u: string): (k: nat)
    requires u in o
    ensures k < |o| && o[k] == u
    ensures forall j :: 0 <= j < k ==> o[j] != u
  {
    if o[0] == u then 0 else
      assert o == [o[0]] + o[1..];
      1 + FirstAt(o[1..], u)
  }

  lemma TopologicalHasNoLasso(g: Graph, o: seq<string>, start: string)
    requires IsTopological(g, o) && start in o
    ensures !CycleReachable(g, start)
  {
    if CycleReachable(g, start) {
      var p :| IsLasso(g, p) && p[0] == start;
      var i :| 0 <= i < |p| - 1 && p[i] == p[|p| - 1];
      PathStaysInOrder(g, o, p, i, FirstAt(o, start));
      var a := FirstAt(o, p[i]);
      var q := p[i..];
      forall k | 0 <= k < |q| - 1 ensures Edge(g, q[k], q[k + 1]) {
        assert Edge(g, p[i + k], p[i + k + 1]);
      }
      PathStaysInOrder(g, o, q, |q| - 1, a);
    }
  }

  lemma TopologicalConcat(g: Graph, o1: seq<string>, o2: seq<string>)
    requires IsTopological(g, o1) && IsTopological(g, o2)
    ensures IsTopological(g, o1 + o2)
  {
    var o := o1 + o2;
    forall i, v | 0 <= i < |o| && Edge(g, o[i], v) ensures v in o[..i] {
      if i < |o1| {
        assert v in o1[..i] && o[..i] == o1[..i];
      } else {
        assert v in o2[..i - |o1|] && o[..i] == o1 + o2[..i - |o1|];
      }
    }
  }

  lemma TopologicalGivesRank(g: Graph, o: seq<string>)
    requires IsTopological(g, o) && (forall u :: u in g ==> u in o)
    ensures Ranked(g)
  {
    var rank := map u | u in o :: FirstAt(o, u);
    forall u, v | Edge(g, u, v) ensures u in rank && v in rank && rank[v] < rank[u] {
      var k := FirstAt(o, u);
      assert v in o[..k];
      var j :| 0 <= j < k && o[j] == v;
    }
    assert IsRank(g, rank);
  }

  // --- the search ----------------------------------------------------------

  datatype Frame = Frame(node: string, deps: seq<string>, index: nat)

  // What is known of one frame: its dependencies before `index` are finished, except that the
  // last of them may be the node of the next frame up.
  ghost predicate FrameInv(g: Graph, stack: seq<Frame>, i: nat, finished: seq<string>)
    requires i < |stack|
  {
    var f := stack[i];
    && f.node in g && f.deps == g[f.node] && f.index <= |f.deps| && f.node !in finished
    && (i + 1 < |stack| ==> f.index > 0 && f.deps[f.index - 1] == stack[i + 1].node)
    && (forall k :: 0 <= k < f.index ==>
          f.deps[k] in finished || (i + 1 < |stack| && f.deps[k] == stack[i + 1].node))
  }

  ghost predicate SearchInv(g: Graph, start: string, stack: seq<Frame>, finished: seq<string>,
                            visited: set<string>, inStack: set<string>) {
    && (forall i :: 0 <= i < |stack| ==> FrameInv(g, stack, i, finished))
    && (|stack| > 0 ==> stack[0].node == start)
    && (forall i, j :: 0 <= i < j < |stack| ==> stack[i].node != stack[j].node)
    && IsTopological(g, finished)
    && (forall u :: u in inStack <==> exists i :: 0 <= i < |stack| && stack[i].node == u)
    && (forall u :: u in visited <==> u in inStack || u in finished)
    && start in visited
  }

  lemma FoundOnStack(g: Graph, start: string, stack: seq<Frame>, finished: seq<string>,
                     visited: set<string>, inStack: set<string>, dep: string)
    requires SearchInv(g, start, stack, finished, visited, inStack) && |stack| > 0
    requires Edge(g, stack[|stack| - 1].node, dep) && dep in inStack
    ensures CycleReachable(g, start)
  {
    var p := seq(|stack| + 1, i requires 0 <= i <= |stack| => if i < |stack| then stack[i].node else dep);
    forall k | 0 <= k < |p| - 1 ensures Edge(g, p[k], p[k + 1]) {
      assert FrameInv(g, stack, k, finished);
    }
    var i :| 0 <= i < |stack| && stack[i].node == dep;
    assert p[i] == p[|p| - 1];
    assert IsLasso(g, p) && p[0] == start;
  }

  lemma PopKeepsInv(g: Graph, start: string, stack: seq<Frame>, finished: seq<string>,
                    visited: set<string>, inStack: set<string>)
    requires SearchInv(g, start, stack, finished, visited, inStack) && |stack| > 0
    requires stack[|stack| - 1].index == |stack[|stack| - 1].deps|
    ensures var top := stack[|stack| - 1].node;
            SearchInv(g, start, stack[..|stack| - 1], finished + [top], visited, inStack - {top})
  {
    var n := |stack| - 1;
    var top := stack[n];
    var rest, f' := stack[..n], finished + [top.node];
    assert FrameInv(g, stack, n, finished);
    forall i, v | 0 <= i < |f'| && Edge(g, f'[i], v) ensures v in f'[..i] {
      assert f'[..i] == finished[..i];
      if i == |finished| {
        var k :| 0 <= k < |top.deps| && top.deps[k] == v;
        assert finished[..i] == finished;
      }
    }
    forall i | 0 <= i < n ensures FrameInv(g, rest, i, f') {
      assert FrameInv(g, stack, i, finished);
    }
    forall u ensures u in inStack - {top.node} <==> exists i :: 0 <= i < n && rest[i].node == u {
      if u in inStack - {top.node} {
        var i :| 0 <= i <= n && stack[i].node == u;
        assert rest[i].node == u;
      }
      if i :| 0 <= i < n && rest[i].node == u {
        assert stack[i].node == u;
      }
    }
  }

  // Reading one dependency that has been visited but is not on the stack.
  lemma AdvanceKeepsInv(g: Graph, start: string, stack: seq<Frame>, finished: seq<string>,
                        visited: set<string>, inStack: set<string>)
    requires SearchInv(g, start, stack, finished, visited, inStack) && |stack| > 0
    requires var top := stack[|stack| - 1];
             top.index < |top.deps| && top.deps[top.index] in visited && top.deps[top.index] !in inStack
    ensures var top := stack[|stack| - 1];
            SearchInv(g, start, stack[..|stack| - 1] + [top.(index := top.index + 1)], finished, visited, inStack)
  {
    var n := |stack| - 1;
    var stack' := stack[..n] + [stack[n].(index := stack[n].index + 1)];
    forall i | 0 <= i <= n ensures FrameInv(g, stack', i, finished) {
      assert FrameInv(g, stack, i, finished);
    }
    forall u ensures u in inStack <==> exists i :: 0 <= i <= n && stack'[i].node == u {
      if u in inStack {
        var i :| 0 <= i <= n && stack[i].node == u;
        assert stack'[i].node == u;
      }
      if i :| 0 <= i <= n && stack'[i].node == u {
        assert stack[i].node == u;
      }
    }
  }

  // Reading one dependency that has not been visited yet.
  lemma PushKeepsInv(g: Graph, start: string, stack: seq<Frame>, finished: seq<string>,
                     visited: set<string>, inStack: set<string>)
    requires SearchInv(g, start, stack, finished, visited, inStack) && |stack| > 0
    requires var top := stack[|stack| - 1];
             top.index < |top.deps| && top.deps[top.index] !in visited && top.deps[top.index] in g
    ensures var top := stack[|stack| - 1];
            var dep := top.deps[top.index];
            SearchInv(g, start, stack[..|stack| - 1] + [top.(index := top.index + 1)] + [Frame(dep, g[dep], 0)],
                      finished, visited + {dep}, inStack + {dep})
  {
    var n := |stack| - 1;
    var dep := stack[n].deps[stack[n].index];
    var stack' := stack[..n] + [stack[n].(index := stack[n].index + 1)] + [Frame(dep, g[dep], 0)];
    forall i | 0 <= i <= n + 1 ensures FrameInv(g, stack', i, finished) {
      if i <= n {
        assert FrameInv(g, stack, i, finished);
      }
    }
    forall i | 0 <= i <= n ensures stack'[i].node == stack[i].node && stack[i].node != dep {
      assert stack[i].node in inStack;
    }
    forall u ensures u in inStack + {dep} <==> exists i :: 0 <= i <= n + 1 && stack'[i].node == u {
      if u in inStack {
        var i :| 0 <= i <= n && stack[i].node == u;
        assert stack'[i].node == u;
      } else if u == dep {
        assert stack'[n + 1].node == u;
      }
    }
  }

  lemma StartsWithInv(g: Graph, start: string)
    requires start in g
    ensures SearchInv(g, start, [Frame(start, g[start], 0)], [], {start}, {start})
  {
    var stack := [Frame(start, g[start], 0)];
    assert stack[0].node == start && FrameInv(g, stack, 0, []);
  }

  lemma EndsAcyclic(g: Graph, start: string, finished: seq<string>, visited: set<string>, inStack: set<string>)
    requires SearchInv(g, start, [], finished, visited, inStack)
    ensures start in finished && IsTopological(g, finished) && !CycleReachable(g, start)
  {
    TopologicalHasNoLasso(g, finished, start);
  }

  // The adjacency lists; when an id occurs twice the later entry wins.
  function TaskGraph(ts: seq<Task>): Graph {
    if ts == [] then map[] else TaskGraph(ts[..|ts| - 1])[ts[|ts| - 1].id := ts[|ts| - 1].dependsOn]
  }

  method BuildTaskMap(ts: seq<Task>) returns (g: Graph)
    ensures g == TaskGraph(ts)
  {
    g := map[];
    for i := 0 to |ts|
      invariant g == TaskGraph(ts[..i])
    {
      assert ts[..i + 1][..i] == ts[..i];
      g := g[ts[i].id := ts[i].dependsOn];
    }
    assert ts[..|ts|] == ts;
  }

  ghost function Universe(g: Graph, start: string): set<string> {
    {start} + g.Keys + (set u, v | u in g && v in g[u] :: v)
  }

  /** The depth-first search. It always ends; on a graph without dangling dependencies it reports
      a cycle exactly when one can be reached, and otherwise `order` is a topological order of
      everything reachable. */
  method HasCycleIterative(start: string, ts: seq<Task>) returns (cyclic: bool, ghost order: seq<string>)
    ensures Closed(TaskGraph(ts)) ==> (cyclic <==> CycleReachable(TaskGraph(ts), start))
    ensures Closed(TaskGraph(ts)) && !cyclic && start in TaskGraph(ts) ==>
              start in order && IsTopological(TaskGraph(ts), order)
  {
    hide SearchInv;
    var g := BuildTaskMap(ts);
    ghost var universe := Universe(g, start);
    var visited, inStack := {start}, {start};
    var stack: seq<Frame> := [];
    order := [];
    if start in g {
      stack := [Frame(start, g[start], 0)];
      StartsWithInv(g, start);
    } else {
      NoEdgeNoCycle(g, start);
    }
    while stack != []
      invariant visited <= universe
      invariant start !in g ==> stack == []
      invariant forall i :: 0 <= i < |stack| ==> stack[i].node in g && stack[i].deps == g[stack[i].node]
      invariant forall i :: 0 <= i < |stack| ==> stack[i].index <= |stack[i].deps|
      invariant Closed(g) && start in g ==> SearchInv(g, start, stack, order, visited, inStack)
      decreases universe - visited, |stack|, if stack == [] then 0 else |stack[|stack| - 1].deps| - stack[|stack| - 1].index
    {
      var n := |stack|;
      var frame := stack[n - 1];
      if frame.index >= |frame.deps| {
        if Closed(g) {
          PopKeepsInv(g, start, stack, order, visited, inStack);
        }
        inStack := inStack - {frame.node};
        order := order + [frame.node];
        stack := stack[..n - 1];
        continue;
      }
      var dep := frame.deps[frame.index];
      assert Edge(g, frame.node, dep);
      if dep in inStack {
        if Closed(g) {
          FoundOnStack(g, start, stack, order, visited, inStack, dep);
        }
        return true, order;
      }
      if Closed(g) {
        if dep in visited {
          AdvanceKeepsInv(g, start, stack, order, visited, inStack);
        } else {
          PushKeepsInv(g, start, stack, order, visited, inStack);
        }
      }
      stack := stack[..n - 1] + [frame.(index := frame.index + 1)];
      if dep !in visited {
        visited, inStack := visited + {dep}, inStack + {dep};
        if dep in g {
          stack := stack + [Frame(dep, g[dep], 0)];
        }
      }
    }
    cyclic := false;
    if Closed(g) && start in g {
      EndsAcyclic(g, start, order, visited, inStack);
    }
  }

  // --- validation ----------------------------------------------------------

  datatype ValidationError =
    | DuplicateId(id: string)
    | UnknownDependency(task: string, dependency: string)
    | UnknownSource(task: string, source: string)
    | Cycle(start: string)

  ghost predicate HasId(ts: seq<Task>, id: string) {
    exists i :: 0 <= i < |ts| && ts[i].id == id
  }

  ghost predicate DependenciesResolve(t: Task, ts: seq<Task>) {
    forall k :: 0 <= k < |t.dependsOn| ==> HasId(ts, t.dependsOn[k])
  }

  ghost predicate SourceResolves(t: Task, ts: seq<Task>) {
    t.condition.Some? ==> HasId(ts, t.condition.value.source)
  }

  ghost predicate ReferencesResolve(ts: seq<Task>) {
    forall i :: 0 <= i < |ts| ==> DependenciesResolve(ts[i], ts) && SourceResolves(ts[i], ts)
  }

  /** What a valid chain is, independently of how it is checked. */
  ghost predicate IsValidChain(ts: seq<Task>) {
    DistinctIds(ts) && ReferencesResolve(ts) && Ranked(TaskGraph(ts))
  }

  predicate IsBelow(rank: map<string, nat>, v: string, u: string) {
    u in rank && v in rank && rank[v] < rank[u]
  }

  // A rank that falls from every task to what it depends on.
  ghost predicate FallsAlongDependencies(ts: seq<Task>, rank: map<string, nat>) {
    forall i, d :: 0 <= i < |ts| && 0 <= d < |ts[i].dependsOn| ==> IsBelow(rank, ts[i].dependsOn[d], ts[i].id)
  }

  /** In terms of the entries alone: distinct ids, every dependency and every condition names a task, and no dependency
      leads back. */
  lemma ValidWhen(ts: seq<Task>)
    ensures IsValidChain(ts) <==>
              && (forall i, j :: 0 <= i < j < |ts| ==> ts[i].id != ts[j].id)
              && (forall i, d :: 0 <= i < |ts| && 0 <= d < |ts[i].dependsOn| ==> exists j :: 0 <= j < |ts| && ts[j].id == ts[i].dependsOn[d])
              && (forall i :: 0 <= i < |ts| && ts[i].condition.Some? ==> exists j :: 0 <= j < |ts| && ts[j].id == ts[i].condition.value.source)
              && (exists rank :: FallsAlongDependencies(ts, rank))
  {
    hide TaskGraph;
    if DistinctIds(ts) {
      forall rank ensures IsRank(TaskGraph(ts), rank) <==> FallsAlongDependencies(ts, rank) {
        RanksAgree(ts, rank);
      }
    }
    assert ReferencesResolve(ts) <==>
             && (forall i, d :: 0 <= i < |ts| && 0 <= d < |ts[i].dependsOn| ==> HasId(ts, ts[i].dependsOn[d]))
             && (forall i :: 0 <= i < |ts| && ts[i].condition.Some? ==> HasId(ts, ts[i].condition.value.source));
  }

  lemma RanksAgree(ts: seq<Task>, rank: map<string, nat>)
    requires DistinctIds(ts)
    ensures IsRank(TaskGraph(ts), rank) <==> FallsAlongDependencies(ts, rank)
  {
    hide TaskGraph;
    var g := TaskGraph(ts);
    if IsRank(g, rank) {
      forall i, d | 0 <= i < |ts| && 0 <= d < |ts[i].dependsOn|
        ensures IsBelow(rank, ts[i].dependsOn[d], ts[i].id)
      {
        TaskGraphAt(ts, i);
        assert Edge(g, ts[i].id, ts[i].dependsOn[d]);
      }
    }
    if FallsAlongDependencies(ts, rank) {
      forall u, v | Edge(g, u, v) ensures u in rank && v in rank && rank[v] < rank[u] {
        EdgeIsDependency(ts, rank, u, v);
      }
    }
  }

  lemma EdgeIsDependency(ts: seq<Task>, rank: map<string, nat>, u: string, v: string)
    requires DistinctIds(ts) && Edge(TaskGraph(ts), u, v) && FallsAlongDependencies(ts, rank)
    ensures u in rank && v in rank && rank[v] < rank[u]
  {
    hide TaskGraph;
    TaskGraphKeys(ts, u);
    var i :| 0 <= i < |ts| && ts[i].id == u;
    TaskGraphAt(ts, i);
    var d :| 0 <= d < |ts[i].dependsOn| && ts[i].dependsOn[d] == v;
  }

  lemma {:induction false} TaskGraphKeys(ts: seq<Task>, id: string)
    ensures id in TaskGraph(ts) <==> HasId(ts, id)
  {
    if ts != [] {
      var front := ts[..|ts| - 1];
      TaskGraphKeys(front, id);
      if HasId(ts, id) && ts[|ts| - 1].id != id {
        var i :| 0 <= i < |ts| && ts[i].id == id;
        assert front[i].id == id;
      }
    }
  }

  lemma {:induction false} TaskGraphAt(ts: seq<Task>, i: nat)
    requires DistinctIds(ts) && i < |ts|
    ensures ts[i].id in TaskGraph(ts) && TaskGraph(ts)[ts[i].id] == ts[i].dependsOn
  {
    if i < |ts| - 1 {
      TaskGraphAt(ts[..|ts| - 1], i);
    }
  }

  lemma ResolvedIsClosed(ts: seq<Task>)
    requires DistinctIds(ts) && ReferencesResolve(ts)
    ensures Closed(TaskGraph(ts))
  {
    var g := TaskGraph(ts);
    forall u, v | Edge(g, u, v) ensures v in g {
      TaskGraphKeys(ts, u);
      var i :| 0 <= i < |ts| && ts[i].id == u;
      TaskGraphAt(ts, i);
      assert DependenciesResolve(ts[i], ts);
      TaskGraphKeys(ts, v);
    }
  }

  function IdSet(ts: seq<Task>): set<string> {
    set t | t in ts :: t.id
  }

  lemma {:induction false} IdSetSize(ts: seq<Task>)
    ensures |IdSet(ts)| <= |ts|
    ensures |IdSet(ts)| == |ts| ==> DistinctIds(ts)
  {
    if ts != [] {
      var front, last := ts[..|ts| - 1], ts[|ts| - 1];
      IdSetSize(front);
      assert ts == front + [last];
      assert IdSet(ts) == IdSet(front) + {last.id};
      if |IdSet(ts)| == |ts| {
        assert last.id !in IdSet(front);
        forall i, j | 0 <= i < j < |ts| ensures ts[i].id != ts[j].id {
          if j == |ts| - 1 {
            assert front[i] in front;
          } else {
            assert front[i].id != front[j].id;
          }
        }
      }
    }
  }

  method CheckDistinct(ts: seq<Task>) returns (duplicate: Option<string>)
    ensures duplicate.None? <==> DistinctIds(ts)
    ensures duplicate.Some? ==> exists i, j :: 0 <= i < j < |ts| && ts[i].id == ts[j].id == duplicate.value
  {
    var ids := IdSet(ts);
    IdSetSize(ts);
    if |ids| != |ts| {
      var seen: set<string> := {};
      for i := 0 to |ts|
        invariant seen == IdSet(ts[..i])
        invariant DistinctIds(ts[..i])
      {
        if ts[i].id in seen {
          var j :| 0 <= j < i && ts[..i][j].id == ts[i].id;
          return Some(ts[i].id);
        }
        assert ts[..i + 1] == ts[..i] + [ts[i]];
        forall a | 0 <= a < i ensures ts[a].id != ts[i].id {
          assert ts[..i][a] in ts[..i];
        }
        seen := seen + {ts[i].id};
      }
      assert ts[..|ts|] == ts;
    }
    return None;
  }

  ghost predicate IsReferenceDefect(ts: seq<Task>, e: ValidationError) {
    match e
    case UnknownDependency(t, d) =>
      !HasId(ts, d) && exists i :: 0 <= i < |ts| && ts[i].id == t && d in ts[i].dependsOn
    case UnknownSource(t, s) =>
      !HasId(ts, s) && exists i :: 0 <= i < |ts| && ts[i].id == t
                                   && ts[i].condition.Some? && ts[i].condition.value.source == s
    case _ => false
  }

  method CheckReferences(ts: seq<Task>) returns (defect: Option<ValidationError>)
    ensures defect.None? <==> ReferencesResolve(ts)
    ensures defect.Some? ==> IsReferenceDefect(ts, defect.value)
  {
    var ids := IdSet(ts);
    assert forall id :: id in ids <==> HasId(ts, id);
    for i := 0 to |ts|
      invariant forall k :: 0 <= k < i ==> DependenciesResolve(ts[k], ts) && SourceResolves(ts[k], ts)
    {
      for k := 0 to |ts[i].dependsOn|
        invariant forall d :: 0 <= d < k ==> HasId(ts, ts[i].dependsOn[d])
      {
        if ts[i].dependsOn[k] !in ids {
          return Some(UnknownDependency(ts[i].id, ts[i].dependsOn[k]));
        }
      }
      if ts[i].condition.Some? && ts[i].condition.value.source !in ids {
        assert !SourceResolves(ts[i], ts);
        return Some(UnknownSource(ts[i].id, ts[i].condition.value.source));
      }
    }
    return None;
  }

  method CheckAcyclic(ts: seq<Task>) returns (cycle: Option<string>)
    requires Closed(TaskGraph(ts))
    ensures cycle.None? <==> Ranked(TaskGraph(ts))
    ensures cycle.Some? ==> CycleReachable(TaskGraph(ts), cycle.value)
  {
    ghost var g := TaskGraph(ts);
    ghost var order: seq<string> := [];
    for i := 0 to |ts|
      invariant IsTopological(g, order)
      invariant forall k :: 0 <= k < i ==> ts[k].id in order
    {
      var cyclic, reached := HasCycleIterative(ts[i].id, ts);
      if cyclic {
        ghost var p :| IsLasso(g, p) && p[0] == ts[i].id;
        if Ranked(g) {
          RankedHasNoLasso(g, p);
        }
        return Some(ts[i].id);
      }
      TaskGraphKeys(ts, ts[i].id);
      TopologicalConcat(g, order, reached);
      order := order + reached;
    }
    forall u | u in g ensures u in order {
      TaskGraphKeys(ts, u);
    }
    TopologicalGivesRank(g, order);
    return None;
  }

  /** The whole validation. `Ok` means exactly `IsValidChain`; every refusal names a true defect,
      and a later kind of defect is reported only when there is none of an earlier kind. */
  method ValidateDag(root: ChainDagRoot) returns (r: Result<(), ValidationError>)
    ensures r.Ok? <==> IsValidChain(root.tasks[..])
    ensures r.Err? ==> match r.error {
              case DuplicateId(id) =>
                exists i, j :: 0 <= i < j < root.tasks.Length && root.tasks[i].id == root.tasks[j].id == id
              case Cycle(start) =>
                DistinctIds(root.tasks[..]) && ReferencesResolve(root.tasks[..])
                && CycleReachable(TaskGraph(root.tasks[..]), start)
              case _ => DistinctIds(root.tasks[..]) && IsReferenceDefect(root.tasks[..], r.error)
            }
  {
    var ts := root.tasks[..];
    var duplicate := CheckDistinct(ts);
    if duplicate.Some? {
      return Err(DuplicateId(duplicate.value));
    }
    var defect := CheckReferences(ts);
    if defect.Some? {
      return Err(defect.value);
    }
    ResolvedIsClosed(ts);
    var cycle := CheckAcyclic(ts);
    if cycle.Some? {
      return Err(Cycle(cycle.value));
    }
    return Ok(());
  }
}
