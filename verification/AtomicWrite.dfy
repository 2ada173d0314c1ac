/** Replacing a file atomically: write a temporary file that did not exist, sync it, rename it over the target. */
module AtomicWrite {
  import opened Wrappers

  // A temporary file is named after the process that makes it; the rest of the name is just a number here.
  datatype Temp = Temp(pid: nat, stamp: nat)

  const MAX_TMP_RETRIES: nat := 16

  // --- one writer at a time -------------------------------------------------------------

  datatype WriteError = AlreadyExists | Failure

  // Which calls to the file system fail.
  datatype Faults = Faults(open: bool, write: bool, sync: bool, rename: bool, remove: bool)

  class Directory {
    var target: Option<string>
    var temps: map<Temp, string>

    constructor ()
      ensures target == None && temps == map[]
    {
      target, temps := None, map[];
    }
  }

  predicate Succeeds(temps: map<Temp, string>, tmp: Temp, f: Faults) {
    tmp !in temps && !f.open && !f.write && !f.sync && !f.rename
  }

  /** How a write ends: the target is replaced or untouched, and no temporary file is left unless it cannot even be
      removed. */
  ghost predicate IsWritten(target: Option<string>, temps: map<Temp, string>, content: string, tmp: Temp, f: Faults,
                            r: Result<(), WriteError>, target': Option<string>, temps': map<Temp, string>) {
    && (r.Ok? <==> Succeeds(temps, tmp, f))
    && (r == Err(AlreadyExists) <==> tmp in temps)
    && target' == (if r.Ok? then Some(content) else target)
    && (r.Ok? || r == Err(AlreadyExists) || f.open || !f.remove ==> temps' == temps)
    && temps' - {tmp} == temps - {tmp}
  }

  method WriteAtomicBytesToTemp(dir: Directory, content: string, tmp: Temp, f: Faults) returns (r: Result<(), WriteError>)
    modifies dir
    ensures IsWritten(old(dir.target), old(dir.temps), content, tmp, f, r, dir.target, dir.temps)
  {
    if tmp in dir.temps {
      return Err(AlreadyExists);
    }
    if f.open {
      return Err(Failure);
    }
    dir.temps := dir.temps[tmp := ""];
    if !f.write {
      dir.temps := dir.temps[tmp := content];
      if !f.sync && !f.rename {
        dir.target := Some(dir.temps[tmp]);
        dir.temps := dir.temps - {tmp};
        assert dir.temps == old(dir.temps);
        return Ok(());
      }
    }
    if !f.remove {
      dir.temps := dir.temps - {tmp};
      assert dir.temps == old(dir.temps);
    }
    return Err(Failure);
  }

  // Attempt k is the first whose name is free, or the last.
  ghost predicate IsDecisive(temps: map<Temp, string>, names: nat -> Temp, k: nat) {
    && k < 16
    && (forall j: nat :: j < k ==> names(j) in temps)
    && (names(k) in temps ==> k == 15)
  }

  /** At most sixteen names are tried; a write fails on collisions only when all sixteen exist. */
  method WriteWithRetry(dir: Directory, content: string, names: nat -> Temp, faults: nat -> Faults) returns (r: Result<(), WriteError>, ghost last: nat)
    modifies dir
    ensures IsDecisive(old(dir.temps), names, last)
    ensures r.Ok? <==> Succeeds(old(dir.temps), names(last), faults(last))
    ensures r == Err(AlreadyExists) <==> forall j: nat :: j < 16 ==> names(j) in old(dir.temps)
    ensures dir.target == if r.Ok? then Some(content) else old(dir.target)
    ensures dir.temps - {names(last)} == old(dir.temps) - {names(last)}
  {
    for attempt := 0 to MAX_TMP_RETRIES
      invariant dir.temps == old(dir.temps) && dir.target == old(dir.target)
      invariant forall j: nat :: j < attempt ==> names(j) in dir.temps
      invariant attempt < MAX_TMP_RETRIES
    {
      last := attempt;
      r := WriteAtomicBytesToTemp(dir, content, names(attempt), faults(attempt));
      if r == Err(AlreadyExists) && attempt + 1 < MAX_TMP_RETRIES {
        continue;
      }
      return;
    }
  }

  // --- many writers, and crashes -------------------------------------------------------------

  datatype Blob = Blob(bytes: string, synced: bool)

  /** `earlier` holds what the target may turn back to when power is lost before its directory is synced. */
  datatype Disk = Disk(target: Option<Blob>, earlier: set<Option<Blob>>, temps: map<Temp, Blob>)

  datatype Writer =
    | Trying(attempt: nat)
    | Opening(attempt: nat, tmp: Temp)
    | Filling(tmp: Temp, written: nat)
    | Filled(tmp: Temp)
    | Synced(tmp: Temp)
    | Published
    | Removing(tmp: Temp)
    | Succeeded
    | Failed

  // Before its first write a process clears away the leftovers of its own number, when it looks in this directory.
  datatype Process = Unborn | Fresh | Ready | Dead

  datatype System = System(disk: Disk, processes: seq<Process>, writers: seq<Writer>)

  /** Who writes what: the number of each process, the process of each write, and its content. */
  datatype Plan = Plan(pids: seq<nat>, owners: seq<nat>, contents: seq<string>)

  datatype Event =
    | Start(p: nat)
    | Clean(p: nat)
    | Kill(p: nat)
    | PowerLoss
    | Act(w: nat)

  ghost predicate Fits(plan: Plan, s: System) {
    && |s.processes| == |plan.pids|
    && |s.writers| == |plan.owners| == |plan.contents|
    && forall w :: 0 <= w < |plan.owners| ==> plan.owners[w] < |plan.pids|
  }

  function Pid(plan: Plan, w: nat): nat
    requires w < |plan.owners| && plan.owners[w] < |plan.pids|
  {
    plan.pids[plan.owners[w]]
  }

  predicate IsRunning(p: Process) {
    p.Fresh? || p.Ready?
  }

  // Bytes written at a position; a gap before it reads as zeros.
  function WriteAt(bytes: string, at: nat, chunk: string): string {
    if at + |chunk| <= |bytes| then bytes[..at] + (chunk + bytes[at + |chunk|..])
    else if at <= |bytes| then bytes[..at] + chunk
    else bytes + (seq(at - |bytes|, i => 0 as char) + chunk)
  }

  // One step of a write, as the disk and the writer before and after it.
  ghost predicate IsAction(pid: nat, content: string, d: Disk, w: Writer, d': Disk, w': Writer) {
    match w
    case Trying(k) => d' == d && exists stamp :: w' == Opening(k, Temp(pid, stamp))
    case Opening(k, tmp) =>
      || (tmp in d.temps && d' == d && w' == if k + 1 < MAX_TMP_RETRIES then Trying(k + 1) else Failed)
      || (tmp !in d.temps && d' == d.(temps := d.temps[tmp := Blob("", false)]) && w' == Filling(tmp, 0))
      || (tmp !in d.temps && d' == d && w' == Failed)
    case Filling(tmp, n) =>
      || (d' == d && w' == Removing(tmp))
      || (tmp in d.temps && n < |content| && exists m :: IsChunk(content, d, tmp, n, m, d', w'))
      || (n >= |content| && d' == d && w' == Filled(tmp))
    case Filled(tmp) =>
      || (d' == d && w' == Removing(tmp))
      || (tmp in d.temps && d' == d.(temps := d.temps[tmp := d.temps[tmp].(synced := true)]) && w' == Synced(tmp))
    case Synced(tmp) =>
      || (d' == d && w' == Removing(tmp))
      || (tmp in d.temps && d' == Disk(Some(d.temps[tmp]), d.earlier + {d.target}, d.temps - {tmp}) && w' == Published)
    case Published => (d' == d || d' == d.(earlier := {})) && w' == Succeeded
    case Removing(tmp) => (d' == d || d' == d.(temps := d.temps - {tmp})) && w' == Failed
    case Succeeded => false
    case Failed => false
  }

  ghost predicate IsChunk(content: string, d: Disk, tmp: Temp, n: nat, m: nat, d': Disk, w': Writer)
    requires tmp in d.temps
  {
    && n < m <= |content|
    && d' == d.(temps := d.temps[tmp := Blob(WriteAt(d.temps[tmp].bytes, n, content[n..m]), false)])
    && w' == Filling(tmp, m)
  }

  // After power is lost the temporary files may hold anything, and so may a target that was not synced.
  ghost predicate IsPowerLoss(d: Disk, d': Disk) {
    && d'.earlier == {}
    && exists was :: was in d.earlier + {d.target} &&
                     (d'.target == was || (was.Some? && !was.value.synced && d'.target.Some?))
  }

  ghost predicate IsStep(plan: Plan, s: System, e: Event, t: System)
    requires Fits(plan, s)
  {
    match e
    case Start(p) =>
      && p < |s.processes| && s.processes[p].Unborn?
      && (forall q :: 0 <= q < |s.processes| && plan.pids[q] == plan.pids[p] ==> !IsRunning(s.processes[q]))
      && t == s.(processes := s.processes[p := Fresh])
    case Clean(p) =>
      && p < |s.processes| && s.processes[p].Fresh?
      && (t.disk == Swept(s.disk, plan.pids[p]) || t.disk == s.disk)
      && t.processes == s.processes[p := Ready] && t.writers == s.writers
    case Kill(p) => p < |s.processes| && IsRunning(s.processes[p]) && t == s.(processes := s.processes[p := Dead])
    case PowerLoss =>
      && IsPowerLoss(s.disk, t.disk) && t.writers == s.writers && |t.processes| == |s.processes|
      && forall p :: 0 <= p < |s.processes| ==> t.processes[p] == if IsRunning(s.processes[p]) then Dead else s.processes[p]
    case Act(w) =>
      && w < |s.writers| && s.processes[plan.owners[w]].Ready?
      && t.processes == s.processes && |t.writers| == |s.writers| && t.writers == s.writers[w := t.writers[w]]
      && IsAction(Pid(plan, w), plan.contents[w], s.disk, s.writers[w], t.disk, t.writers[w])
  }

  function Swept(d: Disk, pid: nat): Disk {
    d.(temps := map tmp | tmp in d.temps && tmp.pid != pid :: d.temps[tmp])
  }

  ghost predicate IsStart(plan: Plan, s: System) {
    && Fits(plan, s)
    && s.disk.earlier == {}
    && (s.disk.target.Some? ==> s.disk.target.value.synced)
    && (forall p :: 0 <= p < |s.processes| ==> s.processes[p] == Unborn)
    && forall w :: 0 <= w < |s.writers| ==> s.writers[w] == Trying(0)
  }

  ghost predicate IsRun(plan: Plan, states: seq<System>, events: seq<Event>) {
    && |states| == |events| + 1
    && IsStart(plan, states[0])
    && (forall n :: 0 <= n < |states| ==> Fits(plan, states[n]))
    && forall n :: 0 <= n < |events| ==> IsStep(plan, states[n], events[n], states[n + 1])
  }

  // --- the invariant ---------------------------------------------------------------------------

  // What the target held at the start, or the whole content of a write that got as far as its rename.
  ghost predicate IsWhole(plan: Plan, initial: Option<Blob>, writers: seq<Writer>, b: Option<Blob>)
    requires |writers| == |plan.contents|
  {
    || b == initial
    || exists w :: 0 <= w < |writers| && (writers[w].Published? || writers[w].Succeeded?) && b == Some(Blob(plan.contents[w], true))
  }

  function Owned(w: Writer): Option<Temp> {
    match w
    case Filling(tmp, _) => Some(tmp)
    case Filled(tmp) => Some(tmp)
    case Synced(tmp) => Some(tmp)
    case Removing(tmp) => Some(tmp)
    case _ => None
  }

  ghost predicate IsAlive(plan: Plan, s: System, w: nat)
    requires Fits(plan, s) && w < |s.writers|
  {
    s.processes[plan.owners[w]].Ready?
  }

  // The temporary file of a live writer holds what it has written so far.
  ghost predicate IsInPlace(pid: nat, content: string, d: Disk, w: Writer) {
    && (Owned(w).Some? ==> Owned(w).value in d.temps && Owned(w).value.pid == pid)
    && (w.Opening? ==> w.tmp.pid == pid)
    && (w.Filling? ==> w.written <= |content| && d.temps[w.tmp].bytes == content[..w.written])
    && (w.Filled? ==> d.temps[w.tmp].bytes == content)
    && (w.Synced? ==> d.temps[w.tmp] == Blob(content, true))
  }

  ghost predicate ProcessesAreSafe(plan: Plan, s: System)
    requires Fits(plan, s)
  {
    && (forall p, q :: 0 <= p < q < |s.processes| && plan.pids[p] == plan.pids[q] ==> !IsRunning(s.processes[p]) || !IsRunning(s.processes[q]))
    && forall w :: 0 <= w < |s.writers| && (s.processes[plan.owners[w]].Unborn? || s.processes[plan.owners[w]].Fresh?) ==> s.writers[w] == Trying(0)
  }

  ghost predicate WritersAreSafe(plan: Plan, s: System)
    requires Fits(plan, s)
  {
    && (forall w :: 0 <= w < |s.writers| && IsAlive(plan, s, w) ==> IsInPlace(Pid(plan, w), plan.contents[w], s.disk, s.writers[w]))
    && forall v, w :: 0 <= v < w < |s.writers| && IsAlive(plan, s, v) && IsAlive(plan, s, w) && Owned(s.writers[v]).Some? ==>
         Owned(s.writers[v]) != Owned(s.writers[w])
  }

  ghost predicate TargetIsSafe(plan: Plan, initial: Option<Blob>, s: System)
    requires Fits(plan, s)
  {
    && (initial.Some? ==> initial.value.synced)
    && forall b :: b in s.disk.earlier + {s.disk.target} ==> IsWhole(plan, initial, s.writers, b)
  }

  ghost predicate IsSafe(plan: Plan, initial: Option<Blob>, s: System)
    requires Fits(plan, s)
  {
    ProcessesAreSafe(plan, s) && WritersAreSafe(plan, s) && TargetIsSafe(plan, initial, s)
  }

  // An action leaves the writer's own file in place and every other temporary file alone.
  lemma ActionInPlace(pid: nat, content: string, d: Disk, w: Writer, d': Disk, w': Writer)
    requires IsInPlace(pid, content, d, w) && IsAction(pid, content, d, w, d', w')
    ensures IsInPlace(pid, content, d', w')
    ensures forall tmp :: tmp in d.temps && Some(tmp) != Owned(w) ==> tmp in d'.temps && d'.temps[tmp] == d.temps[tmp]
    ensures Owned(w').Some? && Owned(w) != Owned(w') ==> Owned(w').value !in d.temps
  {
    if w.Filling? && w'.Filling? {
      var m :| IsChunk(content, d, w.tmp, w.written, m, d', w');
    } else if w.Filling? {
      assert content[..|content|] == content;
    }
  }

  lemma ActKeepsWriters(plan: Plan, s: System, w: nat, t: System)
    requires Fits(plan, s) && Fits(plan, t) && WritersAreSafe(plan, s) && IsStep(plan, s, Act(w), t)
    ensures WritersAreSafe(plan, t)
  {
    ActionInPlace(Pid(plan, w), plan.contents[w], s.disk, s.writers[w], t.disk, t.writers[w]);
    forall v | 0 <= v < |t.writers| && v != w && IsAlive(plan, t, v)
      ensures IsInPlace(Pid(plan, v), plan.contents[v], t.disk, t.writers[v])
      ensures Owned(t.writers[v]).Some? ==> Owned(t.writers[v]) != Owned(t.writers[w])
    {
      assert IsAlive(plan, s, v) && IsAlive(plan, s, w) && t.writers[v] == s.writers[v];
      assert Owned(s.writers[v]).Some? ==> Owned(s.writers[v]) != Owned(s.writers[w]);
    }
  }

  lemma ActKeepsTarget(plan: Plan, initial: Option<Blob>, s: System, w: nat, t: System)
    requires Fits(plan, s) && Fits(plan, t) && WritersAreSafe(plan, s) && TargetIsSafe(plan, initial, s) && IsStep(plan, s, Act(w), t)
    ensures TargetIsSafe(plan, initial, t)
  {
    assert IsAlive(plan, s, w);
    forall b | b in t.disk.earlier + {t.disk.target} ensures IsWhole(plan, initial, t.writers, b) {
      if b in s.disk.earlier + {s.disk.target} {
        assert IsWhole(plan, initial, s.writers, b);
        if v :| 0 <= v < |s.writers| && (s.writers[v].Published? || s.writers[v].Succeeded?) && b == Some(Blob(plan.contents[v], true)) {
          assert t.writers[v].Published? || t.writers[v].Succeeded?;
        }
      }
    }
  }

  // Sweeping takes no file from a live writer: no other running process has the same number.
  lemma CleanKeepsWriters(plan: Plan, s: System, p: nat, t: System)
    requires Fits(plan, s) && Fits(plan, t) && WritersAreSafe(plan, s) && ProcessesAreSafe(plan, s) && IsStep(plan, s, Clean(p), t)
    ensures WritersAreSafe(plan, t)
  {
    forall v | 0 <= v < |t.writers| && IsAlive(plan, t, v)
      ensures IsInPlace(Pid(plan, v), plan.contents[v], t.disk, t.writers[v])
      ensures Owned(t.writers[v]).Some? ==> IsAlive(plan, s, v)
    {
      assert plan.owners[v] != p ==> IsAlive(plan, s, v);
    }
  }

  /** A sweep that happens takes every leftover of its number and nothing else. */
  lemma SweepTakesLeftovers(plan: Plan, s: System, p: nat, t: System)
    requires Fits(plan, s) && IsStep(plan, s, Clean(p), t) && t.disk != s.disk
    ensures t.disk.target == s.disk.target && t.disk.earlier == s.disk.earlier
    ensures forall tmp :: tmp in t.disk.temps <==> tmp in s.disk.temps && tmp.pid != plan.pids[p]
    ensures forall tmp :: tmp in t.disk.temps ==> t.disk.temps[tmp] == s.disk.temps[tmp]
  {
  }

  /** One event keeps the invariant. */
  lemma StepIsSafe(plan: Plan, initial: Option<Blob>, s: System, e: Event, t: System)
    requires Fits(plan, s) && Fits(plan, t) && IsSafe(plan, initial, s) && IsStep(plan, s, e, t)
    ensures IsSafe(plan, initial, t)
  {
    hide IsAction, IsInPlace;
    match e {
      case Act(w) =>
        ActKeepsWriters(plan, s, w, t);
        ActKeepsTarget(plan, initial, s, w, t);
      case Clean(p) =>
        CleanKeepsWriters(plan, s, p, t);
      case Start(p) =>
      case Kill(p) =>
      case PowerLoss =>
        assert forall b :: b in s.disk.earlier + {s.disk.target} && b.Some? ==> b.value.synced;
    }
  }

  lemma StartIsSafe(plan: Plan, s: System)
    requires IsStart(plan, s)
    ensures IsSafe(plan, s.disk.target, s)
  {
  }

  lemma {:induction false} StateIsSafe(plan: Plan, states: seq<System>, events: seq<Event>, n: nat)
    requires IsRun(plan, states, events) && n < |states|
    ensures IsSafe(plan, states[0].disk.target, states[n])
  {
    hide IsSafe, IsStep, Fits;
    if n == 0 {
      StartIsSafe(plan, states[0]);
    } else {
      StateIsSafe(plan, states, events, n - 1);
      StepIsSafe(plan, states[0].disk.target, states[n - 1], events[n - 1], states[n]);
    }
  }

  /** In every interleaving of writers, with processes killed and power lost at any step, the target holds what
      it held at the start or the whole content of one write. */
  lemma TargetIsAlwaysWhole(plan: Plan, states: seq<System>, events: seq<Event>, n: nat)
    requires IsRun(plan, states, events) && n < |states|
    ensures var target := states[n].disk.target;
            || target == states[0].disk.target
            || exists w :: 0 <= w < |plan.contents| && target == Some(Blob(plan.contents[w], true))
  {
    hide IsStep, ProcessesAreSafe, WritersAreSafe;
    StateIsSafe(plan, states, events, n);
    assert IsWhole(plan, states[0].disk.target, states[n].writers, states[n].disk.target);
  }

  /** No temporary file ever has two live owners, and each owner finds in it exactly what it has written. */
  lemma NoTempHasTwoOwners(plan: Plan, states: seq<System>, events: seq<Event>, n: nat, v: nat, w: nat)
    requires IsRun(plan, states, events) && n < |states| && v < |plan.owners| && w < |plan.owners|
    requires IsAlive(plan, states[n], v) && IsAlive(plan, states[n], w) && Owned(states[n].writers[v]).Some?
    ensures Owned(states[n].writers[v]) == Owned(states[n].writers[w]) ==> v == w
    ensures IsInPlace(Pid(plan, v), plan.contents[v], states[n].disk, states[n].writers[v])
  {
    hide IsStep, ProcessesAreSafe, TargetIsSafe, IsInPlace;
    StateIsSafe(plan, states, events, n);
  }

  // --- durability --------------------------------------------------------------------------------

  // Nothing the target may turn back to differs from what it holds.
  ghost predicate IsDurable(d: Disk) {
    d.earlier <= {d.target}
  }

  // Every target is synced before it gets its name.
  lemma TargetIsSynced(plan: Plan, states: seq<System>, events: seq<Event>, n: nat)
    requires IsRun(plan, states, events) && n < |states|
    ensures forall b :: b in states[n].disk.earlier + {states[n].disk.target} && b.Some? ==> b.value.synced
  {
    hide IsStep, ProcessesAreSafe, WritersAreSafe;
    StateIsSafe(plan, states, events, n);
  }

  /** In every reachable state, power can be lost without any change to the target exactly when the target is durable:
      it was never replaced by anything else since the directory was last synced. */
  lemma PowerLossIsHarmlessWhen(plan: Plan, states: seq<System>, events: seq<Event>, n: nat)
    requires IsRun(plan, states, events) && n < |states|
    ensures var d := states[n].disk; (forall d' :: IsPowerLoss(d, d') ==> d'.target == d.target) <==> IsDurable(d)
  {
    hide IsRun;
    TargetIsSynced(plan, states, events, n);
    var d: Disk := states[n].disk;
    if !IsDurable(d) {
      var was :| was in d.earlier && was != d.target;
      var after := Disk(was, {}, map[]);
      assert was in d.earlier + {d.target} && after.target == was;
      assert IsPowerLoss(d, after);
    }
  }

  // The step at which a writer's file becomes the target.
  predicate Publishes(s: System, e: Event, t: System) {
    e.Act? && e.w < |s.writers| && e.w < |t.writers| && s.writers[e.w].Synced? && t.writers[e.w].Published?
  }

  lemma StepKeepsTarget(plan: Plan, s: System, e: Event, t: System)
    requires Fits(plan, s) && Fits(plan, t) && IsStep(plan, s, e, t) && !Publishes(s, e, t)
    requires IsDurable(s.disk) && (s.disk.target.Some? ==> s.disk.target.value.synced)
    ensures IsDurable(t.disk) && t.disk.target == s.disk.target
  {
  }

  /** Durability: a durable target survives everything, processes killed and power lost any number of times
      included, until the next write takes its name. */
  lemma {:induction false} TargetIsDurable(plan: Plan, states: seq<System>, events: seq<Event>, m: nat, n: nat)
    requires IsRun(plan, states, events) && m <= n < |states| && IsDurable(states[m].disk)
    requires forall k :: m <= k < n ==> !Publishes(states[k], events[k], states[k + 1])
    ensures IsDurable(states[n].disk) && states[n].disk.target == states[m].disk.target
    decreases n
  {
    hide IsStep, Publishes, IsStart;
    if m < n {
      TargetIsDurable(plan, states, events, m, n - 1);
      TargetIsSynced(plan, states, events, n - 1);
      assert IsStep(plan, states[n - 1], events[n - 1], states[n - 1 + 1]);
      StepKeepsTarget(plan, states[n - 1], events[n - 1], states[n]);
    }
  }

  // --- a write is a sequence of actions ------------------------------------------------------------

  ghost predicate IsPath(pid: nat, content: string, path: seq<(Disk, Writer)>) {
    && path != []
    && forall k :: 0 <= k < |path| - 1 ==> IsAction(pid, content, path[k].0, path[k].1, path[k + 1].0, path[k + 1].1)
  }

  function TargetBytes(d: Disk): Option<string> {
    if d.target.Some? then Some(d.target.value.bytes) else None
  }

  function TempBytes(d: Disk): map<Temp, string> {
    map tmp | tmp in d.temps :: d.temps[tmp].bytes
  }

  function Outcome(w: Writer): Result<(), WriteError> {
    if w.Succeeded? then Ok(()) else if w.Failed? then Err(Failure) else Err(AlreadyExists)
  }

  // Filling the new file in one go, for an empty content in none.
  function FillPath(d: Disk, content: string, tmp: Temp): seq<(Disk, Writer)> {
    var empty, full := d.(temps := d.temps[tmp := Blob("", false)]), d.(temps := d.temps[tmp := Blob(content, false)]);
    if content == "" then [(empty, Filling(tmp, 0)), (empty, Filled(tmp))]
    else [(empty, Filling(tmp, 0)), (full, Filling(tmp, |content|)), (full, Filled(tmp))]
  }

  lemma FillIsPath(pid: nat, d: Disk, content: string, tmp: Temp)
    ensures IsPath(pid, content, FillPath(d, content, tmp))
  {
    var path := FillPath(d, content, tmp);
    if content != "" {
      assert content[0..|content|] == content;
      assert WriteAt("", 0, content) == content;
      assert path[0].0.temps[tmp := Blob(content, false)] == path[1].0.temps;
      assert IsChunk(content, path[0].0, tmp, 0, |content|, path[1].0, path[1].1);
    }
  }

  lemma JoinPaths(pid: nat, content: string, p: seq<(Disk, Writer)>, q: seq<(Disk, Writer)>)
    requires IsPath(pid, content, p) && IsPath(pid, content, q)
    requires IsAction(pid, content, p[|p| - 1].0, p[|p| - 1].1, q[0].0, q[0].1)
    ensures IsPath(pid, content, p + q)
  {
    hide IsAction;
    var r := p + q;
    forall k | 0 <= k < |r| - 1 ensures IsAction(pid, content, r[k].0, r[k].1, r[k + 1].0, r[k + 1].1) {
      if k < |p| - 1 {
        assert r[k] == p[k] && r[k + 1] == p[k + 1];
      } else if k >= |p| {
        assert r[k] == q[k - |p|] && r[k + 1] == q[k - |p| + 1];
      }
    }
  }

  // What is left of a write after its file was filled, or after a call failed.
  function EndPath(d: Disk, content: string, tmp: Temp, f: Faults): seq<(Disk, Writer)> {
    var (full, synced) := (d.(temps := d.temps[tmp := Blob(content, false)]), d.(temps := d.temps[tmp := Blob(content, true)]));
    if f.sync then RemovePath(full, tmp, f)
    else [(synced, Synced(tmp))] +
         (if f.rename then RemovePath(synced, tmp, f)
          else var done := Disk(Some(Blob(content, true)), d.earlier + {d.target}, synced.temps - {tmp});
               [(done, Published), (done, Succeeded)])
  }

  function RemovePath(d: Disk, tmp: Temp, f: Faults): seq<(Disk, Writer)> {
    [(d, Removing(tmp)), (if f.remove then d else d.(temps := d.temps - {tmp}), Failed)]
  }

  // The whole write: opening, filling, syncing, renaming, each as far as nothing fails.
  function WritePath(d: Disk, k: nat, content: string, tmp: Temp, f: Faults): seq<(Disk, Writer)> {
    [(d, Opening(k, tmp))] +
    (if tmp in d.temps then [(d, if k + 1 < MAX_TMP_RETRIES then Trying(k + 1) else Failed)]
     else if f.open then [(d, Failed)]
     else if f.write then [(d.(temps := d.temps[tmp := Blob("", false)]), Filling(tmp, 0))] + RemovePath(d.(temps := d.temps[tmp := Blob("", false)]), tmp, f)
     else FillPath(d, content, tmp) + EndPath(d, content, tmp, f))
  }

  lemma EndIsPath(pid: nat, d: Disk, content: string, tmp: Temp, f: Faults)
    ensures var full := d.(temps := d.temps[tmp := Blob(content, false)]);
            IsPath(pid, content, [(full, Filled(tmp))] + EndPath(d, content, tmp, f))
  {
    var full := d.(temps := d.temps[tmp := Blob(content, false)]);
    assert full.temps[tmp := Blob(content, true)] == d.temps[tmp := Blob(content, true)];
  }

  lemma WriteIsPath(pid: nat, d: Disk, k: nat, content: string, tmp: Temp, f: Faults)
    ensures IsPath(pid, content, WritePath(d, k, content, tmp, f))
  {
    hide EndPath, FillPath;
    if tmp !in d.temps && !f.open && !f.write {
      var start, fill := [(d, Opening(k, tmp))], FillPath(d, content, tmp);
      var full := d.(temps := d.temps[tmp := Blob(content, false)]);
      FillIsPath(pid, d, content, tmp);
      FillEnds(d, content, tmp);
      EndIsPath(pid, d, content, tmp, f);
      var tail := [(full, Filled(tmp))] + EndPath(d, content, tmp, f);
      EndNotEmpty(d, content, tmp, f);
      assert IsPath(pid, content, EndPath(d, content, tmp, f)) by {
        hide IsAction;
        forall j | 0 <= j < |tail| - 2
          ensures IsAction(pid, content, tail[1..][j].0, tail[1..][j].1, tail[1..][j + 1].0, tail[1..][j + 1].1)
        {
          assert tail[1..][j] == tail[j + 1] && tail[1..][j + 1] == tail[j + 1 + 1];
        }
        assert tail[1..] == EndPath(d, content, tmp, f);
      }
      assert IsAction(pid, content, tail[0].0, tail[0].1, tail[1].0, tail[1].1);
      JoinPaths(pid, content, fill, EndPath(d, content, tmp, f));
      JoinPaths(pid, content, start, fill + EndPath(d, content, tmp, f));
    }
  }

  lemma FillEnds(d: Disk, content: string, tmp: Temp)
    ensures var fill, full := FillPath(d, content, tmp), d.(temps := d.temps[tmp := Blob(content, false)]);
            |fill| >= 2 && fill[0] == (d.(temps := d.temps[tmp := Blob("", false)]), Filling(tmp, 0)) && fill[|fill| - 1] == (full, Filled(tmp))
  {
  }

  lemma EndNotEmpty(d: Disk, content: string, tmp: Temp, f: Faults)
    ensures EndPath(d, content, tmp, f) != []
  {
  }

  lemma EndIsWritten(d: Disk, content: string, tmp: Temp, f: Faults)
    requires tmp !in d.temps && !f.open && !f.write
    ensures var end := EndPath(d, content, tmp, f);
            end != [] && var (d', w) := end[|end| - 1];
            (w.Succeeded? || w.Failed?)
            && IsWritten(TargetBytes(d), TempBytes(d), content, tmp, f, Outcome(w), TargetBytes(d'), TempBytes(d'))
  {
    var end := EndPath(d, content, tmp, f);
    var (d', w) := end[|end| - 1];
    assert TempBytes(d') - {tmp} == TempBytes(d) - {tmp};
    assert tmp !in d'.temps ==> TempBytes(d') == TempBytes(d);
  }

  /** Every call of the write is a sequence of the actions that are interleaved above: it ends as the call does. */
  lemma WriteIsActions(pid: nat, d: Disk, k: nat, content: string, tmp: Temp, f: Faults) returns (path: seq<(Disk, Writer)>)
    ensures IsPath(pid, content, path) && path[0] == (d, Opening(k, tmp))
    ensures var (d', w) := path[|path| - 1];
            && (tmp in d.temps ==> d' == d && w == if k + 1 < MAX_TMP_RETRIES then Trying(k + 1) else Failed)
            && (tmp !in d.temps ==>
                  && (w.Succeeded? || w.Failed?)
                  && IsWritten(TargetBytes(d), TempBytes(d), content, tmp, f, Outcome(w), TargetBytes(d'), TempBytes(d')))
  {
    hide EndPath, FillPath, IsPath;
    path := WritePath(d, k, content, tmp, f);
    WriteIsPath(pid, d, k, content, tmp, f);
    if tmp !in d.temps {
      if f.open || f.write {
        var d' := path[|path| - 1].0;
        assert TempBytes(d') - {tmp} == TempBytes(d) - {tmp};
        assert tmp !in d'.temps ==> TempBytes(d') == TempBytes(d);
      } else {
        EndIsWritten(d, content, tmp, f);
      }
    }
  }

  /** And so is the retry loop, from its first attempt: it goes on from the first name that is free, and fails when all
      sixteen exist. */
  lemma {:induction false} RetryIsActions(pid: nat, d: Disk, k: nat, content: string, names: nat -> Temp, faults: nat -> Faults)
    returns (path: seq<(Disk, Writer)>, last: nat)
    requires k < MAX_TMP_RETRIES && forall j: nat :: j < k ==> names(j) in TempBytes(d)
    requires forall j: nat :: names(j).pid == pid
    ensures IsPath(pid, content, path) && path[0] == (d, Trying(k))
    ensures IsDecisive(TempBytes(d), names, last)
    ensures var (d', w) := path[|path| - 1];
            if names(last) in d.temps then d' == d && w == Failed
            else (w.Succeeded? || w.Failed?)
                 && IsWritten(TargetBytes(d), TempBytes(d), content, names(last), faults(last), Outcome(w), TargetBytes(d'), TempBytes(d'))
    decreases MAX_TMP_RETRIES - k
  {
    hide IsWritten;
    var tmp := names(k);
    var attempt := WriteIsActions(pid, d, k, content, tmp, faults(k));
    assert tmp == Temp(pid, tmp.stamp);
    JoinPaths(pid, content, [(d, Trying(k))], attempt);
    if tmp in d.temps && k + 1 < MAX_TMP_RETRIES {
      var rest;
      rest, last := RetryIsActions(pid, d, k + 1, content, names, faults);
      path := AppendPath(pid, content, [(d, Trying(k))] + attempt, rest);
    } else {
      path, last := [(d, Trying(k))] + attempt, k;
    }
  }

  // Two paths of which the second starts where the first one ends.
  lemma AppendPath(pid: nat, content: string, p: seq<(Disk, Writer)>, q: seq<(Disk, Writer)>) returns (r: seq<(Disk, Writer)>)
    requires IsPath(pid, content, p) && IsPath(pid, content, q) && p[|p| - 1] == q[0]
    ensures IsPath(pid, content, r) && r[0] == p[0] && r[|r| - 1] == q[|q| - 1]
  {
    hide IsAction;
    if |q| == 1 {
      r := p;
    } else {
      r := p + q[1..];
      forall k | 0 <= k < |q[1..]| - 1
        ensures IsAction(pid, content, q[1..][k].0, q[1..][k].1, q[1..][k + 1].0, q[1..][k + 1].1)
      {
        assert q[1..][k] == q[k + 1] && q[1..][k + 1] == q[k + 1 + 1];
      }
      assert IsAction(pid, content, q[0].0, q[0].1, q[0 + 1].0, q[0 + 1].1);
      JoinPaths(pid, content, p, q[1..]);
    }
  }
}
