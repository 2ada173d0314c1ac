/** What the lock gives: appends that are recorded, processes that finish, and what goes wrong without it. */
module LedgerLockLaws {
  import opened Wrappers
  import opened Json
  import opened Jsonl
  import opened TaskLedger
  import opened LedgerRows
  import opened LedgerAppend
  import opened LedgerRuns
  import opened LedgerHistory
  import opened LedgerLock

  // --- every finished append is recorded ---------------------------------------------------

  // No snapshot row has the key.
  ghost predicate IsKeptApart(rows: seq<Tx>, key: string) {
    forall i :: 0 <= i < |rows| && rows[i].key == Some(key) ==> !IsSnapshot(rows[i])
  }

  lemma CompactionKeepsApart(h: Hasher, rows: seq<Tx>, key: string)
    requires IsKeptApart(rows, key)
    ensures IsKeptApart(Rechained(h, RenumberedRows(KeptRows(rows, |rows|))), key)
  {
    var survivors := KeptRows(rows, |rows|);
    var kept := RenumberedRows(survivors);
    var out := Rechained(h, kept);
    forall k | 0 <= k < |out| && out[k].key == Some(key) ensures !IsSnapshot(out[k]) {
      RechainedAt(h, kept, k);
      var i := KeptFrom(rows, |rows|, k);
      assert out[k].key == rows[i].key && out[k].txType == rows[i].txType;
    }
  }

  lemma AppendRecords(h: Hasher, rows: seq<Tx>, r: Request, key: string)
    requires IsKept(h, rows) && IsKeptApart(rows, key) && (r.tx.key == Some(key) ==> !IsSnapshot(r.tx))
    ensures var after := AppendRows(h, rows, r.tx, r.physical, r.now);
            IsKeptApart(after, key) && (r.tx.key == Some(key) || HasLastingKey(rows, key) ==> HasLastingKey(after, key))
  {
    if HasLastingKey(rows, key) {
      LastingKeyStays(h, rows, r.tx, r.physical, r.now, key);
    }
    if r.tx.key.Some? && HasRowKey(rows, r.tx.key.value) {
    } else {
      var numbered := r.tx.(seqNo := Some(|rows|));
      var more := rows + [Chained(h, LastRowHash(rows), numbered)];
      if NeedsCompaction(more) {
        CompactionKeepsApart(h, more, key);
        if r.tx.key == Some(key) {
          CompactionKeepsLastingKey(h, more, key);
        }
      } else if NeedsCheckpoint(|rows|) {
        var checkpoint := CheckpointTx(r.physical, r.now, |rows|);
        if r.tx.key == Some(key) {
          PrefixKeepsLastingKey(more, more + [Chained(h, LastRowHash(more), checkpoint)], key);
        }
      }
    }
  }

  // Only rows that are not snapshots are ever appended with the key.
  ghost predicate IsLastingKey(h: Hasher, initial: Option<string>, requests: seq<Request>, key: string) {
    && IsLedgerFile(h, initial)
    && (forall i :: 0 <= i < |requests| ==> IsNewTx(requests[i].tx, requests[i].physical))
    && IsKeptApart(RowsIn(initial), key)
    && forall i :: 0 <= i < |requests| && requests[i].tx.key == Some(key) ==> !IsSnapshot(requests[i].tx)
  }

  lemma {:induction false} InTurnRecords(h: Hasher, initial: Option<string>, requests: seq<Request>, order: seq<nat>, key: string)
    requires IsLastingKey(h, initial, requests, key) && forall k :: 0 <= k < |order| ==> order[k] < |requests|
    ensures var file := InTurn(h, initial, requests, order);
            && IsLedgerFile(h, file) && IsKeptApart(RowsIn(file), key)
            && ((exists k :: 0 <= k < |order| && requests[order[k]].tx.key == Some(key)) ==> HasLastingKey(RowsIn(file), key))
  {
    hide IsLedgerFile, RowsIn, AppendRows, IsKeptApart, HasLastingKey, IsNewTx, IsSnapshot, AfterAppend;
    if order != [] {
      var n := |order| - 1;
      var before := InTurn(h, initial, requests, order[..n]);
      var r := requests[order[n]];
      InTurnRecords(h, initial, requests, order[..n], key);
      var after := Some(AfterAppend(h, before, r.tx, r.physical, r.now));
      StepKeeps(h, before, Append(r.tx, r.physical, r.now), after);
      LedgerFileIsKept(h, before);
      AppendRecords(h, RowsIn(before), r, key);
      if k :| 0 <= k < |order| && requests[order[k]].tx.key == Some(key) && k < n {
        assert order[..n][k] == order[k];
      }
    }
  }

  lemma LedgerFileIsKept(h: Hasher, file: Option<string>)
    requires IsLedgerFile(h, file)
    ensures IsKept(h, RowsIn(file))
  {
  }

  /** Whatever the interleaving, once nobody is inside, every finished append has its key in the file, and the
      file is well kept: hash-chained and numbered. */
  lemma FinishedAppendsAreRecorded(h: Hasher, requests: seq<Request>, states: seq<System>, who: seq<nat>, n: nat, i: nat)
    requires IsRun(h, true, requests, states, who) && n < |states|
    requires forall j :: 0 <= j < |requests| ==> !IsInside(states[n].phases[j])
    requires i < |requests| && states[n].phases[i].Done? && requests[i].tx.key.Some?
    requires IsLastingKey(h, states[0].file, requests, requests[i].tx.key.value)
    ensures HasLastingKey(RowsIn(states[n].file), requests[i].tx.key.value) && IsKept(h, RowsIn(states[n].file))
  {
    hide IsMove, IsStart, IsLastingKey, IsKept, RowsIn, HasLastingKey;
    NoUpdateIsLost(h, requests, states, who, n);
    var s := states[n];
    InTurnRecords(h, states[0].file, requests, s.order, requests[i].tx.key.value);
    LedgerFileIsKept(h, s.file);
    var k :| 0 <= k < |s.order| && s.order[k] == i;
  }

  // Every request is a transaction as callers make it, onto a well-kept file.
  ghost predicate AreNew(h: Hasher, initial: Option<string>, requests: seq<Request>) {
    IsLedgerFile(h, initial) && forall i :: 0 <= i < |requests| ==> IsNewTx(requests[i].tx, requests[i].physical)
  }

  lemma {:induction false} InTurnSharesNoKey(h: Hasher, initial: Option<string>, requests: seq<Request>, order: seq<nat>, key: string)
    requires AreNew(h, initial, requests) && IsPlainKey(key) && IsNotShared(RowsIn(initial), key)
    requires forall k :: 0 <= k < |order| ==> order[k] < |requests|
    ensures var file := InTurn(h, initial, requests, order); IsLedgerFile(h, file) && IsNotShared(RowsIn(file), key)
  {
    hide IsLedgerFile, RowsIn, AppendRows, IsNotShared, IsNewTx, IsPlainKey, AfterAppend;
    if order != [] {
      var n := |order| - 1;
      var before, r := InTurn(h, initial, requests, order[..n]), requests[order[n]];
      InTurnSharesNoKey(h, initial, requests, order[..n], key);
      StepKeeps(h, before, Append(r.tx, r.physical, r.now), Some(AfterAppend(h, before, r.tx, r.physical, r.now)));
      LedgerFileIsKept(h, before);
      AppendSharesNoKey(h, RowsIn(before), r.tx, r.physical, r.now, key);
    }
  }

  /** Whatever the interleaving and whatever the other keys, once nobody is inside, a key that JSON does not escape is in
      one row at most: of two processes that append it at the same time only one adds a row. */
  lemma NoKeyIsSharedByProcesses(h: Hasher, requests: seq<Request>, states: seq<System>, who: seq<nat>, n: nat, key: string)
    requires IsRun(h, true, requests, states, who) && n < |states|
    requires forall j :: 0 <= j < |requests| ==> !IsInside(states[n].phases[j])
    requires AreNew(h, states[0].file, requests) && IsPlainKey(key) && IsNotShared(RowsIn(states[0].file), key)
    ensures IsNotShared(RowsIn(states[n].file), key) && IsKept(h, RowsIn(states[n].file))
  {
    hide IsMove, IsStart, AreNew, IsKept, RowsIn, IsNotShared, IsPlainKey;
    NoUpdateIsLost(h, requests, states, who, n);
    InTurnSharesNoKey(h, states[0].file, requests, states[n].order, key);
    LedgerFileIsKept(h, states[n].file);
  }

  // --- every process finishes ------------------------------------------------------------------

  // An upper bound on the steps a process still makes.
  function StepsLeft(ph: Phase): nat {
    match ph
    case Waiting => 12
    case Locked => 11
    case Loaded(_) => 10
    case Rereading => 9
    case Checking(_) => 8
    case Writing(_, _) => 7
    case Written(_, _) => 6
    case Checkpointing(_, _, _) => 5
    case Compacting(_) => 4
    case Patching => 3
    case PatchWriting(_) => 2
    case Creating => 2
    case Unlocking => 1
    case Done => 0
    case GaveUp => 0
  }

  function AllStepsLeft(phases: seq<Phase>): nat {
    if phases == [] then 0 else AllStepsLeft(phases[..|phases| - 1]) + StepsLeft(phases[|phases| - 1])
  }

  lemma {:induction false} OnePhaseChanged(phases: seq<Phase>, i: nat, ph: Phase)
    requires i < |phases|
    ensures AllStepsLeft(phases[i := ph]) == AllStepsLeft(phases) - StepsLeft(phases[i]) + StepsLeft(ph)
  {
    hide StepsLeft;
    var n := |phases| - 1;
    if i < n {
      assert phases[i := ph][..n] == phases[..n][i := ph];
      OnePhaseChanged(phases[..n], i, ph);
    } else {
      assert phases[i := ph][..n] == phases[..n];
    }
  }

  lemma StepTakesOne(h: Hasher, flock: bool, requests: seq<Request>, s: System, i: nat, t: System)
    requires |s.phases| == |requests| && IsMove(h, flock, requests, s, i, t)
    ensures AllStepsLeft(t.phases) < AllStepsLeft(s.phases)
  {
    hide AfterAppend, Repaired, IsDuplicate, Appended, CountRows, Lines, WithCheckpoint, Compacted, Patched,
         NeedsCheckpoint, AllStepsLeft;
    OnePhaseChanged(s.phases, i, t.phases[i]);
  }

  lemma {:induction false} AtStart(phases: seq<Phase>)
    requires forall i :: 0 <= i < |phases| ==> phases[i] == Waiting
    ensures AllStepsLeft(phases) == 12 * |phases|
  {
    if phases != [] {
      AtStart(phases[..|phases| - 1]);
    }
  }

  lemma {:induction false} StepsAreLimited(h: Hasher, flock: bool, requests: seq<Request>, states: seq<System>, who: seq<nat>, n: nat)
    requires IsRun(h, flock, requests, states, who) && n < |states|
    ensures n + AllStepsLeft(states[n].phases) <= 12 * |requests|
  {
    hide IsMove, AllStepsLeft;
    if n == 0 {
      AtStart(states[0].phases);
    } else {
      StepsAreLimited(h, flock, requests, states, who, n - 1);
      StepTakesOne(h, flock, requests, states[n - 1], who[n - 1], states[n]);
    }
  }

  /** No run has more than twelve steps for each process. */
  lemma RunsAreFinite(h: Hasher, flock: bool, requests: seq<Request>, states: seq<System>, who: seq<nat>)
    requires IsRun(h, flock, requests, states, who)
    ensures |who| <= 12 * |requests|
  {
    StepsAreLimited(h, flock, requests, states, who, |who|);
  }

  /** Nobody is ever stuck: a state without a next step is one in which every process has finished or given up. */
  lemma NoDeadlock(h: Hasher, requests: seq<Request>, states: seq<System>, who: seq<nat>, n: nat, i: nat)
    requires IsRun(h, true, requests, states, who) && n < |states| && i < |requests|
    requires !states[n].phases[i].Done? && !states[n].phases[i].GaveUp?
    ensures exists j: nat, t: System :: IsMove(h, true, requests, states[n], j, t)
  {
    hide IsAt, EachEnteredOnce, Advance;
    StateIsSafe(h, requests, states, who, n);
    var s := states[n];
    if s.holder.None? {
      assert IsMove(h, true, requests, s, i, System(s.file, Some(i), s.phases[i := Locked], s.order + [i]));
    } else {
      var j := s.holder.value;
      if s.phases[j].Unlocking? {
        assert IsMove(h, true, requests, s, j, s.(holder := None, phases := s.phases[j := Done]));
      } else {
        var (ph, file) := Advance(h, requests[j], s.phases[j], s.file);
        assert IsMove(h, true, requests, s, j, s.(file := file, phases := s.phases[j := ph]));
      }
    }
  }

  // --- without the lock -----------------------------------------------------------------------

  // Two processes, both inside before either has written.
  function Race(h: Hasher, a: Request, b: Request): (states: seq<System>) {
    var first, second := Some(AfterAppend(h, None, a.tx, a.physical, a.now)), Some(AfterAppend(h, None, b.tx, b.physical, b.now));
    [System(None, None, [Waiting, Waiting], []),
     System(None, None, [Locked, Waiting], [0]),
     System(None, None, [Locked, Locked], [0, 1]),
     System(None, None, [Creating, Locked], [0, 1]),
     System(None, None, [Creating, Creating], [0, 1]),
     System(first, None, [Unlocking, Creating], [0, 1]),
     System(second, None, [Unlocking, Unlocking], [0, 1]),
     System(second, None, [Done, Unlocking], [0, 1]),
     System(second, None, [Done, Done], [0, 1])]
  }

  lemma RaceIsRun(h: Hasher, a: Request, b: Request)
    ensures IsRun(h, false, [a, b], Race(h, a, b), [0, 1, 0, 1, 0, 1, 0, 1])
  {
    hide AfterAppend;
    var states, who, requests := Race(h, a, b), [0, 1, 0, 1, 0, 1, 0, 1], [a, b];
    assert requests[0] == a && requests[1] == b;
    forall n | 0 <= n < |who| ensures IsMove(h, false, requests, states[n], who[n], states[n + 1]) {
      var s, t := states[n], states[n + 1];
      assert t.phases == s.phases[who[n] := t.phases[who[n]]];
    }
  }

  lemma FirstRow(h: Hasher, r: Request)
    requires IsNewTx(r.tx, r.physical)
    ensures var rows := RowsIn(Some(AfterAppend(h, None, r.tx, r.physical, r.now))); |rows| == 1 && rows[0].key == r.tx.key
  {
    hide PrintTx, AfterAppend, IsRow, KeptRows, LastRowHash, IsWellFormed, Escape, Rows, Contains;
    var after := Some(AfterAppend(h, None, r.tx, r.physical, r.now));
    StepKeeps(h, None, Append(r.tx, r.physical, r.now), after);
    assert RowsIn(None) == [];
  }

  /** With the lock switched off an append can finish and leave nothing behind. */
  lemma WithoutTheLockAnAppendIsLost(h: Hasher, a: Request, b: Request)
    requires IsNewTx(a.tx, a.physical) && IsNewTx(b.tx, b.physical) && a.tx.key != b.tx.key
    ensures exists states: seq<System>, who: seq<nat> ::
              && IsRun(h, false, [a, b], states, who)
              && states[|who|].phases == [Done, Done]
              && forall i :: 0 <= i < |RowsIn(states[|who|].file)| ==> RowsIn(states[|who|].file)[i].key != a.tx.key
  {
    hide AfterAppend, IsRun, IsNewTx, RowsIn;
    RaceIsRun(h, a, b);
    FirstRow(h, b);
    var states, who := Race(h, a, b), [0, 1, 0, 1, 0, 1, 0, 1];
    assert |who| == 8 && states[8].phases == [Done, Done];
  }
}
