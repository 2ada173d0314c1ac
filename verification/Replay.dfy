/** Replaying a ledger into the state of its task, the checkpoint shortcut, and what compaction does to it. */
module Replay {
  import opened Wrappers
  import opened Json
  import opened TaskLedger
  import opened LedgerRows
  import opened LedgerAppend
  import opened LedgerRuns
  import opened LedgerHistory
  import opened Jsonl

  datatype State = State(goal: Option<Json>, evidenceNonEmpty: bool, verified: bool)

  /** An evidence entry that counts as a success: `success` is true, or `exit_code` is zero. */
  predicate ImpliesSuccess(entry: Json) {
    entry.Obj? &&
    (|| Get(entry.members, "success") == Some(Bool(true))
     || match Get(entry.members, "exit_code")
        case Some(Num(t)) => IntValue(t) == Some(0)
        case _ => false)
  }

  function NonNull(v: Json): Option<Json> {
    if v == Null then None else Some(v)
  }

  // One row replayed.
  function Step(s: State, tx: Tx): State {
    if tx.txType == "goal_state" then s.(goal := NonNull(tx.payload))
    else if tx.txType == "evidence" then s.(evidenceNonEmpty := true, verified := s.verified || ImpliesSuccess(tx.payload))
    else s
  }

  function Fold(s: State, rows: seq<Tx>): State {
    if rows == [] then s else Step(Fold(s, rows[..|rows| - 1]), rows[|rows| - 1])
  }

  function BoolAt(v: Option<Json>, key: string, otherwise: bool): bool {
    if v.Some? && v.value.Obj? then
      match Get(v.value.members, key)
      case Some(Bool(b)) => b
      case _ => otherwise
    else otherwise
  }

  function FieldOf(v: Json, key: string): Option<Json> {
    if v.Obj? then Get(v.members, key) else None
  }

  // A checkpoint row laid over the state of the physical files.
  function FromCheckpoint(base: State, payload: Json): State {
    var goal, evidence := FieldOf(payload, "goal_state"), FieldOf(payload, "evidence");
    State(if goal.Some? && goal.value != Null then goal else base.goal,
          BoolAt(evidence, "evidence_rows_non_empty", base.evidenceNonEmpty),
          BoolAt(evidence, "has_successful_verification", base.verified))
  }

  predicate IsCheckpoint(tx: Tx) {
    tx.txType == CHECKPOINT
  }

  // The number of rows up to and including the last checkpoint.
  function AfterLastCheckpoint(rows: seq<Tx>): (k: nat)
    ensures k <= |rows|
    ensures k > 0 ==> IsCheckpoint(rows[k - 1])
    ensures forall i :: k <= i < |rows| ==> !IsCheckpoint(rows[i])
  {
    if rows == [] then 0
    else if IsCheckpoint(rows[|rows| - 1]) then |rows|
    else AfterLastCheckpoint(rows[..|rows| - 1])
  }

  // Where the replay starts from.
  function ReplayBase(rows: seq<Tx>, base: State): State {
    var k := AfterLastCheckpoint(rows);
    if k == 0 then base else FromCheckpoint(base, rows[k - 1].payload)
  }

  /** The state the ledger stands for, given what the physical files say. */
  function Hydrated(rows: seq<Tx>, base: State): State {
    Fold(ReplayBase(rows, base), rows[AfterLastCheckpoint(rows)..])
  }

  // Looks for the last checkpoint from the end.
  method FindReplayStart(txs: seq<Tx>) returns (start: nat)
    ensures start == AfterLastCheckpoint(txs)
  {
    start := |txs|;
    assert txs[..start] == txs;
    while start > 0 && txs[start - 1].txType != CHECKPOINT
      invariant 0 <= start <= |txs|
      invariant AfterLastCheckpoint(txs[..start]) == AfterLastCheckpoint(txs)
    {
      assert txs[..start][..start - 1] == txs[..start - 1];
      start := start - 1;
    }
  }

  method ReplayRows(txs: seq<Tx>, from: State) returns (s: State)
    ensures s == Fold(from, txs)
  {
    hide ImpliesSuccess;
    s := from;
    for i := 0 to |txs|
      invariant s == Fold(from, txs[..i])
    {
      assert txs[..i + 1][..i] == txs[..i];
      var txType := txs[i].txType;
      if txType == "goal_state" {
        s := s.(goal := NonNull(txs[i].payload));
      } else if txType == "evidence" {
        s := s.(evidenceNonEmpty := true);
        if ImpliesSuccess(txs[i].payload) {
          s := s.(verified := true);
        }
      }
    }
    assert txs[..|txs|] == txs;
  }

  /** The replay: from the last checkpoint if there is one, else from the physical files. */
  method HydrateTaskStateHybrid(file: File, base: State) returns (s: State)
    modifies file
    ensures s == Hydrated(if old(file.content).Some? then Rows(old(file.content).value) else [], base)
  {
    hide Rows, Fold, FromCheckpoint, AfterLastCheckpoint;
    var txs := ReadTaskLedgerTransactions(file);
    var start := FindReplayStart(txs);
    s := base;
    if start > 0 {
      s := FromCheckpoint(s, txs[start - 1].payload);
    }
    s := ReplayRows(txs[start..], s);
  }

  // --- what a fold depends on ----------------------------------------------------------

  predicate IsGoal(tx: Tx) {
    tx.txType == "goal_state"
  }

  predicate IsEvidence(tx: Tx) {
    tx.txType == "evidence"
  }

  function LastGoal(rows: seq<Tx>): Option<Tx> {
    if rows == [] then None else if IsGoal(rows[|rows| - 1]) then Some(rows[|rows| - 1]) else LastGoal(rows[..|rows| - 1])
  }

  function LastEvidence(rows: seq<Tx>): Option<Tx> {
    if rows == [] then None else if IsEvidence(rows[|rows| - 1]) then Some(rows[|rows| - 1]) else LastEvidence(rows[..|rows| - 1])
  }

  predicate LastEvidenceSucceeds(rows: seq<Tx>) {
    LastEvidence(rows).Some? && ImpliesSuccess(LastEvidence(rows).value.payload)
  }

  predicate AnySuccess(rows: seq<Tx>) {
    exists i :: 0 <= i < |rows| && IsEvidence(rows[i]) && ImpliesSuccess(rows[i].payload)
  }

  /** A fold is the last goal, whether there is any evidence, and whether any evidence is a success. */
  lemma {:induction false} FoldIs(s: State, rows: seq<Tx>)
    ensures Fold(s, rows) == State(
              if LastGoal(rows).Some? then NonNull(LastGoal(rows).value.payload) else s.goal,
              s.evidenceNonEmpty || LastEvidence(rows).Some?,
              s.verified || AnySuccess(rows))
  {
    hide ImpliesSuccess;
    if rows != [] {
      var n := |rows| - 1;
      FoldIs(s, rows[..n]);
      assert AnySuccess(rows) <==> AnySuccess(rows[..n]) || (IsEvidence(rows[n]) && ImpliesSuccess(rows[n].payload)) by {
        if AnySuccess(rows[..n]) {
          var i :| 0 <= i < n && IsEvidence(rows[..n][i]) && ImpliesSuccess(rows[..n][i].payload);
          assert IsEvidence(rows[i]);
        }
        if AnySuccess(rows) {
          var i :| 0 <= i < |rows| && IsEvidence(rows[i]) && ImpliesSuccess(rows[i].payload);
          if i < n {
            assert rows[..n][i] == rows[i];
          }
        }
      }
    }
  }

  lemma {:induction false} FoldConcat(s: State, a: seq<Tx>, b: seq<Tx>)
    ensures Fold(s, a + b) == Fold(Fold(s, a), b)
  {
    if b == [] {
      assert a + b == a;
    } else {
      FoldConcat(s, a, b[..|b| - 1]);
      assert (a + b)[..|a + b| - 1] == a + b[..|b| - 1];
    }
  }

  // --- the checkpoint shortcut -------------------------------------------------------------

  // The state a checkpoint written now would capture.
  function CapturedBy(s: State): Physical {
    Physical(if s.goal.Some? then s.goal.value else Null, s.evidenceNonEmpty, s.verified)
  }

  lemma GetOfTwo(a: Member, b: Member, key: string)
    ensures Get([a, b], key) == if a.key == key then Some(a.value) else if b.key == key then Some(b.value) else None
  {
    assert [a, b][1..] == [b] && [b][1..] == [];
    assert Get([b], key) == if b.key == key then Some(b.value) else None;
  }

  lemma CheckpointFields(p: Physical)
    ensures FieldOf(CheckpointPayload(p), "goal_state") == Some(p.goal)
    ensures forall otherwise :: BoolAt(FieldOf(CheckpointPayload(p), "evidence"), "evidence_rows_non_empty", otherwise) == p.evidenceNonEmpty
    ensures forall otherwise :: BoolAt(FieldOf(CheckpointPayload(p), "evidence"), "has_successful_verification", otherwise) == p.verified
  {
    hide Get;
    var ms := CheckpointPayload(p).members;
    var inner := ms[0].value.members;
    assert "evidence"[0] != "goal_state"[0] && "evidence_rows_non_empty"[0] != "has_successful_verification"[0];
    GetOfTwo(ms[0], ms[1], "goal_state");
    GetOfTwo(ms[0], ms[1], "evidence");
    GetOfTwo(inner[0], inner[1], "evidence_rows_non_empty");
    GetOfTwo(inner[0], inner[1], "has_successful_verification");
  }

  // The goal a replay from this checkpoint starts with.
  function GoalFrom(base: State, p: Physical): Option<Json> {
    if p.goal == Null then base.goal else Some(p.goal)
  }

  lemma CheckpointState(base: State, p: Physical)
    ensures FromCheckpoint(base, CheckpointPayload(p)) == State(GoalFrom(base, p), p.evidenceNonEmpty, p.verified)
  {
    hide CheckpointPayload, FieldOf, BoolAt;
    CheckpointFields(p);
  }

  /** Replaying from the last checkpoint, whatever state it captured, is the full fold if and only if each part of the
      state was captured as the rows before it have it, or is settled by the rows after it. */
  lemma ShortcutIsExactWhen(rows: seq<Tx>, base: State, p: Physical)
    requires AfterLastCheckpoint(rows) > 0 && rows[AfterLastCheckpoint(rows) - 1].payload == CheckpointPayload(p)
    ensures var k := AfterLastCheckpoint(rows);
            var folded, after := Fold(base, rows[..k - 1]), rows[k..];
            Hydrated(rows, base) == Fold(base, rows) <==>
              && (LastGoal(after).Some? || GoalFrom(base, p) == folded.goal)
              && (LastEvidence(after).Some? || p.evidenceNonEmpty == folded.evidenceNonEmpty)
              && (AnySuccess(after) || p.verified == folded.verified)
  {
    hide CheckpointPayload, AnySuccess, FromCheckpoint, Fold;
    var k := AfterLastCheckpoint(rows);
    var before, after := rows[..k - 1], rows[k..];
    CheckpointState(base, p);
    CheckpointIsSkipped(Fold(base, before), rows[k - 1]);
    assert rows == (before + [rows[k - 1]]) + after;
    FoldConcat(base, before + [rows[k - 1]], after);
    FoldConcat(base, before, [rows[k - 1]]);
    FoldIs(Fold(base, before), after);
    FoldIs(ReplayBase(rows, base), after);
  }

  lemma CheckpointIsSkipped(s: State, tx: Tx)
    requires IsCheckpoint(tx)
    ensures Fold(s, [tx]) == s
  {
    assert [tx][..0] == [] && |CHECKPOINT| == 16 && |"evidence"| == 8 && |"goal_state"| == 10;
  }

  /** So a checkpoint of exactly the state before it is exact unless that state had no goal, the physical files have
      one, and no later row sets a goal. */
  lemma FaithfulCheckpointIsExactWhen(rows: seq<Tx>, base: State)
    requires base.goal != Some(Null)
    requires var k := AfterLastCheckpoint(rows);
             k > 0 && rows[k - 1].payload == CheckpointPayload(CapturedBy(Fold(base, rows[..k - 1])))
    ensures var k := AfterLastCheckpoint(rows);
            Hydrated(rows, base) == Fold(base, rows) <==>
              Fold(base, rows[..k - 1]).goal.Some? || base.goal.None? || LastGoal(rows[k..]).Some?
  {
    hide CheckpointPayload, AnySuccess, Fold, Hydrated, LastGoal, LastEvidence;
    var before := rows[..AfterLastCheckpoint(rows) - 1];
    FoldGoalNotNull(base, before);
    ShortcutIsExactWhen(rows, base, CapturedBy(Fold(base, before)));
  }

  lemma {:induction false} FoldGoalNotNull(s: State, rows: seq<Tx>)
    requires s.goal != Some(Null)
    ensures Fold(s, rows).goal != Some(Null)
  {
    if rows != [] {
      FoldGoalNotNull(s, rows[..|rows| - 1]);
    }
  }

  // --- compaction and replay ------------------------------------------------------------------

  // Replay looks at types and payloads only.
  ghost predicate SameContent(a: seq<Tx>, b: seq<Tx>) {
    |a| == |b| && forall i :: 0 <= i < |a| ==> a[i].txType == b[i].txType && a[i].payload == b[i].payload
  }

  lemma {:induction false} SameContentSameFold(s: State, a: seq<Tx>, b: seq<Tx>)
    requires SameContent(a, b)
    ensures Fold(s, a) == Fold(s, b) && AfterLastCheckpoint(a) == AfterLastCheckpoint(b)
  {
    hide ImpliesSuccess;
    if a != [] {
      SameContentSameFold(s, a[..|a| - 1], b[..|b| - 1]);
    }
  }

  lemma SameContentSameState(a: seq<Tx>, b: seq<Tx>, base: State)
    requires SameContent(a, b)
    ensures Hydrated(a, base) == Hydrated(b, base)
  {
    SameContentSameFold(base, a, b);
    var k := AfterLastCheckpoint(a);
    SameContentSameFold(ReplayBase(a, base), a[k..], b[k..]);
  }

  // The rows from position `from` on that survive.
  function KeptBetween(rows: seq<Tx>, from: nat, n: nat): seq<Tx>
    requires from <= n <= |rows|
    decreases n
  {
    if n == from then [] else KeptBetween(rows, from, n - 1) + (if IsStale(rows, n - 1) then [] else [rows[n - 1]])
  }

  lemma {:induction false} KeptSplit(rows: seq<Tx>, from: nat, n: nat)
    requires from <= n <= |rows|
    ensures KeptRows(rows, n) == KeptRows(rows, from) + KeptBetween(rows, from, n)
    decreases n
  {
    hide IsStale;
    if from < n {
      KeptSplit(rows, from, n - 1);
    } else {
      assert KeptRows(rows, from) + [] == KeptRows(rows, from);
    }
  }

  lemma {:induction false} NoCheckpointBetween(rows: seq<Tx>, from: nat, n: nat)
    requires from <= n <= |rows| && forall i :: from <= i < n ==> !IsCheckpoint(rows[i])
    ensures forall k :: 0 <= k < |KeptBetween(rows, from, n)| ==> !IsCheckpoint(KeptBetween(rows, from, n)[k])
    decreases n
  {
    hide IsStale;
    if from < n {
      NoCheckpointBetween(rows, from, n - 1);
    }
  }

  lemma {:induction false} LastCheckpointOfConcat(a: seq<Tx>, b: seq<Tx>)
    requires forall i :: 0 <= i < |b| ==> !IsCheckpoint(b[i])
    ensures AfterLastCheckpoint(a + b) == AfterLastCheckpoint(a)
  {
    if b == [] {
      assert a + b == a;
    } else {
      LastCheckpointOfConcat(a, b[..|b| - 1]);
      assert (a + b)[..|a + b| - 1] == a + b[..|b| - 1];
      assert (a + b)[|a + b| - 1] == b[|b| - 1];
    }
  }

  // The rows up to the last checkpoint still end with it.
  lemma CheckpointEndsFront(rows: seq<Tx>)
    ensures var k := AfterLastCheckpoint(rows);
            var front := KeptRows(rows, k);
            && (k == 0 ==> front == [])
            && (k > 0 ==> front != [] && front[|front| - 1] == rows[k - 1] && IsCheckpoint(rows[k - 1]))
  {
  }

  // Compaction replays from the same checkpoint, over the surviving rows after it.
  lemma CompactedReplay(rows: seq<Tx>, base: State)
    ensures var k := AfterLastCheckpoint(rows);
            Hydrated(KeptRows(rows, |rows|), base) == Fold(ReplayBase(rows, base), KeptBetween(rows, k, |rows|))
  {
    var k, n := AfterLastCheckpoint(rows), |rows|;
    hide IsStale, Fold, FromCheckpoint, AfterLastCheckpoint, KeptRows, KeptBetween, IsCheckpoint;
    var front, tail := KeptRows(rows, k), KeptBetween(rows, k, n);
    KeptSplit(rows, k, n);
    NoCheckpointBetween(rows, k, n);
    LastCheckpointOfConcat(front, tail);
    CheckpointEndsFront(rows);
    assert (front + tail)[|front|..] == tail;
    assert k > 0 ==> (front + tail)[|front| - 1] == rows[k - 1];
  }

  // The last goal and the last evidence among the rows from `from` on survive, and no other evidence does.
  lemma {:induction false} LastOnesSurvive(rows: seq<Tx>, from: nat, n: nat)
    requires from <= n <= |rows|
    requires forall i :: n <= i < |rows| ==> !IsGoal(rows[i])
    ensures LastGoal(KeptBetween(rows, from, n)) == LastGoal(rows[from..n])
    decreases n
  {
    hide IsStale, LastGoal;
    if from < n {
      var front, x := KeptBetween(rows, from, n - 1), rows[n - 1];
      assert rows[from..n] == rows[from..n - 1] + [x];
      OneMoreGoal(front, x);
      OneMoreGoal(rows[from..n - 1], x);
      if IsGoal(x) {
        LastGoalIsFresh(rows, n - 1);
      } else {
        LastOnesSurvive(rows, from, n - 1);
        assert front + [] == front;
      }
    } else {
      assert rows[from..n] == [];
    }
  }

  lemma LastGoalIsFresh(rows: seq<Tx>, i: nat)
    requires i < |rows| && IsGoal(rows[i]) && forall j :: i < j < |rows| ==> !IsGoal(rows[j])
    ensures !IsStale(rows, i)
  {
  }

  lemma OneMoreGoal(a: seq<Tx>, x: Tx)
    ensures LastGoal(a + [x]) == if IsGoal(x) then Some(x) else LastGoal(a)
  {
    assert (a + [x])[..|a|] == a;
  }

  lemma LastOfItsTypeIsFresh(rows: seq<Tx>, i: nat)
    requires i < |rows| && IsEvidence(rows[i]) && forall j :: i < j < |rows| ==> !IsEvidence(rows[j])
    ensures !IsStale(rows, i)
  {
  }

  lemma OneMoreSuccess(a: seq<Tx>, x: Tx)
    ensures AnySuccess(a + [x]) <==> AnySuccess(a) || (IsEvidence(x) && ImpliesSuccess(x.payload))
    ensures LastEvidence(a + [x]) == if IsEvidence(x) then Some(x) else LastEvidence(a)
  {
    hide ImpliesSuccess;
    var t := a + [x];
    assert t[..|a|] == a && t[|a|] == x;
    assert forall i :: 0 <= i < |a| ==> t[i] == a[i];
  }

  lemma NoEvidenceNoSuccess(rows: seq<Tx>)
    requires forall i :: 0 <= i < |rows| ==> !IsEvidence(rows[i])
    ensures !AnySuccess(rows)
  {
  }

  lemma {:induction false} LastEvidenceSurvives(rows: seq<Tx>, from: nat, n: nat)
    requires from <= n <= |rows|
    requires forall i :: n <= i < |rows| ==> !IsEvidence(rows[i])
    ensures LastEvidence(KeptBetween(rows, from, n)) == LastEvidence(rows[from..n])
    ensures AnySuccess(KeptBetween(rows, from, n)) <==> LastEvidenceSucceeds(rows[from..n])
    decreases n
  {
    hide ImpliesSuccess, IsStale, AnySuccess, LastEvidence;
    if from < n {
      var front, x := KeptBetween(rows, from, n - 1), rows[n - 1];
      assert rows[from..n] == rows[from..n - 1] + [x];
      OneMoreSuccess(front, x);
      OneMoreSuccess(rows[from..n - 1], x);
      if IsEvidence(x) {
        LastOfItsTypeIsFresh(rows, n - 1);
        EarlierEvidenceIsGone(rows, from, n - 1, n - 1);
        NoEvidenceNoSuccess(front);
      } else {
        LastEvidenceSurvives(rows, from, n - 1);
        assert front + [] == front;
      }
    } else {
      NoEvidence();
      assert rows[from..n] == [];
    }
  }

  lemma NoEvidence()
    ensures LastEvidence([]) == None && !AnySuccess([])
  {
  }

  // Evidence before a later evidence row does not survive.
  lemma {:induction false} EarlierEvidenceIsGone(rows: seq<Tx>, from: nat, n: nat, last: nat)
    requires from <= n <= last < |rows| && IsEvidence(rows[last])
    ensures forall i :: 0 <= i < |KeptBetween(rows, from, n)| ==> !IsEvidence(KeptBetween(rows, from, n)[i])
    decreases n
  {
    if from < n {
      EarlierEvidenceIsGone(rows, from, n - 1, last);
      if IsEvidence(rows[n - 1]) {
        assert IsStale(rows, n - 1);
      }
    }
  }

  /** Compaction keeps the goal and whether there is evidence; it never invents a verification, and it loses one
      exactly when the rows since the last checkpoint hold a success, the last evidence among them is not one, and
      nothing was verified before. */
  lemma CompactionReplaysAs(rows: seq<Tx>, base: State)
    ensures var before, after := Hydrated(rows, base), Hydrated(KeptRows(rows, |rows|), base);
            var recent := rows[AfterLastCheckpoint(rows)..];
            && after.goal == before.goal
            && after.evidenceNonEmpty == before.evidenceNonEmpty
            && (after.verified ==> before.verified)
            && (after.verified == before.verified <==>
                  ReplayBase(rows, base).verified || !AnySuccess(recent) || LastEvidenceSucceeds(recent))
  {
    hide ImpliesSuccess, FromCheckpoint, AfterLastCheckpoint, IsStale, Fold;
    var k, n := AfterLastCheckpoint(rows), |rows|;
    var recent := rows[k..];
    assert rows[k..n] == recent;
    CompactedReplay(rows, base);
    LastOnesSurvive(rows, k, n);
    LastEvidenceSurvives(rows, k, n);
    FoldIs(ReplayBase(rows, base), recent);
    FoldIs(ReplayBase(rows, base), KeptBetween(rows, k, n));
    SuccessNeedsEvidence(recent);
  }

  lemma {:induction false} SuccessNeedsEvidence(rows: seq<Tx>)
    ensures AnySuccess(rows) ==> LastEvidence(rows).Some?
    ensures LastEvidenceSucceeds(rows) ==> AnySuccess(rows)
  {
    hide ImpliesSuccess;
    if rows != [] {
      var n := |rows| - 1;
      SuccessNeedsEvidence(rows[..n]);
      if AnySuccess(rows[..n]) {
        var i :| 0 <= i < n && IsEvidence(rows[..n][i]) && ImpliesSuccess(rows[..n][i].payload);
        assert rows[i] == rows[..n][i];
      }
      if i :| 0 <= i < |rows| && IsEvidence(rows[i]) && ImpliesSuccess(rows[i].payload) && i < n {
        assert rows[..n][i] == rows[i];
      }
    }
  }

  /** The renumbering and rehashing that follow change nothing a replay sees. */
  lemma RechainingReplaysSame(h: Hasher, kept: seq<Tx>, base: State)
    ensures Hydrated(Rechained(h, RenumberedRows(kept)), base) == Hydrated(kept, base)
  {
    hide PrintTx, ChainHash;
    var out := Rechained(h, RenumberedRows(kept));
    forall i | 0 <= i < |kept| ensures out[i].txType == kept[i].txType && out[i].payload == kept[i].payload {
      RechainedAt(h, RenumberedRows(kept), i);
    }
    SameContentSameState(out, kept, base);
  }

  /** The same for the ledger text: compacting and rehashing a text that is due for it leaves a text that hydrates
      to the same goal and the same presence of evidence, and to a verification only if the old one did. */
  lemma CompactedTextReplaysAs(h: Hasher, rows: seq<Tx>, base: State)
    requires AreRows(rows) && NeedsCompaction(rows)
    ensures Compacted(Render(rows), MAX_LINES).Some?
    ensures var before := Hydrated(Rows(Render(rows)), base);
            var after := Hydrated(Rows(Patched(h, Compacted(Render(rows), MAX_LINES).value)), base);
            after.goal == before.goal && after.evidenceNonEmpty == before.evidenceNonEmpty && (after.verified ==> before.verified)
  {
    var kept := KeptRows(rows, |rows|);
    CompactedRender(rows);
    KeptAreRows(rows, |rows|);
    PatchedCompaction(h, kept);
    RenumberedAreRows(kept);
    RechainedAreRows(h, RenumberedRows(kept));
    RowsOfRender(rows, []);
    RowsOfRender(Rechained(h, RenumberedRows(kept)), []);
    assert Render(rows) + [] == Render(rows);
    assert Render(Rechained(h, RenumberedRows(kept))) + [] == Render(Rechained(h, RenumberedRows(kept)));
    CompactionReplaysAs(rows, base);
    RechainingReplaysSame(h, kept, base);
  }

  // --- what an append does to the replay ---------------------------------------------------------

  lemma OneMoreReplayed(h: Hasher, rows: seq<Tx>, tx: Tx, base: State)
    requires !IsCheckpoint(tx)
    ensures Hydrated(WithRow(h, rows, tx), base) == Step(Hydrated(rows, base), tx)
    ensures AfterLastCheckpoint(WithRow(h, rows, tx)) == AfterLastCheckpoint(rows)
  {
    hide PrintTx, ChainHash, LastRowHash, ImpliesSuccess, FromCheckpoint;
    var more, k := WithRow(h, rows, tx), AfterLastCheckpoint(rows);
    assert more[..|rows|] == rows;
    assert more[k..][..|rows| - k] == rows[k..];
    assert k > 0 ==> more[k - 1] == rows[k - 1];
  }

  lemma CheckpointReplayed(more: seq<Tx>, c: Tx, p: Physical, base: State)
    requires IsCheckpoint(c) && c.payload == CheckpointPayload(p)
    ensures Hydrated(more + [c], base) == State(GoalFrom(base, p), p.evidenceNonEmpty, p.verified)
  {
    hide CheckpointPayload, FromCheckpoint;
    CheckpointState(base, p);
    assert (more + [c])[|more| + 1..] == [];
  }

  /** The physical files already say what the ledger with this row stands for, when a checkpoint is due; and no
      success that counts is superseded, when a compaction is. */
  ghost predicate IsExactAppend(h: Hasher, rows: seq<Tx>, tx: Tx, p: Physical, base: State) {
    var more, next := WithRow(h, rows, tx), Step(Hydrated(rows, base), tx);
    if NeedsCompaction(more) then
      var recent := more[AfterLastCheckpoint(rows)..];
      ReplayBase(rows, base).verified || !AnySuccess(recent) || LastEvidenceSucceeds(recent)
    else if NeedsCheckpoint(|rows|) then
      GoalFrom(base, p) == next.goal && p.evidenceNonEmpty == next.evidenceNonEmpty && p.verified == next.verified
    else true
  }

  /** A duplicate changes nothing that is replayed, and an accepted row is replayed as one step if and only if the
      append is exact. */
  lemma AppendReplaysWhen(h: Hasher, rows: seq<Tx>, tx: Tx, p: Physical, now: string, base: State)
    requires !IsCheckpoint(tx)
    ensures var before, after := Hydrated(rows, base), Hydrated(AppendRows(h, rows, tx, p, now), base);
            if !IsAccepted(rows, tx) then after == before
            else after == Step(before, tx) <==> IsExactAppend(h, rows, tx, p, base)
  {
    hide PrintTx, ChainHash, HasRowKey, LastRowHash, Hydrated, Step, AfterLastCheckpoint, KeptRows, Rechained,
         CheckpointPayload, AnySuccess, FromCheckpoint, RenumberedRows, Chained;
    var more := WithRow(h, rows, tx);
    OneMoreReplayed(h, rows, tx, base);
    if IsAccepted(rows, tx) {
      if NeedsCompaction(more) {
        CompactionReplaysAs(more, base);
        RechainingReplaysSame(h, KeptRows(more, |more|), base);
        SameReplayBase(rows, more, base);
      } else if NeedsCheckpoint(|rows|) {
        var c := Chained(h, LastRowHash(more), CheckpointTx(p, now, |rows|));
        ChainedCheckpoint(h, LastRowHash(more), p, now, |rows|);
        CheckpointReplayed(more, c, p, base);
      }
    }
  }

  lemma ChainedCheckpoint(h: Hasher, prev: string, p: Physical, now: string, n: nat)
    ensures var c := Chained(h, prev, CheckpointTx(p, now, n)); IsCheckpoint(c) && c.payload == CheckpointPayload(p)
  {
    hide PrintTx, ChainHash;
  }

  lemma SameReplayBase(rows: seq<Tx>, more: seq<Tx>, base: State)
    requires rows <= more && AfterLastCheckpoint(rows) == AfterLastCheckpoint(more)
    ensures ReplayBase(rows, base) == ReplayBase(more, base)
  {
    hide FromCheckpoint;
  }

  /** It does happen: behind three hundred rows or more, appending an unsuccessful evidence row forgets every success
      since the last checkpoint, and with it a verification that nothing before confirms. */
  lemma CompactionCanLoseVerification(h: Hasher, rows: seq<Tx>, tx: Tx, p: Physical, now: string, base: State, i: nat)
    requires |rows| >= 300 && !ReplayBase(rows, base).verified
    requires AfterLastCheckpoint(rows) <= i < |rows| && IsEvidence(rows[i]) && ImpliesSuccess(rows[i].payload)
    requires tx.key.None? && IsEvidence(tx) && !ImpliesSuccess(tx.payload)
    ensures Hydrated(rows, base).verified && !Hydrated(AppendRows(h, rows, tx, p, now), base).verified
  {
    hide PrintTx, ChainHash, HasRowKey, LastRowHash, ImpliesSuccess, KeptRows, FromCheckpoint, Fold,
         AfterLastCheckpoint, Rechained,
         RenumberedRows, IsStale, NeedsCompaction, IsEvidence, Chained, WithRow, AnySuccess, ReplayBase, LastEvidence;
    var k, more := AfterLastCheckpoint(rows), WithRow(h, rows, tx);
    EvidenceCompacts(h, rows, tx, i);
    EvidenceIsNoCheckpoint(tx);
    assert rows[k..][i - k] == rows[i];
    SuccessAt(rows[k..], i - k);
    FoldIs(ReplayBase(rows, base), rows[k..]);
    OneMoreReplayed(h, rows, tx, base);
    RecentRows(h, rows, tx, k);
    StepOfFailure(Hydrated(rows, base), tx);
    SameReplayBase(rows, more, base);
    CompactionReplaysAs(more, base);
    RechainingReplaysSame(h, KeptRows(more, |more|), base);
  }

  lemma EvidenceCompacts(h: Hasher, rows: seq<Tx>, tx: Tx, i: nat)
    requires |rows| >= 300 && i < |rows| && IsEvidence(rows[i]) && IsEvidence(tx)
    ensures NeedsCompaction(WithRow(h, rows, tx)) && rows <= WithRow(h, rows, tx)
  {
    hide PrintTx, ChainHash, LastRowHash, KeptRows;
    var more := WithRow(h, rows, tx);
    assert more[|rows|].txType == more[i].txType;
    StaleIsDropped(more, |more|, i);
  }

  lemma EvidenceIsNoCheckpoint(tx: Tx)
    requires IsEvidence(tx)
    ensures !IsCheckpoint(tx)
  {
    assert |CHECKPOINT| == 16 && |"evidence"| == 8;
  }

  lemma SuccessAt(rows: seq<Tx>, i: nat)
    requires i < |rows| && IsEvidence(rows[i]) && ImpliesSuccess(rows[i].payload)
    ensures AnySuccess(rows)
  {
  }

  lemma StepOfFailure(s: State, tx: Tx)
    requires IsEvidence(tx)
    ensures Step(s, tx).verified == (s.verified || ImpliesSuccess(tx.payload))
  {
  }

  // The rows since the last checkpoint, after an unsuccessful evidence row.
  lemma RecentRows(h: Hasher, rows: seq<Tx>, tx: Tx, k: nat)
    requires k <= |rows| && IsEvidence(tx) && !ImpliesSuccess(tx.payload)
    ensures var recent := WithRow(h, rows, tx)[k..];
            !LastEvidenceSucceeds(recent) && (AnySuccess(recent) <==> AnySuccess(rows[k..]))
  {
    hide PrintTx, ChainHash, LastRowHash, ImpliesSuccess, AnySuccess;
    var more := WithRow(h, rows, tx);
    assert more[k..] == rows[k..] + [more[|rows|]];
    OneMoreSuccess(rows[k..], more[|rows|]);
  }

  /** It does happen: a checkpoint that falls on a successful evidence row is written before the evidence file is, and
      from then on no verification is seen, although the row is there and whatever the files say by then. */
  lemma CheckpointCanLoseVerification(h: Hasher, rows: seq<Tx>, tx: Tx, now: string, base: State)
    requires |rows| == 100 || |rows| == 200
    requires tx.key.None? && IsEvidence(tx) && ImpliesSuccess(tx.payload)
    ensures var p := Physical(Null, false, false);
            var after := AppendRows(h, rows, tx, p, now);
            && (exists i :: 0 <= i < |after| && IsEvidence(after[i]) && ImpliesSuccess(after[i].payload))
            && Step(Hydrated(rows, base), tx).verified && !Hydrated(after, base).verified
  {
    hide PrintTx, ChainHash, HasRowKey, LastRowHash, Hydrated, AfterLastCheckpoint, CheckpointPayload,
         ImpliesSuccess, KeptRows;
    var p, more := Physical(Null, false, false), WithRow(h, rows, tx);
    var c := Chained(h, LastRowHash(more), CheckpointTx(p, now, |rows|));
    ChainedCheckpoint(h, LastRowHash(more), p, now, |rows|);
    CheckpointReplayed(more, c, p, base);
    assert AppendRows(h, rows, tx, p, now) == more + [c];
    assert (more + [c])[|rows|].payload == tx.payload && IsEvidence((more + [c])[|rows|]);
  }

  // One replay step for each accepted append of a history.
  ghost function Replayed(files: seq<Option<string>>, events: seq<Event>, base: State, n: nat): State
    requires n <= |events| < |files|
  {
    if n == 0 then base else
      var s := Replayed(files, events, base, n - 1);
      match events[n - 1]
      case Append(tx, _, _) => if IsAccepted(RowsIn(files[n - 1]), tx) then Step(s, tx) else s
      case _ => s
  }

  ghost predicate IsExactEvent(h: Hasher, file: Option<string>, e: Event, base: State) {
    e.Append? && IsAccepted(RowsIn(file), e.tx) ==> IsExactAppend(h, RowsIn(file), e.tx, e.physical, base)
  }

  lemma EventReplaysWhen(h: Hasher, files: seq<Option<string>>, events: seq<Event>, base: State, n: nat)
    requires IsHistory(h, files, events) && n < |events| && (events[n].Append? ==> !IsCheckpoint(events[n].tx))
    requires Hydrated(RowsIn(files[n]), base) == Replayed(files, events, base, n)
    ensures Hydrated(RowsIn(files[n + 1]), base) == Replayed(files, events, base, n + 1) <==> IsExactEvent(h, files[n], events[n], base)
  {
    hide LedgerHistory.IsStep, RowsIn, AppendRows, IsAccepted, IsExactAppend, Hydrated, Step;
    FileIsKept(h, files, events, n);
    assert LedgerHistory.IsStep(h, files[n], events[n], files[n + 1]);
    StepKeeps(h, files[n], events[n], files[n + 1]);
    var e := events[n];
    if e.Append? {
      AppendReplaysWhen(h, RowsIn(files[n]), e.tx, e.physical, e.now, base);
    }
  }

  lemma {:induction false} ReplayedUpTo(h: Hasher, files: seq<Option<string>>, events: seq<Event>, base: State, n: nat)
    requires IsHistory(h, files, events) && n <= |events|
    requires forall m :: 0 <= m < |events| && events[m].Append? ==> !IsCheckpoint(events[m].tx)
    requires forall m :: 0 <= m < n ==> IsExactEvent(h, files[m], events[m], base)
    ensures Hydrated(RowsIn(files[n]), base) == Replayed(files, events, base, n)
  {
    hide LedgerHistory.IsStep, RowsIn, IsExactEvent, IsCheckpoint;
    if n > 0 {
      ReplayedUpTo(h, files, events, base, n - 1);
      EventReplaysWhen(h, files, events, base, n - 1);
    } else {
      NothingReplayed(base);
    }
  }

  lemma NothingReplayed(base: State)
    ensures Hydrated(RowsIn(None), base) == base
  {
  }

  /** Over a whole history of appends, tears and repairs: hydration is one step for each accepted append, at every
      moment, if and only if every append was exact. */
  lemma HistoryReplaysWhen(h: Hasher, files: seq<Option<string>>, events: seq<Event>, base: State)
    requires IsHistory(h, files, events)
    requires forall m :: 0 <= m < |events| && events[m].Append? ==> !IsCheckpoint(events[m].tx)
    ensures (forall n :: 0 <= n <= |events| ==> Hydrated(RowsIn(files[n]), base) == Replayed(files, events, base, n)) <==>
              forall m :: 0 <= m < |events| ==> IsExactEvent(h, files[m], events[m], base)
  {
    hide LedgerHistory.IsStep, RowsIn, IsExactEvent, IsCheckpoint, Hydrated, Replayed;
    if forall n :: 0 <= n <= |events| ==> Hydrated(RowsIn(files[n]), base) == Replayed(files, events, base, n) {
      forall m | 0 <= m < |events| ensures IsExactEvent(h, files[m], events[m], base) {
        EventReplaysWhen(h, files, events, base, m);
      }
    }
    if forall m :: 0 <= m < |events| ==> IsExactEvent(h, files[m], events[m], base) {
      forall n | 0 <= n <= |events| ensures Hydrated(RowsIn(files[n]), base) == Replayed(files, events, base, n) {
        ReplayedUpTo(h, files, events, base, n);
      }
    }
  }
}
