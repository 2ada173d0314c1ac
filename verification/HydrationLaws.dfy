/** What a hydrated state holds, field by field, in terms of the rows as they are stored. */
module HydrationLaws {
  import opened Wrappers
  import opened Strings
  import opened Json
  import opened TaskLedger
  import opened LedgerRows
  import opened Replay

  predicate HasField(v: Json, key: string, value: Json) {
    v.Obj? && Get(v.members, key) == Some(value)
  }

  // The rows that are replayed: those from position `k` on, behind the last checkpoint.
  ghost predicate IsReplayedFrom(rows: seq<Tx>, k: nat) {
    && k <= |rows|
    && (k > 0 ==> rows[k - 1].txType == "state_checkpoint")
    && forall i :: k <= i < |rows| ==> rows[i].txType != "state_checkpoint"
  }

  lemma ReplayedFromIs(rows: seq<Tx>, k: nat)
    requires IsReplayedFrom(rows, k)
    ensures AfterLastCheckpoint(rows) == k
  {
    assert k > 0 ==> IsCheckpoint(rows[k - 1]);
  }

  // --- where the replay starts from -------------------------------------------------------

  // The checkpoint has captured this flag.
  predicate Captures(payload: Json, key: string, b: bool) {
    payload.Obj? && Get(payload.members, "evidence").Some? && HasField(Get(payload.members, "evidence").value, key, Bool(b))
  }

  /** Without a checkpoint the replay starts from the physical files; a checkpoint overrides them, field by field, with
      what it holds: a goal that is not null, and each flag that is a truth value. */
  lemma CheckpointOverridesFiles(rows: seq<Tx>, base: State, k: nat)
    requires IsReplayedFrom(rows, k)
    ensures var s := ReplayBase(rows, base);
            && (k == 0 ==> s == base)
            && (k > 0 ==>
                  var payload := rows[k - 1].payload;
                  && (forall goal :: HasField(payload, "goal_state", goal) && goal != Null ==> s.goal == Some(goal))
                  && ((forall goal :: HasField(payload, "goal_state", goal) ==> goal == Null) ==> s.goal == base.goal)
                  && (forall b :: Captures(payload, "evidence_rows_non_empty", b) ==> s.evidenceNonEmpty == b)
                  && ((forall b :: !Captures(payload, "evidence_rows_non_empty", b)) ==> s.evidenceNonEmpty == base.evidenceNonEmpty)
                  && (forall b :: Captures(payload, "has_successful_verification", b) ==> s.verified == b)
                  && ((forall b :: !Captures(payload, "has_successful_verification", b)) ==> s.verified == base.verified))
  {
    hide Get, AfterLastCheckpoint;
    ReplayedFromIs(rows, k);
    if k > 0 {
      var payload := rows[k - 1].payload;
      FlagOfCheckpoint(payload, "evidence_rows_non_empty", base.evidenceNonEmpty);
      FlagOfCheckpoint(payload, "has_successful_verification", base.verified);
      if payload.Obj? && Get(payload.members, "goal_state").Some? {
        assert HasField(payload, "goal_state", Get(payload.members, "goal_state").value);
      }
    }
  }

  lemma FlagOfCheckpoint(payload: Json, key: string, otherwise: bool)
    ensures var b := BoolAt(FieldOf(payload, "evidence"), key, otherwise);
            (forall c :: Captures(payload, key, c) ==> b == c) && ((forall c :: !Captures(payload, key, c)) ==> b == otherwise)
  {
    hide Get;
    var b := BoolAt(FieldOf(payload, "evidence"), key, otherwise);
    assert Captures(payload, key, b) || b == otherwise;
  }

  // --- what the rows behind it add ------------------------------------------------------------

  lemma {:induction false} LastGoalIs(rows: seq<Tx>, i: nat)
    requires i < |rows| && rows[i].txType == "goal_state" && forall j :: i < j < |rows| ==> rows[j].txType != "goal_state"
    ensures LastGoal(rows) == Some(rows[i])
  {
    if i < |rows| - 1 {
      LastGoalIs(rows[..|rows| - 1], i);
    }
  }

  lemma {:induction false} NoGoalIs(rows: seq<Tx>)
    requires forall j :: 0 <= j < |rows| ==> rows[j].txType != "goal_state"
    ensures LastGoal(rows) == None
  {
    if rows != [] {
      NoGoalIs(rows[..|rows| - 1]);
    }
  }

  /** The last goal row behind the last checkpoint decides: its payload is the goal, and null clears it. */
  lemma LastGoalIsHydrated(rows: seq<Tx>, base: State, k: nat, i: nat)
    requires IsReplayedFrom(rows, k) && k <= i < |rows|
    requires rows[i].txType == "goal_state" && forall j :: i < j < |rows| ==> rows[j].txType != "goal_state"
    ensures rows[i].payload != Null ==> Hydrated(rows, base).goal == Some(rows[i].payload)
    ensures rows[i].payload == Null ==> Hydrated(rows, base).goal == None
  {
    hide AfterLastCheckpoint, Fold, ReplayBase, LastEvidence, AnySuccess;
    ReplayedFromIs(rows, k);
    LastGoalIs(rows[k..], i - k);
    FoldIs(ReplayBase(rows, base), rows[k..]);
  }

  /** Without such a row the goal is the one the replay started with. */
  lemma GoalIsKept(rows: seq<Tx>, base: State, k: nat)
    requires IsReplayedFrom(rows, k) && forall j :: k <= j < |rows| ==> rows[j].txType != "goal_state"
    ensures Hydrated(rows, base).goal == ReplayBase(rows, base).goal
  {
    hide AfterLastCheckpoint, Fold, ReplayBase, LastEvidence, AnySuccess;
    ReplayedFromIs(rows, k);
    NoGoalIs(rows[k..]);
    FoldIs(ReplayBase(rows, base), rows[k..]);
  }

  lemma {:induction false} LastEvidenceWhen(rows: seq<Tx>)
    ensures LastEvidence(rows).Some? <==> exists i :: 0 <= i < |rows| && rows[i].txType == "evidence"
  {
    if rows != [] {
      var n := |rows| - 1;
      LastEvidenceWhen(rows[..n]);
      if i :| 0 <= i < n && rows[..n][i].txType == "evidence" {
        assert rows[i].txType == "evidence";
      }
      if i :| 0 <= i < |rows| && rows[i].txType == "evidence" && i < n {
        assert rows[..n][i].txType == "evidence";
      }
    }
  }

  /** There is evidence when the replay started with some or an evidence row follows, whatever it says. */
  lemma EvidenceIsHydratedWhen(rows: seq<Tx>, base: State, k: nat)
    requires IsReplayedFrom(rows, k)
    ensures Hydrated(rows, base).evidenceNonEmpty <==>
              ReplayBase(rows, base).evidenceNonEmpty || exists i :: k <= i < |rows| && rows[i].txType == "evidence"
  {
    hide AfterLastCheckpoint, Fold, ReplayBase, LastGoal, LastEvidence, AnySuccess;
    ReplayedFromIs(rows, k);
    FoldIs(ReplayBase(rows, base), rows[k..]);
    LastEvidenceWhen(rows[k..]);
    if i :| k <= i < |rows| && rows[i].txType == "evidence" {
      assert rows[k..][i - k].txType == "evidence";
    }
    if i :| 0 <= i < |rows[k..]| && rows[k..][i].txType == "evidence" {
      assert rows[k + i].txType == "evidence";
    }
  }

  lemma {:induction false} FirstDigitCounts(t: string)
    requires t != [] && AllDigits(t)
    ensures DecimalValue(t) >= DigitValue(t[0])
  {
    if |t| > 1 {
      FirstDigitCounts(t[..|t| - 1]);
    }
  }

  // Zero has one text.
  lemma ZeroText(t: string)
    requires IsNumber(t)
    ensures IntValue(t) == Some(0) <==> t == "0"
  {
    if IntValue(t) == Some(0) {
      FirstDigitCounts(t);
    }
    assert DecimalValue("0") == 0;
  }

  // The row reports a success in one of two ways.
  predicate ReportsSuccess(payload: Json) {
    HasField(payload, "success", Bool(true)) || HasField(payload, "exit_code", Num("0"))
  }

  lemma SuccessIsReported(payload: Json)
    requires IsWellFormed(payload)
    ensures ImpliesSuccess(payload) <==> ReportsSuccess(payload)
  {
    hide IsNumber, IntValue;
    if payload.Obj? && Get(payload.members, "exit_code").Some? && Get(payload.members, "exit_code").value.Num? {
      var i := MemberOfGet(payload.members, "exit_code");
      ZeroText(payload.members[i].value.text);
    }
  }

  /** There is a verification when the replay started with one, or an evidence row follows that says `success` or has
      exit code zero: either is enough, and nothing takes it back. */
  lemma VerificationIsHydratedWhen(rows: seq<Tx>, base: State, k: nat)
    requires IsReplayedFrom(rows, k) && AreRows(rows)
    ensures Hydrated(rows, base).verified <==>
              || ReplayBase(rows, base).verified
              || exists i :: k <= i < |rows| && rows[i].txType == "evidence" && ReportsSuccess(rows[i].payload)
  {
    hide AfterLastCheckpoint, Fold, ReplayBase, LastGoal, LastEvidence, ImpliesSuccess, ReportsSuccess, IsWellFormed;
    ReplayedFromIs(rows, k);
    FoldIs(ReplayBase(rows, base), rows[k..]);
    forall i | 0 <= i < |rows| ensures ImpliesSuccess(rows[i].payload) <==> ReportsSuccess(rows[i].payload) {
      SuccessIsReported(rows[i].payload);
    }
    if i :| k <= i < |rows| && rows[i].txType == "evidence" && ReportsSuccess(rows[i].payload) {
      assert IsEvidence(rows[k..][i - k]) && ImpliesSuccess(rows[k..][i - k].payload);
    }
    if i :| 0 <= i < |rows[k..]| && IsEvidence(rows[k..][i]) && ImpliesSuccess(rows[k..][i].payload) {
      assert rows[k + i].txType == "evidence" && ReportsSuccess(rows[k + i].payload);
    }
  }
}
