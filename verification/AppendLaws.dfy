/** What an append writes, row by row and field by field. */
module AppendLaws {
  import opened Wrappers
  import opened Places
  import opened Strings
  import opened Json
  import opened Jsonl
  import opened JsonlLaws
  import opened TaskLedger
  import opened LedgerRows
  import opened LedgerAppend
  import opened LedgerRuns

  // The types of which only the last row is kept.
  predicate IsReplaceable(txType: string) {
    txType == "goal_state" || txType == "rfv_loop_state" || txType == "quality_gate_state" || txType == "evidence"
  }

  // A later row of the same replaceable type makes the row superfluous.
  ghost predicate IsReplaced(rows: seq<Tx>, i: nat)
    requires i < |rows|
  {
    IsReplaceable(rows[i].txType) && exists j :: i < j < |rows| && rows[j].txType == rows[i].txType
  }

  lemma ReplacedIsStale(rows: seq<Tx>, i: nat)
    requires i < |rows|
    ensures IsReplaced(rows, i) <==> IsStale(rows, i)
  {
  }

  /** A compaction is due exactly above three hundred rows of which one is replaced. */
  lemma CompactionIsDueWhen(rows: seq<Tx>)
    ensures NeedsCompaction(rows) <==> |rows| > 300 && exists i :: 0 <= i < |rows| && IsReplaced(rows, i)
  {
    hide IsStale, IsReplaced, KeptRows;
    if |KeptRows(rows, |rows|)| < |rows| {
      DroppedMeansStale(rows, |rows|);
      var i :| 0 <= i < |rows| && IsStale(rows, i);
      ReplacedIsStale(rows, i);
    }
    if i :| 0 <= i < |rows| && IsReplaced(rows, i) {
      ReplacedIsStale(rows, i);
      StaleIsDropped(rows, |rows|, i);
    }
  }

  // The row with this number, whatever its hash.
  predicate IsNumbered(r: Tx, tx: Tx, n: nat) {
    r == tx.(seqNo := Some(n), chainHash := r.chainHash)
  }

  /** An append that is no duplicate, when no compaction is due, keeps every row, adds its own with the next number, and
      behind every hundredth row a checkpoint: of type `state_checkpoint`, with the number of the row before it, no key, and the
      captured state. */
  lemma AppendAddsRows(h: Hasher, rows: seq<Tx>, tx: Tx, p: Physical, now: string)
    requires IsAccepted(rows, tx) && !NeedsCompaction(WithRow(h, rows, tx))
    ensures var after, n := AppendRows(h, rows, tx, p, now), |rows|;
            var captured := Obj([Member("evidence", Obj([Member("evidence_rows_non_empty", Bool(p.evidenceNonEmpty)),
                                                         Member("has_successful_verification", Bool(p.verified))])),
                                 Member("goal_state", p.goal)]);
            && |after| == (if n > 0 && n % 100 == 0 then n + 2 else n + 1)
            && after[..n] == rows && IsNumbered(after[n], tx, n)
            && (|after| == n + 2 ==> IsNumbered(after[n + 1], Tx(now, "state_checkpoint", captured, None, None, Some(1), None), n))
  {
    hide PrintTx, ChainHash, HasRowKey, LastRowHash, KeptRows;
  }

  lemma {:induction false} KeptIndices(rows: seq<Tx>, n: nat) returns (at: seq<nat>)
    requires n <= |rows|
    ensures ArePicked(KeptRows(rows, n), rows, at) && AreBelow(at, n)
    ensures forall i :: 0 <= i < n ==> (i in at <==> !IsStale(rows, i))
  {
    hide IsStale, ArePicked, AreBelow;
    if n == 0 {
      PickNothing(rows);
      at := [];
    } else {
      at := KeptIndices(rows, n - 1);
      PickOneMore(KeptRows(rows, n - 1), rows, at, n - 1);
      if IsStale(rows, n - 1) {
        assert KeptRows(rows, n) == KeptRows(rows, n - 1);
      } else {
        assert KeptRows(rows, n) == KeptRows(rows, n - 1) + [rows[n - 1]];
        at := at + [n - 1];
      }
    }
  }

  /** A compaction keeps, in their order, exactly the rows that are not replaced, changes nothing but their numbers, which
      become 0, 1, 2, ..., and their hashes. */
  lemma CompactedRowsAre(h: Hasher, rows: seq<Tx>) returns (at: seq<nat>)
    ensures var out := Rechained(h, RenumberedRows(KeptRows(rows, |rows|)));
            && |out| == |at|
            && (forall k :: 0 <= k < |at| ==> at[k] < |rows| && IsNumbered(out[k], rows[at[k]], k))
    ensures forall j, k :: 0 <= j < k < |at| ==> at[j] < at[k]
    ensures forall i :: 0 <= i < |rows| ==> (i in at <==> !IsReplaced(rows, i))
  {
    hide PrintTx, ChainHash, KeptRows, IsStale, IsReplaced;
    at := KeptIndices(rows, |rows|);
    var kept := RenumberedRows(KeptRows(rows, |rows|));
    forall k | 0 <= k < |at| ensures IsNumbered(Rechained(h, kept)[k], rows[at[k]], k) {
      RechainedAt(h, kept, k);
    }
    forall i | 0 <= i < |rows| ensures i in at <==> !IsReplaced(rows, i) {
      ReplacedIsStale(rows, i);
    }
  }

  /** An append that is no duplicate, when a compaction is due, leaves such a ledger, without any checkpoint of its own. */
  lemma AppendCompacts(h: Hasher, rows: seq<Tx>, tx: Tx, p: Physical, now: string) returns (more: seq<Tx>, at: seq<nat>)
    requires IsAccepted(rows, tx) && NeedsCompaction(WithRow(h, rows, tx))
    ensures |more| == |rows| + 1 && more[..|rows|] == rows && IsNumbered(more[|rows|], tx, |rows|)
    ensures var after := AppendRows(h, rows, tx, p, now);
            |after| == |at| && forall k :: 0 <= k < |at| ==> at[k] < |more| && IsNumbered(after[k], more[at[k]], k)
    ensures forall j, k :: 0 <= j < k < |at| ==> at[j] < at[k]
    ensures forall i :: 0 <= i < |more| ==> (i in at <==> !IsReplaced(more, i))
  {
    hide PrintTx, ChainHash, HasRowKey, LastRowHash, KeptRows, Rechained, RenumberedRows, NeedsCompaction, IsReplaced, IsNumbered;
    more := WithRow(h, rows, tx);
    NewRowIsNumbered(h, rows, tx);
    at := CompactedRowsAre(h, more);
  }

  lemma NewRowIsNumbered(h: Hasher, rows: seq<Tx>, tx: Tx)
    ensures IsNumbered(WithRow(h, rows, tx)[|rows|], tx, |rows|)
  {
    hide PrintTx, ChainHash, LastRowHash;
  }

  /** Whether compacted or not, a new row that is no snapshot is there afterwards, with all it was given. */
  lemma LastingRowIsThere(h: Hasher, rows: seq<Tx>, tx: Tx, p: Physical, now: string)
    requires IsAccepted(rows, tx) && !IsReplaceable(tx.txType)
    ensures var after := AppendRows(h, rows, tx, p, now);
            exists k, n :: 0 <= k < |after| && IsNumbered(after[k], tx, n)
  {
    hide PrintTx, ChainHash, HasRowKey, LastRowHash, KeptRows, Rechained, RenumberedRows, NeedsCompaction, AppendRows, WithRow;
    if NeedsCompaction(WithRow(h, rows, tx)) {
      var more, at := AppendCompacts(h, rows, tx, p, now);
      assert !IsReplaced(more, |rows|);
      var k :| 0 <= k < |at| && at[k] == |rows|;
      assert IsNumbered(AppendRows(h, rows, tx, p, now)[k], tx, k);
    } else {
      AppendAddsRows(h, rows, tx, p, now);
      assert IsNumbered(AppendRows(h, rows, tx, p, now)[|rows|], tx, |rows|);
    }
  }

  // --- counting and tears -----------------------------------------------------------------------

  predicate StartsWithBrace(t: string) {
    t != [] && t[0] == '{'
  }

  // The lines that start with a brace.
  function Braces(lines: seq<string>): set<int> {
    set i | 0 <= i < |lines| && StartsWithBrace(Trim(lines[i]))
  }

  lemma OneMoreBrace(lines: seq<string>)
    requires lines != []
    ensures var n := |lines| - 1;
            n !in Braces(lines[..n]) && Braces(lines) == Braces(lines[..n]) + (if StartsWithBrace(Trim(lines[n])) then {n} else {})
  {
    hide Trim, StartsWithBrace;
    var n := |lines| - 1;
    forall i ensures i in Braces(lines) <==> i in Braces(lines[..n]) || (i == n && StartsWithBrace(Trim(lines[n]))) {
      if 0 <= i < n {
        assert lines[..n][i] == lines[i];
      }
    }
  }

  /** The next number is the number of lines that start with a brace, rows or not. */
  lemma {:induction false} CountIs(lines: seq<string>)
    ensures CountRows(lines) == |Braces(lines)|
  {
    hide Trim;
    if lines != [] {
      CountIs(lines[..|lines| - 1]);
      OneMoreBrace(lines);
    }
  }

  // Two lists of lines that differ in white space around the last line only.
  lemma LastLineTrimmed(front: seq<string>, a: string, b: string, key: string)
    requires Trim(a) == Trim(b)
    ensures LastHash(front + [a]) == LastHash(front + [b]) && CountRows(front + [a]) == CountRows(front + [b])
    ensures HasKey(front + [a], key) <==> HasKey(front + [b], key)
  {
    hide Trim, ReadTx, Contains;
    assert (front + [a])[..|front|] == front && (front + [b])[..|front|] == front;
    forall i | 0 <= i <= |front| ensures LineHasKey((front + [a])[i], key) <==> LineHasKey((front + [b])[i], key) {
    }
    if HasKey(front + [a], key) {
      var i :| 0 <= i <= |front| && LineHasKey((front + [a])[i], key);
      assert LineHasKey((front + [b])[i], key);
    }
    if HasKey(front + [b], key) {
      var i :| 0 <= i <= |front| && LineHasKey((front + [b])[i], key);
      assert LineHasKey((front + [a])[i], key);
    }
  }

  lemma TornLines(rows: seq<Tx>, t: string)
    requires AreRows(rows) && rows != [] && t + ['\n'] == Render(rows)
    ensures var front := Lines(Render(rows[..|rows| - 1])); var p := PrintTx(rows[|rows| - 1]);
            && Lines(t) == front + [p] && Lines(Render(rows)) == front + [p + ['\n']] && Trim(p) == Trim(p + ['\n'])
            && Repaired(t) == t && t != []
  {
    hide PrintTx, Lines, Render, IsRow, Parse, Trim, ReadTx, HasNoNewline, IsValidLine, LastValidEnd, RowTexts;
    var n := |rows| - 1;
    var front, p := Render(rows[..n]), PrintTx(rows[n]);
    RenderOneMore(rows[..n], rows[n]);
    assert rows[..n] + [rows[n]] == rows;
    RowText(rows[n]);
    TrimmedLineIsValid(p);
    assert (front + (p + ['\n']))[..|front + p|] == front + p;
    assert t == front + p;
    RenderEnds(rows[..n]);
    LinesConcat(front, p);
    LinesConcat(front, p + ['\n']);
    LinesOfOne(p);
    OneOpenLine(p);
    OpenLineEnd(front, p);
    EarlierLinesDoNotMatter(t, 0, |front|);
    assert t[..|t|] == t;
  }

  lemma TrimmedLineIsValid(p: string)
    requires Trim(p) == p && p != [] && Parse(p).Some?
    ensures IsValidLine(p)
  {
  }

  lemma RenderEnds(rows: seq<Tx>)
    ensures Render(rows) == [] || Render(rows)[|Render(rows)| - 1] == '\n'
  {
    hide PrintTx;
  }

  lemma OneOpenLine(p: string)
    requires p != [] && HasNoNewline(p)
    ensures Lines(p) == [p]
  {
    hide HasNoNewline;
    LineEndWithout(p, 0);
    assert p[0..|p|] == p && LinesFrom(p, |p|) == [];
    assert LinesFrom(p, 0) == [p[0..|p|]] + LinesFrom(p, |p|);
  }

  lemma TornLineGrows(t: string, line: string)
    requires t != []
    ensures WithLine(t, line) == WithLine(t + ['\n'], line)
  {
    assert (t + ['\n'])[..|t|] == t;
  }

  /** A tear exactly before the last newline costs the task ledger nothing: an append acts as on the whole rows, and a
      duplicate leaves the file as it is. */
  lemma TearBeforeNewlineIsHarmless(h: Hasher, rows: seq<Tx>, t: string, tx: Tx, p: Physical, now: string)
    requires AreRows(rows) && rows != [] && t + ['\n'] == Render(rows) && IsRow(tx) && IsWellFormed(p.goal)
    ensures AfterAppend(h, Some(t), tx, p, now) == if IsAccepted(rows, tx) then Render(AppendRows(h, rows, tx, p, now)) else t
  {
    hide PrintTx, Render, Lines, Repaired, HasKey, HasRowKey, LastHash, CountRows, AppendRows, IsRow, WithLine, Compacted, Patched,
         NeedsCheckpoint, Trim, RowLines, AreRows, IsWellFormed, CheckpointTx;
    var n := |rows| - 1;
    var front, last := Lines(Render(rows[..n])), PrintTx(rows[n]);
    TornLines(rows, t);
    var key := if tx.key.Some? then tx.key.value else [];
    LastLineTrimmed(front, last, last + ['\n'], key);
    LinesOfRender(rows);
    ScanFindsRowKey(rows, key);
    if IsAccepted(rows, tx) {
      TornLineGrows(t, RowFor(h, t, tx.(seqNo := Some(CountRows(Lines(t))))));
      SettledIsRows(h, rows, tx, p, now);
    }
  }
}
