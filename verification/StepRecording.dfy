/** Recording a step in both ledgers: its entry goes to the step ledger and, when it is new there, a row to the task ledger. */
module StepRecording {
  import opened Wrappers
  import opened Json
  import opened Jsonl
  import opened JsonlLaws
  import opened JsonScanner
  import opened ScannerLaws
  import opened TaskLedger
  import opened LedgerRows
  import opened LedgerAppend
  import AppendLaws
  import opened LedgerRuns
  import opened LedgerLock
  import opened LedgerLockLaws
  import opened StepLedger
  import opened StepLedgerLaws

  // A step without a key gets the empty key.
  function StepTx(entry: seq<Member>, key: Option<string>, now: string): Tx {
    Tx(now, "step", Obj(entry), Some(if key.Some? then key.value else []), None, Some(1), None)
  }

  /** The critical section of a step append. */
  method RecordStep(steps: File, ledger: File, h: Hasher, entry: seq<Member>, key: Option<string>, p: Physical, now: string) returns (changed: bool)
    requires steps != ledger
    modifies steps, ledger
    ensures (changed, steps.content) == AfterEntry(old(steps.content), entry, key)
    ensures ledger.content ==
              if changed then Some(AfterAppend(h, old(ledger.content), StepTx(entry, key, now), p, now)) else old(ledger.content)
  {
    hide AfterEntry, AfterAppend;
    changed := AppendJsonlEntry(steps, entry, key);
    if changed {
      AppendTransactionAssumingL1Held(ledger, h, StepTx(entry, key, now), p, now);
    }
  }

  // The entry stores its key, or null when it has none.
  ghost predicate IsStep(entry: seq<Member>, key: Option<string>) {
    && IsEntry(entry)
    && Get(entry, "idempotency_key") == Some(if key.Some? then Str(key.value) else Null)
    && (key.Some? ==> Trim(key.value) != [] && HasNoControl(key.value))
  }

  // Every key of the step ledger is in the task ledger, whose snapshot rows have none.
  ghost predicate IsConsistent(h: Hasher, objects: seq<seq<Member>>, rows: seq<Tx>) {
    && AreEntries(objects) && IsKept(h, rows)
    && (forall k :: IsKeptApart(rows, k))
    && forall k :: IsSeen(objects, k) ==> HasLastingKey(rows, k)
  }

  // The rows after a step.
  ghost function RowsAfter(h: Hasher, changed: bool, rows: seq<Tx>, entry: seq<Member>, key: Option<string>, p: Physical, now: string): seq<Tx> {
    if changed then AppendRows(h, rows, StepTx(entry, key, now), p, now) else rows
  }

  // A row holds the whole step: its entry, its key or the empty one, and the time.
  ghost predicate HoldsStep(rows: seq<Tx>, entry: seq<Member>, key: Option<string>, now: string) {
    exists k :: 0 <= k < |rows| &&
      rows[k] == Tx(now, "step", Obj(entry), Some(if key.Some? then key.value else ""), rows[k].seqNo, Some(1), rows[k].chainHash)
  }

  /** A step whose key the task ledger has not seen gets a row there that holds it, whether a compaction follows or not. */
  lemma StepIsHeld(h: Hasher, rows: seq<Tx>, entry: seq<Member>, key: Option<string>, p: Physical, now: string)
    requires IsAccepted(rows, StepTx(entry, key, now))
    ensures HoldsStep(RowsAfter(h, true, rows, entry, key, p, now), entry, key, now)
  {
    hide AppendRows, IsAccepted;
    var tx := StepTx(entry, key, now);
    assert !AppendLaws.IsReplaceable(tx.txType);
    AppendLaws.LastingRowIsThere(h, rows, tx, p, now);
    var after := AppendRows(h, rows, tx, p, now);
    var k, n :| 0 <= k < |after| && AppendLaws.IsNumbered(after[k], tx, n);
    assert after[k].txType == "step";
  }

  lemma SeenInMore(objects: seq<seq<Member>>, entry: seq<Member>, k: string)
    ensures IsSeen(objects + [entry], k) <==> IsSeen(objects, k) || Matches(Get(entry, KEY), k)
  {
    hide Matches, Get;
    var more := objects + [entry];
    assert more[|objects|] == entry;
    if i :| 0 <= i < |objects| && Matches(Get(objects[i], KEY), k) {
      assert more[i] == objects[i];
    }
  }

  lemma StepTxIsNew(entry: seq<Member>, key: Option<string>, p: Physical, now: string)
    requires IsStep(entry, key) && IsWellFormed(p.goal)
    ensures var tx := StepTx(entry, key, now);
            IsNewTx(tx, p) && !IsSnapshot(tx) && tx.key == Some(if key.Some? then key.value else [])
  {
    hide Get;
  }

  lemma StepMatches(entry: seq<Member>, key: Option<string>, k: string)
    requires IsStep(entry, key)
    ensures Matches(Get(entry, KEY), k) <==> key == Some(k)
  {
    hide Get, Trim, IsEntry, Misread;
    if key.Some? {
      MisreadIsHarmless(key.value);
    }
  }

  lemma RecordingKeepsConsistent(h: Hasher, objects: seq<seq<Member>>, rows: seq<Tx>, entry: seq<Member>, key: Option<string>, p: Physical, now: string)
    requires IsConsistent(h, objects, rows) && IsStep(entry, key) && IsWellFormed(p.goal)
    ensures IsConsistent(h, objects + [entry], RowsAfter(h, true, rows, entry, key, p, now))
    ensures key.Some? ==> IsSeen(objects + [entry], key.value)
  {
    hide IsKeptApart, IsSeen, HasLastingKey, AppendRows, IsKept, Matches, IsNewTx, IsSnapshot, IsStep, IsEntry, StepTx, Get;
    StepTxIsNew(entry, key, p, now);
    var tx := StepTx(entry, key, now);
    AppendKeeps(h, rows, tx, p, now);
    var after := AppendRows(h, rows, tx, p, now);
    forall k ensures IsKeptApart(after, k) && (IsSeen(objects + [entry], k) ==> HasLastingKey(after, k)) {
      AppendRecords(h, rows, Request(tx, p, now), k);
      SeenInMore(objects, entry, k);
      StepMatches(entry, key, k);
    }
    if key.Some? {
      SeenInMore(objects, entry, key.value);
      StepMatches(entry, key, key.value);
    }
    OneMoreEntry(objects, entry, key);
  }

  lemma OneMoreEntry(objects: seq<seq<Member>>, entry: seq<Member>, key: Option<string>)
    requires AreEntries(objects) && IsStep(entry, key)
    ensures AreEntries(objects + [entry])
  {
    hide IsEntry, Get;
  }

  // The file is missing, or holds whole rows and possibly a corrupt tail.
  ghost predicate HoldsRows(file: Option<string>, rows: seq<Tx>) {
    if file.None? then rows == []
    else exists junk :: NoneValid(Lines(junk)) && file.value == Render(rows) + junk
  }

  lemma RowGoesIn(h: Hasher, file: Option<string>, rows: seq<Tx>, tx: Tx, p: Physical, now: string)
    requires AreRows(rows) && IsRow(tx) && IsWellFormed(p.goal) && HoldsRows(file, rows)
    ensures AfterAppend(h, file, tx, p, now) == Render(AppendRows(h, rows, tx, p, now))
  {
    hide AppendRows, AfterAppend, Render, NoneValid, Lines, AreRows, IsRow;
    if file.Some? {
      var junk :| NoneValid(Lines(junk)) && file.value == Render(rows) + junk;
      AppendActsOnRows(h, rows, junk, tx, p, now);
    } else {
      FirstAppendActsOnRows(h, tx, p, now);
    }
  }

  /** A step with a key is in both ledgers afterwards: it is added to both, or its key was in both already. The ledgers
      stay consistent, whether the files are missing, whole or have a corrupt tail; a row that is added to the task ledger
      holds the whole step; and a key that JSON does not escape is in one row there at most, if it was before. */
  lemma StepIsInBothLedgers(h: Hasher, steps: Option<string>, objects: seq<seq<Member>>, ledger: Option<string>, rows: seq<Tx>,
                            entry: seq<Member>, key: string, p: Physical, now: string)
    requires IsConsistent(h, objects, rows) && IsStep(entry, Some(key)) && IsWellFormed(p.goal)
    requires HoldsEntries(steps, objects) && HoldsRows(ledger, rows)
    ensures var (changed, steps') := AfterEntry(steps, entry, Some(key));
            var entries := if changed then objects + [entry] else objects;
            var after := RowsAfter(h, changed, rows, entry, Some(key), p, now);
            && changed == !IsSeen(objects, key)
            && steps' == Some(PrintLines(entries))
            && (changed ==> AfterAppend(h, ledger, StepTx(entry, Some(key), now), p, now) == Render(after))
            && IsConsistent(h, entries, after)
            && IsSeen(entries, key) && HasLastingKey(after, key)
            && (changed && IsAccepted(rows, StepTx(entry, Some(key), now)) ==> HoldsStep(after, entry, Some(key), now))
            && (IsPlainKey(key) && IsNotShared(rows, key) ==> IsNotShared(after, key))
  {
    hide IsSeen, HasLastingKey, AppendRows, IsKeptApart, AfterAppend, AfterEntry, Render, PrintLines, IsNewTx, IsSnapshot,
         WellChained, WellNumbered, AreRows, Trim, IsEntry, Get, IsRow, HoldsEntries, HoldsRows, IsNotShared, IsPlainKey, IsAccepted, HoldsStep;
    EntryGoesIn(steps, objects, entry, key);
    StepTxIsNew(entry, Some(key), p, now);
    var tx := StepTx(entry, Some(key), now);
    NewTxIsRow(tx, p);
    RowGoesIn(h, ledger, rows, tx, p, now);
    RecordingKeepsConsistent(h, objects, rows, entry, Some(key), p, now);
    if IsPlainKey(key) && IsNotShared(rows, key) {
      AppendSharesNoKey(h, rows, tx, p, now, key);
    }
    if IsAccepted(rows, tx) {
      StepIsHeld(h, rows, entry, Some(key), p, now);
    }
  }

  lemma NewTxIsRow(tx: Tx, p: Physical)
    requires IsNewTx(tx, p)
    ensures IsRow(tx) && IsWellFormed(p.goal)
  {
  }

  lemma EmptyKeyIsNew(rows: seq<Tx>, entry: seq<Member>, now: string)
    requires IsKeptApart(rows, []) && !HasLastingKey(rows, [])
    ensures IsAccepted(rows, StepTx(entry, None, now))
  {
    hide PrintTx, Contains;
  }

  /** A step without a key is reported as added to the step ledger, whatever that file holds, but the task ledger
      takes it only when no row has the empty key yet: of all the steps without a key it keeps the first. */
  lemma KeylessStepIsTakenWhen(h: Hasher, steps: Option<string>, rows: seq<Tx>, entry: seq<Member>, p: Physical, now: string)
    requires IsKept(h, rows) && IsKeptApart(rows, []) && IsStep(entry, None) && IsWellFormed(p.goal)
    ensures AfterEntry(steps, entry, None).0
    ensures RowsAfter(h, true, rows, entry, None, p, now) != rows <==> !HasLastingKey(rows, [])
    ensures HasLastingKey(RowsAfter(h, true, rows, entry, None, p, now), [])
    ensures !HasLastingKey(rows, []) ==> HoldsStep(RowsAfter(h, true, rows, entry, None, p, now), entry, None, now)
  {
    hide HasLastingKey, AppendRows, IsAccepted, HoldsStep, IsKeptApart, IsSnapshot, IsKept, IsEntry, Get, Repaired, AfterCompaction, Print;
    StepTxIsNew(entry, None, p, now);
    AppendRecords(h, rows, Request(StepTx(entry, None, now), p, now), []);
    if HasLastingKey(rows, []) {
      LastingKeyStays(h, rows, StepTx(entry, None, now), p, now, []);
    } else {
      EmptyKeyIsNew(rows, entry, now);
      StepIsHeld(h, rows, entry, None, p, now);
    }
  }
}
