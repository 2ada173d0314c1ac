/** Whole histories of a ledger file: appends, corrupt tails torn onto it, and repairs, in any order. */
module LedgerHistory {
  import opened Wrappers
  import opened Jsonl
  import opened JsonlLaws
  import opened TaskLedger
  import opened LedgerRows
  import opened LedgerAppend
  import opened LedgerRuns

  datatype Event =
    | Append(tx: Tx, physical: Physical, now: string)
    | Tear(junk: string)
    | Repair

  // Junk is torn onto the file when it brings no valid line with it.
  ghost predicate IsStep(h: Hasher, before: Option<string>, e: Event, after: Option<string>) {
    match e
    case Append(tx, p, now) => IsNewTx(tx, p) && after == Some(AfterAppend(h, before, tx, p, now))
    case Tear(junk) =>
      before.Some? && after == Some(before.value + junk) && Repaired(before.value + junk) == Repaired(before.value)
    case Repair => after == if before.Some? then Some(Repaired(before.value)) else None
  }

  /** A history starts without a file. */
  ghost predicate IsHistory(h: Hasher, files: seq<Option<string>>, events: seq<Event>) {
    && |files| == |events| + 1
    && files[0] == None
    && forall n :: 0 <= n < |events| ==> IsStep(h, files[n], events[n], files[n + 1])
  }

  function RowsIn(file: Option<string>): seq<Tx> {
    if file.Some? then Rows(file.value) else []
  }

  // Whole printed rows and then, possibly, junk.
  ghost predicate IsLedgerFile(h: Hasher, file: Option<string>) {
    IsKept(h, RowsIn(file)) && (file.Some? ==> Repaired(file.value) == Render(RowsIn(file)))
  }

  lemma {:induction false} RowsOfRowLines(rows: seq<Tx>)
    requires AreRows(rows)
    ensures RowsOf(RowLines(rows)) == rows
  {
    hide PrintTx, ReadTx, Trim, IsRow, RowLines;
    if rows != [] {
      var n := |rows| - 1;
      RowsOfRowLines(rows[..n]);
      RowLinesFront(rows);
      LineOfRow(rows, n);
    } else {
      NoRowLines();
    }
  }

  lemma RowsOfRender(rows: seq<Tx>, junk: string)
    requires AreRows(rows) && NoneValid(Lines(junk))
    ensures Rows(Render(rows) + junk) == rows && Repaired(Render(rows) + junk) == Render(rows)
  {
    hide Render, RowLines, AreRows, Lines, NoneValid;
    RowsAreValid(rows, junk);
    LinesOfRender(rows);
    RowsOfRowLines(rows);
  }

  lemma RenderIsLedgerFile(h: Hasher, rows: seq<Tx>)
    requires IsKept(h, rows)
    ensures IsLedgerFile(h, Some(Render(rows))) && RowsIn(Some(Render(rows))) == rows
  {
    RowsOfRender(rows, []);
    assert Render(rows) + [] == Render(rows);
  }

  /** One event: the file stays a ledger file, and its rows change as the row-level append says or not at all. */
  lemma StepKeeps(h: Hasher, before: Option<string>, e: Event, after: Option<string>)
    requires IsLedgerFile(h, before) && IsStep(h, before, e, after)
    ensures IsLedgerFile(h, after)
    ensures RowsIn(after) == if e.Append? then AppendRows(h, RowsIn(before), e.tx, e.physical, e.now) else RowsIn(before)
  {
    hide WellChained, WellNumbered, AreRows, Render, NoneValid, AppendRows, Lines, IsRow, Repaired, RowsOf;
    var rows := RowsIn(before);
    match e {
      case Append(tx, p, now) =>
        if before.Some? {
          var junk := JunkBehind(before.value);
          AppendActsOnRows(h, rows, junk, tx, p, now);
        } else {
          FirstAppendActsOnRows(h, tx, p, now);
        }
        AppendKeeps(h, rows, tx, p, now);
        RenderIsLedgerFile(h, AppendRows(h, rows, tx, p, now));
      case Tear(junk) =>
      case Repair =>
        if before.Some? {
          RenderIsLedgerFile(h, rows);
        }
    }
  }

  lemma {:induction false} FileIsKept(h: Hasher, files: seq<Option<string>>, events: seq<Event>, n: nat)
    requires IsHistory(h, files, events) && n < |files|
    ensures IsLedgerFile(h, files[n])
  {
    if n == 0 {
    } else {
      FileIsKept(h, files, events, n - 1);
      assert IsStep(h, files[n - 1], events[n - 1], files[n]);
      StepKeeps(h, files[n - 1], events[n - 1], files[n]);
    }
  }

  /** In every state of every history, whatever the keys, the rows are hash-chained from "genesis" and their
      numbers never fall and rise at every row that is not a checkpoint. */
  lemma HistoriesAreKept(h: Hasher, files: seq<Option<string>>, events: seq<Event>)
    requires IsHistory(h, files, events)
    ensures forall n :: 0 <= n < |files| ==> WellChained(h, RowsIn(files[n])) && WellNumbered(RowsIn(files[n]))
  {
    hide IsStep, WellChained, WellNumbered, RowsIn, AreRows;
    forall n | 0 <= n < |files| ensures IsKept(h, RowsIn(files[n])) {
      FileIsKept(h, files, events, n);
    }
  }

  /** A key that JSON does not escape is never in two rows, in any state of any history. */
  lemma {:induction false} NoKeyIsShared(h: Hasher, files: seq<Option<string>>, events: seq<Event>, n: nat, key: string)
    requires IsHistory(h, files, events) && n < |files| && IsPlainKey(key)
    ensures IsNotShared(RowsIn(files[n]), key)
  {
    hide IsStep, IsNotShared, RowsIn, AppendRows, WellChained, WellNumbered, IsPlainKey;
    if n > 0 {
      NoKeyIsShared(h, files, events, n - 1, key);
      FileIsKept(h, files, events, n - 1);
      assert IsStep(h, files[n - 1], events[n - 1], files[n]);
      var e := events[n - 1];
      StepKeeps(h, files[n - 1], e, files[n]);
      if e.Append? {
        AppendSharesNoKey(h, RowsIn(files[n - 1]), e.tx, e.physical, e.now, key);
      }
    } else {
      NothingIsShared(key);
    }
  }

  lemma NothingIsShared(key: string)
    ensures IsNotShared(RowsIn(None), key)
  {
  }

  lemma {:induction false} KeyStaysRecorded(h: Hasher, files: seq<Option<string>>, events: seq<Event>, m: nat, n: nat, key: string)
    requires IsHistory(h, files, events) && m <= n < |files| && HasLastingKey(RowsIn(files[m]), key)
    ensures HasLastingKey(RowsIn(files[n]), key)
    decreases n
  {
    hide IsStep, HasLastingKey, RowsIn, AppendRows, IsKept;
    if m < n {
      KeyStaysRecorded(h, files, events, m, n - 1, key);
      FileIsKept(h, files, events, n - 1);
      assert IsStep(h, files[n - 1], events[n - 1], files[n]);
      var e := events[n - 1];
      StepKeeps(h, files[n - 1], e, files[n]);
      if e.Append? {
        LastingKeyStays(h, RowsIn(files[n - 1]), e.tx, e.physical, e.now, key);
      }
    }
  }

  /** Idempotence over time: once a key that JSON does not escape is recorded in a row that is not a snapshot,
      every later append with that key leaves the rows as they are, whatever happened in between. */
  lemma AppendsAreIdempotent(h: Hasher, files: seq<Option<string>>, events: seq<Event>, m: nat, n: nat, key: string)
    requires IsHistory(h, files, events) && m <= n < |events| && HasLastingKey(RowsIn(files[m]), key) && IsPlainKey(key)
    requires events[n].Append? && events[n].tx.key == Some(key)
    ensures RowsIn(files[n + 1]) == RowsIn(files[n])
  {
    hide IsStep, HasLastingKey, RowsIn, AppendRows, IsKept, IsPlainKey;
    KeyStaysRecorded(h, files, events, m, n, key);
    FileIsKept(h, files, events, n);
    var e := events[n];
    assert IsStep(h, files[n], e, files[n + 1]);
    StepKeeps(h, files[n], e, files[n + 1]);
    LastingKeyStays(h, RowsIn(files[n]), e.tx, e.physical, e.now, key);
  }

  /** Recomputing the hashes of a ledger text changes nothing exactly when its rows are well chained. */
  lemma PatchIsIdentityWhen(h: Hasher, rows: seq<Tx>)
    requires AreRows(rows) && rows != []
    ensures Patched(h, Render(rows)) == Render(rows) <==> WellChained(h, rows)
  {
    LinesOfRender(rows);
    RowLinesFront(rows);
    forall i | 0 <= i < |rows|
      ensures Trim(RowLines(rows)[i]) != [] && ReadTx(Trim(RowLines(rows)[i])) == Some(rows[i])
    {
      LineOfRow(rows, i);
    }
    PatchedReads(h, Render(rows), rows);
    RechainedAreRows(h, rows);
    RowsOfRender(rows, []);
    RowsOfRender(Rechained(h, rows), []);
    assert Render(rows) + [] == Render(rows) && Render(Rechained(h, rows)) + [] == Render(Rechained(h, rows));
    RechainingIsIdentityWhen(h, rows);
  }

  /** A text with a line that is neither blank nor a row is left as it is. */
  lemma UnreadableLineStopsRehashing(h: Hasher, content: string, i: nat)
    requires i < |Lines(content)| && Trim(Lines(content)[i]) != [] && ReadTx(Trim(Lines(content)[i])).None?
    ensures Patched(h, content) == content
  {
    hide ReadTx, PrintTx, ChainHash, Trim, Lines;
    var lines := Lines(content);
    assert lines[..i + 1][..i] == lines[..i];
    FailsFromThen(h, lines, i + 1);
  }
}
