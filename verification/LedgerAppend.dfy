/** Appending, on rows: what the file holds after an append, for a well-kept file with or without a corrupt tail. */
module LedgerAppend {
  import opened Wrappers
  import opened Strings
  import opened Json
  import opened Jsonl
  import opened JsonlLaws
  import opened CompactionLaws
  import opened TaskLedger
  import opened LedgerRows

  // --- reading the rows of a text ------------------------------------------------------

  function LastRowHash(rows: seq<Tx>): string {
    if rows == [] then GENESIS
    else if rows[|rows| - 1].chainHash.Some? && rows[|rows| - 1].chainHash.value != [] then rows[|rows| - 1].chainHash.value
    else LastRowHash(rows[..|rows| - 1])
  }

  lemma RowLinesFront(rows: seq<Tx>)
    requires rows != []
    ensures RowLines(rows)[..|rows| - 1] == RowLines(rows[..|rows| - 1]) && |RowLines(rows)| == |rows|
    ensures RowLines(rows)[|rows| - 1] == PrintTx(rows[|rows| - 1]) + ['\n']
  {
    hide PrintTx;
  }

  lemma {:induction false} LinesReadAsRows(rows: seq<Tx>)
    requires AreRows(rows)
    ensures LastHash(RowLines(rows)) == LastRowHash(rows)
    ensures CountRows(RowLines(rows)) == |rows|
    ensures Objects(RowLines(rows)) == TxMaps(rows) && Others(RowLines(rows)) == []
  {
    hide PrintTx, ReadTx, Parse, Trim, IsRow, RowLines, TxMap;
    if rows != [] {
      var n := |rows| - 1;
      LinesReadAsRows(rows[..n]);
      RowLinesFront(rows);
      LineOfRow(rows, n);
      assert TxMaps(rows) == TxMaps(rows[..n]) + [TxMap(rows[n])];
    } else {
      NoRowLines();
    }
  }

  lemma NoRowLines()
    ensures RowLines([]) == []
  {
  }

  /** Some row has the key, and its text contains the key as it stands. */
  ghost predicate HasRowKey(rows: seq<Tx>, key: string) {
    exists i :: 0 <= i < |rows| && rows[i].key == Some(key) && Contains(PrintTx(rows[i]), key)
  }

  /** The filtered reverse scan finds a key exactly when such a row exists. */
  lemma ScanFindsRowKey(rows: seq<Tx>, key: string)
    requires AreRows(rows)
    ensures HasKey(RowLines(rows), key) <==> HasRowKey(rows, key)
  {
    hide PrintTx, ReadTx, Trim, Contains, AreRows;
    forall i | 0 <= i < |rows|
      ensures LineHasKey(RowLines(rows)[i], key) <==> rows[i].key == Some(key) && Contains(PrintTx(rows[i]), key)
    {
      LineOfRow(rows, i);
    }
  }

  // --- compaction on rows ------------------------------------------------------------------

  function TxMaps(rows: seq<Tx>): (r: seq<seq<Member>>)
    ensures |r| == |rows| && forall i :: 0 <= i < |rows| ==> r[i] == TxMap(rows[i])
  {
    seq(|rows|, i requires 0 <= i < |rows| => TxMap(rows[i]))
  }

  predicate IsSnapshot(tx: Tx) {
    tx.txType in SNAPSHOT_TYPES
  }

  predicate IsStale(rows: seq<Tx>, i: nat)
    requires i < |rows|
  {
    IsSnapshot(rows[i]) && exists j :: i < j < |rows| && rows[j].txType == rows[i].txType
  }

  // The rows among the first n that no later row supersedes.
  function KeptRows(rows: seq<Tx>, n: nat): (r: seq<Tx>)
    requires n <= |rows|
    ensures |r| <= n
  {
    if n == 0 then [] else KeptRows(rows, n - 1) + (if IsStale(rows, n - 1) then [] else [rows[n - 1]])
  }

  lemma TypeOfMap(tx: Tx)
    ensures SnapshotType(TxMap(tx)) == if IsSnapshot(tx) then Some(tx.txType) else None
  {
    TxMapFields(tx);
  }

  lemma StaleIsSuperseded(rows: seq<Tx>, i: nat)
    requires i < |rows|
    ensures IsSuperseded(TxMaps(rows), i) <==> IsStale(rows, i)
  {
    forall k | 0 <= k < |rows| ensures SnapshotType(TxMaps(rows)[k]) == if IsSnapshot(rows[k]) then Some(rows[k].txType) else None {
      TypeOfMap(rows[k]);
    }
    if IsStale(rows, i) {
      var j :| i < j < |rows| && rows[j].txType == rows[i].txType;
      assert SnapshotType(TxMaps(rows)[j]) == SnapshotType(TxMaps(rows)[i]);
    }
  }

  lemma {:induction false} KeptAreSurvivors(rows: seq<Tx>, n: nat)
    requires n <= |rows|
    ensures Survivors(TxMaps(rows), n) == TxMaps(KeptRows(rows, n))
  {
    hide TxMap, IsStale, IsSuperseded;
    if n > 0 {
      KeptAreSurvivors(rows, n - 1);
      StaleIsSuperseded(rows, n - 1);
    }
  }

  predicate NeedsCompaction(rows: seq<Tx>) {
    |rows| > MAX_LINES && |KeptRows(rows, |rows|)| < |rows|
  }

  function RenumberedRows(rows: seq<Tx>): (r: seq<Tx>)
    ensures |r| == |rows| && forall i :: 0 <= i < |rows| ==> r[i] == rows[i].(seqNo := Some(i))
  {
    seq(|rows|, i requires 0 <= i < |rows| => rows[i].(seqNo := Some(i)))
  }

  lemma {:induction false} StaleIsDropped(rows: seq<Tx>, n: nat, i: nat)
    requires i < n <= |rows| && IsStale(rows, i)
    ensures |KeptRows(rows, n)| < n
  {
    hide IsStale;
    if i < n - 1 {
      StaleIsDropped(rows, n - 1, i);
    }
  }

  lemma {:induction false} DroppedMeansStale(rows: seq<Tx>, n: nat)
    requires n <= |rows| && |KeptRows(rows, n)| < n
    ensures exists i :: 0 <= i < |rows| && IsStale(rows, i)
  {
    hide IsStale;
    if !IsStale(rows, n - 1) {
      DroppedMeansStale(rows, n - 1);
    }
  }

  lemma CompactedRender(rows: seq<Tx>)
    requires AreRows(rows)
    ensures Compacted(Render(rows), MAX_LINES) ==
              if NeedsCompaction(rows) then Some(PrintLines(Renumbered(TxMaps(KeptRows(rows, |rows|))))) else None
  {
    hide PrintTx, Render, AreRows, TxMap, Objects, Others, Lines, RowLines, SnapshotType, IsStale, PrintLines,
         Survivors, KeptRows, Renumbered;
    LinesOfRender(rows);
    LinesReadAsRows(rows);
    KeptAreSurvivors(rows, |rows|);
    if |KeptRows(rows, |rows|)| < |rows| {
      DroppedMeansStale(rows, |rows|);
      var i :| 0 <= i < |rows| && IsStale(rows, i);
      StaleHasType(rows, i);
    }
    AppendNothing(PrintLines(Renumbered(TxMaps(KeptRows(rows, |rows|)))));
  }

  lemma AppendNothing(s: string)
    ensures s + JoinLines([]) == s
  {
  }

  lemma StaleHasType(rows: seq<Tx>, i: nat)
    requires i < |rows| && IsStale(rows, i)
    ensures SnapshotType(TxMaps(rows)[i]).Some?
  {
    TypeOfMap(rows[i]);
  }

  // A compacted row line reads as the row with its new number.
  lemma RenumberedLine(tx: Tx, n: nat)
    requires IsRow(tx)
    ensures var p := Print(Obj(WithSeq(TxMap(tx), n)));
            && HasNoNewline(p) && IsTrimmed(p) && Trim(p + ['\n']) == p && p != []
            && ReadTx(p) == Some(tx.(seqNo := Some(n)))
  {
    hide IsRow, Insert, IsSorted, ValuesWellFormed, Get, TxMap, TxOf, IsTrimmed, HasNoNewline, Trim, Print,
         IsNumber, TextOrNull;
    MapWellFormed(tx);
    var m := WithSeq(TxMap(tx), n);
    DecimalIsNumber(n);
    InsertKeepsSorted(TxMap(tx), "seq", Num(Decimal(n)));
    InsertKeepsValues(TxMap(tx), "seq", Num(Decimal(n)));
    ObjectLine(m);
    assert [] + m == m;
    InsertAllSorted([], m);
    TxMapFields(tx);
    FieldAfterSeq(TxMap(tx), n, "ts");
    FieldAfterSeq(TxMap(tx), n, "tx_type");
    FieldAfterSeq(TxMap(tx), n, "payload");
    FieldAfterSeq(TxMap(tx), n, "idempotency_key");
    FieldAfterSeq(TxMap(tx), n, "seq");
    FieldAfterSeq(TxMap(tx), n, "schema_version");
    FieldAfterSeq(TxMap(tx), n, "chain_hash");
    TxOfFields(m, tx.(seqNo := Some(n)));
    TrimmedNotEmpty(Print(Obj(m)));
  }

  lemma FieldAfterSeq(m: seq<Member>, n: nat, key: string)
    ensures Get(WithSeq(m, n), key) == if key == "seq" then Some(Num(Decimal(n))) else Get(m, key)
  {
    GetAfterInsert(m, "seq", Num(Decimal(n)), key);
  }

  lemma MapWellFormed(tx: Tx)
    requires IsRow(tx)
    ensures IsSorted(TxMap(tx)) && ValuesWellFormed(TxMap(tx))
  {
    hide IsRow, Parse, PrintTx, IsSorted, ValuesWellFormed, TxMap, Trim;
    RowText(tx);
    ParsedIsWellFormed(PrintTx(tx));
  }

  // --- rehashing on rows -------------------------------------------------------------------

  // The hash the next row is chained to.
  function Tip(rows: seq<Tx>): string {
    if rows == [] then GENESIS
    else if rows[|rows| - 1].chainHash.Some? then rows[|rows| - 1].chainHash.value else []
  }

  function Rechained(h: Hasher, rows: seq<Tx>): (r: seq<Tx>)
    ensures |r| == |rows|
  {
    if rows == [] then [] else
      var front := Rechained(h, rows[..|rows| - 1]);
      front + [Chained(h, Tip(front), rows[|rows| - 1].(chainHash := None))]
  }

  lemma {:induction false} RehashedReads(h: Hasher, lines: seq<string>, rows: seq<Tx>)
    requires |lines| == |rows|
    requires forall i :: 0 <= i < |rows| ==> Trim(lines[i]) != [] && ReadTx(Trim(lines[i])) == Some(rows[i])
    ensures Rehashed(h, lines, GENESIS) == Ok((Render(Rechained(h, rows)), Tip(Rechained(h, rows))))
  {
    hide PrintTx, ReadTx, Trim, ChainHash, Render;
    if rows == [] {
      EmptyRender();
    } else {
      var n := |rows| - 1;
      RehashedReads(h, lines[..n], rows[..n]);
      var front := Rechained(h, rows[..n]);
      RenderOneMore(front, Chained(h, Tip(front), rows[n].(chainHash := None)));
    }
  }

  lemma PatchedReads(h: Hasher, content: string, rows: seq<Tx>)
    requires |Lines(content)| == |rows| && rows != []
    requires forall i :: 0 <= i < |rows| ==> Trim(Lines(content)[i]) != [] && ReadTx(Trim(Lines(content)[i])) == Some(rows[i])
    ensures Patched(h, content) == Render(Rechained(h, rows))
  {
    hide PrintTx, ReadTx, Trim, ChainHash, Lines, Render;
    RehashedReads(h, Lines(content), rows);
  }

  lemma PatchedCompaction(h: Hasher, kept: seq<Tx>)
    requires AreRows(kept) && kept != []
    ensures Patched(h, PrintLines(Renumbered(TxMaps(kept)))) == Render(Rechained(h, RenumberedRows(kept)))
  {
    hide PrintTx, ReadTx, Trim, IsRow, PrintLines, Renumbered, Insert, TxMap, Patched, Lines, Print, HasNoNewline, IsTrimmed;
    var objects := Renumbered(TxMaps(kept));
    forall i | 0 <= i < |kept|
      ensures HasNoNewline(Texts(objects)[i])
      ensures Trim(WithNewlines(Texts(objects))[i]) != []
      ensures ReadTx(Trim(WithNewlines(Texts(objects))[i])) == Some(RenumberedRows(kept)[i])
    {
      RenumberedLine(kept[i], i);
    }
    PrintLinesIsJoin(objects);
    LinesOfJoin(Texts(objects));
    PatchedReads(h, PrintLines(objects), RenumberedRows(kept));
  }

  // --- appending on rows ----------------------------------------------------------------------

  // The append is not a duplicate.
  ghost predicate IsAccepted(rows: seq<Tx>, tx: Tx) {
    !(tx.key.Some? && HasRowKey(rows, tx.key.value))
  }

  // The rows with the new one, before any checkpoint or compaction.
  function WithRow(h: Hasher, rows: seq<Tx>, tx: Tx): seq<Tx> {
    rows + [Chained(h, LastRowHash(rows), tx.(seqNo := Some(|rows|)))]
  }

  /** The rows after an append, as a function of the rows before it. */
  ghost function AppendRows(h: Hasher, rows: seq<Tx>, tx: Tx, p: Physical, now: string): seq<Tx> {
    if !IsAccepted(rows, tx) then rows else
      var more := WithRow(h, rows, tx);
      if NeedsCompaction(more) then Rechained(h, RenumberedRows(KeptRows(more, |more|)))
      else if NeedsCheckpoint(|rows|) then more + [Chained(h, LastRowHash(more), CheckpointTx(p, now, |rows|))]
      else more
  }

  lemma ChainedIsRow(h: Hasher, prev: string, tx: Tx)
    requires IsRow(tx)
    ensures IsRow(Chained(h, prev, tx))
  {
    hide PrintTx;
  }

  lemma CheckpointIsRow(p: Physical, now: string, last: nat)
    requires IsWellFormed(p.goal)
    ensures IsRow(CheckpointTx(p, now, last))
  {
    var inner := [Member("evidence_rows_non_empty", Bool(p.evidenceNonEmpty)), Member("has_successful_verification", Bool(p.verified))];
    assert Less(inner[0].key, inner[1].key);
    assert IsWellFormed(Obj(inner));
    var outer := [Member("evidence", Obj(inner)), Member("goal_state", p.goal)];
    assert Less(outer[0].key, outer[1].key);
  }

  lemma {:induction false} KeptAreRows(rows: seq<Tx>, n: nat)
    requires AreRows(rows) && n <= |rows|
    ensures AreRows(KeptRows(rows, n))
  {
    hide IsRow, IsStale;
    if n > 0 {
      KeptAreRows(rows, n - 1);
    }
  }

  lemma {:induction false} RechainedAreRows(h: Hasher, rows: seq<Tx>)
    requires AreRows(rows)
    ensures AreRows(Rechained(h, rows))
  {
    hide PrintTx;
    if rows != [] {
      RechainedAreRows(h, rows[..|rows| - 1]);
    }
  }

  lemma OneMoreRow(rows: seq<Tx>, r: Tx)
    requires AreRows(rows) && IsRow(r)
    ensures AreRows(rows + [r])
  {
    hide IsRow;
  }

  lemma RenumberedAreRows(rows: seq<Tx>)
    requires AreRows(rows)
    ensures AreRows(RenumberedRows(rows))
  {
  }

  // One chained row appended to the text of some rows.
  lemma AppendChained(h: Hasher, rows: seq<Tx>, tx: Tx)
    requires AreRows(rows)
    ensures WithLine(Render(rows), RowFor(h, Render(rows), tx)) == Render(rows + [Chained(h, LastRowHash(rows), tx)])
  {
    hide PrintTx, Render, RowLines, AreRows, Lines, LastHash, LastRowHash, Chained, WithLine, Objects, Others, CountRows;
    LinesOfRender(rows);
    LinesReadAsRows(rows);
    AppendLine(rows, Chained(h, LastRowHash(rows), tx));
  }

  lemma SettledIsRows(h: Hasher, rows: seq<Tx>, tx: Tx, p: Physical, now: string)
    requires AreRows(rows) && IsRow(tx) && IsWellFormed(p.goal)
    requires !(tx.key.Some? && HasRowKey(rows, tx.key.value))
    ensures Settled(h, Render(rows), tx, p, now) == Render(AppendRows(h, rows, tx, p, now))
  {
    hide PrintTx, Render, RowLines, Lines, LastHash, LastRowHash, WithLine, Objects, Others, CountRows, Compacted,
         Patched, RowFor, HasRowKey, CheckpointTx, Rechained;
    var n := |rows|;
    LinesOfRender(rows);
    LinesReadAsRows(rows);
    var more := rows + [Chained(h, LastRowHash(rows), tx.(seqNo := Some(n)))];
    AppendChained(h, rows, tx.(seqNo := Some(n)));
    ChainedIsRow(h, LastRowHash(rows), tx.(seqNo := Some(n)));
    OneMoreRow(rows, more[n]);
    CompactedRender(more);
    KeptAreRows(more, |more|);
    PatchedCompaction(h, KeptRows(more, |more|));
    AppendChained(h, more, CheckpointTx(p, now, n));
  }

  /** On a well-kept file, with or without a corrupt tail, the append acts on the rows. */
  lemma AppendActsOnRows(h: Hasher, rows: seq<Tx>, junk: string, tx: Tx, p: Physical, now: string)
    requires AreRows(rows) && IsRow(tx) && IsWellFormed(p.goal) && NoneValid(Lines(junk))
    ensures AfterAppend(h, Some(Render(rows) + junk), tx, p, now) == Render(AppendRows(h, rows, tx, p, now))
  {
    hide PrintTx, Render, RowLines, AreRows, Lines, IsRow, HasRowKey, HasKey, Settled, NeedsCompaction, KeptRows,
         Repaired, NoneValid;
    RowsAreValid(rows, junk);
    LinesOfRender(rows);
    if tx.key.Some? {
      ScanFindsRowKey(rows, tx.key.value);
    }
    if !(tx.key.Some? && HasRowKey(rows, tx.key.value)) {
      SettledIsRows(h, rows, tx, p, now);
    }
  }

  /** The first append makes the file. */
  lemma FirstAppendActsOnRows(h: Hasher, tx: Tx, p: Physical, now: string)
    ensures AfterAppend(h, None, tx, p, now) == Render(AppendRows(h, [], tx, p, now))
  {
    hide PrintTx, Render;
    var r := Chained(h, GENESIS, tx.(seqNo := Some(0)));
    RenderOneMore([], r);
    EmptyRender();
    assert [] + [r] == [r];
  }
}
