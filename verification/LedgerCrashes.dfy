/** Crashes: a process that dies while it holds the lock lets it go and leaves the file as it is. */
module LedgerCrashes {
  import opened Wrappers
  import opened Strings
  import opened Json
  import opened JsonRoundTrip
  import opened Jsonl
  import opened JsonlLaws
  import opened CompactionLaws
  import opened TaskLedger
  import opened LedgerRows
  import opened LedgerAppend
  import opened LedgerRuns
  import opened LedgerHistory
  import opened LedgerLock
  import opened LedgerLockLaws

  // --- texts that are read as rows ----------------------------------------------------------

  // A line that is read as the row, whatever the order of its members: rows are written in one order and compacted
  // rows in another. A key that JSON does not escape stands in it as it is.
  ghost predicate IsTextOf(p: string, tx: Tx) {
    && HasNoNewline(p) && IsTrimmed(p) && p[0] == '{' && ReadTx(p) == Some(tx)
    && (tx.key.Some? && IsPlainKey(tx.key.value) ==> Contains(p, tx.key.value))
  }

  ghost predicate AreTextsOf(ps: seq<string>, rows: seq<Tx>) {
    |ps| == |rows| && forall i :: 0 <= i < |rows| ==> IsTextOf(ps[i], rows[i])
  }

  lemma LineOfText(p: string, tx: Tx)
    requires IsTextOf(p, tx)
    ensures var l := p + ['\n'];
            && Trim(l) == p && p != [] && IsValidLine(l) && LooksLikeRow(l)
            && (HashOfLine(l) == if tx.chainHash.Some? && tx.chainHash.value != [] then tx.chainHash else None)
            && Parse(p).Some? && Parse(p).value.Obj? && TxOf(Parse(p).value.members) == Some(tx)
  {
    hide Parse, TxOf, Contains, Escape;
    TrimOfLine(p);
  }

  lemma RowIsText(tx: Tx)
    requires IsRow(tx)
    ensures IsTextOf(PrintTx(tx), tx)
  {
    hide PrintTx, Parse, TxOf, Contains, IsPlainKey;
    RowText(tx);
    TrimmedNotEmpty(PrintTx(tx));
    if tx.key.Some? && IsPlainKey(tx.key.value) {
      PlainKeyOccurs(tx);
    }
  }

  // The object a row is read from.
  lemma ReadFrom(p: string, tx: Tx) returns (ms: seq<Member>)
    requires ReadTx(p) == Some(tx)
    ensures Parse(p) == Some(Obj(ms)) && TxOf(ms) == Some(tx) && IsSorted(ms) && ValuesWellFormed(ms) && IsRow(tx)
  {
    hide Parse, IsSorted;
    ParsedIsWellFormed(p);
    ms := Parse(p).value.members;
    var i := MemberOfGet(ms, "payload");
  }

  // The line that compaction writes for an object is read as its row with the new number.
  lemma RenumberedIsText(ms: seq<Member>, tx: Tx, n: nat)
    requires TxOf(ms) == Some(tx) && IsSorted(ms) && ValuesWellFormed(ms)
    ensures IsTextOf(Print(Obj(WithSeq(ms, n))), tx.(seqNo := Some(n)))
  {
    hide Insert, IsSorted, ValuesWellFormed, Parse, Print, TxOf, IsNumber, Contains, IsPlainKey, HasNoNewline, IsTrimmed;
    var m := WithSeq(ms, n);
    DecimalIsNumber(n);
    InsertKeepsSorted(ms, "seq", Num(Decimal(n)));
    InsertKeepsValues(ms, "seq", Num(Decimal(n)));
    ObjectLine(m);
    assert [] + m == m;
    InsertAllSorted([], m);
    RenumberedIsRead(ms, tx, n);
    TrimmedNotEmpty(Print(Obj(m)));
    PrintsBrace(m);
    if tx.key.Some? && IsPlainKey(tx.key.value) {
      KeyIsStored(m, tx.(seqNo := Some(n)));
      var i := MemberOfGet(m, "idempotency_key");
      StoredKeyOccurs(m, i, tx.key.value);
    }
  }

  lemma PrintsBrace(ms: seq<Member>)
    ensures Print(Obj(ms)) != [] && Print(Obj(ms))[0] == '{'
  {
  }

  lemma KeyIsStored(ms: seq<Member>, tx: Tx)
    requires TxOf(ms) == Some(tx) && tx.key.Some?
    ensures Get(ms, "idempotency_key") == Some(Str(tx.key.value))
  {
  }

  lemma RenumberedIsRead(ms: seq<Member>, tx: Tx, n: nat)
    requires TxOf(ms) == Some(tx)
    ensures TxOf(WithSeq(ms, n)) == Some(tx.(seqNo := Some(n)))
  {
    hide Get, IntValue, IntText, WithSeq;
    FieldAfterSeq(ms, n, "ts");
    FieldAfterSeq(ms, n, "tx_type");
    FieldAfterSeq(ms, n, "payload");
    FieldAfterSeq(ms, n, "idempotency_key");
    FieldAfterSeq(ms, n, "seq");
    FieldAfterSeq(ms, n, "schema_version");
    FieldAfterSeq(ms, n, "chain_hash");
    IntRoundTrip(n);
    IntTextIs(n);
  }

  lemma IntTextIs(n: nat)
    ensures IntText(n) == Decimal(n)
  {
  }

  // --- what the operations see of such a text --------------------------------------------

  lemma LinesOfTexts(ps: seq<string>, rows: seq<Tx>)
    requires AreTextsOf(ps, rows)
    ensures Lines(JoinLines(ps)) == WithNewlines(ps)
  {
    hide IsTrimmed, ReadTx, Contains, Lines, JoinLines;
    LinesOfJoin(ps);
  }

  ghost predicate AreReadAs(objects: seq<seq<Member>>, rows: seq<Tx>) {
    |objects| == |rows| && forall i :: 0 <= i < |rows| ==> TxOf(objects[i]) == Some(rows[i]) && IsSorted(objects[i]) && ValuesWellFormed(objects[i])
  }

  lemma {:induction false} TextsRead(ps: seq<string>, rows: seq<Tx>)
    requires AreTextsOf(ps, rows)
    ensures LastHash(WithNewlines(ps)) == LastRowHash(rows) && CountRows(WithNewlines(ps)) == |rows|
    ensures AreReadAs(Objects(WithNewlines(ps)), rows) && Others(WithNewlines(ps)) == []
    ensures AreRows(rows) && RowsOf(WithNewlines(ps)) == rows
  {
    hide IsTextOf, HashOfLine, LooksLikeRow, IsValidLine, Parse, TxOf, Trim, IsSorted, ValuesWellFormed, IsRow;
    if rows != [] {
      var n := |rows| - 1;
      TextsRead(ps[..n], rows[..n]);
      assert WithNewlines(ps)[..n] == WithNewlines(ps[..n]);
      assert IsTextOf(ps[n], rows[n]);
      LineOfText(ps[n], rows[n]);
      TextIsRead(ps[n], rows[n]);
      var ms := ReadFrom(ps[n], rows[n]);
    }
  }

  lemma TextIsRead(p: string, tx: Tx)
    requires IsTextOf(p, tx)
    ensures ReadTx(p) == Some(tx)
  {
  }

  /** A key that JSON does not escape is found in such a text exactly when a row has it. */
  lemma PlainKeyIsFoundIn(ps: seq<string>, rows: seq<Tx>, key: string)
    requires AreTextsOf(ps, rows) && IsPlainKey(key)
    ensures HasKey(WithNewlines(ps), key) <==> exists i :: 0 <= i < |rows| && rows[i].key == Some(key)
  {
    hide IsValidLine, HashOfLine, ReadTx, Contains, IsPlainKey, Trim, HasNoNewline, IsTrimmed;
    forall i | 0 <= i < |rows| ensures LineHasKey(WithNewlines(ps)[i], key) <==> rows[i].key == Some(key) {
      LineOfText(ps[i], rows[i]);
    }
    if i :| 0 <= i < |rows| && rows[i].key == Some(key) {
      assert LineHasKey(WithNewlines(ps)[i], key);
    }
  }

  lemma OneMoreText(ps: seq<string>, rows: seq<Tx>, p: string, tx: Tx)
    requires AreTextsOf(ps, rows) && IsTextOf(p, tx)
    ensures AreTextsOf(ps + [p], rows + [tx]) && WithLine(JoinLines(ps), p) == JoinLines(ps + [p])
  {
    hide IsTextOf;
    assert (ps + [p])[..|ps|] == ps;
    if ps == [] {
      assert [] + [p] == [p];
    } else {
      var n := |ps| - 1;
      assert IsTextOf(ps[n], rows[n]);
      TextIsTrimmed(ps[n], rows[n]);
      LastNewlineTrimmed(JoinLines(ps[..n]), ps[n]);
      ConcatIsAssociative(JoinLines(ps[..n]) + ps[n], ['\n'], p + ['\n']);
      ConcatIsAssociative(JoinLines(ps[..n]), ps[n], ['\n']);
    }
  }

  lemma TextIsTrimmed(p: string, tx: Tx)
    requires IsTextOf(p, tx)
    ensures IsTrimmed(p) && HasNoNewline(p)
  {
  }

  lemma TextsAreValid(ps: seq<string>, rows: seq<Tx>, junk: string)
    requires AreTextsOf(ps, rows) && NoneValid(Lines(junk))
    ensures Repaired(JoinLines(ps) + junk) == JoinLines(ps)
  {
    hide IsTextOf, Repaired, IsValidLine;
    if rows == [] {
      assert [] + junk == junk;
      NothingToKeep(junk);
    } else {
      var n := |rows| - 1;
      assert IsTextOf(ps[n], rows[n]);
      TextIsTrimmed(ps[n], rows[n]);
      LineOfText(ps[n], rows[n]);
      var line := ps[n] + ['\n'];
      assert line[..|line| - 1] == ps[n];
      LastLineKept(JoinLines(ps[..n]), line, junk);
    }
  }

  lemma TypeOfRead(ms: seq<Member>, tx: Tx)
    requires TxOf(ms) == Some(tx)
    ensures SnapshotType(ms) == if IsSnapshot(tx) then Some(tx.txType) else None
  {
  }

  lemma StaleWhenRead(objects: seq<seq<Member>>, rows: seq<Tx>, i: nat)
    requires AreReadAs(objects, rows) && i < |rows|
    ensures IsSuperseded(objects, i) <==> IsStale(rows, i)
  {
    hide TxOf, IsSorted, ValuesWellFormed, SnapshotType;
    forall k | 0 <= k < |rows| ensures SnapshotType(objects[k]) == if IsSnapshot(rows[k]) then Some(rows[k].txType) else None {
      TypeOfRead(objects[k], rows[k]);
    }
  }

  lemma {:induction false} KeptAreRead(objects: seq<seq<Member>>, rows: seq<Tx>, n: nat)
    requires AreReadAs(objects, rows) && n <= |rows|
    ensures AreReadAs(Survivors(objects, n), KeptRows(rows, n))
  {
    hide TxOf, IsSorted, ValuesWellFormed, IsSuperseded, IsStale;
    if n > 0 {
      KeptAreRead(objects, rows, n - 1);
      StaleWhenRead(objects, rows, n - 1);
    }
  }

  /** A compacted text is read as the kept rows with their new numbers. */
  lemma CompactedTexts(ps: seq<string>, rows: seq<Tx>) returns (qs: seq<string>)
    requires AreTextsOf(ps, rows) && Compacted(JoinLines(ps), MAX_LINES).Some?
    ensures Compacted(JoinLines(ps), MAX_LINES) == Some(JoinLines(qs)) && qs != []
    ensures AreTextsOf(qs, RenumberedRows(KeptRows(rows, |rows|)))
  {
    hide AreTextsOf, IsTextOf, Lines, Objects, Others, JoinLines, Survivors, KeptRows, TxOf, IsSorted,
         ValuesWellFormed, WithSeq, Print, PrintLines, SnapshotType;
    LinesOfTexts(ps, rows);
    TextsRead(ps, rows);
    CompactionKeepsLatest(JoinLines(ps), MAX_LINES);
    var objects := Objects(Lines(JoinLines(ps)));
    var kept := Survivors(objects, |objects|);
    KeptAreRead(objects, rows, |rows|);
    PrintLinesIsJoin(Renumbered(kept));
    AppendNothing(PrintLines(Renumbered(kept)));
    qs := Texts(Renumbered(kept));
    forall i | 0 <= i < |kept| ensures IsTextOf(qs[i], RenumberedRows(KeptRows(rows, |rows|))[i]) {
      RenumberedIsText(kept[i], KeptRows(rows, |rows|)[i], i);
    }
    AreTexts(qs, RenumberedRows(KeptRows(rows, |rows|)));
    NoTexts();
  }

  lemma NoTexts()
    ensures JoinLines([]) == []
  {
  }

  lemma AreTexts(ps: seq<string>, rows: seq<Tx>)
    requires |ps| == |rows| && forall i :: 0 <= i < |rows| ==> IsTextOf(ps[i], rows[i])
    ensures AreTextsOf(ps, rows)
  {
  }

  lemma PatchedTexts(h: Hasher, ps: seq<string>, rows: seq<Tx>)
    requires AreTextsOf(ps, rows) && rows != []
    ensures Patched(h, JoinLines(ps)) == Render(Rechained(h, rows))
  {
    hide IsTextOf, Lines, JoinLines, ReadTx, Trim, Patched, IsValidLine, HashOfLine, LooksLikeRow, Parse, TxOf;
    LinesOfTexts(ps, rows);
    forall i | 0 <= i < |rows| ensures Trim(WithNewlines(ps)[i]) == ps[i] && ps[i] != [] && ReadTx(ps[i]) == Some(rows[i]) {
      assert IsTextOf(ps[i], rows[i]);
      LineOfText(ps[i], rows[i]);
      TextIsRead(ps[i], rows[i]);
    }
    PatchedReads(h, JoinLines(ps), rows);
  }

  lemma RenderIsTexts(rows: seq<Tx>)
    requires AreRows(rows)
    ensures Render(rows) == JoinLines(RowTexts(rows)) && AreTextsOf(RowTexts(rows), rows)
  {
    hide IsRow, PrintTx, IsTextOf, JoinLines;
    forall i | 0 <= i < |rows| ensures IsTextOf(RowTexts(rows)[i], rows[i]) {
      RowIsText(rows[i]);
    }
  }

  // --- what crashes cannot break --------------------------------------------------------------

  /** The rows are numbered, the key is in one of them at most, and they are chained if that is asked for. */
  ghost predicate AreGood(h: Hasher, chained: bool, key: string, rows: seq<Tx>) {
    WellNumbered(rows) && IsNotShared(rows, key) && (chained ==> WellChained(h, rows))
  }

  lemma OneMoreIsGood(h: Hasher, chained: bool, key: string, rows: seq<Tx>, tx: Tx)
    requires AreGood(h, chained, key, rows) && tx.chainHash.None? && tx.seqNo.Some? && tx.seqNo.value <= |rows|
    requires forall i :: 0 <= i < |rows| ==> rows[i].seqNo.value <= tx.seqNo.value
    requires tx.txType != CHECKPOINT ==> forall i :: 0 <= i < |rows| ==> rows[i].seqNo.value < tx.seqNo.value
    requires tx.key == Some(key) ==> forall i :: 0 <= i < |rows| ==> rows[i].key != Some(key)
    ensures AreGood(h, chained, key, rows + [Chained(h, LastRowHash(rows), tx)])
  {
    hide PrintTx, ChainHash, WellChained, LastRowHash, Tip, Chained, WellNumbered;
    OneMoreNumbered(h, rows, tx, LastRowHash(rows));
    if chained {
      TipIsLastHash(h, rows);
      OneMoreChained(h, rows, tx);
    }
    ChainedKeepsKey(h, LastRowHash(rows), tx);
  }

  lemma ChainedKeepsKey(h: Hasher, prev: string, tx: Tx)
    ensures Chained(h, prev, tx).key == tx.key
  {
    hide PrintTx;
  }

  lemma InOrderIsNumbered(rows: seq<Tx>)
    requires forall i :: 0 <= i < |rows| ==> rows[i].seqNo == Some(i)
    ensures WellNumbered(rows)
  {
  }

  lemma SameKeysShareNothing(rows: seq<Tx>, others: seq<Tx>, key: string)
    requires |others| == |rows| && IsNotShared(rows, key) && forall i :: 0 <= i < |rows| ==> others[i].key == rows[i].key
    ensures IsNotShared(others, key)
  {
  }

  lemma KeptIsGood(h: Hasher, key: string, rows: seq<Tx>)
    requires IsNotShared(rows, key)
    ensures AreGood(h, false, key, RenumberedRows(KeptRows(rows, |rows|)))
    ensures AreGood(h, true, key, Rechained(h, RenumberedRows(KeptRows(rows, |rows|))))
  {
    hide PrintTx, KeptRows, Rechained, WellChained, WellNumbered, IsNotShared;
    var kept := RenumberedRows(KeptRows(rows, |rows|));
    KeptIsNotShared(rows, |rows|, key);
    SameKeysShareNothing(KeptRows(rows, |rows|), kept, key);
    InOrderIsNumbered(kept);
    CompactedIsNotShared(h, rows, key);
    RechainedIsWellChained(h, kept);
    var out := Rechained(h, kept);
    forall i | 0 <= i < |out| ensures out[i].seqNo == Some(i) {
      RechainedAt(h, kept, i);
    }
    InOrderIsNumbered(out);
  }

  // The text of an append that is no duplicate, before any checkpoint or compaction.
  lemma AppendedTexts(h: Hasher, chained: bool, key: string, ps: seq<string>, rows: seq<Tx>, tx: Tx) returns (qs: seq<string>)
    requires AreTextsOf(ps, rows) && AreGood(h, chained, key, rows) && IsPlainKey(key)
    requires IsRow(tx) && tx.chainHash.None? && !IsDuplicate(JoinLines(ps), tx)
    ensures Appended(h, JoinLines(ps), tx) == JoinLines(qs)
    ensures AreTextsOf(qs, WithRow(h, rows, tx)) && AreGood(h, chained, key, WithRow(h, rows, tx))
    ensures CountRows(Lines(JoinLines(ps))) == |rows|
  {
    hide AreTextsOf, AreGood, PrintTx, Chained, Lines, JoinLines, LastHash, LastRowHash, CountRows, HasKey, IsRow,
         Objects, Others, RowsOf, WithLine, IsPlainKey, AreReadAs;
    LinesOfTexts(ps, rows);
    TextsRead(ps, rows);
    PlainKeyIsFoundIn(ps, rows, key);
    var numbered := tx.(seqNo := Some(|rows|));
    NumbersBelow(h, chained, key, rows);
    OneMoreIsGood(h, chained, key, rows, numbered);
    var r := Chained(h, LastRowHash(rows), numbered);
    SamePayload(tx, |rows|);
    ChainedIsRow(h, LastRowHash(rows), numbered);
    RowIsText(r);
    OneMoreText(ps, rows, PrintTx(r), r);
    qs := ps + [PrintTx(r)];
  }

  lemma SamePayload(tx: Tx, n: nat)
    requires IsRow(tx)
    ensures IsRow(tx.(seqNo := Some(n)))
  {
  }

  lemma NumbersBelow(h: Hasher, chained: bool, key: string, rows: seq<Tx>)
    requires AreGood(h, chained, key, rows)
    ensures forall i :: 0 <= i < |rows| ==> rows[i].seqNo.Some? && rows[i].seqNo.value < |rows|
  {
    hide WellChained;
  }

  // And with a checkpoint behind it.
  lemma CheckpointedTexts(h: Hasher, chained: bool, key: string, ps: seq<string>, rows: seq<Tx>, p: Physical, now: string) returns (qs: seq<string>)
    requires AreTextsOf(ps, rows) && AreGood(h, chained, key, rows) && rows != [] && IsWellFormed(p.goal)
    ensures var more := rows + [Chained(h, LastRowHash(rows), CheckpointTx(p, now, |rows| - 1))];
            && WithCheckpoint(h, JoinLines(ps), p, now, |rows| - 1) == JoinLines(qs)
            && AreTextsOf(qs, more) && AreGood(h, chained, key, more)
  {
    hide AreTextsOf, AreGood, PrintTx, Chained, Lines, JoinLines, LastHash, LastRowHash, CountRows, IsRow,
         Objects, Others, RowsOf, WithLine, AreReadAs, IsWellFormed, CheckpointPayload;
    LinesOfTexts(ps, rows);
    TextsRead(ps, rows);
    NumbersBelow(h, chained, key, rows);
    var n := |rows| - 1;
    OneMoreIsGood(h, chained, key, rows, CheckpointTx(p, now, n));
    var r := Chained(h, LastRowHash(rows), CheckpointTx(p, now, n));
    CheckpointIsRow(p, now, n);
    ChainedIsRow(h, LastRowHash(rows), CheckpointTx(p, now, n));
    RowIsText(r);
    OneMoreText(ps, rows, PrintTx(r), r);
    qs := ps + [PrintTx(r)];
  }

  // The repaired file is read as its rows.
  ghost predicate IsReadable(file: Option<string>) {
    file.Some? ==> exists ps :: AreTextsOf(ps, RowsIn(file)) && Repaired(file.value) == JoinLines(ps)
  }

  ghost predicate IsGood(h: Hasher, chained: bool, key: string, file: Option<string>) {
    IsReadable(file) && AreGood(h, chained, key, RowsIn(file))
  }

  lemma TextsAreGood(h: Hasher, chained: bool, key: string, ps: seq<string>, rows: seq<Tx>)
    requires AreTextsOf(ps, rows) && AreGood(h, chained, key, rows)
    ensures IsGood(h, chained, key, Some(JoinLines(ps))) && RowsIn(Some(JoinLines(ps))) == rows
  {
    hide AreTextsOf, AreGood, Lines, JoinLines, Repaired, RowsOf, NoneValid, LastHash, LastRowHash, CountRows,
         AreReadAs, Objects, Others, AreRows;
    NothingInNothing();
    assert JoinLines(ps) + [] == JoinLines(ps);
    TextsAreValid(ps, rows, []);
    LinesOfTexts(ps, rows);
    TextsRead(ps, rows);
  }

  lemma LedgerFileIsGood(h: Hasher, key: string, file: Option<string>)
    requires IsLedgerFile(h, file) && IsNotShared(RowsIn(file), key)
    ensures IsGood(h, true, key, file)
  {
    hide WellChained, WellNumbered, AreRows, IsNotShared, RowsIn, Repaired, JoinLines, Render, AreTextsOf;
    RenderIsTexts(RowsIn(file));
  }

  // --- what a crash can leave ------------------------------------------------------------------

  // Between the write of the compacted text and the write of its new hashes.
  predicate IsPatching(ph: Phase) {
    ph.Patching? || ph.PatchWriting?
  }

  lemma RepairedIsGood(h: Hasher, chained: bool, key: string, file: Option<string>) returns (ps: seq<string>)
    requires IsGood(h, chained, key, file) && file.Some?
    ensures AreTextsOf(ps, RowsIn(file)) && Repaired(file.value) == JoinLines(ps)
    ensures IsGood(h, chained, key, Some(Repaired(file.value)))
  {
    hide AreTextsOf, AreGood, JoinLines, Repaired, RowsIn;
    ps :| AreTextsOf(ps, RowsIn(file)) && Repaired(file.value) == JoinLines(ps);
    TextsAreGood(h, chained, key, ps, RowsIn(file));
  }

  lemma FirstIsGood(h: Hasher, chained: bool, key: string, r: Request)
    requires IsNewTx(r.tx, r.physical)
    ensures IsGood(h, chained, key, Some(AfterAppend(h, None, r.tx, r.physical, r.now)))
  {
    hide PrintTx, ChainHash, IsRow, IsWellFormed, Chained, AreTextsOf, IsGood;
    var tx := r.tx.(seqNo := Some(0));
    SamePayload(r.tx, 0);
    ChainedIsRow(h, GENESIS, tx);
    OneMoreIsGood(h, chained, key, [], tx);
    var row := Chained(h, GENESIS, tx);
    assert [] + [row] == [row];
    RowIsText(row);
    AreTexts([PrintTx(row)], [row]);
    TextsAreGood(h, chained, key, [PrintTx(row)], [row]);
    JoinOne(PrintTx(row));
  }

  lemma JoinOne(p: string)
    ensures JoinLines([p]) == p + ['\n']
  {
    assert [p][..0] == [];
  }

  // A process that has made its row: the text that it is about to write or has written.
  lemma NewTexts(h: Hasher, chained: bool, key: string, before: Option<string>, r: Request, text: string, n: nat)
    returns (ps: seq<string>, rows: seq<Tx>)
    requires IsGood(h, chained, key, before) && IsPlainKey(key) && IsNewTx(r.tx, r.physical) && IsNew(h, before, r, text, n)
    ensures text == JoinLines(ps) && AreTextsOf(ps, rows) && AreGood(h, chained, key, rows) && |rows| == n + 1
  {
    hide AreTextsOf, AreGood, JoinLines, Repaired, RowsIn, Appended, IsDuplicate, Lines, CountRows, IsGood, IsRow,
         IsWellFormed, IsPlainKey, Chained;
    var base := RepairedIsGood(h, chained, key, before);
    GoodRows(h, chained, key, before);
    ps := AppendedTexts(h, chained, key, base, RowsIn(before), r.tx);
    rows := WithRow(h, RowsIn(before), r.tx);
  }

  lemma GoodRows(h: Hasher, chained: bool, key: string, file: Option<string>)
    requires IsGood(h, chained, key, file)
    ensures AreGood(h, chained, key, RowsIn(file))
  {
  }

  lemma WrittenIsGood(h: Hasher, chained: bool, key: string, before: Option<string>, r: Request, text: string, n: nat)
    requires IsGood(h, chained, key, before) && IsPlainKey(key) && IsNewTx(r.tx, r.physical) && IsNew(h, before, r, text, n)
    ensures IsGood(h, chained, key, Some(text))
    ensures IsGood(h, chained, key, Some(WithCheckpoint(h, text, r.physical, r.now, n)))
    ensures Compacted(text, MAX_LINES).Some? ==>
              IsGood(h, false, key, Compacted(text, MAX_LINES)) && IsGood(h, true, key, Some(Patched(h, Compacted(text, MAX_LINES).value)))
  {
    hide AreTextsOf, AreGood, JoinLines, IsNew, WithCheckpoint, Compacted, IsGood, IsWellFormed, IsRow, Patched,
         IsPlainKey, KeptRows, Rechained, Chained, CheckpointTx, LastRowHash;
    var ps, rows := NewTexts(h, chained, key, before, r, text, n);
    TextsAreGood(h, chained, key, ps, rows);
    var qs := CheckpointedTexts(h, chained, key, ps, rows, r.physical, r.now);
    TextsAreGood(h, chained, key, qs, rows + [Chained(h, LastRowHash(rows), CheckpointTx(r.physical, r.now, n))]);
    if Compacted(text, MAX_LINES).Some? {
      CompactedIsGood(h, chained, key, ps, rows);
    }
  }

  lemma CompactedIsGood(h: Hasher, chained: bool, key: string, ps: seq<string>, rows: seq<Tx>)
    requires AreTextsOf(ps, rows) && AreGood(h, chained, key, rows) && Compacted(JoinLines(ps), MAX_LINES).Some?
    ensures var out := Compacted(JoinLines(ps), MAX_LINES);
            IsGood(h, false, key, out) && IsGood(h, true, key, Some(Patched(h, out.value)))
  {
    hide AreTextsOf, WellNumbered, WellChained, IsNotShared, JoinLines, Compacted, IsGood, IsRow, Patched,
         KeptRows, Rechained, RenumberedRows, Render, RowTexts, LastHash, LastRowHash, CountRows, AreReadAs,
         Objects, Others, RowsOf;
    var qs := CompactedTexts(ps, rows);
    var kept := RenumberedRows(KeptRows(rows, |rows|));
    KeptIsGood(h, key, rows);
    TextsAreGood(h, false, key, qs, kept);
    SameNumber(qs, kept);
    PatchedTexts(h, qs, kept);
    TextsRead(qs, kept);
    RechainedAreRows(h, kept);
    RenderIsTexts(Rechained(h, kept));
    TextsAreGood(h, true, key, RowTexts(Rechained(h, kept)), Rechained(h, kept));
  }

  lemma SameNumber(ps: seq<string>, rows: seq<Tx>)
    requires AreTextsOf(ps, rows)
    ensures |ps| == |rows|
  {
  }

  lemma Unchained(h: Hasher, chained: bool, key: string, file: Option<string>)
    requires IsGood(h, true, key, file)
    ensures IsGood(h, chained, key, file)
  {
  }

  lemma FinishedIsGood(h: Hasher, chained: bool, key: string, before: Option<string>, r: Request)
    requires IsGood(h, chained, key, before) && IsPlainKey(key) && IsNewTx(r.tx, r.physical)
    ensures IsGood(h, chained, key, Some(AfterAppend(h, before, r.tx, r.physical, r.now)))
  {
    hide IsGood, IsNewTx, IsPlainKey, Appended, IsDuplicate, Repaired, CountRows, Lines, Compacted, Patched,
         WithCheckpoint, PrintTx;
    if before.None? {
      FirstIsGood(h, chained, key, r);
    } else {
      var ps := RepairedIsGood(h, chained, key, before);
      var content := Repaired(before.value);
      if !IsDuplicate(content, r.tx) {
        var text, n := Appended(h, content, r.tx), CountRows(Lines(content));
        WrittenIsGood(h, chained, key, before, r, text, n);
        if Compacted(text, MAX_LINES).Some? {
          Unchained(h, chained, key, Some(Patched(h, Compacted(text, MAX_LINES).value)));
        }
      }
    }
  }

  lemma AfterCompactionIsGood(h: Hasher, chained: bool, key: string, before: Option<string>, r: Request, file: Option<string>)
    requires IsGood(h, chained, key, before) && IsPlainKey(key) && IsNewTx(r.tx, r.physical) && HasCompacted(h, before, r, file)
    ensures IsGood(h, false, key, file)
  {
    hide IsGood, IsNewTx, IsPlainKey, Appended, IsDuplicate, Repaired, CountRows, Lines, Compacted, Patched,
         WithCheckpoint, AfterAppend;
    var content := Repaired(before.value);
    WrittenIsGood(h, chained, key, before, r, Appended(h, content, r.tx), CountRows(Lines(content)));
  }

  /** Wherever a process stands in its append, the file is read as rows that are numbered and do not share the key, and
      that are chained except between compaction and rehashing. */
  lemma PhaseIsGood(h: Hasher, chained: bool, key: string, before: Option<string>, r: Request, ph: Phase, file: Option<string>)
    requires IsGood(h, chained, key, before) && IsPlainKey(key) && IsNewTx(r.tx, r.physical) && IsAt(h, before, r, ph, file)
    ensures IsGood(h, chained && !IsPatching(ph), key, file)
  {
    hide IsGood, IsNewTx, IsPlainKey, Appended, IsDuplicate, Repaired, CountRows, Lines, Compacted, Patched,
         WithCheckpoint, AfterAppend;
    if before.Some? {
      var ps := RepairedIsGood(h, chained, key, before);
    }
    match ph {
      case Written(text, n) => WrittenIsGood(h, chained, key, before, r, text, n);
      case Checkpointing(text, n, existing) => WrittenIsGood(h, chained, key, before, r, text, n);
      case Compacting(text) =>
        var n :| IsNew(h, before, r, text, n)
                 && file == Some(if NeedsCheckpoint(n) then WithCheckpoint(h, text, r.physical, r.now, n) else text);
        WrittenIsGood(h, chained, key, before, r, text, n);
      case Patching => AfterCompactionIsGood(h, chained, key, before, r, file);
      case PatchWriting(existing) => AfterCompactionIsGood(h, chained, key, before, r, file);
      case Unlocking => FinishedIsGood(h, chained, key, before, r);
      case _ =>
    }
  }

  // --- runs with crashes ------------------------------------------------------------------------

  datatype Event = Move(i: nat) | Crash(i: nat)

  // A process that dies, waiting or inside, changes no file and no longer holds the lock.
  ghost predicate IsCrash(s: System, i: nat, t: System) {
    && i < |s.phases| && (s.phases[i].Waiting? || IsInside(s.phases[i]))
    && t == s.(holder := if s.holder == Some(i) then None else s.holder, phases := s.phases[i := GaveUp])
  }

  ghost predicate IsCrashRun(h: Hasher, requests: seq<Request>, states: seq<System>, events: seq<Event>) {
    && |states| == |events| + 1
    && IsStart(requests, states[0])
    && (forall n :: 0 <= n < |states| ==> |states[n].phases| == |requests|)
    && forall n :: 0 <= n < |events| ==> IsEvent(h, requests, states[n], events[n], states[n + 1])
  }

  ghost predicate IsEvent(h: Hasher, requests: seq<Request>, s: System, e: Event, t: System)
    requires |s.phases| == |requests|
  {
    match e
    case Move(i) => IsMove(h, true, requests, s, i, t)
    case Crash(i) => IsCrash(s, i, t)
  }

  // The crash falls between compaction and rehashing.
  predicate CrashesPatching(s: System, e: Event) {
    e.Crash? && e.i < |s.phases| && IsPatching(s.phases[e.i])
  }

  // Only the holder of the lock is inside, and the file was good when it entered.
  ghost predicate IsCrashSafe(h: Hasher, chained: bool, key: string, requests: seq<Request>, s: System) {
    && |s.phases| == |requests|
    && (forall i :: 0 <= i < |s.phases| ==> (IsInside(s.phases[i]) <==> s.holder == Some(i)))
    && match s.holder
       case None => IsGood(h, chained, key, s.file)
       case Some(i) => i < |requests| && exists before :: IsGood(h, chained, key, before) && IsAt(h, before, requests[i], s.phases[i], s.file)
  }

  ghost predicate AreNewRequests(requests: seq<Request>) {
    forall i :: 0 <= i < |requests| ==> IsNewTx(requests[i].tx, requests[i].physical)
  }

  lemma CrashIsSafe(h: Hasher, chained: bool, key: string, requests: seq<Request>, s: System, i: nat, t: System)
    requires IsCrashSafe(h, chained, key, requests, s) && IsCrash(s, i, t) && AreNewRequests(requests) && IsPlainKey(key)
    requires chained ==> !IsPatching(s.phases[i])
    ensures IsCrashSafe(h, chained, key, requests, t)
  {
    hide IsGood, IsAt, IsNewTx, IsPlainKey;
    if s.holder == Some(i) {
      var before :| IsGood(h, chained, key, before) && IsAt(h, before, requests[i], s.phases[i], s.file);
      PhaseIsGood(h, chained, key, before, requests[i], s.phases[i], s.file);
    } else if s.holder.Some? {
      var before :| IsGood(h, chained, key, before) && IsAt(h, before, requests[s.holder.value], s.phases[s.holder.value], s.file);
      assert t.phases[s.holder.value] == s.phases[s.holder.value];
    }
  }

  lemma MoveIsSafe(h: Hasher, chained: bool, key: string, requests: seq<Request>, s: System, i: nat, t: System)
    requires IsCrashSafe(h, chained, key, requests, s) && IsMove(h, true, requests, s, i, t) && AreNewRequests(requests) && IsPlainKey(key)
    ensures IsCrashSafe(h, chained, key, requests, t)
  {
    hide IsGood, IsAt, IsNewTx, IsPlainKey, Advance, AfterAppend;
    var ph := s.phases[i];
    if ph.Waiting? {
      if s.holder.None? {
        Entered(h, s.file, requests[i]);
      } else {
        var j := s.holder.value;
        var before :| IsGood(h, chained, key, before) && IsAt(h, before, requests[j], s.phases[j], s.file);
        assert t.phases[j] == s.phases[j];
      }
    } else {
      var before :| IsGood(h, chained, key, before) && IsAt(h, before, requests[i], ph, s.file);
      if ph.Unlocking? {
        PhaseIsGood(h, chained, key, before, requests[i], ph, s.file);
      } else {
        AdvanceKeeps(h, before, requests[i], ph, s.file);
        StaysInside(h, requests[i], ph, s.file);
      }
    }
  }

  lemma Entered(h: Hasher, file: Option<string>, r: Request)
    ensures IsAt(h, file, r, Locked, file)
  {
  }

  lemma StaysInside(h: Hasher, r: Request, ph: Phase, file: Option<string>)
    requires IsInside(ph) && !ph.Unlocking?
    ensures IsInside(Advance(h, r, ph, file).0)
  {
    hide Repaired, IsDuplicate, Appended, CountRows, Lines, WithCheckpoint, Compacted, Patched, AfterAppend, NeedsCheckpoint;
  }

  lemma {:induction false} CrashStateIsSafe(h: Hasher, chained: bool, requests: seq<Request>, states: seq<System>, events: seq<Event>, n: nat, key: string)
    requires IsCrashRun(h, requests, states, events) && n < |states|
    requires AreNew(h, states[0].file, requests) && IsPlainKey(key) && IsNotShared(RowsIn(states[0].file), key)
    requires chained ==> forall k :: 0 <= k < n ==> !CrashesPatching(states[k], events[k])
    ensures IsCrashSafe(h, chained, key, requests, states[n])
  {
    hide IsMove, IsGood, IsAt, IsNewTx, IsPlainKey, IsLedgerFile, IsNotShared, RowsIn;
    if n == 0 {
      LedgerFileIsGood(h, key, states[0].file);
      Unchained(h, chained, key, states[0].file);
    } else {
      CrashStateIsSafe(h, chained, requests, states, events, n - 1, key);
      var e := events[n - 1];
      assert IsEvent(h, requests, states[n - 1], e, states[n - 1 + 1]);
      assert chained ==> !CrashesPatching(states[n - 1], e);
      if e.Crash? {
        CrashIsSafe(h, chained, key, requests, states[n - 1], e.i, states[n]);
      } else {
        MoveIsSafe(h, chained, key, requests, states[n - 1], e.i, states[n]);
      }
    }
  }

  // What a reader finds in the file, in the middle of an append or not.
  lemma FileOfState(h: Hasher, chained: bool, key: string, requests: seq<Request>, s: System)
    requires IsCrashSafe(h, chained, key, requests, s) && AreNewRequests(requests) && IsPlainKey(key)
    requires chained ==> forall i :: 0 <= i < |s.phases| ==> !IsPatching(s.phases[i])
    ensures IsGood(h, chained, key, s.file)
  {
    hide IsGood, IsAt, IsNewTx, IsPlainKey;
    if s.holder.Some? {
      var i := s.holder.value;
      var before :| IsGood(h, chained, key, before) && IsAt(h, before, requests[i], s.phases[i], s.file);
      PhaseIsGood(h, chained, key, before, requests[i], s.phases[i], s.file);
    }
  }

  /** Wherever processes crash, however often, the lock still lets one process in at a time; and in every state, in
      the middle of an append or not, the rows in the file are numbered, and a key that JSON does not escape is in one
      of them at most. */
  lemma CrashesKeepRows(h: Hasher, requests: seq<Request>, states: seq<System>, events: seq<Event>, n: nat, key: string)
    requires IsCrashRun(h, requests, states, events) && n < |states|
    requires AreNew(h, states[0].file, requests) && IsPlainKey(key) && IsNotShared(RowsIn(states[0].file), key)
    ensures WellNumbered(RowsIn(states[n].file)) && IsNotShared(RowsIn(states[n].file), key)
    ensures forall i, j :: 0 <= i < j < |requests| ==> !(IsInside(states[n].phases[i]) && IsInside(states[n].phases[j]))
  {
    hide IsCrashRun, IsAt, IsPlainKey, IsLedgerFile, IsNotShared, WellNumbered, IsNewTx, RowsIn, IsInside, IsReadable;
    CrashStateIsSafe(h, false, requests, states, events, n, key);
    FileOfState(h, false, key, requests, states[n]);
  }

  function As(n: nat): (s: string)
    ensures |s| == n
  {
    if n == 0 then [] else ['a'] + As(n - 1)
  }

  lemma {:induction false} AsIsPlain(n: nat)
    ensures IsPlainKey(As(n))
  {
    if n > 0 {
      AsIsPlain(n - 1);
      assert As(n)[1..] == As(n - 1);
    }
  }

  lemma {:induction false} LongestKey(rows: seq<Tx>) returns (n: nat)
    ensures forall i :: 0 <= i < |rows| && rows[i].key.Some? ==> |rows[i].key.value| <= n
  {
    if rows == [] {
      n := 0;
    } else {
      var last := rows[|rows| - 1];
      n := LongestKey(rows[..|rows| - 1]);
      if last.key.Some? && |last.key.value| > n {
        n := |last.key.value|;
      }
    }
  }

  // A plain key that no row has.
  lemma UnusedKey(rows: seq<Tx>) returns (key: string)
    ensures IsPlainKey(key) && IsNotShared(rows, key)
  {
    hide IsPlainKey;
    var n := LongestKey(rows);
    AsIsPlain(n + 1);
    key := As(n + 1);
  }

  /** The hash chain needs one thing more: as long as no process crashes between compaction and rehashing, the rows are
      chained in every state in which no process is there. */
  lemma CrashesKeepChain(h: Hasher, requests: seq<Request>, states: seq<System>, events: seq<Event>, n: nat)
    requires IsCrashRun(h, requests, states, events) && n < |states| && AreNew(h, states[0].file, requests)
    requires forall k :: 0 <= k < n ==> !CrashesPatching(states[k], events[k])
    requires forall i :: 0 <= i < |requests| ==> !IsPatching(states[n].phases[i])
    ensures WellChained(h, RowsIn(states[n].file))
  {
    hide IsCrashRun, IsAt, IsPlainKey, IsLedgerFile, WellNumbered, WellChained, IsNewTx, RowsIn, IsReadable,
         CrashesPatching, IsPatching;
    var key := UnusedKey(RowsIn(states[0].file));
    CrashStateIsSafe(h, true, requests, states, events, n, key);
    FileOfState(h, true, key, requests, states[n]);
  }

  /** A crash there leaves the compacted rows with their new numbers and their old hashes. */
  lemma CrashLeavesOldHashes(h: Hasher, before: Option<string>, r: Request, file: Option<string>)
    requires IsReadable(before) && WellNumbered(RowsIn(before)) && IsNewTx(r.tx, r.physical) && HasCompacted(h, before, r, file)
    ensures var more := WithRow(h, RowsIn(before), r.tx); RowsIn(file) == RenumberedRows(KeptRows(more, |more|))
  {
    hide AreTextsOf, Appended, IsDuplicate, Repaired, JoinLines, Compacted, Patched, AfterAppend, RowsIn,
         WellNumbered, IsNotShared, KeptRows, IsRow, IsWellFormed, IsPlainKey, LastRowHash, Chained,
         RenumberedRows;
    var rows := RowsIn(before);
    var key := UnusedKey(rows);
    var ps :| AreTextsOf(ps, rows) && Repaired(before.value) == JoinLines(ps);
    var more := WithRow(h, rows, r.tx);
    var qs := AppendedTexts(h, false, key, ps, rows, r.tx);
    var out := CompactedTexts(qs, more);
    KeptIsGood(h, key, more);
    TextsAreGood(h, false, key, out, RenumberedRows(KeptRows(more, |more|)));
  }

  /** The next compaction that is finished chains the rows again. */
  lemma CompactionChainsAgain(h: Hasher, before: Option<string>, r: Request)
    requires before.Some? && IsReadable(before) && WellNumbered(RowsIn(before)) && IsNewTx(r.tx, r.physical)
    requires !IsDuplicate(Repaired(before.value), r.tx) && Compacted(Appended(h, Repaired(before.value), r.tx), MAX_LINES).Some?
    ensures WellChained(h, RowsIn(Some(AfterAppend(h, before, r.tx, r.physical, r.now))))
  {
    hide IsNewTx, IsPlainKey, Appended, IsDuplicate, Repaired, CountRows, Lines, Compacted, Patched,
         WithCheckpoint, RowsIn, IsReadable, WellChained, WellNumbered;
    var key := UnusedKey(RowsIn(before));
    var content := Repaired(before.value);
    WrittenIsGood(h, false, key, before, r, Appended(h, content, r.tx), CountRows(Lines(content)));
  }
}
