/** The ledger seen as rows: how the text operations act on a text that is a list of printed rows. */
module LedgerRows {
  import opened Wrappers
  import opened Strings
  import opened Json
  import opened Jsonl
  import opened JsonlLaws
  import opened CompactionLaws
  import opened TaskLedger

  // --- a row read back ---------------------------------------------------------------

  lemma {:induction false} DigitsToTheEnd(t: string, i: nat)
    requires i <= |t| && forall k :: i <= k < |t| ==> IsDigit(t[k])
    ensures DigitsEnd(t, i) == |t|
    decreases |t| - i
  {
    if i < |t| {
      DigitsToTheEnd(t, i + 1);
    }
  }

  lemma IntRoundTrip(n: int)
    ensures IsNumber(IntText(n)) && IntValue(IntText(n)) == Some(n)
  {
    var t := IntText(n);
    if n < 0 {
      var d := Decimal(-n);
      DecimalRoundTrip(-n);
      assert t[1..] == d && d[0] == t[1];
      forall k | 1 <= k < |t| ensures IsDigit(t[k]) {
        assert t[k] == d[k - 1];
      }
      DigitsToTheEnd(t, 1);
    } else {
      DecimalIsNumber(n);
      DecimalRoundTrip(n);
      assert IsDigit(t[0]);
    }
  }

  predicate NoKeyTwice(ms: seq<Member>) {
    forall i, j :: 0 <= i < j < |ms| ==> ms[i].key != ms[j].key
  }

  lemma {:induction false} OtherKeysUntouched(acc: seq<Member>, ms: seq<Member>, key: string)
    requires forall i :: 0 <= i < |ms| ==> ms[i].key != key
    ensures Get(InsertAll(acc, ms), key) == Get(acc, key)
    decreases |ms|
  {
    hide Get, Insert;
    if ms != [] {
      GetAfterInsert(acc, ms[0].key, ms[0].value, key);
      OtherKeysUntouched(Insert(acc, ms[0].key, ms[0].value), ms[1..], key);
    }
  }

  lemma {:induction false} GetOfUnique(acc: seq<Member>, ms: seq<Member>, i: nat)
    requires NoKeyTwice(ms) && i < |ms|
    ensures Get(InsertAll(acc, ms), ms[i].key) == Some(ms[i].value)
    decreases |ms|
  {
    hide Get, Insert;
    var acc' := Insert(acc, ms[0].key, ms[0].value);
    if i == 0 {
      GetAfterInsert(acc, ms[0].key, ms[0].value, ms[0].key);
      OtherKeysUntouched(acc', ms[1..], ms[0].key);
    } else {
      GetOfUnique(acc', ms[1..], i - 1);
    }
  }

  // The row as the sorted map its text is parsed to.
  function TxMap(tx: Tx): seq<Member> {
    InsertAll([], TxMembers(tx))
  }

  lemma TxMapFields(tx: Tx)
    ensures var m := TxMap(tx);
            && Get(m, "ts") == Some(Str(tx.ts)) && Get(m, "tx_type") == Some(Str(tx.txType)) && Get(m, "payload") == Some(tx.payload)
            && Get(m, "idempotency_key") == Some(TextOrNull(tx.key)) && Get(m, "seq") == Some(NumberOrNull(tx.seqNo))
            && Get(m, "schema_version") == Some(NumberOrNull(tx.schemaVersion))
            && Get(m, "chain_hash") == Some(TextOrNull(tx.chainHash))
  {
    var ms := TxMembers(tx);
    GetOfUnique([], ms, 0);
    GetOfUnique([], ms, 1);
    GetOfUnique([], ms, 2);
    GetOfUnique([], ms, 3);
    GetOfUnique([], ms, 4);
    GetOfUnique([], ms, 5);
    GetOfUnique([], ms, 6);
  }

  lemma TxOfFields(m: seq<Member>, tx: Tx)
    requires Get(m, "ts") == Some(Str(tx.ts)) && Get(m, "tx_type") == Some(Str(tx.txType)) && Get(m, "payload") == Some(tx.payload)
    requires Get(m, "idempotency_key") == Some(TextOrNull(tx.key)) && Get(m, "seq") == Some(NumberOrNull(tx.seqNo))
    requires Get(m, "schema_version") == Some(NumberOrNull(tx.schemaVersion))
    requires Get(m, "chain_hash") == Some(TextOrNull(tx.chainHash))
    ensures TxOf(m) == Some(tx)
  {
    hide Get, IntValue, IntText;
    if tx.seqNo.Some? {
      IntRoundTrip(tx.seqNo.value);
    }
    if tx.schemaVersion.Some? {
      IntRoundTrip(tx.schemaVersion.value);
    }
  }

  // A transaction whose payload is a value.
  predicate IsRow(tx: Tx) {
    IsWellFormed(tx.payload)
  }

  lemma TxMembersWellFormed(tx: Tx)
    requires IsRow(tx)
    ensures ValuesWellFormed(TxMembers(tx))
  {
    hide IsNumber, IntText;
    if tx.seqNo.Some? {
      IntRoundTrip(tx.seqNo.value);
    }
    if tx.schemaVersion.Some? {
      IntRoundTrip(tx.schemaVersion.value);
    }
  }

  // Everything the ledger needs to know about a printed row.
  lemma RowText(tx: Tx)
    requires IsRow(tx)
    ensures var p := PrintTx(tx);
            && HasNoControl(p) && HasNoNewline(p) && IsTrimmed(p) && p[0] == '{' && Trim(p) == p && Trim(p + ['\n']) == p
            && Parse(p) == Some(Obj(TxMap(tx))) && ReadTx(p) == Some(tx)
            && IsValidLine(p + ['\n'])
  {
    hide IsRow, ValuesWellFormed, InsertAll, TxMembers, TxOf, Get, Parse, Trim, HasNoNewline, HasNoControl, IsTrimmed;
    TxMembersWellFormed(tx);
    ObjectLine(TxMembers(tx));
    TxMapFields(tx);
    TxOfFields(TxMap(tx), tx);
    TrimmedNotEmpty(PrintTx(tx));
  }

  // --- texts that are rows ---------------------------------------------------------------

  predicate AreRows(rows: seq<Tx>) {
    forall i :: 0 <= i < |rows| ==> IsRow(rows[i])
  }

  function RowTexts(rows: seq<Tx>): (r: seq<string>)
    ensures |r| == |rows| && forall i :: 0 <= i < |rows| ==> r[i] == PrintTx(rows[i])
  {
    seq(|rows|, i requires 0 <= i < |rows| => PrintTx(rows[i]))
  }

  /** The ledger text of a list of rows. */
  function Render(rows: seq<Tx>): string {
    JoinLines(RowTexts(rows))
  }

  lemma RenderOneMore(rows: seq<Tx>, r: Tx)
    ensures Render(rows + [r]) == Render(rows) + (PrintTx(r) + ['\n'])
  {
    hide PrintTx;
    var t := RowTexts(rows + [r]);
    assert t[..|rows|] == RowTexts(rows);
  }

  function RowLines(rows: seq<Tx>): seq<string> {
    WithNewlines(RowTexts(rows))
  }

  lemma LinesOfRender(rows: seq<Tx>)
    requires AreRows(rows)
    ensures Lines(Render(rows)) == RowLines(rows)
  {
    hide PrintTx, IsRow, Lines, Trim, IsTrimmed, Parse;
    forall i | 0 <= i < |rows| ensures HasNoNewline(RowTexts(rows)[i]) {
      RowText(rows[i]);
    }
    LinesOfJoin(RowTexts(rows));
  }

  lemma LineOfRow(rows: seq<Tx>, i: nat)
    requires AreRows(rows) && i < |rows|
    ensures var l := RowLines(rows)[i];
            && l == PrintTx(rows[i]) + ['\n'] && Trim(l) == PrintTx(rows[i]) && Trim(l) != [] && Trim(l)[0] == '{'
            && ReadTx(Trim(l)) == Some(rows[i]) && IsValidLine(l)
            && Parse(Trim(l)) == Some(Obj(TxMap(rows[i])))
  {
    hide PrintTx, IsRow, ReadTx, IsTrimmed;
    RowText(rows[i]);
    TrimmedNotEmpty(PrintTx(rows[i]));
  }

  lemma AppendLine(rows: seq<Tx>, r: Tx)
    requires AreRows(rows)
    ensures WithLine(Render(rows), PrintTx(r)) == Render(rows + [r])
  {
    hide PrintTx, Render, JoinLines;
    RenderOneMore(rows, r);
    if rows == [] {
      EmptyRender();
    } else {
      var n := |rows| - 1;
      RenderOneMore(rows[..n], rows[n]);
      assert rows[..n] + [rows[n]] == rows;
      RowText(rows[n]);
      LastNewlineTrimmed(Render(rows[..n]), PrintTx(rows[n]));
      ConcatIsAssociative(Render(rows[..n]) + PrintTx(rows[n]), ['\n'], PrintTx(r) + ['\n']);
      ConcatIsAssociative(Render(rows[..n]), PrintTx(rows[n]), ['\n']);
    }
  }

  lemma EmptyRender()
    ensures Render([]) == []
  {
  }

  lemma LastNewlineTrimmed(front: string, line: string)
    requires IsTrimmed(line)
    ensures TrimNewlines(front + (line + ['\n'])) == front + line
    ensures front + (line + ['\n']) != []
  {
    var s := front + (line + ['\n']);
    assert s[..|s| - 1] == front + line;
    assert (front + line)[|front + line| - 1] == line[|line| - 1];
  }

  lemma {:induction false} RowsAreValid(rows: seq<Tx>, junk: string)
    requires AreRows(rows) && NoneValid(Lines(junk))
    ensures Repaired(Render(rows) + junk) == Render(rows)
  {
    if rows == [] {
      EmptyRender();
      assert [] + junk == junk;
      NothingToKeep(junk);
    } else {
      var n := |rows| - 1;
      var s := Render(rows) + junk;
      var front, line := Render(rows[..n]), PrintTx(rows[n]) + ['\n'];
      RenderOneMore(rows[..n], rows[n]);
      assert rows[..n] + [rows[n]] == rows;
      RowText(rows[n]);
      LastLineKept(front, line, junk);
    }
  }

}
