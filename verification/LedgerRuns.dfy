/** What every run of the ledger keeps: the hash chain, the numbering, and one row for each key. */
module LedgerRuns {
  import opened Wrappers
  import opened Strings
  import opened Json
  import opened JsonRoundTrip
  import opened Jsonl
  import opened JsonlLaws
  import opened TaskLedger
  import opened LedgerRows
  import opened LedgerAppend

  // --- the hash chain -------------------------------------------------------------------

  function PrevHash(rows: seq<Tx>, i: nat): string
    requires i <= |rows|
  {
    if i == 0 then "genesis" else if rows[i - 1].chainHash.Some? then rows[i - 1].chainHash.value else []
  }

  // The hash of row i is the hash of its predecessor's hash and of the row without its own.
  ghost predicate IsChainedAt(h: Hasher, rows: seq<Tx>, i: nat)
    requires i < |rows|
  {
    rows[i].chainHash == Some(ChainHash(h, PrevHash(rows, i), PrintTx(rows[i].(chainHash := None))))
  }

  ghost predicate WellChained(h: Hasher, rows: seq<Tx>) {
    forall i :: 0 <= i < |rows| ==> IsChainedAt(h, rows, i)
  }

  lemma OneMoreChained(h: Hasher, rows: seq<Tx>, tx: Tx)
    requires WellChained(h, rows) && tx.chainHash.None?
    ensures WellChained(h, rows + [Chained(h, Tip(rows), tx)])
  {
    hide PrintTx, ChainHash;
    var more := rows + [Chained(h, Tip(rows), tx)];
    forall i | 0 <= i < |more| ensures IsChainedAt(h, more, i) {
      if i < |rows| {
        assert IsChainedAt(h, rows, i);
      } else {
        assert more[i].(chainHash := None) == tx;
      }
    }
  }

  lemma {:induction false} RechainedIsWellChained(h: Hasher, rows: seq<Tx>)
    ensures WellChained(h, Rechained(h, rows))
  {
    if rows != [] {
      RechainedIsWellChained(h, rows[..|rows| - 1]);
      OneMoreChained(h, Rechained(h, rows[..|rows| - 1]), rows[|rows| - 1].(chainHash := None));
    }
  }

  /** Recomputing changes no row exactly when the rows are well chained. */
  lemma {:induction false} RechainingIsIdentityWhen(h: Hasher, rows: seq<Tx>)
    ensures Rechained(h, rows) == rows <==> WellChained(h, rows)
  {
    hide PrintTx, ChainHash;
    RechainedIsWellChained(h, rows);
    if WellChained(h, rows) && rows != [] {
      var n := |rows| - 1;
      var front := rows[..n];
      forall i | 0 <= i < n ensures IsChainedAt(h, front, i) {
        assert IsChainedAt(h, rows, i);
      }
      RechainingIsIdentityWhen(h, front);
      assert IsChainedAt(h, rows, n);
      assert Rechained(h, rows) == front + [rows[n]];
    }
  }

  lemma TipIsLastHash(h: Hasher, rows: seq<Tx>)
    requires WellChained(h, rows)
    ensures LastRowHash(rows) == Tip(rows)
  {
    hide PrintTx;
    if rows != [] {
      assert IsChainedAt(h, rows, |rows| - 1);
    }
  }

  // Digits read back, the last one least.
  function ReadHex(s: string): Option<nat> {
    if s == [] then Some(0) else
      match (ReadHex(s[..|s| - 1]), HexValue(s[|s| - 1]))
      case (Some(n), Some(d)) => Some(16 * n + d)
      case _ => None
  }

  function Power16(digits: nat): nat {
    if digits == 0 then 1 else 16 * Power16(digits - 1)
  }

  lemma {:induction false} HexReadsBack(n: nat, digits: nat)
    requires n < Power16(digits)
    ensures ReadHex(Hex(n, digits)) == Some(n)
    decreases digits
  {
    if digits > 0 {
      HexReadsBack(n / 16, digits - 1);
      HexRoundTrip(n % 16);
      var s := Hex(n, digits);
      assert s[..|s| - 1] == Hex(n / 16, digits - 1);
    }
  }

  /** The stored hash is sixteen hexadecimal digits that read back as the whole 64-bit hash: no two hashes are stored alike. */
  lemma HashIsStoredWhole(h: Hasher, prev: string, content: string)
    requires h(prev, content) < 0x1_0000_0000_0000_0000
    ensures |ChainHash(h, prev, content)| == 16 && ReadHex(ChainHash(h, prev, content)) == Some(h(prev, content))
  {
    hide Hex, ReadHex;
    assert Power16(4) == 0x1_0000 && Power16(8) == 0x1_0000_0000;
    assert Power16(12) == 0x1_0000_0000_0000 && Power16(16) == 0x1_0000_0000_0000_0000;
    HexReadsBack(h(prev, content), 16);
  }

  // --- numbers and keys --------------------------------------------------------------------

  /** Numbers never exceed positions, never fall, and rise at every row that is not a checkpoint. */
  ghost predicate WellNumbered(rows: seq<Tx>) {
    && (forall i :: 0 <= i < |rows| ==> rows[i].seqNo.Some? && rows[i].seqNo.value <= i)
    && (forall i, j :: 0 <= i < j < |rows| ==> rows[i].seqNo.value <= rows[j].seqNo.value)
    && (forall i, j :: 0 <= i < j < |rows| && rows[j].txType != CHECKPOINT ==> rows[i].seqNo.value < rows[j].seqNo.value)
  }

  // JSON writes the key without any escape.
  predicate IsPlainKey(key: string) {
    Escape(key) == key
  }

  ghost predicate IsNotShared(rows: seq<Tx>, key: string) {
    forall i, j :: 0 <= i < j < |rows| && rows[i].key == Some(key) ==> rows[j].key != Some(key)
  }

  lemma ContainsMiddle(a: string, part: string, b: string)
    ensures Contains(a + (part + b), part)
  {
    var text := a + (part + b);
    assert text[|a|..|a| + |part|] == part;
    assert OccursAt(text, part, |a|);
  }

  lemma {:induction false} MemberOccurs(ms: seq<Member>, i: nat) returns (a: string, b: string)
    requires i < |ms|
    ensures PrintMembers(ms) == a + (PrintMember(ms[i]) + b)
  {
    hide PrintMember, PrintMembers;
    PrintMembersUnfold(ms, []);
    assert PrintMembers(ms) + [] == PrintMembers(ms);
    var rest := PrintMembers(ms[1..]) + [];
    if i == 0 {
      if |ms| == 1 {
        a, b := [], [];
      } else {
        a, b := [], [','] + rest;
      }
    } else {
      a, b := MemberOccurs(ms[1..], i - 1);
      assert rest == PrintMembers(ms[1..]);
      ConcatIsAssociative(PrintMember(ms[0]) + [','], a, PrintMember(ms[i]) + b);
      ConcatIsAssociative(PrintMember(ms[0]), [','], rest);
      a := (PrintMember(ms[0]) + [',']) + a;
    }
  }

  // An object that stores a key contains it as it stands, when JSON does not escape it.
  lemma StoredKeyOccurs(ms: seq<Member>, i: nat, key: string)
    requires i < |ms| && ms[i] == Member("idempotency_key", Str(key)) && IsPlainKey(key)
    ensures Contains(Print(Obj(ms)), key)
  {
    hide PrintMembers, Contains, Escape;
    var a, b := MemberOccurs(ms, i);
    var q := Quote(ms[i].key);
    assert PrintMember(ms[i]) == q + ([':'] + (['"'] + (key + ['"'])));
    var before, after := ['{'] + (a + (q + [':', '"'])), ['"'] + (b + ['}']);
    assert Print(Obj(ms)) == before + (key + after);
    ContainsMiddle(before, key, after);
  }

  /** The text of a row contains its key as it stands, when JSON does not escape it. */
  lemma PlainKeyOccurs(tx: Tx)
    requires tx.key.Some? && IsPlainKey(tx.key.value)
    ensures Contains(PrintTx(tx), tx.key.value)
  {
    hide Print, Contains, IsPlainKey;
    StoredKeyOccurs(TxMembers(tx), 3, tx.key.value);
  }

  /** For keys that JSON does not escape the filter loses nothing: a key is found exactly when a row has it. */
  lemma PlainKeyIsFound(rows: seq<Tx>, key: string)
    requires AreRows(rows) && IsPlainKey(key)
    ensures HasKey(RowLines(rows), key) <==> exists i :: 0 <= i < |rows| && rows[i].key == Some(key)
    ensures HasRowKey(rows, key) <==> exists i :: 0 <= i < |rows| && rows[i].key == Some(key)
  {
    hide PrintTx, AreRows, Contains, HasKey, RowLines;
    ScanFindsRowKey(rows, key);
    if i :| 0 <= i < |rows| && rows[i].key == Some(key) {
      PlainKeyOccurs(rows[i]);
    }
  }

  // A text without control characters has no part with one.
  lemma NotPartOf(text: string, part: string, k: nat)
    requires HasNoControl(text) && k < |part| && IsControl(part[k])
    ensures !Contains(text, part)
  {
    forall j: nat | j + |part| <= |text| ensures !OccursAt(text, part, j) {
      assert text[j..j + |part|][k] == text[j + k];
    }
  }

  /** The filter is not safe for every key: one with a control character is never found, because JSON escapes it. */
  lemma ControlKeyIsNeverFound(rows: seq<Tx>, key: string)
    requires AreRows(rows) && !HasNoControl(key)
    ensures !HasKey(RowLines(rows), key) && !HasRowKey(rows, key)
  {
    hide PrintTx, RowLines, HasKey, IsRow, Trim, ReadTx, Parse, IsTrimmed, HasNoNewline;
    ScanFindsRowKey(rows, key);
    var k :| 0 <= k < |key| && IsControl(key[k]);
    forall i | 0 <= i < |rows| ensures !Contains(PrintTx(rows[i]), key) {
      RowText(rows[i]);
      NotPartOf(PrintTx(rows[i]), key, k);
    }
  }

  /** So every append with such a key is accepted, and puts it into one more row unless a compaction is due. */
  lemma ControlKeyIsAppendedAgain(h: Hasher, rows: seq<Tx>, tx: Tx, p: Physical, now: string, key: string)
    requires AreRows(rows) && !HasNoControl(key) && tx.key == Some(key)
    requires exists i :: 0 <= i < |rows| && rows[i].key == Some(key)
    ensures IsAccepted(rows, tx)
    ensures !NeedsCompaction(WithRow(h, rows, tx)) ==> !IsNotShared(AppendRows(h, rows, tx, p, now), key)
  {
    hide PrintTx, ChainHash, HasRowKey, HasKey, LastRowHash, KeptRows, AreRows, HasNoControl, CheckpointTx,
         NeedsCompaction, Rechained, RenumberedRows;
    ControlKeyIsNeverFound(rows, key);
    var i :| 0 <= i < |rows| && rows[i].key == Some(key);
    if !NeedsCompaction(WithRow(h, rows, tx)) {
      var after := AppendRows(h, rows, tx, p, now);
      assert after[i] == rows[i] && after[|rows|].key == Some(key);
    }
  }

  // --- one append ------------------------------------------------------------------------------

  ghost predicate IsKept(h: Hasher, rows: seq<Tx>) {
    AreRows(rows) && WellChained(h, rows) && WellNumbered(rows)
  }

  // A transaction as callers make it, with any key or none.
  ghost predicate IsNewTx(tx: Tx, p: Physical) {
    IsRow(tx) && IsWellFormed(p.goal) && tx.chainHash.None?
  }

  lemma {:induction false} KeptFrom(rows: seq<Tx>, n: nat, k: nat) returns (i: nat)
    requires n <= |rows| && k < |KeptRows(rows, n)|
    ensures k <= i < n && KeptRows(rows, n)[k] == rows[i] && !IsStale(rows, i)
  {
    hide IsStale;
    if k < |KeptRows(rows, n - 1)| {
      i := KeptFrom(rows, n - 1, k);
    } else {
      i := n - 1;
    }
  }

  lemma {:induction false} KeptHolds(rows: seq<Tx>, n: nat, i: nat) returns (k: nat)
    requires i < n <= |rows| && !IsStale(rows, i)
    ensures k < |KeptRows(rows, n)| && KeptRows(rows, n)[k] == rows[i]
  {
    hide IsStale;
    if i < n - 1 {
      k := KeptHolds(rows, n - 1, i);
    } else {
      k := |KeptRows(rows, n - 1)|;
    }
  }

  // Rehashing and renumbering touch neither keys nor types.
  lemma {:induction false} RechainedAt(h: Hasher, rows: seq<Tx>, i: nat)
    requires i < |rows|
    ensures Rechained(h, rows)[i].(chainHash := None) == rows[i].(chainHash := None)
    decreases |rows|
  {
    hide PrintTx, ChainHash;
    if i < |rows| - 1 {
      RechainedAt(h, rows[..|rows| - 1], i);
    }
  }

  lemma CompactedIsKept(h: Hasher, rows: seq<Tx>)
    requires AreRows(rows)
    ensures IsKept(h, Rechained(h, RenumberedRows(KeptRows(rows, |rows|))))
  {
    hide PrintTx, IsRow, ChainHash, WellChained, KeptRows, Rechained, RenumberedRows, AreRows;
    var survivors := KeptRows(rows, |rows|);
    var kept := RenumberedRows(survivors);
    var out := Rechained(h, kept);
    KeptAreRows(rows, |rows|);
    RenumberedAreRows(survivors);
    RechainedAreRows(h, kept);
    RechainedIsWellChained(h, kept);
    forall i | 0 <= i < |out| ensures out[i].seqNo == Some(i) {
      RechainedAt(h, kept, i);
    }
  }

  lemma OneMoreIsKept(h: Hasher, rows: seq<Tx>, tx: Tx)
    requires IsKept(h, rows) && IsRow(tx) && tx.chainHash.None?
    requires tx.seqNo.Some? && tx.seqNo.value <= |rows|
    requires forall i :: 0 <= i < |rows| ==> rows[i].seqNo.value <= tx.seqNo.value
    requires tx.txType != CHECKPOINT ==> forall i :: 0 <= i < |rows| ==> rows[i].seqNo.value < tx.seqNo.value
    ensures IsKept(h, rows + [Chained(h, LastRowHash(rows), tx)])
  {
    hide PrintTx, IsRow, ChainHash, WellChained, LastRowHash, Tip, AreRows, Chained, WellNumbered;
    TipIsLastHash(h, rows);
    OneMoreChained(h, rows, tx);
    ChainedIsRow(h, Tip(rows), tx);
    OneMoreRow(rows, Chained(h, Tip(rows), tx));
    OneMoreNumbered(h, rows, tx, Tip(rows));
  }

  lemma OneMoreNumbered(h: Hasher, rows: seq<Tx>, tx: Tx, prev: string)
    requires WellNumbered(rows) && tx.seqNo.Some? && tx.seqNo.value <= |rows|
    requires forall i :: 0 <= i < |rows| ==> rows[i].seqNo.value <= tx.seqNo.value
    requires tx.txType != CHECKPOINT ==> forall i :: 0 <= i < |rows| ==> rows[i].seqNo.value < tx.seqNo.value
    ensures WellNumbered(rows + [Chained(h, prev, tx)])
  {
    hide PrintTx, ChainHash;
  }

  /** Every append, with any key or none, keeps the hash chain and the numbering. */
  lemma AppendKeeps(h: Hasher, rows: seq<Tx>, tx: Tx, p: Physical, now: string)
    requires IsKept(h, rows) && IsNewTx(tx, p)
    ensures IsKept(h, AppendRows(h, rows, tx, p, now))
  {
    hide PrintTx, ChainHash, WellChained, LastRowHash, KeptRows, Rechained, HasRowKey, RenumberedRows, IsWellFormed;
    if !(tx.key.Some? && HasRowKey(rows, tx.key.value)) {
      var numbered := tx.(seqNo := Some(|rows|));
      OneMoreIsKept(h, rows, numbered);
      var more := rows + [Chained(h, LastRowHash(rows), numbered)];
      if NeedsCompaction(more) {
        CompactedIsKept(h, more);
      } else if NeedsCheckpoint(|rows|) {
        CheckpointIsRow(p, now, |rows|);
        OneMoreIsKept(h, more, CheckpointTx(p, now, |rows|));
      }
    }
  }

  lemma {:induction false} KeptIsNotShared(rows: seq<Tx>, n: nat, key: string)
    requires n <= |rows| && IsNotShared(rows, key)
    ensures IsNotShared(KeptRows(rows, n), key)
  {
    hide IsStale;
    if n > 0 {
      KeptIsNotShared(rows, n - 1, key);
      var front := KeptRows(rows, n - 1);
      forall k | 0 <= k < |front| && front[k].key == Some(key) ensures rows[n - 1].key != Some(key) {
        var i := KeptFrom(rows, n - 1, k);
      }
    }
  }

  lemma CompactedIsNotShared(h: Hasher, rows: seq<Tx>, key: string)
    requires IsNotShared(rows, key)
    ensures IsNotShared(Rechained(h, RenumberedRows(KeptRows(rows, |rows|))), key)
  {
    hide PrintTx, ChainHash, KeptRows, Rechained;
    var kept := RenumberedRows(KeptRows(rows, |rows|));
    KeptIsNotShared(rows, |rows|, key);
    forall i | 0 <= i < |kept| ensures Rechained(h, kept)[i].key == KeptRows(rows, |rows|)[i].key {
      RechainedAt(h, kept, i);
    }
  }

  /** A key that JSON does not escape never gets into a second row, whatever other keys are appended. */
  lemma AppendSharesNoKey(h: Hasher, rows: seq<Tx>, tx: Tx, p: Physical, now: string, key: string)
    requires AreRows(rows) && IsPlainKey(key) && IsNotShared(rows, key)
    ensures IsNotShared(AppendRows(h, rows, tx, p, now), key)
  {
    hide PrintTx, ChainHash, LastRowHash, KeptRows, Rechained, HasRowKey, RenumberedRows, AreRows, IsPlainKey;
    PlainKeyIsFound(rows, key);
    if !(tx.key.Some? && HasRowKey(rows, tx.key.value)) {
      var more := rows + [Chained(h, LastRowHash(rows), tx.(seqNo := Some(|rows|)))];
      assert IsNotShared(more, key);
      CompactedIsNotShared(h, more, key);
    }
  }

  // --- keys through time --------------------------------------------------------------------------

  // A row that compaction never drops has this key.
  ghost predicate HasLastingKey(rows: seq<Tx>, key: string) {
    exists i :: 0 <= i < |rows| && rows[i].key == Some(key) && !IsSnapshot(rows[i])
  }

  lemma CompactionKeepsLastingKey(h: Hasher, rows: seq<Tx>, key: string)
    requires HasLastingKey(rows, key)
    ensures HasLastingKey(Rechained(h, RenumberedRows(KeptRows(rows, |rows|))), key)
  {
    hide PrintTx, ChainHash, KeptRows;
    var i :| 0 <= i < |rows| && rows[i].key == Some(key) && !IsSnapshot(rows[i]);
    assert !IsStale(rows, i);
    var k := KeptHolds(rows, |rows|, i);
    var kept := RenumberedRows(KeptRows(rows, |rows|));
    RechainedAt(h, kept, k);
    assert Rechained(h, kept)[k].key == Some(key) && !IsSnapshot(Rechained(h, kept)[k]);
  }

  lemma PrefixKeepsLastingKey(rows: seq<Tx>, more: seq<Tx>, key: string)
    requires rows <= more && HasLastingKey(rows, key)
    ensures HasLastingKey(more, key)
  {
    var i :| 0 <= i < |rows| && rows[i].key == Some(key) && !IsSnapshot(rows[i]);
    assert more[i] == rows[i];
  }

  /** A key recorded in a row that is not a snapshot stays recorded, and when JSON does not escape it, appending
      with it does nothing. Other keys may be anything. */
  lemma LastingKeyStays(h: Hasher, rows: seq<Tx>, tx: Tx, p: Physical, now: string, key: string)
    requires HasLastingKey(rows, key)
    ensures HasLastingKey(AppendRows(h, rows, tx, p, now), key)
    ensures tx.key == Some(key) && IsPlainKey(key) ==> AppendRows(h, rows, tx, p, now) == rows
  {
    hide PrintTx, IsPlainKey, LastRowHash, KeptRows, Rechained, CheckpointTx, HasRowKey, HasLastingKey, Chained,
         RenumberedRows, NeedsCompaction;
    if tx.key == Some(key) && IsPlainKey(key) {
      LastingKeyIsFound(rows, key);
    }
    var more := rows + [Chained(h, LastRowHash(rows), tx.(seqNo := Some(|rows|)))];
    PrefixKeepsLastingKey(rows, more, key);
    CompactionKeepsLastingKey(h, more, key);
    PrefixKeepsLastingKey(rows, more + [Chained(h, LastRowHash(more), CheckpointTx(p, now, |rows|))], key);
  }

  lemma LastingKeyIsFound(rows: seq<Tx>, key: string)
    requires IsPlainKey(key) && HasLastingKey(rows, key)
    ensures HasRowKey(rows, key)
  {
    hide PrintTx, Contains;
    var i :| 0 <= i < |rows| && rows[i].key == Some(key) && !IsSnapshot(rows[i]);
    PlainKeyOccurs(rows[i]);
  }

  /** A compaction forgets a key exactly when only superseded snapshots have it. */
  lemma CompactionForgetsKeyWhen(h: Hasher, rows: seq<Tx>, key: string)
    ensures var out := Rechained(h, RenumberedRows(KeptRows(rows, |rows|)));
            (exists k :: 0 <= k < |out| && out[k].key == Some(key)) <==>
              exists i :: 0 <= i < |rows| && rows[i].key == Some(key) && !IsStale(rows, i)
  {
    hide PrintTx, ChainHash, KeptRows, IsStale;
    var kept := RenumberedRows(KeptRows(rows, |rows|));
    var out := Rechained(h, kept);
    if k :| 0 <= k < |out| && out[k].key == Some(key) {
      RechainedAt(h, kept, k);
      var i := KeptFrom(rows, |rows|, k);
    }
    if i :| 0 <= i < |rows| && rows[i].key == Some(key) && !IsStale(rows, i) {
      var k := KeptHolds(rows, |rows|, i);
      RechainedAt(h, kept, k);
      assert out[k].key == Some(key);
    }
  }

  /** An append forgets a key exactly when it is accepted, a compaction is due, and every row with the key, the new one
      included, is a superseded snapshot. */
  lemma AppendForgetsKeyWhen(h: Hasher, rows: seq<Tx>, tx: Tx, p: Physical, now: string, key: string)
    requires exists i :: 0 <= i < |rows| && rows[i].key == Some(key)
    ensures var after, more := AppendRows(h, rows, tx, p, now), WithRow(h, rows, tx);
            (forall k :: 0 <= k < |after| ==> after[k].key != Some(key)) <==>
              IsAccepted(rows, tx) && NeedsCompaction(more) && forall i :: 0 <= i < |more| && more[i].key == Some(key) ==> IsStale(more, i)
  {
    hide PrintTx, ChainHash, KeptRows, IsStale, Rechained, HasRowKey, LastRowHash, RenumberedRows, CheckpointTx,
         Chained, NeedsCompaction;
    var more := WithRow(h, rows, tx);
    var i :| 0 <= i < |rows| && rows[i].key == Some(key);
    var after := AppendRows(h, rows, tx, p, now);
    if IsAccepted(rows, tx) && NeedsCompaction(more) {
      assert after == Rechained(h, RenumberedRows(KeptRows(more, |more|)));
      CompactionForgetsKeyWhen(h, more, key);
    } else {
      assert rows <= after;
      assert after[i] == rows[i];
    }
  }

  /** It does happen: behind three hundred rows or more, a keyless snapshot forgets the key of the snapshots that it
      supersedes. */
  lemma CompactionCanForgetKey(h: Hasher, rows: seq<Tx>, tx: Tx, p: Physical, now: string, key: string)
    requires |rows| >= 300 && exists i :: 0 <= i < |rows| && rows[i].key == Some(key)
    requires tx.key.None? && IsSnapshot(tx) && forall i :: 0 <= i < |rows| && rows[i].key == Some(key) ==> rows[i].txType == tx.txType
    ensures var after := AppendRows(h, rows, tx, p, now); forall k :: 0 <= k < |after| ==> after[k].key != Some(key)
  {
    hide PrintTx, ChainHash, KeptRows, Rechained, HasRowKey, LastRowHash;
    var more := WithRow(h, rows, tx);
    assert more[|rows|].txType == tx.txType && more[|rows|].key.None?;
    forall i | 0 <= i < |more| && more[i].key == Some(key) ensures IsStale(more, i) {
      assert more[i] == rows[i] && more[|rows|].txType == more[i].txType;
    }
    var i :| 0 <= i < |rows| && rows[i].key == Some(key);
    StaleIsDropped(more, |more|, i);
    AppendForgetsKeyWhen(h, rows, tx, p, now, key);
  }
}
