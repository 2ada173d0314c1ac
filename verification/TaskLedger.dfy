/** The task ledger: appending a transaction to the file, with deduplication, numbering, hash chain,
    periodic checkpoints and compaction. */
module TaskLedger {
  import opened Wrappers
  import opened Strings
  import opened Json
  import opened Jsonl

  datatype Tx = Tx(
    ts: string,
    txType: string,
    payload: Json,
    key: Option<string>,
    seqNo: Option<nat>,
    schemaVersion: Option<int>,
    chainHash: Option<string>)

  // --- rows as text ----------------------------------------------------------------

  function IntText(n: int): string {
    if n < 0 then ['-'] + Decimal(-n) else Decimal(n)
  }

  // A whole number; minus zero is read as a fraction.
  function IntValue(t: string): Option<int> {
    if t != [] && t[0] == '-' then (if AllDigits(t[1..]) && |t| > 1 && DecimalValue(t[1..]) > 0 then Some(0 - DecimalValue(t[1..])) else None)
    else if t != [] && AllDigits(t) then Some(DecimalValue(t)) else None
  }

  function TextOrNull(s: Option<string>): Json {
    if s.Some? then Str(s.value) else Null
  }

  function NumberOrNull(n: Option<int>): Json {
    if n.Some? then Num(IntText(n.value)) else Null
  }

  /** The members of a row, in the order the fields are declared. */
  function TxMembers(tx: Tx): (ms: seq<Member>)
    ensures |ms| == 7
  {
    [Member("ts", Str(tx.ts)), Member("tx_type", Str(tx.txType)), Member("payload", tx.payload),
     Member("idempotency_key", TextOrNull(tx.key)), Member("seq", NumberOrNull(tx.seqNo)),
     Member("schema_version", NumberOrNull(tx.schemaVersion)), Member("chain_hash", TextOrNull(tx.chainHash))]
  }

  function PrintTx(tx: Tx): string {
    Print(Obj(TxMembers(tx)))
  }

  // An optional field: absent, null, or of the right kind.
  function OptionalText(v: Option<Json>): Result<Option<string>, ()> {
    match v
    case None => Ok(None)
    case Some(Null) => Ok(None)
    case Some(Str(s)) => Ok(Some(s))
    case _ => Err(())
  }

  function OptionalInt(v: Option<Json>): Result<Option<int>, ()> {
    match v
    case None => Ok(None)
    case Some(Null) => Ok(None)
    case Some(Num(t)) => if IntValue(t).Some? then Ok(IntValue(t)) else Err(())
    case _ => Err(())
  }

  function TxOf(ms: seq<Member>): Option<Tx> {
    var ts, txType, payload := Get(ms, "ts"), Get(ms, "tx_type"), Get(ms, "payload");
    var key, n := OptionalText(Get(ms, "idempotency_key")), OptionalInt(Get(ms, "seq"));
    var version, hash := OptionalInt(Get(ms, "schema_version")), OptionalText(Get(ms, "chain_hash"));
    if ts.Some? && ts.value.Str? && txType.Some? && txType.value.Str? && payload.Some?
       && key.Ok? && n.Ok? && (n.value.Some? ==> n.value.value >= 0) && version.Ok? && hash.Ok?
    then Some(Tx(ts.value.s, txType.value.s, payload.value, key.value,
                 if n.value.Some? then Some(n.value.value) else None, version.value, hash.value))
    else None
  }

  /** Reading a row; text that is not a transaction is refused. */
  function ReadTx(text: string): Option<Tx> {
    match Parse(text)
    case Some(Obj(ms)) => TxOf(ms)
    case _ => None
  }

  // --- the hash chain ------------------------------------------------------------------

  /** The 64-bit hash of two texts, left uninterpreted. */
  type Hasher = (string, string) -> nat

  const GENESIS := "genesis"

  // Sixteen hexadecimal digits.
  function Hex(n: nat, digits: nat): (s: string)
    ensures |s| == digits
  {
    if digits == 0 then [] else Hex(n / 16, digits - 1) + [HexDigit(n % 16)]
  }

  function ChainHash(h: Hasher, prev: string, content: string): (s: string)
    ensures |s| == 16
  {
    Hex(h(prev, content) % 0x1_0000_0000_0000_0000, 16)
  }

  // The hash is taken over the row as it is before the hash is stored in it.
  function Chained(h: Hasher, prev: string, tx: Tx): Tx {
    tx.(chainHash := Some(ChainHash(h, prev, PrintTx(tx))))
  }

  // A row that carries a hash, read from a line.
  function HashOfLine(line: string): Option<string> {
    var t := Trim(line);
    if t != [] && t[0] == '{' && ReadTx(t).Some? && ReadTx(t).value.chainHash.Some? && ReadTx(t).value.chainHash.value != []
    then ReadTx(t).value.chainHash else None
  }

  function LastHash(lines: seq<string>): string {
    if lines == [] then GENESIS
    else if HashOfLine(lines[|lines| - 1]).Some? then HashOfLine(lines[|lines| - 1]).value
    else LastHash(lines[..|lines| - 1])
  }

  method LastChainHashFromContent(content: string) returns (hash: string)
    ensures hash == LastHash(Lines(content))
  {
    var lines := SplitLines(content);
    var i := |lines|;
    assert lines[..i] == lines;
    while i > 0
      invariant 0 <= i <= |lines| && LastHash(lines[..i]) == LastHash(lines)
    {
      assert lines[..i][..i - 1] == lines[..i - 1];
      i := i - 1;
      var trimmed := Trim(lines[i]);
      if trimmed == [] || trimmed[0] != '{' {
        continue;
      }
      var tx := ReadTx(trimmed);
      if tx.Some? && tx.value.chainHash.Some? && tx.value.chainHash.value != [] {
        return tx.value.chainHash.value;
      }
    }
    return GENESIS;
  }

  // Every row with its hash recomputed from the hash of the row before; one unreadable line refuses the whole.
  function Rehashed(h: Hasher, lines: seq<string>, prev: string): Result<(string, string), ()> {
    if lines == [] then Ok(([], prev)) else
      match Rehashed(h, lines[..|lines| - 1], prev)
      case Err(e) => Err(e)
      case Ok((out, last)) =>
        var t := Trim(lines[|lines| - 1]);
        if t == [] then Ok((out, last))
        else if ReadTx(t).None? then Err(())
        else
          var tx := Chained(h, last, ReadTx(t).value.(chainHash := None));
          Ok((out + (PrintTx(tx) + ['\n']), tx.chainHash.value))
  }

  function Patched(h: Hasher, content: string): string {
    match Rehashed(h, Lines(content), GENESIS)
    case Err(_) => content
    case Ok((out, _)) => if out == [] then content else out
  }

  method RecomputeChainHashes(h: Hasher, content: string) returns (r: Result<string, ()>)
    ensures r.Ok? ==> r.value == Patched(h, content)
    ensures r.Err? ==> Patched(h, content) == content
  {
    hide ReadTx, PrintTx, ChainHash, Trim, Lines;
    var lines := SplitLines(content);
    var output, prev := "", GENESIS;
    var hasAny := false;
    for i := 0 to |lines|
      invariant Rehashed(h, lines[..i], GENESIS) == Ok((output, prev))
      invariant hasAny <==> output != []
    {
      assert lines[..i + 1][..i] == lines[..i];
      var trimmed := Trim(lines[i]);
      if trimmed == [] {
        continue;
      }
      var parsed := ReadTx(trimmed);
      if parsed.None? {
        FailsFromThen(h, lines, i + 1);
        return Err(());
      }
      var tx := Chained(h, prev, parsed.value.(chainHash := None));
      output := output + (PrintTx(tx) + ['\n']);
      prev := tx.chainHash.value;
      hasAny := true;
    }
    assert lines[..|lines|] == lines;
    if !hasAny {
      return Ok(content);
    }
    return Ok(output);
  }

  lemma {:induction false} FailsFromThen(h: Hasher, lines: seq<string>, i: nat)
    requires i <= |lines| && Rehashed(h, lines[..i], GENESIS).Err?
    ensures Rehashed(h, lines, GENESIS).Err?
    decreases |lines| - i
  {
    hide ReadTx, PrintTx, ChainHash, Trim;
    if i < |lines| {
      assert lines[..i + 1][..i] == lines[..i];
      FailsFromThen(h, lines, i + 1);
    } else {
      assert lines[..i] == lines;
    }
  }

  method PatchLedgerChainHashes(file: File, h: Hasher)
    modifies file
    ensures old(file.content).None? ==> file.content == None
    ensures old(file.content).Some? ==> file.content == Some(Patched(h, old(file.content).value))
  {
    if file.content.Some? {
      var r := RecomputeChainHashes(h, file.content.value);
      if r.Ok? && r.value != file.content.value {
        file.content := Some(r.value);
      }
    }
  }

  // --- appending ---------------------------------------------------------------------------

  predicate OccursAt(text: string, part: string, i: int) {
    0 <= i <= |text| - |part| && text[i..i + |part|] == part
  }

  predicate Contains(text: string, part: string) {
    exists i :: 0 <= i <= |text| - |part| && OccursAt(text, part, i)
  }

  // The line passes the substring filter and is a row with this key.
  predicate LineHasKey(line: string, key: string) {
    var t := Trim(line);
    t != [] && Contains(t, key) && ReadTx(t).Some? && ReadTx(t).value.key == Some(key)
  }

  predicate HasKey(lines: seq<string>, key: string) {
    exists i :: 0 <= i < |lines| && LineHasKey(lines[i], key)
  }

  method FindKey(lines: seq<string>, key: string) returns (found: bool)
    ensures found <==> HasKey(lines, key)
  {
    var i := |lines|;
    while i > 0
      invariant 0 <= i <= |lines|
      invariant forall k :: i <= k < |lines| ==> !LineHasKey(lines[k], key)
    {
      i := i - 1;
      var line := Trim(lines[i]);
      if line == [] {
        continue;
      }
      if !Contains(line, key) {
        continue;
      }
      var existing := ReadTx(line);
      if existing.Some? && existing.value.key == Some(key) {
        return true;
      }
    }
    return false;
  }

  predicate LooksLikeRow(line: string) {
    Trim(line) != [] && Trim(line)[0] == '{'
  }

  function CountRows(lines: seq<string>): nat {
    if lines == [] then 0 else CountRows(lines[..|lines| - 1]) + (if LooksLikeRow(lines[|lines| - 1]) then 1 else 0)
  }

  method CountLedgerLines(lines: seq<string>) returns (n: nat)
    ensures n == CountRows(lines)
  {
    n := 0;
    for i := 0 to |lines|
      invariant n == CountRows(lines[..i])
    {
      assert lines[..i + 1][..i] == lines[..i];
      if Trim(lines[i]) != [] && Trim(lines[i])[0] == '{' {
        n := n + 1;
      }
    }
    assert lines[..|lines|] == lines;
  }

  function TrimNewlines(s: string): string {
    if s != [] && s[|s| - 1] == '\n' then TrimNewlines(s[..|s| - 1]) else s
  }

  // A text with one more line.
  function WithLine(content: string, line: string): string {
    if content == [] then line + ['\n'] else TrimNewlines(content) + (['\n'] + (line + ['\n']))
  }

  /** What the physical files say, captured by a checkpoint. */
  datatype Physical = Physical(goal: Json, evidenceNonEmpty: bool, verified: bool)

  const CHECKPOINT := "state_checkpoint"
  const CHECKPOINT_INTERVAL: nat := 100
  const MAX_LINES: nat := 300

  function CheckpointPayload(p: Physical): Json {
    Obj([Member("evidence", Obj([Member("evidence_rows_non_empty", Bool(p.evidenceNonEmpty)),
                                 Member("has_successful_verification", Bool(p.verified))])),
         Member("goal_state", p.goal)])
  }

  function CheckpointTx(p: Physical, now: string, last: nat): Tx {
    Tx(now, CHECKPOINT, CheckpointPayload(p), None, Some(last), Some(1), None)
  }

  // A row numbered and chained onto the text.
  function RowFor(h: Hasher, content: string, tx: Tx): string {
    PrintTx(Chained(h, LastHash(Lines(content)), tx))
  }

  function WithCheckpoint(h: Hasher, content: string, p: Physical, now: string, last: nat): string {
    WithLine(content, RowFor(h, content, CheckpointTx(p, now, last)))
  }

  predicate IsDuplicate(content: string, tx: Tx) {
    tx.key.Some? && HasKey(Lines(content), tx.key.value)
  }

  function Appended(h: Hasher, content: string, tx: Tx): string {
    WithLine(content, RowFor(h, content, tx.(seqNo := Some(CountRows(Lines(content))))))
  }

  predicate NeedsCheckpoint(n: nat) {
    n > 0 && n % CHECKPOINT_INTERVAL == 0
  }

  // What an append leaves behind, once the corrupt tail is gone. Compaction works on the text from before
  // the checkpoint, so when it has something to do it drops the checkpoint just written.
  function Settled(h: Hasher, content: string, tx: Tx, p: Physical, now: string): string {
    var n := CountRows(Lines(content));
    var text := Appended(h, content, tx);
    if Compacted(text, MAX_LINES).Some? then Patched(h, Compacted(text, MAX_LINES).value)
    else if NeedsCheckpoint(n) then WithCheckpoint(h, text, p, now, n)
    else text
  }

  /** The file after an append, as a function of the file before it. */
  function AfterAppend(h: Hasher, before: Option<string>, tx: Tx, p: Physical, now: string): string {
    match before
    case None => PrintTx(Chained(h, GENESIS, tx.(seqNo := Some(0)))) + ['\n']
    case Some(c) =>
      var content := Repaired(c);
      if IsDuplicate(content, tx) then content else Settled(h, content, tx, p, now)
  }

  method WriteStateCheckpoint(file: File, h: Hasher, p: Physical, now: string, last: nat)
    modifies file
    ensures file.content == Some(var c := if old(file.content).Some? then old(file.content).value else []; WithCheckpoint(h, c, p, now, last))
  {
    var existing := if file.content.Some? then file.content.value else [];
    var prev := LastChainHashFromContent(existing);
    var tx := Chained(h, prev, CheckpointTx(p, now, last));
    file.content := Some(WithLine(existing, PrintTx(tx)));
  }

  /** Appends one row while the caller holds the lock. */
  method AppendTransactionAssumingL1Held(file: File, h: Hasher, tx: Tx, p: Physical, now: string)
    modifies file
    ensures file.content == Some(AfterAppend(h, old(file.content), tx, p, now))
  {
    if file.content.None? {
      var first := Chained(h, GENESIS, tx.(seqNo := Some(0)));
      file.content := Some(PrintTx(first) + ['\n']);
      return;
    }
    var truncated := TruncateCorruptTail(file);
    var content := file.content.value;
    var lines := SplitLines(content);
    if tx.key.Some? {
      var found := FindKey(lines, tx.key.value);
      if found {
        return;
      }
    }
    var count := CountLedgerLines(lines);
    var prev := LastChainHashFromContent(content);
    var final := Chained(h, prev, tx.(seqNo := Some(count)));
    content := WithLine(content, PrintTx(final));
    file.content := Some(content);
    if count > 0 && count % CHECKPOINT_INTERVAL == 0 {
      WriteStateCheckpoint(file, h, p, now, count);
    }
    var compacted := CompactJsonlWithContent(file, content, MAX_LINES);
    if compacted {
      PatchLedgerChainHashes(file, h);
    }
  }

  // --- reading ---------------------------------------------------------------------------------

  // The rows among the lines; lines that are not transactions are skipped.
  function RowsOf(lines: seq<string>): seq<Tx> {
    if lines == [] then [] else
      var front, t := RowsOf(lines[..|lines| - 1]), Trim(lines[|lines| - 1]);
      if t != [] && ReadTx(t).Some? then front + [ReadTx(t).value] else front
  }

  /** The rows of a ledger text, its corrupt tail cut off. */
  function Rows(content: string): seq<Tx> {
    RowsOf(Lines(Repaired(content)))
  }

  method ReadTaskLedgerTransactions(file: File) returns (txs: seq<Tx>)
    modifies file
    ensures old(file.content).None? ==> file.content == None && txs == []
    ensures old(file.content).Some? ==>
              file.content == Some(Repaired(old(file.content).value)) && txs == Rows(old(file.content).value)
  {
    hide Repaired, Lines, Trim, ReadTx;
    txs := [];
    if file.content.None? {
      return;
    }
    var truncated := TruncateCorruptTail(file);
    var lines := SplitLines(file.content.value);
    for i := 0 to |lines|
      invariant txs == RowsOf(lines[..i])
    {
      assert lines[..i + 1][..i] == lines[..i];
      var trimmed := Trim(lines[i]);
      if trimmed == [] {
        continue;
      }
      var tx := ReadTx(trimmed);
      if tx.Some? {
        txs := txs + [tx.value];
      }
    }
    assert lines[..|lines|] == lines;
  }
}
