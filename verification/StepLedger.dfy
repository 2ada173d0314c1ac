/** The step ledger: appending an entry unless its key is already recorded, with the key found by the scanner. */
module StepLedger {
  import opened Wrappers
  import opened Json
  import opened Jsonl
  import opened JsonScanner

  const MAX_LINES: nat := 300

  predicate LineMatches(line: string, key: string) {
    Trim(line) != [] && Scan(Trim(line), key)
  }

  // A line of the repaired text matches the key; a blank key matches nothing.
  predicate IsRecorded(text: string, key: string) {
    Trim(key) != [] && exists i :: 0 <= i < |Lines(Repaired(text))| && LineMatches(Lines(Repaired(text))[i], key)
  }

  method StepLedgerContainsIdempotencyKey(file: File, key: string) returns (found: bool)
    modifies file
    ensures found <==> old(file.content).Some? && IsRecorded(old(file.content).value, key)
    ensures file.content == AfterCheck(old(file.content), Some(key))
    ensures Trim(key) == [] ==> !found && file.content == old(file.content)
    ensures Trim(key) != [] && old(file.content).Some? ==> file.content == Some(Repaired(old(file.content).value))
  {
    hide Repaired, Lines, Trim, Scan;
    if Trim(key) == [] || file.content.None? {
      return false;
    }
    var truncated := TruncateCorruptTail(file);
    var lines := SplitLines(file.content.value);
    for i := 0 to |lines|
      invariant file.content == AfterCheck(old(file.content), Some(key))
      invariant forall k :: 0 <= k < i ==> !LineMatches(lines[k], key)
    {
      var trimmed := Trim(lines[i]);
      if trimmed == [] {
        continue;
      }
      var matches := ScanJsonlForIdempotencyKey(trimmed, key);
      if matches {
        return true;
      }
    }
    return false;
  }

  // Looking for a key repairs the file first, unless the key is blank.
  function AfterCheck(before: Option<string>, key: Option<string>): Option<string> {
    if key.Some? && Trim(key.value) != [] && before.Some? then Some(Repaired(before.value)) else before
  }

  /** Whether an entry is added, and the file afterwards. */
  function AfterEntry(before: Option<string>, entry: seq<Member>, key: Option<string>): (bool, Option<string>) {
    var checked := AfterCheck(before, key);
    if key.Some? && before.Some? && IsRecorded(before.value, key.value) then (false, checked)
    else
      var text := (if checked.Some? then checked.value else []) + (Print(Obj(entry)) + ['\n']);
      (true, Some(AfterCompaction(Repaired(text), MAX_LINES)))
  }

  method AppendJsonlEntry(file: File, entry: seq<Member>, key: Option<string>) returns (changed: bool)
    modifies file
    ensures (changed, file.content) == AfterEntry(old(file.content), entry, key)
  {
    hide IsRecorded, Repaired, AfterCompaction, Compacted, Print;
    if key.Some? {
      var found := StepLedgerContainsIdempotencyKey(file, key.value);
      if found {
        return false;
      }
    }
    var existing := if file.content.Some? then file.content.value else [];
    var line := Print(Obj(entry)) + ['\n'];
    file.content := Some(existing + line);
    var maintained := TruncateAndCompact(file, MAX_LINES);
    return true;
  }
}
