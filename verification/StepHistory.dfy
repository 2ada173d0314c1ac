/** Whole histories of a step ledger: appends with a key and without, lookups, and corrupt tails torn onto the file. */
module StepHistory {
  import opened Wrappers
  import opened Json
  import opened Jsonl
  import opened JsonlLaws
  import opened JsonScanner
  import opened ScannerLaws
  import opened StepLedger
  import opened StepLedgerLaws

  datatype Event =
    | Entry(entry: seq<Member>, key: Option<string>)
    | Lookup(wanted: string)
    | Tear(junk: string)

  // A blank key is as good as none.
  predicate IsKeyed(key: Option<string>) {
    key.Some? && Trim(key.value) != []
  }

  function EntriesIn(file: Option<string>): seq<seq<Member>> {
    if file.Some? then Objects(Lines(Repaired(file.value))) else []
  }

  // The entry stores the key it is appended with, or null.
  ghost predicate Stores(entry: seq<Member>, key: Option<string>) {
    Get(entry, "idempotency_key") == Some(if key.Some? then Str(key.value) else Null)
  }

  // An append that looks for no key repairs nothing, so it needs a file without a corrupt tail. Junk is torn onto
  // the file when it brings no valid line with it.
  ghost predicate IsStep(before: Option<string>, e: Event, after: Option<string>) {
    match e
    case Entry(entry, key) =>
      && IsEntry(entry) && Stores(entry, key)
      && (IsKeyed(key) || (before.Some? ==> Repaired(before.value) == before.value))
      && after == AfterEntry(before, entry, key).1
    case Lookup(key) => after == AfterCheck(before, Some(key))
    case Tear(junk) => before.Some? && after == Some(before.value + junk) && Repaired(before.value + junk) == Repaired(before.value)
  }

  /** A history starts without a file. */
  ghost predicate IsHistory(files: seq<Option<string>>, events: seq<Event>) {
    && |files| == |events| + 1
    && files[0] == None
    && forall n :: 0 <= n < |events| ==> IsStep(files[n], events[n], files[n + 1])
  }

  // --- what every history keeps -----------------------------------------------------------

  // Whole printed entries and then, possibly, junk.
  ghost predicate IsStepFile(file: Option<string>) {
    AreEntries(EntriesIn(file)) && (file.Some? ==> Repaired(file.value) == PrintLines(EntriesIn(file)))
  }

  // The append finds its key in some entry.
  ghost predicate IsRefused(objects: seq<seq<Member>>, key: Option<string>) {
    IsKeyed(key) && IsSeen(objects, key.value)
  }

  lemma HoldsEntriesOf(file: Option<string>)
    requires IsStepFile(file)
    ensures HoldsEntries(file, EntriesIn(file))
  {
    hide Repaired, Lines, Objects, PrintLines, AreEntries, NoneValid;
    if file.Some? {
      var junk := JunkBehind(file.value);
    }
  }

  lemma PrintedIsStepFile(objects: seq<seq<Member>>)
    requires AreEntries(objects)
    ensures IsStepFile(Some(PrintLines(objects))) && EntriesIn(Some(PrintLines(objects))) == objects
  {
    hide Repaired, Lines, Objects, PrintLines, AreEntries, NoneValid;
    NothingInNothing();
    EntriesAreValid(objects, []);
    assert PrintLines(objects) + [] == PrintLines(objects);
    LinesOfEntries(objects);
  }

  // An append that looks for no key, on whole entries.
  lemma UnkeyedGoesIn(file: Option<string>, objects: seq<seq<Member>>, entry: seq<Member>, key: Option<string>)
    requires AreEntries(objects) && IsEntry(entry) && !IsKeyed(key)
    requires if file.Some? then file.value == PrintLines(objects) else objects == []
    ensures AfterEntry(file, entry, key) == (true, Some(PrintLines(objects + [entry])))
  {
    hide IsEntry, Repaired, Lines, Trim, NoneValid, AfterCompaction, Print, PrintLines;
    var more := objects + [entry];
    PrintOneMore(objects, entry);
    NothingInNothing();
    EntriesAreValid(more, []);
    assert PrintLines(more) + [] == PrintLines(more);
    NothingToCompact(more);
  }

  lemma PrintOneMore(objects: seq<seq<Member>>, entry: seq<Member>)
    ensures PrintLines(objects + [entry]) == PrintLines(objects) + (Print(Obj(entry)) + ['\n']) && PrintLines([]) == []
  {
    hide Print;
    assert (objects + [entry])[..|objects|] == objects;
  }

  lemma OneMoreIsEntries(objects: seq<seq<Member>>, entry: seq<Member>)
    requires AreEntries(objects) && IsEntry(entry)
    ensures AreEntries(objects + [entry])
  {
    hide IsEntry;
  }

  lemma EntryKeeps(before: Option<string>, entry: seq<Member>, key: Option<string>)
    requires IsStepFile(before) && IsEntry(entry)
    requires IsKeyed(key) || (before.Some? ==> Repaired(before.value) == before.value)
    ensures var objects := EntriesIn(before);
            AfterEntry(before, entry, key) ==
              if IsRefused(objects, key) then (false, Some(PrintLines(objects))) else (true, Some(PrintLines(objects + [entry])))
  {
    hide IsEntry, AfterEntry, Repaired, Lines, Objects, PrintLines, AreEntries, HoldsEntries, IsSeen, Trim;
    if IsKeyed(key) {
      HoldsEntriesOf(before);
      EntryGoesIn(before, EntriesIn(before), entry, key.value);
    } else {
      UnkeyedGoesIn(before, EntriesIn(before), entry, key);
    }
  }

  /** One event: the file stays whole entries with or without junk, and they change only by an entry that is added, which
      happens exactly when its key is in none of them. */
  lemma StepKeeps(before: Option<string>, e: Event, after: Option<string>)
    requires IsStepFile(before) && IsStep(before, e, after)
    ensures IsStepFile(after)
    ensures EntriesIn(after) == if e.Entry? && !IsRefused(EntriesIn(before), e.key) then EntriesIn(before) + [e.entry] else EntriesIn(before)
  {
    hide IsEntry, AfterEntry, Repaired, Lines, Objects, PrintLines, AreEntries, IsRefused, Trim, IsStepFile, EntriesIn;
    var objects := EntriesIn(before);
    StepFileIs(before);
    match e {
      case Entry(entry, key) =>
        EntryKeeps(before, entry, key);
        if IsRefused(objects, key) {
          PrintedIsStepFile(objects);
        } else {
          OneMoreIsEntries(objects, entry);
          PrintedIsStepFile(objects + [entry]);
        }
      case Lookup(key) =>
        if before.Some? {
          PrintedIsStepFile(objects);
        }
      case Tear(junk) =>
        SameRepair(before, after);
    }
  }

  lemma StepFileIs(file: Option<string>)
    requires IsStepFile(file)
    ensures AreEntries(EntriesIn(file)) && (file.Some? ==> Repaired(file.value) == PrintLines(EntriesIn(file)))
  {
  }

  lemma SameRepair(before: Option<string>, after: Option<string>)
    requires before.Some? && after.Some? && Repaired(after.value) == Repaired(before.value) && IsStepFile(before)
    ensures IsStepFile(after) && EntriesIn(after) == EntriesIn(before)
  {
    hide Repaired, Lines, Objects, PrintLines, AreEntries;
  }

  lemma {:induction false} FileIsKept(files: seq<Option<string>>, events: seq<Event>, n: nat)
    requires IsHistory(files, events) && n < |files|
    ensures IsStepFile(files[n])
  {
    hide IsStep, Repaired;
    if n > 0 {
      FileIsKept(files, events, n - 1);
      assert IsStep(files[n - 1], events[n - 1], files[n - 1 + 1]);
      StepKeeps(files[n - 1], events[n - 1], files[n]);
    }
  }

  /** No entry is ever lost, moved or changed. */
  lemma {:induction false} EntriesOnlyGrow(files: seq<Option<string>>, events: seq<Event>, m: nat, n: nat)
    requires IsHistory(files, events) && m <= n < |files|
    ensures EntriesIn(files[m]) <= EntriesIn(files[n])
    decreases n
  {
    hide IsStep, IsStepFile, EntriesIn, IsRefused;
    if m < n {
      EntriesOnlyGrow(files, events, m, n - 1);
      FileIsKept(files, events, n - 1);
      assert IsStep(files[n - 1], events[n - 1], files[n - 1 + 1]);
      StepKeeps(files[n - 1], events[n - 1], files[n]);
    }
  }

  // The scanner reads these keys as they are stored.
  predicate IsReadable(key: string) {
    Trim(key) != [] && HasNoControl(key)
  }

  ghost predicate IsInOneAtMost(objects: seq<seq<Member>>, key: string) {
    forall i, j :: 0 <= i < j < |objects| && Stores(objects[i], Some(key)) ==> !Stores(objects[j], Some(key))
  }

  lemma StoredIsSeen(objects: seq<seq<Member>>, i: nat, key: string)
    requires i < |objects| && Stores(objects[i], Some(key)) && IsReadable(key)
    ensures IsSeen(objects, key)
  {
    hide Get, Misread;
    MisreadIsHarmless(key);
  }

  /** A key without control characters is in one entry at most, in every state of every history, whatever other keys
      are appended. */
  lemma {:induction false} NoKeyIsRepeated(files: seq<Option<string>>, events: seq<Event>, n: nat, key: string)
    requires IsHistory(files, events) && n < |files| && IsReadable(key)
    ensures IsInOneAtMost(EntriesIn(files[n]), key)
  {
    hide IsStepFile, EntriesIn, IsSeen, IsEntry, Get, AfterEntry, AfterCheck, Repaired, HasNoControl, Trim;
    if n > 0 {
      NoKeyIsRepeated(files, events, n - 1, key);
      FileIsKept(files, events, n - 1);
      var before, e := EntriesIn(files[n - 1]), events[n - 1];
      assert IsStep(files[n - 1], e, files[n - 1 + 1]);
      StepKeeps(files[n - 1], e, files[n]);
      if i :| 0 <= i < |before| && Stores(before[i], Some(key)) {
        StoredIsSeen(before, i, key);
      }
    } else {
      NoEntries();
    }
  }

  lemma NoEntries()
    ensures EntriesIn(None) == []
  {
  }

  /** Idempotence over time: from the first append with such a key on, every later append with it leaves the entries as
      they are, whatever happened in between. */
  lemma AppendsAreIdempotent(files: seq<Option<string>>, events: seq<Event>, m: nat, n: nat, key: string)
    requires IsHistory(files, events) && m < n < |events| && IsReadable(key)
    requires events[m].Entry? && events[m].key == Some(key)
    requires events[n].Entry? && events[n].key == Some(key)
    ensures IsSeen(EntriesIn(files[m + 1]), key) && EntriesIn(files[n + 1]) == EntriesIn(files[n])
  {
    hide IsStepFile, EntriesIn, IsSeen, IsEntry, Get, AfterEntry, Repaired, HasNoControl;
    FileIsKept(files, events, m);
    assert IsStep(files[m], events[m], files[m + 1]);
    StepKeeps(files[m], events[m], files[m + 1]);
    var once := EntriesIn(files[m + 1]);
    if !IsSeen(EntriesIn(files[m]), key) {
      StoredIsSeen(once, |once| - 1, key);
    }
    EntriesOnlyGrow(files, events, m + 1, n);
    SeenStays(once, EntriesIn(files[n]), key);
    FileIsKept(files, events, n);
    assert IsStep(files[n], events[n], files[n + 1]);
    StepKeeps(files[n], events[n], files[n + 1]);
  }

  lemma SeenStays(objects: seq<seq<Member>>, more: seq<seq<Member>>, key: string)
    requires objects <= more && IsSeen(objects, key)
    ensures IsSeen(more, key)
  {
    hide Get, Matches;
    var i :| 0 <= i < |objects| && Matches(Get(objects[i], KEY), key);
    assert more[i] == objects[i];
  }
}
