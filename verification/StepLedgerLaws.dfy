/** When the step ledger records an entry exactly once, and when it does not. */
module StepLedgerLaws {
  import opened Wrappers
  import opened Json
  import opened JsonRoundTrip
  import opened Jsonl
  import opened JsonlLaws
  import opened CompactionLaws
  import opened JsonScanner
  import opened ScannerLaws
  import opened StepLedger

  // --- texts that are entries ---------------------------------------------------------

  // Step entries carry no transaction type, so compaction never touches them.
  ghost predicate AreEntries(objects: seq<seq<Member>>) {
    forall i :: 0 <= i < |objects| ==> IsEntry(objects[i])
  }

  predicate IsEntry(ms: seq<Member>) {
    IsSorted(ms) && ValuesWellFormed(ms) && Get(ms, "tx_type").None?
  }

  lemma EntryLine(ms: seq<Member>)
    requires IsEntry(ms)
    ensures var p := Print(Obj(ms));
            && p != [] && p[0] == '{' && HasNoNewline(p) && Trim(p + ['\n']) == p && Trim(p) == p
            && IsValidLine(p + ['\n']) && IsValidLine(p)
  {
    hide Parse, IsSorted, ValuesWellFormed, PrintMembers, HasNoNewline, Trim, IsTrimmed;
    ObjectLine(ms);
    TrimmedNotEmpty(Print(Obj(ms)));
  }

  lemma EntriesAreValid(objects: seq<seq<Member>>, junk: string)
    requires AreEntries(objects) && NoneValid(Lines(junk))
    ensures Repaired(PrintLines(objects) + junk) == PrintLines(objects)
  {
    if objects == [] {
      assert [] + junk == junk;
      NothingToKeep(junk);
    } else {
      var n := |objects| - 1;
      EntryLine(objects[n]);
      var line := Print(Obj(objects[n])) + ['\n'];
      assert line[..|line| - 1] == Print(Obj(objects[n]));
      LastLineKept(PrintLines(objects[..n]), line, junk);
    }
  }

  lemma LinesOfEntries(objects: seq<seq<Member>>)
    requires AreEntries(objects)
    ensures Lines(PrintLines(objects)) == WithNewlines(Texts(objects))
    ensures Objects(Lines(PrintLines(objects))) == objects
  {
    hide Lines, PrintLines, Objects, Others, JoinLines, IsSorted, ValuesWellFormed;
    PrintLinesIsJoin(objects);
    ReadBackObjects(objects);
    LinesOfJoin(Texts(objects));
  }

  lemma NothingToCompact(objects: seq<seq<Member>>)
    requires AreEntries(objects)
    ensures AfterCompaction(PrintLines(objects), StepLedger.MAX_LINES) == PrintLines(objects)
  {
    hide PrintLines, Lines, Objects, Others, Survivors;
    LinesOfEntries(objects);
  }

  // --- recording once --------------------------------------------------------------------

  // An entry whose stored key the scanner reads as the given one.
  ghost predicate IsSeen(objects: seq<seq<Member>>, key: string) {
    exists i :: 0 <= i < |objects| && Matches(Get(objects[i], KEY), key)
  }

  lemma SeenIsRecorded(objects: seq<seq<Member>>, junk: string, key: string)
    requires AreEntries(objects) && NoneValid(Lines(junk))
    ensures IsRecorded(PrintLines(objects) + junk, key) <==> Trim(key) != [] && IsSeen(objects, key)
  {
    EntriesAreValid(objects, junk);
    LinesOfEntries(objects);
    forall i | 0 <= i < |objects|
      ensures LineMatches(WithNewlines(Texts(objects))[i], key) <==> Matches(Get(objects[i], KEY), key)
    {
      EntryLine(objects[i]);
      ScanReadsTopLevelKey(objects[i], key);
    }
  }

  /** On whole entries, with or without a corrupt tail, an append with a key adds its entry exactly when the
      scanner sees the key in none of them, and changes no entry. */
  lemma EntryIsAddedOnce(objects: seq<seq<Member>>, junk: string, entry: seq<Member>, key: string)
    requires AreEntries(objects) && IsEntry(entry) && NoneValid(Lines(junk)) && Trim(key) != []
    ensures AfterEntry(Some(PrintLines(objects) + junk), entry, Some(key)) ==
              if IsSeen(objects, key) then (false, Some(PrintLines(objects))) else (true, Some(PrintLines(objects + [entry])))
  {
    EntriesAreValid(objects, junk);
    SeenIsRecorded(objects, junk, key);
    var more := objects + [entry];
    assert more[..|objects|] == objects;
    EntriesAreValid(more, []);
    assert PrintLines(more) + [] == PrintLines(more);
    NothingToCompact(more);
  }

  // The file is missing, or holds whole entries and possibly a corrupt tail.
  ghost predicate HoldsEntries(file: Option<string>, objects: seq<seq<Member>>) {
    if file.None? then objects == []
    else exists junk :: NoneValid(Lines(junk)) && file.value == PrintLines(objects) + junk
  }

  lemma LinesOfOneEntry(entry: seq<Member>)
    ensures PrintLines([entry]) == [] + (Print(Obj(entry)) + ['\n'])
  {
    hide Print;
    assert [entry][..0] == [];
  }

  lemma FirstEntry(entry: seq<Member>, key: string)
    requires IsEntry(entry)
    ensures AfterEntry(None, entry, Some(key)) == (true, Some(PrintLines([entry]))) && [] + [entry] == [entry] && !IsSeen([], key)
  {
    hide IsEntry, Print, Lines, Trim, NoneValid, AfterCompaction, Repaired, IsRecorded, Matches, PrintLines;
    LinesOfOneEntry(entry);
    NothingInNothing();
    EntriesAreValid([entry], []);
    assert PrintLines([entry]) + [] == PrintLines([entry]);
    NothingToCompact([entry]);
  }

  lemma EntryGoesIn(file: Option<string>, objects: seq<seq<Member>>, entry: seq<Member>, key: string)
    requires AreEntries(objects) && IsEntry(entry) && HoldsEntries(file, objects) && Trim(key) != []
    ensures var (changed, after) := AfterEntry(file, entry, Some(key));
            && changed == !IsSeen(objects, key)
            && after == Some(PrintLines(if changed then objects + [entry] else objects))
  {
    hide PrintLines, AfterEntry, IsEntry, IsSeen, Trim, NoneValid, Lines;
    if file.Some? {
      var junk :| NoneValid(Lines(junk)) && file.value == PrintLines(objects) + junk;
      EntryIsAddedOnce(objects, junk, entry, key);
    } else {
      FirstEntry(entry, key);
    }
  }

  lemma SeenAfter(objects: seq<seq<Member>>, entry: seq<Member>, key: string)
    requires Get(entry, KEY) == Some(Str(key)) && !IsSeen(objects, key)
    ensures IsSeen(objects + [entry], key) <==> HasNoControl(key)
  {
    hide Misread;
    MisreadIsHarmless(key);
    var more := objects + [entry];
    assert more[|objects|] == entry;
    forall i | 0 <= i < |objects| ensures !Matches(Get(more[i], KEY), key) {
      assert more[i] == objects[i];
    }
  }

  /** A second append with the same key does nothing exactly when the key has no control character; otherwise
      it adds a second entry. */
  lemma SecondAppendIsNoOpWhen(objects: seq<seq<Member>>, junk: string, first: seq<Member>, second: seq<Member>, key: string)
    requires AreEntries(objects) && IsEntry(first) && IsEntry(second) && NoneValid(Lines(junk)) && Trim(key) != []
    requires Get(first, KEY) == Some(Str(key)) && !IsSeen(objects, key)
    ensures var once := AfterEntry(Some(PrintLines(objects) + junk), first, Some(key)).1;
            && once == Some(PrintLines(objects + [first]))
            && AfterEntry(once, second, Some(key)) ==
                 if HasNoControl(key) then (false, once) else (true, Some(PrintLines(objects + [first, second])))
  {
    EntryIsAddedOnce(objects, junk, first, key);
    SeenAfter(objects, first, key);
    EntryIsAddedOnce(objects + [first], [], second, key);
    assert PrintLines(objects + [first]) + [] == PrintLines(objects + [first]);
    assert objects + [first] + [second] == objects + [first, second];
  }

  // --- a tear just before the newline ---------------------------------------------------------

  lemma GluedIsInvalid(a: seq<Member>, b: seq<Member>)
    requires IsEntry(a) && IsEntry(b)
    ensures var line := Print(Obj(a)) + (Print(Obj(b)) + ['\n']);
            NoneValid(Lines(line)) && IsTrimmed(Print(Obj(a)) + Print(Obj(b)))
  {
    EntryLine(a);
    EntryLine(b);
    var glued := Print(Obj(a)) + Print(Obj(b));
    assert Print(Obj(a)) + (Print(Obj(b)) + ['\n']) == glued + ['\n'];
    LinesOfOne(glued);
    TrimOfLine(glued);
    ObjectRoundTrip(a, Print(Obj(b)));
    assert SkipSpace(glued) == glued;
    assert SkipSpace(Print(Obj(b))) == Print(Obj(b));
  }

  // Entries whose last line has lost its newline.
  function TornText(objects: seq<seq<Member>>): string
    requires objects != []
  {
    PrintLines(objects[..|objects| - 1]) + Print(Obj(objects[|objects| - 1]))
  }

  lemma TornIsStillValid(objects: seq<seq<Member>>)
    requires AreEntries(objects) && objects != []
    ensures Repaired(TornText(objects)) == TornText(objects)
  {
    var n := |objects| - 1;
    var front, p := PrintLines(objects[..n]), Print(Obj(objects[n]));
    var s := TornText(objects);
    EntryLine(objects[n]);
    OpenLineEnd(front, p);
    EarlierLinesDoNotMatter(s, 0, |front|);
    assert s[..|s|] == s;
  }

  /** A tear exactly before a newline is not repaired: the next append is glued to the torn line, the glued line
      is cut off as corrupt, and both entries are gone although the append reports success. */
  lemma TearBeforeNewlineLosesTwoEntries(objects: seq<seq<Member>>, entry: seq<Member>, key: string)
    requires AreEntries(objects) && objects != [] && IsEntry(entry)
    requires !IsRecorded(TornText(objects), key)
    ensures AfterEntry(Some(TornText(objects)), entry, Some(key)) == (true, Some(PrintLines(objects[..|objects| - 1])))
  {
    hide PrintLines, Lines, Repaired, IsEntry, Print, IsRecorded, Trim, NoneValid, AfterCompaction;
    var n := |objects| - 1;
    var front, p, q := PrintLines(objects[..n]), Print(Obj(objects[n])), Print(Obj(entry));
    TornIsStillValid(objects);
    GluedIsInvalid(objects[n], entry);
    assert (front + p) + (q + ['\n']) == front + (p + (q + ['\n']));
    EntriesAreValid(objects[..n], p + (q + ['\n']));
    NothingToCompact(objects[..n]);
  }

  // --- any text at all --------------------------------------------------------------------------

  // A text is whole lines and an open end.
  lemma {:induction false} OpenEnd(t: string) returns (a: string, b: string)
    ensures t == a + b && (a == [] || a[|a| - 1] == '\n') && HasNoNewline(b)
  {
    if t == [] || t[|t| - 1] == '\n' {
      a, b := t, [];
    } else {
      a, b := OpenEnd(t[..|t| - 1]);
      b := b + [t[|t| - 1]];
    }
  }

  lemma {:induction false} JunkIsCut(a: string, junk: string, i: nat)
    requires i <= |a| && (a == [] || a[|a| - 1] == '\n') && NoneValid(Lines(junk))
    ensures LastValidEnd(a + junk, i) == LastValidEnd(a, i)
    decreases |a| - i
  {
    hide IsValidLine, NoneValid;
    var s := a + junk;
    assert s[..|a|] == a;
    if i < |a| {
      LineEndOfPrefix(s, |a|, i);
      var e := LineEnd(a, i);
      assert s[i..e] == a[i..e];
      JunkIsCut(a, junk, e);
    } else {
      LinesShift(a, junk, 0);
      NoneValidNoEnd(s, |a|);
    }
  }

  // One more line behind whole lines stays if it is valid, and otherwise takes nothing with it.
  lemma OneLineRepaired(a: string, line: string)
    requires (a == [] || a[|a| - 1] == '\n') && HasNoNewline(line)
    ensures Repaired(a + (line + ['\n'])) == if IsValidLine(line + ['\n']) then a + (line + ['\n']) else Repaired(a)
  {
    hide IsValidLine, LastValidEnd, Lines, LineEnd;
    var l := line + ['\n'];
    if IsValidLine(l) {
      assert l[..|l| - 1] == line && (a + l) + [] == a + l;
      NothingInNothing();
      LastLineKept(a, l, []);
    } else {
      LinesOfOne(line);
      JunkIsCut(a, l, 0);
      RepairedByEnd(a, l);
    }
  }

  lemma RepairedByEnd(a: string, junk: string)
    requires LastValidEnd(a + junk, 0) == LastValidEnd(a, 0)
    ensures Repaired(a + junk) == Repaired(a)
  {
    hide LastValidEnd;
    var e := LastValidEnd(a, 0);
    assert e.Some? ==> (a + junk)[..e.value] == a[..e.value];
  }

  lemma {:induction false} BlankIsTrimmed(b: string, t: string)
    requires TrimStart(b) == []
    ensures TrimStart(b + t) == TrimStart(t)
  {
    if b != [] {
      BlankIsTrimmed(b[1..], t);
      assert (b + t)[1..] == b[1..] + t;
    } else {
      assert b + t == t;
    }
  }

  lemma BlankOpenEnd(b: string, entry: seq<Member>)
    requires Trim(b) == [] && IsEntry(entry)
    ensures var l := (b + Print(Obj(entry))) + ['\n'];
            Trim(l) == Print(Obj(entry)) && IsValidLine(l) && Parse(Trim(l)) == Some(Obj(entry))
  {
    hide Parse, Print, HasNoNewline, IsWellFormed;
    var p := Print(Obj(entry));
    EntryLine(entry);
    EntryParses(entry);
    var k := TrimStartIsSuffix(b);
    var j := TrimEndIsPrefix(TrimStart(b));
    BlankIsTrimmed(b, p + ['\n']);
    assert (b + p) + ['\n'] == b + (p + ['\n']);
  }

  lemma EntryParses(entry: seq<Member>)
    requires IsEntry(entry)
    ensures Parse(Print(Obj(entry))) == Some(Obj(entry))
  {
    ParseInvertsPrint(Obj(entry));
  }

  // The open end of the file and the new entry become one line.
  function Glued(b: string, entry: seq<Member>): string {
    (b + Print(Obj(entry))) + ['\n']
  }

  /** An append that is not a duplicate, over any file whatever, with a key or without: it always reports success, but
      the entry is glued to the open end of the file. The glued line stays exactly when it is valid, and then
      everything before it does; otherwise it is cut off with the invalid lines before it. When the open end is blank
      the entry is added behind the entries before it. */
  lemma EntryOverAnyText(file: Option<string>, entry: seq<Member>, key: Option<string>, a: string, b: string)
    requires IsEntry(entry) && !(key.Some? && file.Some? && IsRecorded(file.value, key.value))
    requires var checked := AfterCheck(file, key); a + b == if checked.Some? then checked.value else []
    requires (a == [] || a[|a| - 1] == '\n') && HasNoNewline(b)
    ensures AfterEntry(file, entry, key) ==
              (true, Some(AfterCompaction(if IsValidLine(Glued(b, entry)) then a + Glued(b, entry) else Repaired(a), 300)))
    ensures Trim(b) == [] ==> IsValidLine(Glued(b, entry)) && Objects(Lines(a + Glued(b, entry))) == Objects(Lines(a)) + [entry]
  {
    hide IsEntry, Print, IsRecorded, AfterCompaction, Repaired, IsValidLine, Trim, Lines, AfterCheck, Parse;
    var p := Print(Obj(entry));
    EntryLine(entry);
    assert (a + b) + (p + ['\n']) == a + Glued(b, entry);
    OneLineRepaired(a, b + p);
    if Trim(b) == [] {
      BlankOpenEnd(b, entry);
      LinesConcat(a, Glued(b, entry));
      LinesOfOne(b + p);
      ObjectAdded(Lines(a), Glued(b, entry), entry);
    }
  }

  lemma ObjectAdded(lines: seq<string>, line: string, entry: seq<Member>)
    requires IsValidLine(line) && Parse(Trim(line)) == Some(Obj(entry))
    ensures Objects(lines + [line]) == Objects(lines) + [entry]
  {
    hide Parse, Trim;
    assert (lines + [line])[..|lines|] == lines;
  }
}
