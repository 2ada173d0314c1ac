/** What compacting a text keeps, and that compacting twice is compacting once. */
module CompactionLaws {
  import opened Wrappers
  import opened Places
  import opened Strings
  import opened Json
  import opened Jsonl
  import opened JsonlLaws

  // --- whatever is parsed is well-formed ---------------------------------------------

  lemma {:induction false} InsertKeepsOrder(ms: seq<Member>, key: string, value: Json, low: string)
    requires IsSorted(ms) && Less(low, key) && (ms != [] ==> Less(low, ms[0].key))
    ensures IsSorted(Insert(ms, key, value)) && Less(low, Insert(ms, key, value)[0].key)
  {
    var r := Insert(ms, key, value);
    if ms != [] {
      if ms[0].key == key {
        assert forall i :: 0 < i < |ms| ==> r[i] == ms[i];
      } else if Less(key, ms[0].key) {
        forall i | 0 <= i < |ms| ensures Less(key, ms[i].key) {
          if i > 0 {
            LessIsTransitive(key, ms[0].key, ms[i].key);
          }
        }
      } else {
        LessIsTotal(key, ms[0].key);
        assert ms[1..] != [] ==> ms[1..][0] == ms[1];
        assert IsSorted(ms[1..]);
        InsertKeepsOrder(ms[1..], key, value, ms[0].key);
        var tail := Insert(ms[1..], key, value);
        forall i | 0 <= i < |tail| ensures Less(ms[0].key, tail[i].key) {
          if i > 0 {
            LessIsTransitive(ms[0].key, tail[0].key, tail[i].key);
          }
        }
      }
    }
  }

  lemma InsertKeepsSorted(ms: seq<Member>, key: string, value: Json)
    requires IsSorted(ms)
    ensures IsSorted(Insert(ms, key, value))
  {
    if ms != [] && ms[0].key != key && !Less(key, ms[0].key) {
      LessIsTotal(key, ms[0].key);
      InsertKeepsOrder(ms[1..], key, value, ms[0].key);
      var tail := Insert(ms[1..], key, value);
      forall i | 0 <= i < |tail| ensures Less(ms[0].key, tail[i].key) {
        if i > 0 {
          LessIsTransitive(ms[0].key, tail[0].key, tail[i].key);
        }
      }
    } else if ms != [] && ms[0].key != key {
      forall i | 0 <= i < |ms| ensures Less(key, ms[i].key) {
        if i > 0 {
          LessIsTransitive(key, ms[0].key, ms[i].key);
        }
      }
    }
  }

  lemma {:induction false} InsertKeepsValues(ms: seq<Member>, key: string, value: Json)
    requires ValuesWellFormed(ms) && IsWellFormed(value)
    ensures ValuesWellFormed(Insert(ms, key, value))
  {
    if ms != [] && ms[0].key != key && !Less(key, ms[0].key) {
      InsertKeepsValues(ms[1..], key, value);
    }
  }

  lemma {:induction false} ParsedValueIsWellFormed(s: string)
    ensures ParseValue(s).Got? ==> IsWellFormed(ParseValue(s).value)
    decreases |s|, 0
  {
    hide ParseItems, ParseMembers, ParseText, IsNumber;
    if s != [] && s[0] == '[' {
      ParsedItemsAreWellFormed(SkipSpace(s[1..]));
    } else if s != [] && s[0] == '{' {
      ParsedMembersAreWellFormed(SkipSpace(s[1..]), []);
    }
  }

  lemma {:induction false} ParsedItemsAreWellFormed(s: string)
    ensures ParseItems(s).Got? ==> forall k :: 0 <= k < |ParseItems(s).value| ==> IsWellFormed(ParseItems(s).value[k])
    decreases |s|, 1
  {
    hide ParseValue, IsWellFormed;
    ParsedValueIsWellFormed(s);
    if ParseValue(s).Got? {
      var t := SkipSpace(ParseValue(s).rest);
      if t != [] && t[0] == ',' {
        ParsedItemsAreWellFormed(SkipSpace(t[1..]));
      }
    }
  }

  lemma {:induction false} ParsedMembersAreWellFormed(s: string, acc: seq<Member>)
    requires IsSorted(acc) && ValuesWellFormed(acc)
    ensures ParseMembers(s, acc).Got? ==>
              IsSorted(ParseMembers(s, acc).value) && ValuesWellFormed(ParseMembers(s, acc).value)
    decreases |s|, 1
  {
    hide ParseValue, ParseText, IsWellFormed, IsSorted, ValuesWellFormed, Insert;
    if s != [] && s[0] == '"' && ParseText(s[1..]).Got? {
      var key := ParseText(s[1..]).value;
      var t := SkipSpace(ParseText(s[1..]).rest);
      if t != [] && t[0] == ':' {
        var v := ParseValue(SkipSpace(t[1..]));
        ParsedValueIsWellFormed(SkipSpace(t[1..]));
        if v.Got? {
          InsertKeepsSorted(acc, key, v.value);
          InsertKeepsValues(acc, key, v.value);
          var u := SkipSpace(v.rest);
          if u != [] && u[0] == ',' {
            ParsedMembersAreWellFormed(SkipSpace(u[1..]), Insert(acc, key, v.value));
          }
        }
      }
    }
  }

  lemma ParsedIsWellFormed(text: string)
    ensures Parse(text).Some? ==> IsWellFormed(Parse(text).value)
  {
    ParsedValueIsWellFormed(SkipSpace(text));
  }

  predicate AreWellFormed(objects: seq<seq<Member>>) {
    forall i :: 0 <= i < |objects| ==> IsSorted(objects[i]) && ValuesWellFormed(objects[i])
  }

  lemma {:induction false} ObjectsAreWellFormed(lines: seq<string>)
    ensures AreWellFormed(Objects(lines))
  {
    hide Parse, IsSorted, ValuesWellFormed, Trim;
    if lines != [] {
      ObjectsAreWellFormed(lines[..|lines| - 1]);
      ParsedIsWellFormed(Trim(lines[|lines| - 1]));
    }
  }

  // --- the lines of a compacted text ------------------------------------------------------

  function Texts(objects: seq<seq<Member>>): (r: seq<string>)
    ensures |r| == |objects| && forall i :: 0 <= i < |objects| ==> r[i] == Print(Obj(objects[i]))
  {
    seq(|objects|, i requires 0 <= i < |objects| => Print(Obj(objects[i])))
  }

  lemma {:induction false} PrintLinesIsJoin(objects: seq<seq<Member>>)
    ensures PrintLines(objects) == JoinLines(Texts(objects))
  {
    if objects != [] {
      var n := |objects| - 1;
      PrintLinesIsJoin(objects[..n]);
      assert Texts(objects)[..n] == Texts(objects[..n]);
    }
  }

  lemma {:induction false} JoinConcat(a: seq<string>, b: seq<string>)
    ensures JoinLines(a + b) == JoinLines(a) + JoinLines(b)
  {
    if b == [] {
      assert a + b == a && JoinLines(a) + [] == JoinLines(a);
    } else {
      var n := |b| - 1;
      JoinConcat(a, b[..n]);
      assert (a + b)[..|a + b| - 1] == a + b[..n];
      ConcatIsAssociative(JoinLines(a), JoinLines(b[..n]), b[n] + ['\n']);
    }
  }

  // A trimmed line that holds something other than an object.
  predicate IsOtherText(t: string) {
    IsTrimmed(t) && HasNoNewline(t) && Parse(t).Some? && !Parse(t).value.Obj?
  }

  lemma {:induction false} OthersAreTexts(lines: seq<string>)
    requires forall i :: 0 <= i < |lines| ==> IsLine(lines[i])
    ensures forall i :: 0 <= i < |Others(lines)| ==> IsOtherText(Others(lines)[i])
  {
    hide Parse, Trim, IsTrimmed, HasNoNewline;
    if lines != [] {
      var n := |lines| - 1;
      OthersAreTexts(lines[..n]);
      if IsValidLine(lines[n]) {
        TrimmedLine(lines[n]);
      }
    }
  }

  lemma OneMoreOther(lines: seq<string>, t: string)
    requires IsOtherText(t)
    ensures Objects(lines + [t + ['\n']]) == Objects(lines) && Others(lines + [t + ['\n']]) == Others(lines) + [t]
  {
    hide Parse, Trim, IsTrimmed;
    var all := lines + [t + ['\n']];
    assert all[..|lines|] == lines;
    TrimOfLine(t);
    TrimmedNotEmpty(t);
  }

  lemma {:induction false} ReadBackOthers(lines: seq<string>, others: seq<string>)
    requires forall i :: 0 <= i < |others| ==> IsOtherText(others[i])
    ensures Objects(lines + WithNewlines(others)) == Objects(lines)
    ensures Others(lines + WithNewlines(others)) == Others(lines) + others
  {
    hide IsOtherText, Objects, Others;
    if others == [] {
      assert lines + WithNewlines(others) == lines;
      assert Others(lines) + others == Others(lines);
    } else {
      var n := |others| - 1;
      ReadBackOthers(lines, others[..n]);
      OneMoreOther(lines + WithNewlines(others[..n]), others[n]);
      assert lines + WithNewlines(others) == lines + WithNewlines(others[..n]) + [others[n] + ['\n']];
      assert Others(lines) + others == Others(lines) + others[..n] + [others[n]];
    }
  }

  lemma TrimmedNotEmpty(s: string)
    requires IsTrimmed(s)
    ensures s != []
  {
  }

  lemma ObjectText(ms: seq<Member>)
    requires IsSorted(ms) && ValuesWellFormed(ms)
    ensures var p := Print(Obj(ms)); p != [] && HasNoNewline(p) && Trim(p + ['\n']) == p && Parse(p) == Some(Obj(ms))
  {
    hide Parse, Print, Trim, HasNoNewline, IsTrimmed, IsSorted, ValuesWellFormed;
    ObjectLine(ms);
    TrimmedNotEmpty(Print(Obj(ms)));
    assert [] + ms == ms;
    InsertAllSorted([], ms);
  }

  lemma {:induction false} ReadBackObjects(objects: seq<seq<Member>>)
    requires AreWellFormed(objects)
    ensures Objects(WithNewlines(Texts(objects))) == objects && Others(WithNewlines(Texts(objects))) == []
    ensures AllOneLine(Texts(objects))
  {
    hide Parse, Print, Trim, HasNoNewline, IsTrimmed, IsSorted, ValuesWellFormed;
    if objects != [] {
      var n := |objects| - 1;
      ReadBackObjects(objects[..n]);
      assert Texts(objects)[..n] == Texts(objects[..n]);
      assert WithNewlines(Texts(objects))[..n] == WithNewlines(Texts(objects[..n]));
      ObjectText(objects[n]);
      forall i | 0 <= i < |Texts(objects)| ensures HasNoNewline(Texts(objects)[i]) {
        if i < n {
          assert Texts(objects)[i] == Texts(objects[..n])[i];
        }
      }
    }
  }

  lemma OthersAreOneLine(others: seq<string>)
    requires forall i :: 0 <= i < |others| ==> IsOtherText(others[i])
    ensures AllOneLine(others)
  {
  }

  /** A text written from objects and other lines reads back as those. */
  lemma ReadBack(objects: seq<seq<Member>>, others: seq<string>)
    requires AreWellFormed(objects) && forall i :: 0 <= i < |others| ==> IsOtherText(others[i])
    ensures var s := PrintLines(objects) + JoinLines(others);
            Objects(Lines(s)) == objects && Others(Lines(s)) == others
  {
    hide IsOtherText, AreWellFormed, Objects, Others, PrintLines, JoinLines, Lines;
    PrintLinesIsJoin(objects);
    JoinConcat(Texts(objects), others);
    ReadBackObjects(objects);
    OthersAreOneLine(others);
    LinesOfJoin(Texts(objects) + others);
    assert WithNewlines(Texts(objects) + others) == WithNewlines(Texts(objects)) + WithNewlines(others);
    ReadBackOthers(WithNewlines(Texts(objects)), others);
    assert [] + others == others;
  }

  // --- what survives ---------------------------------------------------------------------------

  lemma {:induction false} SurvivorIsLatest(objects: seq<seq<Member>>, n: nat, k: nat) returns (i: nat)
    requires n <= |objects| && k < |Survivors(objects, n)|
    ensures i < n && Survivors(objects, n)[k] == objects[i] && !IsSuperseded(objects, i)
  {
    hide IsSuperseded;
    if k < |Survivors(objects, n - 1)| {
      i := SurvivorIsLatest(objects, n - 1, k);
    } else {
      i := n - 1;
    }
  }

  ghost predicate NoTypeTwice(objects: seq<seq<Member>>) {
    forall a, b :: 0 <= a < b < |objects| && SnapshotType(objects[a]).Some? ==> SnapshotType(objects[a]) != SnapshotType(objects[b])
  }

  lemma {:induction false} SurvivorsDiffer(objects: seq<seq<Member>>, n: nat)
    requires n <= |objects|
    ensures NoTypeTwice(Survivors(objects, n))
  {
    hide SnapshotType;
    if n > 0 {
      SurvivorsDiffer(objects, n - 1);
      var front := Survivors(objects, n - 1);
      forall a | 0 <= a < |front| && SnapshotType(front[a]).Some? ensures SnapshotType(front[a]) != SnapshotType(objects[n - 1]) {
        var i := SurvivorIsLatest(objects, n - 1, a);
      }
    }
  }

  lemma {:induction false} AllSurvive(objects: seq<seq<Member>>, n: nat)
    requires NoTypeTwice(objects) && n <= |objects|
    ensures Survivors(objects, n) == objects[..n]
  {
    hide SnapshotType;
    if n > 0 {
      AllSurvive(objects, n - 1);
      assert !IsSuperseded(objects, n - 1);
    }
  }

  lemma {:induction false} LatestSurvives(objects: seq<seq<Member>>, i: nat, n: nat)
    requires i < n <= |objects| && !IsSuperseded(objects, i)
    ensures objects[i] in Survivors(objects, n)
  {
    hide IsSuperseded;
    if i < n - 1 {
      LatestSurvives(objects, i, n - 1);
    }
  }

  lemma SeqKeepsType(ms: seq<Member>, n: nat)
    ensures SnapshotType(WithSeq(ms, n)) == SnapshotType(ms)
  {
    GetAfterInsert(ms, "seq", Num(Decimal(n)), "tx_type");
  }

  lemma RenumberedIsWellFormed(kept: seq<seq<Member>>)
    requires AreWellFormed(kept)
    ensures AreWellFormed(Renumbered(kept))
  {
    hide Insert, IsSorted, ValuesWellFormed, IsNumber, Decimal;
    forall i | 0 <= i < |kept| ensures IsSorted(WithSeq(kept[i], i)) && ValuesWellFormed(WithSeq(kept[i], i)) {
      DecimalIsNumber(i);
      InsertKeepsSorted(kept[i], "seq", Num(Decimal(i)));
      InsertKeepsValues(kept[i], "seq", Num(Decimal(i)));
    }
  }

  lemma {:induction false} SurvivorsAreWellFormed(objects: seq<seq<Member>>, n: nat)
    requires AreWellFormed(objects) && n <= |objects|
    ensures AreWellFormed(Survivors(objects, n))
  {
    hide IsSorted, ValuesWellFormed, IsSuperseded;
    if n > 0 {
      SurvivorsAreWellFormed(objects, n - 1);
    }
  }

  lemma RenumberedKeepsTypes(kept: seq<seq<Member>>)
    requires NoTypeTwice(kept)
    ensures NoTypeTwice(Renumbered(kept))
  {
    hide SnapshotType;
    forall i | 0 <= i < |kept| ensures SnapshotType(Renumbered(kept)[i]) == SnapshotType(kept[i]) {
      SeqKeepsType(kept[i], i);
    }
  }

  /** A compacted text is not empty, holds exactly the objects that no later snapshot supersedes, in order
      and numbered 0, 1, 2, ..., and the other values untouched; and compacting it again does nothing. */
  lemma CompactionKeepsLatest(s: string, maxLines: nat)
    requires Compacted(s, maxLines).Some?
    ensures var out := Compacted(s, maxLines).value;
            var objects := Objects(Lines(s));
            && out != []
            && Objects(Lines(out)) == Renumbered(Survivors(objects, |objects|))
            && Others(Lines(out)) == Others(Lines(s))
            && Compacted(out, maxLines) == None
  {
    var objects, others := Objects(Lines(s)), Others(Lines(s));
    var kept := Survivors(objects, |objects|);
    LinesAreLines(s, 0);
    ObjectsAreWellFormed(Lines(s));
    SurvivorsAreWellFormed(objects, |objects|);
    RenumberedIsWellFormed(kept);
    OthersOfText(s);
    ReadBack(Renumbered(kept), others);
    SurvivorsDiffer(objects, |objects|);
    RenumberedKeepsTypes(kept);
    AllSurvive(Renumbered(kept), |kept|);
    assert Renumbered(kept)[..|kept|] == Renumbered(kept);
    var i :| 0 <= i < |objects| && SnapshotType(objects[i]).Some?;
  }

  lemma OthersOfText(s: string)
    ensures forall i :: 0 <= i < |Others(Lines(s))| ==> IsOtherText(Others(Lines(s))[i])
  {
    hide IsOtherText, IsLine;
    LinesAreLines(s, 0);
    OthersAreTexts(Lines(s));
  }

  /** Renumbering sets `seq` and nothing else. */
  lemma RenumberingSetsSeq(kept: seq<seq<Member>>, i: nat, key: string)
    requires i < |kept|
    ensures Get(Renumbered(kept)[i], key) == if key == "seq" then Some(Num(Decimal(i))) else Get(kept[i], key)
  {
    GetAfterInsert(kept[i], "seq", Num(Decimal(i)), key);
  }

  // --- by the names of the types ------------------------------------------------------------------

  predicate HasType(ms: seq<Member>, t: string) {
    Get(ms, "tx_type") == Some(Str(t))
  }

  predicate IsReplaceableType(t: string) {
    t == "goal_state" || t == "rfv_loop_state" || t == "quality_gate_state" || t == "evidence"
  }

  // A later object has the same type, and of that type only the last is kept.
  ghost predicate HasLaterVersion(objects: seq<seq<Member>>, i: nat)
    requires i < |objects|
  {
    exists t, j :: IsReplaceableType(t) && HasType(objects[i], t) && i < j < |objects| && HasType(objects[j], t)
  }

  lemma SupersededWhen(objects: seq<seq<Member>>, i: nat)
    requires i < |objects|
    ensures IsSuperseded(objects, i) <==> HasLaterVersion(objects, i)
  {
    hide Get;
    if IsSuperseded(objects, i) {
      var t := SnapshotType(objects[i]).value;
      var j :| i < j < |objects| && SnapshotType(objects[j]) == SnapshotType(objects[i]);
      assert IsReplaceableType(t) && HasType(objects[i], t) && HasType(objects[j], t);
    }
    if HasLaterVersion(objects, i) {
      var t, j :| IsReplaceableType(t) && HasType(objects[i], t) && i < j < |objects| && HasType(objects[j], t);
      assert SnapshotType(objects[i]) == Some(t) && SnapshotType(objects[j]) == Some(t);
    }
  }

  lemma {:induction false} SurvivorIndices(objects: seq<seq<Member>>, n: nat) returns (at: seq<nat>)
    requires n <= |objects|
    ensures ArePicked(Survivors(objects, n), objects, at) && AreBelow(at, n)
    ensures forall i :: 0 <= i < n ==> (i in at <==> !HasLaterVersion(objects, i))
  {
    hide IsSuperseded, HasLaterVersion, ArePicked, AreBelow;
    if n == 0 {
      PickNothing(objects);
      at := [];
    } else {
      at := SurvivorIndices(objects, n - 1);
      SupersededWhen(objects, n - 1);
      PickOneMore(Survivors(objects, n - 1), objects, at, n - 1);
      if IsSuperseded(objects, n - 1) {
        assert Survivors(objects, n) == Survivors(objects, n - 1);
      } else {
        assert Survivors(objects, n) == Survivors(objects, n - 1) + [objects[n - 1]];
        at := at + [n - 1];
      }
    }
  }

  /** The compacted text holds, in their order, exactly the objects without a later version, and changes only `seq`. */
  lemma CompactedObjectsAre(s: string, maxLines: nat) returns (at: seq<nat>)
    requires Compacted(s, maxLines).Some?
    ensures var objects, out := Objects(Lines(s)), Objects(Lines(Compacted(s, maxLines).value));
            && |out| == |at|
            && (forall k :: 0 <= k < |at| ==> at[k] < |objects| && out[k] == Insert(objects[at[k]], "seq", Num(Decimal(k))))
            && (forall i :: 0 <= i < |objects| ==> (i in at <==> !HasLaterVersion(objects, i)))
    ensures forall j, k :: 0 <= j < k < |at| ==> at[j] < at[k]
  {
    hide Compacted, Objects, Lines, Survivors, HasLaterVersion, Insert;
    CompactionKeepsLatest(s, maxLines);
    at := SurvivorIndices(Objects(Lines(s)), |Objects(Lines(s))|);
  }

  /** At most one object of each of the four types is left. */
  lemma OneOfEachTypeIsLeft(s: string, maxLines: nat, t: string, a: nat, b: nat)
    requires Compacted(s, maxLines).Some? && IsReplaceableType(t)
    requires var out := Objects(Lines(Compacted(s, maxLines).value)); a < b < |out| && HasType(out[a], t)
    ensures !HasType(Objects(Lines(Compacted(s, maxLines).value))[b], t)
  {
    hide Compacted, Objects, Lines, Insert, Get;
    var objects := Objects(Lines(s));
    var at := CompactedObjectsAre(s, maxLines);
    GetAfterInsert(objects[at[a]], "seq", Num(Decimal(a)), "tx_type");
    GetAfterInsert(objects[at[b]], "seq", Num(Decimal(b)), "tx_type");
    assert at[a] in at && !HasLaterVersion(objects, at[a]);
  }

  lemma {:induction false} SomethingDropped(objects: seq<seq<Member>>, n: nat)
    requires n <= |objects|
    ensures |Survivors(objects, n)| < n <==> exists i :: 0 <= i < n && HasLaterVersion(objects, i)
  {
    hide IsSuperseded, HasLaterVersion;
    if n > 0 {
      SomethingDropped(objects, n - 1);
      SupersededWhen(objects, n - 1);
    }
  }

  /** There is something to compact exactly above the limit, other lines counted, and when some object has a later
      version. */
  lemma CompactsWhen(s: string, maxLines: nat)
    ensures var objects := Objects(Lines(s));
            Compacted(s, maxLines).Some? <==>
              |objects| + |Others(Lines(s))| > maxLines && exists i :: 0 <= i < |objects| && HasLaterVersion(objects, i)
  {
    hide Objects, Others, Lines, HasLaterVersion, PrintLines, JoinLines, Renumbered, IsSuperseded, SnapshotType;
    var objects := Objects(Lines(s));
    SomethingDropped(objects, |objects|);
    if i :| 0 <= i < |objects| && HasLaterVersion(objects, i) {
      SupersededWhen(objects, i);
      SupersededHasType(objects, i);
    }
  }

  lemma SupersededHasType(objects: seq<seq<Member>>, i: nat)
    requires i < |objects| && IsSuperseded(objects, i)
    ensures HasSnapshot(objects)
  {
  }
}
