/** What repairing and compacting a JSON-lines text keep. */
module JsonlLaws {
  import opened Wrappers
  import opened Strings
  import opened Json
  import opened JsonRoundTrip
  import opened Jsonl

  // --- lines of a text -----------------------------------------------------------------

  // Position `i` starts a line, or is the end of the text.
  predicate IsBoundary(s: string, i: nat) {
    i == 0 || i == |s| || (i < |s| && s[i - 1] == '\n')
  }

  lemma {:induction false} LineEndIsBoundary(s: string, i: nat)
    requires i < |s|
    ensures IsBoundary(s, LineEnd(s, i))
    ensures forall k :: i <= k < LineEnd(s, i) - 1 ==> s[k] != '\n'
    decreases |s| - i
  {
    if s[i] != '\n' && i + 1 < |s| {
      LineEndIsBoundary(s, i + 1);
    }
  }

  lemma {:induction false} LineEndOfPrefix(s: string, e: nat, i: nat)
    requires i < e <= |s| && IsBoundary(s, e)
    ensures LineEnd(s, i) <= e && LineEnd(s[..e], i) == LineEnd(s, i)
    decreases e - i
  {
    if i + 1 < e && s[i] != '\n' {
      LineEndOfPrefix(s, e, i + 1);
    }
  }

  lemma {:induction false} LinesSplit(s: string, e: nat, i: nat)
    requires i <= e <= |s| && IsBoundary(s, e)
    ensures LinesFrom(s, i) == LinesFrom(s[..e], i) + LinesFrom(s, e)
    decreases e - i
  {
    if i < e {
      LineEndOfPrefix(s, e, i);
      var m := LineEnd(s, i);
      LinesSplit(s, e, m);
      assert s[..e][i..m] == s[i..m];
    }
  }

  lemma {:induction false} LinesShift(a: string, b: string, i: nat)
    requires i <= |b|
    ensures LinesFrom(a + b, |a| + i) == LinesFrom(b, i)
    decreases |b| - i
  {
    hide LineEnd;
    if i < |b| {
      LineEndShift(a, b, i);
      var m := LineEnd(b, i);
      LinesShift(a, b, m);
      assert (a + b)[|a| + i..|a| + m] == b[i..m];
    }
  }

  lemma {:induction false} LineEndShift(a: string, b: string, i: nat)
    requires i < |b|
    ensures LineEnd(a + b, |a| + i) == |a| + LineEnd(b, i)
    decreases |b| - i
  {
    if b[i] != '\n' && i + 1 < |b| {
      LineEndShift(a, b, i + 1);
    }
  }

  /** Whole lines followed by a text. */
  lemma LinesConcat(a: string, b: string)
    requires a == [] || a[|a| - 1] == '\n'
    ensures Lines(a + b) == Lines(a) + Lines(b)
  {
    LinesSplit(a + b, |a|, 0);
    LinesShift(a, b, 0);
    assert (a + b)[..|a|] == a;
  }

  predicate HasNoNewline(s: string) {
    forall i :: 0 <= i < |s| ==> s[i] != '\n'
  }

  lemma {:induction false} OneLineEnd(s: string, i: nat)
    requires HasNoNewline(s) && i <= |s|
    ensures LineEnd(s + ['\n'], i) == |s| + 1
    decreases |s| - i
  {
    if i < |s| {
      OneLineEnd(s, i + 1);
    }
  }

  lemma LinesOfOne(s: string)
    requires HasNoNewline(s)
    ensures Lines(s + ['\n']) == [s + ['\n']]
  {
    OneLineEnd(s, 0);
    var t := s + ['\n'];
    assert t[0..|t|] == t && LinesFrom(t, |t|) == [];
    assert LinesFrom(t, 0) == [t[0..|t|]] + LinesFrom(t, |t|);
  }

  function WithNewlines(ls: seq<string>): (r: seq<string>)
    ensures |r| == |ls| && forall i :: 0 <= i < |ls| ==> r[i] == ls[i] + ['\n']
  {
    seq(|ls|, i requires 0 <= i < |ls| => ls[i] + ['\n'])
  }

  predicate AllOneLine(ls: seq<string>) {
    forall i :: 0 <= i < |ls| ==> HasNoNewline(ls[i])
  }

  lemma {:induction false} LinesOfJoin(ls: seq<string>)
    requires AllOneLine(ls)
    ensures Lines(JoinLines(ls)) == WithNewlines(ls)
  {
    if ls == [] {
      assert Lines([]) == [];
    } else {
      var front, last := ls[..|ls| - 1], ls[|ls| - 1];
      LinesOfJoin(front);
      LinesConcat(JoinLines(front), last + ['\n']);
      LinesOfOne(last);
    }
  }

  // --- repair ----------------------------------------------------------------------------

  // The valid lines, trimmed, in order.
  function ValidTexts(lines: seq<string>): seq<string> {
    if lines == [] then [] else
      ValidTexts(lines[..|lines| - 1]) + (if IsValidLine(lines[|lines| - 1]) then [Trim(lines[|lines| - 1])] else [])
  }

  ghost predicate NoneValid(lines: seq<string>) {
    forall i :: 0 <= i < |lines| ==> !IsValidLine(lines[i])
  }

  lemma {:induction false} InvalidLinesAddNothing(a: seq<string>, b: seq<string>)
    requires NoneValid(b)
    ensures ValidTexts(a + b) == ValidTexts(a) && Objects(a + b) == Objects(a) && Others(a + b) == Others(a)
  {
    if b == [] {
      assert a + b == a;
    } else {
      var n := |b| - 1;
      InvalidLinesAddNothing(a, b[..n]);
      assert (a + b)[..|a + b| - 1] == a + b[..n] && (a + b)[|a + b| - 1] == b[n];
    }
  }

  // Everything after the last valid line is invalid.
  lemma {:induction false} TailIsInvalid(s: string, i: nat)
    requires i <= |s|
    ensures LastValidEnd(s, i) == None ==> NoneValid(LinesFrom(s, i))
    ensures LastValidEnd(s, i).Some? ==>
              var e := LastValidEnd(s, i).value; IsBoundary(s, e) && NoneValid(LinesFrom(s, e)) && LastValidEnd(s, e) == None
    decreases |s| - i
  {
    hide IsValidLine;
    if i < |s| {
      TailIsInvalid(s, LineEnd(s, i));
      LineEndIsBoundary(s, i);
    }
  }

  // Cutting after the last valid line does not move it.
  lemma {:induction false} LastValidOfPrefix(s: string, e: nat, i: nat)
    requires i < e <= |s| && IsBoundary(s, e) && LastValidEnd(s, i) == Some(e) && LastValidEnd(s, e) == None
    ensures LastValidEnd(s[..e], i) == Some(e)
    decreases e - i
  {
    hide IsValidLine;
    LineEndOfPrefix(s, e, i);
    var m := LineEnd(s, i);
    assert s[..e][i..m] == s[i..m];
    if m < e {
      LastValidOfPrefix(s, e, m);
    }
  }

  /** Repair keeps every valid line, cuts only invalid ones, and repairing again changes nothing. */
  lemma RepairKeepsValidLines(s: string)
    ensures Repaired(s) <= s
    ensures exists tail :: Lines(s) == Lines(Repaired(s)) + tail && NoneValid(tail)
    ensures ValidTexts(Lines(Repaired(s))) == ValidTexts(Lines(s))
    ensures Objects(Lines(Repaired(s))) == Objects(Lines(s)) && Others(Lines(Repaired(s))) == Others(Lines(s))
    ensures Repaired(Repaired(s)) == Repaired(s)
  {
    hide IsValidLine, NoneValid;
    TailIsInvalid(s, 0);
    var e := if LastValidEnd(s, 0).Some? then LastValidEnd(s, 0).value else 0;
    LinesSplit(s, e, 0);
    assert Repaired(s) == s[..e];
    InvalidLinesAddNothing(Lines(s[..e]), LinesFrom(s, e));
    if e > 0 {
      LastValidOfPrefix(s, e, 0);
    }
  }

  // --- whole lines and junk ------------------------------------------------------------------

  // A text is what repair keeps of it, and junk.
  lemma JunkBehind(s: string) returns (junk: string)
    ensures s == Repaired(s) + junk && NoneValid(Lines(junk))
  {
    hide IsValidLine;
    TailIsInvalid(s, 0);
    var e := |Repaired(s)|;
    junk := s[e..];
    assert s == s[..e] + s[e..];
    LinesShift(s[..e], junk, 0);
  }

  lemma NothingInNothing()
    ensures NoneValid(Lines([]))
  {
  }

  lemma NothingToKeep(junk: string)
    requires NoneValid(Lines(junk))
    ensures Repaired(junk) == []
  {
    hide IsValidLine;
    NoneValidNoEnd(junk, 0);
  }

  lemma {:induction false} NoneValidNoEnd(s: string, i: nat)
    requires i <= |s| && NoneValid(LinesFrom(s, i))
    ensures LastValidEnd(s, i) == None
    decreases |s| - i
  {
    hide IsValidLine;
    if i < |s| {
      var ls := LinesFrom(s, i);
      assert ls[0] == s[i..LineEnd(s, i)];
      assert ls[1..] == LinesFrom(s, LineEnd(s, i));
      NoneValidNoEnd(s, LineEnd(s, i));
    }
  }

  // A valid line between whole lines and junk is the last valid one.
  lemma LastLineKept(front: string, line: string, junk: string)
    requires front == [] || front[|front| - 1] == '\n'
    requires |line| > 0 && line[|line| - 1] == '\n' && HasNoNewline(line[..|line| - 1]) && IsValidLine(line)
    requires NoneValid(Lines(junk))
    ensures Repaired((front + line) + junk) == front + line
  {
    hide IsValidLine, NoneValid;
    var s, a, b := (front + line) + junk, |front|, |front| + |line|;
    ConcatIsAssociative(front, line, junk);
    OneLineIn(line, junk);
    LineEndShift(front, line + junk, 0);
    assert s[a..b] == line;
    LinesShift(front + line, junk, 0);
    NoneValidNoEnd(s, b);
    assert LastValidEnd(s, a) == Some(b);
    EarlierLinesDoNotMatter(s, 0, a);
    assert s[..b] == front + line;
  }

  lemma OneLineIn(line: string, junk: string)
    requires |line| > 0 && line[|line| - 1] == '\n' && HasNoNewline(line[..|line| - 1])
    ensures LineEnd(line + junk, 0) == |line|
  {
    LineEndOfPrefix(line + junk, |line|, 0);
    OneLineEnd(line[..|line| - 1], 0);
    assert line[..|line| - 1] + ['\n'] == line && (line + junk)[..|line|] == line;
  }

  lemma {:induction false} EarlierLinesDoNotMatter(s: string, i: nat, a: nat)
    requires i <= a <= |s| && IsBoundary(s, a) && LastValidEnd(s, a).Some?
    ensures LastValidEnd(s, i) == LastValidEnd(s, a)
    decreases a - i
  {
    hide IsValidLine;
    if i < a {
      LineEndOfPrefix(s, a, i);
      EarlierLinesDoNotMatter(s, LineEnd(s, i), a);
    }
  }

  lemma OpenLineEnd(front: string, p: string)
    requires p != [] && HasNoNewline(p) && IsValidLine(p)
    ensures LastValidEnd(front + p, |front|) == Some(|front| + |p|)
  {
    hide IsValidLine;
    LineEndWithout(p, 0);
    LineEndShift(front, p, 0);
    assert (front + p)[|front|..|front| + |p|] == p;
  }

  lemma {:induction false} LineEndWithout(s: string, i: nat)
    requires HasNoNewline(s) && i < |s|
    ensures LineEnd(s, i) == |s|
    decreases |s| - i
  {
    if i + 1 < |s| {
      LineEndWithout(s, i + 1);
    }
  }

  // --- printed lines -----------------------------------------------------------------------

  predicate IsTrimmed(s: string) {
    s != [] && !IsWhiteSpace(s[0]) && !IsWhiteSpace(s[|s| - 1])
  }

  lemma TrimOfLine(s: string)
    requires IsTrimmed(s)
    ensures Trim(s + ['\n']) == s && Trim(s) == s
  {
    assert (s + ['\n'])[..|s|] == s;
    assert TrimEnd(s) == s;
  }

  lemma {:induction false} TrimStartIsSuffix(s: string) returns (k: nat)
    ensures k <= |s| && TrimStart(s) == s[k..]
    ensures TrimStart(s) != [] ==> !IsWhiteSpace(TrimStart(s)[0])
  {
    if s != [] && IsWhiteSpace(s[0]) {
      k := TrimStartIsSuffix(s[1..]);
      k := k + 1;
    } else {
      k := 0;
    }
  }

  lemma {:induction false} TrimEndIsPrefix(s: string) returns (k: nat)
    ensures k <= |s| && TrimEnd(s) == s[..k]
    ensures k < |s| ==> IsWhiteSpace(s[k])
    ensures TrimEnd(s) != [] ==> !IsWhiteSpace(TrimEnd(s)[|TrimEnd(s)| - 1])
  {
    if s != [] && IsWhiteSpace(s[|s| - 1]) {
      k := TrimEndIsPrefix(s[..|s| - 1]);
    } else {
      k := |s|;
      assert s[..k] == s;
    }
  }

  // The only newline a line can have is its last character.
  predicate IsLine(s: string) {
    forall i :: 0 <= i < |s| - 1 ==> s[i] != '\n'
  }

  lemma TrimmedLine(s: string)
    requires IsLine(s) && Trim(s) != []
    ensures IsTrimmed(Trim(s)) && HasNoNewline(Trim(s))
  {
    var j := TrimStartIsSuffix(s);
    var k := TrimEndIsPrefix(s[j..]);
    var t := s[j..][..k];
    assert Trim(s) == t;
    assert t[0] == s[j..][0];
    forall i | 0 <= i < |t| ensures t[i] != '\n' {
      assert t[i] == s[j + i];
      if j + i == |s| - 1 {
        assert t[|t| - 1] == s[j + i];
      }
    }
  }

  lemma {:induction false} LinesAreLines(s: string, i: nat)
    requires i <= |s|
    ensures forall k :: 0 <= k < |LinesFrom(s, i)| ==> IsLine(LinesFrom(s, i)[k])
    decreases |s| - i
  {
    if i < |s| {
      LineEndIsBoundary(s, i);
      LinesAreLines(s, LineEnd(s, i));
    }
  }

  lemma {:induction false} EscapeHasNoControl(s: string)
    ensures HasNoControl(Escape(s))
  {
    if s != [] {
      EscapeHasNoControl(s[1..]);
      assert HasNoControl(EscapeChar(s[0]));
    }
  }

  lemma {:induction false} PrintHasNoControl(j: Json)
    requires IsPrintable(j)
    ensures HasNoControl(Print(j))
    decreases j, 0
  {
    hide Escape;
    match j {
      case Null =>
      case Bool(b) =>
      case Num(t) =>
      case Str(t) => EscapeHasNoControl(t);
      case Arr(items) => ItemsHaveNoControl(items);
      case Obj(ms) => MembersHaveNoControl(ms);
    }
  }

  lemma {:induction false} ItemsHaveNoControl(items: seq<Json>)
    requires forall k :: 0 <= k < |items| ==> IsPrintable(items[k])
    ensures HasNoControl(PrintItems(items))
    decreases items, 1
  {
    hide Print;
    if items != [] {
      PrintHasNoControl(items[0]);
      if |items| > 1 {
        ItemsHaveNoControl(items[1..]);
      }
    }
  }

  lemma {:induction false} MembersHaveNoControl(ms: seq<Member>)
    requires ValuesPrintable(ms)
    ensures HasNoControl(PrintMembers(ms))
    decreases ms, 1
  {
    hide Print, Escape;
    if ms != [] {
      EscapeHasNoControl(ms[0].key);
      PrintHasNoControl(ms[0].value);
      if |ms| > 1 {
        MembersHaveNoControl(ms[1..]);
      }
    }
  }

  // The printed line of an object, with its members in any order.
  lemma ObjectLine(ms: seq<Member>)
    requires ValuesWellFormed(ms)
    ensures var p := Print(Obj(ms));
            HasNoControl(p) && HasNoNewline(p) && IsTrimmed(p) && Trim(p + ['\n']) == p && Trim(p) == p
            && Parse(p) == Some(Obj(InsertAll([], ms)))
  {
    MembersHaveNoControl(ms);
    ParseOfPrintedMembers(ms);
    hide Parse, PrintMembers;
    var p := Print(Obj(ms));
    assert p[0] == '{' && p[|p| - 1] == '}';
    TrimOfLine(p);
  }
}
