/** The scanner and the parser on objects that are written with white space between their tokens. */
module SpacingLaws {
  import opened Wrappers
  import opened Strings
  import opened Json
  import opened JsonRoundTrip
  import opened JsonScanner
  import opened ScannerLaws

  predicate IsSpace(w: string) {
    forall i :: 0 <= i < |w| ==> IsJsonSpace(w[i])
  }

  /** The white space around the tokens of one member. */
  datatype Gaps = Gaps(before: string, beforeColon: string, afterColon: string, after: string) {
    predicate AreSpace() {
      IsSpace(before) && IsSpace(beforeColon) && IsSpace(afterColon) && IsSpace(after)
    }
  }

  function SpacedMember(m: Member, g: Gaps): string {
    g.before + (Quote(m.key) + (g.beforeColon + ([':'] + (g.afterColon + (Print(m.value) + g.after)))))
  }

  function SpacedMembers(ms: seq<Member>, gs: seq<Gaps>): string
    requires |ms| == |gs|
  {
    if ms == [] then []
    else if |ms| == 1 then SpacedMember(ms[0], gs[0])
    else SpacedMember(ms[0], gs[0]) + ([','] + SpacedMembers(ms[1..], gs[1..]))
  }

  function SpacedObject(ms: seq<Member>, gs: seq<Gaps>): string
    requires |ms| == |gs|
  {
    ['{'] + (SpacedMembers(ms, gs) + ['}'])
  }

  lemma {:induction false} FillSkipped(w: string, s: string)
    requires IsSpace(w)
    ensures SkipFill(w + s) == SkipFill(s)
  {
    if w == [] {
      assert w + s == s;
    } else {
      assert (w + s)[1..] == w[1..] + s;
      FillSkipped(w[1..], s);
    }
  }

  lemma SpaceSkipped(w: string, s: string, target: string)
    requires IsSpace(w)
    ensures ScanFrom(w + s, 0, target) == ScanFrom(s, 0, target)
  {
    hide SkipValue, ReadKey, SkipSeparators, ValueMatches, IsSpace, SkipFill;
    FillSkipped(w, s);
  }

  lemma {:induction false} SeparatorsSkipped(w: string, s: string)
    requires IsSpace(w)
    ensures SkipSeparators(w + s) == SkipSeparators(s)
  {
    if w == [] {
      assert w + s == s;
    } else {
      assert (w + s)[1..] == w[1..] + s;
      SeparatorsSkipped(w[1..], s);
    }
  }

  lemma ValueReached(g: Gaps, j: Json, rest: string)
    requires g.AreSpace() && IsPrintable(j)
    ensures SkipSeparators(g.beforeColon + ([':'] + (g.afterColon + (Print(j) + rest)))) == Print(j) + rest
  {
    hide Print;
    var v := Print(j) + rest;
    SeparatorsSkipped(g.beforeColon, [':'] + (g.afterColon + v));
    assert ([':'] + (g.afterColon + v))[1..] == g.afterColon + v;
    SeparatorsSkipped(g.afterColon, v);
    ValueStartsPlainly(j, rest);
    assert ([':'] + v)[1..] == v;
  }

  lemma GapEnds(w: string, after: string)
    requires IsSpace(w) && EndsMember(after)
    ensures EndsMember(w + after)
  {
  }

  lemma ScanKey(key: string, tail: string, j: Json, after: string, target: string)
    requires IsPrintable(j) && EndsMember(after) && SkipSeparators(tail) == Print(j) + after
    ensures ScanFrom(Quote(key) + tail, 0, target) ==
              if key == KEY then j.Str? && Misread(j.s) == target else ScanFrom(after, 0, target)
  {
    hide ReadKey, SkipValue, ValueMatches, Escape, Print, Misread, SkipSeparators;
    var s := Quote(key) + tail;
    assert s[1..] == Escape(key) + (['"'] + tail);
    assert SkipFill(s) == s;
    TextRead(key, tail, []);
    assert [] + Escape(key) == Escape(key);
    KeyTextIsKey(key);
    if key == KEY {
      StringMatches(j, after, target);
    } else {
      MemberValueSkipped(j, after);
    }
  }

  lemma ScanSpacedMember(m: Member, g: Gaps, after: string, target: string)
    requires IsPrintable(m.value) && EndsMember(after) && g.AreSpace()
    ensures ScanFrom(SpacedMember(m, g) + after, 0, target) ==
              if m.key == KEY then m.value.Str? && Misread(m.value.s) == target else ScanFrom(after, 0, target)
  {
    hide ScanFrom, Quote, Print, IsSpace, Misread, SkipSeparators, EndsMember;
    var rest := g.after + after;
    var tail := g.beforeColon + ([':'] + (g.afterColon + (Print(m.value) + rest)));
    assert SpacedMember(m, g) + after == g.before + (Quote(m.key) + tail);
    SpaceSkipped(g.before, Quote(m.key) + tail, target);
    ValueReached(g, m.value, rest);
    GapEnds(g.after, after);
    ScanKey(m.key, tail, m.value, rest, target);
    SpaceSkipped(g.after, after, target);
  }

  lemma SpacedUnfold(ms: seq<Member>, gs: seq<Gaps>, rest: string)
    requires |ms| == |gs| && ms != []
    ensures SpacedMembers(ms, gs) + rest ==
              SpacedMember(ms[0], gs[0]) + (if |ms| == 1 then rest else [','] + (SpacedMembers(ms[1..], gs[1..]) + rest))
  {
    hide SpacedMember;
  }

  lemma {:induction false} ScanSpacedMembers(ms: seq<Member>, gs: seq<Gaps>, target: string)
    requires |ms| == |gs| && ValuesPrintable(ms) && forall i :: 0 <= i < |gs| ==> gs[i].AreSpace()
    ensures ScanFrom(SpacedMembers(ms, gs) + ['}'], 0, target) <==> Matches(Stored(ms), target)
    decreases |ms|
  {
    hide SpacedMembers, SpacedMember, IsPrintable, Misread, ScanFrom, Matches, IsSpace;
    NothingLeft(target);
    if ms == [] {
      NoSpacedMembers(gs);
      assert [] + ['}'] == ['}'];
      assert !Matches(Stored([]), target) by {
        StoredCases([Member([], Null)], target);
      }
    } else {
      SpacedUnfold(ms, gs, ['}']);
      StoredCases(ms, target);
      if |ms| == 1 {
        assert ms[1..] == [];
        ScanSpacedMember(ms[0], gs[0], ['}'], target);
      } else {
        var more := SpacedMembers(ms[1..], gs[1..]) + ['}'];
        ScanSpacedMember(ms[0], gs[0], [','] + more, target);
        ScanSeparator(more, target);
        ScanSpacedMembers(ms[1..], gs[1..], target);
      }
    }
  }

  lemma NoSpacedMembers(gs: seq<Gaps>)
    requires |gs| == 0
    ensures SpacedMembers([], gs) == []
  {
  }

  /** White space between the tokens of an object changes no answer: however it is spaced, the scan is true exactly when
      the first member with the key has a text that the scanner reads as the target. */
  lemma ScanIgnoresSpacing(ms: seq<Member>, gs: seq<Gaps>, target: string)
    requires |ms| == |gs| && ValuesPrintable(ms) && forall i :: 0 <= i < |gs| ==> gs[i].AreSpace()
    ensures Scan(SpacedObject(ms, gs), target) <==> Matches(Get(ms, "idempotency_key"), target)
    ensures Scan(SpacedObject(ms, gs), target) == Scan(Print(Obj(ms)), target)
  {
    hide ScanFrom, SpacedMembers, IsPrintable, Matches, PrintMembers, IsSpace;
    ScanSpacedMembers(ms, gs, target);
    assert SpacedObject(ms, gs)[1..] == SpacedMembers(ms, gs) + ['}'];
    ScanReadsTopLevelKey(ms, target);
  }

  // --- and the parser ------------------------------------------------------------------------

  lemma {:induction false} SpaceGone(w: string, s: string)
    requires IsSpace(w)
    ensures SkipSpace(w + s) == SkipSpace(s)
  {
    if w == [] {
      assert w + s == s;
    } else {
      assert (w + s)[1..] == w[1..] + s;
      SpaceGone(w[1..], s);
    }
  }

  lemma SpacedTail(m: Member, g: Gaps, rest: string)
    requires IsPrintable(m.value) && g.AreSpace()
    ensures var tail := g.beforeColon + ([':'] + (g.afterColon + (Print(m.value) + rest)));
            var t := SkipSpace(tail);
            t != [] && t[0] == ':' && SkipSpace(t[1..]) == Print(m.value) + rest
  {
    hide Print, IsSpace, IsPrintable;
    var v := Print(m.value) + rest;
    var colon := [':'] + (g.afterColon + v);
    SpaceGone(g.beforeColon, colon);
    assert SkipSpace(colon) == colon && colon[1..] == g.afterColon + v;
    SpaceGone(g.afterColon, v);
    PrintStarts(m.value);
  }

  lemma SpacedMemberReads(m: Member, g: Gaps, rest: string)
    requires IsPrintable(m.value) && g.AreSpace() && Stops(rest)
    ensures var s := Quote(m.key) + (g.beforeColon + ([':'] + (g.afterColon + (Print(m.value) + rest))));
            ReadsMember(s, m.key, Normal(m.value), rest)
  {
    hide Print, IsSpace, ParseText, ParseValue, Escape, Normal, IsPrintable, Stops, SkipSpace;
    var tail := g.beforeColon + ([':'] + (g.afterColon + (Print(m.value) + rest)));
    var s := Quote(m.key) + tail;
    assert s == ['"'] + (Escape(m.key) + (['"'] + tail));
    assert s[1..] == Escape(m.key) + (['"'] + tail);
    TextRoundTrip(m.key, tail);
    SpacedTail(m, g, rest);
    ValueRoundTrip(m.value, rest);
  }

  lemma MemberTaken(s: string, acc: seq<Member>, key: string, v: Json, rest: string, after: string)
    requires ReadsMember(s, key, v, rest) && SkipSpace(rest) == after && after != [] && (after[0] == ',' || after[0] == '}')
    ensures ParseMembers(s, acc) ==
              if after[0] == '}' then Got(Insert(acc, key, v), after[1..]) else ParseMembers(SkipSpace(after[1..]), Insert(acc, key, v))
  {
    hide ParseValue, ParseText, Insert, SkipSpace;
  }

  lemma ParseSpacedMember(m: Member, g: Gaps, after: string, acc: seq<Member>)
    requires IsPrintable(m.value) && g.AreSpace() && after != [] && (after[0] == ',' || after[0] == '}')
    ensures var s := SkipSpace(SpacedMember(m, g) + after);
            s != [] && s[0] == '"' && ParseMembers(s, acc) ==
              if after[0] == '}' then Got(Insert(acc, m.key, Normal(m.value)), after[1..])
              else ParseMembers(SkipSpace(after[1..]), Insert(acc, m.key, Normal(m.value)))
  {
    hide Print, IsSpace, ParseMembers, Escape, Insert, Normal, IsPrintable, ReadsMember;
    var rest := g.after + after;
    var s := Quote(m.key) + (g.beforeColon + ([':'] + (g.afterColon + (Print(m.value) + rest))));
    assert SpacedMember(m, g) + after == g.before + s;
    SpaceGone(g.before, s);
    SpaceGone(g.after, after);
    StopsAfterGap(g.after, after);
    SpacedMemberReads(m, g, rest);
    MemberTaken(s, acc, m.key, Normal(m.value), rest, after);
  }

  lemma StopsAfterGap(w: string, after: string)
    requires IsSpace(w) && after != [] && (after[0] == ',' || after[0] == '}')
    ensures Stops(w + after)
  {
  }

  lemma {:induction false} ParseSpacedMembers(ms: seq<Member>, gs: seq<Gaps>, acc: seq<Member>)
    requires |ms| == |gs| && ms != [] && ValuesPrintable(ms) && forall i :: 0 <= i < |gs| ==> gs[i].AreSpace()
    ensures var s := SkipSpace(SpacedMembers(ms, gs) + ['}']);
            s != [] && s[0] == '"' && ParseMembers(s, acc) == Got(InsertAll(acc, NormalMembers(ms)), [])
    decreases |ms|
  {
    hide SpacedMembers, SpacedMember, ParseMembers, InsertAll, Insert, IsPrintable, SkipSpace, NormalMembers, Normal, IsSpace;
    SpacedUnfold(ms, gs, ['}']);
    InsertAllUnfold(acc, ms);
    if |ms| == 1 {
      ParseSpacedMember(ms[0], gs[0], ['}'], acc);
      assert ['}'][1..] == [];
    } else {
      var more := SpacedMembers(ms[1..], gs[1..]) + ['}'];
      ParseSpacedMember(ms[0], gs[0], [','] + more, acc);
      assert ([','] + more)[1..] == more;
      ParseSpacedMembers(ms[1..], gs[1..], Insert(acc, ms[0].key, Normal(ms[0].value)));
    }
  }

  lemma ObjectIsPrintable(ms: seq<Member>)
    requires ValuesPrintable(ms)
    ensures IsPrintable(Obj(ms))
  {
  }

  /** Nor what the parser reads, with white space before the whole as well. */
  lemma ParseIgnoresSpacing(ms: seq<Member>, gs: seq<Gaps>, before: string)
    requires |ms| == |gs| && ms != [] && ValuesPrintable(ms) && forall i :: 0 <= i < |gs| ==> gs[i].AreSpace()
    requires IsSpace(before)
    ensures Parse(before + SpacedObject(ms, gs)) == Parse(Print(Obj(ms))) == Some(Normal(Obj(ms)))
  {
    hide SpacedMembers, InsertAll, IsPrintable, ParseMembers, NormalMembers, Print, IsSpace;
    ObjectIsPrintable(ms);
    ParseOfPrinted(Obj(ms));
    var s := SpacedObject(ms, gs);
    SpaceGone(before, s);
    assert s[1..] == SpacedMembers(ms, gs) + ['}'] && SkipSpace(s) == s;
    ParseSpacedMembers(ms, gs, []);
  }
}
