/** The scanner agrees with the parser on every printed object, up to how it decodes control characters. */
module ScannerLaws {
  import opened Wrappers
  import opened Strings
  import opened Json
  import opened JsonRoundTrip
  import opened JsonScanner

  // --- what the scanner makes of an escaped text -------------------------------------

  // The scanner keeps the character after a backslash, whatever it stands for.
  function Kept(c: char): (s: string)
    ensures s != []
    ensures if IsControl(c) then !IsControl(s[0]) else s == [c]
  {
    var e := EscapeChar(c);
    if e == [c] then e else e[1..]
  }

  function Misread(s: string): string {
    if s == [] then [] else Kept(s[0]) + Misread(s[1..])
  }

  lemma {:induction false} MisreadIsHarmless(s: string)
    ensures Misread(s) == s <==> HasNoControl(s)
  {
    if s != [] {
      MisreadIsHarmless(s[1..]);
      assert s == [s[0]] + s[1..];
      assert HasNoControl(s) <==> !IsControl(s[0]) && HasNoControl(s[1..]) by {
        forall i | 0 <= i < |s| - 1 ensures s[1..][i] == s[i + 1] {
        }
        forall i | 0 < i < |s| ensures s[i] == s[1..][i - 1] {
        }
      }
      if IsControl(s[0]) {
        assert Misread(s)[0] == Kept(s[0])[0];
      } else {
        assert Misread(s)[1..] == Misread(s[1..]);
      }
    }
  }

  predicate IsPlain(s: string) {
    forall i :: 0 <= i < |s| ==> s[i] != '"' && s[i] != '\\'
  }

  lemma {:induction false} PlainRead(p: string, s: string, acc: string)
    requires IsPlain(p)
    ensures ReadValue(p + s, acc) == ReadValue(s, acc + p)
    ensures ReadKey(p + s, acc) == ReadKey(s, acc + p)
    ensures SkipText(p + s) == SkipText(s)
    decreases |p|
  {
    if p == [] {
      assert p + s == s && acc + p == acc;
    } else {
      PlainRead(p[1..], s, acc + [p[0]]);
      assert (p + s)[1..] == p[1..] + s;
      assert (acc + [p[0]]) + p[1..] == acc + p;
    }
  }

  lemma OneCharRead(c: char, s: string, acc: string)
    ensures ReadValue(EscapeChar(c) + s, acc) == ReadValue(s, acc + Kept(c))
    ensures ReadKey(EscapeChar(c) + s, acc) == ReadKey(s, acc + EscapeChar(c))
    ensures SkipText(EscapeChar(c) + s) == SkipText(s)
  {
    var e := EscapeChar(c);
    if e == [c] {
      PlainRead(e, s, acc);
    } else {
      hide EscapeChar;
      var tail := e[2..];
      assert (e + s)[2..] == tail + s;
      PlainRead(tail, s, acc + [e[1]]);
      PlainRead(tail, s, acc + ['\\', e[1]]);
      assert (acc + [e[1]]) + tail == acc + e[1..];
      assert (acc + ['\\', e[1]]) + tail == acc + e;
    }
  }

  lemma {:induction false} TextRead(t: string, rest: string, acc: string)
    ensures ReadValue(Escape(t) + (['"'] + rest), acc) == Some((acc + Misread(t), rest))
    ensures ReadKey(Escape(t) + (['"'] + rest), acc) == Some((acc + Escape(t), rest))
    ensures SkipText(Escape(t) + (['"'] + rest)) == Some(rest)
    decreases |t|
  {
    hide EscapeChar, Kept;
    var tail := ['"'] + rest;
    if t == [] {
      assert Escape(t) + tail == tail && tail[1..] == rest;
      assert acc + Misread(t) == acc && acc + Escape(t) == acc;
    } else {
      var c, more := t[0], Escape(t[1..]) + tail;
      ConcatIsAssociative(EscapeChar(c), Escape(t[1..]), tail);
      OneCharRead(c, more, acc);
      TextRead(t[1..], rest, acc + Kept(c));
      TextRead(t[1..], rest, acc + EscapeChar(c));
      ConcatIsAssociative(acc, Kept(c), Misread(t[1..]));
      ConcatIsAssociative(acc, EscapeChar(c), Escape(t[1..]));
    }
  }

  lemma {:induction false} EscapeOfPlain(k: string)
    ensures (forall i :: 0 <= i < |Escape(k)| ==> Escape(k)[i] != '\\') <==> Escape(k) == k && IsPlain(k) && HasNoControl(k)
  {
    if k != [] {
      EscapeOfPlain(k[1..]);
      var e, more := EscapeChar(k[0]), Escape(k[1..]);
      assert k == [k[0]] + k[1..] && Escape(k) == e + more;
      if e == [k[0]] {
        assert Escape(k)[1..] == more;
        assert forall i :: 0 <= i < |more| ==> more[i] == Escape(k)[i + 1];
        assert forall i :: 0 < i < |Escape(k)| ==> Escape(k)[i] == more[i - 1];
        assert forall i :: 0 <= i < |k[1..]| ==> k[1..][i] == k[i + 1];
        assert forall i :: 0 < i < |k| ==> k[i] == k[1..][i - 1];
      } else {
        assert Escape(k)[0] == '\\';
        if Escape(k) == k {
          assert k[0] == '\\';
        }
      }
    }
  }

  lemma KeyIsPlain()
    ensures IsPlain(KEY) && HasNoControl(KEY)
  {
    assert forall i :: 0 <= i < |KEY| ==> 'a' <= KEY[i] <= 'z' || KEY[i] == '_';
  }

  lemma KeyTextIsKey(k: string)
    ensures Escape(k) == KEY <==> k == KEY
  {
    hide Escape, HasNoControl;
    KeyIsPlain();
    PlainEscapesToItself(KEY);
    EscapeOfPlain(k);
  }

  lemma {:induction false} PlainEscapesToItself(s: string)
    requires IsPlain(s) && HasNoControl(s)
    ensures Escape(s) == s
  {
    if s != [] {
      PlainEscapesToItself(s[1..]);
      assert s == [s[0]] + s[1..];
    }
  }

  // --- containers ----------------------------------------------------------------------

  predicate IsIgnored(c: char) {
    c != '{' && c != '[' && c != '}' && c != ']' && c != '"'
  }

  lemma {:induction false} IgnoredSkipped(p: string, rest: string, depth: nat)
    requires forall i :: 0 <= i < |p| ==> IsIgnored(p[i])
    ensures SkipContainer(p + rest, depth) == SkipContainer(rest, depth)
  {
    if p == [] {
      assert p + rest == rest;
    } else {
      assert (p + rest)[1..] == p[1..] + rest;
      IgnoredSkipped(p[1..], rest, depth);
    }
  }

  lemma TextSkipped(t: string, rest: string, depth: nat)
    ensures SkipContainer(Quote(t) + rest, depth) == SkipContainer(rest, depth)
  {
    hide Escape, SkipText;
    TextRead(t, rest, []);
    assert (Quote(t) + rest)[1..] == Escape(t) + (['"'] + rest);
  }

  lemma OpenSkipped(open: char, inner: string, close: char, rest: string, depth: nat)
    requires open == '{' || open == '['
    requires close == '}' || close == ']'
    requires SkipContainer(inner + ([close] + rest), depth + 1) == SkipContainer([close] + rest, depth + 1)
    ensures SkipContainer(([open] + (inner + [close])) + rest, depth) == SkipContainer(rest, depth)
  {
    assert (([open] + (inner + [close])) + rest)[1..] == inner + ([close] + rest);
    assert ([close] + rest)[1..] == rest;
  }

  /** A printed value, at any depth, leaves the depth as it was. */
  lemma {:induction false} ValueSkipped(j: Json, rest: string, depth: nat)
    requires IsPrintable(j)
    ensures SkipContainer(Print(j) + rest, depth) == SkipContainer(rest, depth)
    decreases j, 0
  {
    hide SkipContainer, Quote, PrintItems, PrintMembers;
    match j {
      case Null => IgnoredSkipped(Print(j), rest, depth);
      case Bool(b) => IgnoredSkipped(Print(j), rest, depth);
      case Num(t) => IgnoredSkipped(t, rest, depth);
      case Str(t) => TextSkipped(t, rest, depth);
      case Arr(items) =>
        ItemsSkipped(items, [']'] + rest, depth + 1);
        OpenSkipped('[', PrintItems(items), ']', rest, depth);
      case Obj(ms) =>
        MembersSkipped(ms, ['}'] + rest, depth + 1);
        OpenSkipped('{', PrintMembers(ms), '}', rest, depth);
    }
  }

  lemma {:induction false} ItemsSkipped(items: seq<Json>, rest: string, depth: nat)
    requires forall k :: 0 <= k < |items| ==> IsPrintable(items[k])
    ensures SkipContainer(PrintItems(items) + rest, depth) == SkipContainer(rest, depth)
    decreases items, 1
  {
    hide SkipContainer, PrintItems, Print, IsPrintable;
    if items == [] {
      NoItems();
      assert [] + rest == rest;
    } else {
      PrintItemsUnfold(items, rest);
      if |items| == 1 {
        ValueSkipped(items[0], rest, depth);
      } else {
        var more := PrintItems(items[1..]) + rest;
        ValueSkipped(items[0], [','] + more, depth);
        IgnoredSkipped([','], more, depth);
        ItemsSkipped(items[1..], rest, depth);
      }
    }
  }

  lemma MemberSkipped(m: Member, rest: string, depth: nat)
    requires IsPrintable(m.value)
    ensures SkipContainer(PrintMember(m) + rest, depth) == SkipContainer(rest, depth)
    decreases m, 1
  {
    hide SkipContainer, Print, Quote, IsPrintable;
    var v := Print(m.value);
    ConcatIsAssociative(Quote(m.key), [':'] + v, rest);
    ConcatIsAssociative([':'], v, rest);
    TextSkipped(m.key, [':'] + (v + rest), depth);
    IgnoredSkipped([':'], v + rest, depth);
    ValueSkipped(m.value, rest, depth);
  }

  lemma {:induction false} MembersSkipped(ms: seq<Member>, rest: string, depth: nat)
    requires ValuesPrintable(ms)
    ensures SkipContainer(PrintMembers(ms) + rest, depth) == SkipContainer(rest, depth)
    decreases ms, 1
  {
    hide SkipContainer, PrintMembers, PrintMember, IsPrintable;
    if ms == [] {
      NoItems();
      assert [] + rest == rest;
    } else {
      PrintMembersUnfold(ms, rest);
      if |ms| == 1 {
        MemberSkipped(ms[0], rest, depth);
      } else {
        var more := PrintMembers(ms[1..]) + rest;
        MemberSkipped(ms[0], [','] + more, depth);
        IgnoredSkipped([','], more, depth);
        MembersSkipped(ms[1..], rest, depth);
      }
    }
  }

  /** Skipping consumes exactly one container, however deeply it nests. */
  lemma ContainerIsConsumed(j: Json, rest: string)
    requires IsPrintable(j) && (j.Arr? || j.Obj?)
    ensures SkipContainer((Print(j) + rest)[1..], 0) == rest
  {
    var s := Print(j) + rest;
    match j {
      case Arr(items) =>
        assert s[1..] == PrintItems(items) + ([']'] + rest);
        ItemsSkipped(items, [']'] + rest, 0);
        assert ([']'] + rest)[1..] == rest;
      case Obj(ms) =>
        assert s[1..] == PrintMembers(ms) + (['}'] + rest);
        MembersSkipped(ms, ['}'] + rest, 0);
        assert (['}'] + rest)[1..] == rest;
    }
  }

  // --- values of a member -----------------------------------------------------------------

  predicate EndsMember(rest: string) {
    rest != [] && (rest[0] == ',' || rest[0] == '}' || IsJsonSpace(rest[0]))
  }

  lemma {:induction false} ScalarSkipped(p: string, rest: string)
    requires (forall i :: 0 <= i < |p| ==> IsNumberChar(p[i])) && EndsMember(rest)
    ensures SkipScalar(p + rest) == rest
  {
    if p == [] {
      assert p + rest == rest;
    } else {
      assert (p + rest)[1..] == p[1..] + rest;
      ScalarSkipped(p[1..], rest);
    }
  }

  lemma LiteralValueSkipped(j: Json, rest: string)
    requires j.Null? || j.Bool?
    ensures SkipValue(Print(j) + rest) == Some(rest)
  {
    hide SkipText, SkipContainer, SkipScalar;
    var p := Print(j);
    var s := p + rest;
    assert s[1..] == p[1..] + rest && s[|p|..] == rest;
    assert p[1..] == if j.Null? then "ull" else if j.b then "rue" else "alse";
    assert p[1..] <= s[1..];
  }

  lemma NumberValueSkipped(t: string, rest: string)
    requires IsNumber(t) && EndsMember(rest)
    ensures SkipValue(t + rest) == Some(rest)
  {
    hide SkipText, SkipContainer, SkipScalar;
    var s := t + rest;
    assert s[0] == '-' || IsDigit(s[0]);
    assert s[1..] == t[1..] + rest;
    ScalarSkipped(t[1..], rest);
  }

  lemma MemberValueSkipped(j: Json, rest: string)
    requires IsPrintable(j) && EndsMember(rest)
    ensures SkipValue(Print(j) + rest) == Some(rest)
  {
    hide SkipText, SkipContainer, Escape, SkipScalar, PrintItems, PrintMembers, EndsMember, IsNumber, ReadValue,
         ReadKey, Misread, EscapeChar;
    var s := Print(j) + rest;
    match j {
      case Null => LiteralValueSkipped(j, rest);
      case Bool(b) => LiteralValueSkipped(j, rest);
      case Num(t) => NumberValueSkipped(t, rest);
      case Str(t) =>
        TextRead(t, rest, []);
        assert s[1..] == Escape(t) + (['"'] + rest);
      case Arr(items) => ContainerIsConsumed(j, rest);
      case Obj(ms) => ContainerIsConsumed(j, rest);
    }
  }

  lemma ValueStartsPlainly(j: Json, rest: string)
    requires IsPrintable(j)
    ensures SkipSeparators([':'] + (Print(j) + rest)) == Print(j) + rest
  {
    var s := Print(j) + rest;
    assert ([':'] + s)[1..] == s;
    assert s != [] && !IsSeparator(s[0]);
  }

  lemma StringMatches(j: Json, rest: string, target: string)
    requires IsPrintable(j)
    ensures ValueMatches(Print(j) + rest, target) <==> j.Str? && Misread(j.s) == target
  {
    hide PrintItems, PrintMembers, Escape, Misread, ReadValue;
    var s := Print(j) + rest;
    if j.Str? {
      TextRead(j.s, rest, []);
      assert s[1..] == Escape(j.s) + (['"'] + rest);
      assert [] + Misread(j.s) == Misread(j.s);
    } else {
      assert s[0] == Print(j)[0] && Print(j)[0] != '"';
    }
  }

  // --- the whole line -----------------------------------------------------------------------

  // What the scanner is looking for, read off the members.
  function Stored(ms: seq<Member>): Option<Json> {
    Get(ms, KEY)
  }

  ghost predicate Matches(v: Option<Json>, target: string) {
    v.Some? && v.value.Str? && Misread(v.value.s) == target
  }

  lemma ScanMember(m: Member, after: string, target: string)
    requires IsPrintable(m.value) && EndsMember(after)
    ensures ScanFrom(PrintMember(m) + after, 0, target) ==
              if m.key == KEY then m.value.Str? && Misread(m.value.s) == target else ScanFrom(after, 0, target)
  {
    hide ReadKey, SkipValue, ValueMatches, Escape, Print, Misread, SkipSeparators;
    var tail := [':'] + (Print(m.value) + after);
    var s := PrintMember(m) + after;
    assert s[1..] == Escape(m.key) + (['"'] + tail);
    assert SkipFill(s) == s;
    TextRead(m.key, tail, []);
    assert [] + Escape(m.key) == Escape(m.key);
    KeyTextIsKey(m.key);
    ValueStartsPlainly(m.value, after);
    if m.key == KEY {
      StringMatches(m.value, after, target);
    } else {
      MemberValueSkipped(m.value, after);
    }
  }

  lemma ScanSeparator(s: string, target: string)
    ensures ScanFrom([','] + s, 0, target) == ScanFrom(s, 0, target)
  {
    assert ([','] + s)[1..] == s;
  }

  lemma StoredCases(ms: seq<Member>, target: string)
    requires ms != []
    ensures Matches(Stored(ms), target) <==>
              if ms[0].key == KEY then ms[0].value.Str? && Misread(ms[0].value.s) == target
              else Matches(Stored(ms[1..]), target)
    ensures !Matches(Stored([]), target)
  {
  }

  lemma {:induction false} ScanMembers(ms: seq<Member>, target: string)
    requires ValuesPrintable(ms)
    ensures ScanFrom(PrintMembers(ms) + ['}'], 0, target) <==> Matches(Stored(ms), target)
    decreases |ms|
  {
    hide PrintMembers, PrintMember, IsPrintable, Misread, ScanFrom, Matches;
    NothingLeft(target);
    if ms == [] {
      NoItems();
      assert [] + ['}'] == ['}'];
      assert !Matches(Stored([]), target) by {
        StoredCases([Member([], Null)], target);
      }
    } else {
      PrintMembersUnfold(ms, ['}']);
      StoredCases(ms, target);
      if |ms| == 1 {
        assert ms[1..] == [];
        ScanMember(ms[0], ['}'], target);
      } else {
        var more := PrintMembers(ms[1..]) + ['}'];
        ScanMember(ms[0], [','] + more, target);
        ScanSeparator(more, target);
        ScanMembers(ms[1..], target);
      }
    }
  }

  lemma NothingLeft(target: string)
    ensures !ScanFrom(['}'], 0, target)
  {
  }

  /** The scan looks at the first top-level member with the key, in whatever order the members are printed, and answers
      whether its value is a string that the scanner reads as the target. */
  lemma ScanReadsTopLevelKey(ms: seq<Member>, target: string)
    requires ValuesPrintable(ms)
    ensures Scan(Print(Obj(ms)), target) <==> Matches(Get(ms, "idempotency_key"), target)
  {
    hide ScanFrom, PrintMembers, IsPrintable, Matches;
    ScanMembers(ms, target);
    assert Print(Obj(ms))[1..] == PrintMembers(ms) + ['}'];
  }

  // The last member with a key is the one a parser keeps.
  function LastOf(ms: seq<Member>, key: string): Option<Json> {
    if ms == [] then None else if ms[|ms| - 1].key == key then Some(ms[|ms| - 1].value) else LastOf(ms[..|ms| - 1], key)
  }

  lemma {:induction false} LastOfRest(ms: seq<Member>, key: string)
    requires ms != []
    ensures LastOf(ms, key) == if LastOf(ms[1..], key).Some? then LastOf(ms[1..], key) else if ms[0].key == key then Some(ms[0].value) else None
  {
    var n := |ms| - 1;
    if n > 0 && ms[n].key != key {
      LastOfRest(ms[..n], key);
      assert ms[..n][1..] == ms[1..][..n - 1];
    }
  }

  function NormalOption(v: Option<Json>): Option<Json> {
    if v.Some? then Some(Normal(v.value)) else None
  }

  lemma {:induction false} ParserReadsLast(acc: seq<Member>, ms: seq<Member>, key: string)
    ensures Get(InsertAll(acc, NormalMembers(ms)), key) ==
              if LastOf(ms, key).Some? then NormalOption(LastOf(ms, key)) else Get(acc, key)
    decreases |ms|
  {
    hide Get, Insert, LastOf, Normal;
    if ms != [] {
      var m, v := ms[0], Normal(ms[0].value);
      LastOfRest(ms, key);
      GetAfterInsert(acc, m.key, v, key);
      ParserReadsLast(Insert(acc, m.key, v), ms[1..], key);
      assert NormalMembers(ms)[1..] == NormalMembers(ms[1..]);
    } else {
      assert LastOf(ms, key).None? by {
        NoneInNothing(key);
      }
    }
  }

  lemma NoneInNothing(key: string)
    ensures LastOf([], key) == None
  {
  }

  // The text of a string value, as a parser reads it and as the scanner does.
  function TextOf(v: Option<Json>): Option<string> {
    if v.Some? && v.value.Str? then Some(v.value.s) else None
  }

  function ScannedText(v: Option<Json>): Option<string> {
    if TextOf(v).Some? then Some(Misread(TextOf(v).value)) else None
  }

  ghost predicate AgreesOnAllTargets(ms: seq<Member>) {
    forall target :: Scan(Print(Obj(ms)), target) <==> ParsedHas(ms, target)
  }

  // The parsed object has the target under the key.
  ghost predicate ParsedHas(ms: seq<Member>, target: string) {
    match Parse(Print(Obj(ms)))
    case Some(Obj(parsed)) => Get(parsed, "idempotency_key") == Some(Str(target))
    case _ => false
  }

  lemma ParsedText(ms: seq<Member>, target: string)
    requires ValuesPrintable(ms)
    ensures ParsedHas(ms, target) <==> TextOf(LastOf(ms, "idempotency_key")) == Some(target)
  {
    hide Parse, Print, InsertAll, NormalMembers, LastOf, Get;
    ParseOfPrinted(Obj(ms));
    ParserReadsLast([], ms, KEY);
    NothingStored(KEY);
  }

  lemma NothingStored(key: string)
    ensures Get([], key) == None
  {
  }

  /** The exact condition, over every printed object, for scan and parser to agree on every target: the scanner reads
      the first value under the key as the parser reads the last. */
  lemma ScanAgreesWhen(ms: seq<Member>)
    requires ValuesPrintable(ms)
    ensures AgreesOnAllTargets(ms) <==> ScannedText(Get(ms, "idempotency_key")) == TextOf(LastOf(ms, "idempotency_key"))
  {
    hide Scan, Print, Misread, ParsedHas, IsPrintable, LastOf, Get;
    var scanned, parsed := ScannedText(Get(ms, KEY)), TextOf(LastOf(ms, KEY));
    forall target
      ensures Scan(Print(Obj(ms)), target) <==> scanned == Some(target)
      ensures ParsedHas(ms, target) <==> parsed == Some(target)
    {
      ScanReadsTopLevelKey(ms, target);
      ParsedText(ms, target);
    }
    if AgreesOnAllTargets(ms) {
      if scanned.Some? {
        assert Scan(Print(Obj(ms)), scanned.value);
      }
      if parsed.Some? {
        assert ParsedHas(ms, parsed.value);
      }
    }
  }

  ghost predicate OccursOnce(ms: seq<Member>, key: string) {
    forall i, j :: 0 <= i < j < |ms| && ms[i].key == key ==> ms[j].key != key
  }

  lemma {:induction false} FirstIsLast(ms: seq<Member>, key: string)
    requires OccursOnce(ms, key)
    ensures LastOf(ms, key) == Get(ms, key)
  {
    if ms != [] {
      LastOfRest(ms, key);
      if ms[0].key == key {
        NotThere(ms[1..], key);
      } else {
        FirstIsLast(ms[1..], key);
      }
    }
  }

  lemma {:induction false} NotThere(ms: seq<Member>, key: string)
    requires forall i :: 0 <= i < |ms| ==> ms[i].key != key
    ensures LastOf(ms, key) == None
  {
    if ms != [] {
      NotThere(ms[..|ms| - 1], key);
    }
  }

  /** When the key occurs once, in any place, and the stored key has no control character, scan and parser agree. */
  lemma ScanAgreesWithParser(ms: seq<Member>, target: string)
    requires ValuesPrintable(ms) && OccursOnce(ms, "idempotency_key")
    requires var v := Get(ms, "idempotency_key"); v.Some? && v.value.Str? ==> HasNoControl(v.value.s)
    ensures Scan(Print(Obj(ms)), target) <==> ParsedHas(ms, target)
    ensures Scan(Print(Obj(ms)), target) <==> Get(ms, "idempotency_key") == Some(Str(target))
  {
    hide Scan, Print, ParsedHas, IsPrintable, LastOf, Get, OccursOnce;
    ScanReadsTopLevelKey(ms, target);
    ParsedText(ms, target);
    FirstIsLast(ms, KEY);
    var v := Get(ms, KEY);
    if v.Some? && v.value.Str? {
      MisreadIsHarmless(v.value.s);
    }
  }

  /** And only then: they agree on every target if and only if the stored key has no control character. */
  lemma ScanIsExactWhen(ms: seq<Member>, stored: string)
    requires ValuesPrintable(ms) && OccursOnce(ms, "idempotency_key") && Get(ms, "idempotency_key") == Some(Str(stored))
    ensures AgreesOnAllTargets(ms) <==> HasNoControl(stored)
  {
    hide Print, Misread, IsPrintable, LastOf, Get, OccursOnce, AgreesOnAllTargets, HasNoControl;
    ScanAgreesWhen(ms);
    FirstIsLast(ms, KEY);
    MisreadIsHarmless(stored);
  }

  /** A repeated key is read differently: the scanner takes the first, the parser the last. */
  lemma RepeatedKeyDisagrees(first: string, last: string)
    requires HasNoControl(first) && HasNoControl(last) && first != last
    ensures var ms := [Member("idempotency_key", Str(first)), Member("idempotency_key", Str(last))];
            Scan(Print(Obj(ms)), first) && !ParsedHas(ms, first) && ParsedHas(ms, last) && !Scan(Print(Obj(ms)), last)
  {
    hide Scan, Print, ParsedHas, Misread, HasNoControl;
    var ms := [Member(KEY, Str(first)), Member(KEY, Str(last))];
    ScanReadsTopLevelKey(ms, first);
    ScanReadsTopLevelKey(ms, last);
    ParsedText(ms, first);
    ParsedText(ms, last);
    MisreadIsHarmless(first);
    MisreadIsHarmless(last);
  }

  /** What the scanner makes of control characters: the letter of the escape stands for the character. So an entry with
      one key is taken for an entry with another. */
  lemma NewlineIsReadAsN(a: string, b: string)
    requires HasNoControl(a) && HasNoControl(b)
    ensures Scan(Print(Obj([Member("idempotency_key", Str(a + ("\n" + b)))])), a + ("n" + b))
    ensures Scan(Print(Obj([Member("idempotency_key", Str(a + ("\t" + b)))])), a + ("t" + b))
    ensures Scan(Print(Obj([Member("idempotency_key", Str(a + ([1 as char] + b)))])), a + ("u0001" + b))
  {
    hide Scan, Print, HasNoControl, Misread;
    OneMisread(a, '\n', b, "n");
    OneMisread(a, '\t', b, "t");
    OneMisread(a, 1 as char, b, "u0001");
  }

  lemma OneMisread(a: string, c: char, b: string, kept: string)
    requires HasNoControl(a) && HasNoControl(b) && Kept(c) == kept
    ensures Scan(Print(Obj([Member("idempotency_key", Str(a + ([c] + b)))])), a + (kept + b))
  {
    hide Scan, Print, HasNoControl, Kept;
    var s := a + ([c] + b);
    MisreadConcat(a, [c] + b);
    MisreadConcat([c], b);
    MisreadIsHarmless(a);
    MisreadIsHarmless(b);
    OneIsKept(c);
    var ms := [Member("idempotency_key", Str(s))];
    ScanReadsTopLevelKey(ms, a + (kept + b));
  }

  lemma OneIsKept(c: char)
    ensures Misread([c]) == Kept(c)
  {
    hide Kept;
    assert Misread([c][1..]) == [];
    assert Kept(c) + [] == Kept(c);
  }

  lemma {:induction false} MisreadConcat(a: string, b: string)
    ensures Misread(a + b) == Misread(a) + Misread(b)
  {
    hide Kept;
    if a == [] {
      assert a + b == b;
    } else {
      MisreadConcat(a[1..], b);
      assert (a + b)[0] == a[0] && (a + b)[1..] == a[1..] + b;
      ConcatIsAssociative(Kept(a[0]), Misread(a[1..]), Misread(b));
    }
  }
}
