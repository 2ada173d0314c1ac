/** Parsing a printed value gives the value back. */
module JsonRoundTrip {
  import opened Wrappers
  import opened Strings
  import opened Json

  // What may follow a value without becoming part of it.
  predicate Stops(rest: string) {
    rest == [] || !IsNumberChar(rest[0])
  }

  lemma EscapeRoundTrip(c: char, rest: string)
    ensures var t := EscapeChar(c) + rest;
            if EscapeChar(c) == [c] then !IsControl(c) && c != '"' && c != '\\'
            else t[0] == '\\' && ParseEscape(t[1..]) == Got(c, rest)
  {
    var e := EscapeChar(c);
    var t := e + rest;
    if e != [c] {
      assert t[1..] == e[1..] + rest;
      if IsControl(c) && |e| == 6 {
        var (h, l) := (HexDigit(c as int / 16), HexDigit(c as int % 16));
        assert t[1..][1..] == ['0', '0', h, l] + rest;
        HexRoundTrip(c as int / 16);
        HexRoundTrip(c as int % 16);
        assert Hex4(t[1..][1..]) == Some(c as int);
        assert t[1..][5..] == rest;
      } else {
        assert |e| == 2 && t[1..][1..] == rest;
      }
    }
  }

  lemma HexRoundTrip(n: nat)
    requires n < 16
    ensures HexValue(HexDigit(n)) == Some(n)
  {
  }

  lemma ParseOneChar(c: char, more: string)
    ensures ParseText(EscapeChar(c) + more) == PrependChar(c, ParseText(more))
  {
    hide EscapeChar, ParseEscape, Hex4;
    EscapeRoundTrip(c, more);
    if EscapeChar(c) == [c] {
      assert (EscapeChar(c) + more)[1..] == more;
    }
  }

  lemma {:induction false} TextRoundTrip(s: string, rest: string)
    ensures ParseText(Escape(s) + (['"'] + rest)) == Got(s, rest)
  {
    hide EscapeChar, ParseEscape;
    var tail := ['"'] + rest;
    if s == [] {
      assert Escape(s) + tail == tail && tail[1..] == rest;
    } else {
      hide ParseText;
      TextRoundTrip(s[1..], rest);
      ParseOneChar(s[0], Escape(s[1..]) + tail);
      assert Escape(s) + tail == EscapeChar(s[0]) + (Escape(s[1..]) + tail);
      assert [s[0]] + s[1..] == s;
    }
  }

  lemma {:induction false} NumberRoundTrip(t: string, rest: string)
    requires forall k :: 0 <= k < |t| ==> IsNumberChar(t[k])
    requires Stops(rest)
    ensures NumberEnd(t + rest) == |t|
  {
    if t == [] {
      assert t + rest == rest;
    } else {
      assert (t + rest)[1..] == t[1..] + rest;
      NumberRoundTrip(t[1..], rest);
    }
  }

  predicate StartsValue(s: string) {
    s != [] && !IsJsonSpace(s[0]) && s[0] != ']' && s[0] != '}'
  }

  lemma PrintStarts(j: Json)
    requires IsPrintable(j)
    ensures StartsValue(Print(j))
  {
  }

  lemma ItemsStart(items: seq<Json>)
    requires items != [] && IsPrintable(items[0])
    ensures StartsValue(PrintItems(items))
  {
    PrintStarts(items[0]);
  }

  lemma LiteralRoundTrip(j: Json, rest: string)
    requires j.Null? || j.Bool?
    ensures ParseValue(Print(j) + rest) == Got(j, rest)
  {
    var s := Print(j) + rest;
    assert Print(j) <= s && s[|Print(j)|..] == rest;
    match j {
      case Null =>
        assert s[0] == 'n';
      case Bool(b) =>
        if b {
          assert s[0] == 't' && !("null" <= s);
        } else {
          assert s[0] == 'f' && !("null" <= s) && !("true" <= s);
        }
    }
  }

  lemma NumberValueRoundTrip(t: string, rest: string)
    requires IsNumber(t) && Stops(rest)
    ensures ParseValue(t + rest) == Got(Num(t), rest)
  {
    var s := t + rest;
    NumberRoundTrip(t, rest);
    assert s[..|t|] == t && s[|t|..] == rest;
    assert s[0] == '-' || IsDigit(s[0]);
    assert !("null" <= s) && !("true" <= s) && !("false" <= s);
  }

  lemma StringValueRoundTrip(t: string, rest: string)
    ensures ParseValue(Quote(t) + rest) == Got(Str(t), rest)
  {
    hide Escape, ParseText;
    TextRoundTrip(t, rest);
    assert (Quote(t) + rest)[1..] == Escape(t) + (['"'] + rest);
  }

  lemma ArrayValueRoundTrip(items: seq<Json>, rest: string)
    requires items == [] || (StartsValue(PrintItems(items)) && ParseItems(PrintItems(items) + ([']'] + rest)) == Got(NormalItems(items), rest))
    ensures ParseValue(Print(Arr(items)) + rest) == Got(Normal(Arr(items)), rest)
  {
    hide ParseItems, PrintItems;
    var s := Print(Arr(items)) + rest;
    assert s[1..] == PrintItems(items) + ([']'] + rest);
    if items == [] {
      NoItems();
      assert s[1..] == [']'] + rest && s[1..][1..] == rest;
    }
  }

  lemma NoItems()
    ensures PrintItems([]) == [] && PrintMembers([]) == []
  {
  }

  lemma {:induction false} ValueRoundTrip(j: Json, rest: string)
    requires IsPrintable(j) && Stops(rest)
    ensures ParseValue(Print(j) + rest) == Got(Normal(j), rest)
    decreases j, 0
  {
    hide ParseValue, PrintItems, PrintMembers, Quote, IsNumber, Stops;
    match j {
      case Null => LiteralRoundTrip(j, rest);
      case Bool(b) => LiteralRoundTrip(j, rest);
      case Num(t) => NumberValueRoundTrip(t, rest);
      case Str(t) => StringValueRoundTrip(t, rest);
      case Arr(items) =>
        if items != [] {
          ItemsStart(items);
          ItemsRoundTrip(items, rest);
        }
        ArrayValueRoundTrip(items, rest);
      case Obj(ms) =>
        ObjectRoundTrip(ms, rest);
    }
  }

  // An object with its members in any order, even with repeated keys, is read into a sorted map.
  lemma {:induction false} ObjectRoundTrip(ms: seq<Member>, rest: string)
    requires ValuesPrintable(ms)
    ensures ParseValue(Print(Obj(ms)) + rest) == Got(Normal(Obj(ms)), rest)
    decreases ms, 2
  {
    hide ParseMembers, PrintMembers, ValuesPrintable;
    var s := Print(Obj(ms)) + rest;
    assert s[1..] == PrintMembers(ms) + (['}'] + rest);
    if ms == [] {
      NoItems();
      assert s[1..] == ['}'] + rest && s[1..][1..] == rest;
    } else {
      MembersStart(ms, ['}'] + rest);
      MembersRoundTrip(ms, [], rest);
    }
  }

  lemma ItemsMore(s: string, v: Json, more: string, vs: seq<Json>, rest: string)
    requires ParseValue(s) == Got(v, [','] + more) && SkipSpace(more) == more && ParseItems(more) == Got(vs, rest)
    ensures ParseItems(s) == Got([v] + vs, rest)
  {
    hide ParseValue;
    assert ([','] + more)[1..] == more;
  }

  lemma PrintItemsUnfold(items: seq<Json>, close: string)
    requires items != []
    ensures |items| == 1 ==> PrintItems(items) + close == Print(items[0]) + close
    ensures |items| > 1 ==> PrintItems(items) + close == Print(items[0]) + ([','] + (PrintItems(items[1..]) + close))
  {
    if |items| > 1 {
      var more := PrintItems(items[1..]);
      ConcatIsAssociative(Print(items[0]), [','] + more, close);
      ConcatIsAssociative([','], more, close);
    }
  }

  lemma {:induction false} ItemsRoundTrip(items: seq<Json>, rest: string)
    requires items != [] && forall k :: 0 <= k < |items| ==> IsPrintable(items[k])
    ensures ParseItems(PrintItems(items) + ([']'] + rest)) == Got(NormalItems(items), rest)
    decreases items, 1
  {
    var close := [']'] + rest;
    PrintItemsUnfold(items, close);
    if |items| == 1 {
      ValueRoundTrip(items[0], close);
      assert NormalItems(items) == [Normal(items[0])];
    } else {
      var more := PrintItems(items[1..]) + close;
      ValueRoundTrip(items[0], [','] + more);
      ItemsStart(items[1..]);
      ItemsRoundTrip(items[1..], rest);
      ItemsMore(PrintItems(items) + close, Normal(items[0]), more, NormalItems(items[1..]), rest);
    }
  }

  // Reading one printed member.
  lemma MemberRead(m: Member, after: string)
    requires IsPrintable(m.value)
    ensures var s := PrintMember(m) + after;
            && s != [] && s[0] == '"'
            && ParseText(s[1..]) == Got(m.key, [':'] + (Print(m.value) + after))
            && SkipSpace([':'] + (Print(m.value) + after)) == [':'] + (Print(m.value) + after)
            && SkipSpace(([':'] + (Print(m.value) + after))[1..]) == Print(m.value) + after
  {
    hide ParseText, Escape, Print, IsPrintable;
    var tail := [':'] + (Print(m.value) + after);
    var s := PrintMember(m) + after;
    assert s == ['"'] + (Escape(m.key) + (['"'] + tail));
    assert s[1..] == Escape(m.key) + (['"'] + tail);
    TextRoundTrip(m.key, tail);
    PrintStarts(m.value);
    assert tail[1..] == Print(m.value) + after;
  }

  // A text that starts with this member and then `after`.
  ghost predicate ReadsMember(s: string, key: string, v: Json, after: string) {
    && s != [] && s[0] == '"'
    && var p := ParseText(s[1..]);
       p.Got? && p.value == key
       && var t := SkipSpace(p.rest);
          t != [] && t[0] == ':' && ParseValue(SkipSpace(t[1..])) == Got(v, after)
  }

  lemma PrintedMemberReads(m: Member, after: string)
    requires IsPrintable(m.value) && Stops(after)
    ensures ReadsMember(PrintMember(m) + after, m.key, Normal(m.value), after)
    decreases m.value, 3
  {
    hide ParseText, ParseValue, PrintMember, Print, IsPrintable, Stops;
    MemberRead(m, after);
    ValueRoundTrip(m.value, after);
  }

  lemma MembersMore(s: string, acc: seq<Member>, key: string, v: Json, more: string)
    requires ReadsMember(s, key, v, [','] + more) && SkipSpace(more) == more
    ensures ParseMembers(s, acc) == ParseMembers(more, Insert(acc, key, v))
  {
    hide ParseValue, ParseText, Insert;
    assert ([','] + more)[1..] == more;
  }

  lemma PrintMembersUnfold(ms: seq<Member>, close: string)
    requires ms != []
    ensures |ms| == 1 ==> PrintMembers(ms) + close == PrintMember(ms[0]) + close
    ensures |ms| > 1 ==> PrintMembers(ms) + close == PrintMember(ms[0]) + ([','] + (PrintMembers(ms[1..]) + close))
  {
    if |ms| > 1 {
      var more := PrintMembers(ms[1..]);
      ConcatIsAssociative(PrintMember(ms[0]), [','] + more, close);
      ConcatIsAssociative([','], more, close);
    }
  }

  lemma MembersLast(s: string, acc: seq<Member>, key: string, v: Json, rest: string)
    requires ReadsMember(s, key, v, ['}'] + rest)
    ensures ParseMembers(s, acc) == Got(Insert(acc, key, v), rest)
  {
    hide ParseValue, ParseText, Insert;
    assert (['}'] + rest)[1..] == rest;
  }

  lemma InsertAllUnfold(acc: seq<Member>, ms: seq<Member>)
    requires ms != []
    ensures var more := Insert(acc, ms[0].key, Normal(ms[0].value));
            InsertAll(acc, NormalMembers(ms)) == InsertAll(more, NormalMembers(ms[1..])) && (|ms| == 1 ==> InsertAll(acc, NormalMembers(ms)) == more)
  {
    hide Insert, Normal;
    assert NormalMembers(ms)[1..] == NormalMembers(ms[1..]);
  }

  lemma {:induction false} MembersRoundTrip(ms: seq<Member>, acc: seq<Member>, rest: string)
    requires ms != [] && ValuesPrintable(ms)
    ensures ParseMembers(PrintMembers(ms) + (['}'] + rest), acc) == Got(InsertAll(acc, NormalMembers(ms)), rest)
    decreases ms, 1
  {
    hide PrintMember, PrintMembers, ParseMembers, ReadsMember, InsertAll, Insert, IsPrintable, SkipSpace,
         NormalMembers, Normal;
    var m, close := ms[0], ['}'] + rest;
    PrintMembersUnfold(ms, close);
    InsertAllUnfold(acc, ms);
    if |ms| == 1 {
      PrintedMemberReads(m, close);
      MembersLast(PrintMembers(ms) + close, acc, m.key, Normal(m.value), rest);
    } else {
      var more := PrintMembers(ms[1..]) + close;
      PrintedMemberReads(m, [','] + more);
      MembersStart(ms[1..], close);
      MembersMore(PrintMembers(ms) + close, acc, m.key, Normal(m.value), more);
      MembersRoundTrip(ms[1..], Insert(acc, m.key, Normal(m.value)), rest);
    }
  }

  lemma MembersStart(ms: seq<Member>, after: string)
    requires ms != []
    ensures SkipSpace(PrintMembers(ms) + after) == PrintMembers(ms) + after
    ensures PrintMembers(ms) != [] && PrintMembers(ms)[0] == '"'
  {
  }

  /** Whatever is printed is read back in its normal form: keys in any order, repeated or not, at any depth. */
  lemma ParseOfPrinted(j: Json)
    requires IsPrintable(j)
    ensures Parse(Print(j)) == Some(Normal(j))
  {
    hide ParseValue, IsPrintable, Normal;
    ValueRoundTrip(j, []);
    PrintStarts(j);
    assert Print(j) + [] == Print(j);
  }

  lemma {:induction false} WellFormedIsNormal(j: Json)
    requires IsWellFormed(j)
    ensures Normal(j) == j
    decreases j, 0
  {
    match j {
      case Arr(items) => WellFormedItemsAreNormal(items);
      case Obj(ms) =>
        WellFormedMembersAreNormal(ms);
        assert [] + ms == ms;
        InsertAllSorted([], ms);
      case _ =>
    }
  }

  lemma {:induction false} WellFormedItemsAreNormal(items: seq<Json>)
    requires forall k :: 0 <= k < |items| ==> IsWellFormed(items[k])
    ensures NormalItems(items) == items
    decreases items, 1
  {
    if items != [] {
      WellFormedIsNormal(items[0]);
      WellFormedItemsAreNormal(items[1..]);
    }
  }

  lemma {:induction false} WellFormedMembersAreNormal(ms: seq<Member>)
    requires ValuesWellFormed(ms)
    ensures NormalMembers(ms) == ms
    decreases ms, 1
  {
    if ms != [] {
      WellFormedIsNormal(ms[0].value);
      WellFormedMembersAreNormal(ms[1..]);
    }
  }

  /** The parser inverts the printer on every well-formed value. */
  lemma ParseInvertsPrint(j: Json)
    requires IsWellFormed(j)
    ensures Parse(Print(j)) == Some(j)
  {
    ParseOfPrinted(j);
    WellFormedIsNormal(j);
  }

  lemma ParseOfPrintedMembers(ms: seq<Member>)
    requires ValuesWellFormed(ms)
    ensures Parse(Print(Obj(ms))) == Some(Obj(InsertAll([], ms)))
  {
    ParseOfPrinted(Obj(ms));
    WellFormedMembersAreNormal(ms);
  }

  /** The compact form, by example. */
  lemma PrintedList()
    ensures Print(Arr([Null, Bool(true)])) == "[null,true]" && Print(Arr([])) == "[]"
  {
    assert [Null, Bool(true)][1..] == [Bool(true)];
  }

  lemma PrintedPair(m: Member)
    requires m == Member("a", Num("1"))
    ensures PrintMember(m) == "\"a\":1"
  {
    hide EscapeChar;
    EscapeOne('a');
    EscapedForm('a');
    assert PrintMember(m) == ['"'] + ("a" + ['"']) + ([':'] + "1");
  }

  lemma MembersForm(m: Member)
    ensures Print(Obj([m, m])) == ['{'] + ((PrintMember(m) + ([','] + PrintMember(m))) + ['}'])
  {
    hide PrintMember;
    var ms := [m, m];
    assert ms[1..] == [m];
    assert PrintMembers([m]) == PrintMember(m);
    assert PrintMembers(ms) == PrintMember(ms[0]) + ([','] + PrintMembers(ms[1..]));
  }

  /** And of objects. */
  lemma PrintedObject()
    ensures var m := Member("a", Num("1")); Print(Obj([m, m])) == "{\"a\":1,\"a\":1}"
  {
    hide Print, PrintMember;
    var m, one := Member("a", Num("1")), "\"a\":1";
    PrintedPair(m);
    MembersForm(m);
    assert ['{'] + ((one + ([','] + one)) + ['}']) == "{\"a\":1,\"a\":1}";
  }

  lemma EscapeOne(c: char)
    ensures Escape([c]) == EscapeChar(c)
  {
    hide EscapeChar;
    assert [c][1..] == [];
    assert EscapeChar(c) + [] == EscapeChar(c);
  }

  /** The escapes that are written: two characters where there is a short form, four hexadecimal digits for the other
      control characters, and none for the rest. */
  lemma EscapedForm(c: char)
    ensures EscapeChar(c) ==
              if c == '"' then "\\\"" else if c == '\\' then "\\\\"
              else if c == '\n' then "\\n" else if c == '\r' then "\\r" else if c == '\t' then "\\t"
              else if c == 8 as char then "\\b" else if c == 12 as char then "\\f"
              else if c as int < 16 then "\\u000" + ["0123456789abcdef"[c as int]]
              else if c as int < 32 then "\\u001" + ["0123456789abcdef"[c as int - 16]]
              else [c]
  {
  }
}
