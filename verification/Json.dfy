/** JSON values (sections 3 to 7 of RFC 8259), their compact text, and a parser for that text. */
module Json {
  import opened Wrappers
  import opened Strings

  /** Objects list their members; a value read from text or built as a map has them sorted by key. */
  datatype Json =
    | Null
    | Bool(b: bool)
    | Num(text: string)
    | Str(s: string)
    | Arr(items: seq<Json>)
    | Obj(members: seq<Member>)

  datatype Member = Member(key: string, value: Json)

  // --- numbers ---------------------------------------------------------------

  predicate IsNumberChar(c: char) {
    IsDigit(c) || c == '-' || c == '+' || c == '.' || c == 'e' || c == 'E'
  }

  function DigitsEnd(t: string, i: nat): (e: nat)
    requires i <= |t|
    ensures i <= e <= |t|
    decreases |t| - i
  {
    if i < |t| && IsDigit(t[i]) then DigitsEnd(t, i + 1) else i
  }

  function FractionEnd(t: string, i: nat): (e: nat)
    requires i <= |t|
    ensures i <= e <= |t|
  {
    if i < |t| && t[i] == '.' && DigitsEnd(t, i + 1) > i + 1 then DigitsEnd(t, i + 1) else i
  }

  function ExponentEnd(t: string, i: nat): (e: nat)
    requires i <= |t|
    ensures i <= e <= |t|
  {
    if i < |t| && (t[i] == 'e' || t[i] == 'E') then
      var j := if i + 1 < |t| && (t[i + 1] == '+' || t[i + 1] == '-') then i + 2 else i + 1;
      if DigitsEnd(t, j) > j then DigitsEnd(t, j) else i
    else i
  }

  /** Section 6: an optional minus, an integer part without leading zeros, a fraction, an exponent. */
  predicate IsNumber(t: string) {
    && (forall k :: 0 <= k < |t| ==> IsNumberChar(t[k]))
    && var i := if t != [] && t[0] == '-' then 1 else 0;
       i < |t| && IsDigit(t[i]) &&
       ExponentEnd(t, FractionEnd(t, if t[i] == '0' then i + 1 else DigitsEnd(t, i))) == |t|
  }

  lemma {:induction false} AllDigitsToTheEnd(t: string, i: nat)
    requires AllDigits(t) && i <= |t|
    ensures DigitsEnd(t, i) == |t|
    decreases |t| - i
  {
    if i < |t| {
      AllDigitsToTheEnd(t, i + 1);
    }
  }

  lemma DecimalIsNumber(n: nat)
    ensures IsNumber(Decimal(n))
  {
    var t := Decimal(n);
    assert IsDigit(t[0]);
    if n > 0 {
      AllDigitsToTheEnd(t, 0);
    }
  }

  // --- well-formed values ------------------------------------------------------

  predicate IsSorted(ms: seq<Member>) {
    forall i, j :: 0 <= i < j < |ms| ==> Less(ms[i].key, ms[j].key)
  }

  /** What can be printed: any value whose numbers are numbers, with keys in any order, repeated or not. */
  predicate IsPrintable(j: Json) {
    match j
    case Num(t) => IsNumber(t)
    case Arr(items) => forall k :: 0 <= k < |items| ==> IsPrintable(items[k])
    case Obj(ms) => ValuesPrintable(ms)
    case _ => true
  }

  predicate ValuesPrintable(ms: seq<Member>) {
    forall k :: 0 <= k < |ms| ==> IsPrintable(ms[k].value)
  }

  /** What a parsed value is: the keys of every object are sorted, and so unique. */
  predicate IsWellFormed(j: Json): (b: bool)
    ensures b ==> IsPrintable(j)
  {
    match j
    case Num(t) => IsNumber(t)
    case Arr(items) => forall k :: 0 <= k < |items| ==> IsWellFormed(items[k])
    case Obj(ms) => IsSorted(ms) && ValuesWellFormed(ms)
    case _ => true
  }

  predicate ValuesWellFormed(ms: seq<Member>) {
    forall k :: 0 <= k < |ms| ==> IsWellFormed(ms[k].value)
  }

  // The value stored under a key: the first member that has it.
  function Get(ms: seq<Member>, key: string): Option<Json> {
    if ms == [] then None else if ms[0].key == key then Some(ms[0].value) else Get(ms[1..], key)
  }

  lemma {:induction false} MemberOfGet(ms: seq<Member>, key: string) returns (i: nat)
    requires Get(ms, key).Some?
    ensures i < |ms| && ms[i] == Member(key, Get(ms, key).value)
  {
    if ms[0].key == key {
      i := 0;
    } else {
      i := MemberOfGet(ms[1..], key);
      i := i + 1;
    }
  }

  // Storing a value in a sorted map.
  function Insert(ms: seq<Member>, key: string, value: Json): (r: seq<Member>)
    ensures r != []
  {
    if ms == [] then [Member(key, value)]
    else if ms[0].key == key then [Member(key, value)] + ms[1..]
    else if Less(key, ms[0].key) then [Member(key, value)] + ms
    else [ms[0]] + Insert(ms[1..], key, value)
  }

  function InsertAll(acc: seq<Member>, ms: seq<Member>): seq<Member>
    decreases |ms|
  {
    if ms == [] then acc else InsertAll(Insert(acc, ms[0].key, ms[0].value), ms[1..])
  }

  /** The value that a printed value is read back as: every object becomes a sorted map, and the last of several
      members with one key wins. */
  function Normal(j: Json): Json
    decreases j, 0
  {
    match j
    case Arr(items) => Arr(NormalItems(items))
    case Obj(ms) => Obj(InsertAll([], NormalMembers(ms)))
    case _ => j
  }

  function NormalItems(items: seq<Json>): seq<Json>
    decreases items, 1
  {
    if items == [] then [] else [Normal(items[0])] + NormalItems(items[1..])
  }

  function NormalMembers(ms: seq<Member>): seq<Member>
    decreases ms, 1
  {
    if ms == [] then [] else [Member(ms[0].key, Normal(ms[0].value))] + NormalMembers(ms[1..])
  }

  lemma {:induction false} GetAfterInsert(ms: seq<Member>, key: string, value: Json, k: string)
    ensures Get(Insert(ms, key, value), k) == if k == key then Some(value) else Get(ms, k)
  {
    if ms != [] && ms[0].key != key && !Less(key, ms[0].key) {
      GetAfterInsert(ms[1..], key, value, k);
      assert Insert(ms, key, value)[1..] == Insert(ms[1..], key, value);
    } else {
      var r := Insert(ms, key, value);
      assert r[1..] == if ms != [] && ms[0].key == key then ms[1..] else ms;
    }
  }

  lemma {:induction false} InsertAtEnd(ms: seq<Member>, key: string, value: Json)
    requires forall i :: 0 <= i < |ms| ==> Less(ms[i].key, key)
    ensures Insert(ms, key, value) == ms + [Member(key, value)]
  {
    if ms != [] {
      LessIsAsymmetric(ms[0].key, key);
      InsertAtEnd(ms[1..], key, value);
    }
  }

  lemma {:induction false} InsertAllSorted(acc: seq<Member>, ms: seq<Member>)
    requires IsSorted(acc + ms)
    ensures InsertAll(acc, ms) == acc + ms
    decreases |ms|
  {
    if ms != [] {
      forall i | 0 <= i < |acc| ensures Less(acc[i].key, ms[0].key) {
        assert (acc + ms)[i] == acc[i] && (acc + ms)[|acc|] == ms[0];
      }
      InsertAtEnd(acc, ms[0].key, ms[0].value);
      assert (acc + [ms[0]]) + ms[1..] == acc + ms;
      InsertAllSorted(acc + [ms[0]], ms[1..]);
    }
  }

  // --- printing ----------------------------------------------------------------

  function HexDigit(n: nat): char
    requires n < 16
  {
    if n < 10 then '0' + n as char else 'a' + (n - 10) as char
  }

  predicate IsControl(c: char) {
    c < 0x20 as char
  }

  predicate HasNoControl(s: string) {
    forall i :: 0 <= i < |s| ==> !IsControl(s[i])
  }

  /** Section 7, as the serializer writes it: short escapes where they exist, otherwise \u00xx. */
  function EscapeChar(c: char): (s: string)
    ensures s != []
    ensures if s == [c] then c != '"' && c != '\\' && !IsControl(c) else |s| >= 2 && s[0] == '\\'
  {
    if c == '"' then ['\\', '"']
    else if c == '\\' then ['\\', '\\']
    else if c == 8 as char then ['\\', 'b']
    else if c == 12 as char then ['\\', 'f']
    else if c == '\n' then ['\\', 'n']
    else if c == '\r' then ['\\', 'r']
    else if c == '\t' then ['\\', 't']
    else if IsControl(c) then ['\\', 'u', '0', '0', HexDigit(c as int / 16), HexDigit(c as int % 16)]
    else [c]
  }

  function Escape(s: string): string {
    if s == [] then [] else EscapeChar(s[0]) + Escape(s[1..])
  }

  function Quote(s: string): string {
    ['"'] + (Escape(s) + ['"'])
  }

  function Print(j: Json): string
    decreases j, 0
  {
    match j
    case Null => "null"
    case Bool(b) => if b then "true" else "false"
    case Num(t) => t
    case Str(s) => Quote(s)
    case Arr(items) => ['['] + (PrintItems(items) + [']'])
    case Obj(ms) => ['{'] + (PrintMembers(ms) + ['}'])
  }

  function PrintItems(items: seq<Json>): string
    decreases items, 0
  {
    if items == [] then []
    else if |items| == 1 then Print(items[0])
    else Print(items[0]) + ([','] + PrintItems(items[1..]))
  }

  function PrintMember(m: Member): string
    decreases m, 1
  {
    Quote(m.key) + ([':'] + Print(m.value))
  }

  function PrintMembers(ms: seq<Member>): string
    decreases ms, 0
  {
    if ms == [] then []
    else if |ms| == 1 then PrintMember(ms[0])
    else PrintMember(ms[0]) + ([','] + PrintMembers(ms[1..]))
  }

  // --- parsing -----------------------------------------------------------------

  datatype Parsed<+T> = Fail | Got(value: T, rest: string)

  predicate IsJsonSpace(c: char) {
    c == ' ' || c == '\n' || c == '\r' || c == '\t'
  }

  function SkipSpace(s: string): (r: string)
    ensures |r| <= |s|
  {
    if s != [] && IsJsonSpace(s[0]) then SkipSpace(s[1..]) else s
  }

  function HexValue(c: char): Option<nat> {
    if IsDigit(c) then Some(DigitValue(c))
    else if 'a' <= c <= 'f' then Some((c - 'a') as int + 10)
    else if 'A' <= c <= 'F' then Some((c - 'A') as int + 10)
    else None
  }

  function Hex4(s: string): (r: Option<nat>)
    ensures r.Some? ==> |s| >= 4 && r.value < 0x10000
  {
    if |s| < 4 || HexValue(s[0]).None? || HexValue(s[1]).None? || HexValue(s[2]).None? || HexValue(s[3]).None? then None
    else
      var (a, b, c, d) := (HexValue(s[0]).value, HexValue(s[1]).value, HexValue(s[2]).value, HexValue(s[3]).value);
      if a < 16 && b < 16 && c < 16 && d < 16 then Some(a * 4096 + b * 256 + c * 16 + d) else None
  }

  // One escape sequence, after its backslash.
  function ParseEscape(s: string): (r: Parsed<char>)
    ensures r.Got? ==> |r.rest| < |s|
  {
    if s == [] then Fail
    else if s[0] == '"' || s[0] == '\\' || s[0] == '/' then Got(s[0], s[1..])
    else if s[0] == 'b' then Got(8 as char, s[1..])
    else if s[0] == 'f' then Got(12 as char, s[1..])
    else if s[0] == 'n' then Got('\n', s[1..])
    else if s[0] == 'r' then Got('\r', s[1..])
    else if s[0] == 't' then Got('\t', s[1..])
    else if s[0] == 'u' && Hex4(s[1..]).Some? then
      var hi := Hex4(s[1..]).value;
      if hi < 0xD800 || 0xE000 <= hi then Got(hi as char, s[5..])
      else if hi < 0xDC00 && |s| >= 7 && s[5] == '\\' && s[6] == 'u' && Hex4(s[7..]).Some? && 0xDC00 <= Hex4(s[7..]).value < 0xE000 then
        Got((0x10000 + (hi - 0xD800) * 0x400 + (Hex4(s[7..]).value - 0xDC00)) as char, s[11..])
      else Fail
    else Fail
  }

  // The rest of a string, after its opening quote.
  function ParseText(s: string): (r: Parsed<string>)
    ensures r.Got? ==> |r.rest| < |s|
    decreases |s|
  {
    if s == [] || IsControl(s[0]) then Fail
    else if s[0] == '"' then Got([], s[1..])
    else if s[0] == '\\' then
      match ParseEscape(s[1..])
      case Fail => Fail
      case Got(c, rest) => PrependChar(c, ParseText(rest))
    else PrependChar(s[0], ParseText(s[1..]))
  }

  function PrependChar(c: char, p: Parsed<string>): Parsed<string> {
    match p
    case Fail => Fail
    case Got(t, rest) => Got([c] + t, rest)
  }

  function NumberEnd(s: string): (e: nat)
    ensures e <= |s|
  {
    if s != [] && IsNumberChar(s[0]) then 1 + NumberEnd(s[1..]) else 0
  }

  function ParseValue(s: string): (r: Parsed<Json>)
    ensures r.Got? ==> |r.rest| < |s|
    decreases |s|, 0
  {
    if s == [] then Fail
    else if s[0] == '"' then
      match ParseText(s[1..])
      case Fail => Fail
      case Got(t, rest) => Got(Str(t), rest)
    else if s[0] == '[' then
      var t := SkipSpace(s[1..]);
      if t != [] && t[0] == ']' then Got(Arr([]), t[1..])
      else
        match ParseItems(t)
        case Fail => Fail
        case Got(items, rest) => Got(Arr(items), rest)
    else if s[0] == '{' then
      var t := SkipSpace(s[1..]);
      if t != [] && t[0] == '}' then Got(Obj([]), t[1..])
      else
        match ParseMembers(t, [])
        case Fail => Fail
        case Got(ms, rest) => Got(Obj(ms), rest)
    else if "null" <= s then Got(Null, s[4..])
    else if "true" <= s then Got(Bool(true), s[4..])
    else if "false" <= s then Got(Bool(false), s[5..])
    else
      var e := NumberEnd(s);
      if e > 0 && IsNumber(s[..e]) then Got(Num(s[..e]), s[e..]) else Fail
  }

  // One or more values and the closing bracket.
  function ParseItems(s: string): (r: Parsed<seq<Json>>)
    ensures r.Got? ==> |r.rest| < |s|
    decreases |s|, 1
  {
    match ParseValue(s)
    case Fail => Fail
    case Got(v, rest) =>
      var t := SkipSpace(rest);
      if t != [] && t[0] == ']' then Got([v], t[1..])
      else if t != [] && t[0] == ',' then
        match ParseItems(SkipSpace(t[1..]))
        case Fail => Fail
        case Got(vs, rest') => Got([v] + vs, rest')
      else Fail
  }

  // One or more members and the closing brace; each is stored into the map read so far.
  function ParseMembers(s: string, acc: seq<Member>): (r: Parsed<seq<Member>>)
    ensures r.Got? ==> |r.rest| < |s|
    decreases |s|, 1
  {
    if s == [] || s[0] != '"' || ParseText(s[1..]).Fail? then Fail
    else
      var key := ParseText(s[1..]).value;
      var t := SkipSpace(ParseText(s[1..]).rest);
      if t == [] || t[0] != ':' then Fail
      else
        match ParseValue(SkipSpace(t[1..]))
        case Fail => Fail
        case Got(v, rest) =>
          var u := SkipSpace(rest);
          if u != [] && u[0] == '}' then Got(Insert(acc, key, v), u[1..])
          else if u != [] && u[0] == ',' then ParseMembers(SkipSpace(u[1..]), Insert(acc, key, v))
          else Fail
  }

  /** The value a whole text stands for. */
  function Parse(text: string): Option<Json> {
    match ParseValue(SkipSpace(text))
    case Fail => None
    case Got(v, rest) => if SkipSpace(rest) == [] then Some(v) else None
  }
}
