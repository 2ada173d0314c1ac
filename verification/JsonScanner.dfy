/** The light scanner that looks for a line's `idempotency_key` without parsing the line. */
module JsonScanner {
  import opened Wrappers

  const KEY := "idempotency_key"

  predicate IsAsciiSpace(c: char) {
    c == ' ' || c == '\t' || c == '\n' || c == '\r' || c == 12 as char
  }

  predicate IsFill(c: char) {
    IsAsciiSpace(c) || c == ',' || c == ':'
  }

  predicate IsSeparator(c: char) {
    IsAsciiSpace(c) || c == ':'
  }

  predicate EndsScalar(c: char) {
    c == '}' || c == ',' || c == ']' || c == ' ' || c == '\n' || c == '\r' || c == '\t'
  }

  // --- what each loop does to the text that is left -------------------------------

  function SkipFill(s: string): (r: string)
    ensures |r| <= |s|
  {
    if s != [] && IsFill(s[0]) then SkipFill(s[1..]) else s
  }

  function SkipSeparators(s: string): (r: string)
    ensures |r| <= |s|
  {
    if s != [] && IsSeparator(s[0]) then SkipSeparators(s[1..]) else s
  }

  function SkipScalar(s: string): (r: string)
    ensures |r| <= |s|
  {
    if s != [] && !EndsScalar(s[0]) then SkipScalar(s[1..]) else s
  }

  // The key text up to its closing quote, escapes kept as they are written.
  function ReadKey(s: string, acc: string): (r: Option<(string, string)>)
    ensures r.Some? ==> |r.value.1| < |s|
    decreases |s|
  {
    if s == [] then None
    else if s[0] == '"' then Some((acc, s[1..]))
    else if s[0] == '\\' then (if |s| == 1 then None else ReadKey(s[2..], acc + ['\\', s[1]]))
    else ReadKey(s[1..], acc + [s[0]])
  }

  // The value text up to its closing quote, every escape replaced by its second character.
  function ReadValue(s: string, acc: string): (r: Option<(string, string)>)
    ensures r.Some? ==> |r.value.1| < |s|
    decreases |s|
  {
    if s == [] then None
    else if s[0] == '"' then Some((acc, s[1..]))
    else if s[0] == '\\' then (if |s| == 1 then None else ReadValue(s[2..], acc + [s[1]]))
    else ReadValue(s[1..], acc + [s[0]])
  }

  function SkipText(s: string): (r: Option<string>)
    ensures r.Some? ==> |r.value| < |s|
    decreases |s|
  {
    if s == [] then None
    else if s[0] == '"' then Some(s[1..])
    else if s[0] == '\\' then (if |s| == 1 then None else SkipText(s[2..]))
    else SkipText(s[1..])
  }

  // What is left after a container whose opening delimiter has been read, `depth` more being open.
  function SkipContainer(s: string, depth: nat): (r: string)
    ensures |r| <= |s|
    decreases |s|
  {
    if s == [] then []
    else if s[0] == '{' || s[0] == '[' then SkipContainer(s[1..], depth + 1)
    else if s[0] == '}' || s[0] == ']' then (if depth == 0 then s[1..] else SkipContainer(s[1..], depth - 1))
    else if s[0] == '"' then
      match SkipText(s[1..])
      case None => []
      case Some(rest) => SkipContainer(rest, depth)
    else SkipContainer(s[1..], depth)
  }

  function SkipValue(s: string): (r: Option<string>)
    ensures r.Some? ==> |r.value| < |s|
  {
    if s == [] then None
    else if s[0] == '"' then SkipText(s[1..])
    else if s[0] == '{' || s[0] == '[' then Some(SkipContainer(s[1..], 0))
    else if s[0] == 'n' then (if "ull" <= s[1..] then Some(s[4..]) else None)
    else if s[0] == 't' then (if "rue" <= s[1..] then Some(s[4..]) else None)
    else if s[0] == 'f' then (if "alse" <= s[1..] then Some(s[5..]) else None)
    else Some(SkipScalar(s[1..]))
  }

  predicate ValueMatches(s: string, target: string) {
    s != [] && s[0] == '"' && ReadValue(s[1..], []).Some? && ReadValue(s[1..], []).value.0 == target
  }

  predicate ScanFrom(s: string, depth: nat, target: string)
    decreases |s|
  {
    var t := SkipFill(s);
    if t == [] then false
    else if t[0] == '}' || t[0] == ']' then
      !(t[0] == '}' && depth == 0) && ScanFrom(t[1..], if depth == 0 then 0 else depth - 1, target)
    else if t[0] == '{' || t[0] == '[' then ScanFrom(t[1..], depth + 1, target)
    else if t[0] != '"' then false
    else
      match ReadKey(t[1..], [])
      case None => false
      case Some((key, rest)) =>
        var v := SkipSeparators(rest);
        if key == KEY then ValueMatches(v, target)
        else SkipValue(v).Some? && ScanFrom(SkipValue(v).value, depth, target)
  }

  /** What the scanner answers for a line. */
  predicate Scan(line: string, target: string) {
    line != [] && line[0] == '{' && ScanFrom(line[1..], 0, target)
  }

  // --- the scanner -----------------------------------------------------------------

  // A cursor over the characters of a line.
  class Cursor {
    const line: string
    var pos: nat

    constructor (line: string)
      ensures this.line == line && pos == 0
    {
      this.line := line;
      pos := 0;
    }

    predicate Valid()
      reads this
    {
      pos <= |line|
    }

    function Rest(): string
      requires Valid()
      reads this
    {
      line[pos..]
    }

    method Next() returns (c: Option<char>)
      requires Valid()
      modifies this`pos
      ensures Valid()
      ensures old(Rest()) == [] ==> c == None && Rest() == []
      ensures old(Rest()) != [] ==> c == Some(old(Rest())[0]) && Rest() == old(Rest())[1..]
    {
      if pos < |line| {
        c := Some(line[pos]);
        pos := pos + 1;
      } else {
        c := None;
      }
    }

    method Peek() returns (c: Option<char>)
      requires Valid()
      ensures c == if Rest() == [] then None else Some(Rest()[0])
    {
      c := if pos < |line| then Some(line[pos]) else None;
    }
  }

  method SkipFillOf(chars: Cursor) returns (c: Option<char>)
    requires chars.Valid()
    modifies chars`pos
    ensures chars.Valid()
    ensures var t := SkipFill(old(chars.Rest()));
            if t == [] then c == None && chars.Rest() == [] else c == Some(t[0]) && chars.Rest() == t[1..]
  {
    while true
      invariant chars.Valid()
      invariant SkipFill(chars.Rest()) == SkipFill(old(chars.Rest()))
      decreases |chars.Rest()|
    {
      c := chars.Next();
      if c.None? || !IsFill(c.value) {
        return;
      }
    }
  }

  method ReadKeyOf(chars: Cursor) returns (key: Option<string>)
    requires chars.Valid()
    modifies chars`pos
    ensures chars.Valid()
    ensures var r := ReadKey(old(chars.Rest()), []);
            if r.None? then key == None else key == Some(r.value.0) && chars.Rest() == r.value.1
  {
    var text := [];
    while true
      invariant chars.Valid()
      invariant ReadKey(chars.Rest(), text) == ReadKey(old(chars.Rest()), [])
      decreases |chars.Rest()|
    {
      label before:
      var c := chars.Next();
      if c.None? {
        return None;
      } else if c.value == '"' {
        return Some(text);
      } else if c.value == '\\' {
        text := text + ['\\'];
        var esc := chars.Next();
        if esc.Some? {
          assert old@before(chars.Rest())[2..] == chars.Rest();
          assert text + [esc.value] == text[..|text| - 1] + ['\\', esc.value];
          text := text + [esc.value];
        } else {
          assert |old@before(chars.Rest())| == 1;
          return None;
        }
      } else {
        text := text + [c.value];
      }
    }
  }

  method ReadValueOf(chars: Cursor) returns (value: Option<string>)
    requires chars.Valid()
    modifies chars`pos
    ensures chars.Valid()
    ensures var r := ReadValue(old(chars.Rest()), []);
            value == if r.None? then None else Some(r.value.0)
  {
    var text := [];
    while true
      invariant chars.Valid()
      invariant ReadValue(chars.Rest(), text) == ReadValue(old(chars.Rest()), [])
      decreases |chars.Rest()|
    {
      label before:
      var c := chars.Next();
      if c.None? {
        return None;
      } else if c.value == '"' {
        return Some(text);
      } else if c.value == '\\' {
        var esc := chars.Next();
        if esc.Some? {
          assert old@before(chars.Rest())[2..] == chars.Rest();
          text := text + [esc.value];
        } else {
          assert |old@before(chars.Rest())| == 1;
          return None;
        }
      } else {
        text := text + [c.value];
      }
    }
  }

  method SkipTextOf(chars: Cursor) returns (closed: bool)
    requires chars.Valid()
    modifies chars`pos
    ensures chars.Valid()
    ensures var r := SkipText(old(chars.Rest()));
            closed == r.Some? && chars.Rest() == if closed then r.value else []
  {
    while true
      invariant chars.Valid()
      invariant SkipText(chars.Rest()) == SkipText(old(chars.Rest()))
      decreases |chars.Rest()|
    {
      label before:
      var c := chars.Next();
      if c.None? {
        return false;
      } else if c.value == '"' {
        return true;
      } else if c.value == '\\' {
        var esc := chars.Next();
        if esc.Some? {
          assert old@before(chars.Rest())[2..] == chars.Rest();
        } else {
          assert |old@before(chars.Rest())| == 1;
          return false;
        }
      }
    }
  }

  method SkipContainerValue(chars: Cursor)
    requires chars.Valid()
    modifies chars`pos
    ensures chars.Valid() && chars.Rest() == SkipContainer(old(chars.Rest()), 0)
  {
    var depth := 0;
    while true
      invariant chars.Valid()
      invariant depth >= 0 && SkipContainer(chars.Rest(), depth) == SkipContainer(old(chars.Rest()), 0)
      decreases |chars.Rest()|
    {
      var c := chars.Next();
      if c.None? {
        return;
      }
      match c.value {
        case '{' => depth := depth + 1;
        case '[' => depth := depth + 1;
        case '}' =>
          if depth == 0 {
            return;
          }
          depth := depth - 1;
        case ']' =>
          if depth == 0 {
            return;
          }
          depth := depth - 1;
        case '"' =>
          var closed := SkipTextOf(chars);
          if !closed {
            return;
          }
        case _ =>
      }
    }
  }

  method SkipSeparatorsOf(chars: Cursor)
    requires chars.Valid()
    modifies chars`pos
    ensures chars.Valid() && chars.Rest() == SkipSeparators(old(chars.Rest()))
  {
    while true
      invariant chars.Valid()
      invariant SkipSeparators(chars.Rest()) == SkipSeparators(old(chars.Rest()))
      decreases |chars.Rest()|
    {
      var c := chars.Peek();
      if c.None? || !IsSeparator(c.value) {
        return;
      }
      var _ := chars.Next();
    }
  }

  method SkipScalarOf(chars: Cursor)
    requires chars.Valid()
    modifies chars`pos
    ensures chars.Valid() && chars.Rest() == SkipScalar(old(chars.Rest()))
  {
    while true
      invariant chars.Valid()
      invariant SkipScalar(chars.Rest()) == SkipScalar(old(chars.Rest()))
      decreases |chars.Rest()|
    {
      var c := chars.Peek();
      if c.None? || EndsScalar(c.value) {
        return;
      }
      var _ := chars.Next();
    }
  }

  method CharsEq(chars: Cursor, expected: string) returns (equal: bool)
    requires chars.Valid()
    modifies chars`pos
    ensures chars.Valid()
    ensures equal <==> expected <= old(chars.Rest())
    ensures equal ==> chars.Rest() == old(chars.Rest())[|expected|..]
  {
    for i := 0 to |expected|
      invariant chars.Valid()
      invariant expected[..i] <= old(chars.Rest()) && chars.Rest() == old(chars.Rest())[i..]
    {
      var c := chars.Next();
      if c != Some(expected[i]) {
        return false;
      }
      assert old(chars.Rest())[i] == expected[i];
      assert expected[..i + 1] == expected[..i] + [expected[i]];
    }
    assert expected[..|expected|] == expected;
    return true;
  }

  method SkipValueOf(chars: Cursor) returns (ok: bool)
    requires chars.Valid()
    modifies chars`pos
    ensures chars.Valid()
    ensures var r := SkipValue(old(chars.Rest()));
            ok == r.Some? && (ok ==> chars.Rest() == r.value)
  {
    ghost var s := chars.Rest();
    var c := chars.Next();
    if c.None? {
      return false;
    }
    match c.value {
      case '"' => ok := SkipTextOf(chars);
      case '{' => SkipContainerValue(chars); ok := true;
      case '[' => SkipContainerValue(chars); ok := true;
      case 'n' => ok := CharsEq(chars, "ull"); assert ok ==> s[4..] == s[1..][3..];
      case 't' => ok := CharsEq(chars, "rue"); assert ok ==> s[4..] == s[1..][3..];
      case 'f' => ok := CharsEq(chars, "alse"); assert ok ==> s[5..] == s[1..][4..];
      case _ => SkipScalarOf(chars); ok := true;
    }
  }

  // Whether the value at the cursor is a string equal to the target.
  method MatchValueOf(chars: Cursor, target: string) returns (found: bool)
    requires chars.Valid()
    modifies chars`pos
    ensures chars.Valid()
    ensures found <==> ValueMatches(old(chars.Rest()), target)
  {
    var c := chars.Next();
    if c == Some('"') {
      var value := ReadValueOf(chars);
      return value == Some(target);
    }
    return false;
  }

  /** The scanner of one ledger line. */
  method ScanJsonlForIdempotencyKey(line: string, target: string) returns (found: bool)
    ensures found <==> Scan(line, target)
  {
    var chars := new Cursor(line);
    var first := chars.Next();
    if first != Some('{') {
      return false;
    }
    var depth := 0;
    while true
      invariant chars.Valid() && depth >= 0
      invariant Scan(line, target) == ScanFrom(chars.Rest(), depth, target)
      decreases |chars.Rest()|
    {
      var c := SkipFillOf(chars);
      if c.None? {
        return false;
      }
      match c.value {
        case '}' =>
          if depth == 0 {
            return false;
          }
          depth := if depth == 0 then 0 else depth - 1;
          continue;
        case ']' =>
          depth := if depth == 0 then 0 else depth - 1;
          continue;
        case '{' =>
          depth := depth + 1;
          continue;
        case '[' =>
          depth := depth + 1;
          continue;
        case '"' =>
        case _ =>
          return false;
      }
      var key := ReadKeyOf(chars);
      if key.None? {
        return false;
      }
      SkipSeparatorsOf(chars);
      if key.value == KEY {
        found := MatchValueOf(chars, target);
        return;
      }
      var ok := SkipValueOf(chars);
      if !ok {
        return false;
      }
    }
  }
}
