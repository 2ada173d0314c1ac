/** Maintenance of a JSON-lines file: cutting a corrupt tail and compacting superseded snapshots. */
module Jsonl {
  import opened Wrappers
  import opened Strings
  import opened Json

  // --- lines -----------------------------------------------------------------------

  predicate IsWhiteSpace(c: char) {
    '\t' <= c <= '\r' || c == ' ' || c == 0x85 as char || c == 0xA0 as char || c == 0x1680 as char
    || 0x2000 as char <= c <= 0x200A as char || c == 0x2028 as char || c == 0x2029 as char
    || c == 0x202F as char || c == 0x205F as char || c == 0x3000 as char
  }

  function TrimStart(s: string): string {
    if s != [] && IsWhiteSpace(s[0]) then TrimStart(s[1..]) else s
  }

  function TrimEnd(s: string): string {
    if s != [] && IsWhiteSpace(s[|s| - 1]) then TrimEnd(s[..|s| - 1]) else s
  }

  function Trim(s: string): string {
    TrimEnd(TrimStart(s))
  }

  // The end of the line that starts at `i`, its newline included.
  function LineEnd(s: string, i: nat): (e: nat)
    requires i < |s|
    ensures i < e <= |s|
    decreases |s| - i
  {
    if s[i] == '\n' || i + 1 == |s| then i + 1 else LineEnd(s, i + 1)
  }

  // The lines of a text, each with the newline that ends it.
  function LinesFrom(s: string, i: nat): seq<string>
    requires i <= |s|
    decreases |s| - i
  {
    if i == |s| then [] else [s[i..LineEnd(s, i)]] + LinesFrom(s, LineEnd(s, i))
  }

  function Lines(s: string): seq<string> {
    LinesFrom(s, 0)
  }

  predicate IsValidLine(line: string) {
    Trim(line) != [] && Parse(Trim(line)).Some?
  }

  // The end of the last valid line at or after position `i`.
  function LastValidEnd(s: string, i: nat): (e: Option<nat>)
    requires i <= |s|
    ensures e.Some? ==> i < e.value <= |s|
    decreases |s| - i
  {
    if i == |s| then None else
      var e := LineEnd(s, i);
      var later := LastValidEnd(s, e);
      if later.Some? then later else if IsValidLine(s[i..e]) then Some(e) else None
  }

  /** The text without its corrupt tail. */
  function Repaired(s: string): string {
    match LastValidEnd(s, 0)
    case None => []
    case Some(e) => s[..e]
  }

  // --- the values of the lines -------------------------------------------------------

  // The objects among the valid lines, in order.
  function Objects(lines: seq<string>): seq<seq<Member>> {
    if lines == [] then [] else
      var front, line := Objects(lines[..|lines| - 1]), lines[|lines| - 1];
      if IsValidLine(line) && Parse(Trim(line)).value.Obj? then front + [Parse(Trim(line)).value.members] else front
  }

  // The other valid lines, trimmed, in order.
  function Others(lines: seq<string>): seq<string> {
    if lines == [] then [] else
      var front, line := Others(lines[..|lines| - 1]), lines[|lines| - 1];
      if IsValidLine(line) && !Parse(Trim(line)).value.Obj? then front + [Trim(line)] else front
  }

  // --- compaction ----------------------------------------------------------------------

  const SNAPSHOT_TYPES: set<string> := {"goal_state", "rfv_loop_state", "quality_gate_state", "evidence"}

  function SnapshotType(ms: seq<Member>): Option<string> {
    match Get(ms, "tx_type")
    case Some(Str(t)) => if t in SNAPSHOT_TYPES then Some(t) else None
    case _ => None
  }

  predicate HasSnapshot(objects: seq<seq<Member>>) {
    exists i :: 0 <= i < |objects| && SnapshotType(objects[i]).Some?
  }

  // A later object has the same snapshot type.
  predicate IsSuperseded(objects: seq<seq<Member>>, i: nat)
    requires i < |objects|
  {
    SnapshotType(objects[i]).Some? &&
    exists j :: i < j < |objects| && SnapshotType(objects[j]) == SnapshotType(objects[i])
  }

  function Survivors(objects: seq<seq<Member>>, n: nat): (r: seq<seq<Member>>)
    requires n <= |objects|
    ensures |r| <= n
  {
    if n == 0 then [] else
      Survivors(objects, n - 1) + (if IsSuperseded(objects, n - 1) then [] else [objects[n - 1]])
  }

  function WithSeq(ms: seq<Member>, n: nat): seq<Member> {
    Insert(ms, "seq", Num(Decimal(n)))
  }

  function Renumbered(objects: seq<seq<Member>>): (r: seq<seq<Member>>)
    ensures |r| == |objects| && forall i :: 0 <= i < |objects| ==> r[i] == WithSeq(objects[i], i)
  {
    seq(|objects|, i requires 0 <= i < |objects| => WithSeq(objects[i], i))
  }

  function PrintLines(objects: seq<seq<Member>>): string {
    if objects == [] then [] else
      PrintLines(objects[..|objects| - 1]) + (Print(Obj(objects[|objects| - 1])) + ['\n'])
  }

  function JoinLines(lines: seq<string>): string {
    if lines == [] then [] else JoinLines(lines[..|lines| - 1]) + (lines[|lines| - 1] + ['\n'])
  }

  /** What compaction makes of a text, or nothing when there is nothing to do. */
  function Compacted(s: string, maxLines: nat): Option<string> {
    var objects, others := Objects(Lines(s)), Others(Lines(s));
    var kept := Survivors(objects, |objects|);
    if |objects| + |others| <= maxLines || !HasSnapshot(objects) || |kept| >= |objects| then None
    else Some(PrintLines(Renumbered(kept)) + JoinLines(others))
  }

  function AfterCompaction(s: string, maxLines: nat): string {
    if Compacted(s, maxLines).Some? then Compacted(s, maxLines).value else s
  }

  // --- the code --------------------------------------------------------------------------

  class File {
    var content: Option<string>

    constructor (content: Option<string>)
      ensures this.content == content
    {
      this.content := content;
    }
  }

  method SplitLines(s: string) returns (lines: seq<string>)
    ensures lines == Lines(s)
  {
    lines := [];
    var i := 0;
    while i < |s|
      invariant 0 <= i <= |s| && lines + LinesFrom(s, i) == Lines(s)
    {
      var e := i + 1;
      while e < |s| && s[e - 1] != '\n'
        invariant i < e <= |s|
        invariant LineEnd(s, i) == LineEnd(s, e - 1)
      {
        e := e + 1;
      }
      assert LineEnd(s, e - 1) == e;
      assert LinesFrom(s, i) == [s[i..e]] + LinesFrom(s, e);
      assert (lines + [s[i..e]]) + LinesFrom(s, e) == lines + LinesFrom(s, i);
      lines, i := lines + [s[i..e]], e;
    }
    assert lines + [] == lines;
  }

  ghost predicate IsLineRange(s: string, ranges: seq<(nat, nat)>, k: nat)
    requires k < |ranges|
  {
    && ranges[k].0 < ranges[k].1 <= |s|
    && LineEnd(s, ranges[k].0) == ranges[k].1
    && ranges[k].0 == if k == 0 then 0 else ranges[k - 1].1
  }

  ghost predicate AreLineRanges(s: string, ranges: seq<(nat, nat)>) {
    forall k :: 0 <= k < |ranges| ==> IsLineRange(s, ranges, k)
  }

  function RangesEnd(ranges: seq<(nat, nat)>): nat {
    if ranges == [] then 0 else ranges[|ranges| - 1].1
  }

  lemma OneMoreRange(s: string, ranges: seq<(nat, nat)>, from: nat, to: nat)
    requires AreLineRanges(s, ranges) && from == RangesEnd(ranges) && from < to <= |s| && LineEnd(s, from) == to
    ensures AreLineRanges(s, ranges + [(from, to)])
  {
    var more := ranges + [(from, to)];
    forall k | 0 <= k < |more| ensures IsLineRange(s, more, k) {
      if k < |ranges| {
        assert IsLineRange(s, ranges, k);
      }
    }
  }

  method CollectLineRanges(s: string) returns (ranges: seq<(nat, nat)>)
    ensures AreLineRanges(s, ranges) && RangesEnd(ranges) == |s|
  {
    ranges := [];
    var start := 0;
    for idx := 0 to |s|
      invariant AreLineRanges(s, ranges) && start == RangesEnd(ranges) <= idx
      invariant start < idx ==> LineEnd(s, start) == LineEnd(s, idx - 1) && s[idx - 1] != '\n'
    {
      if s[idx] == '\n' {
        OneMoreRange(s, ranges, start, idx + 1);
        ranges := ranges + [(start, idx + 1)];
        start := idx + 1;
      }
    }
    if start < |s| {
      OneMoreRange(s, ranges, start, |s|);
      ranges := ranges + [(start, |s|)];
    }
  }

  /** Collects the line ranges, then walks them from the end. */
  method FindLastValidLineEnd(s: string) returns (end: Option<nat>)
    ensures end == LastValidEnd(s, 0)
  {
    var ranges := CollectLineRanges(s);
    assert ranges[..|ranges|] == ranges;
    var k := |ranges|;
    while k > 0
      invariant 0 <= k <= |ranges|
      invariant RangesEnd(ranges[..k]) <= |s| && LastValidEnd(s, RangesEnd(ranges[..k])) == None
    {
      k := k - 1;
      var (ls, le) := ranges[k];
      assert IsLineRange(s, ranges, k);
      assert RangesEnd(ranges[..k + 1]) == le && RangesEnd(ranges[..k]) == ls;
      var trimmed := Trim(s[ls..le]);
      if trimmed != [] && Parse(trimmed).Some? {
        LastValidFromStart(s, ranges, k, Some(le));
        return Some(le);
      }
    }
    return None;
  }

  lemma {:induction false} LastValidFromStart(s: string, ranges: seq<(nat, nat)>, k: nat, end: Option<nat>)
    requires AreLineRanges(s, ranges) && k < |ranges| && ranges[k].0 <= |s|
    requires LastValidEnd(s, ranges[k].0) == end && end.Some?
    ensures LastValidEnd(s, 0) == end
  {
    hide IsValidLine;
    assert IsLineRange(s, ranges, k);
    if k > 0 {
      assert IsLineRange(s, ranges, k - 1);
      LastValidFromStart(s, ranges, k - 1, end);
    }
  }

  method TruncateCorruptTail(file: File) returns (truncated: bool)
    modifies file
    ensures old(file.content) == None ==> !truncated && file.content == None
    ensures old(file.content).Some? ==>
              file.content == Some(Repaired(old(file.content).value))
              && truncated == (Repaired(old(file.content).value) != old(file.content).value)
  {
    if file.content.None? {
      return false;
    }
    var content := file.content.value;
    if content == [] {
      return false;
    }
    var end := FindLastValidLineEnd(content);
    match end {
      case None =>
        file.content := Some([]);
        return true;
      case Some(e) =>
        if e < |content| {
          file.content := Some(content[..e]);
          return true;
        }
        assert content[..e] == content;
        return false;
    }
  }

  method CollectLines(s: string) returns (objects: seq<seq<Member>>, others: seq<string>)
    ensures objects == Objects(Lines(s)) && others == Others(Lines(s))
  {
    hide Lines, Trim, Parse;
    var lines := SplitLines(s);
    objects, others := [], [];
    for i := 0 to |lines|
      invariant objects == Objects(lines[..i]) && others == Others(lines[..i])
    {
      assert lines[..i + 1][..i] == lines[..i];
      var trimmed := Trim(lines[i]);
      if trimmed != [] {
        match Parse(trimmed)
        case None =>
        case Some(v) =>
          if v.Obj? {
            objects := objects + [v.members];
          } else {
            others := others + [trimmed];
          }
      }
    }
    assert lines[..|lines|] == lines;
  }

  // `last` holds the last place of each snapshot type among the first n objects.
  ghost predicate IsLastPlaces(objects: seq<seq<Member>>, last: map<string, nat>, n: nat) {
    && n <= |objects|
    && (forall t :: t in last ==> last[t] < n && SnapshotType(objects[last[t]]) == Some(t))
    && (forall j :: 0 <= j < n && SnapshotType(objects[j]).Some? ==>
          SnapshotType(objects[j]).value in last && j <= last[SnapshotType(objects[j]).value])
  }

  lemma LastPlacesDecide(objects: seq<seq<Member>>, last: map<string, nat>, i: nat)
    requires IsLastPlaces(objects, last, |objects|) && i < |objects|
    ensures IsSuperseded(objects, i) <==>
              SnapshotType(objects[i]).Some? && SnapshotType(objects[i]).value in last && last[SnapshotType(objects[i]).value] != i
    ensures SnapshotType(objects[i]).Some? ==> SnapshotType(objects[i]).value in last
  {
    hide SnapshotType;
  }

  lemma NoPlaces(objects: seq<seq<Member>>, last: map<string, nat>)
    requires IsLastPlaces(objects, last, |objects|)
    ensures last == map[] <==> !HasSnapshot(objects)
  {
    hide SnapshotType;
    if t :| t in last {
      assert SnapshotType(objects[last[t]]).Some?;
    }
  }

  method LastSnapshots(objects: seq<seq<Member>>) returns (last: map<string, nat>)
    ensures IsLastPlaces(objects, last, |objects|)
  {
    hide SnapshotType;
    last := map[];
    for i := 0 to |objects|
      invariant IsLastPlaces(objects, last, i)
    {
      var t := SnapshotType(objects[i]);
      if t.Some? {
        last := last[t.value := i];
      }
    }
  }

  method CompactJsonlCore(s: string, maxLines: nat) returns (compacted: Option<string>)
    ensures compacted == Compacted(s, maxLines)
  {
    hide IsLastPlaces, SnapshotType, IsSuperseded, HasSnapshot, Print, Insert, Decimal;
    var objects, others := CollectLines(s);
    if |objects| + |others| <= maxLines {
      return None;
    }
    var last := LastSnapshots(objects);
    NoPlaces(objects, last);
    if last == map[] {
      return None;
    }
    var text := "";
    ghost var kept := [];
    var count := 0;
    for i := 0 to |objects|
      invariant kept == Survivors(objects, i) && count == |kept|
      invariant text == PrintLines(Renumbered(kept))
    {
      LastPlacesDecide(objects, last, i);
      var t := SnapshotType(objects[i]);
      if t.Some? && last[t.value] != i {
        continue;
      }
      var line := Print(Obj(Insert(objects[i], "seq", Num(Decimal(count)))));
      PrintOneMore(kept, objects[i]);
      kept := kept + [objects[i]];
      text := text + (line + ['\n']);
      count := count + 1;
    }
    if count >= |objects| {
      return None;
    }
    for i := 0 to |others|
      invariant text == PrintLines(Renumbered(kept)) + JoinLines(others[..i])
    {
      assert others[..i + 1][..i] == others[..i];
      ConcatIsAssociative(PrintLines(Renumbered(kept)), JoinLines(others[..i]), others[i] + ['\n']);
      text := text + (others[i] + ['\n']);
    }
    assert others[..|others|] == others;
    return Some(text);
  }

  lemma PrintOneMore(kept: seq<seq<Member>>, o: seq<Member>)
    ensures PrintLines(Renumbered(kept + [o])) == PrintLines(Renumbered(kept)) + (Print(Obj(WithSeq(o, |kept|))) + ['\n'])
  {
    var r := Renumbered(kept + [o]);
    assert r[..|kept|] == Renumbered(kept);
  }

  /** Compacts the given text into the file, whatever the file holds at that moment. */
  method CompactJsonlWithContent(file: File, content: string, maxLines: nat) returns (compacted: bool)
    modifies file
    ensures compacted == (content != [] && Compacted(content, maxLines).Some?)
    ensures file.content == if compacted then Some(Compacted(content, maxLines).value) else old(file.content)
  {
    if content == [] {
      return false;
    }
    var result := CompactJsonlCore(content, maxLines);
    match result {
      case None => return false;
      case Some(text) =>
        file.content := Some(text);
        return true;
    }
  }

  method CompactJsonlIfNeeded(file: File, maxLines: nat) returns (compacted: bool)
    modifies file
    ensures old(file.content) == None ==> !compacted && file.content == None
    ensures old(file.content).Some? ==>
              file.content == Some(AfterCompaction(old(file.content).value, maxLines))
              && compacted == Compacted(old(file.content).value, maxLines).Some?
  {
    if file.content.None? {
      return false;
    }
    compacted := CompactJsonlWithContent(file, file.content.value, maxLines);
  }

  /** Both maintenance steps with one read and one write. The file and the answer are those of
      `TruncateCorruptTail` followed by `CompactJsonlIfNeeded`. */
  method TruncateAndCompact(file: File, maxLines: nat) returns (changed: bool)
    modifies file
    ensures old(file.content) == None ==> !changed && file.content == None
    ensures old(file.content).Some? ==>
              var c := old(file.content).value;
              file.content == Some(AfterCompaction(Repaired(c), maxLines))
              && changed == (Repaired(c) != c || Compacted(Repaired(c), maxLines).Some?)
  {
    if file.content.None? {
      return false;
    }
    var content := file.content.value;
    if content == [] {
      return false;
    }
    var end := FindLastValidLineEnd(content);
    var wasTruncated := end.None? || end.value < |content|;
    var clean := if end.Some? && end.value < |content| then content[..end.value] else if end.Some? then content else [];
    assert clean == Repaired(content);
    var compacted := CompactJsonlCore(clean, maxLines);
    var output;
    if compacted.Some? {
      output := compacted.value;
    } else if wasTruncated {
      output := clean;
    } else {
      return false;
    }
    file.content := Some(output);
    return true;
  }

  method MaintainInTwoPasses(file: File, maxLines: nat) returns (changed: bool)
    modifies file
    ensures old(file.content).Some? ==>
              var c := old(file.content).value;
              file.content == Some(AfterCompaction(Repaired(c), maxLines))
              && changed == (Repaired(c) != c || Compacted(Repaired(c), maxLines).Some?)
  {
    var truncated := TruncateCorruptTail(file);
    var compacted := CompactJsonlIfNeeded(file, maxLines);
    changed := truncated || compacted;
  }
}
