/** The lock around the ledger: any number of processes appending to one file, their steps interleaved. */
module LedgerLock {
  import opened Wrappers
  import opened Jsonl
  import opened TaskLedger

  // --- waiting for the lock ------------------------------------------------------------

  datatype Try = Got | WouldBlock | Broken

  datatype LockError = TimedOut | Fatal

  const FIRST_DELAY: nat := 10
  const MAX_DELAY: nat := 200

  // The pause after the k-th failed try, in milliseconds.
  function Delay(k: nat): (d: nat)
    ensures FIRST_DELAY <= d <= MAX_DELAY
  {
    if k == 0 then FIRST_DELAY else if 2 * Delay(k - 1) < MAX_DELAY then 2 * Delay(k - 1) else MAX_DELAY
  }

  function Slept(k: nat): nat {
    if k == 0 then 0 else Slept(k - 1) + Delay(k - 1)
  }

  // Sleeping lasts at least as long as asked.
  ghost predicate IsClock(elapsed: nat -> nat) {
    forall k: nat :: elapsed(k + 1) >= elapsed(k) + Delay(k)
  }

  // Try number n is the first that does not leave the caller waiting.
  ghost predicate EndsAt(tries: nat -> Try, elapsed: nat -> nat, timeout: nat, n: nat) {
    && (tries(n) == WouldBlock ==> elapsed(n) > timeout)
    && forall k: nat :: k < n ==> tries(k) == WouldBlock && elapsed(k) <= timeout
  }

  /** The lock is taken at the first try that does not block; the caller gives up only at a try that blocks
      after the timeout has passed. */
  method AcquireTaskLedgerRepoLock(tries: nat -> Try, elapsed: nat -> nat, timeout: nat) returns (r: Result<nat, LockError>, ghost n: nat)
    requires IsClock(elapsed)
    ensures EndsAt(tries, elapsed, timeout, n)
    ensures r == match tries(n) case Got => Ok(n) case WouldBlock => Err(TimedOut) case Broken => Err(Fatal)
  {
    var attempt, delay := 0, FIRST_DELAY;
    while true
      invariant attempt >= 0 && delay == Delay(attempt)
      invariant forall k: nat :: k < attempt ==> tries(k) == WouldBlock && elapsed(k) <= timeout
      decreases timeout + 1 - elapsed(attempt)
    {
      n := attempt;
      match tries(attempt) {
        case Got => return Ok(attempt), n;
        case Broken => return Err(Fatal), n;
        case WouldBlock =>
          if elapsed(attempt) > timeout {
            return Err(TimedOut), n;
          }
          attempt := attempt + 1;
          delay := if 2 * delay < MAX_DELAY then 2 * delay else MAX_DELAY;
      }
    }
  }

  lemma {:induction false} ClockRunsAhead(elapsed: nat -> nat, k: nat)
    requires IsClock(elapsed)
    ensures elapsed(k) >= Slept(k)
  {
    if k > 0 {
      ClockRunsAhead(elapsed, k - 1);
      assert elapsed((k - 1) + 1) >= elapsed(k - 1) + Delay(k - 1);
    }
  }

  /** With the half second that an append waits, at most seven tries are made. */
  lemma AppendTriesAtMostSevenTimes(tries: nat -> Try, elapsed: nat -> nat, n: nat)
    requires IsClock(elapsed) && EndsAt(tries, elapsed, 500, n)
    ensures n <= 6
  {
    ClockRunsAhead(elapsed, 6);
    assert Slept(2) == 30 && Delay(2) == 40;
    assert Slept(4) == 150 && Delay(4) == 160;
    assert Slept(6) == 510;
  }

  /** And that many are made when the lock is never free and no pause lasts longer than asked: after 0, 10, 30, 70, 150,
      310 and 510 milliseconds. */
  lemma SevenTriesAreMade(tries: nat -> Try, elapsed: nat -> nat, n: nat)
    requires elapsed(0) == 0 && forall k: nat :: elapsed(k + 1) == elapsed(k) + Delay(k)
    requires (forall k: nat :: tries(k) == WouldBlock) && EndsAt(tries, elapsed, 500, n)
    ensures n == 6 && elapsed(1) == 10 && elapsed(2) == 30 && elapsed(3) == 70 && elapsed(4) == 150 && elapsed(5) == 310 && elapsed(6) == 510
  {
    assert elapsed(0 + 1) == 10;
    assert elapsed(1 + 1) == 30 && Delay(2) == 40;
    assert elapsed(2 + 1) == 70;
    assert elapsed(3 + 1) == 150 && Delay(4) == 160;
    assert elapsed(4 + 1) == 310 && Delay(5) == 200;
    assert elapsed(5 + 1) == 510;
    AppendTriesAtMostSevenTimes(tries, elapsed, n);
  }

  // --- the processes ---------------------------------------------------------------------

  datatype Request = Request(tx: Tx, physical: Physical, now: string)

  /** Where a process is in its append, with what it remembers. */
  datatype Phase =
    | Waiting
    | GaveUp
    | Locked
    | Creating
    | Loaded(content: string)
    | Rereading
    | Checking(content: string)
    | Writing(content: string, count: nat)
    | Written(content: string, count: nat)
    | Checkpointing(content: string, count: nat, existing: string)
    | Compacting(content: string)
    | Patching
    | PatchWriting(existing: string)
    | Unlocking
    | Done

  predicate IsInside(ph: Phase) {
    !ph.Waiting? && !ph.GaveUp? && !ph.Done?
  }

  /** One step between taking the lock and letting it go: a read of the file, a write to it, or neither. */
  function Advance(h: Hasher, r: Request, ph: Phase, file: Option<string>): (Phase, Option<string>)
    requires IsInside(ph) && !ph.Unlocking?
  {
    match ph
    case Locked => (if file.Some? then Loaded(file.value) else Creating, file)
    case Creating => (Unlocking, Some(AfterAppend(h, None, r.tx, r.physical, r.now)))
    case Loaded(c) =>
      if file.None? then (Checking(c), file)
      else (if Repaired(file.value) == file.value then Checking(c) else Rereading, Some(Repaired(file.value)))
    case Rereading => (if file.Some? then Checking(file.value) else Unlocking, file)
    case Checking(c) => (if IsDuplicate(c, r.tx) then Unlocking else Writing(Appended(h, c, r.tx), CountRows(Lines(c))), file)
    case Writing(text, n) => (Written(text, n), Some(text))
    case Written(text, n) =>
      (if NeedsCheckpoint(n) then Checkpointing(text, n, if file.Some? then file.value else []) else Compacting(text), file)
    case Checkpointing(text, n, existing) => (Compacting(text), Some(WithCheckpoint(h, existing, r.physical, r.now, n)))
    case Compacting(text) =>
      if Compacted(text, MAX_LINES).Some? then (Patching, Compacted(text, MAX_LINES)) else (Unlocking, file)
    case Patching => (if file.Some? then PatchWriting(file.value) else Unlocking, file)
    case PatchWriting(existing) => (Unlocking, if Patched(h, existing) == existing then file else Some(Patched(h, existing)))
  }

  /** The file, the holder of the lock, every process, and the order in which they entered. */
  datatype System = System(file: Option<string>, holder: Option<nat>, phases: seq<Phase>, order: seq<nat>)

  // One step of process i; with the lock switched off everybody enters at once.
  ghost predicate IsMove(h: Hasher, flock: bool, requests: seq<Request>, s: System, i: nat, t: System)
    requires |s.phases| == |requests|
  {
    i < |requests| &&
    match s.phases[i]
    case Waiting =>
      || ((flock ==> s.holder.None?)
          && t == System(s.file, if flock then Some(i) else None, s.phases[i := Locked], s.order + [i]))
      || (flock && s.holder.Some? && t == s.(phases := s.phases[i := GaveUp]))
    case GaveUp => false
    case Done => false
    case Unlocking => t == s.(holder := None, phases := s.phases[i := Done])
    case _ =>
      var (ph, file) := Advance(h, requests[i], s.phases[i], s.file);
      t == s.(file := file, phases := s.phases[i := ph])
  }

  ghost predicate IsStart(requests: seq<Request>, s: System) {
    s.holder.None? && s.order == [] && |s.phases| == |requests| && forall i :: 0 <= i < |s.phases| ==> s.phases[i] == Waiting
  }

  ghost predicate IsRun(h: Hasher, flock: bool, requests: seq<Request>, states: seq<System>, who: seq<nat>) {
    && |states| == |who| + 1
    && IsStart(requests, states[0])
    && (forall n :: 0 <= n < |states| ==> |states[n].phases| == |requests|)
    && forall n :: 0 <= n < |who| ==> IsMove(h, flock, requests, states[n], who[n], states[n + 1])
  }

  /** The appends one after the other. */
  function InTurn(h: Hasher, initial: Option<string>, requests: seq<Request>, order: seq<nat>): Option<string>
    requires forall k :: 0 <= k < |order| ==> order[k] < |requests|
  {
    if order == [] then initial else
      var r := requests[order[|order| - 1]];
      Some(AfterAppend(h, InTurn(h, initial, requests, order[..|order| - 1]), r.tx, r.physical, r.now))
  }

  // --- what every interleaving keeps -----------------------------------------------------------

  // What a process inside knows: `before` is the file as it was when the process entered.
  ghost predicate IsAt(h: Hasher, before: Option<string>, r: Request, ph: Phase, file: Option<string>) {
    match ph
    case Locked => file == before
    case Creating => file == before == None
    case Loaded(c) => file == before == Some(c)
    case Rereading => before.Some? && file == Some(Repaired(before.value))
    case Checking(c) => before.Some? && c == Repaired(before.value) && file == Some(c)
    case Writing(text, n) => IsNew(h, before, r, text, n) && file == Some(Repaired(before.value))
    case Written(text, n) => IsNew(h, before, r, text, n) && file == Some(text)
    case Checkpointing(text, n, existing) => IsNew(h, before, r, text, n) && NeedsCheckpoint(n) && existing == text && file == Some(text)
    case Compacting(text) =>
      exists n :: IsNew(h, before, r, text, n)
                  && file == Some(if NeedsCheckpoint(n) then WithCheckpoint(h, text, r.physical, r.now, n) else text)
    case Patching => HasCompacted(h, before, r, file)
    case PatchWriting(existing) => HasCompacted(h, before, r, file) && file == Some(existing)
    case Unlocking => file == Some(AfterAppend(h, before, r.tx, r.physical, r.now))
    case _ => false
  }

  ghost predicate IsNew(h: Hasher, before: Option<string>, r: Request, text: string, n: nat) {
    && before.Some?
    && !IsDuplicate(Repaired(before.value), r.tx)
    && text == Appended(h, Repaired(before.value), r.tx)
    && n == CountRows(Lines(Repaired(before.value)))
  }

  ghost predicate HasCompacted(h: Hasher, before: Option<string>, r: Request, file: Option<string>) {
    && file.Some? && before.Some?
    && !IsDuplicate(Repaired(before.value), r.tx)
    && Compacted(Appended(h, Repaired(before.value), r.tx), MAX_LINES) == file
    && AfterAppend(h, before, r.tx, r.physical, r.now) == Patched(h, file.value)
  }

  lemma AdvanceKeeps(h: Hasher, before: Option<string>, r: Request, ph: Phase, file: Option<string>)
    requires IsInside(ph) && !ph.Unlocking? && IsAt(h, before, r, ph, file)
    ensures var (ph', file') := Advance(h, r, ph, file); IsAt(h, before, r, ph', file')
  {
    hide Repaired, IsDuplicate, Appended, CountRows, Lines, WithCheckpoint, Compacted, Patched, PrintTx, Chained,
         NeedsCheckpoint;
    if ph.Checkpointing? {
      assert IsNew(h, before, r, ph.content, ph.count);
    } else if ph.Compacting? {
      var n :| IsNew(h, before, r, ph.content, n)
               && file == Some(if NeedsCheckpoint(n) then WithCheckpoint(h, ph.content, r.physical, r.now, n) else ph.content);
    }
  }

  ghost predicate EachEnteredOnce(s: System) {
    && (forall k :: 0 <= k < |s.order| ==> s.order[k] < |s.phases|)
    && (forall j, k :: 0 <= j < k < |s.order| ==> s.order[j] != s.order[k])
    && (forall i :: 0 <= i < |s.phases| ==> (i in s.order <==> IsInside(s.phases[i]) || s.phases[i].Done?))
  }

  // Only the holder of the lock is inside, it entered last, and the appends before it are all in the file.
  ghost predicate IsSafe(h: Hasher, initial: Option<string>, requests: seq<Request>, s: System) {
    && |s.phases| == |requests|
    && EachEnteredOnce(s)
    && (forall i :: 0 <= i < |s.phases| ==> (IsInside(s.phases[i]) <==> s.holder == Some(i)))
    && match s.holder
       case None => s.file == InTurn(h, initial, requests, s.order)
       case Some(i) =>
         && i < |requests| && s.order != [] && s.order[|s.order| - 1] == i
         && IsAt(h, InTurn(h, initial, requests, s.order[..|s.order| - 1]), requests[i], s.phases[i], s.file)
  }

  lemma StayingKeeps(s: System, i: nat, ph: Phase, t: System)
    requires EachEnteredOnce(s) && i < |s.phases| && i in s.order && (IsInside(ph) || ph.Done?)
    requires t.order == s.order && t.phases == s.phases[i := ph]
    ensures EachEnteredOnce(t)
  {
  }

  lemma EnteringKeeps(s: System, i: nat, t: System)
    requires EachEnteredOnce(s) && i < |s.phases| && s.phases[i].Waiting?
    requires t.phases == s.phases[i := Locked] && t.order == s.order + [i]
    ensures EachEnteredOnce(t)
  {
  }

  lemma EnteringIsSafe(h: Hasher, initial: Option<string>, requests: seq<Request>, s: System, i: nat, t: System)
    requires IsSafe(h, initial, requests, s) && i < |requests| && s.phases[i].Waiting? && s.holder.None?
    requires t == System(s.file, Some(i), s.phases[i := Locked], s.order + [i])
    ensures IsSafe(h, initial, requests, t)
  {
    hide EachEnteredOnce, InTurn;
    EnteringKeeps(s, i, t);
    assert t.order[..|t.order| - 1] == s.order;
  }

  lemma LeavingIsSafe(h: Hasher, initial: Option<string>, requests: seq<Request>, s: System, i: nat, t: System)
    requires IsSafe(h, initial, requests, s) && i < |requests| && s.phases[i].Unlocking?
    requires t == s.(holder := None, phases := s.phases[i := Done])
    ensures IsSafe(h, initial, requests, t)
  {
    hide EachEnteredOnce, AfterAppend;
    StayingKeeps(s, i, Done, t);
  }

  lemma AdvancingIsSafe(h: Hasher, initial: Option<string>, requests: seq<Request>, s: System, i: nat, t: System)
    requires IsSafe(h, initial, requests, s) && i < |requests| && IsInside(s.phases[i]) && !s.phases[i].Unlocking?
    requires var (ph, file) := Advance(h, requests[i], s.phases[i], s.file); t == s.(file := file, phases := s.phases[i := ph])
    ensures IsSafe(h, initial, requests, t)
  {
    AdvanceKeeps(h, InTurn(h, initial, requests, s.order[..|s.order| - 1]), requests[i], s.phases[i], s.file);
    StayingKeeps(s, i, Advance(h, requests[i], s.phases[i], s.file).0, t);
  }

  /** One step of any process keeps the invariant. */
  lemma StepIsSafe(h: Hasher, initial: Option<string>, requests: seq<Request>, s: System, i: nat, t: System)
    requires IsSafe(h, initial, requests, s) && IsMove(h, true, requests, s, i, t)
    ensures IsSafe(h, initial, requests, t)
  {
    var ph := s.phases[i];
    if ph.Waiting? {
      if s.holder.None? {
        EnteringIsSafe(h, initial, requests, s, i, t);
      }
    } else if ph.Unlocking? {
      LeavingIsSafe(h, initial, requests, s, i, t);
    } else {
      AdvancingIsSafe(h, initial, requests, s, i, t);
    }
  }

  lemma StartIsSafe(h: Hasher, requests: seq<Request>, s: System)
    requires IsStart(requests, s)
    ensures IsSafe(h, s.file, requests, s)
  {
  }

  lemma {:induction false} StateIsSafe(h: Hasher, requests: seq<Request>, states: seq<System>, who: seq<nat>, n: nat)
    requires IsRun(h, true, requests, states, who) && n < |states|
    ensures IsSafe(h, states[0].file, requests, states[n])
  {
    hide IsSafe, IsMove;
    if n == 0 {
      StartIsSafe(h, requests, states[0]);
    } else {
      StateIsSafe(h, requests, states, who, n - 1);
      assert IsMove(h, true, requests, states[n - 1], who[n - 1], states[n]);
      StepIsSafe(h, states[0].file, requests, states[n - 1], who[n - 1], states[n]);
    }
  }

  /** In every state of every interleaving at most one process is inside. */
  lemma MutualExclusion(h: Hasher, requests: seq<Request>, states: seq<System>, who: seq<nat>, n: nat, i: nat, j: nat)
    requires IsRun(h, true, requests, states, who) && n < |states| && i < |requests| && j < |requests|
    requires IsInside(states[n].phases[i]) && IsInside(states[n].phases[j])
    ensures i == j
  {
    hide IsMove, IsAt, EachEnteredOnce;
    StateIsSafe(h, requests, states, who, n);
  }

  /** No update is lost: whenever nobody is inside, the file is what the finished appends leave when they are
      made one after the other, each once, in the order in which they took the lock. */
  lemma NoUpdateIsLost(h: Hasher, requests: seq<Request>, states: seq<System>, who: seq<nat>, n: nat)
    requires IsRun(h, true, requests, states, who) && n < |states|
    requires forall i :: 0 <= i < |requests| ==> !IsInside(states[n].phases[i])
    ensures var s := states[n];
            && EachEnteredOnce(s)
            && s.file == InTurn(h, states[0].file, requests, s.order)
            && forall i :: 0 <= i < |requests| ==> (s.phases[i].Done? <==> i in s.order)
  {
    hide IsMove, IsAt;
    StateIsSafe(h, requests, states, who, n);
  }
}
