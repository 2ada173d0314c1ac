/** UTC timestamps of second precision in the form of section 5.6 of RFC 3339, and why comparing
    their texts compares the instants (section 5.1). */
module Timestamps {
  import opened Wrappers
  import opened Strings
  import opened ChainTypes
  import opened Tracker
  import opened TrackerLaws

  datatype Civil = Civil(year: nat, month: nat, day: nat, hour: nat, minute: nat, second: nat)

  predicate IsLeap(y: nat) {
    y % 4 == 0 && (y % 100 != 0 || y % 400 == 0)
  }

  function DaysInMonth(y: nat, m: nat): nat {
    if m == 2 then (if IsLeap(y) then 29 else 28) else if m == 4 || m == 6 || m == 9 || m == 11 then 30 else 31
  }

  predicate IsValid(c: Civil) {
    && 1970 <= c.year <= 9999 && 1 <= c.month <= 12 && 1 <= c.day <= DaysInMonth(c.year, c.month)
    && c.hour < 24 && c.minute < 60 && c.second < 60
  }

  function DaysBeforeYear(y: nat): nat {
    if y <= 1970 then 0 else DaysBeforeYear(y - 1) + (if IsLeap(y - 1) then 366 else 365)
  }

  function DaysBeforeMonth(y: nat, m: nat): nat {
    if m <= 1 then 0 else DaysBeforeMonth(y, m - 1) + DaysInMonth(y, m - 1)
  }

  function DayNumber(c: Civil): nat
    requires c.day > 0
  {
    DaysBeforeYear(c.year) + DaysBeforeMonth(c.year, c.month) + (c.day - 1)
  }

  /** Seconds since the epoch. */
  function Seconds(c: Civil): nat
    requires c.day > 0
  {
    DayNumber(c) * 86400 + c.hour * 3600 + c.minute * 60 + c.second
  }

  // --- texts -----------------------------------------------------------------

  function Two(n: nat): (s: string)
    requires n < 100
    ensures |s| == 2
  {
    [Digit(n / 10), Digit(n % 10)]
  }

  function Four(n: nat): (s: string)
    requires n < 10000
    ensures |s| == 4
  {
    Two(n / 100) + Two(n % 100)
  }

  function DateText(c: Civil): (s: string)
    requires IsValid(c)
    ensures |s| == 10
  {
    Four(c.year) + (['-'] + (Two(c.month) + (['-'] + Two(c.day))))
  }

  function TimeText(c: Civil): (s: string)
    requires IsValid(c)
    ensures |s| == 8
  {
    Two(c.hour) + ([':'] + (Two(c.minute) + ([':'] + Two(c.second))))
  }

  function Stamp(c: Civil): (s: string)
    requires IsValid(c)
    ensures |s| == 20
  {
    DateText(c) + (['T'] + (TimeText(c) + ['Z']))
  }

  lemma LessOfTwo(a: nat, b: nat)
    requires a < 100 && b < 100
    ensures Less(Two(a), Two(b)) <==> a < b
    ensures Two(a) == Two(b) <==> a == b
  {
    var (a1, a2, b1, b2) := (Digit(a / 10), Digit(a % 10), Digit(b / 10), Digit(b % 10));
    assert Two(a) == [a1] + [a2] && Two(b) == [b1] + [b2];
    LessOfFields([a1], [b1], [a2], [b2]);
    assert Two(a)[0] == a1 && Two(a)[1] == a2 && Two(b)[0] == b1 && Two(b)[1] == b2;
  }

  lemma LessOfFour(a: nat, b: nat)
    requires a < 10000 && b < 10000
    ensures Less(Four(a), Four(b)) <==> a < b
    ensures Four(a) == Four(b) <==> a == b
  {
    LessOfTwo(a / 100, b / 100);
    LessOfTwo(a % 100, b % 100);
    LessOfFields(Two(a / 100), Two(b / 100), Two(a % 100), Two(b % 100));
    assert Four(a)[..2] == Two(a / 100) && Four(a)[2..] == Two(a % 100);
    assert Four(b)[..2] == Two(b / 100) && Four(b)[2..] == Two(b % 100);
  }

  // A field, a separator, and the rest.
  lemma LessOfSeparated(a: string, b: string, sep: char, x: string, y: string)
    requires |a| == |b|
    ensures Less(a + ([sep] + x), b + ([sep] + y)) <==> Less(a, b) || (a == b && Less(x, y))
    ensures a + ([sep] + x) == b + ([sep] + y) <==> a == b && x == y
  {
    LessOfFields(a, b, [sep] + x, [sep] + y);
    LessOfFields([sep], [sep], x, y);
    var s, t := a + ([sep] + x), b + ([sep] + y);
    assert s[..|a|] == a && t[..|a|] == b && s[|a| + 1..] == x && t[|a| + 1..] == y;
  }

  ghost predicate DateBefore(a: Civil, b: Civil) {
    a.year < b.year || (a.year == b.year && (a.month < b.month || (a.month == b.month && a.day < b.day)))
  }

  ghost predicate TimeBefore(a: Civil, b: Civil) {
    a.hour < b.hour || (a.hour == b.hour && (a.minute < b.minute || (a.minute == b.minute && a.second < b.second)))
  }

  ghost predicate SameDate(a: Civil, b: Civil) {
    a.year == b.year && a.month == b.month && a.day == b.day
  }

  lemma LessOfDates(a: Civil, b: Civil)
    requires IsValid(a) && IsValid(b)
    ensures Less(DateText(a), DateText(b)) <==> DateBefore(a, b)
    ensures DateText(a) == DateText(b) <==> SameDate(a, b)
  {
    LessOfFour(a.year, b.year);
    LessOfTwo(a.month, b.month);
    LessOfTwo(a.day, b.day);
    LessOfSeparated(Two(a.month), Two(b.month), '-', Two(a.day), Two(b.day));
    LessOfSeparated(Four(a.year), Four(b.year), '-', Two(a.month) + (['-'] + Two(a.day)), Two(b.month) + (['-'] + Two(b.day)));
  }

  lemma LessOfTimes(a: Civil, b: Civil)
    requires IsValid(a) && IsValid(b)
    ensures Less(TimeText(a), TimeText(b)) <==> TimeBefore(a, b)
  {
    LessOfTwo(a.hour, b.hour);
    LessOfTwo(a.minute, b.minute);
    LessOfTwo(a.second, b.second);
    LessOfSeparated(Two(a.minute), Two(b.minute), ':', Two(a.second), Two(b.second));
    LessOfSeparated(Two(a.hour), Two(b.hour), ':', Two(a.minute) + ([':'] + Two(a.second)), Two(b.minute) + ([':'] + Two(b.second)));
  }

  // --- instants ----------------------------------------------------------------

  lemma {:induction false} YearsPass(y: nat, z: nat)
    requires 1970 <= y < z
    ensures DaysBeforeYear(y) + (if IsLeap(y) then 366 else 365) <= DaysBeforeYear(z)
  {
    if y + 1 < z {
      YearsPass(y, z - 1);
    }
  }

  // One year more passes a multiple of 4, of 100, of 400, or none.
  lemma Fourth(m: nat)
    requires m > 1968
    ensures (m - 1968) / 4 == (m - 1969) / 4 + (if m % 4 == 0 then 1 else 0)
  {
  }

  lemma Hundredth(m: nat)
    requires m > 1900
    ensures (m - 1900) / 100 == (m - 1901) / 100 + (if m % 100 == 0 then 1 else 0)
  {
  }

  lemma FourHundredth(m: nat)
    requires m > 1600
    ensures (m - 1600) / 400 == (m - 1601) / 400 + (if m % 400 == 0 then 1 else 0)
  {
  }

  lemma Multiples(y: nat)
    ensures y % 400 == 0 ==> y % 100 == 0
    ensures y % 100 == 0 ==> y % 4 == 0
  {
    if y % 400 == 0 {
      assert y == 100 * (4 * (y / 400));
    }
    if y % 100 == 0 {
      assert y == 4 * (25 * (y / 100));
    }
  }

  lemma LeapIs(y: nat)
    ensures (if IsLeap(y) then 1 else 0) ==
              (if y % 4 == 0 then 1 else 0) - (if y % 100 == 0 then 1 else 0) + (if y % 400 == 0 then 1 else 0)
  {
    Multiples(y);
  }

  // The leap days from 1970 to before the year.
  function LeapDays(y: nat): int
    requires y >= 1970
  {
    (y - 1969) / 4 - (y - 1901) / 100 + (y - 1601) / 400
  }

  lemma OneYearMore(y: nat)
    requires y > 1970
    ensures LeapDays(y) == LeapDays(y - 1) + (if IsLeap(y - 1) then 1 else 0)
  {
    hide IsLeap;
    Fourth(y - 1);
    Hundredth(y - 1);
    FourHundredth(y - 1);
    LeapIs(y - 1);
  }

  lemma {:induction false} DaysAreCounted(y: nat)
    requires y >= 1970
    ensures DaysBeforeYear(y) == 365 * (y - 1970) + LeapDays(y)
  {
    hide IsLeap, LeapDays;
    if y > 1970 {
      DaysAreCounted(y - 1);
      OneYearMore(y);
    } else {
      NoLeapDays();
    }
  }

  lemma NoLeapDays()
    ensures LeapDays(1970) == 0
  {
  }

  /** The days before a year in closed form: every fourth year is a leap year, but not every hundredth, but every four
      hundredth. */
  lemma DaysAreGregorian(y: nat)
    requires y >= 1970
    ensures DaysBeforeYear(y) == 365 * (y - 1970) + (y - 1969) / 4 - (y - 1901) / 100 + (y - 1601) / 400
  {
    hide DaysBeforeYear;
    DaysAreCounted(y);
  }

  // The days of a common year before each month.
  const BEFORE_MONTH: seq<nat> := [0, 31, 59, 90, 120, 151, 181, 212, 243, 273, 304, 334]

  lemma {:induction false} MonthsAre(y: nat, m: nat)
    requires 1 <= m <= 12
    ensures DaysBeforeMonth(y, m) == BEFORE_MONTH[m - 1] + (if m > 2 && IsLeap(y) then 1 else 0)
  {
    hide IsLeap;
    if m > 1 {
      MonthsAre(y, m - 1);
    }
  }

  /** The instant of a valid timestamp in closed form, in seconds since the beginning of 1970. */
  lemma SecondsAre(c: Civil)
    requires IsValid(c)
    ensures var y, leap := c.year, c.year % 4 == 0 && (c.year % 100 != 0 || c.year % 400 == 0);
            var days := 365 * (y - 1970) + (y - 1969) / 4 - (y - 1901) / 100 + (y - 1601) / 400
                        + BEFORE_MONTH[c.month - 1] + (if c.month > 2 && leap then 1 else 0) + c.day - 1;
            Seconds(c) == ((days * 24 + c.hour) * 60 + c.minute) * 60 + c.second
  {
    hide DaysBeforeYear, DaysBeforeMonth;
    DaysAreGregorian(c.year);
    MonthsAre(c.year, c.month);
  }

  lemma {:induction false} MonthsPass(y: nat, m: nat, n: nat)
    requires 1 <= m < n
    ensures DaysBeforeMonth(y, m) + DaysInMonth(y, m) <= DaysBeforeMonth(y, n)
  {
    if m + 1 < n {
      MonthsPass(y, m, n - 1);
    }
  }

  lemma YearLength(y: nat)
    ensures DaysBeforeMonth(y, 13) == if IsLeap(y) then 366 else 365
  {
    assert DaysBeforeMonth(y, 3) == 31 + DaysInMonth(y, 2) by {
      assert DaysBeforeMonth(y, 2) == 31;
    }
    assert DaysBeforeMonth(y, 5) == DaysBeforeMonth(y, 3) + 61 by {
      assert DaysBeforeMonth(y, 4) == DaysBeforeMonth(y, 3) + 31;
    }
    assert DaysBeforeMonth(y, 7) == DaysBeforeMonth(y, 5) + 61 by {
      assert DaysBeforeMonth(y, 6) == DaysBeforeMonth(y, 5) + 31;
    }
    assert DaysBeforeMonth(y, 9) == DaysBeforeMonth(y, 7) + 62 by {
      assert DaysBeforeMonth(y, 8) == DaysBeforeMonth(y, 7) + 31;
    }
    assert DaysBeforeMonth(y, 11) == DaysBeforeMonth(y, 9) + 61 by {
      assert DaysBeforeMonth(y, 10) == DaysBeforeMonth(y, 9) + 30;
    }
    assert DaysBeforeMonth(y, 13) == DaysBeforeMonth(y, 11) + 61 by {
      assert DaysBeforeMonth(y, 12) == DaysBeforeMonth(y, 11) + 30;
    }
  }

  lemma DatesAdvance(a: Civil, b: Civil)
    requires IsValid(a) && IsValid(b) && DateBefore(a, b)
    ensures DayNumber(a) < DayNumber(b)
  {
    if a.year < b.year {
      YearsPass(a.year, b.year);
      YearLength(a.year);
      MonthsPass(a.year, a.month, 13);
    } else if a.month < b.month {
      MonthsPass(a.year, a.month, b.month);
    }
  }

  /** The texts of two valid timestamps compare as the instants do. */
  lemma TextOrderIsTimeOrder(a: Civil, b: Civil)
    requires IsValid(a) && IsValid(b)
    ensures Less(Stamp(a), Stamp(b)) <==> Seconds(a) < Seconds(b)
  {
    LessOfDates(a, b);
    LessOfTimes(a, b);
    LessOfFields(TimeText(a), TimeText(b), ['Z'], ['Z']);
    LessIsIrreflexive(['Z']);
    LessOfSeparated(DateText(a), DateText(b), 'T', TimeText(a) + ['Z'], TimeText(b) + ['Z']);
    if DateBefore(a, b) {
      DatesAdvance(a, b);
    } else if DateBefore(b, a) {
      DatesAdvance(b, a);
    }
  }

  // --- reading -----------------------------------------------------------------

  function Value2(s: string): nat
    requires |s| == 2 && AllDigits(s)
  {
    DigitValue(s[0]) * 10 + DigitValue(s[1])
  }

  // Reads exactly the timestamps that `Stamp` prints.
  function ReadStamp(s: string): Option<nat> {
    if |s| != 20 || s[4] != '-' || s[7] != '-' || s[10] != 'T' || s[13] != ':' || s[16] != ':' || s[19] != 'Z' then None
    else if !(AllDigits(s[0..2]) && AllDigits(s[2..4]) && AllDigits(s[5..7]) && AllDigits(s[8..10])
              && AllDigits(s[11..13]) && AllDigits(s[14..16]) && AllDigits(s[17..19])) then None
    else
      var c := Civil(Value2(s[0..2]) * 100 + Value2(s[2..4]), Value2(s[5..7]), Value2(s[8..10]),
                     Value2(s[11..13]), Value2(s[14..16]), Value2(s[17..19]));
      if IsValid(c) then Some(Seconds(c)) else None
  }

  lemma TwoRoundTrip(n: nat)
    requires n < 100
    ensures AllDigits(Two(n)) && Value2(Two(n)) == n
  {
  }

  lemma StampSlices(c: Civil)
    requires IsValid(c)
    ensures var s := Stamp(c);
            && s[0..2] == Two(c.year / 100) && s[2..4] == Two(c.year % 100) && s[5..7] == Two(c.month) && s[8..10] == Two(c.day)
            && s[11..13] == Two(c.hour) && s[14..16] == Two(c.minute) && s[17..19] == Two(c.second)
            && s[4] == s[7] == '-' && s[10] == 'T' && s[13] == s[16] == ':' && s[19] == 'Z'
  {
    hide Two;
  }

  lemma StampRoundTrip(c: Civil)
    requires IsValid(c)
    ensures ReadStamp(Stamp(c)) == Some(Seconds(c))
  {
    hide Two, Stamp, Value2, AllDigits, Seconds;
    StampSlices(c);
    TwoRoundTrip(c.year / 100);
    TwoRoundTrip(c.year % 100);
    TwoRoundTrip(c.month);
    TwoRoundTrip(c.day);
    TwoRoundTrip(c.hour);
    TwoRoundTrip(c.minute);
    TwoRoundTrip(c.second);
  }

  ghost predicate IsStamp(s: string) {
    exists c :: IsValid(c) && Stamp(c) == s
  }

  /** When the engine wrote every start time itself, the stamp a timeout group keeps is the
      chronologically earliest start of its members. */
  lemma EarliestStartIsKept(ts: seq<Task>, g: string, i: int)
    requires forall k :: IsMember(ts, g, k) && ts[k].startedAt.Some? ==> IsStamp(ts[k].startedAt.value)
    requires IsMember(ts, g, i) && ts[i].startedAt.Some?
    ensures Earliest(ts, g).Some?
    ensures var (kept, start) := (ReadStamp(Earliest(ts, g).value), ReadStamp(ts[i].startedAt.value));
            kept.Some? && start.Some? && kept.value <= start.value
  {
    EarliestIsLeast(ts, g);
    var k :| IsMember(ts, g, k) && ts[k].startedAt == Earliest(ts, g);
    var a :| IsValid(a) && Stamp(a) == ts[k].startedAt.value;
    var b :| IsValid(b) && Stamp(b) == ts[i].startedAt.value;
    StampRoundTrip(a);
    StampRoundTrip(b);
    TextOrderIsTimeOrder(b, a);
  }

  // How old a start is, in seconds.
  function Age(start: string, now: string): nat {
    match (ReadStamp(start), ReadStamp(now))
    case (Some(s), Some(n)) => if s <= n then n - s else 0
    case _ => 0
  }

  // A started member of the group that has reached the limit.
  ghost predicate IsOldMember(ts: seq<Task>, g: string, k: int, now: string, limit: nat) {
    IsMember(ts, g, k) && ts[k].startedAt.Some? && Age(ts[k].startedAt.value, now) >= limit
  }

  /** Timeouts in terms of the tasks alone: a running task fails in a timeout pass if and only if some started member
      of its group is at least as old as the limit of the first listed member. */
  lemma TimesOutWhen(pre: Chain, now: string, post: Chain, failed: seq<string>, expired: seq<string>, i: nat, first: nat)
    requires IsTimeoutPass(pre, ReadStamp, now, post, failed, expired) && pre.mode == Dag && DistinctIds(pre.tasks)
    requires i < |pre.tasks| && pre.tasks[i].status.Running? && pre.tasks[i].timeout.Some?
    requires var g := pre.tasks[i].timeout.value.groupId;
             && IsMember(pre.tasks, g, first) && (forall j :: 0 <= j < first ==> !InTimeoutGroup(pre.tasks[j], g))
             && forall k :: IsMember(pre.tasks, g, k) && pre.tasks[k].startedAt.Some? ==> IsStamp(pre.tasks[k].startedAt.value)
    requires IsStamp(now)
    ensures |post.tasks| == |pre.tasks|
    ensures post.tasks[i].status.Failed? <==>
              exists k :: IsOldMember(pre.tasks, pre.tasks[i].timeout.value.groupId, k, now, pre.tasks[first].timeout.value.maxSeconds)
  {
    hide Stamp, ReadStamp, IsValid, IsTimeoutPass, DistinctIds, Less, Info, Seconds;
    var ts, g := pre.tasks, pre.tasks[i].timeout.value.groupId;
    TimeoutsAreExact(pre, ReadStamp, now, post, failed, expired);
    LimitIsFirstListed(ts, g, first);
    EarliestIsLeast(ts, g);
    var n :| IsValid(n) && Stamp(n) == now;
    StampRoundTrip(n);
    forall k | IsMember(ts, g, k) && ts[k].startedAt.Some?
      ensures Earliest(ts, g).Some? && ReadStamp(ts[k].startedAt.value).Some? && ReadStamp(Earliest(ts, g).value).Some?
      ensures Age(ts[k].startedAt.value, now) <= Age(Earliest(ts, g).value, now)
    {
      EarliestStartIsKept(ts, g, k);
    }
    var e, limit := Earliest(ts, g), ts[first].timeout.value.maxSeconds;
    assert post.tasks[i].status.Failed? <==> GroupExpired(ts, g, ReadStamp, now);
    if e.Some? {
      var k :| IsMember(ts, g, k) && ts[k].startedAt == e;
      assert IsOldMember(ts, g, k, now, limit) <==> Age(e.value, now) >= limit;
      assert GroupExpired(ts, g, ReadStamp, now) <==> IsOldMember(ts, g, k, now, limit);
    }
  }
}
