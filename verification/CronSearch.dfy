/** The skip-ahead search for the next matching minute: internal/api/cronmanager.go, nextCronTime.
    Instants are nanoseconds since Go's zero time; `offset` is the zone's fixed offset in minutes. */
module CronSearch {
  import opened Common
  import opened Calendar
  import opened GoStrings
  import opened CronField

  datatype Schedule = Schedule(minute: string, hour: string, dom: string, month: string, dow: string)

  predicate DateMatches(s: Schedule, d: Date) {
    FieldMatches(s.month, d.month, 1) && FieldMatches(s.dom, d.day, 1)
  }

  predicate TimeMatches(s: Schedule, hour: int, minute: int) {
    FieldMatches(s.hour, hour, 0) && FieldMatches(s.minute, minute, 0)
  }

  /** The month, day and weekday fields match day `n`: day of month and weekday are both required. */
  predicate DayMatches(s: Schedule, n: int) {
    DateMatches(s, DateOf(n)) && FieldMatches(s.dow, Weekday(n), 0)
  }

  /** All five fields match local minute `t`. */
  predicate Matches(s: Schedule, t: int) {
    DayMatches(s, DayOf(t)) && TimeMatches(s, HourOf(t), MinuteOf(t))
  }

  /** The reference: try every minute from `t` up to, not including, `limit`. */
  function FirstSuch(p: int -> bool, t: int, limit: int): Option<int>
    decreases limit - t
  {
    if t >= limit then None
    else if p(t) then Some(t)
    else FirstSuch(p, t + 1, limit)
  }

  function Matcher(s: Schedule): int -> bool {
    t => Matches(s, t)
  }

  /** `p` decides whether a minute matches `s`. (The trigger keeps `Matches` folded where only `p` is used.) */
  ghost predicate Decides(p: int -> bool, s: Schedule) {
    forall t {:trigger Matches(s, t)} :: p(t) == Matches(s, t)
  }

  /** The first such minute of the 366 days from local minute `t`. */
  function FirstInWindow(p: int -> bool, t: int): Option<int> {
    FirstSuch(p, t, t + 527040)
  }

  function ParseSchedule(expr: string): Option<Schedule> {
    var f := Fields(expr);
    if |f| == 5 then Some(Schedule(f[0], f[1], f[2], f[3], f[4])) else None
  }

  /** The local minute after the one containing `from`. */
  function StartMinute(from: int, offset: int): int {
    from / 60_000_000_000 + offset + 1
  }

  function InstantOf(t: int, offset: int): int {
    (t - offset) * 60_000_000_000
  }

  function NextFrom(p: int -> bool, from: int, offset: int): Option<int> {
    var t := StartMinute(from, offset);
    match FirstInWindow(p, t)
    case None => None
    case Some(u) => Some(InstantOf(u, offset))
  }

  /** What nextCronTime must return, by the minute-by-minute scan. */
  function NextOf(expr: string, from: int, offset: int): Option<int> {
    match ParseSchedule(expr)
    case None => None
    case Some(s) => NextFrom(Matcher(s), from, offset)
  }

  // ---------------------------------------------------------------- the search

  lemma {:induction false} SkipUnmatched(p: int -> bool, t: int, u: int, limit: int)
    requires t <= u && forall k :: t <= k < u ==> !p(k)
    ensures FirstSuch(p, t, limit) == FirstSuch(p, u, limit)
    decreases u - t
  {
    if t < u {
      SkipUnmatched(p, t + 1, u, limit);
    }
  }

  lemma SkipMonth(p: int -> bool, s: Schedule, t: int, u: int, limit: int)
    requires Decides(p, s)
    requires !FieldMatches(s.month, MonthOf(t), 1)
    requires var d := DateOf(DayOf(t)); u == MinuteAt(d.year, d.month + 1, 1, 0, 0)
    ensures t < u && FirstSuch(p, t, limit) == FirstSuch(p, u, limit)
  {
    NextFirstLater(t);
    forall k | t <= k < u ensures !p(k) {
      assert p(k) == Matches(s, k);
      SameMonthUntilNextFirst(t, k);
    }
    SkipUnmatched(p, t, u, limit);
  }

  lemma SkipDay(p: int -> bool, s: Schedule, t: int, u: int, limit: int)
    requires Decides(p, s)
    requires !FieldMatches(s.dom, DayOfMonth(t), 1) || !FieldMatches(s.dow, Weekday(DayOf(t)), 0)
    requires var d := DateOf(DayOf(t)); u == MinuteAt(d.year, d.month, d.day + 1, 0, 0)
    ensures t < u && FirstSuch(p, t, limit) == FirstSuch(p, u, limit)
  {
    NextMidnight(t);
    MinuteReading(t);
    forall k | t <= k < u ensures !p(k) {
      assert p(k) == Matches(s, k);
      SameDay(t, k);
    }
    SkipUnmatched(p, t, u, limit);
  }

  lemma SkipHour(p: int -> bool, s: Schedule, t: int, u: int, limit: int)
    requires Decides(p, s)
    requires !FieldMatches(s.hour, HourOf(t), 0)
    requires var d := DateOf(DayOf(t)); u == MinuteAt(d.year, d.month, d.day, HourOf(t) + 1, 0)
    ensures t < u && FirstSuch(p, t, limit) == FirstSuch(p, u, limit)
  {
    NextFullHour(t);
    MinuteReading(t);
    forall k | t <= k < u ensures !p(k) {
      assert p(k) == Matches(s, k);
      SameHour(t, k);
    }
    SkipUnmatched(p, t, u, limit);
  }

  lemma SkipMinute(p: int -> bool, s: Schedule, t: int, limit: int)
    requires Decides(p, s)
    requires t < limit && !FieldMatches(s.minute, MinuteOf(t), 0)
    ensures FirstSuch(p, t, limit) == FirstSuch(p, t + 1, limit)
  {
    assert !Matches(s, t);
  }

  lemma AllFiveMatch(p: int -> bool, s: Schedule, t: int, limit: int)
    requires Decides(p, s)
    requires t < limit
    requires DayMatches(s, DayOf(t)) && TimeMatches(s, HourOf(t), MinuteOf(t))
    ensures FirstSuch(p, t, limit) == Some(t)
  {
    assert Matches(s, t);
  }

  /** The month, day and weekday tests of one iteration: where the search goes next (`t` itself if they pass). */
  method SkipByDate(s: Schedule, t: int, ghost p: int -> bool, ghost limit: int) returns (u: int)
    requires Decides(p, s)
    ensures u == t ==> DayMatches(s, DayOf(t))
    ensures u != t ==> t < u && FirstSuch(p, t, limit) == FirstSuch(p, u, limit)
  {
    var d := DateOf(DayOf(t));
    var ok := MatchField(s.month, d.month, 1, 12);
    if !ok {
      u := MinuteAt(d.year, d.month + 1, 1, 0, 0);
      SkipMonth(p, s, t, u, limit);
      return;
    }
    ok := MatchField(s.dom, d.day, 1, 31);
    if !ok {
      u := MinuteAt(d.year, d.month, d.day + 1, 0, 0);
      SkipDay(p, s, t, u, limit);
      return;
    }
    ok := MatchField(s.dow, Weekday(DayOf(t)), 0, 6);
    if !ok {
      u := MinuteAt(d.year, d.month, d.day + 1, 0, 0);
      SkipDay(p, s, t, u, limit);
      return;
    }
    u := t;
  }

  /** The hour and minute tests of one iteration. */
  method SkipByTime(s: Schedule, t: int, ghost p: int -> bool, ghost limit: int) returns (u: int)
    requires Decides(p, s)
    requires t < limit
    ensures u == t ==> TimeMatches(s, HourOf(t), MinuteOf(t))
    ensures u != t ==> t < u && FirstSuch(p, t, limit) == FirstSuch(p, u, limit)
  {
    var d := DateOf(DayOf(t));
    var ok := MatchField(s.hour, HourOf(t), 0, 23);
    if !ok {
      u := MinuteAt(d.year, d.month, d.day, HourOf(t) + 1, 0);
      SkipHour(p, s, t, u, limit);
      return;
    }
    ok := MatchField(s.minute, MinuteOf(t), 0, 59);
    if !ok {
      u := t + 1;
      SkipMinute(p, s, t, limit);
      return;
    }
    u := t;
  }

  /** One iteration of nextCronTime's loop: `t` itself if all five fields match, else where to go on. */
  method Step(s: Schedule, t: int, ghost p: int -> bool, ghost limit: int) returns (u: int)
    requires Decides(p, s) && t < limit
    ensures u == t ==> FirstSuch(p, t, limit) == Some(t)
    ensures u != t ==> t < u && FirstSuch(p, t, limit) == FirstSuch(p, u, limit)
  {
    u := SkipByDate(s, t, p, limit);
    if u == t {
      u := SkipByTime(s, t, p, limit);
      if u == t {
        AllFiveMatch(p, s, t, limit);
      }
    }
  }

  /** The loop of nextCronTime. It terminates because every skip strictly shortens the distance
      to `limit`, and it finds exactly what the minute-by-minute scan finds. */
  method Search(s: Schedule, start: int, ghost p: int -> bool) returns (found: Option<int>)
    requires Decides(p, s)
    ensures found == FirstInWindow(p, start)
  {
    var t := start;
    var limit := t + 366 * 24 * 60;
    while t < limit
      invariant FirstSuch(p, t, limit) == FirstSuch(p, start, limit)
      decreases limit - t
    {
      var u := Step(s, t, p, limit);
      if u == t {
        return Some(t);
      }
      t := u;
    }
    return None;
  }

  method NextCronTime(expr: string, from: int, offset: int) returns (next: Option<int>)
    ensures next == NextOf(expr, from, offset)
  {
    var fields := Fields(expr);
    if |fields| != 5 {
      return None;
    }
    var s := Schedule(fields[0], fields[1], fields[2], fields[3], fields[4]);
    var t := Search(s, StartMinute(from, offset), Matcher(s));
    next := if t.None? then None else Some(InstantOf(t.value, offset));
  }

  // ---------------------------------------------------------------- what the search finds

  lemma {:induction false} FirstSuchIsLeast(p: int -> bool, t: int, limit: int)
    ensures match FirstSuch(p, t, limit)
            case None => forall k :: t <= k < limit ==> !p(k)
            case Some(u) => t <= u < limit && p(u) && forall k :: t <= k < u ==> !p(k)
    decreases limit - t
  {
    if t < limit && !p(t) {
      FirstSuchIsLeast(p, t + 1, limit);
    }
  }

  lemma FirstMatchIsLeast(p: int -> bool, s: Schedule, t: int)
    requires Decides(p, s)
    ensures match FirstInWindow(p, t)
            case None => forall k :: t <= k < t + 527040 ==> !Matches(s, k)
            case Some(u) => t <= u < t + 527040 && Matches(s, u)
  {
    FirstSuchIsLeast(p, t, t + 527040);
    forall k ensures p(k) == Matches(s, k) {
      assert Matches(s, k) == Matches(s, k);
    }
  }

  ghost predicate WholeMinute(x: int) { x % 60_000_000_000 == 0 }

  /** The whole-minute instant `x` reads a local minute satisfying `p`. */
  ghost predicate HoldsAt(p: int -> bool, x: int, offset: int) {
    p(x / 60_000_000_000 + offset)
  }

  /** `result` is the first whole minute strictly after `from` that satisfies `p`,
      or zero and no whole minute of the 366 days after `from` does. */
  ghost predicate IsFirstAfter(p: int -> bool, from: int, offset: int, result: Option<int>) {
    match result
    case Some(r) =>
      && WholeMinute(r) && r > from && HoldsAt(p, r, offset)
      && forall x :: from < x < r && WholeMinute(x) ==> !HoldsAt(p, x, offset)
    case None =>
      forall x :: WholeMinute(x) && from < x <= from + 366 * 86_400_000_000_000 ==> !HoldsAt(p, x, offset)
  }

  lemma NextFromIsFirst(p: int -> bool, from: int, offset: int)
    ensures IsFirstAfter(p, from, offset, NextFrom(p, from, offset))
  {
    var t := StartMinute(from, offset);
    FirstSuchIsLeast(p, t, t + 527040);
  }

  /** For a five-field expression the result is the first matching minute after `from`, where
      `Matcher(s)` requires all five fields; any other expression gives zero. */
  lemma NextIsFirst(expr: string, from: int, offset: int)
    ensures match ParseSchedule(expr)
            case None => NextOf(expr, from, offset).None?
            case Some(s) => IsFirstAfter(Matcher(s), from, offset, NextOf(expr, from, offset))
  {
    match ParseSchedule(expr)
    case None =>
    case Some(s) => NextFromIsFirst(Matcher(s), from, offset);
  }

  /** Starting again anywhere before the minute found finds the same minute. */
  lemma SameFirst(p: int -> bool, t1: int, t2: int)
    requires t1 <= t2 && FirstInWindow(p, t1).Some? && t2 <= FirstInWindow(p, t1).value
    ensures FirstInWindow(p, t2) == FirstInWindow(p, t1)
  {
    FirstSuchIsLeast(p, t1, t1 + 527040);
    FirstSuchIsLeast(p, t2, t2 + 527040);
  }

  lemma NextFromIsMonotone(p: int -> bool, from1: int, from2: int, offset: int)
    requires from1 <= from2 && NextFrom(p, from1, offset).Some?
    ensures NextFrom(p, from2, offset).Some? ==>
              NextFrom(p, from1, offset).value <= NextFrom(p, from2, offset).value
    ensures from2 < NextFrom(p, from1, offset).value ==> NextFrom(p, from2, offset) == NextFrom(p, from1, offset)
  {
    NextFromIsFirst(p, from1, offset);
    NextFromIsFirst(p, from2, offset);
    if from2 < NextFrom(p, from1, offset).value {
      SameFirst(p, StartMinute(from1, offset), StartMinute(from2, offset));
    }
  }

  /** A later start never gives an earlier run, and the same run until that run is due. */
  lemma NextIsMonotone(expr: string, from1: int, from2: int, offset: int)
    requires from1 <= from2 && NextOf(expr, from1, offset).Some?
    ensures NextOf(expr, from2, offset).Some? ==>
              NextOf(expr, from1, offset).value <= NextOf(expr, from2, offset).value
    ensures from2 < NextOf(expr, from1, offset).value ==> NextOf(expr, from2, offset) == NextOf(expr, from1, offset)
  {
    NextFromIsMonotone(Matcher(ParseSchedule(expr).value), from1, from2, offset);
  }
}
