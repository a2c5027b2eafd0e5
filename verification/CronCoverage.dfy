/** Which cron expressions always have a next run: when nextCronTime in internal/api/cronmanager.go,
    whose search ends after 366 days, can come back empty. */
module CronCoverage {
  import opened Common
  import opened Calendar
  import opened GoStrings
  import opened CronField
  import opened CronSearch

  /** A next run is found from every start. */
  ghost predicate NeverZero(expr: string, offset: int) {
    forall from :: NextOf(expr, from, offset).Some?
  }

  ghost predicate AlwaysFound(p: int -> bool) {
    forall t :: FirstInWindow(p, t).Some?
  }

  lemma NeverZeroIsAlwaysFound(p: int -> bool, offset: int)
    ensures AlwaysFound(p) <==> forall from :: NextFrom(p, from, offset).Some?
  {
    forall from ensures NextFrom(p, from, offset).Some? == FirstInWindow(p, StartMinute(from, offset)).Some? {
    }
    forall t ensures NextFrom(p, InstantOf(t - 1, offset), offset).Some? == FirstInWindow(p, t).Some? {
      assert StartMinute(InstantOf(t - 1, offset), offset) == t;
    }
  }

  // ---------------------------------------------------------------- every schedule

  ghost predicate Clock(hour: int, minute: int) {
    0 <= hour < 24 && 0 <= minute < 60
  }

  ghost predicate TimeSatisfiable(s: Schedule) {
    exists hour, minute :: Clock(hour, minute) && TimeMatches(s, hour, minute)
  }

  /** One of the 366 days after day `n` matches. */
  ghost predicate MatchesWithin(s: Schedule, n: int) {
    exists k :: n < k <= n + 366 && DayMatches(s, k)
  }

  lemma AlwaysFoundNeeds(p: int -> bool, s: Schedule, n: int)
    requires Decides(p, s) && AlwaysFound(p)
    ensures TimeSatisfiable(s) && MatchesWithin(s, n)
  {
    var t := (n + 1) * 1440;
    FirstMatchIsLeast(p, s, t);
    var u := FirstInWindow(p, t).value;
    MinuteReading(u);
    assert Clock(HourOf(u), MinuteOf(u)) && TimeMatches(s, HourOf(u), MinuteOf(u));
    assert n < DayOf(u) <= n + 366 && DayMatches(s, DayOf(u));
  }

  lemma MinuteOfDay(day: int, hour: int, minute: int)
    requires Clock(hour, minute)
    ensures var u := day * 1440 + hour * 60 + minute; DayOf(u) == day && HourOf(u) == hour && MinuteOf(u) == minute
  {
  }

  lemma FoundOnDay(p: int -> bool, s: Schedule, t: int, day: int, hour: int, minute: int)
    requires Decides(p, s) && Clock(hour, minute) && TimeMatches(s, hour, minute) && DayMatches(s, day)
    requires t <= day * 1440 + hour * 60 + minute < t + 527040
    ensures FirstInWindow(p, t).Some?
  {
    MinuteOfDay(day, hour, minute);
    assert Matches(s, day * 1440 + hour * 60 + minute);
    FirstMatchIsLeast(p, s, t);
  }

  /** The matching day within 366 of yesterday serves, unless it is today and the time has passed;
      then the one within 366 of today does. */
  lemma FoundFrom(p: int -> bool, s: Schedule, t: int, hour: int, minute: int)
    requires Decides(p, s) && Clock(hour, minute) && TimeMatches(s, hour, minute)
    requires MatchesWithin(s, DayOf(t) - 1) && MatchesWithin(s, DayOf(t))
    ensures FirstInWindow(p, t).Some?
  {
    var n := DayOf(t);
    MinuteReading(t);
    var day :| n - 1 < day <= n - 1 + 366 && DayMatches(s, day);
    if day * 1440 + hour * 60 + minute < t {
      day :| n < day <= n + 366 && DayMatches(s, day);
    }
    FoundOnDay(p, s, t, day, hour, minute);
  }

  lemma DayMatchesRepeats(s: Schedule, n: int)
    ensures DayMatches(s, n + 146097) == DayMatches(s, n)
  {
    CalendarRepeats(n);
  }

  lemma MatchesWithinRepeats(s: Schedule, n: int)
    ensures MatchesWithin(s, n + 146097) == MatchesWithin(s, n)
  {
    if k :| n < k <= n + 366 && DayMatches(s, k) {
      DayMatchesRepeats(s, k);
      assert DayMatches(s, k + 146097);
    }
    if k :| n + 146097 < k <= n + 146097 + 366 && DayMatches(s, k) {
      DayMatchesRepeats(s, k - 146097);
      assert DayMatches(s, k - 146097);
    }
  }

  /** The days of one 400-year cycle. */
  ghost predicate MatchesAllCycle(s: Schedule) {
    forall n :: 0 <= n < 146097 ==> MatchesWithin(s, n)
  }

  lemma {:induction false} CycleIsEnough(s: Schedule, n: int)
    requires MatchesAllCycle(s)
    ensures MatchesWithin(s, n)
    decreases if n < 0 then 146097 - n else n
  {
    if n < 0 {
      CycleIsEnough(s, n + 146097);
      MatchesWithinRepeats(s, n);
    } else if n >= 146097 {
      CycleIsEnough(s, n - 146097);
      MatchesWithinRepeats(s, n - 146097);
    }
  }

  lemma AlwaysFoundIff(p: int -> bool, s: Schedule)
    requires Decides(p, s)
    ensures AlwaysFound(p) <==> TimeSatisfiable(s) && MatchesAllCycle(s)
  {
    if AlwaysFound(p) {
      AlwaysFoundNeeds(p, s, 0);
      forall n | 0 <= n < 146097 ensures MatchesWithin(s, n) {
        AlwaysFoundNeeds(p, s, n);
      }
    }
    if TimeSatisfiable(s) && MatchesAllCycle(s) {
      var hour, minute :| Clock(hour, minute) && TimeMatches(s, hour, minute);
      forall t ensures FirstInWindow(p, t).Some? {
        CycleIsEnough(s, DayOf(t) - 1);
        CycleIsEnough(s, DayOf(t));
        FoundFrom(p, s, t, hour, minute);
      }
    }
  }

  /** An expression has a next run from every start exactly when it has five fields, some time of day
      matches, and no 366 days in a row of the calendar's 400-year cycle go without a matching day. */
  lemma NeverZeroIff(expr: string, offset: int)
    ensures NeverZero(expr, offset) <==>
            match ParseSchedule(expr)
            case None => false
            case Some(s) => TimeSatisfiable(s) && MatchesAllCycle(s)
  {
    match ParseSchedule(expr)
    case None =>
      assert NextOf(expr, 0, offset).None?;
    case Some(s) =>
      NeverZeroIsAlwaysFound(Matcher(s), offset);
      AlwaysFoundIff(Matcher(s), s);
      assert forall from :: NextOf(expr, from, offset) == NextFrom(Matcher(s), from, offset);
  }

  // ---------------------------------------------------------------- weekday "*"

  ghost predicate IsLeapDay(d: Date) { d.month == 2 && d.day == 29 }

  /** A real date other than 29 February. */
  ghost predicate OrdinaryDate(d: Date) { ValidDate(d) && !IsLeapDay(d) }

  lemma OneYearOn(d: Date)
    requires OrdinaryDate(d)
    ensures 365 <= DayNumber(Date(d.year + 1, d.month, d.day)) - DayNumber(d) <= 366
  {
    YearLength(d.year);
  }

  /** An ordinary date recurs within every 366 days: in the year of day `n`, or else in the next. */
  lemma RecursWithin(n: int, d: Date) returns (k: int)
    requires OrdinaryDate(d)
    ensures n < k <= n + 366 && DateOf(k).month == d.month && DateOf(k).day == d.day
  {
    DateOfDayNumber(n);
    var y := DateOf(n).year;
    var here, there := Date(y, d.month, d.day), Date(y + 1, d.month, d.day);
    DayNumberInYear(DateOf(n));
    DayNumberInYear(here);
    DayNumberInYear(there);
    YearLength(y);
    OneYearOn(here);
    DayNumberDateOf(here);
    DayNumberDateOf(there);
    k := if DayNumber(here) > n then DayNumber(here) else DayNumber(there);
  }

  /** Two common years in a row hold no 29 February. */
  lemma NoLeapDay(y: int, k: int)
    requires !IsLeap(y) && !IsLeap(y + 1)
    requires DaysBeforeYear(y) <= k < DaysBeforeYear(y) + 730
    ensures OrdinaryDate(DateOf(k)) && y <= DateOf(k).year <= y + 1
  {
    DateOfDayNumber(k);
    var d := DateOf(k);
    DayNumberInYear(d);
    YearLength(y);
    YearLength(y + 1);
    if d.year < y {
      YearLength(d.year);
      YearsGrow(d.year + 1, y);
    } else if d.year > y + 1 {
      YearsGrow(y + 2, d.year);
    }
  }

  /** With weekday "*", an expression always has a next run exactly when some time of day matches and
      month and day match some date other than 29 February. */
  lemma WildcardWeekdayNeverZeroIff(expr: string, offset: int, s: Schedule)
    requires ParseSchedule(expr) == Some(s) && s.dow == "*"
    ensures NeverZero(expr, offset) <==> TimeSatisfiable(s) && exists d :: OrdinaryDate(d) && DateMatches(s, d)
  {
    NeverZeroIff(expr, offset);
    if MatchesAllCycle(s) {
      var y := 2;
      YearLength(1);
      assert MatchesWithin(s, DaysBeforeYear(y) - 1);
      var k :| DaysBeforeYear(y) - 1 < k <= DaysBeforeYear(y) - 1 + 366 && DayMatches(s, k);
      NoLeapDay(y, k);
      assert OrdinaryDate(DateOf(k)) && DateMatches(s, DateOf(k));
    }
    if d :| OrdinaryDate(d) && DateMatches(s, d) {
      forall n ensures MatchesWithin(s, n) {
        var k := RecursWithin(n, d);
        assert DayMatches(s, k);
      }
    }
  }

  // ---------------------------------------------------------------- day and month "*"

  lemma WeekdayRecurs(n: int, w: int) returns (k: int)
    requires 0 <= w < 7
    ensures n < k <= n + 366 && Weekday(k) == w
  {
    k := n + 1 + (w - Weekday(n + 1)) % 7;
  }

  /** With day and month "*", an expression always has a next run exactly when some time of day and some
      weekday match. */
  lemma WildcardDateNeverZeroIff(expr: string, offset: int, s: Schedule)
    requires ParseSchedule(expr) == Some(s) && s.dom == "*" && s.month == "*"
    ensures NeverZero(expr, offset) <==> TimeSatisfiable(s) && exists w :: 0 <= w < 7 && FieldMatches(s.dow, w, 0)
  {
    NeverZeroIff(expr, offset);
    if MatchesAllCycle(s) {
      assert MatchesWithin(s, 0);
      var k :| 0 < k <= 366 && DayMatches(s, k);
      assert 0 <= Weekday(k) < 7 && FieldMatches(s.dow, Weekday(k), 0);
    }
    if w :| 0 <= w < 7 && FieldMatches(s.dow, w, 0) {
      forall n ensures MatchesWithin(s, n) {
        var k := WeekdayRecurs(n, w);
        assert DayMatches(s, k);
      }
    }
  }

  // ---------------------------------------------------------------- two expressions that fail

  /** A field that is one small number matches exactly that number. */
  lemma PlainNumber(n: int)
    requires 0 <= n < 60
    ensures forall val, min :: FieldMatches(Itoa(n), val, min) <==> val == n
    ensures n < 10 ==> Itoa(n) == [('0' as int + n) as char]
    ensures n >= 10 ==> Itoa(n) == [('0' as int + n / 10) as char, ('0' as int + n % 10) as char]
  {
    ShownItems([One(n)], n, 0);
    forall val, min ensures FieldMatches(Itoa(n), val, min) <==> val == n {
      var items := [One(n)];
      ShownItems(items, val, min);
      assert ShowItems(items) == [Itoa(n)];
      assert Show(Items(items)) == Itoa(n);
      if val == n {
        assert InItem(items[0], val);
      }
    }
  }

  /** None of the days that the 366 days after minute `t` touch matches, so the search comes back empty. */
  lemma NoneFound(expr: string, t: int, offset: int, s: Schedule)
    requires ParseSchedule(expr) == Some(s)
    requires forall u :: t < u <= t + 527040 ==> !Matches(s, u)
    ensures NextOf(expr, InstantOf(t, offset), offset) == None
  {
    assert StartMinute(InstantOf(t, offset), offset) == t + 1;
    FirstMatchIsLeast(Matcher(s), s, t + 1);
  }

  lemma ParseLeapDay(expr: string)
    requires expr == "0 0 29 2 *"
    ensures ParseSchedule(expr) == Some(Schedule("0", "0", "29", "2", "*"))
  {
    FieldsOfJoin(["0", "0", "29", "2", "*"]);
    assert JoinSpaces(["0", "0", "29", "2", "*"]) == expr;
  }

  lemma ParseFriday(expr: string)
    requires expr == "0 0 13 * 5"
    ensures ParseSchedule(expr) == Some(Schedule("0", "0", "13", "*", "5"))
  {
    FieldsOfJoin(["0", "0", "13", "*", "5"]);
    assert JoinSpaces(["0", "0", "13", "*", "5"]) == expr;
  }

  lemma LeapDayMeaning(s: Schedule, u: int)
    requires s == Schedule("0", "0", "29", "2", "*")
    ensures Matches(s, u) <==> IsLeapDay(DateOf(DayOf(u))) && HourOf(u) == 0 && MinuteOf(u) == 0
  {
    PlainNumber(0);
    PlainNumber(29);
    PlainNumber(2);
  }

  lemma FridayMeaning(s: Schedule, u: int)
    requires s == Schedule("0", "0", "13", "*", "5")
    ensures Matches(s, u) <==>
            DateOf(DayOf(u)).day == 13 && Weekday(DayOf(u)) == 5 && HourOf(u) == 0 && MinuteOf(u) == 0
  {
    PlainNumber(0);
    PlainNumber(13);
    PlainNumber(5);
  }

  /** "0 0 29 2 *" is a valid expression, and midnight of every 29 February matches it; yet from
      New Year of a common year followed by a common year nextCronTime returns zero. */
  lemma LeapDayScheduleMissed(expr: string, y: int, offset: int)
    requires expr == "0 0 29 2 *"
    requires !IsLeap(y) && !IsLeap(y + 1)
    ensures NextOf(expr, InstantOf(MinuteAt(y, 1, 1, 0, 0), offset), offset) == None
    ensures ParseSchedule(expr).Some?
    ensures forall leap :: IsLeap(leap) ==> Matches(ParseSchedule(expr).value, MinuteAt(leap, 2, 29, 0, 0))
  {
    var s := Schedule("0", "0", "29", "2", "*");
    ParseLeapDay(expr);
    var t := MinuteAt(y, 1, 1, 0, 0);
    forall u | t < u <= t + 527040 ensures !Matches(s, u) {
      NoLeapDay(y, DayOf(u));
      LeapDayMeaning(s, u);
    }
    NoneFound(expr, t, offset, s);
    forall leap | IsLeap(leap) ensures Matches(s, MinuteAt(leap, 2, 29, 0, 0)) {
      MinuteAtReadsBack(Date(leap, 2, 29), 0, 0);
      LeapDayMeaning(s, MinuteAt(leap, 2, 29, 0, 0));
    }
  }

  /** Of the 366 days after a Friday 13 July none is a Friday the 13th, if no 29 February is near. */
  lemma NoFridayThirteenth(y: int, k: int)
    requires !IsLeap(y) && !IsLeap(y + 1)
    requires var n := DayNumber(Date(y, 7, 13)); Weekday(n) == 5 && n < k <= n + 366
    ensures DateOf(k).day != 13 || Weekday(k) != 5
  {
    var n := DayNumber(Date(y, 7, 13));
    NoLeapDay(y, k);
    DateOfDayNumber(k);
    YearLength(y);
    var d := DateOf(k);
    if d.day == 13 {
      assert d.year == y ==> k - n == DaysBeforeMonth(y, d.month) - 181;
      assert d.year == y + 1 ==> k - n == DaysBeforeMonth(y + 1, d.month) + 184;
      assert DaysBeforeMonth(d.year, d.month) in {0, 31, 59, 90, 120, 151, 181, 212, 243, 273, 304, 334};
    }
  }

  lemma NotAgain(s: Schedule, y: int, u: int)
    requires s == Schedule("0", "0", "13", "*", "5")
    requires !IsLeap(y) && !IsLeap(y + 1) && Weekday(DayNumber(Date(y, 7, 13))) == 5
    requires var t := MinuteAt(y, 7, 13, 0, 0); t < u <= t + 527040
    ensures !Matches(s, u)
  {
    FridayMeaning(s, u);
    MinuteReading(u);
    if DayOf(u) > DayNumber(Date(y, 7, 13)) {
      NoFridayThirteenth(y, DayOf(u));
    }
  }

  /** "0 0 13 * 5" restricts date and weekday. Midnight of every Friday the 13th matches it; yet right
      after Friday 13 July of a common year followed by a common year (2029, say) nextCronTime returns zero. */
  lemma FridayThirteenthMissed(expr: string, y: int, offset: int)
    requires expr == "0 0 13 * 5"
    requires !IsLeap(y) && !IsLeap(y + 1) && Weekday(DayNumber(Date(y, 7, 13))) == 5
    ensures NextOf(expr, InstantOf(MinuteAt(y, 7, 13, 0, 0), offset), offset) == None
    ensures ParseSchedule(expr).Some?
    ensures forall n :: DateOf(n).day == 13 && Weekday(n) == 5 ==> Matches(ParseSchedule(expr).value, n * 1440)
  {
    var s := Schedule("0", "0", "13", "*", "5");
    ParseFriday(expr);
    var t := MinuteAt(y, 7, 13, 0, 0);
    forall u | t < u <= t + 527040 ensures !Matches(s, u) {
      NotAgain(s, y, u);
    }
    NoneFound(expr, t, offset, s);
    forall n | DateOf(n).day == 13 && Weekday(n) == 5 ensures Matches(s, n * 1440) {
      FridayMeaning(s, n * 1440);
    }
  }
}
