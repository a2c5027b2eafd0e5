/** What a cron expression means, from its text to the instant: nextCronTime in
    internal/api/cronmanager.go on expressions written in the documented syntax. */
module CronMeaning {
  import opened Common
  import opened Calendar
  import opened GoStrings
  import opened CronField
  import opened CronSearch

  /** The five fields of an expression, in the order they are written. */
  datatype Cron = Cron(minute: Field, hour: Field, day: Field, month: Field, weekday: Field)

  function Words(c: Cron): seq<string> {
    [Show(c.minute), Show(c.hour), Show(c.day), Show(c.month), Show(c.weekday)]
  }

  ghost predicate NoEmptyList(c: Cron) {
    Items([]) !in {c.minute, c.hour, c.day, c.month, c.weekday}
  }

  /** The instant's wall-clock reading is denoted by all five fields. */
  ghost predicate RunsAt(c: Cron, x: int, offset: int) {
    var t := x / 60_000_000_000 + offset;
    && Denotes(c.minute, MinuteOf(t), 0)
    && Denotes(c.hour, HourOf(t), 0)
    && Denotes(c.day, DateOf(DayOf(t)).day, 1)
    && Denotes(c.month, DateOf(DayOf(t)).month, 1)
    && Denotes(c.weekday, Weekday(DayOf(t)), 0)
  }

  lemma ParseWords(gaps: seq<string>, c: Cron)
    requires SpaceAround(gaps, 5) && NoEmptyList(c)
    ensures ParseSchedule(Spaced(gaps, Words(c)))
            == Some(Schedule(Show(c.minute), Show(c.hour), Show(c.day), Show(c.month), Show(c.weekday)))
  {
    ShownIsWord(c.minute);
    ShownIsWord(c.hour);
    ShownIsWord(c.day);
    ShownIsWord(c.month);
    ShownIsWord(c.weekday);
    FieldsOfSpaced(gaps, Words(c));
  }

  /** The five tests of a minute, as functions. */
  datatype Tests = Tests(minute: int -> bool, hour: int -> bool, day: int -> bool, month: int -> bool, weekday: int -> bool)

  ghost predicate Passes(ts: Tests, t: int) {
    && ts.minute(MinuteOf(t)) && ts.hour(HourOf(t))
    && ts.day(DateOf(DayOf(t)).day) && ts.month(DateOf(DayOf(t)).month) && ts.weekday(Weekday(DayOf(t)))
  }

  function FieldTest(field: string, min: int): int -> bool {
    val => FieldMatches(field, val, min)
  }

  ghost function DenotedTest(f: Field, min: int): int -> bool {
    val => Denotes(f, val, min)
  }

  function TestsOf(s: Schedule): Tests {
    Tests(FieldTest(s.minute, 0), FieldTest(s.hour, 0), FieldTest(s.dom, 1), FieldTest(s.month, 1), FieldTest(s.dow, 0))
  }

  ghost function DenotedTests(c: Cron): Tests {
    Tests(DenotedTest(c.minute, 0), DenotedTest(c.hour, 0), DenotedTest(c.day, 1), DenotedTest(c.month, 1),
          DenotedTest(c.weekday, 0))
  }

  lemma MatchesPasses(s: Schedule, t: int)
    ensures Matches(s, t) == Passes(TestsOf(s), t)
  {
  }

  lemma RunsAtPasses(c: Cron, x: int, offset: int)
    ensures RunsAt(c, x, offset) == Passes(DenotedTests(c), x / 60_000_000_000 + offset)
  {
  }

  ghost predicate Agree(f: int -> bool, g: int -> bool) {
    forall val :: val < 0x8000_0000_0000_0000 ==> f(val) == g(val)
  }

  lemma ShownAgrees(f: Field, min: int)
    requires 0 <= min < 0x8000_0000_0000_0000
    ensures Agree(FieldTest(Show(f), min), DenotedTest(f, min))
  {
    forall val | val < 0x8000_0000_0000_0000 ensures FieldTest(Show(f), min)(val) == DenotedTest(f, min)(val) {
      ShownFieldMeaning(f, val, min);
    }
  }

  ghost predicate AllAgree(a: Tests, b: Tests) {
    && Agree(a.minute, b.minute) && Agree(a.hour, b.hour) && Agree(a.day, b.day)
    && Agree(a.month, b.month) && Agree(a.weekday, b.weekday)
  }

  lemma ShownTestsAgree(c: Cron, s: Schedule)
    requires s == Schedule(Show(c.minute), Show(c.hour), Show(c.day), Show(c.month), Show(c.weekday))
    ensures AllAgree(TestsOf(s), DenotedTests(c))
  {
    ShownAgrees(c.minute, 0);
    ShownAgrees(c.hour, 0);
    ShownAgrees(c.day, 1);
    ShownAgrees(c.month, 1);
    ShownAgrees(c.weekday, 0);
  }

  lemma AgreeingTests(a: Tests, b: Tests, t: int)
    requires AllAgree(a, b)
    ensures Passes(a, t) == Passes(b, t)
  {
    MinuteReading(t);
    DateOfDayNumber(DayOf(t));
  }

  ghost predicate IsTest(p: int -> bool, ts: Tests) {
    forall t :: p(t) == Passes(ts, t)
  }

  lemma MatcherIsTest(p: int -> bool, s: Schedule)
    requires Decides(p, s)
    ensures IsTest(p, TestsOf(s))
  {
    forall t ensures p(t) == Passes(TestsOf(s), t) {
      MatchesPasses(s, t);
    }
  }

  lemma AgreeingTest(p: int -> bool, a: Tests, b: Tests)
    requires IsTest(p, a) && AllAgree(a, b)
    ensures IsTest(p, b)
  {
    forall t ensures p(t) == Passes(b, t) {
      AgreeingTests(a, b, t);
    }
  }

  lemma HoldsRuns(p: int -> bool, c: Cron, x: int, offset: int)
    requires IsTest(p, DenotedTests(c))
    ensures HoldsAt(p, x, offset) == RunsAt(c, x, offset)
  {
    RunsAtPasses(c, x, offset);
  }

  lemma FirstAfterMeaning(p: int -> bool, c: Cron, s: Schedule, from: int, offset: int, result: Option<int>)
    requires s == Schedule(Show(c.minute), Show(c.hour), Show(c.day), Show(c.month), Show(c.weekday))
    requires Decides(p, s) && IsFirstAfter(p, from, offset, result)
    ensures FirstRun(c, from, offset, result)
  {
    MatcherIsTest(p, s);
    ShownTestsAgree(c, s);
    AgreeingTest(p, TestsOf(s), DenotedTests(c));
    forall x ensures HoldsAt(p, x, offset) == RunsAt(c, x, offset) {
      HoldsRuns(p, c, x, offset);
    }
  }

  /** `result` is the first whole minute after `from` at which `c` runs; or none, and no whole minute of
      the 366 days after `from` is one. */
  ghost predicate FirstRun(c: Cron, from: int, offset: int, result: Option<int>) {
    match result
    case Some(r) =>
      && r > from && r % 60_000_000_000 == 0 && RunsAt(c, r, offset)
      && forall x :: from < x < r && x % 60_000_000_000 == 0 ==> !RunsAt(c, x, offset)
    case None =>
      forall x :: from < x <= from + 366 * 86_400_000_000_000 && x % 60_000_000_000 == 0 ==> !RunsAt(c, x, offset)
  }

  /** An expression whose fields are written in minute, hour, day, month, weekday order, with any white
      space around them, next runs at the first whole minute after `from` that all five denote, if the
      366 days after `from` have one. */
  lemma NextRunMeaning(gaps: seq<string>, c: Cron, from: int, offset: int)
    requires SpaceAround(gaps, 5) && NoEmptyList(c)
    ensures FirstRun(c, from, offset, NextOf(Spaced(gaps, Words(c)), from, offset))
  {
    var expr := Spaced(gaps, Words(c));
    ParseWords(gaps, c);
    NextIsFirst(expr, from, offset);
    var s := ParseSchedule(expr).value;
    FirstAfterMeaning(Matcher(s), c, s, from, offset, NextOf(expr, from, offset));
  }
}
