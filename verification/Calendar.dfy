/** The proleptic Gregorian calendar behind Go's time.Time, as day and minute numbers.
    Day 0 is Monday, 1 January of year 1 (Go's zero time); a minute number counts
    wall-clock minutes from midnight of day 0. */
module Calendar {

  datatype Date = Date(year: int, month: int, day: int)

  predicate IsLeap(y: int) {
    y % 4 == 0 && (y % 100 != 0 || y % 400 == 0)
  }

  function DaysIn(y: int, m: int): int
    requires 1 <= m <= 12
  {
    if m == 2 then (if IsLeap(y) then 29 else 28)
    else if m == 4 || m == 6 || m == 9 || m == 11 then 30
    else 31
  }

  function DaysInYear(y: int): int {
    if IsLeap(y) then 366 else 365
  }

  predicate ValidDate(d: Date) {
    1 <= d.month <= 12 && 1 <= d.day <= DaysIn(d.year, d.month)
  }

  /** The date after `d`: an independent, day-by-day definition of the calendar. */
  function Tomorrow(d: Date): Date
    requires ValidDate(d)
  {
    if d.day < DaysIn(d.year, d.month) then Date(d.year, d.month, d.day + 1)
    else if d.month < 12 then Date(d.year, d.month + 1, 1)
    else Date(d.year + 1, 1, 1)
  }

  /** Days from 1 January of year 1 to 1 January of year `y` (negative before year 1). */
  function DaysBeforeYear(y: int): int {
    if y >= 1 then DaysFromYearOne(y) else -DaysToYearOne(y)
  }

  function DaysFromYearOne(y: int): int
    requires y >= 1
  {
    if y == 1 then 0 else DaysFromYearOne(y - 1) + DaysInYear(y - 1)
  }

  function DaysToYearOne(y: int): int
    requires y < 1
    decreases 1 - y
  {
    (if y == 0 then 0 else DaysToYearOne(y + 1)) + DaysInYear(y)
  }

  function DaysBeforeMonth(y: int, m: int): int
    requires 1 <= m <= 12
  {
    [0, 31, 59, 90, 120, 151, 181, 212, 243, 273, 304, 334][m - 1]
    + (if m > 2 && IsLeap(y) then 1 else 0)
  }

  function DayNumber(d: Date): int
    requires 1 <= d.month <= 12
  {
    DaysBeforeYear(d.year) + DaysBeforeMonth(d.year, d.month) + d.day - 1
  }

  lemma YearLength(y: int)
    ensures DaysBeforeYear(y + 1) == DaysBeforeYear(y) + DaysInYear(y)
  {
  }

  lemma MonthLength(y: int, m: int)
    requires 1 <= m <= 12
    ensures DaysBeforeMonth(y, m) + DaysIn(y, m)
            == if m < 12 then DaysBeforeMonth(y, m + 1) else DaysInYear(y)
    ensures 0 <= DaysBeforeMonth(y, m) && DaysBeforeMonth(y, m) + DaysIn(y, m) <= DaysInYear(y)
  {
  }

  lemma {:induction false} YearsGrow(y: int, z: int)
    requires y <= z
    ensures DaysBeforeYear(z) - DaysBeforeYear(y) >= 365 * (z - y)
    decreases z - y
  {
    if y < z {
      YearLength(z - 1);
      YearsGrow(y, z - 1);
    }
  }

  /** The date of day `n`: walk whole years from year 1, forwards or backwards, then whole months. */
  function DateOf(n: int): Date {
    if n >= 0 then FindYear(1, n) else FindYearBack(0, n)
  }

  function FindYear(y: int, n: int): Date
    requires DaysBeforeYear(y) <= n
    decreases n - DaysBeforeYear(y)
  {
    YearLength(y);
    if n < DaysBeforeYear(y + 1) then FindMonth(y, 1, n - DaysBeforeYear(y)) else FindYear(y + 1, n)
  }

  function FindYearBack(y: int, n: int): Date
    requires n < DaysBeforeYear(y + 1)
    decreases DaysBeforeYear(y + 1) - n
  {
    YearLength(y);
    if DaysBeforeYear(y) <= n then FindMonth(y, 1, n - DaysBeforeYear(y)) else FindYearBack(y - 1, n)
  }

  function FindMonth(y: int, m: int, r: int): Date
    requires 1 <= m <= 12 && DaysBeforeMonth(y, m) <= r
    decreases 12 - m
  {
    if m == 12 || r < DaysBeforeMonth(y, m + 1) then Date(y, m, r - DaysBeforeMonth(y, m) + 1)
    else FindMonth(y, m + 1, r)
  }

  lemma {:induction false} FindMonthCorrect(y: int, m: int, r: int)
    requires 1 <= m <= 12 && DaysBeforeMonth(y, m) <= r < DaysInYear(y)
    ensures ValidDate(FindMonth(y, m, r)) && FindMonth(y, m, r).year == y
    ensures DayNumber(FindMonth(y, m, r)) == DaysBeforeYear(y) + r
    decreases 12 - m
  {
    MonthLength(y, m);
    if !(m == 12 || r < DaysBeforeMonth(y, m + 1)) {
      FindMonthCorrect(y, m + 1, r);
    }
  }

  lemma {:induction false} FindYearCorrect(y: int, n: int)
    requires DaysBeforeYear(y) <= n
    ensures ValidDate(FindYear(y, n)) && DayNumber(FindYear(y, n)) == n
    decreases n - DaysBeforeYear(y)
  {
    YearLength(y);
    if n < DaysBeforeYear(y + 1) {
      FindMonthCorrect(y, 1, n - DaysBeforeYear(y));
    } else {
      FindYearCorrect(y + 1, n);
    }
  }

  lemma {:induction false} FindYearBackCorrect(y: int, n: int)
    requires n < DaysBeforeYear(y + 1)
    ensures ValidDate(FindYearBack(y, n)) && DayNumber(FindYearBack(y, n)) == n
    decreases DaysBeforeYear(y + 1) - n
  {
    YearLength(y);
    if DaysBeforeYear(y) <= n {
      FindMonthCorrect(y, 1, n - DaysBeforeYear(y));
    } else {
      FindYearBackCorrect(y - 1, n);
    }
  }

  /** Every day number has a date, and that date numbers back to the day. */
  lemma DateOfDayNumber(n: int)
    ensures ValidDate(DateOf(n)) && DayNumber(DateOf(n)) == n
  {
    if n >= 0 {
      FindYearCorrect(1, n);
    } else {
      FindYearBackCorrect(0, n);
    }
  }

  lemma DayNumberInYear(d: Date)
    requires ValidDate(d)
    ensures DaysBeforeYear(d.year) <= DayNumber(d) < DaysBeforeYear(d.year) + DaysInYear(d.year)
  {
    MonthLength(d.year, d.month);
  }

  lemma DayNumberInjective(a: Date, b: Date)
    requires ValidDate(a) && ValidDate(b) && DayNumber(a) == DayNumber(b)
    ensures a == b
  {
    DayNumberInYear(a);
    DayNumberInYear(b);
    YearLength(a.year);
    YearLength(b.year);
    if a.year < b.year {
      YearsGrow(a.year + 1, b.year);
    } else if b.year < a.year {
      YearsGrow(b.year + 1, a.year);
    } else {
      if a.month < b.month {
        MonthsSeparate(a, b);
      } else if b.month < a.month {
        MonthsSeparate(b, a);
      }
    }
  }

  lemma MonthsSeparate(a: Date, b: Date)
    requires ValidDate(a) && ValidDate(b) && a.year == b.year && a.month < b.month
    ensures DayNumber(a) < DayNumber(b)
  {
  }

  /** A valid date is the date of its own day number. */
  lemma DayNumberDateOf(d: Date)
    requires ValidDate(d)
    ensures DateOf(DayNumber(d)) == d
  {
    DateOfDayNumber(DayNumber(d));
    DayNumberInjective(DateOf(DayNumber(d)), d);
  }

  /** DateOf walks the calendar one day at a time, so it is the Gregorian calendar. */
  lemma DateOfIsGregorian(n: int)
    ensures ValidDate(DateOf(n)) && DateOf(n + 1) == Tomorrow(DateOf(n))
  {
    DateOfDayNumber(n);
    TomorrowNumber(DateOf(n));
    DayNumberDateOf(Tomorrow(DateOf(n)));
  }

  /** The calendar is anchored at Go's zero time: day 0 is Monday, 1 January of year 1. */
  lemma DayZero(first: Date)
    requires first.year == 1 && first.month == 1 && first.day == 1
    ensures DayNumber(first) == 0 && Weekday(DayNumber(first)) == 1
  {
  }

  lemma TomorrowNumber(d: Date)
    requires ValidDate(d)
    ensures ValidDate(Tomorrow(d)) && DayNumber(Tomorrow(d)) == DayNumber(d) + 1
  {
    MonthLength(d.year, d.month);
    YearLength(d.year);
  }

  /** Weekday of a day number, Sunday = 0, as time.Weekday numbers it. */
  function Weekday(n: int): int {
    (n + 1) % 7
  }

  /** Leap days before 1 January of year `y`: every fourth year, but not every hundredth, but every 400th. */
  function LeapDays(y: int): int {
    (y - 1) / 4 - (y - 1) / 100 + (y - 1) / 400
  }

  lemma NextMultiple(z: int)
    ensures (z + 1) / 4 == z / 4 + (if (z + 1) % 4 == 0 then 1 else 0)
    ensures (z + 1) / 100 == z / 100 + (if (z + 1) % 100 == 0 then 1 else 0)
    ensures (z + 1) / 400 == z / 400 + (if (z + 1) % 400 == 0 then 1 else 0)
  {
  }

  lemma MultiplesNest(y: int)
    ensures y % 400 == 0 ==> y % 100 == 0
    ensures y % 100 == 0 ==> y % 4 == 0
  {
  }

  lemma LeapDaysStep(y: int)
    ensures LeapDays(y + 1) == LeapDays(y) + if IsLeap(y) then 1 else 0
  {
    NextMultiple(y - 1);
    MultiplesNest(y);
  }

  lemma {:induction false} DaysInClosedForm(y: int)
    ensures DaysBeforeYear(y) == 365 * (y - 1) + LeapDays(y)
    decreases if y >= 1 then y else 2 - y
  {
    if y > 1 {
      DaysInClosedForm(y - 1);
      YearLength(y - 1);
      LeapDaysStep(y - 1);
    } else if y < 1 {
      DaysInClosedForm(y + 1);
      YearLength(y);
      LeapDaysStep(y);
    }
  }

  lemma FourCenturies(y: int)
    ensures LeapDays(y + 400) == LeapDays(y) + 97
    ensures IsLeap(y + 400) == IsLeap(y)
  {
    var z := y - 1;
    assert (z + 400) / 4 == z / 4 + 100;
    assert (z + 400) / 100 == z / 100 + 4;
    assert (z + 400) / 400 == z / 400 + 1;
  }

  /** The calendar repeats every 400 years, which are 146097 days and a whole number of weeks. */
  lemma CalendarRepeats(n: int)
    ensures var d := DateOf(n); DateOf(n + 146097) == Date(d.year + 400, d.month, d.day)
    ensures Weekday(n + 146097) == Weekday(n)
  {
    DateOfDayNumber(n);
    LaterDate(DateOf(n));
    DayNumberDateOf(Date(DateOf(n).year + 400, DateOf(n).month, DateOf(n).day));
  }

  lemma LaterDate(d: Date)
    requires ValidDate(d)
    ensures var later := Date(d.year + 400, d.month, d.day);
            ValidDate(later) && DayNumber(later) == DayNumber(d) + 146097
  {
    DaysInClosedForm(d.year);
    DaysInClosedForm(d.year + 400);
    FourCenturies(d.year);
  }

  // ---------------------------------------------------------------- minutes

  function DayOf(t: int): int { t / 1440 }
  function MonthOf(t: int): int { DateOf(DayOf(t)).month }
  function DayOfMonth(t: int): int { DateOf(DayOf(t)).day }
  function HourOf(t: int): int { (t % 1440) / 60 }
  function MinuteOf(t: int): int { t % 1440 % 60 }

  /** time.Date with zero seconds: month and day may overflow, and are normalised. */
  function MinuteAt(year: int, month: int, day: int, hour: int, minute: int): int {
    var first := Date(year + (month - 1) / 12, (month - 1) % 12 + 1, 1);
    (DayNumber(first) + day - 1) * 1440 + hour * 60 + minute
  }

  /** A wall-clock reading inside its range reads back unchanged: the normalisation is the identity there. */
  lemma MinuteAtReadsBack(d: Date, hour: int, minute: int)
    requires ValidDate(d) && 0 <= hour < 24 && 0 <= minute < 60
    ensures var t := MinuteAt(d.year, d.month, d.day, hour, minute);
            DayOf(t) == DayNumber(d) && DateOf(DayOf(t)) == d && HourOf(t) == hour && MinuteOf(t) == minute
  {
    DayNumberDateOf(d);
  }

  lemma MinuteReading(t: int)
    ensures 0 <= HourOf(t) < 24 && 0 <= MinuteOf(t) < 60
    ensures t == DayOf(t) * 1440 + HourOf(t) * 60 + MinuteOf(t)
  {
  }

  /** The month skip lands on the next month's first minute, and every minute skipped is in the same month. */
  lemma SameMonthUntilNextFirst(t: int, u: int)
    requires var d := DateOf(DayOf(t)); t <= u < MinuteAt(d.year, d.month + 1, 1, 0, 0)
    ensures MonthOf(u) == MonthOf(t)
  {
    DateOfDayNumber(DayOf(t));
    var d := DateOf(DayOf(t));
    NextFirst(d);
    var e := Date(d.year, d.month, d.day + DayOf(u) - DayOf(t));
    assert ValidDate(e) && DayNumber(e) == DayOf(u);
    DayNumberDateOf(e);
  }

  lemma NextFirst(d: Date)
    requires ValidDate(d)
    ensures MinuteAt(d.year, d.month + 1, 1, 0, 0)
            == (DayNumber(d) - d.day + 1 + DaysIn(d.year, d.month)) * 1440
  {
    MonthLength(d.year, d.month);
    YearLength(d.year);
  }

  /** The day skip lands on the next midnight. */
  lemma NextMidnight(t: int)
    ensures var d := DateOf(DayOf(t));
            MinuteAt(d.year, d.month, d.day + 1, 0, 0) == (DayOf(t) + 1) * 1440
  {
    DateOfDayNumber(DayOf(t));
  }

  /** The hour skip lands on the next full hour. */
  lemma NextFullHour(t: int)
    ensures var d := DateOf(DayOf(t));
            MinuteAt(d.year, d.month, d.day, HourOf(t) + 1, 0)
            == DayOf(t) * 1440 + (HourOf(t) + 1) * 60
  {
    DateOfDayNumber(DayOf(t));
  }

  lemma NextFirstLater(t: int)
    ensures var d := DateOf(DayOf(t)); t < MinuteAt(d.year, d.month + 1, 1, 0, 0)
  {
    DateOfDayNumber(DayOf(t));
    NextFirst(DateOf(DayOf(t)));
  }

  lemma SameDay(t: int, u: int)
    requires t <= u < (DayOf(t) + 1) * 1440
    ensures DayOf(u) == DayOf(t)
  {
  }

  lemma SameHour(t: int, u: int)
    requires t <= u < DayOf(t) * 1440 + (HourOf(t) + 1) * 60
    ensures DayOf(u) == DayOf(t) && HourOf(u) == HourOf(t)
  {
    MinuteReading(t);
  }
}
