/**
The proleptic Gregorian calendar, by counting days. Day 0 is 1970-01-01, a Thursday. A closed form of the day number is
the independent reference for the counting.
*/
module Calendar {

  datatype Date = Date(year: int, month: int, day: int)

  predicate IsLeap(year: int) {
    (year % 4 == 0 && year % 100 != 0) || year % 400 == 0
  }

  function DaysInMonth(year: int, month: int): (days: int)
    ensures 28 <= days <= 31
  {
    if month == 2 then if IsLeap(year) then 29 else 28
    else if month == 4 || month == 6 || month == 9 || month == 11 then 30
    else 31
  }

  predicate ValidDate(d: Date) {
    1 <= d.month <= 12 && 1 <= d.day <= DaysInMonth(d.year, d.month)
  }

  function NextDay(d: Date): Date {
    if d.day < DaysInMonth(d.year, d.month) then d.(day := d.day + 1)
    else if d.month < 12 then Date(d.year, d.month + 1, 1)
    else Date(d.year + 1, 1, 1)
  }

  function PrevDay(d: Date): Date {
    if d.day > 1 then d.(day := d.day - 1)
    else if d.month > 1 then Date(d.year, d.month - 1, DaysInMonth(d.year, d.month - 1))
    else Date(d.year - 1, 12, 31)
  }

  /** The date `n` days after 1970-01-01. */
  function CivilOf(n: int): (d: Date)
    ensures ValidDate(d)
    decreases if n < 0 then -n else n
  {
    if n == 0 then Date(1970, 1, 1)
    else if n > 0 then NextDay(CivilOf(n - 1))
    else PrevDay(CivilOf(n + 1))
  }

  lemma PrevThenNext(d: Date)
    requires ValidDate(d)
    ensures NextDay(PrevDay(d)) == d && PrevDay(NextDay(d)) == d
  {
  }

  /** Consecutive day numbers are consecutive dates, before and after the epoch alike. */
  lemma CivilStep(n: int)
    ensures CivilOf(n + 1) == NextDay(CivilOf(n)) && CivilOf(n) == PrevDay(CivilOf(n + 1))
  {
    PrevThenNext(CivilOf(n));
    PrevThenNext(CivilOf(n + 1));
  }

  // ---------------------------------------------------------------- the closed form

  function DaysBeforeYear(year: int): int {
    365 * (year - 1) + (year - 1) / 4 - (year - 1) / 100 + (year - 1) / 400
  }

  function DaysBeforeMonth(year: int, month: int): int
    decreases month
  {
    if month <= 1 then 0 else DaysBeforeMonth(year, month - 1) + DaysInMonth(year, month - 1)
  }

  function DayNumber(d: Date): int {
    DaysBeforeYear(d.year) - DaysBeforeYear(1970) + DaysBeforeMonth(d.year, d.month) + d.day - 1
  }

  lemma YearLength(year: int)
    ensures DaysBeforeYear(year + 1) == DaysBeforeYear(year) + (if IsLeap(year) then 366 else 365)
  {
    NextQuotient(year - 1, 4);
    NextQuotient(year - 1, 100);
    NextQuotient(year - 1, 400);
    CenturiesAreFourths(year);
  }

  lemma CenturiesAreFourths(year: int)
    ensures year % 100 == 0 ==> year % 4 == 0
    ensures year % 400 == 0 ==> year % 100 == 0
  {
  }

  lemma NextQuotient(a: int, n: int)
    requires n == 4 || n == 100 || n == 400
    ensures (a + 1) / n == a / n + (if (a + 1) % n == 0 then 1 else 0)
  {
  }

  lemma MonthsFillTheYear(year: int)
    ensures DaysBeforeMonth(year, 12) + 31 == if IsLeap(year) then 366 else 365
  {
    assert DaysBeforeMonth(year, 3) == 31 + DaysInMonth(year, 2);
    assert DaysBeforeMonth(year, 6) == DaysBeforeMonth(year, 3) + 92;
    assert DaysBeforeMonth(year, 9) == DaysBeforeMonth(year, 6) + 92;
    assert DaysBeforeMonth(year, 12) == DaysBeforeMonth(year, 9) + 91;
  }

  lemma NextDayCounts(d: Date)
    requires ValidDate(d)
    ensures DayNumber(NextDay(d)) == DayNumber(d) + 1
  {
    if d.month == 12 && d.day == 31 {
      YearLength(d.year);
      MonthsFillTheYear(d.year);
    }
  }

  /** Counting agrees with the closed form on every day. */
  lemma {:induction false} CivilHasItsNumber(n: int)
    ensures DayNumber(CivilOf(n)) == n
    decreases if n < 0 then -n else n
  {
    if n > 0 {
      CivilHasItsNumber(n - 1);
      NextDayCounts(CivilOf(n - 1));
    } else if n < 0 {
      CivilHasItsNumber(n + 1);
      PrevThenNext(CivilOf(n + 1));
      NextDayCounts(CivilOf(n));
    }
  }

  lemma {:induction false} MonthsAreOrdered(year: int, a: int, b: int)
    requires 1 <= a < b <= 12
    ensures DaysBeforeMonth(year, a) + DaysInMonth(year, a) <= DaysBeforeMonth(year, b)
    decreases b
  {
    if a < b - 1 {
      MonthsAreOrdered(year, a, b - 1);
    }
  }

  lemma {:induction false} YearsAreOrdered(a: int, b: int)
    requires a < b
    ensures DaysBeforeYear(a + 1) <= DaysBeforeYear(b)
    decreases b - a
  {
    if a + 1 < b {
      YearsAreOrdered(a, b - 1);
      YearLength(b - 1);
    }
  }

  lemma DayInYear(d: Date)
    requires ValidDate(d)
    ensures DaysBeforeYear(d.year) <= DayNumber(d) + DaysBeforeYear(1970) < DaysBeforeYear(d.year + 1)
  {
    if d.month < 12 {
      MonthsAreOrdered(d.year, d.month, 12);
    }
    if 1 < d.month {
      MonthsAreOrdered(d.year, 1, d.month);
    }
    MonthsFillTheYear(d.year);
    YearLength(d.year);
  }

  /** No two dates have the same number. */
  lemma NumbersAreDistinct(a: Date, b: Date)
    requires ValidDate(a) && ValidDate(b) && DayNumber(a) == DayNumber(b)
    ensures a == b
  {
    DayInYear(a);
    DayInYear(b);
    if a.year != b.year {
      YearsAreOrdered(if a.year < b.year then a.year else b.year, if a.year < b.year then b.year else a.year);
    } else if a.month != b.month {
      MonthsAreOrdered(a.year, if a.month < b.month then a.month else b.month,
                       if a.month < b.month then b.month else a.month);
    }
  }

  /** The day numbers are exactly the valid dates, one to one. */
  lemma CalendarIsABijection(n: int, d: Date)
    requires ValidDate(d)
    ensures CivilOf(n) == d <==> DayNumber(d) == n
  {
    CivilHasItsNumber(n);
    if DayNumber(d) == n {
      NumbersAreDistinct(CivilOf(n), d);
    }
  }

  // ---------------------------------------------------------------- weekdays and days of the month

  /** Sunday is 0; 1970-01-01 was a Thursday. */
  function Weekday(n: int): (w: int)
    ensures 0 <= w < 7
  {
    (n + 4) % 7
  }

  /** The month table of the classical weekday rule, with January and February counted to the year before. */
  function MonthShift(month: int): int {
    if month == 1 then 0 else if month == 2 then 3 else if month == 3 then 2 else if month == 4 then 5
    else if month == 5 then 0 else if month == 6 then 3 else if month == 7 then 5 else if month == 8 then 1
    else if month == 9 then 4 else if month == 10 then 6 else if month == 11 then 2 else 4
  }

  /** The weekday of a date read off its year, month and day; Sunday is 0. */
  function WeekdayOf(d: Date): int {
    var y := if d.month <= 2 then d.year - 1 else d.year;
    (y + y / 4 - y / 100 + y / 400 + MonthShift(d.month) + d.day) % 7
  }

  lemma SameRemainder(a: int, b: int, k: int)
    requires a == b + 7 * k
    ensures a % 7 == b % 7
  {
  }

  /** Up to whole weeks, the days before a month are the entry of the table. */
  lemma MonthShiftCounts(year: int, month: int) returns (weeks: int)
    requires 1 <= month <= 12
    ensures DaysBeforeMonth(year, month) ==
            MonthShift(month) + 7 * weeks + (if month <= 2 then 0 else if IsLeap(year) then 2 else 1)
  {
    assert DaysBeforeMonth(year, 3) == 31 + DaysInMonth(year, 2);
    assert DaysBeforeMonth(year, 6) == DaysBeforeMonth(year, 3) + 92;
    assert DaysBeforeMonth(year, 9) == DaysBeforeMonth(year, 6) + 92;
    assert DaysBeforeMonth(year, 12) == DaysBeforeMonth(year, 9) + 91;
    weeks := (DaysBeforeMonth(year, month) - MonthShift(month)
              - (if month <= 2 then 0 else if IsLeap(year) then 2 else 1)) / 7;
  }

  /** Counting the days of the week agrees with the classical rule on every date. */
  lemma WeekdayIsWeekdayOf(d: Date)
    requires ValidDate(d)
    ensures Weekday(DayNumber(d)) == WeekdayOf(d)
  {
    var weeks := MonthShiftCounts(d.year, d.month);
    var before := (d.year - 1) + (d.year - 1) / 4 - (d.year - 1) / 100 + (d.year - 1) / 400;
    assert DayNumber(d) + 4 == 364 * (d.year - 1) + before - 719162 + DaysBeforeMonth(d.year, d.month) + d.day + 3;
    YearLength(d.year);
    var y := if d.month <= 2 then d.year - 1 else d.year;
    var rule := y + y / 4 - y / 100 + y / 400 + MonthShift(d.month) + d.day;
    SameRemainder(DayNumber(d) + 4, rule, 52 * (d.year - 1) - 102737 + weeks);
  }

  /** Consecutive days have consecutive weekdays. */
  lemma WeekdaysFollow(n: int)
    ensures Weekday(n + 1) == (Weekday(n) + 1) % 7
    ensures WeekdayOf(NextDay(CivilOf(n))) == (WeekdayOf(CivilOf(n)) + 1) % 7
  {
    hide WeekdayOf, DayNumber, CivilOf, NextDay, PrevDay;
    CivilHasItsNumber(n);
    CivilHasItsNumber(n + 1);
    CivilStep(n);
    WeekdayIsWeekdayOf(CivilOf(n));
    WeekdayIsWeekdayOf(CivilOf(n + 1));
  }

  /** Any seven consecutive days contain every weekday. */
  lemma WeekContains(from: int, weekday: int) returns (n: int)
    requires 0 <= weekday < 7
    ensures from <= n < from + 7 && Weekday(n) == weekday
  {
    n := from + (weekday - Weekday(from)) % 7;
  }

  lemma {:induction false} BackWithinMonth(n: int, k: nat)
    requires k < CivilOf(n).day
    ensures CivilOf(n - k) == CivilOf(n).(day := CivilOf(n).day - k)
    decreases k
  {
    if k > 0 {
      BackWithinMonth(n, k - 1);
      CivilStep(n - k);
    }
  }

  /** Any 31 consecutive days contain every day of the month that all months have. */
  lemma MonthContains(from: int, day: int) returns (n: int)
    requires 1 <= day <= 28
    ensures from <= n < from + 31 && CivilOf(n).day == day
  {
    var last := from + 30;
    var d := CivilOf(last).day;
    if day <= d {
      n := last - (d - day);
      BackWithinMonth(last, d - day);
    } else {
      var end := last - d;
      BackWithinMonth(last, d - 1);
      CivilStep(end);
      assert CivilOf(end + 1).day == 1;
      var m := CivilOf(end).day;
      n := end - (m - day);
      BackWithinMonth(end, m - day);
    }
  }
}
