/**
Daily, monthly and interval schedules: the bounded scans over civil dates find the greatest occurrence up to an
instant and the least one after it.

A time zone is a pair of functions, from instants to local dates and from local date and time to instants. Fixed
offsets, UTC among them, are built here; a named zone is any pair that satisfies `Regular`, where a skipped local time
may move a slot into the next day (`slip` is 1) and local dates never go back.
*/
module Schedule {
  import opened Prelude
  import opened Jobs
  import opened Calendar
  import Cron

  const MINUTE: Time := 60 * SECOND
  const HOUR: Time := 60 * MINUTE
  const DAY: Time := 24 * HOUR

  datatype Rule =
    | Daily(hour: int, minute: int, weekdays: Option<seq<int>>)
    | Monthly(day: int, hour: int, minute: int)

  /** What the constructors assert. */
  predicate ValidRule(rule: Rule) {
    && 0 <= rule.hour < 24 && 0 <= rule.minute < 60
    && (rule.Daily? && rule.weekdays.Some? ==>
          rule.weekdays.value != [] && forall w :: w in rule.weekdays.value ==> 0 <= w < 7)
    && (rule.Monthly? ==> 1 <= rule.day <= 28)
  }

  predicate Matches(rule: Rule, day: int) {
    match rule
    case Daily(_, _, weekdays) => weekdays.None? || Weekday(day) in weekdays.value
    case Monthly(d, _, _) => CivilOf(day).day == d
  }

  /** How many consecutive days are sure to contain a matching one. */
  function Window(rule: Rule): int {
    if rule.Daily? then 7 else 31
  }

  /** The last day offset the scans try. */
  function LastOffset(rule: Rule): int {
    if rule.Daily? then 8 else 370
  }

  lemma WindowHasMatch(rule: Rule, from: int) returns (day: int)
    requires ValidRule(rule)
    ensures from <= day < from + Window(rule) && Matches(rule, day)
  {
    match rule
    case Daily(_, _, weekdays) =>
      if weekdays.None? {
        day := from;
      } else {
        var w := weekdays.value[0];
        assert w in weekdays.value;
        day := WeekContains(from, w);
      }
    case Monthly(d, _, _) => day := MonthContains(from, d);
  }

  // ---------------------------------------------------------------- time zones

  datatype Zone = Zone(dateOf: Time -> int, instantOf: (int, int, int) -> Time)

  function At(z: Zone, rule: Rule, day: int): Time {
    z.instantOf(day, rule.hour, rule.minute)
  }

  /**
  Local dates follow the instants, slots follow the dates, and a slot lies on its date or up to `slip` days after.
  */
  ghost predicate Regular(z: Zone, rule: Rule, slip: int) {
    && 0 <= slip <= 1
    && (forall a, b :: a <= b ==> z.dateOf(a) <= z.dateOf(b))
    && (forall a, b :: a <= b ==> At(z, rule, a) <= At(z, rule, b))
    && (forall day :: day <= z.dateOf(At(z, rule, day)) <= day + slip)
  }

  /** Slots of different days are different instants. */
  ghost predicate SlotsDiffer(z: Zone, rule: Rule) {
    forall a, b :: a < b ==> At(z, rule, a) < At(z, rule, b)
  }

  function TimeOfDay(hour: int, minute: int): (t: Time)
    ensures 0 <= hour < 24 && 0 <= minute < 60 ==> 0 <= t < DAY
  {
    hour * HOUR + minute * MINUTE
  }

  function FixedZone(offset: Time): Zone {
    Zone((t: Time) => (t + offset) / DAY,
         (day: int, hour: int, minute: int) => day * DAY + TimeOfDay(hour, minute) - offset)
  }

  lemma FixedZoneDates(offset: Time, rule: Rule, day: int)
    requires ValidRule(rule)
    ensures FixedZone(offset).dateOf(At(FixedZone(offset), rule, day)) == day
    ensures At(FixedZone(offset), rule, day) < At(FixedZone(offset), rule, day + 1)
  {
    hide TimeOfDay;
    var t := TimeOfDay(rule.hour, rule.minute);
    assert (day + 1) * DAY == day * DAY + DAY;
    DivIs(day * DAY + t, DAY, day);
    assert day * DAY + t - offset + offset == day * DAY + t;
  }

  lemma FixedZoneSlots(offset: Time, rule: Rule, a: int, b: int)
    requires a <= b
    ensures At(FixedZone(offset), rule, a) <= At(FixedZone(offset), rule, b)
    ensures a < b ==> At(FixedZone(offset), rule, a) < At(FixedZone(offset), rule, b)
  {
    hide TimeOfDay;
    MulMonotone(a, b, DAY);
    if a < b {
      MulMonotone(a + 1, b, DAY);
      assert (a + 1) * DAY == a * DAY + DAY;
    }
  }

  /** UTC and every fixed offset: no slot ever slips. */
  lemma FixedZoneIsRegular(offset: Time, rule: Rule)
    requires ValidRule(rule)
    ensures Regular(FixedZone(offset), rule, 0) && SlotsDiffer(FixedZone(offset), rule)
  {
    var z := FixedZone(offset);
    forall a: Time, b: Time | a <= b ensures z.dateOf(a) <= z.dateOf(b) {
      DivMonotone(a + offset, b + offset, DAY);
    }
    hide At;
    forall a: int, b: int | a <= b
      ensures At(z, rule, a) <= At(z, rule, b) && (a < b ==> At(z, rule, a) < At(z, rule, b))
    {
      FixedZoneSlots(offset, rule, a, b);
    }
    forall day: int ensures z.dateOf(At(z, rule, day)) == day {
      FixedZoneDates(offset, rule, day);
    }
    hide FixedZone;
  }

  // ---------------------------------------------------------------- the declarative meaning

  ghost predicate Occurs(z: Zone, rule: Rule, t: Time) {
    exists day :: Matches(rule, day) && At(z, rule, day) == t
  }

  ghost predicate IsLatest(z: Zone, rule: Rule, now: Time, t: Time) {
    Occurs(z, rule, t) && t <= now && forall o :: Occurs(z, rule, o) && o <= now ==> o <= t
  }

  ghost predicate IsNextAfter(z: Zone, rule: Rule, after: Time, t: Time) {
    Occurs(z, rule, t) && after < t && forall o :: Occurs(z, rule, o) && after < o ==> t <= o
  }

  /** The calendar shows one of the schedule's weekdays, or its day of the month. */
  predicate OnListedDate(rule: Rule, d: Date) {
    match rule
    case Daily(_, _, weekdays) => weekdays.None? || WeekdayOf(d) in weekdays.value
    case Monthly(day, _, _) => d.day == day
  }

  lemma MatchesOnTheCalendar(rule: Rule, day: int)
    ensures Matches(rule, day) <==> OnListedDate(rule, CivilOf(day))
  {
    CivilHasItsNumber(day);
    WeekdayIsWeekdayOf(CivilOf(day));
    hide WeekdayOf, DayNumber, CivilOf, Weekday;
  }

  /** What a clock and a calendar at a fixed offset show at an instant. */
  function LocalDate(offset: Time, t: Time): Date {
    CivilOf((t + offset) / DAY)
  }

  function LocalHour(offset: Time, t: Time): int {
    ((t + offset) % DAY) / HOUR
  }

  function LocalMinute(offset: Time, t: Time): int {
    ((t + offset) % HOUR) / MINUTE
  }

  lemma ClockReads(offset: Time, day: int, hour: int, minute: int)
    requires 0 <= hour < 24 && 0 <= minute < 60
    ensures var t := day * DAY + TimeOfDay(hour, minute) - offset;
            && (t + offset) / DAY == day && LocalHour(offset, t) == hour && LocalMinute(offset, t) == minute
            && (t + offset) % MINUTE == 0
  {
    var t := day * DAY + TimeOfDay(hour, minute);
    RestIs(t, DAY, day, TimeOfDay(hour, minute));
    RestIs(TimeOfDay(hour, minute), HOUR, hour, minute * MINUTE);
    RestIs(t, HOUR, day * 24 + hour, minute * MINUTE);
    RestIs(minute * MINUTE, MINUTE, minute, 0);
    RestIs(t, MINUTE, (day * 24 + hour) * 60 + minute, 0);
  }

  /**
  On the wall: at a fixed offset, an instant is an occurrence exactly when the clock shows the schedule's hour and
  minute, with no seconds past it, and the calendar one of its weekdays or its day of the month.
  */
  lemma OccursExactlyWhen(offset: Time, rule: Rule, t: Time)
    requires ValidRule(rule)
    ensures Occurs(FixedZone(offset), rule, t) <==>
            && LocalHour(offset, t) == rule.hour && LocalMinute(offset, t) == rule.minute
            && (t + offset) % MINUTE == 0 && OnListedDate(rule, LocalDate(offset, t))
  {
    var z := FixedZone(offset);
    var today := (t + offset) / DAY;
    MatchesOnTheCalendar(rule, today);
    ClockReads(offset, today, rule.hour, rule.minute);
    if Occurs(z, rule, t) {
      var day :| Matches(rule, day) && At(z, rule, day) == t;
      ClockReads(offset, day, rule.hour, rule.minute);
    }
    if LocalHour(offset, t) == rule.hour && LocalMinute(offset, t) == rule.minute && (t + offset) % MINUTE == 0 {
      ClockTells(offset, t);
      assert At(z, rule, today) == t;
    }
  }

  /** Date, hour, minute and no seconds determine the instant. */
  lemma ClockTells(offset: Time, t: Time)
    requires (t + offset) % MINUTE == 0
    ensures t + offset == ((t + offset) / DAY) * DAY + TimeOfDay(LocalHour(offset, t), LocalMinute(offset, t))
  {
    var u := t + offset;
    var day, inDay := u / DAY, u % DAY;
    var hour, inHour := inDay / HOUR, inDay % HOUR;
    var minute, inMinute := inHour / MINUTE, inHour % MINUTE;
    RestIs(u, HOUR, day * 24 + hour, inHour);
    RestIs(u, MINUTE, (day * 24 + hour) * 60 + minute, inMinute);
  }

  /** The instant is the schedule's time on a date it lists. */
  ghost predicate OnListedSlot(z: Zone, rule: Rule, t: Time) {
    exists day :: At(z, rule, day) == t && OnListedDate(rule, CivilOf(day))
  }

  lemma OccurrencesAreListed(z: Zone, rule: Rule, t: Time)
    ensures Occurs(z, rule, t) <==> OnListedSlot(z, rule, t)
  {
    hide Matches, At, OnListedDate, CivilOf;
    if Occurs(z, rule, t) {
      var day :| Matches(rule, day) && At(z, rule, day) == t;
      MatchesOnTheCalendar(rule, day);
    }
    if OnListedSlot(z, rule, t) {
      var day :| At(z, rule, day) == t && OnListedDate(rule, CivilOf(day));
      MatchesOnTheCalendar(rule, day);
    }
  }

  // ---------------------------------------------------------------- the scans

  predicate HitBack(z: Zone, rule: Rule, now: Time, offset: int) {
    var day := z.dateOf(now) - offset;
    Matches(rule, day) && At(z, rule, day) <= now
  }

  predicate HitForward(z: Zone, rule: Rule, after: Time, offset: int) {
    var day := z.dateOf(after) + offset;
    Matches(rule, day) && At(z, rule, day) > after
  }

  /** The scan stops at the first day that matches and whose slot is not in the future. */
  ghost predicate ScannedBack(z: Zone, rule: Rule, now: Time, r: Option<Time>) {
    match r
    case None => forall k :: 0 <= k <= LastOffset(rule) ==> !HitBack(z, rule, now, k)
    case Some(t) =>
      exists k :: 0 <= k <= LastOffset(rule) && HitBack(z, rule, now, k) && t == At(z, rule, z.dateOf(now) - k)
                  && forall j :: 0 <= j < k ==> !HitBack(z, rule, now, j)
  }

  ghost predicate ScannedForward(z: Zone, rule: Rule, after: Time, r: Option<Time>) {
    match r
    case None => forall k :: 0 <= k <= LastOffset(rule) ==> !HitForward(z, rule, after, k)
    case Some(t) =>
      exists k :: 0 <= k <= LastOffset(rule) && HitForward(z, rule, after, k) && t == At(z, rule, z.dateOf(after) + k)
                  && forall j :: 0 <= j < k ==> !HitForward(z, rule, after, j)
  }

  /** `latest_daily_due_at` and `latest_monthly_due_at`. */
  method LatestDueAt(z: Zone, rule: Rule, now: Time) returns (r: Option<Time>)
    requires ValidRule(rule)
    ensures ScannedBack(z, rule, now, r)
    ensures forall slip :: Regular(z, rule, slip) ==> r.Some? && IsLatest(z, rule, now, r.value)
    ensures r.Some? ==> OnListedSlot(z, rule, r.value)
  {
    r := None;
    for offset := 0 to LastOffset(rule) + 1
      invariant forall k :: 0 <= k < offset ==> !HitBack(z, rule, now, k)
    {
      var date := z.dateOf(now) - offset;
      if Matches(rule, date) {
        var candidate := At(z, rule, date);
        if candidate <= now {
          assert HitBack(z, rule, now, offset);
          LatestForAnyZone(z, rule, now, Some(candidate));
          OccurrencesAreListed(z, rule, candidate);
          return Some(candidate);
        }
      }
    }
    LatestForAnyZone(z, rule, now, None);
  }

  lemma LatestForAnyZone(z: Zone, rule: Rule, now: Time, r: Option<Time>)
    requires ValidRule(rule) && ScannedBack(z, rule, now, r)
    ensures forall slip :: Regular(z, rule, slip) ==> r.Some? && IsLatest(z, rule, now, r.value)
  {
    forall slip | Regular(z, rule, slip) ensures r.Some? && IsLatest(z, rule, now, r.value) {
      BackScanSucceeds(z, rule, slip, now);
      LatestIsGreatest(z, rule, slip, now, r);
    }
  }

  /** `next_daily_after` and `next_monthly_after`, with the fixed fallback of each when the scan finds nothing. */
  method NextAfter(z: Zone, rule: Rule, after: Time) returns (t: Time)
    requires ValidRule(rule)
    ensures || ScannedForward(z, rule, after, Some(t))
            || (ScannedForward(z, rule, after, None) && t == after + (if rule.Daily? then 1 else 31) * DAY)
    ensures forall slip :: Regular(z, rule, slip) ==>
              OnListedSlot(z, rule, t) && (IsNextAfter(z, rule, after, t) <==> !SlotSkipped(z, rule, after, t))
  {
    for offset := 0 to LastOffset(rule) + 1
      invariant forall k :: 0 <= k < offset ==> !HitForward(z, rule, after, k)
    {
      var date := z.dateOf(after) + offset;
      if Matches(rule, date) {
        var candidate := At(z, rule, date);
        if candidate > after {
          assert HitForward(z, rule, after, offset);
          NextForAnyZone(z, rule, after, Some(candidate));
          OccurrencesAreListed(z, rule, candidate);
          return candidate;
        }
      }
    }
    NextForAnyZone(z, rule, after, None);
    t := after + (if rule.Daily? then 1 else 31) * DAY;
  }

  lemma NextForAnyZone(z: Zone, rule: Rule, after: Time, r: Option<Time>)
    requires ValidRule(rule) && ScannedForward(z, rule, after, r)
    ensures forall slip :: Regular(z, rule, slip) ==>
              r.Some? && (IsNextAfter(z, rule, after, r.value) <==> !SlotSkipped(z, rule, after, r.value))
  {
    forall slip | Regular(z, rule, slip)
      ensures r.Some? && (IsNextAfter(z, rule, after, r.value) <==> !SlotSkipped(z, rule, after, r.value))
    {
      NextIsLeastExactlyWhen(z, rule, slip, after, r);
    }
  }

  // ---------------------------------------------------------------- backward

  lemma OldSlotsArePast(z: Zone, rule: Rule, slip: int, now: Time, day: int)
    requires Regular(z, rule, slip) && day + slip < z.dateOf(now)
    ensures At(z, rule, day) <= now
  {
    assert z.dateOf(At(z, rule, day)) < z.dateOf(now);
  }

  lemma LaterSlotsAreAhead(z: Zone, rule: Rule, slip: int, after: Time, day: int)
    requires Regular(z, rule, slip) && z.dateOf(after) < day
    ensures At(z, rule, day) > after
  {
    assert z.dateOf(after) < z.dateOf(At(z, rule, day));
  }

  /** The backward scan always finds something, within the window plus the slip: 7 or 8 days, 31 or 32 for a month. */
  lemma BackScanSucceeds(z: Zone, rule: Rule, slip: int, now: Time)
    requires ValidRule(rule) && Regular(z, rule, slip)
    ensures exists k :: 0 <= k <= Window(rule) + slip <= LastOffset(rule) && HitBack(z, rule, now, k)
  {
    var today := z.dateOf(now);
    var day := WindowHasMatch(rule, today - slip - Window(rule));
    OldSlotsArePast(z, rule, slip, now, day);
    assert today - (today - day) == day;
    assert HitBack(z, rule, now, today - day);
  }

  /** What it finds is the greatest occurrence up to `now`, and it never falls through to `None`. */
  lemma LatestIsGreatest(z: Zone, rule: Rule, slip: int, now: Time, r: Option<Time>)
    requires ValidRule(rule) && Regular(z, rule, slip) && ScannedBack(z, rule, now, r)
    ensures r.Some? && IsLatest(z, rule, now, r.value)
  {
    hide Matches, At, LastOffset, ValidRule;
    BackScanSucceeds(z, rule, slip, now);
    var today := z.dateOf(now);
    var k :| 0 <= k <= LastOffset(rule) && HitBack(z, rule, now, k) && r.value == At(z, rule, today - k)
             && forall j :: 0 <= j < k ==> !HitBack(z, rule, now, j);
    forall o | Occurs(z, rule, o) && o <= now ensures o <= r.value {
      var day :| Matches(rule, day) && At(z, rule, day) == o;
      assert day <= z.dateOf(o) <= today;
      assert today - (today - day) == day;
      assert HitBack(z, rule, now, today - day);
      assert today - day >= k;
    }
  }

  // ---------------------------------------------------------------- forward

  lemma ForwardScanSucceeds(z: Zone, rule: Rule, slip: int, after: Time)
    requires ValidRule(rule) && Regular(z, rule, slip)
    ensures exists k :: 0 <= k <= Window(rule) <= LastOffset(rule) && HitForward(z, rule, after, k)
  {
    var today := z.dateOf(after);
    var day := WindowHasMatch(rule, today + 1);
    LaterSlotsAreAhead(z, rule, slip, after, day);
    assert today + (day - today) == day;
    assert HitForward(z, rule, after, day - today);
  }

  /** Yesterday's slot moved past midnight and is still to come. The forward scan starts today and does not see it. */
  predicate SlotSlippedAhead(z: Zone, rule: Rule, after: Time) {
    Matches(rule, z.dateOf(after) - 1) && At(z, rule, z.dateOf(after) - 1) > after
  }

  /** That slot precedes what the scan found, instead of being the same instant. */
  predicate SlotSkipped(z: Zone, rule: Rule, after: Time, found: Time) {
    SlotSlippedAhead(z, rule, after) && At(z, rule, z.dateOf(after) - 1) < found
  }

  lemma FoundOccurs(z: Zone, rule: Rule, after: Time, next: Option<Time>)
    requires ScannedForward(z, rule, after, next) && next.Some?
    ensures Occurs(z, rule, next.value) && after < next.value
  {
    hide Matches, At, LastOffset;
  }

  /** What the scan finds precedes every later occurrence but a skipped one. */
  lemma FoundPrecedes(z: Zone, rule: Rule, slip: int, after: Time, t: Time, day: int)
    requires Regular(z, rule, slip) && ScannedForward(z, rule, after, Some(t)) && ValidRule(rule)
    requires Matches(rule, day) && after < At(z, rule, day) && !SlotSkipped(z, rule, after, t)
    ensures t <= At(z, rule, day)
  {
    hide Matches, At, LastOffset, ValidRule;
    var today := z.dateOf(after);
    var k :| 0 <= k <= LastOffset(rule) && HitForward(z, rule, after, k) && t == At(z, rule, today + k)
             && forall j :: 0 <= j < k ==> !HitForward(z, rule, after, j);
    assert today <= z.dateOf(At(z, rule, day)) <= day + slip;
    if day != today - 1 {
      assert today + (day - today) == day;
      assert HitForward(z, rule, after, day - today);
      assert day - today >= k;
    }
  }

  /**
  The scan never needs its fallback, and it returns the least occurrence after the instant exactly when it skips no slot
  that slipped past midnight. Where a whole date is left out, two days share a slot and nothing is skipped.
  */
  lemma NextIsLeastExactlyWhen(z: Zone, rule: Rule, slip: int, after: Time, r: Option<Time>)
    requires ValidRule(rule) && Regular(z, rule, slip) && ScannedForward(z, rule, after, r)
    ensures r.Some?
    ensures IsNextAfter(z, rule, after, r.value) <==> !SlotSkipped(z, rule, after, r.value)
  {
    ForwardScanSucceeds(z, rule, slip, after);
    FoundOccurs(z, rule, after, r);
    if SlotSkipped(z, rule, after, r.value) {
      assert Occurs(z, rule, At(z, rule, z.dateOf(after) - 1));
    } else {
      forall o | Occurs(z, rule, o) && after < o ensures r.value <= o {
        var day :| Matches(rule, day) && At(z, rule, day) == o;
        FoundPrecedes(z, rule, slip, after, r.value, day);
      }
    }
    hide Matches, At, Regular, ScannedForward;
  }

  /** In particular when no slot is ahead of the instant that slipped there. */
  lemma NextIsLeast(z: Zone, rule: Rule, slip: int, after: Time, r: Option<Time>)
    requires ValidRule(rule) && Regular(z, rule, slip) && ScannedForward(z, rule, after, r)
    requires !SlotSlippedAhead(z, rule, after)
    ensures r.Some? && IsNextAfter(z, rule, after, r.value)
  {
    NextIsLeastExactlyWhen(z, rule, slip, after, r);
  }

  /** With no slip the condition never fails: fixed offsets are always right. */
  lemma NoSlipNoMiss(z: Zone, rule: Rule, after: Time)
    requires Regular(z, rule, 0)
    ensures !SlotSlippedAhead(z, rule, after)
  {
    var day := z.dateOf(after) - 1;
    assert z.dateOf(At(z, rule, day)) == day;
  }

  /** After an occurrence the scan is right in every regular zone, slips or not; this is how the cron loop uses it. */
  lemma NextAfterOccurrence(z: Zone, rule: Rule, slip: int, after: Time, r: Option<Time>)
    requires ValidRule(rule) && Regular(z, rule, slip) && Occurs(z, rule, after) && ScannedForward(z, rule, after, r)
    ensures r.Some? && IsNextAfter(z, rule, after, r.value)
  {
    NothingSlippedPastAnOccurrence(z, rule, slip, after);
    NextIsLeast(z, rule, slip, after, r);
  }

  lemma NothingSlippedPastAnOccurrence(z: Zone, rule: Rule, slip: int, after: Time)
    requires Regular(z, rule, slip) && Occurs(z, rule, after)
    ensures !SlotSlippedAhead(z, rule, after)
  {
    hide Matches, At;
    var day :| Matches(rule, day) && At(z, rule, day) == after;
    assert z.dateOf(after) - 1 <= day;
  }

  /**
  The two scans are inverse: what the forward scan finds after any instant, the backward scan finds again from there.
  */
  lemma LatestOfNextIsNext(z: Zone, rule: Rule, slip: int, after: Time, next: Option<Time>, back: Option<Time>)
    requires ValidRule(rule) && Regular(z, rule, slip) && ScannedForward(z, rule, after, next)
    requires next.Some? ==> ScannedBack(z, rule, next.value, back)
    ensures next.Some? && back == next
  {
    ForwardScanSucceeds(z, rule, slip, after);
    FoundOccurs(z, rule, after, next);
    LatestIsGreatest(z, rule, slip, next.value, back);
    hide Regular, ScannedBack, ScannedForward;
  }

  /** And from the latest occurrence the forward scan passes `now`, in every regular zone. */
  lemma ScansRoundTrip(
      z: Zone, rule: Rule, slip: int, now: Time, latest: Option<Time>, next: Option<Time>, back: Option<Time>)
    requires ValidRule(rule) && Regular(z, rule, slip)
    requires ScannedBack(z, rule, now, latest)
    requires latest.Some? ==> ScannedForward(z, rule, latest.value, next)
    requires next.Some? ==> ScannedBack(z, rule, next.value, back)
    ensures latest.Some? && next.Some? && back == next && latest.value <= now < next.value
  {
    hide SlotSlippedAhead;
    LatestIsGreatest(z, rule, slip, now, latest);
    NextAfterOccurrence(z, rule, slip, latest.value, next);
    LatestOfNextIsNext(z, rule, slip, latest.value, next, back);
    hide Regular, ScannedBack, ScannedForward;
  }

  // ---------------------------------------------------------------- a zone where the forward scan misses a slot

  /** Clocks jump from 23:00 to midnight at the end of day 0. */
  const MIDNIGHT_GAP: Zone := Zone(
    (t: Time) => (if t < 23 * HOUR then t else t + HOUR) / DAY,
    (day: int, hour: int, minute: int) =>
      var t := day * DAY + hour * HOUR + minute * MINUTE;
      if t < DAY then t else t - HOUR)

  /** The zone is regular for a schedule in the skipped hour, with a slip, and its slots are distinct. */
  lemma MidnightGapIsRegular()
    ensures var rule := Daily(23, 30, None); Regular(MIDNIGHT_GAP, rule, 1) && SlotsDiffer(MIDNIGHT_GAP, rule)
  {
    var rule := Daily(23, 30, None);
    forall a: Time, b: Time | a <= b ensures MIDNIGHT_GAP.dateOf(a) <= MIDNIGHT_GAP.dateOf(b) {
      DivMonotone(if a < 23 * HOUR then a else a + HOUR, if b < 23 * HOUR then b else b + HOUR, DAY);
    }
    forall a: int, b: int | a < b ensures At(MIDNIGHT_GAP, rule, a) < At(MIDNIGHT_GAP, rule, b) {
      MulMonotone(a + 1, b, DAY);
      assert (a + 1) * DAY == a * DAY + DAY;
    }
    forall day: int ensures day <= MIDNIGHT_GAP.dateOf(At(MIDNIGHT_GAP, rule, day)) <= day + 1 {
      GapSlotDate(day);
    }
  }

  lemma GapSlotDate(day: int)
    ensures var at := At(MIDNIGHT_GAP, Daily(23, 30, None), day);
            MIDNIGHT_GAP.dateOf(at) == if day == 0 then 1 else day
  {
    var local := day * DAY + 23 * HOUR + 30 * MINUTE;
    assert (day + 1) * DAY == day * DAY + DAY;
    if day == 0 {
      assert MIDNIGHT_GAP.dateOf(local) == 1;
    } else {
      if day < 0 {
        MulMonotone(day, -1, DAY);
      } else {
        MulMonotone(1, day, DAY);
      }
      DivIs(local, DAY, day);
    }
  }

  /**
  Ten minutes after that jump, the 23:30 slot of the skipped hour is still ahead, and the scan returns the one after
  it.
  */
  lemma MissedSlot()
    ensures var rule := Daily(23, 30, None); var after := 23 * HOUR + 10 * MINUTE;
            && ValidRule(rule) && Regular(MIDNIGHT_GAP, rule, 1) && SlotsDiffer(MIDNIGHT_GAP, rule)
            && SlotSkipped(MIDNIGHT_GAP, rule, after, DAY + 22 * HOUR + 30 * MINUTE)
            && ScannedForward(MIDNIGHT_GAP, rule, after, Some(DAY + 22 * HOUR + 30 * MINUTE))
            && !IsNextAfter(MIDNIGHT_GAP, rule, after, DAY + 22 * HOUR + 30 * MINUTE)
  {
    var rule := Daily(23, 30, None);
    var after := 23 * HOUR + 10 * MINUTE;
    MidnightGapIsRegular();
    hide Regular, SlotsDiffer;
    assert MIDNIGHT_GAP.dateOf(after) == 1;
    assert At(MIDNIGHT_GAP, rule, 0) == 23 * HOUR + 30 * MINUTE;
    assert Matches(rule, 0);
    assert Occurs(MIDNIGHT_GAP, rule, 23 * HOUR + 30 * MINUTE);
    assert HitForward(MIDNIGHT_GAP, rule, after, 0);
  }

  // ---------------------------------------------------------------- the spacing of occurrences

  /** In a fixed zone different occurrences are at least a day apart. */
  lemma FixedSlotsAreSpaced(offset: Time, rule: Rule)
    requires ValidRule(rule)
    ensures Cron.Spaced(t => Occurs(FixedZone(offset), rule, t), DAY)
  {
    var z := FixedZone(offset);
    forall a, b | Occurs(z, rule, a) && Occurs(z, rule, b) && a < b ensures b - a >= DAY {
      var m :| Matches(rule, m) && At(z, rule, m) == a;
      var n :| Matches(rule, n) && At(z, rule, n) == b;
      if n <= m {
        FixedZoneSlots(offset, rule, n, m);
      } else {
        MulMonotone(m + 1, n, DAY);
        assert (m + 1) * DAY == m * DAY + DAY;
      }
    }
  }

  // ---------------------------------------------------------------- interval schedules

  /** `Timestamp::as_second`: whole seconds, the fraction cut off towards zero. */
  function AsSecond(t: Time): int {
    if t >= 0 then t / SECOND else -((-t) / SECOND)
  }

  /** `every` is the interval in whole seconds, at least one. */
  function LatestInterval(now: Time, every: int): Time
    requires every > 0
  {
    (AsSecond(now) / every) * every * SECOND
  }

  function NextInterval(after: Time, every: int): Time
    requires every > 0
  {
    (AsSecond(after) / every + 1) * every * SECOND
  }

  ghost predicate OnInterval(t: Time, every: int) {
    exists n: int :: t == n * every * SECOND
  }

  /** A boundary is an instant that whole intervals since the epoch reach. */
  lemma OnIntervalExactlyWhen(t: Time, every: int)
    requires every > 0
    ensures OnInterval(t, every) <==> t % (every * SECOND) == 0
  {
    var span := every * SECOND;
    if OnInterval(t, every) {
      var n: int :| t == n * every * SECOND;
      assert t == n * span;
      RestIs(t, span, n, 0);
    }
    if t % span == 0 {
      var n := t / span;
      assert t == n * span;
      assert t == n * every * SECOND;
    }
  }

  /** Before the epoch, a fraction of a second past a boundary is cut off up to that boundary. */
  predicate CutUpToBoundary(t: Time, every: int)
    requires every > 0
  {
    t < 0 && t % SECOND != 0 && AsSecond(t) % every == 0
  }

  /**
  The interval functions return the greatest boundary up to an instant and the least after it exactly when the fraction
  cut off does not reach a boundary; so always for whole seconds and for instants since the epoch.
  */
  lemma IntervalExactlyWhen(t: Time, every: int)
    requires every > 0
    ensures LatestInterval(t, every) <= t < NextInterval(t, every) <==> !CutUpToBoundary(t, every)
    ensures OnInterval(LatestInterval(t, every), every) && OnInterval(NextInterval(t, every), every)
    ensures NextInterval(t, every) == LatestInterval(t, every) + every * SECOND
  {
    var s := AsSecond(t);
    var q := s / every;
    DivBounds(s, every);
    assert (q + 1) * every == q * every + every;
    assert LatestInterval(t, every) == q * every * SECOND;
    assert NextInterval(t, every) == (q + 1) * every * SECOND;
    assert s % every == s - q * every;
    SecondBounds(t);
  }

  /** One microsecond before the epoch, the latest one-second boundary is reported a second too late. */
  lemma AFractionBeforeTheEpoch()
    ensures CutUpToBoundary(-1, 1) && LatestInterval(-1, 1) == 0 && NextInterval(-1, 1) == SECOND
    ensures OnInterval(-SECOND, 1) && -SECOND <= -1 < LatestInterval(-1, 1)
  {
    assert AsSecond(-1) == 0;
    assert -SECOND == -1 * 1 * SECOND;
  }

  lemma SecondBounds(t: Time)
    ensures t >= 0 || t % SECOND == 0 ==> AsSecond(t) * SECOND <= t < (AsSecond(t) + 1) * SECOND
    ensures t < 0 && t % SECOND != 0 ==> (AsSecond(t) - 1) * SECOND < t < AsSecond(t) * SECOND
  {
  }

  /** Consecutive boundaries: nothing lies between the latest and the next. */
  lemma NothingBetweenBoundaries(t: Time, every: int, o: Time)
    requires every > 0 && OnInterval(o, every)
    ensures o <= LatestInterval(t, every) || NextInterval(t, every) <= o
  {
    var n: int :| o == n * every * SECOND;
    var q := AsSecond(t) / every;
    if n <= q {
      MulMonotone(n, q, every);
    } else {
      MulMonotone(q + 1, n, every);
    }
  }

  /** Boundaries are at least the interval apart, so polling no less often than that skips none. */
  lemma BoundariesAreSpaced(every: int)
    requires every > 0
    ensures Cron.Spaced(t => OnInterval(t, every), every * SECOND)
  {
    forall a, b | OnInterval(a, every) && OnInterval(b, every) && a < b ensures b - a >= every * SECOND {
      var m: int :| a == m * every * SECOND;
      var n: int :| b == n * every * SECOND;
      if n <= m {
        MulMonotone(n, m, every);
      } else {
        MulMonotone(m + 1, n, every);
        assert (m + 1) * every == m * every + every;
      }
    }
  }
}
