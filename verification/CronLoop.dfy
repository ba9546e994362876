/**
The cron loop: `enqueue_due_crons` offers, for each definition of the worker, the latest occurrence its schedule has
at the worker's clock. Put together with `Schedule` and `Cron`: which polls lose no occurrence.
*/
module CronLoop {
  import opened Prelude
  import opened Jobs
  import opened Schedule
  import opened Columns
  import opened QueueApi
  import opened TableInvariant
  import Cron

  /** A schedule on civil dates in a time zone, or an interval in whole seconds, where less than one counts as one. */
  datatype CronSchedule = Civil(zone: Zone, rule: Rule) | Interval(seconds: nat)

  datatype Definition = Definition(
    identifier: string,
    name: string,
    payload: string,
    schedule: CronSchedule,
    options: CronOptions,
    catchUp: bool
  )

  predicate ValidSchedule(s: CronSchedule) {
    s.Civil? ==> ValidRule(s.rule)
  }

  function Period(seconds: nat): (every: int)
    ensures every > 0
  {
    if seconds < 1 then 1 else seconds
  }

  ghost predicate OccursOn(s: CronSchedule, t: Time) {
    match s
    case Civil(zone, rule) => Occurs(zone, rule, t)
    case Interval(seconds) => OnInterval(t, Period(seconds))
  }

  /** An interval schedule is due whenever a whole number of intervals has passed since the epoch. */
  lemma IntervalOccursExactlyWhen(seconds: nat, t: Time)
    ensures OccursOn(Interval(seconds), t) <==> t % ((if seconds == 0 then 1 else seconds) * SECOND) == 0
  {
    OnIntervalExactlyWhen(t, Period(seconds));
  }

  ghost function Occurrences(s: CronSchedule): Time -> bool {
    t => OccursOn(s, t)
  }

  /**
  At `now` the schedule functions mean what they say: the zone is regular, or no fraction reaches an interval
  boundary.
  */
  ghost predicate Dependable(s: CronSchedule, now: Time) {
    match s
    case Civil(zone, rule) => exists slip :: Regular(zone, rule, slip)
    case Interval(seconds) => !CutUpToBoundary(now, Period(seconds))
  }

  /** A poll offers the greatest occurrence up to `now` and the least one after that. */
  ghost predicate Offers(s: CronSchedule, now: Time, due: Time, next: Time) {
    Cron.IsLatest(Occurrences(s), now, due) && Cron.IsNext(Occurrences(s), due, next)
  }

  // ---------------------------------------------------------------- one schedule

  method LatestDue(s: CronSchedule, now: Time) returns (due: Option<Time>)
    requires ValidSchedule(s)
    ensures Dependable(s, now) ==> due.Some? && Cron.IsLatest(Occurrences(s), now, due.value)
  {
    match s
    case Civil(zone, rule) =>
      due := LatestDueAt(zone, rule, now);
      hide Occurs;
    case Interval(seconds) =>
      due := Some(LatestInterval(now, Period(seconds)));
      LatestBoundary(now, Period(seconds));
  }

  lemma LatestBoundary(now: Time, every: int)
    requires every > 0
    ensures OnInterval(LatestInterval(now, every), every)
    ensures !CutUpToBoundary(now, every) ==>
              && LatestInterval(now, every) <= now
              && forall o :: OnInterval(o, every) && o <= now ==> o <= LatestInterval(now, every)
  {
    IntervalExactlyWhen(now, every);
    forall o | OnInterval(o, every) && o <= now && !CutUpToBoundary(now, every)
      ensures o <= LatestInterval(now, every)
    {
      NothingBetweenBoundaries(now, every, o);
    }
    hide LatestInterval, NextInterval, CutUpToBoundary, OnInterval;
  }

  /** An interval boundary is a whole second, so the next one after it is always right. */
  lemma NextBoundary(due: Time, every: int)
    requires every > 0 && OnInterval(due, every)
    ensures OnInterval(NextInterval(due, every), every) && due < NextInterval(due, every)
    ensures forall o :: OnInterval(o, every) && due < o ==> NextInterval(due, every) <= o
  {
    var n: int :| due == n * every * SECOND;
    assert due % SECOND == 0;
    IntervalExactlyWhen(due, every);
    forall o | OnInterval(o, every) && due < o ensures NextInterval(due, every) <= o {
      NothingBetweenBoundaries(due, every, o);
    }
  }

  /** The successor of an occurrence. */
  method NextDue(s: CronSchedule, due: Time) returns (next: Time)
    requires ValidSchedule(s)
    ensures (s.Civil? ==> exists slip :: Regular(s.zone, s.rule, slip)) && OccursOn(s, due) ==>
              Cron.IsNext(Occurrences(s), due, next)
  {
    match s
    case Civil(zone, rule) =>
      next := NextAfter(zone, rule, due);
      SuccessorInAnyZone(zone, rule, due);
      hide Occurs, SlotSlippedAhead;
    case Interval(seconds) =>
      next := NextInterval(due, Period(seconds));
      if OnInterval(due, Period(seconds)) {
        NextBoundary(due, Period(seconds));
      }
  }

  lemma SuccessorInAnyZone(zone: Zone, rule: Rule, due: Time)
    ensures Occurs(zone, rule, due) && (exists slip :: Regular(zone, rule, slip)) ==> !SlotSlippedAhead(zone, rule, due)
  {
    if Occurs(zone, rule, due) {
      if slip :| Regular(zone, rule, slip) {
        NothingSlippedPastAnOccurrence(zone, rule, slip, due);
      }
    }
  }

  // ---------------------------------------------------------------- one pass over the definitions

  /** One `try_enqueue_cron` call of a pass. */
  datatype Attempt = Attempt(poll: Cron.Poll, options: CronOptions, newId: Id)

  datatype Shared = Shared(crons: Cron.Crons, jobs: Table, notifications: nat)

  /** What one call does to the shared tables: a refused insert rolls the claim of the occurrence back with it. */
  ghost function AfterAttempt(s: Shared, a: Attempt): Shared {
    var q := CronRequest(a.poll, a.options);
    if !Cron.Enqueues(s.crons, a.poll) then s.(crons := Cron.AfterPoll(s.crons, a.poll))
    else if a.options.maxAttempts <= 0 then s
    else
      Shared(Cron.AfterPoll(s.crons, a.poll), Upsert(s.jobs, a.newId, q, a.poll.now),
             s.notifications + if UpsertNotifies(s.jobs, q) then 1 else 0)
  }

  ghost function AfterAttempts(s: Shared, attempts: seq<Option<Attempt>>): Shared {
    if attempts == [] then s
    else
      var before := AfterAttempts(s, attempts[..|attempts| - 1]);
      var last := attempts[|attempts| - 1];
      if last.Some? then AfterAttempt(before, last.value) else before
  }

  /** The attempt carries the definition it was made for. */
  predicate IsFor(a: Attempt, d: Definition, newId: Id, at: Time, sees: bool) {
    && a.newId == newId && a.options == d.options
    && a.poll == Cron.Poll(d.identifier, d.name, d.payload, a.poll.due, a.poll.next, d.catchUp, at, sees)
  }

  /** One round of the loop in `enqueue_due_crons`; a failing statement is only logged there. */
  method PollDefinition(queue: Queue, d: Definition, newId: Id, at: Time, sees: bool, now: Time)
    returns (attempt: Option<Attempt>)
    requires queue.Valid() && ValidSchedule(d.schedule) && newId !in queue.jobs
    modifies queue`crons, queue`jobs, queue`notifications
    ensures queue.Valid() && queue.jobs.Keys <= old(queue.jobs.Keys) + {newId}
    ensures attempt.Some? ==> IsFor(attempt.value, d, newId, at, sees)
    ensures Dependable(d.schedule, now) ==>
              attempt.Some? && Offers(d.schedule, now, attempt.value.poll.due, attempt.value.poll.next)
    ensures var before := old(Shared(queue.crons, queue.jobs, queue.notifications));
            Shared(queue.crons, queue.jobs, queue.notifications) ==
            if attempt.Some? then AfterAttempt(before, attempt.value) else before
  {
    hide Cron.AfterPoll, Cron.Enqueues, Cron.IsLatest, Cron.IsNext, Dependable, Upsert, UpsertNotifies, ValidSchedule,
         TableInvariant.TableOk;
    attempt := None;
    var due := LatestDue(d.schedule, now);
    if due.Some? {
      var next := NextDue(d.schedule, due.value);
      OfferedWhenDependable(d.schedule, now, due.value, next);
      var poll := Cron.Poll(d.identifier, d.name, d.payload, due.value, next, d.catchUp, at, sees);
      OnlyTheNewIdIsAdded(queue.jobs, newId, CronRequest(poll, d.options), at);
      var _ := queue.TryEnqueueCron(poll, d.options, newId);
      attempt := Some(Attempt(poll, d.options, newId));
    }
  }

  /**
  `enqueue_due_crons`. Every definition is polled once, at the same worker clock, and one that fails does not keep the
  others from being polled. `times` are the database times of the statements, `sees` what their snapshots show, and
  `newIds` the ids the database generates.
  */
  method EnqueueDueCrons(queue: Queue, definitions: seq<Definition>, newIds: seq<Id>, times: seq<Time>,
                         sees: seq<bool>, now: Time)
    returns (attempts: seq<Option<Attempt>>)
    requires queue.Valid() && |newIds| == |times| == |sees| == |definitions|
    requires forall d :: d in definitions ==> ValidSchedule(d.schedule)
    requires forall i :: 0 <= i < |newIds| ==> newIds[i] !in queue.jobs
    requires forall i, j :: 0 <= i < j < |newIds| ==> newIds[i] != newIds[j]
    modifies queue
    ensures queue.Valid() && queue.workers == old(queue.workers)
    ensures |attempts| == |definitions|
    ensures forall i :: 0 <= i < |attempts| && attempts[i].Some? ==>
              IsFor(attempts[i].value, definitions[i], newIds[i], times[i], sees[i])
    ensures forall i :: 0 <= i < |attempts| && Dependable(definitions[i].schedule, now) ==>
              && attempts[i].Some?
              && Offers(definitions[i].schedule, now, attempts[i].value.poll.due, attempts[i].value.poll.next)
    ensures Shared(queue.crons, queue.jobs, queue.notifications) ==
            AfterAttempts(old(Shared(queue.crons, queue.jobs, queue.notifications)), attempts)
    ensures forall id :: id in queue.jobs && id !in old(queue.jobs) ==>
              InsertedOnTime(definitions, attempts, now, id, queue.jobs[id])
  {
    hide Dependable, Offers, IsFor, AfterAttempt, ValidSchedule, TableInvariant.TableOk;
    attempts := [];
    ghost var start := Shared(queue.crons, queue.jobs, queue.notifications);
    for i := 0 to |definitions|
      invariant queue.Valid() && queue.workers == old(queue.workers) && |attempts| == i
      invariant forall k :: i <= k < |newIds| ==> newIds[k] !in queue.jobs
      invariant forall k :: 0 <= k < i && attempts[k].Some? ==>
                  IsFor(attempts[k].value, definitions[k], newIds[k], times[k], sees[k])
      invariant forall k :: 0 <= k < i && Dependable(definitions[k].schedule, now) ==>
                  && attempts[k].Some?
                  && Offers(definitions[k].schedule, now, attempts[k].value.poll.due, attempts[k].value.poll.next)
      invariant Shared(queue.crons, queue.jobs, queue.notifications) == AfterAttempts(start, attempts)
    {
      var attempt := PollDefinition(queue, definitions[i], newIds[i], times[i], sees[i], now);
      assert (attempts + [attempt])[..|attempts|] == attempts;
      attempts := attempts + [attempt];
    }
    forall id | id in queue.jobs && id !in old(queue.jobs)
      ensures InsertedOnTime(definitions, attempts, now, id, queue.jobs[id])
    {
      AddedOnTime(start, definitions, attempts, now, id);
    }
  }

  /** The job is due at the greatest occurrence up to `now` of a definition that made it or shares its key. */
  ghost predicate InsertedOnTime(
      definitions: seq<Definition>, attempts: seq<Option<Attempt>>, now: Time, id: Id, r: Row)
    requires |attempts| == |definitions|
  {
    exists j: nat :: DueBy(attempts, j, id, r)
      && (Dependable(definitions[j].schedule, now) ==>
            Cron.IsLatest(Occurrences(definitions[j].schedule), now, r.runAt))
  }

  lemma AddedOnTime(
      s: Shared, definitions: seq<Definition>, attempts: seq<Option<Attempt>>, now: Time, id: Id)
    requires |attempts| == |definitions| && id !in s.jobs && id in AfterAttempts(s, attempts).jobs
    requires forall i :: 0 <= i < |attempts| && Dependable(definitions[i].schedule, now) ==>
               && attempts[i].Some?
               && Offers(definitions[i].schedule, now, attempts[i].value.poll.due, attempts[i].value.poll.next)
    ensures InsertedOnTime(definitions, attempts, now, id, AfterAttempts(s, attempts).jobs[id])
  {
    hide Dependable, AfterAttempt, Cron.IsLatest, Cron.IsNext;
    var j := PassInsertsWhatIsDue(s, attempts, id);
    assert DueBy(attempts, j, id, AfterAttempts(s, attempts).jobs[id]);
  }

  lemma OnlyTheNewIdIsAdded(t: Table, newId: Id, q: Request, now: Time)
    ensures Upsert(t, newId, q, now).Keys <= t.Keys + {newId}
  {
  }

  lemma OfferedWhenDependable(s: CronSchedule, now: Time, due: Time, next: Time)
    requires Dependable(s, now) ==> Cron.IsLatest(Occurrences(s), now, due)
    requires (s.Civil? ==> exists slip :: Regular(s.zone, s.rule, slip)) && OccursOn(s, due) ==>
               Cron.IsNext(Occurrences(s), due, next)
    ensures Dependable(s, now) ==> Offers(s, now, due, next)
  {
    if Dependable(s, now) {
      assert Occurrences(s)(due);
    }
  }

  // ---------------------------------------------------------------- what a pass inserts

  /** The row waits for the occurrence that this attempt offered, which made the job or holds its key. */
  ghost predicate DueBy(attempts: seq<Option<Attempt>>, j: nat, id: Id, r: Row) {
    && j < |attempts| && attempts[j].Some?
    && var a := attempts[j].value;
       r.runAt == a.poll.due && (a.newId == id || (r.jobKey.Some? && a.options.jobKey == r.jobKey))
  }

  /** Every job that a pass adds is due at an occurrence one of its attempts offered. */
  lemma {:induction false} PassInsertsWhatIsDue(s: Shared, attempts: seq<Option<Attempt>>, id: Id) returns (j: nat)
    requires id !in s.jobs && id in AfterAttempts(s, attempts).jobs
    ensures DueBy(attempts, j, id, AfterAttempts(s, attempts).jobs[id])
    decreases |attempts|
  {
    var init, last := attempts[..|attempts| - 1], attempts[|attempts| - 1];
    var before, after := AfterAttempts(s, init), AfterAttempts(s, attempts);
    if id in before.jobs {
      j := PassInsertsWhatIsDue(s, init, id);
      assert attempts[j] == init[j];
      if !DueBy(attempts, j, id, after.jobs[id]) {
        j := |attempts| - 1;
      }
    } else {
      j := |attempts| - 1;
    }
    hide Cron.Claims, Cron.Enqueues, Cron.AfterPoll;
  }

  /** No two attempts share a job key; by default the key is the identifier, and identifiers are distinct. */
  ghost predicate KeysDiffer(attempts: seq<Option<Attempt>>) {
    forall i, j :: 0 <= i < j < |attempts| && attempts[i].Some? && attempts[j].Some? ==>
      attempts[j].value.options.jobKey == None
      || attempts[i].value.options.jobKey != attempts[j].value.options.jobKey
  }

  ghost predicate IdsDiffer(attempts: seq<Option<Attempt>>) {
    forall i, j :: 0 <= i < j < |attempts| && attempts[i].Some? && attempts[j].Some? ==>
      attempts[i].value.newId != attempts[j].value.newId
  }

  /** The row is the one the attempt was to insert. */
  predicate AsksFor(r: Row, a: Attempt) {
    && r.runAt == a.poll.due && r.name == a.poll.name && r.payload == a.poll.payload
    && r.queueName == a.options.queueName && r.priority == a.options.priority
    && r.maxAttempts == a.options.maxAttempts && r.jobKey == a.options.jobKey
    && r.status == Queued && r.attempt == 0 && Unlocked(r) && r.createdAt == a.poll.now
  }

  /** When no two definitions share a key, it is the job of the definition itself, as that definition asks for it. */
  lemma {:induction false} PassInsertsEachJob(s: Shared, attempts: seq<Option<Attempt>>, id: Id) returns (j: nat)
    requires id !in s.jobs && id in AfterAttempts(s, attempts).jobs && KeysDiffer(attempts) && IdsDiffer(attempts)
    ensures j < |attempts| && attempts[j].Some? && attempts[j].value.newId == id
    ensures AsksFor(AfterAttempts(s, attempts).jobs[id], attempts[j].value)
    decreases |attempts|
  {
    var init, last := attempts[..|attempts| - 1], attempts[|attempts| - 1];
    var before := AfterAttempts(s, init);
    if id in before.jobs {
      j := PassInsertsEachJob(s, init, id);
      assert attempts[j] == init[j];
      if last.Some? {
        assert attempts[|attempts| - 1] == last;
        OtherJobStays(before, last.value, id);
      }
    } else {
      j := |attempts| - 1;
    }
    hide Cron.Claims, Cron.Enqueues, Cron.AfterPoll;
  }

  /** An attempt under another key leaves a job that is there alone. */
  lemma OtherJobStays(s: Shared, a: Attempt, id: Id)
    requires id in s.jobs && (a.options.jobKey == None || s.jobs[id].jobKey != a.options.jobKey)
    requires a.newId != id
    ensures id in AfterAttempt(s, a).jobs && AfterAttempt(s, a).jobs[id] == s.jobs[id]
  {
  }

  /** When every insert is admissible, a pass is a run of polls in the sense of `Cron`. */
  lemma {:induction false} AttemptsArePolls(s: Shared, attempts: seq<Option<Attempt>>)
    requires forall a :: a in attempts && a.Some? ==> a.value.options.maxAttempts > 0
    ensures AfterAttempts(s, attempts).crons == Cron.AfterPolls(s.crons, PollsOf(attempts))
    decreases |attempts|
  {
    if attempts != [] {
      var before, last := attempts[..|attempts| - 1], attempts[|attempts| - 1];
      assert attempts == before + [last];
      AttemptsArePolls(s, before);
      if last.Some? {
        assert last in attempts;
        Cron.AfterPollsAppend(s.crons, PollsOf(before), [last.value.poll]);
      } else {
        assert PollsOf(attempts) == PollsOf(before);
      }
    }
  }

  function PollsOf(attempts: seq<Option<Attempt>>): seq<Cron.Poll> {
    if attempts == [] then []
    else
      var last := attempts[|attempts| - 1];
      PollsOf(attempts[..|attempts| - 1]) + if last.Some? then [last.value.poll] else []
  }

  // ---------------------------------------------------------------- polls that lose nothing

  /** How far apart occurrences are at least: a day, or the interval. */
  function Spacing(s: CronSchedule): Time {
    match s
    case Civil(_, _) => DAY
    case Interval(seconds) => Period(seconds) * SECOND
  }

  lemma OccurrencesAreSpaced(s: CronSchedule)
    requires ValidSchedule(s)
    requires s.Civil? ==> exists offset :: s.zone == FixedZone(offset)
    ensures Cron.Spaced(Occurrences(s), Spacing(s))
  {
    match s
    case Civil(zone, rule) =>
      var offset :| zone == FixedZone(offset);
      FixedSlotsAreSpaced(offset, rule);
      forall a, b | OccursOn(s, a) && OccursOn(s, b) && a < b ensures b - a >= DAY {
        assert (t => Occurs(FixedZone(offset), rule, t))(a) && (t => Occurs(FixedZone(offset), rule, t))(b);
      }
    case Interval(seconds) =>
      BoundariesAreSpaced(Period(seconds));
      forall a, b | OccursOn(s, a) && OccursOn(s, b) && a < b ensures b - a >= Spacing(s) {
        assert (t => OnInterval(t, Period(seconds)))(a) && (t => OnInterval(t, Period(seconds)))(b);
      }
  }

  /** A schedule at a fixed offset, or an interval, and polls of it that offer what it has at the clocks read. */
  ghost predicate OffersSchedule(s: CronSchedule, mine: seq<Cron.Poll>, read: seq<Time>) {
    && ValidSchedule(s) && (s.Civil? ==> exists offset :: s.zone == FixedZone(offset))
    && |read| == |mine|
    && forall i :: 0 <= i < |mine| ==> Offers(s, read[i], mine[i].due, mine[i].next)
  }

  /**
  The polls of any number of workers, in the order in which their statements take effect: from every instant after the
  first reading some clock is read within `period`, each statement takes effect within `delay` of its reading, and
  period and delay together are no longer than a day, or the interval.
  */
  ghost predicate FrequentAndPrompt(
      s: CronSchedule, read: seq<Time>, took: seq<Time>, from: Time, period: Time, delay: Time)
  {
    && |took| == |read| && period + delay <= Spacing(s)
    && Cron.ReadSince(read, from, period)
    && (forall i :: 0 <= i < |read| ==> read[i] <= took[i] <= read[i] + delay)
    && (forall i, j :: 0 <= i < j < |took| ==> took[i] <= took[j])
  }

  /**
  End to end: polled by any workers often and promptly enough, a daily or monthly schedule in UTC or at a fixed offset
  is claimed occurrence by occurrence with none left out, and so is an interval schedule. The table may hold any row
  of the identifier at the start, polls of other identifiers may come in between, and statements may overtake each
  other.
  */
  lemma FrequentPollsLoseNothing(
      s: CronSchedule, crons: Cron.Crons, polls: seq<Cron.Poll>, read: seq<Time>, took: seq<Time>, identifier: string,
      period: Time, delay: Time)
    requires OffersSchedule(s, Cron.OnlyFor(polls, identifier), read)
    requires forall i :: 0 <= i < |read| ==> FrequentAndPrompt(s, read, took, read[i], period, delay)
    ensures Cron.Consecutive(Occurrences(s), Cron.ClaimedDues(crons, polls, identifier))
  {
    OccurrencesAreSpaced(s);
    forall i | 0 <= i < |read| ensures Cron.CaughtSince(read, read[i], Spacing(s)) {
      assert FrequentAndPrompt(s, read, took, read[i], period, delay);
      Cron.PromptPollsCatch(read, took, read[i], period, delay, Spacing(s));
    }
    Cron.FrequentPollsSkipNothing(crons, polls, read, identifier, Occurrences(s), Spacing(s));
  }

  /**
  One worker whose polls follow one another loses nothing either, if it reads its clock often enough, however slow.
  */
  lemma SteadyPollsLoseNothing(
      s: CronSchedule, crons: Cron.Crons, polls: seq<Cron.Poll>, read: seq<Time>, identifier: string)
    requires OffersSchedule(s, Cron.OnlyFor(polls, identifier), read)
    requires forall k :: 0 < k < |read| ==> read[k - 1] <= read[k] <= read[k - 1] + Spacing(s)
    ensures Cron.Consecutive(Occurrences(s), Cron.ClaimedDues(crons, polls, identifier))
  {
    OccurrencesAreSpaced(s);
    forall i | 0 <= i < |read| ensures Cron.CaughtSince(read, read[i], Spacing(s)) {
      Cron.TimesOrdered(read, 0, i);
      Cron.SteadyPollsCatch(read, read[i], Spacing(s));
    }
    Cron.FrequentPollsSkipNothing(crons, polls, read, identifier, Occurrences(s), Spacing(s));
  }

  /**
  And the first claim after a restart continues the recorded ones, if polling was frequent and prompt over it too.
  */
  lemma RestartLosesNothing(
      s: CronSchedule, crons: Cron.Crons, polls: seq<Cron.Poll>, read: seq<Time>, took: seq<Time>, identifier: string,
      period: Time, delay: Time, since: Time)
    requires OffersSchedule(s, Cron.OnlyFor(polls, identifier), read)
    requires FrequentAndPrompt(s, read, took, since, period, delay)
    requires Cron.LastClaimed(crons, identifier).Some?
    requires Cron.IsLatest(Occurrences(s), since, Cron.LastClaimed(crons, identifier).value)
    requires Cron.ClaimedDues(crons, polls, identifier) != []
    ensures var last := Cron.LastClaimed(crons, identifier).value;
            Cron.IsNext(Occurrences(s), last, Cron.ClaimedDues(crons, polls, identifier)[0])
  {
    OccurrencesAreSpaced(s);
    Cron.PromptPollsCatch(read, took, since, period, delay, Spacing(s));
    Cron.RestartSkipsNothing(crons, polls, read, identifier, Occurrences(s), Spacing(s), since);
  }
}
