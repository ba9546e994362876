/** Attempts: what `attempt` counts, and exactly when a job keeps the documented limit. */
module Attempts {
  import opened Prelude
  import opened Jobs
  import opened TableInvariant
  import opened Claiming
  import opened Protocol
  import opened ProtocolInvariant
  import opened ProtocolTheorems

  // ---------------------------------------------------------------- accounting

  /**
  `attempt` counts the claims since the job was created or retried. Unless an overwrite set `max_attempts` at or below
  what was used up, a waiting job has an attempt left for every forced requeue it does not account for.
  */
  lemma AttemptAccounting(s: State, id: Id)
    requires Reachable(s) && id in s.jobs
    ensures id in s.ledgers
    ensures var r := s.jobs[id]; var g := s.ledgers[id];
            && r.attempt == g.claims
            && (!g.lowered && r.status == Queued ==> r.attempt < r.maxAttempts + g.forced)
            && (!g.lowered && r.status == Running ==> r.attempt <= r.maxAttempts + g.forced)
  {
    ReachableInv(s);
  }

  /** The bound is lost exactly by a keyed overwrite of a queued job that has already used the attempts it is given. */
  lemma BoundBrokenExactlyByOverwrite(s: State, e: Event, id: Id)
    requires Inv(s) && Enabled(s, e) && id in s.jobs && id in Step(s, e).jobs
    requires id in s.ledgers && id in Step(s, e).ledgers && !s.ledgers[id].lowered
    ensures Step(s, e).ledgers[id].lowered <==> LowersBelowUsed(s, ChangeOf(s, e), id)
  {
    hide Inv, Enabled, Step, Changed, ChangeOf, Legal, LowersBelowUsed;
    StepByChange(s, e);
    ChangeLowersExactlyWhen(s, ChangeOf(s, e), id);
  }

  ghost predicate LowersBelowUsed(s: State, c: Change, id: Id)
    requires id in s.jobs && id in s.ledgers
  {
    && c.Inserts? && c.q.mode != Dedupe && HoldsKey(s.jobs[id], c.q.jobKey) && s.jobs[id].status == Queued
    && s.jobs[id].attempt >= c.q.maxAttempts + s.ledgers[id].forced
  }

  lemma ChangeLowersExactlyWhen(s: State, c: Change, id: Id)
    requires Inv(s) && Legal(s, c) && id in s.jobs && id in s.ledgers && !s.ledgers[id].lowered
    requires id in Changed(s, c).ledgers
    ensures Changed(s, c).ledgers[id].lowered <==> LowersBelowUsed(s, c, id)
  {
    hide Inv, Run, RunEnqueue, Execute, Claimable, Selects, SetRow, Overwrite, Prune, HonestFailure;
    match c
    case Updates(u, at) => RunAt(s, u, at, id);
    case Inserts(newId, q, at) => EnqueueAt(s, newId, q, at, id);
    case _ =>
  }

  // ---------------------------------------------------------------- the documented limit

  /** The limit as documented: a waiting job has an attempt left, and a running one is not beyond its last. */
  predicate WithinLimit(r: Row) {
    && (r.status == Queued ==> r.attempt < r.maxAttempts)
    && (r.status == Running ==> r.attempt <= r.maxAttempts)
  }

  /** One statement on one row keeps the limit unless it requeues by force a job that has used its last attempt. */
  lemma StatementKeepsLimitExactlyWhen(u: Update, id: Id, r: Row, at: Time)
    requires RowOk(r) && WithinLimit(r) && Selects(u, id, r, at)
    requires u.Claim? ==> r.status == Queued
    requires u.FailLocked? && u.attempt < u.maxAttempts ==> u.attempt == r.attempt && u.maxAttempts == r.maxAttempts
    ensures WithinLimit(SetRow(u, r, at)) <==> !(u.IsForced() && r.attempt == r.maxAttempts)
  {
  }

  lemma OverwriteKeepsLimitExactlyWhen(r: Row, q: Request)
    requires WithinLimit(r)
    ensures WithinLimit(Overwrite(r, q)) <==>
            !(q.mode != Dedupe && r.status == Queued && r.attempt >= q.maxAttempts)
  {
  }

  /**
  The two ways to break the limit: a forced requeue of a job on its last attempt, and a keyed overwrite that gives a
  queued job no more attempts than it has used.
  */
  ghost predicate BreaksLimit(s: State, c: Change, id: Id) {
    match c
    case Updates(u, at) =>
      u.IsForced() && id in Affected(s.jobs, u, at) && s.jobs[id].attempt == s.jobs[id].maxAttempts
    case Inserts(_, q, _) =>
      && id in s.jobs && HoldsKey(s.jobs[id], q.jobKey) && s.jobs[id].status == Queued
      && q.mode != Dedupe && s.jobs[id].attempt >= q.maxAttempts
    case _ => false
  }

  ghost predicate JobWithin(s: State, id: Id) {
    id in s.jobs ==> WithinLimit(s.jobs[id])
  }

  lemma ChangeKeepsLimitExactlyWhen(s: State, c: Change, id: Id)
    requires Inv(s) && Legal(s, c) && JobWithin(s, id)
    ensures JobWithin(Changed(s, c), id) <==> !BreaksLimit(s, c, id)
  {
    match c
    case Updates(u, at) => UpdateKeepsLimitExactlyWhen(s, u, at, id);
    case Inserts(newId, q, at) =>
      if id in s.jobs {
        EnqueueAt(s, newId, q, at, id);
        OverwriteKeepsLimitExactlyWhen(s.jobs[id], q);
        hide RunEnqueue, Overwrite;
      } else {
        hide Inv, Sent, UpsertNotifies;
      }
    case _ => hide Inv;
  }

  lemma UpdateKeepsLimitExactlyWhen(s: State, u: Update, at: Time, id: Id)
    requires Inv(s) && Legal(s, Updates(u, at)) && JobWithin(s, id)
    ensures JobWithin(Run(s, u, at), id) <==> !BreaksLimit(s, Updates(u, at), id)
  {
    if id in s.jobs {
      TableIdsAreBorn(s, id);
      RunAt(s, u, at, id);
      if Selects(u, id, s.jobs[id], at) {
        ClaimIdIs(u, id, s.jobs[id], at);
        FailureIdIs(u, id, s.jobs[id], at);
        StatementKeepsLimitExactlyWhen(u, id, s.jobs[id], at);
      }
      hide Inv, Run, Execute, Claimable, SetRow, Selects, WithinLimit;
    } else {
      hide Inv, Execute, Claimable, Sent, Notifies;
    }
  }

  lemma FailureIdIs(u: Update, id: Id, r: Row, at: Time)
    requires Selects(u, id, r, at)
    ensures u.FailLocked? ==> u.id == id && r.lockedBy == Some(u.owner)
  {
  }

  lemma StepKeepsLimitExactlyWhen(s: State, e: Event, id: Id)
    requires Inv(s) && Enabled(s, e) && JobWithin(s, id)
    ensures JobWithin(Step(s, e), id) <==> !BreaksLimit(s, ChangeOf(s, e), id)
  {
    hide Inv, Enabled, Step, Changed, ChangeOf, Legal, BreaksLimit;
    StepByChange(s, e);
    ChangeKeepsLimitExactlyWhen(s, ChangeOf(s, e), id);
  }

  /** The job is within the limit in every state of the run. */
  ghost predicate AlwaysWithin(s: State, events: seq<Event>, id: Id)
    decreases |events|
  {
    JobWithin(s, id) && (events != [] && Enabled(s, events[0]) ==> AlwaysWithin(Step(s, events[0]), events[1..], id))
  }

  ghost predicate NeverBroken(s: State, events: seq<Event>, id: Id)
    decreases |events|
  {
    events != [] && Enabled(s, events[0]) ==>
      !BreaksLimit(s, ChangeOf(s, events[0]), id) && NeverBroken(Step(s, events[0]), events[1..], id)
  }

  /** A job keeps the documented limit throughout a run exactly when neither of the two ever happens to it. */
  lemma {:induction false} LimitKeptExactlyWhen(s: State, events: seq<Event>, end: State, id: Id)
    requires Inv(s) && Path(s, events, end) && JobWithin(s, id)
    ensures AlwaysWithin(s, events, id) <==> NeverBroken(s, events, id)
    decreases |events|
  {
    hide Inv, Enabled, Step, ChangeOf, BreaksLimit, JobWithin;
    if events != [] {
      StepKeepsInv(s, events[0]);
      StepKeepsLimitExactlyWhen(s, events[0], id);
      if JobWithin(Step(s, events[0]), id) {
        LimitKeptExactlyWhen(Step(s, events[0]), events[1..], end, id);
      }
    }
  }

  /**
  A handler that keeps failing: with no forced requeue since the job was created or retried, the failure that ends it is
  the one of claim number `max_attempts`; every earlier one sends it back to the queue.
  */
  lemma FailsForGoodAtTheLimit(s: State, owner: string, u: Update, at: Time)
    requires Reachable(s) && owner in s.loops && s.loops[owner].phase.Handling?
    requires var p := s.loops[owner].phase;
             IsResult(u, owner, p) && u.FailLocked? && u.attempt == p.attempt && Current(s, p.id, p.claim)
             && !s.ledgers[p.id].lowered && s.ledgers[p.id].forced == 0
    ensures var id := s.loops[owner].phase.id; var after := Apply(s.jobs, u, at)[id];
            && (after.status == Failed <==> s.ledgers[id].claims == s.jobs[id].maxAttempts)
            && (after.status == Queued <==> s.ledgers[id].claims < s.jobs[id].maxAttempts)
  {
    hide Inv;
    AttemptAccounting(s, s.loops[owner].phase.id);
    ResultCountsExactlyWhenCurrent(s, owner, u, at);
    assert s.loops[owner].phase.id in Affected(s.jobs, u, at);
  }

  /** In this event the job is claimed, its lock is renewed, its handler fails, or nothing happens to it. */
  ghost predicate OnlyFails(s: State, e: Event, id: Id)
    requires Enabled(s, e) && id in s.jobs
  {
    && id in Step(s, e).jobs
    && (|| Step(s, e).jobs[id] == s.jobs[id]
        || e.CommitClaim? || e.Renew?
        || (e.Finish? && e.u.FailLocked? && e.u.attempt == s.loops[e.owner].phase.attempt))
  }

  ghost predicate FailingRun(s: State, events: seq<Event>, id: Id)
    decreases |events|
  {
    id in s.jobs
    && (events != [] && Enabled(s, events[0]) ==>
          OnlyFails(s, events[0], id) && FailingRun(Step(s, events[0]), events[1..], id))
  }

  /** Waiting with an attempt left, running no more than the last one, or failed after exactly that many. */
  predicate OnTheWay(r: Row, limit: int) {
    && r.maxAttempts == limit
    && (r.status == Queued || r.status == Running || r.status == Failed)
    && (r.status == Queued ==> r.attempt < limit)
    && (r.status == Running ==> r.attempt <= limit)
    && (r.status == Failed ==> r.attempt == limit)
  }

  lemma FailureStaysOnTheWay(u: Update, id: Id, r: Row, at: Time)
    requires OnTheWay(r, r.maxAttempts) && RowOk(r) && Selects(u, id, r, at)
    requires || (u.Claim? && r.status == Queued)
             || u.RenewLock?
             || (u.FailLocked? && u.attempt == r.attempt && u.maxAttempts == r.maxAttempts)
    ensures OnTheWay(SetRow(u, r, at), r.maxAttempts)
  {
  }

  lemma StepStaysOnTheWay(s: State, e: Event, id: Id)
    requires Inv(s) && Enabled(s, e) && id in s.jobs && OnlyFails(s, e, id)
    requires OnTheWay(s.jobs[id], s.jobs[id].maxAttempts)
    ensures OnTheWay(Step(s, e).jobs[id], s.jobs[id].maxAttempts)
  {
    if Step(s, e).jobs[id] != s.jobs[id] {
      TableIdsAreBorn(s, id);
      StepByChange(s, e);
      FailingChange(s, e, id);
      hide Enabled, Step, ChangeOf, OnTheWay, RowOk, SetRow, OnlyFails;
      var c := ChangeOf(s, e);
      RunAt(s, c.u, c.at, id);
      hide Inv, Run, Selects;
      FailureStaysOnTheWay(c.u, id, s.jobs[id], c.at);
    }
  }

  /** A claim, renewal or failure is an UPDATE of this job, with the row's own attempt numbers. */
  lemma FailingChange(s: State, e: Event, id: Id)
    requires Inv(s) && Enabled(s, e) && id in s.jobs && OnlyFails(s, e, id) && Step(s, e).jobs[id] != s.jobs[id]
    ensures var c := ChangeOf(s, e);
            && c.Updates? && Selects(c.u, id, s.jobs[id], c.at)
            && (|| (c.u.Claim? && s.jobs[id].status == Queued)
                || c.u.RenewLock?
                || (c.u.FailLocked? && c.u.attempt == s.jobs[id].attempt && c.u.maxAttempts == s.jobs[id].maxAttempts))
  {
    StepByChange(s, e);
    TableIdsAreBorn(s, id);
    FailingEvent(s, e);
    hide Inv, Enabled, Step, ChangeOf, Execute, Claimable, RowOk, SetRow;
    var c := ChangeOf(s, e);
    if c.Updates? {
      RunAt(s, c.u, c.at, id);
      ClaimIdIs(c.u, id, s.jobs[id], c.at);
      FailureIdIs(c.u, id, s.jobs[id], c.at);
      if c.u.FailLocked? {
        LoopIsFenced(s, e.owner);
      }
    }
    hide Run;
  }

  lemma FailingEvent(s: State, e: Event)
    requires Enabled(s, e)
    requires || e.CommitClaim? || e.Renew?
             || (e.Finish? && e.u.FailLocked? && e.u.attempt == s.loops[e.owner].phase.attempt)
    ensures var c := ChangeOf(s, e);
            || c == Idle
            || (c.Updates?
                && (|| c.u.Claim? || c.u.RenewLock?
                    || (&& c.u.FailLocked? && e.Finish? && e.owner in s.loops && s.loops[e.owner].phase.Handling?
                        && var p := s.loops[e.owner].phase;
                           c.u.id == p.id && c.u.owner == e.owner && c.u.attempt == p.attempt
                           && c.u.maxAttempts == p.maxAttempts)))
  {
  }

  /**
  A job whose handler always fails, with nothing else happening to it: over every such run it waits with an attempt
  left, runs, or has failed for good after exactly `max_attempts` claims.
  */
  lemma {:induction false} AlwaysFailingEndsAtTheLimit(s: State, events: seq<Event>, end: State, id: Id)
    requires Inv(s) && Path(s, events, end) && FailingRun(s, events, id)
    requires OnTheWay(s.jobs[id], s.jobs[id].maxAttempts)
    ensures id in end.jobs && id in end.ledgers && end.jobs[id].attempt == end.ledgers[id].claims
    ensures OnTheWay(end.jobs[id], s.jobs[id].maxAttempts)
    decreases |events|
  {
    if events == [] {
      LedgerCounts(s, id);
    } else {
      hide Inv, Enabled, Step, OnlyFails, OnTheWay;
      StepKeepsInv(s, events[0]);
      StepStaysOnTheWay(s, events[0], id);
      LimitOnTheWay(Step(s, events[0]).jobs[id], s.jobs[id].maxAttempts);
      AlwaysFailingEndsAtTheLimit(Step(s, events[0]), events[1..], end, id);
    }
  }

  lemma LimitOnTheWay(r: Row, limit: int)
    requires OnTheWay(r, limit)
    ensures r.maxAttempts == limit
  {
  }

  lemma LedgerCounts(s: State, id: Id)
    requires Inv(s) && id in s.jobs
    ensures id in s.ledgers && s.jobs[id].attempt == s.ledgers[id].claims
  {
  }

  lemma Then(s: State, e: Event, events: seq<Event>, end: State)
    requires Enabled(s, e) && Path(Step(s, e), events, end)
    ensures Path(s, [e] + events, end)
  {
    hide Enabled, Step;
    assert ([e] + events)[1..] == events;
  }

  // ---------------------------------------------------------------- a run beyond the limit

  const ONE_ATTEMPT := Request("job", "", None, 0, 0, 1, None, Dedupe)

  /** The whole table is one job, and no claim is pending. */
  ghost predicate OnlyJob(s: State, row: Row) {
    s.jobs == map[0 := row] && forall owner :: owner in s.loops ==> !s.loops[owner].phase.Selecting?
  }

  lemma UpdateOnlyJob(row: Row, u: Update, at: Time)
    requires Selects(u, 0, row, at)
    ensures Execute(map[0 := row], u, at) == Committed(map[0 := SetRow(u, row, at)])
  {
    assert Apply(map[0 := row], u, at) == map[0 := SetRow(u, row, at)];
    hide SetRow, Selects, Apply;
  }

  /** A ready loop claims the only job. */
  lemma ClaimOnlyJob(s: State, owner: string, row: Row, at: Time) returns (events: seq<Event>, end: State)
    requires OnlyJob(s, row) && row.status == Queued && row.runAt <= at
    requires owner in s.loops && s.loops[owner].phase == Ready && row.name in s.loops[owner].names
    ensures Path(s, events, end) && OnlyJob(end, SetRow(Claim(0, owner), row, at))
    ensures end.loops.Keys == s.loops.Keys
    ensures forall o :: o in s.loops && o != owner ==> end.loops[o] == s.loops[o]
  {
    hide Execute, Apply, Notifies, LedgerAfter, SetRow, Selects;
    var e1, e2, e3 := Arm(owner), Select(owner, 0, at), CommitClaim(owner, true);
    var s1 := Step(s, e1);
    var s2 := Step(s1, e2);
    ClaimSelects(owner, row, at);
    UpdateOnlyJob(row, Claim(0, owner), at);
    assert Enabled(s2, e3);
    end := Step(s2, e3);
    CommitLeaves(s2, owner, row, at);
    assert Path(end, [], end);
    Then(s2, e3, [], end);
    Then(s1, e2, [e3] + [], end);
    Then(s, e1, [e2] + ([e3] + []), end);
    events := [e1] + ([e2] + ([e3] + []));
  }

  lemma ClaimSelects(owner: string, row: Row, at: Time)
    ensures Selects(Claim(0, owner), 0, row, at)
  {
  }

  lemma CommitLeaves(s: State, owner: string, row: Row, at: Time)
    requires s.jobs == map[0 := row] && owner in s.loops && s.loops[owner].phase.Selecting?
    requires s.loops[owner].phase.id == 0 && s.loops[owner].phase.at == at && Enabled(s, CommitClaim(owner, true))
    ensures var end := Step(s, CommitClaim(owner, true));
            && end.jobs == map[0 := SetRow(Claim(0, owner), row, at)]
            && end.loops.Keys == s.loops.Keys && end.loops[owner].phase.Handling?
            && forall o :: o in s.loops && o != owner ==> end.loops[o] == s.loops[o]
  {
    ClaimSelects(owner, row, at);
    UpdateOnlyJob(row, Claim(0, owner), at);
    hide Notifies, LedgerAfter, SetRow, Selects, Sent;
  }

  /**
  The limit is not absolute: worker `a` claims a job that has one attempt and shuts down before finishing it; its
  release requeues the job, and worker `b` claims it a second time.
  */
  lemma ForcedRequeueExceedsTheLimit() returns (events: seq<Event>, end: State)
    ensures Path(INITIAL, events, end) && Reachable(end)
    ensures 0 in end.jobs && end.jobs[0].status == Running && end.jobs[0].maxAttempts == 1 && end.jobs[0].attempt == 2
  {
    var a, b := FormatOwner("a", "0", "x"), FormatOwner("b", "0", "y");
    assert a != b by {
      assert a[0] == 'a' && b[0] == 'b';
    }
    var row := NewRow(ONE_ATTEMPT, 0);
    var running := SetRow(Claim(0, a), row, 0);
    var waiting := SetRow(Release("a"), running, 1);
    RowsOfTheRun(a, b);
    hide Path, FormatOwner, NewRow, SetRow, OnlyJob, Reachable;
    var start, queued := Enqueued(a, b);
    var first, claimed := ClaimOnlyJob(queued, a, row, 0);
    var shutdown, released := ShutDown(claimed, a, running);
    var second, last := ClaimOnlyJob(released, b, waiting, 1);
    OnlyJobIs(last, SetRow(Claim(0, b), waiting, 1));
    events, end := start + (first + (shutdown + second)), last;
    JoinPaths(start, queued, first, claimed, shutdown, released, second, last);
  }

  lemma RowsOfTheRun(a: string, b: string)
    ensures var row := NewRow(ONE_ATTEMPT, 0); var running := SetRow(Claim(0, a), row, 0);
            var waiting := SetRow(Release("a"), running, 1); var again := SetRow(Claim(0, b), waiting, 1);
            && row.status == Queued && row.runAt == 0 && row.name == "job"
            && running.status == Running && running.lockedBy == Some(a)
            && waiting.status == Queued && waiting.runAt == 1 && waiting.name == "job"
            && again.status == Running && again.maxAttempts == 1 && again.attempt == 2
  {
  }

  lemma JoinPaths(
      a: seq<Event>, s1: State, b: seq<Event>, s2: State, c: seq<Event>, s3: State, d: seq<Event>, end: State)
    requires Path(INITIAL, a, s1) && Path(s1, b, s2) && Path(s2, c, s3) && Path(s3, d, end)
    ensures Path(INITIAL, a + (b + (c + d)), end) && Reachable(end)
  {
    hide Path;
    PathAppend(s2, c, s3, d, end);
    PathAppend(s1, b, s2, c + d, end);
    PathAppend(INITIAL, a, s1, b + (c + d), end);
  }

  lemma OnlyJobIs(s: State, row: Row)
    requires OnlyJob(s, row)
    ensures s.jobs == map[0 := row]
  {
  }

  lemma Enqueued(a: string, b: string) returns (events: seq<Event>, end: State)
    requires a == FormatOwner("a", "0", "x") && b == FormatOwner("b", "0", "y") && a != b
    ensures Path(INITIAL, events, end) && OnlyJob(end, NewRow(ONE_ATTEMPT, 0))
    ensures end.loops == map[a := Loop("a", {"job"}, Ready), b := Loop("b", {"job"}, Ready)]
  {
    var e1, e2 := StartLoop(a, "a", "0", "x", {"job"}), StartLoop(b, "b", "0", "y", {"job"});
    var e3 := Enqueue(0, ONE_ATTEMPT, 0);
    var s1 := Step(INITIAL, e1);
    var s2 := Step(s1, e2);
    end := Step(s2, e3);
    assert end.jobs == map[0 := NewRow(ONE_ATTEMPT, 0)];
    assert Path(end, [], end);
    Then(s2, e3, [], end);
    Then(s1, e2, [e3] + [], end);
    Then(INITIAL, e1, [e2] + ([e3] + []), end);
    events := [e1] + ([e2] + ([e3] + []));
  }

  /** Worker `a` ends and releases what its loop had locked. */
  lemma ShutDown(s: State, a: string, row: Row) returns (events: seq<Event>, end: State)
    requires a == FormatOwner("a", "0", "x") && a in s.loops
    requires OnlyJob(s, row) && row.status == Running && row.lockedBy == Some(a)
    ensures Path(s, events, end) && OnlyJob(end, SetRow(Release("a"), row, 1))
    ensures end.loops.Keys == s.loops.Keys
    ensures forall o :: o in s.loops && o != a ==> end.loops[o] == s.loops[o]
  {
    var e1, e2 := Abort(a), Statement(Release("a"), 1);
    var s1 := Step(s, e1);
    assert a[..2] == "a:";
    UpdateOnlyJob(row, Release("a"), 1);
    hide Execute, Notifies, LedgerAfter, SetRow, Selects, Sent, Apply;
    end := Step(s1, e2);
    assert Path(end, [], end);
    Then(s1, e2, [], end);
    Then(s, e1, [e2] + [], end);
    events := [e1] + ([e2] + []);
  }
}
