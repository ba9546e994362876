/**
What happens to one row in the protocol: what each event leaves in it, where its definition comes from over whole
runs, and that what a worker records about a handler is what the row then says.
*/
module RowHistory {
  import opened Prelude
  import opened Jobs
  import opened TableInvariant
  import opened Columns
  import opened Claiming
  import opened Protocol
  import opened ProtocolInvariant
  import opened ProtocolTheorems
  import Lifecycle

  // ---------------------------------------------------------------- what an event leaves

  lemma UpdateLeaves(s: State, e: Event, id: Id)
    requires Inv(s) && Enabled(s, e) && id in s.jobs && ChangeOf(s, e).Updates?
    ensures id in Step(s, e).jobs
    ensures var c, r, after := ChangeOf(s, e), s.jobs[id], Step(s, e).jobs[id];
            if Selects(c.u, id, r, c.at) then Leaves(c.u, r, after, c.at) else after == r
  {
    hide Inv, Enabled, Step, ChangeOf, Run, Execute, Claimable, Selects, SetRow, RowOk, HonestFailure, Leaves;
    StepByChange(s, e);
    TableIdsAreBorn(s, id);
    var c := ChangeOf(s, e);
    RunAt(s, c.u, c.at, id);
    if Selects(c.u, id, s.jobs[id], c.at) {
      ClaimIdIs(c.u, id, s.jobs[id], c.at);
      SetRowLeaves(c.u, id, s.jobs[id], c.at);
    }
  }

  /**
  An operator's statement about a job leaves it cancelled, succeeded, failed, waiting afresh or moved, when its status
  admits that, and otherwise as it was. It leaves every other job alone.
  */
  lemma OperatorStatementLeaves(s: State, u: Update, at: Time, id: Id)
    requires Reachable(s) && Enabled(s, Statement(u, at)) && id in s.jobs
    ensures id in Step(s, Statement(u, at)).jobs
    ensures var r, after := s.jobs[id], Step(s, Statement(u, at)).jobs[id];
            && (u == Cancel(id) ==>
                  if r.status == Queued then EndedFrom(after, r, Cancelled, at, None) else after == r)
            && (u == CompleteJob(id) ==>
                  if r.status == Queued || r.status == Running then EndedFrom(after, r, Succeeded, at, None)
                  else after == r)
            && (u.PermanentlyFail? && u.id == id ==>
                  if r.status == Queued || r.status == Running then EndedFrom(after, r, Failed, at, Some(u.reason))
                  else after == r)
            && (u == Retry(id) ==>
                  if r.status == Failed || r.status == Cancelled then
                    && WaitsFrom(after, at, None) && SameDefinition(after, r)
                    && after.attempt == 0 && after.startedAt == None
                  else after == r)
            && (u.Reschedule? && u.id == id ==>
                  if r.status == Queued then
                    WaitsFrom(after, u.runAt, r.error) && SameDefinition(after, r) && SameAttempts(after, r)
                  else after == r)
            && (!u.IsForced() && u.id != id ==> after == r)
  {
    hide Inv, Execute, RespectsLocks, Step, Selects;
    ReachableInv(s);
    UpdateLeaves(s, Statement(u, at), id);
    SelectsExactlyWhen(u, id, s.jobs[id], at);
  }

  /** A forced requeue puts what it selects back at once, with its definition and attempts, and says why. */
  lemma ForcedRequeueLeaves(s: State, u: Update, at: Time, id: Id)
    requires Reachable(s) && Enabled(s, Statement(u, at)) && id in s.jobs && u.IsForced()
    ensures id in Step(s, Statement(u, at)).jobs
    ensures var r, after := s.jobs[id], Step(s, Statement(u, at)).jobs[id];
            if id !in Affected(s.jobs, u, at) then after == r
            else if u.Release? then RequeuedFrom(after, r, at, "released by shutting down worker")
            else if u.ForceUnlock? then RequeuedFrom(after, r, at, "released by operator")
            else if u.RecoverStale? then RequeuedFrom(after, r, at, "recovered stale running job")
            else RequeuedFrom(after, r, at, "recovered dead worker job")
  {
    hide Inv, Execute, RespectsLocks, Step, Selects;
    ReachableInv(s);
    UpdateLeaves(s, Statement(u, at), id);
  }

  /** A claim that commits hands out its row for the next attempt, with its definition, and touches no other. */
  lemma ClaimLeaves(s: State, e: Event, id: Id)
    requires Reachable(s) && Enabled(s, e) && e.CommitClaim? && id in s.jobs
    ensures id in Step(s, e).jobs
    ensures var p, r, after := s.loops[e.owner].phase, s.jobs[id], Step(s, e).jobs[id];
            if id == p.id then ClaimedFrom(after, r, e.owner, p.at) else after == r
  {
    hide Inv, Execute, Step;
    ReachableInv(s);
    UpdateLeaves(s, e, id);
  }

  /** A renewal moves the lock time of a held job and nothing else, and wakes nobody. */
  lemma RenewalLeaves(s: State, owner: string, at: Time)
    requires Reachable(s) && owner in s.loops && s.loops[owner].phase.Handling?
    ensures var e, p := Renew(owner, at, true, false), s.loops[owner].phase;
            && Enabled(s, e) && Step(s, e).inFlight == s.inFlight && Step(s, e).jobs.Keys == s.jobs.Keys
            && forall id :: id in s.jobs ==>
                 Step(s, e).jobs[id] ==
                 if id == p.id && Current(s, p.id, p.claim) then s.jobs[id].(lockedAt := Some(at)) else s.jobs[id]
  {
    var p := s.loops[owner].phase;
    ResultCountsExactlyWhenCurrent(s, owner, RenewLock(p.id, owner), at);
    hide Inv, Current, Reachable;
    forall id | id in s.jobs
      ensures Selects(RenewLock(p.id, owner), id, s.jobs[id], at) <==>
              id in Affected(s.jobs, RenewLock(p.id, owner), at)
    {
    }
    hide Selects;
  }

  lemma FinishRuns(s: State, owner: string, u: Update, at: Time)
    requires owner in s.loops && s.loops[owner].phase.Handling? && IsResult(u, owner, s.loops[owner].phase)
    ensures var e := Finish(owner, u, at, true); Enabled(s, e) && ChangeOf(s, e) == Updates(u, at)
  {
  }

  lemma ResultLeaves(s: State, owner: string, u: Update, at: Time)
    requires Reachable(s) && owner in s.loops && s.loops[owner].phase.Handling?
    requires var p := s.loops[owner].phase; Current(s, p.id, p.claim) && IsResult(u, owner, p)
    ensures var p := s.loops[owner].phase; var e := Finish(owner, u, at, true);
            && p.id in s.jobs && Enabled(s, e) && p.id in Step(s, e).jobs
            && Leaves(u, s.jobs[p.id], Step(s, e).jobs[p.id], at)
            && (u.FailLocked? ==> u.maxAttempts == s.jobs[p.id].maxAttempts)
  {
    var p := s.loops[owner].phase;
    FinishRuns(s, owner, u, at);
    ReachableInv(s);
    ResultCountsExactlyWhenCurrent(s, owner, u, at);
    assert u.FailLocked? ==> u.maxAttempts == p.maxAttempts;
    hide Inv, Enabled, Step, ChangeOf, Selects, Current, Reachable, IsResult, Leaves;
    assert p.id in Affected(s.jobs, u, at);
    UpdateLeaves(s, Finish(owner, u, at, true), p.id);
  }

  /** A handler's success: the job it is handling is succeeded, unlocked and finished now. */
  lemma SuccessLeaves(s: State, owner: string, at: Time)
    requires Reachable(s) && owner in s.loops && s.loops[owner].phase.Handling?
    requires var p := s.loops[owner].phase; Current(s, p.id, p.claim)
    ensures var p := s.loops[owner].phase; var e := Finish(owner, CompleteLocked(p.id, owner), at, true);
            && Enabled(s, e) && p.id in Step(s, e).jobs
            && EndedFrom(Step(s, e).jobs[p.id], s.jobs[p.id], Succeeded, at, None)
  {
    ResultLeaves(s, owner, CompleteLocked(s.loops[owner].phase.id, owner), at);
    hide Inv, Enabled, Step, Current, Reachable, EndedFrom;
  }

  /** And it stays that way: in no continuation is the job waiting or running again. */
  lemma SuccessIsForever(s: State, owner: string, at: Time, events: seq<Event>, end: State)
    requires Reachable(s) && owner in s.loops && s.loops[owner].phase.Handling?
    requires var p := s.loops[owner].phase; Current(s, p.id, p.claim)
    requires var p := s.loops[owner].phase; var e := Finish(owner, CompleteLocked(p.id, owner), at, true);
             Enabled(s, e) && Path(Step(s, e), events, end)
    ensures var id := s.loops[owner].phase.id;
            id in end.jobs ==> EndedFrom(end.jobs[id], s.jobs[id], Succeeded, at, None)
  {
    var p := s.loops[owner].phase;
    var e := Finish(owner, CompleteLocked(p.id, owner), at, true);
    ReachableInv(s);
    StepKeepsInv(s, e);
    SuccessLeaves(s, owner, at);
    TableIdsAreBorn(Step(s, e), p.id);
    SucceededIsFinal(Step(s, e), events, end, p.id);
    hide Inv, Step, Path, Current, Reachable, Enabled;
  }

  /** A handler's failure, and a job without a handler: failed for good at the limit, else waiting out the backoff. */
  lemma FailureLeaves(s: State, owner: string, u: Update, at: Time)
    requires Reachable(s) && owner in s.loops && s.loops[owner].phase.Handling?
    requires var p := s.loops[owner].phase; Current(s, p.id, p.claim) && IsResult(u, owner, p) && u.FailLocked?
    ensures var p := s.loops[owner].phase; var e := Finish(owner, u, at, true);
            && Enabled(s, e) && p.id in Step(s, e).jobs
            && var r, after := s.jobs[p.id], Step(s, e).jobs[p.id];
               if u.attempt < r.maxAttempts then
                 && WaitsFrom(after, at + u.backoff, Some(u.reason))
                 && SameDefinition(after, r) && SameAttempts(after, r)
               else EndedFrom(after, r, Failed, at, Some(u.reason))
  {
    ResultLeaves(s, owner, u, at);
    hide Inv, Enabled, Step, Current, Reachable, EndedFrom, WaitsFrom, SameDefinition, SameAttempts, IsResult;
  }

  // ---------------------------------------------------------------- where a row's definition comes from

  /** The event inserts the job, or overwrites it while it waits. */
  ghost predicate Defines(s: State, e: Event, id: Id) {
    && e.Enqueue? && EnqueuedId(s.jobs, e.newId, e.q) == id
    && (id in s.jobs ==> e.q.mode != Dedupe && s.jobs[id].status == Queued)
  }

  /** Only such an event changes what a job asks for: it then asks for what the request does. */
  lemma StepKeepsDefinition(s: State, e: Event, id: Id)
    requires Inv(s) && Enabled(s, e) && id in Step(s, e).jobs
    ensures Defines(s, e, id) ==> e.Enqueue? && Carries(Step(s, e).jobs[id], e.q)
    ensures Defines(s, e, id) && id !in s.jobs ==> InsertedFor(Step(s, e).jobs[id], e.q, e.at)
    ensures !Defines(s, e, id) ==> id in s.jobs && SameDefinition(Step(s, e).jobs[id], s.jobs[id])
    ensures id in s.jobs ==> Step(s, e).jobs[id].createdAt == s.jobs[id].createdAt
  {
    hide Inv, Enabled, Step, ChangeOf, Carries, InsertedFor;
    if e.Enqueue? {
      EnqueueDefines(s, e, id);
    } else {
      OthersKeepDefinition(s, e, id);
    }
  }

  lemma OthersKeepDefinition(s: State, e: Event, id: Id)
    requires Inv(s) && Enabled(s, e) && !e.Enqueue? && id in Step(s, e).jobs
    ensures id in s.jobs && SameDefinition(Step(s, e).jobs[id], s.jobs[id])
  {
    StepByChange(s, e);
    if ChangeOf(s, e).Updates? {
      UpdateRowsStay(s, e, id);
      UpdateLeaves(s, e, id);
      hide Inv, Enabled, Step, ChangeOf, Selects, Leaves, Legal, Changed, SameDefinition;
      var c := ChangeOf(s, e);
      if Selects(c.u, id, s.jobs[id], c.at) {
        LeavesDefinition(c.u, s.jobs[id], Step(s, e).jobs[id], c.at);
      } else {
        DefinitionIsItself(s.jobs[id]);
      }
    } else {
      hide Inv, Step, Prunable, Execute;
    }
  }

  lemma DefinitionIsItself(r: Row)
    ensures SameDefinition(r, r)
  {
  }

  lemma UpdateRowsStay(s: State, e: Event, id: Id)
    requires Inv(s) && Enabled(s, e) && ChangeOf(s, e).Updates? && id in Step(s, e).jobs
    ensures id in s.jobs && !e.Enqueue?
  {
    StepByChange(s, e);
    hide Inv, Step, Selects, SetRow, Execute;
  }

  lemma NewIdIsNew(s: State, e: Event)
    requires Inv(s) && Enabled(s, e) && e.Enqueue?
    ensures e.newId !in s.jobs
  {
    StepByChange(s, e);
    hide Inv;
  }

  lemma EnqueueDefines(s: State, e: Event, id: Id)
    requires Inv(s) && Enabled(s, e) && e.Enqueue? && id in Step(s, e).jobs
    ensures Defines(s, e, id) ==> Carries(Step(s, e).jobs[id], e.q)
    ensures Defines(s, e, id) && id !in s.jobs ==> InsertedFor(Step(s, e).jobs[id], e.q, e.at)
    ensures !Defines(s, e, id) ==> id in s.jobs && SameDefinition(Step(s, e).jobs[id], s.jobs[id])
    ensures id in s.jobs ==> Step(s, e).jobs[id].createdAt == s.jobs[id].createdAt
  {
    NewIdIsNew(s, e);
    hide RespectsLocks, InsertedFor, Carries;
    NewRowIsInserted(e.q, e.at);
    InsertedCarries(NewRow(e.q, e.at), e.q, e.at);
    if id in s.jobs {
      EnqueueAt(s, e.newId, e.q, e.at, id);
      if HoldsKey(s.jobs[id], e.q.jobKey) {
        HolderOf(s, e.q.jobKey, id);
        OverwriteCarries(s.jobs[id], e.q);
      }
    }
    hide Inv, Overwrite, NewRow;
  }

  /** An enqueue under a free key leaves a new row that asks for what the request does, and no other row changes. */
  lemma InsertLeavesRow(s: State, e: Event)
    requires Reachable(s) && Enabled(s, e) && e.Enqueue?
    requires forall id :: id in s.jobs ==> !HoldsKey(s.jobs[id], e.q.jobKey)
    ensures EnqueuedId(s.jobs, e.newId, e.q) == e.newId && e.newId !in s.jobs
    ensures var after := Step(s, e).jobs;
            && e.newId in after && InsertedFor(after[e.newId], e.q, e.at)
            && forall id :: id in s.jobs ==> id in after && after[id] == s.jobs[id]
  {
    ReachableInv(s);
    NewIdIsNew(s, e);
    hide Inv, RespectsLocks;
    InsertLeaves(s.jobs, e.newId, e.q, e.at);
    hide InsertedFor;
  }

  lemma InsertedCarries(r: Row, q: Request, at: Time)
    requires InsertedFor(r, q, at)
    ensures Carries(r, q)
  {
  }

  /** The request that defined the job last in a run, if any event of the run did. */
  ghost function LastDefinition(s: State, events: seq<Event>, id: Id): Option<Request>
    decreases |events|
  {
    if events == [] || !Enabled(s, events[0]) then None
    else
      var later := LastDefinition(Step(s, events[0]), events[1..], id);
      if later.Some? then later
      else if Defines(s, events[0], id) then Some(events[0].q)
      else None
  }

  /**
  Over every run a job asks for what the last insert or overwrite asked for, and for what it asked for at the start if
  there was none: no claim, failure, requeue, retry or operator statement changes it.
  */
  lemma {:induction false} DefinitionIsTheLastGiven(s: State, events: seq<Event>, end: State, id: Id)
    requires Inv(s) && Path(s, events, end) && id in end.jobs
    ensures match LastDefinition(s, events, id)
            case Some(q) => Carries(end.jobs[id], q)
            case None => id in s.jobs && SameDefinition(end.jobs[id], s.jobs[id])
    decreases |events|
  {
    hide Inv, Enabled, Step, Defines, Carries;
    if events != [] {
      var next := Step(s, events[0]);
      StepKeepsInv(s, events[0]);
      DefinitionIsTheLastGiven(next, events[1..], end, id);
      if LastDefinition(next, events[1..], id).None? {
        StepKeepsDefinition(s, events[0], id);
        if Defines(s, events[0], id) {
          SameDefinitionCarries(next.jobs[id], end.jobs[id], events[0].q);
        }
      }
    }
  }

  lemma SameDefinitionCarries(a: Row, b: Row, q: Request)
    requires Carries(a, q) && SameDefinition(b, a)
    ensures Carries(b, q)
  {
  }

  /** When a job was created never changes. */
  lemma {:induction false} CreationIsFixed(s: State, events: seq<Event>, end: State, id: Id)
    requires Inv(s) && Path(s, events, end) && id in s.jobs && id in end.jobs
    ensures end.jobs[id].createdAt == s.jobs[id].createdAt
    decreases |events|
  {
    hide Inv, Enabled, Step;
    if events != [] {
      var next := Step(s, events[0]);
      StepKeepsInv(s, events[0]);
      TableIdsAreBorn(s, id);
      BornStaysBorn(s, events[0], id);
      if id in next.jobs {
        StepKeepsDefinition(s, events[0], id);
        CreationIsFixed(next, events[1..], end, id);
      } else {
        SucceededIsFinal(next, events[1..], end, id);
      }
    }
  }

  lemma BornStaysBorn(s: State, e: Event, id: Id)
    requires Inv(s) && Enabled(s, e) && id in s.jobs && id in s.born
    ensures id in Step(s, e).born
  {
    hide Inv, Enabled, Step;
    StepKeepsFinished(s, e, id);
  }

  /** What a claim hands out is what the last insert or overwrite of the job asked for. */
  lemma ClaimHandsOutTheRequest(events: seq<Event>, s: State, e: Event)
    requires Path(INITIAL, events, s) && Enabled(s, e) && e.CommitClaim?
    ensures var id := s.loops[e.owner].phase.id;
            && id in Step(s, e).jobs && LastDefinition(INITIAL, events, id).Some?
            && Carries(Step(s, e).jobs[id], LastDefinition(INITIAL, events, id).value)
  {
    var id := s.loops[e.owner].phase.id;
    assert Reachable(s);
    ReachableInv(s);
    InitialInv();
    SelectedRowIsQueued(s, e.owner);
    hide Inv, Step, Path, Carries, LastDefinition, Execute;
    ClaimLeaves(s, e, id);
    DefinitionIsTheLastGiven(INITIAL, events, s, id);
    var q := LastDefinition(INITIAL, events, id);
    if q.Some? {
      SameDefinitionCarries(s.jobs[id], Step(s, e).jobs[id], q.value);
    }
  }

  // ---------------------------------------------------------------- what is recorded about a handler

  /** The statement with which `run_claimed_job` ends a handler. */
  function ResultOf(end: Lifecycle.HandlerEnd, owner: string, p: Phase, reason: string, backoff: Time): Update
    requires p.Handling?
  {
    if end.ReturnedOk? then CompleteLocked(p.id, owner)
    else FailLocked(p.id, owner, p.attempt, p.maxAttempts, reason, backoff)
  }

  /**
  When the claim is still current, what the worker records is what its statement makes of the row: succeeded, failed for
  good, or waiting for a retry.
  */
  lemma RecordedIsWhatTheRowSays(
      s: State, owner: string, renewals: seq<Lifecycle.Reply>, end: Lifecycle.HandlerEnd, reason: string, backoff: Time,
      at: Time)
    requires Reachable(s) && owner in s.loops && s.loops[owner].phase.Handling? && Lifecycle.Lost !in renewals
    requires var p := s.loops[owner].phase; Current(s, p.id, p.claim)
    ensures var p := s.loops[owner].phase; var u := ResultOf(end, owner, p, reason, backoff);
            var e := Finish(owner, u, at, true);
            && Affected(s.jobs, u, at) == {p.id} && Enabled(s, e) && p.id in Step(s, e).jobs
            && var recorded := Lifecycle.OutcomeOf(renewals, end, Lifecycle.Held, p.attempt, p.maxAttempts);
               var status := Step(s, e).jobs[p.id].status;
               && (recorded == Lifecycle.Outcome.Succeeded <==> status == Succeeded)
               && (recorded == Lifecycle.Outcome.Failed(true) <==> status == Failed)
               && (recorded == Lifecycle.Outcome.Failed(false) <==> status == Queued)
  {
    var p := s.loops[owner].phase;
    var u := ResultOf(end, owner, p, reason, backoff);
    ResultCountsExactlyWhenCurrent(s, owner, u, at);
    if end.ReturnedOk? {
      SuccessLeaves(s, owner, at);
    } else {
      FailureLeaves(s, owner, u, at);
    }
    hide Step, Enabled, Reachable, Current, Affected, Selects;
  }

  /** When it is not, a success is recorded as abandoned, and the statement changes nothing. */
  lemma LateSuccessIsAbandoned(s: State, owner: string, renewals: seq<Lifecycle.Reply>, at: Time)
    requires Reachable(s) && owner in s.loops && s.loops[owner].phase.Handling?
    requires var p := s.loops[owner].phase; !Current(s, p.id, p.claim)
    ensures var p := s.loops[owner].phase; var u := CompleteLocked(p.id, owner);
            && Affected(s.jobs, u, at) == {} && Apply(s.jobs, u, at) == s.jobs
            && Lifecycle.OutcomeOf(renewals, Lifecycle.ReturnedOk, Lifecycle.Lost, p.attempt, p.maxAttempts)
               == Lifecycle.Outcome.Abandoned
  {
    ResultCountsExactlyWhenCurrent(s, owner, CompleteLocked(s.loops[owner].phase.id, owner), at);
  }
}
