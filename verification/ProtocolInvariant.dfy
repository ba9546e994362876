/** Every event keeps the protocol invariant. */
module ProtocolInvariant {
  import opened Prelude
  import opened Jobs
  import opened TableInvariant
  import opened Claiming
  import opened Protocol

  // ---------------------------------------------------------------- the trigger theorem

  /**
  A committed UPDATE that fires neither trigger adds no job to what any worker could claim, at any time and for any
  names. So every statement that makes new work available (an insert, a requeue, a reschedule, a running job leaving
  its named queue) notifies.
  */
  lemma SilentUpdateAddsNoWork(t: Table, u: Update, now: Time, id: Id, names: set<string>, at: Time)
    requires TableOk(t) && ClaimsQueued(t, u) && !Notifies(t, u, now)
    requires Claimable(Apply(t, u, now), id, names, at)
    ensures Claimable(t, id, names, at)
  {
    var after := Apply(t, u, now);
    forall k | k in t && Selects(u, k, t[k], now) ensures after[k].status != Queued {
      assert !Fires(u, t[k], SetRow(u, t[k], now));
    }
    assert after[id] == t[id];
    if t[id].queueName.Some? {
      forall other | other in t && t[other].status == Running ensures t[other].queueName != t[id].queueName {
        if Selects(u, other, t[other], now) && after[other].status != Running {
          assert !Fires(u, t[other], SetRow(u, t[other], now));
        } else {
          assert after[other].status == Running && after[other].queueName == t[other].queueName;
        }
      }
    }
  }

  /** An enqueue that does not notify changes nothing: its key is held by a running job. */
  lemma SilentUpsertIsIdle(t: Table, newId: Id, q: Request, now: Time)
    requires !UpsertNotifies(t, q)
    ensures Upsert(t, newId, q, now) == t
  {
  }

  // ---------------------------------------------------------------- one committed UPDATE

  /** A retry after failure decides with the row's own attempt numbers. */
  ghost predicate HonestFailure(t: Table, u: Update) {
    u.FailLocked? && u.id in t && t[u.id].lockedBy == Some(u.owner) && u.attempt < u.maxAttempts ==>
      u.attempt == t[u.id].attempt && u.maxAttempts == t[u.id].maxAttempts
  }

  /** The conditions under which the protocol runs a statement. */
  ghost predicate Runnable(s: State, u: Update, at: Time) {
    && ClaimsQueued(s.jobs, u) && HonestFailure(s.jobs, u)
    && Execute(s.jobs, u, at).Committed?
    && RespectsLocks(s, Apply(s.jobs, u, at))
    && (u.Claim? ==> u.owner in s.loops && s.loops[u.owner].phase == Ready)
  }

  lemma RowAccounting(u: Update, id: Id, r: Row, g: Ledger, at: Time, claim: nat)
    requires RowOk(r) && Accounted(r, g) && Selects(u, id, r, at)
    requires u.Claim? ==> r.status == Queued
    requires u.FailLocked? && u.attempt < u.maxAttempts ==> u.attempt == r.attempt && u.maxAttempts == r.maxAttempts
    ensures Accounted(SetRow(u, r, at), LedgerAfter(u, g, claim))
  {
  }

  lemma RunKeepsLedger(s: State, u: Update, at: Time, id: Id)
    requires id in s.jobs && id in s.ledgers && RowOk(s.jobs[id])
    requires Accounted(s.jobs[id], s.ledgers[id]) && s.ledgers[id].claim <= s.lastClaim
    requires ClaimsQueued(s.jobs, u) && HonestFailure(s.jobs, u)
    ensures var after := Run(s, u, at);
            Accounted(after.jobs[id], after.ledgers[id]) && after.ledgers[id].claim <= after.lastClaim
  {
    if Selects(u, id, s.jobs[id], at) {
      RowAccounting(u, id, s.jobs[id], s.ledgers[id], at, s.lastClaim + 1);
    }
  }

  lemma RunKeepsLedgers(s: State, u: Update, at: Time)
    requires TableOk(s.jobs) && LedgersOk(s) && Runnable(s, u, at)
    ensures LedgersOk(Run(s, u, at))
  {
    var after := Run(s, u, at);
    assert after.jobs.Keys == s.jobs.Keys && after.ledgers.Keys == s.ledgers.Keys;
    forall id | id in s.jobs
      ensures Accounted(after.jobs[id], after.ledgers[id]) && after.ledgers[id].claim <= after.lastClaim
    {
      RunKeepsLedger(s, u, at, id);
    }
  }

  lemma RunKeepsOwners(s: State, u: Update, at: Time)
    requires TableOk(s.jobs) && OwnersOk(s) && Runnable(s, u, at)
    ensures OwnersOk(Run(s, u, at))
  {
    var after := Run(s, u, at);
    forall id | id in after.jobs && after.jobs[id].lockedBy.Some? ensures after.jobs[id].lockedBy.value in after.loops {
      if Selects(u, id, s.jobs[id], at) && !u.Claim? {
        NonClaimKeepsOrReleases(u, id, s.jobs[id], at);
      }
    }
  }

  /** `Fenced`, for the row and ledger of the job a loop handles. */
  predicate FencedRow(r: Row, g: Ledger, owner: string, p: Phase)
    requires p.Handling?
  {
    && (r.lockedBy == Some(owner) <==> r.status == Running && g.claim == p.claim)
    && (r.lockedBy == Some(owner) ==> r.attempt == p.attempt && r.maxAttempts == p.maxAttempts)
  }

  lemma RowStaysFenced(u: Update, r: Row, g: Ledger, at: Time, claim: nat, owner: string, p: Phase)
    requires p.Handling? && FencedRow(r, g, owner, p) && RowOk(r) && Selects(u, p.id, r, at)
    requires u.Claim? ==> r.status == Queued && u.owner != owner && p.claim < claim
    ensures FencedRow(SetRow(u, r, at), LedgerAfter(u, g, claim), owner, p)
  {
    if !u.Claim? {
      NonClaimKeepsOrReleases(u, p.id, r, at);
    }
  }

  lemma RunKeepsFenced(s: State, u: Update, at: Time, owner: string)
    requires LedgersOk(s) && Runnable(s, u, at)
    requires owner in s.loops && s.loops[owner].phase.Handling? && Fenced(s, owner, s.loops[owner].phase)
    requires var id := s.loops[owner].phase.id; id in s.jobs ==> RowOk(s.jobs[id])
    ensures Fenced(Run(s, u, at), owner, s.loops[owner].phase)
  {
    hide Execute, RespectsLocks, Notifies, HonestFailure, Sent, SetRow, LedgerAfter, Selects, RowOk, Accounted;
    var p := s.loops[owner].phase;
    if p.id in s.jobs {
      assert FencedRow(s.jobs[p.id], s.ledgers[p.id], owner, p);
      if Selects(u, p.id, s.jobs[p.id], at) {
        ClaimIdIs(u, p.id, s.jobs[p.id], at);
        RowStaysFenced(u, s.jobs[p.id], s.ledgers[p.id], at, s.lastClaim + 1, owner, p);
      }
    }
  }

  lemma ClaimIdIs(u: Update, id: Id, r: Row, at: Time)
    requires Selects(u, id, r, at)
    ensures u.Claim? ==> u.id == id
  {
  }

  lemma RunKeepsWakeable(s: State, u: Update, at: Time, owner: string)
    requires TableOk(s.jobs) && Runnable(s, u, at)
    requires owner in s.loops && s.loops[owner].phase.Parked? && Wakeable(s, s.loops[owner])
    ensures Wakeable(Run(s, u, at), s.loops[owner])
  {
    var l := s.loops[owner];
    if Notifies(s.jobs, u, at) {
      assert l.worker in Workers(s);
    } else {
      forall id ensures Claimable(Apply(s.jobs, u, at), id, l.names, l.phase.at) ==>
                        Claimable(s.jobs, id, l.names, l.phase.at)
      {
        if Claimable(Apply(s.jobs, u, at), id, l.names, l.phase.at) {
          SilentUpdateAddsNoWork(s.jobs, u, at, id, l.names, l.phase.at);
        }
      }
    }
  }

  lemma RunKeepsLoop(s: State, u: Update, at: Time, owner: string)
    requires TableOk(s.jobs) && LedgersOk(s) && Runnable(s, u, at)
    requires owner in s.loops && LoopOk(s, owner, s.loops[owner])
    ensures LoopOk(Run(s, u, at), owner, s.loops[owner])
  {
    hide TableOk, Runnable, Apply;
    var l := s.loops[owner];
    match l.phase
    case Handling(id, _, _, _) =>
      if id in s.jobs {
        TableRowOk(s.jobs, id);
      }
      RunKeepsFenced(s, u, at, owner);
    case Parked(_, _, _) => RunKeepsWakeable(s, u, at, owner);
    case Selecting(_, _, _) => RunKeepsHeld(s, u, at, owner);
    case _ =>
  }

  lemma TableRowOk(t: Table, id: Id)
    requires TableOk(t) && id in t
    ensures RowOk(t[id])
  {
  }

  lemma RunKeepsHeld(s: State, u: Update, at: Time, owner: string)
    requires Runnable(s, u, at) && owner in s.loops && s.loops[owner].phase.Selecting? && Held(s, s.loops[owner])
    ensures Held(Run(s, u, at), s.loops[owner])
  {
    hide Execute, HonestFailure, ClaimsQueued;
    assert RowLocked(s, s.loops[owner].phase.id);
  }

  lemma RunKeepsLoops(s: State, u: Update, at: Time)
    requires TableOk(s.jobs) && LedgersOk(s) && LoopsOk(s) && Runnable(s, u, at)
    ensures LoopsOk(Run(s, u, at))
  {
    hide TableOk, LedgersOk, Runnable, Run, LoopOk;
    forall owner | owner in s.loops ensures LoopOk(Run(s, u, at), owner, s.loops[owner]) {
      RunKeepsLoop(s, u, at, owner);
    }
  }

  lemma RunKeepsInv(s: State, u: Update, at: Time)
    requires Inv(s) && Runnable(s, u, at)
    ensures Inv(Run(s, u, at))
  {
    ExecuteKeepsTableOk(s.jobs, u, at);
    RunKeepsLedgers(s, u, at);
    RunKeepsOwners(s, u, at);
    RunKeepsLoops(s, u, at);
    hide TableOk, LoopsOk, LedgersOk, OwnersOk;
    assert Run(s, u, at).jobs.Keys == s.jobs.Keys;
  }

  // ---------------------------------------------------------------- loop steps and deliveries

  lemma SetPhaseKeepsInv(s: State, owner: string, phase: Phase)
    requires Inv(s) && owner in s.loops
    requires LoopOk(s, owner, s.loops[owner].(phase := phase))
    requires phase.Selecting? ==> !RowLocked(s, phase.id)
    ensures Inv(SetPhase(s, owner, phase))
  {
    hide TableOk, Accounted, Claimable;
    var after := SetPhase(s, owner, phase);
    forall o | o in after.loops ensures LoopOk(after, o, after.loops[o]) {
      assert o != owner ==> LoopOk(s, o, s.loops[o]);
    }
  }

  lemma StartLoopKeepsInv(s: State, owner: string, worker: string, index: string, suffix: string, names: set<string>)
    requires Inv(s) && owner !in s.loops && IsOwnerOf(owner, worker, index, suffix)
    ensures Inv(s.(loops := s.loops[owner := Loop(worker, names, Ready)]))
  {
    hide TableOk, Accounted, Claimable;
    var after := s.(loops := s.loops[owner := Loop(worker, names, Ready)]);
    assert IssuedBy(owner, worker);
    forall o | o in after.loops ensures LoopOk(after, o, after.loops[o]) {
      assert o != owner ==> LoopOk(s, o, s.loops[o]);
    }
  }

  lemma DeliverKeepsLoop(s: State, worker: string, last: bool, owner: string, l: Loop)
    requires LoopOk(s, owner, l)
    ensures LoopOk(Delivered(s, worker, last), owner, WokenLoop(l, worker))
  {
    hide Claimable;
  }

  lemma DeliverKeepsInv(s: State, worker: string, last: bool)
    requires Inv(s)
    ensures Inv(Delivered(s, worker, last))
  {
    hide TableOk, Accounted, IssuedBy, LoopOk;
    var after := Delivered(s, worker, last);
    assert after.loops.Keys == s.loops.Keys;
    forall o | o in after.loops ensures LoopOk(after, o, after.loops[o]) {
      DeliverKeepsLoop(s, worker, last, o, s.loops[o]);
    }
  }

  // ---------------------------------------------------------------- enqueue and prune

  lemma EnqueueKeepsFenced(s: State, newId: Id, q: Request, at: Time, owner: string, p: Phase)
    requires p.Handling? && Fenced(s, owner, p) && newId !in s.born
    requires s.ledgers.Keys == s.jobs.Keys && forall id :: id in s.jobs ==> RowOk(s.jobs[id])
    ensures Fenced(RunEnqueue(s, newId, q, at), owner, p)
  {
  }

  lemma EnqueueKeepsLoop(s: State, newId: Id, q: Request, at: Time, owner: string)
    requires Inv(s) && Enabled(s, Enqueue(newId, q, at)) && owner in s.loops
    ensures LoopOk(RunEnqueue(s, newId, q, at), owner, s.loops[owner])
  {
    var l := s.loops[owner];
    assert LoopOk(s, owner, l);
    match l.phase
    case Handling(_, _, _, _) => EnqueueKeepsFenced(s, newId, q, at, owner, l.phase);
    case Parked(_, _, _) =>
      assert l.worker in Workers(s);
      if !UpsertNotifies(s.jobs, q) {
        SilentUpsertIsIdle(s.jobs, newId, q, at);
      }
    case Selecting(id, _, _) =>
      assert RowLocked(s, id);
    case _ =>
  }

  lemma EnqueueKeepsLoops(s: State, newId: Id, q: Request, at: Time)
    requires Inv(s) && Enabled(s, Enqueue(newId, q, at))
    ensures LoopsOk(RunEnqueue(s, newId, q, at))
  {
    forall owner | owner in s.loops ensures LoopOk(RunEnqueue(s, newId, q, at), owner, s.loops[owner]) {
      EnqueueKeepsLoop(s, newId, q, at, owner);
    }
    assert LoopsOk(s);
    hide LoopOk, TableOk, LedgersOk;
  }

  lemma EnqueueKeepsLedgers(s: State, newId: Id, q: Request, at: Time)
    requires LedgersOk(s) && TableOk(s.jobs) && newId !in s.jobs && q.maxAttempts > 0
    ensures LedgersOk(RunEnqueue(s, newId, q, at))
  {
    assert forall id :: id in s.jobs ==> RowOk(s.jobs[id]);
    hide TableOk, Sent, UpsertNotifies;
  }

  lemma EnqueueKeepsOwners(s: State, newId: Id, q: Request, at: Time)
    requires OwnersOk(s)
    ensures OwnersOk(RunEnqueue(s, newId, q, at))
  {
    hide Sent, UpsertNotifies, IssuedBy;
  }

  lemma EnqueueKeepsHistory(s: State, newId: Id, q: Request, at: Time)
    requires HistoryOk(s) && newId !in s.born
    ensures HistoryOk(RunEnqueue(s, newId, q, at))
  {
    hide Sent, UpsertNotifies;
  }

  lemma EnqueueKeepsInv(s: State, newId: Id, q: Request, at: Time)
    requires Inv(s) && Enabled(s, Enqueue(newId, q, at))
    ensures Inv(RunEnqueue(s, newId, q, at))
  {
    UpsertKeepsTableOk(s.jobs, newId, q, at);
    EnqueueKeepsLoops(s, newId, q, at);
    EnqueueKeepsLedgers(s, newId, q, at);
    EnqueueKeepsOwners(s, newId, q, at);
    EnqueueKeepsHistory(s, newId, q, at);
    hide TableOk, LoopsOk, LedgersOk, OwnersOk, HistoryOk;
  }

  /** Deleting finished jobs makes nothing claimable. */
  lemma PruneAddsNoWork(t: Table, retainFor: Time, now: Time, id: Id, names: set<string>, at: Time)
    requires Claimable(Prune(t, retainFor, now), id, names, at)
    ensures Claimable(t, id, names, at)
  {
    var after := Prune(t, retainFor, now);
    forall other | other in t && t[other].status == Running
      ensures t[id].queueName == None || t[other].queueName != t[id].queueName
    {
      assert other in after && after[other].status == Running;
    }
  }

  lemma PruneKeepsHistory(s: State, retainFor: Time, at: Time)
    requires HistoryOk(s)
    ensures HistoryOk(RunPrune(s, retainFor, at))
  {
    var after := RunPrune(s, retainFor, at);
    assert after.jobs.Keys + after.graves.Keys == s.jobs.Keys + s.graves.Keys;
  }

  lemma PruneKeepsLoop(s: State, retainFor: Time, at: Time, owner: string)
    requires Inv(s) && owner in s.loops
    ensures LoopOk(RunPrune(s, retainFor, at), owner, s.loops[owner])
  {
    var l := s.loops[owner];
    assert LoopOk(s, owner, l);
    if l.phase.Parked? {
      forall id | Claimable(Prune(s.jobs, retainFor, at), id, l.names, l.phase.at)
        ensures Claimable(s.jobs, id, l.names, l.phase.at)
      {
        PruneAddsNoWork(s.jobs, retainFor, at, id, l.names, l.phase.at);
      }
    }
  }

  lemma PruneKeepsLedgersAndOwners(s: State, retainFor: Time, at: Time)
    requires LedgersOk(s) && OwnersOk(s)
    ensures LedgersOk(RunPrune(s, retainFor, at)) && OwnersOk(RunPrune(s, retainFor, at))
  {
    hide Accounted, IssuedBy, Prunable;
    assert RunPrune(s, retainFor, at).ledgers.Keys == RunPrune(s, retainFor, at).jobs.Keys;
  }

  lemma PruneKeepsLoops(s: State, retainFor: Time, at: Time)
    requires Inv(s)
    ensures LoopsOk(RunPrune(s, retainFor, at))
  {
    forall owner | owner in s.loops ensures LoopOk(RunPrune(s, retainFor, at), owner, s.loops[owner]) {
      PruneKeepsLoop(s, retainFor, at, owner);
    }
    assert LoopsOk(s);
    hide LoopOk, TableOk, LedgersOk, OwnersOk, HistoryOk;
  }

  lemma PruneKeepsInv(s: State, retainFor: Time, at: Time)
    requires Inv(s)
    ensures Inv(RunPrune(s, retainFor, at))
  {
    hide TableOk, LoopsOk, LedgersOk, OwnersOk, HistoryOk;
    PruneKeepsTableOk(s.jobs, retainFor, at);
    PruneKeepsHistory(s, retainFor, at);
    PruneKeepsLedgersAndOwners(s, retainFor, at);
    PruneKeepsLoops(s, retainFor, at);
  }

  // ---------------------------------------------------------------- the events

  lemma LockedRowIsQueued(s: State, id: Id)
    requires TableOk(s.jobs) && LoopsOk(s) && RowLocked(s, id) && id in s.jobs
    ensures s.jobs[id].status == Queued && s.jobs[id].lockedBy == None
  {
    hide QueuesSerial, KeysUnique;
    var owner :| owner in s.loops && s.loops[owner].phase.Selecting? && s.loops[owner].phase.id == id;
    assert LoopOk(s, owner, s.loops[owner]) && RowOk(s.jobs[id]);
  }

  /** A statement that selects by lock owner leaves the queued rows of pending claims alone. */
  lemma LockedRowsAreQueued(s: State, u: Update, at: Time)
    requires TableOk(s.jobs) && LoopsOk(s)
    requires u.CompleteLocked? || u.RenewLock? || u.FailLocked?
    ensures RespectsLocks(s, Apply(s.jobs, u, at))
  {
    hide LoopsOk, TableOk, SetRow, RowLocked;
    forall id | RowLocked(s, id) && id in s.jobs ensures !Selects(u, id, s.jobs[id], at) {
      LockedRowIsQueued(s, id);
    }
  }

  /** The statements a loop sends about the job it handles always commit, and decide with the row's own numbers. */
  lemma LoopStatementsRun(s: State, owner: string, u: Update, at: Time)
    requires Inv(s) && owner in s.loops && s.loops[owner].phase.Handling?
    requires u == RenewLock(s.loops[owner].phase.id, owner) || IsResult(u, owner, s.loops[owner].phase)
    ensures Runnable(s, u, at)
  {
    assert LoopOk(s, owner, s.loops[owner]);
    LockedRowsAreQueued(s, u, at);
    RejectedExactlyWhen(s.jobs, u, at);
  }

  lemma CommitKeepsInv(s: State, owner: string, heard: bool)
    requires Inv(s) && Enabled(s, CommitClaim(owner, heard))
    ensures Inv(Step(s, CommitClaim(owner, heard)))
  {
    hide Inv, Runnable, Execute, Fenced, Apply;
    var p := s.loops[owner].phase;
    CommitRuns(s, owner);
    SetPhaseKeepsInv(s, owner, Ready);
    RunKeepsInv(SetPhase(s, owner, Ready), Claim(p.id, owner), p.at);
    if heard {
      HeardClaimIsFenced(s, owner);
      var after := AfterCommit(s, owner);
      var phase := Handling(p.id, after.lastClaim, after.jobs[p.id].attempt, after.jobs[p.id].maxAttempts);
      SetPhaseKeepsInv(after, owner, phase);
    }
  }

  lemma CommitRuns(s: State, owner: string)
    requires Inv(s) && owner in s.loops && s.loops[owner].phase.Selecting?
    requires Execute(s.jobs, Claim(s.loops[owner].phase.id, owner), s.loops[owner].phase.at).Committed?
    ensures var p := s.loops[owner].phase;
            Runnable(SetPhase(s, owner, Ready), Claim(p.id, owner), p.at)
  {
    assert LoopOk(s, owner, s.loops[owner]);
    CommitRespectsLocks(s, owner);
  }

  /** A loop that hears of its claim remembers the row's current claim number and attempts. */
  lemma HeardClaimIsFenced(s: State, owner: string)
    requires Inv(s) && owner in s.loops && s.loops[owner].phase.Selecting?
    ensures var id := s.loops[owner].phase.id; var after := AfterCommit(s, owner);
            && id in after.jobs
            && Fenced(after, owner, Handling(id, after.lastClaim, after.jobs[id].attempt, after.jobs[id].maxAttempts))
  {
    hide Inv, Notifies, Sent;
    var id := s.loops[owner].phase.id;
    SelectedRowIsQueued(s, owner);
  }

  lemma SelectedRowIsQueued(s: State, owner: string)
    requires Inv(s) && owner in s.loops && s.loops[owner].phase.Selecting?
    ensures var id := s.loops[owner].phase.id;
            id in s.jobs && id in s.ledgers && id in s.born && s.jobs[id].status == Queued
  {
    assert LoopOk(s, owner, s.loops[owner]);
    hide QueuesSerial, KeysUnique, OwnersOk;
  }

  /** Once the claim takes its row out of the pending ones, no other pending claim holds the same row. */
  lemma CommitRespectsLocks(s: State, owner: string)
    requires Inv(s) && owner in s.loops && s.loops[owner].phase.Selecting?
    ensures var p := s.loops[owner].phase; var ready := SetPhase(s, owner, Ready);
            RespectsLocks(ready, Apply(ready.jobs, Claim(p.id, owner), p.at))
  {
    hide TableOk, LedgersOk, HistoryOk, OwnersOk, LoopOk, SetRow;
    var p := s.loops[owner].phase;
    var ready := SetPhase(s, owner, Ready);
    forall id | RowLocked(ready, id) ensures id != p.id {
      var o :| o in ready.loops && ready.loops[o].phase.Selecting? && ready.loops[o].phase.id == id;
      assert SameRow(s.loops[o].phase, p) ==> o == owner;
    }
  }

  lemma StatementKeepsInv(s: State, u: Update, at: Time)
    requires Inv(s) && Enabled(s, Statement(u, at))
    ensures Inv(Run(s, u, at))
  {
    RunKeepsInv(s, u, at);
  }

  /** The invariant is inductive: every event keeps it. */
  lemma StepKeepsInv(s: State, e: Event)
    requires Inv(s) && Enabled(s, e)
    ensures Inv(Step(s, e))
  {
    hide Inv, Runnable, Execute, Apply, Upsert, RespectsLocks;
    match e
    case Enqueue(newId, q, at) => EnqueueKeepsInv(s, newId, q, at);
    case Statement(u, at) => StatementKeepsInv(s, u, at);
    case PruneFinished(retainFor, at) => PruneKeepsInv(s, retainFor, at);
    case StartLoop(owner, worker, index, suffix, names) => StartLoopKeepsInv(s, owner, worker, index, suffix, names);
    case Arm(owner) => SetPhaseKeepsInv(s, owner, Armed(false));
    case Select(owner, id, at) => SetPhaseKeepsInv(s, owner, Selecting(id, at, s.loops[owner].phase.woken));
    case FindNothing(owner, at) => FindNothingKeepsInv(s, owner, at);
    case CommitClaim(owner, heard) => CommitKeepsInv(s, owner, heard);
    case LoseRace(owner) =>
      SetPhaseKeepsInv(s, owner, Parked(s.loops[owner].phase.at, false, s.loops[owner].phase.woken));
    case ClaimError(owner) => SetPhaseKeepsInv(s, owner, Ready);
    case Renew(owner, at, applied, stop) =>
      var u := RenewLock(s.loops[owner].phase.id, owner);
      LoopStatementsRun(s, owner, u, at);
      RunKeepsInv(s, u, at);
      SetPhaseKeepsInv(if applied then Run(s, u, at) else s, owner, Ready);
    case Finish(owner, u, at, applied) =>
      LoopStatementsRun(s, owner, u, at);
      RunKeepsInv(s, u, at);
      SetPhaseKeepsInv(if applied then Run(s, u, at) else s, owner, Ready);
    case Abort(owner) => SetPhaseKeepsInv(s, owner, Ended);
    case Deliver(worker, last) => DeliverKeepsInv(s, worker, last);
    case Unpark(owner) => SetPhaseKeepsInv(s, owner, Ready);
  }

  lemma FindNothingKeepsInv(s: State, owner: string, at: Time)
    requires Inv(s) && Enabled(s, FindNothing(owner, at))
    ensures Inv(Step(s, FindNothing(owner, at)))
  {
    var l := s.loops[owner];
    var none := Candidates(s.jobs, l.names, at) == {};
    if none {
      forall id ensures !Claimable(s.jobs, id, l.names, at) {
        assert id !in Candidates(s.jobs, l.names, at);
      }
    }
    SetPhaseKeepsInv(s, owner, Parked(at, none, l.phase.woken));
  }

  lemma InitialInv()
    ensures Inv(INITIAL)
  {
  }
}
