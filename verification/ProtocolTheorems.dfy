/** What holds in every state that any interleaving of workers, clients, operators and recovery can reach. */
module ProtocolTheorems {
  import opened Prelude
  import opened Jobs
  import opened TableInvariant
  import opened Claiming
  import opened Protocol
  import opened ProtocolInvariant
  import opened Ownership

  // ---------------------------------------------------------------- runs

  ghost predicate Path(s: State, events: seq<Event>, end: State)
    decreases |events|
  {
    if events == [] then end == s else Enabled(s, events[0]) && Path(Step(s, events[0]), events[1..], end)
  }

  ghost predicate Reachable(s: State) {
    exists events :: Path(INITIAL, events, s)
  }

  lemma {:induction false} PathKeepsInv(s: State, events: seq<Event>, end: State)
    requires Inv(s) && Path(s, events, end)
    ensures Inv(end)
    decreases |events|
  {
    hide Inv, Enabled, Step;
    if events != [] {
      StepKeepsInv(s, events[0]);
      PathKeepsInv(Step(s, events[0]), events[1..], end);
    }
  }

  lemma ReachableInv(s: State)
    requires Reachable(s)
    ensures Inv(s)
  {
    hide Inv;
    var events :| Path(INITIAL, events, s);
    InitialInv();
    PathKeepsInv(INITIAL, events, s);
  }

  lemma {:induction false} PathAppend(s: State, a: seq<Event>, mid: State, b: seq<Event>, end: State)
    requires Path(s, a, mid) && Path(mid, b, end)
    ensures Path(s, a + b, end)
    decreases |a|
  {
    hide Enabled, Step;
    if a == [] {
      assert a + b == b;
    } else {
      PathAppend(Step(s, a[0]), a[1..], mid, b, end);
      assert (a + b)[1..] == a[1..] + b;
    }
  }

  lemma PathStaysReachable(s: State, events: seq<Event>, end: State)
    requires Reachable(s) && Path(s, events, end)
    ensures Reachable(end)
  {
    hide Enabled, Step;
    var before :| Path(INITIAL, before, s);
    PathAppend(INITIAL, before, s, events, end);
  }

  // ---------------------------------------------------------------- mutual exclusion

  /** At most one running job per named queue and at most one unfinished job per key, and every row is consistent. */
  lemma MutualExclusion(s: State)
    requires Reachable(s)
    ensures forall i, j :: i in s.jobs && j in s.jobs && SharesSlot(s.jobs[i], s.jobs[j]) ==> i == j
    ensures forall i, j ::
              i in s.jobs && j in s.jobs && s.jobs[i].status.IsActive() && HoldsKey(s.jobs[j], s.jobs[i].jobKey) ==>
                i == j
    ensures forall id :: id in s.jobs ==> RowOk(s.jobs[id])
  {
    ReachableInv(s);
  }

  // ---------------------------------------------------------------- the split claim

  /**
  A claim that selected its row earlier commits exactly when the row is claimable at the commit itself: still queued,
  due, of a requested name, and in a queue that runs nothing. Whatever other workers did in between, the committed
  effect is that of one atomic claim, and a lost race changes nothing.
  */
  lemma SplitClaimIsAtomic(s: State, owner: string)
    requires Reachable(s) && owner in s.loops && s.loops[owner].phase.Selecting?
    ensures var l := s.loops[owner]; var p := l.phase;
            && (Enabled(s, CommitClaim(owner, true)) <==> Claimable(s.jobs, p.id, l.names, p.at))
            && (Enabled(s, LoseRace(owner)) <==> !Claimable(s.jobs, p.id, l.names, p.at))
            && AfterCommit(s, owner).jobs == Claimed(s.jobs, p.id, owner, p.at)
  {
    hide Inv, Claimable, Execute, Apply, Selects, LedgerAfter, Sent, Notifies;
    ReachableInv(s);
    RaceIsDecidedByTheQueue(s, owner);
  }

  /** The row lock keeps the selected row as it was, so only the queue can have changed. */
  lemma RaceIsDecidedByTheQueue(s: State, owner: string)
    requires Inv(s) && owner in s.loops && s.loops[owner].phase.Selecting?
    ensures var l := s.loops[owner]; var u := Claim(l.phase.id, owner);
            && (Execute(s.jobs, u, l.phase.at).Committed? <==> Claimable(s.jobs, l.phase.id, l.names, l.phase.at))
            && ClaimsQueued(s.jobs, u)
  {
    var l := s.loops[owner];
    assert LoopOk(s, owner, l) && Held(s, l);
    RejectedExactlyWhen(s.jobs, Claim(l.phase.id, owner), l.phase.at);
    hide Inv, TableOk, LoopOk, Execute;
  }

  // ---------------------------------------------------------------- what an event does to the tables

  datatype Change =
    | Idle
    | Updates(u: Update, at: Time)
    | Inserts(newId: Id, q: Request, at: Time)
    | Deletes(retainFor: Time, at: Time)

  ghost function ChangeOf(s: State, e: Event): Change
    requires Enabled(s, e)
  {
    match e
    case Enqueue(newId, q, at) => Inserts(newId, q, at)
    case Statement(u, at) => Updates(u, at)
    case PruneFinished(retainFor, at) => Deletes(retainFor, at)
    case CommitClaim(owner, _) => Updates(Claim(s.loops[owner].phase.id, owner), s.loops[owner].phase.at)
    case Renew(owner, at, applied, _) =>
      if applied then Updates(RenewLock(s.loops[owner].phase.id, owner), at) else Idle
    case Finish(owner, u, at, applied) => if applied then Updates(u, at) else Idle
    case _ => Idle
  }

  /** The two states agree on the job table and its bookkeeping. */
  ghost predicate SameTables(a: State, b: State) {
    a.jobs == b.jobs && a.ledgers == b.ledgers && a.lastClaim == b.lastClaim && a.born == b.born && a.graves == b.graves
  }

  ghost function Changed(s: State, c: Change): State {
    match c
    case Idle => s
    case Updates(u, at) => Run(s, u, at)
    case Inserts(newId, q, at) => RunEnqueue(s, newId, q, at)
    case Deletes(retainFor, at) => RunPrune(s, retainFor, at)
  }

  /**
  What is known of a change: a claim takes a claimable row, updates commit and retry honestly, inserted ids are new.
  */
  ghost predicate Legal(s: State, c: Change) {
    match c
    case Updates(u, at) =>
      && ClaimsQueued(s.jobs, u) && HonestFailure(s.jobs, u) && Execute(s.jobs, u, at).Committed?
      && (u.Claim? ==> exists names :: Claimable(s.jobs, u.id, names, at))
    case Inserts(newId, q, _) => newId !in s.born && newId !in s.jobs && q.maxAttempts > 0
    case _ => true
  }

  lemma TableIdsAreBorn(s: State, id: Id)
    requires Inv(s) && id in s.jobs
    ensures id in s.born && id in s.ledgers && RowOk(s.jobs[id]) && id !in s.graves
    ensures s.ledgers[id].claim <= s.lastClaim
  {
  }

  lemma HolderOf(s: State, key: Option<string>, id: Id)
    requires Inv(s) && id in s.jobs && HoldsKey(s.jobs[id], key)
    ensures KeyHolder(s.jobs, key) == Some(id)
  {
    var holder := KeyHolder(s.jobs, key);
    assert s.jobs[id].status.IsActive() && HoldsKey(s.jobs[holder.value], s.jobs[id].jobKey);
    hide LedgersOk, HistoryOk, OwnersOk, LoopsOk, RowOk;
  }

  /** What one committed UPDATE does to one job. */
  lemma RunAt(s: State, u: Update, at: Time, id: Id)
    requires id in s.jobs && id in s.ledgers
    ensures var after := Run(s, u, at); var hit := Selects(u, id, s.jobs[id], at);
            && id in after.jobs && after.jobs[id] == (if hit then SetRow(u, s.jobs[id], at) else s.jobs[id])
            && id in after.ledgers
            && after.ledgers[id] == (if hit then LedgerAfter(u, s.ledgers[id], s.lastClaim + 1) else s.ledgers[id])
  {
    hide Selects, SetRow, LedgerAfter, Sent, Notifies;
  }

  /** What one enqueue does to a job that is there already. */
  lemma EnqueueAt(s: State, newId: Id, q: Request, at: Time, id: Id)
    requires Inv(s) && id in s.jobs && newId !in s.jobs
    ensures var after := RunEnqueue(s, newId, q, at); var hit := HoldsKey(s.jobs[id], q.jobKey);
            && id in after.jobs && after.jobs[id] == (if hit then Overwrite(s.jobs[id], q) else s.jobs[id])
            && id in after.ledgers && id in s.ledgers
            && after.ledgers[id] == (if hit then LedgerEnqueued(s.jobs[id], s.ledgers[id], q) else s.ledgers[id])
  {
    TableIdsAreBorn(s, id);
    if HoldsKey(s.jobs[id], q.jobKey) {
      HolderOf(s, q.jobKey, id);
    }
    hide Inv, Overwrite, LedgerEnqueued, Sent, UpsertNotifies, HoldsKey;
  }

  lemma LegalChange(s: State, e: Event)
    requires Inv(s) && Enabled(s, e)
    ensures Legal(s, ChangeOf(s, e))
  {
    hide Inv, Claimable, Execute, Apply, Upsert, Prune, RespectsLocks, Selects;
    match e {
      case Enqueue(newId, _, _) =>
        if newId in s.jobs {
          TableIdsAreBorn(s, newId);
        }
      case Renew(owner, at, _, _) => LoopStatementsRun(s, owner, RenewLock(s.loops[owner].phase.id, owner), at);
      case Finish(owner, u, at, _) => LoopStatementsRun(s, owner, u, at);
      case CommitClaim(owner, _) => RaceIsDecidedByTheQueue(s, owner);
      case _ =>
    }
  }

  lemma StepByChange(s: State, e: Event)
    requires Inv(s) && Enabled(s, e)
    ensures Legal(s, ChangeOf(s, e)) && SameTables(Step(s, e), Changed(s, ChangeOf(s, e)))
  {
    hide Inv, Enabled, Step, Legal, Changed;
    LegalChange(s, e);
    StepTables(s, e);
  }

  lemma CommitTables(s: State, owner: string)
    requires owner in s.loops && s.loops[owner].phase.Selecting?
    ensures var p := s.loops[owner].phase; SameTables(AfterCommit(s, owner), Run(s, Claim(p.id, owner), p.at))
  {
    hide Apply, Selects, LedgerAfter, Sent, Notifies;
  }

  lemma StepTables(s: State, e: Event)
    requires Enabled(s, e)
    ensures SameTables(Step(s, e), Changed(s, ChangeOf(s, e)))
  {
    hide Enabled, Run, RunEnqueue, RunPrune, AfterCommit, Candidates, WokenLoop;
    match e
    case CommitClaim(owner, _) => EnabledCommit(s, e); CommitTables(s, owner);
    case _ =>
  }

  lemma EnabledCommit(s: State, e: Event)
    requires Enabled(s, e) && e.CommitClaim?
    ensures e.owner in s.loops && s.loops[e.owner].phase.Selecting?
  {
  }

  /**
  One step of a table whose claims are atomic: a claim of a claimable job, another committed statement, or nothing.
  */
  ghost predicate AtomicStep(t: Table, after: Table) {
    || after == t
    || (exists id, owner, names, at :: Claimable(t, id, names, at) && after == Claimed(t, id, owner, at))
    || (exists u: Update, at :: !u.Claim? && after == Apply(t, u, at) && Execute(t, u, at).Committed?)
    || (exists newId, q, at :: newId !in t && after == Upsert(t, newId, q, at))
    || (exists retainFor, at :: after == Prune(t, retainFor, at))
  }

  /** The split claim refines the atomic one, step by step and under every interleaving. */
  lemma StepRefinesAtomic(s: State, e: Event)
    requires Inv(s) && Enabled(s, e)
    ensures AtomicStep(s.jobs, Step(s, e).jobs)
  {
    StepByChange(s, e);
    hide Inv, Enabled, Step, Claimable, Execute, Apply, Upsert, Prune, ChangeOf;
    match ChangeOf(s, e)
    case Updates(u, at) =>
      if u.Claim? {
        var names :| Claimable(s.jobs, u.id, names, at);
        ClaimedIsApply(s.jobs, u.id, u.owner, at);
      }
    case _ =>
  }

  ghost predicate AtomicRun(tables: seq<Table>) {
    forall i :: 0 <= i < |tables| - 1 ==> AtomicStep(tables[i], tables[i + 1])
  }

  /** Every run of the split protocol shows the tables of a run of the atomic one. */
  lemma {:induction false} RunRefinesAtomic(s: State, events: seq<Event>, end: State) returns (tables: seq<Table>)
    requires Inv(s) && Path(s, events, end)
    ensures |tables| == |events| + 1 && tables[0] == s.jobs && tables[|events|] == end.jobs && AtomicRun(tables)
    decreases |events|
  {
    hide Inv, Enabled, Step, AtomicStep;
    if events == [] {
      tables := [s.jobs];
    } else {
      StepKeepsInv(s, events[0]);
      StepRefinesAtomic(s, events[0]);
      var rest := RunRefinesAtomic(Step(s, events[0]), events[1..], end);
      tables := [s.jobs] + rest;
      assert forall i :: 0 < i < |tables| - 1 ==> tables[i] == rest[i - 1] && tables[i + 1] == rest[i];
    }
  }

  lemma ClaimedIsApply(t: Table, id: Id, owner: string, at: Time)
    ensures Claimed(t, id, owner, at) == Apply(t, Claim(id, owner), at)
  {
  }

  // ---------------------------------------------------------------- fencing

  /** The claim a loop holds is the row's current one and the job still runs. */
  ghost predicate Current(s: State, id: Id, claim: nat) {
    id in s.jobs && id in s.ledgers && s.jobs[id].status == Running && s.ledgers[id].claim == claim
  }

  /**
  Although owner strings are reused for every claim of a loop, a result or renewal takes effect exactly when the row's
  current claim is the one the loop is handling; then the attempt numbers it decides with are the row's own.
  */
  lemma ResultCountsExactlyWhenCurrent(s: State, owner: string, u: Update, at: Time)
    requires Reachable(s) && owner in s.loops && s.loops[owner].phase.Handling?
    requires u == RenewLock(s.loops[owner].phase.id, owner) || IsResult(u, owner, s.loops[owner].phase)
    ensures var p := s.loops[owner].phase;
            && Affected(s.jobs, u, at) == (if Current(s, p.id, p.claim) then {p.id} else {})
            && (!Current(s, p.id, p.claim) ==> Apply(s.jobs, u, at) == s.jobs)
            && (Current(s, p.id, p.claim) ==>
                  s.jobs[p.id].attempt == p.attempt && s.jobs[p.id].maxAttempts == p.maxAttempts)
  {
    hide Inv, Claimable;
    var p := s.loops[owner].phase;
    ReachableInv(s);
    LoopIsFenced(s, owner);
    assert forall id :: id in s.jobs && Selects(u, id, s.jobs[id], at) ==> id == p.id && Current(s, p.id, p.claim);
    assert Current(s, p.id, p.claim) ==> Selects(u, p.id, s.jobs[p.id], at);
    hide Selects, SetRow, Current;
  }

  lemma LoopIsFenced(s: State, owner: string)
    requires Inv(s) && owner in s.loops && s.loops[owner].phase.Handling?
    ensures var p := s.loops[owner].phase;
            Fenced(s, owner, p) && (p.id in s.jobs ==> p.id in s.ledgers && RowOk(s.jobs[p.id]))
  {
    assert LoopOk(s, owner, s.loops[owner]);
    hide QueuesSerial, KeysUnique, HistoryOk, OwnersOk;
  }

  /** The claim with this number was made and is over. */
  ghost predicate Lost(s: State, id: Id, claim: nat) {
    claim <= s.lastClaim && !Current(s, id, claim)
  }

  lemma StepKeepsLost(s: State, e: Event, id: Id, claim: nat)
    requires Inv(s) && Enabled(s, e) && Lost(s, id, claim) && id in s.born
    ensures Lost(Step(s, e), id, claim) && id in Step(s, e).born
  {
    hide Inv, Enabled, Step, Changed, ChangeOf, Legal;
    StepByChange(s, e);
    if id in s.jobs {
      TableIdsAreBorn(s, id);
    }
    ChangeKeepsLost(s, ChangeOf(s, e), id, claim);
  }

  lemma ChangeKeepsLost(s: State, c: Change, id: Id, claim: nat)
    requires id in s.jobs ==> id in s.ledgers && RowOk(s.jobs[id])
    requires Legal(s, c) && Lost(s, id, claim) && id in s.born
    ensures Lost(Changed(s, c), id, claim) && id in Changed(s, c).born
  {
    hide Execute, Claimable, Sent;
    match c
    case Updates(u, at) => RunKeepsLost(s, u, at, id, claim);
    case _ =>
  }

  lemma RunKeepsLost(s: State, u: Update, at: Time, id: Id, claim: nat)
    requires id in s.jobs ==> id in s.ledgers && RowOk(s.jobs[id])
    requires Lost(s, id, claim)
    ensures Lost(Run(s, u, at), id, claim)
  {
    if id in s.jobs && Selects(u, id, s.jobs[id], at) && !u.Claim? {
      NonClaimKeepsOrReleases(u, id, s.jobs[id], at);
    }
  }

  /** A claim that is over stays over: whoever claims the job next, even the same loop, gets a new number. */
  lemma {:induction false} LostStaysLost(s: State, events: seq<Event>, end: State, id: Id, claim: nat)
    requires Inv(s) && Path(s, events, end) && Lost(s, id, claim) && id in s.born
    ensures Lost(end, id, claim)
    decreases |events|
  {
    hide Inv, Enabled, Step, Lost;
    if events != [] {
      StepKeepsInv(s, events[0]);
      StepKeepsLost(s, events[0], id, claim);
      LostStaysLost(Step(s, events[0]), events[1..], end, id, claim);
    }
  }

  /**
  Fencing over whole runs: once a job was taken away from a loop, by recovery, force-unlock, an operator or a retry and
  another claim, the result that loop still delivers for it is discarded, however much later it comes.
  */
  lemma LateResultIsDiscarded(s: State, events: seq<Event>, end: State, owner: string, u: Update, at: Time)
    requires Reachable(s) && Path(s, events, end)
    requires owner in end.loops && end.loops[owner].phase.Handling?
    requires u == RenewLock(end.loops[owner].phase.id, owner) || IsResult(u, owner, end.loops[owner].phase)
    requires Lost(s, end.loops[owner].phase.id, end.loops[owner].phase.claim)
    requires end.loops[owner].phase.id in s.born
    ensures Apply(end.jobs, u, at) == end.jobs && Affected(end.jobs, u, at) == {}
  {
    hide Inv, Enabled, Step;
    var p := end.loops[owner].phase;
    ReachableInv(s);
    PathStaysReachable(s, events, end);
    LostStaysLost(s, events, end, p.id, p.claim);
    ResultCountsExactlyWhenCurrent(end, owner, u, at);
  }

  /** Every statement of an operator or of recovery that selects a running job ends its current claim. */
  lemma TakingAwayLosesTheClaim(s: State, u: Update, at: Time, id: Id)
    requires Inv(s) && Enabled(s, Statement(u, at)) && id in Affected(s.jobs, u, at) && s.jobs[id].status == Running
    ensures Lost(Run(s, u, at), id, s.ledgers[id].claim)
  {
    hide Inv, Execute, RespectsLocks, Notifies, Sent;
    TableIdsAreBorn(s, id);
    NonClaimKeepsOrReleases(u, id, s.jobs[id], at);
  }

  // ---------------------------------------------------------------- no lost wakeup

  /**
  A loop that parked after finding nothing, and to which no wakeup is under way, has still nothing to claim as of that
  time, whatever was inserted, requeued, rescheduled or finished since. What it could claim later only became due later,
  and that is what its timer is for.
  */
  lemma NoLostWakeup(s: State, owner: string, id: Id, later: Time)
    requires Reachable(s) && owner in s.loops
    requires s.loops[owner].phase.Parked? && s.loops[owner].phase.empty && !s.loops[owner].phase.woken
    requires s.loops[owner].worker !in s.inFlight
    ensures Candidates(s.jobs, s.loops[owner].names, s.loops[owner].phase.at) == {}
    ensures Claimable(s.jobs, id, s.loops[owner].names, later) ==> s.loops[owner].phase.at < s.jobs[id].runAt <= later
  {
    ReachableInv(s);
    var l := s.loops[owner];
    assert LoopOk(s, owner, l) && Wakeable(s, l);
    assert !Claimable(s.jobs, id, l.names, l.phase.at);
    hide Inv, LoopOk;
  }

  // ---------------------------------------------------------------- no job is lost

  /** Every id ever inserted is in the table, or was deleted as a finished job past its retention. */
  lemma NoJobIsLost(s: State, id: Id)
    requires Reachable(s) && id in s.born
    ensures id in s.jobs || id in s.graves
    ensures id !in s.jobs ==>
              var g := s.graves[id];
              g.row.status.IsTerminal() && g.row.finishedAt.Some? && g.row.finishedAt.value < g.cutoff
  {
    ReachableInv(s);
    hide TableOk, LedgersOk, OwnersOk, LoopsOk;
  }

  /** Except for `retry`, a finished job is unchanged until it is pruned; a succeeded job cannot even be retried. */
  lemma StepKeepsFinished(s: State, e: Event, id: Id)
    requires Inv(s) && Enabled(s, e) && id in s.jobs && id in s.born
    ensures id in Step(s, e).born
    ensures s.jobs[id].status.IsActive() ==> id in Step(s, e).jobs
    ensures && s.jobs[id].status.IsTerminal()
            && (s.jobs[id].status == Succeeded || !(e.Statement? && e.u == Retry(id))) ==>
              id in Step(s, e).jobs ==> Step(s, e).jobs[id] == s.jobs[id]
  {
    hide Inv, Execute, RespectsLocks, Apply, Upsert, Prune, Step, Changed;
    TableIdsAreBorn(s, id);
    StepByChange(s, e);
    ChangeKeepsFinished(s, ChangeOf(s, e), id);
  }

  lemma ChangeKeepsFinished(s: State, c: Change, id: Id)
    requires Legal(s, c) && id in s.jobs && RowOk(s.jobs[id]) && id in s.born
    ensures id in Changed(s, c).born
    ensures s.jobs[id].status.IsActive() ==> id in Changed(s, c).jobs
    ensures s.jobs[id].status.IsTerminal() && (s.jobs[id].status == Succeeded || !(c.Updates? && c.u == Retry(id))) ==>
              id in Changed(s, c).jobs ==> Changed(s, c).jobs[id] == s.jobs[id]
  {
    hide Execute, Claimable, Sent;
  }

  /** Success is final over every run: the row is the same or pruned. */
  lemma {:induction false} SucceededIsFinal(s: State, events: seq<Event>, end: State, id: Id)
    requires Inv(s) && Path(s, events, end) && id in s.born
    requires id in s.jobs ==> s.jobs[id].status == Succeeded
    ensures id in end.jobs ==> id in s.jobs && end.jobs[id] == s.jobs[id]
    decreases |events|
  {
    if events != [] {
      StepKeepsInv(s, events[0]);
      if id in s.jobs {
        StepKeepsFinished(s, events[0], id);
      } else {
        PrunedStaysPruned(s, events[0], id);
      }
      hide Inv, Enabled, Step;
      SucceededIsFinal(Step(s, events[0]), events[1..], end, id);
    }
  }

  lemma PrunedStaysPruned(s: State, e: Event, id: Id)
    requires Inv(s) && Enabled(s, e) && id in s.born && id !in s.jobs
    ensures id in Step(s, e).born && id !in Step(s, e).jobs
  {
    hide Inv, Enabled, Step;
    StepByChange(s, e);
    hide Execute, Claimable, ChangeOf, Sent;
  }

  // ---------------------------------------------------------------- ownership and shutdown

  /** The job is locked by a loop of this worker. */
  ghost predicate LockedByWorker(s: State, id: Id, worker: string) {
    id in s.jobs && s.jobs[id].lockedBy.Some? && s.jobs[id].lockedBy.value in s.loops
    && s.loops[s.jobs[id].lockedBy.value].worker == worker
  }

  /** The job is locked by a loop whose owner string the prefix test takes for this worker's. */
  ghost predicate TakenFor(s: State, id: Id, worker: string) {
    && id in s.jobs && s.jobs[id].lockedBy.Some? && s.jobs[id].lockedBy.value in s.loops
    && var owner := s.jobs[id].lockedBy.value; var other := s.loops[owner].worker;
       exists index, suffix :: IsOwnerOf(owner, other, index, suffix) && Takes(worker, other, index)
  }

  lemma PrefixTestIsExact(s: State, id: Id, worker: string)
    requires Inv(s) && id in s.jobs && s.jobs[id].lockedBy.Some?
    ensures OwnedBy(worker, s.jobs[id].lockedBy.value) <==> TakenFor(s, id, worker)
  {
    var owner := s.jobs[id].lockedBy.value;
    assert owner in s.loops && IssuedBy(owner, s.loops[owner].worker);
    forall index, suffix | IsOwnerOf(owner, s.loops[owner].worker, index, suffix)
      ensures OwnedBy(worker, owner) <==> Takes(worker, s.loops[owner].worker, index)
    {
      PrefixOwnership(worker, s.loops[owner].worker, index, suffix);
    }
    hide Inv, OwnedBy, Takes;
  }

  /**
  For all worker ids: release, force-unlock and dead-worker recovery requeue exactly the jobs locked by loops whose
  owner strings they take for those of the given workers.
  */
  lemma RequeuesAreExact(s: State, worker: string, dead: set<string>, at: Time, id: Id)
    requires Reachable(s)
    ensures id in Affected(s.jobs, Release(worker), at) <==> TakenFor(s, id, worker)
    ensures id in Affected(s.jobs, ForceUnlock(worker), at) <==> TakenFor(s, id, worker)
    ensures id in Affected(s.jobs, RecoverDead(dead), at) <==> exists w :: w in dead && TakenFor(s, id, w)
  {
    hide Inv, OwnedBy;
    ReachableInv(s);
    if id in s.jobs && s.jobs[id].lockedBy.Some? {
      TableIdsAreBorn(s, id);
      PrefixTestIsExact(s, id, worker);
      forall w | w in dead ensures OwnedBy(w, s.jobs[id].lockedBy.value) <==> TakenFor(s, id, w) {
        PrefixTestIsExact(s, id, w);
      }
      hide TakenFor;
    }
  }

  /** No running worker has an id that this one's is confusable with; among ids without colons that is always so. */
  ghost predicate Separate(s: State, worker: string) {
    forall owner :: owner in s.loops ==> s.loops[owner].worker == worker || !Confusable(worker, s.loops[owner].worker)
  }

  /** Then what is taken for the worker's jobs are the worker's jobs. */
  lemma SeparateWorkersKeepTheirJobs(s: State, worker: string, id: Id)
    requires Reachable(s) && Separate(s, worker)
    ensures TakenFor(s, id, worker) <==> LockedByWorker(s, id, worker)
  {
    hide Inv, OwnedBy, Confusable, Takes;
    ReachableInv(s);
    if id in s.jobs && s.jobs[id].lockedBy.Some? {
      LocksBelongToLoops(s, id);
      var owner := s.jobs[id].lockedBy.value;
      var other := s.loops[owner].worker;
      PrefixTestIsExact(s, id, worker);
      LoopsAreIssued(s, owner);
      var index, suffix :| IsOwnerOf(owner, other, index, suffix);
      if other == worker {
        PrefixOwnership(worker, worker, index, suffix);
        OwnIdIsTaken(worker, index);
      } else {
        SeparateExactlyWhen(worker, other, suffix);
      }
    }
  }

  lemma OwnIdIsTaken(worker: string, index: string)
    ensures Takes(worker, worker, index)
  {
  }

  lemma LoopsAreIssued(s: State, owner: string)
    requires Inv(s) && owner in s.loops
    ensures IssuedBy(owner, s.loops[owner].worker)
  {
  }

  /** All claim loops of the worker have ended and it holds no lock. */
  ghost predicate Gone(s: State, worker: string) {
    && (forall owner :: owner in s.loops && s.loops[owner].worker == worker ==> s.loops[owner].phase == Ended)
    && (forall id :: !LockedByWorker(s, id, worker))
  }

  /**
  After the loops of a worker have ended, with no claim in flight, its release statement leaves nothing locked by it,
  whatever its id.
  */
  lemma ReleaseLeavesNoLock(s: State, worker: string, at: Time)
    requires Reachable(s)
    requires forall owner :: owner in s.loops && s.loops[owner].worker == worker ==> s.loops[owner].phase == Ended
    ensures Gone(Run(s, Release(worker), at), worker)
  {
    hide Inv, OwnedBy, Takes;
    ReachableInv(s);
    forall id ensures !LockedByWorker(Run(s, Release(worker), at), id, worker) {
      if LockedByWorker(s, id, worker) {
        var owner := s.jobs[id].lockedBy.value;
        LoopsAreIssued(s, owner);
        var index, suffix :| IsOwnerOf(owner, worker, index, suffix);
        OwnIdIsTaken(worker, index);
        assert TakenFor(s, id, worker);
        RequeuesAreExact(s, worker, {}, at, id);
      }
    }
  }

  lemma StepKeepsGone(s: State, e: Event, worker: string)
    requires Inv(s) && Enabled(s, e) && Gone(s, worker) && !(e.StartLoop? && e.worker == worker)
    ensures Gone(Step(s, e), worker)
  {
    var after := Step(s, e);
    LoopsAfter(s, e);
    StepByChange(s, e);
    forall id | LockedByWorker(after, id, worker) ensures LockedByWorker(s, id, worker) {
      LockComesFromALiveLoop(s, e, id);
    }
    hide Inv, Enabled, Step, LockedByWorker;
  }

  /** Loops keep their worker, and an ended loop stays ended. */
  lemma LoopsAfter(s: State, e: Event)
    requires Enabled(s, e)
    ensures forall owner :: owner in s.loops ==>
              && owner in Step(s, e).loops && Step(s, e).loops[owner].worker == s.loops[owner].worker
              && (s.loops[owner].phase == Ended ==> Step(s, e).loops[owner].phase == Ended)
    ensures forall owner :: owner in Step(s, e).loops && owner !in s.loops ==>
              e.StartLoop? && Step(s, e).loops[owner].worker == e.worker
  {
    forall owner
      ensures owner in s.loops ==>
                && owner in Step(s, e).loops && Step(s, e).loops[owner].worker == s.loops[owner].worker
                && (s.loops[owner].phase == Ended ==> Step(s, e).loops[owner].phase == Ended)
      ensures owner in Step(s, e).loops && owner !in s.loops ==>
                e.StartLoop? && Step(s, e).loops[owner].worker == e.worker
    {
      LoopAfter(s, e, owner);
    }
    hide Step, Enabled;
  }

  lemma LoopAfter(s: State, e: Event, owner: string)
    requires Enabled(s, e)
    ensures owner in s.loops ==>
              && owner in Step(s, e).loops && Step(s, e).loops[owner].worker == s.loops[owner].worker
              && (s.loops[owner].phase == Ended ==> Step(s, e).loops[owner].phase == Ended)
    ensures owner in Step(s, e).loops && owner !in s.loops ==>
              e.StartLoop? && Step(s, e).loops[owner].worker == e.worker
  {
    hide Run, RunEnqueue, RunPrune, Apply, Upsert, Execute, RespectsLocks, Claimable, Candidates, IsResult, Selectable,
         RowLocked, Affected, FormatOwner, Delivered;
    match e
    case Deliver(worker, last) => DeliveryKeepsLoops(s, worker, last);
    case _ =>
  }

  lemma DeliveryKeepsLoops(s: State, worker: string, last: bool)
    ensures var after := Delivered(s, worker, last);
            && after.loops.Keys == s.loops.Keys
            && forall owner :: owner in s.loops ==>
                 && after.loops[owner].worker == s.loops[owner].worker
                 && (s.loops[owner].phase == Ended ==> after.loops[owner].phase == Ended)
  {
  }

  /** A lock that an event leaves on a row was there before, or was just taken by a loop that is not ended. */
  lemma LockComesFromALiveLoop(s: State, e: Event, id: Id)
    requires Inv(s) && Enabled(s, e) && id in Step(s, e).jobs && Step(s, e).jobs[id].lockedBy.Some?
    ensures var lock := Step(s, e).jobs[id].lockedBy;
            && lock.value in s.loops
            && ((id in s.jobs && s.jobs[id].lockedBy == lock) || s.loops[lock.value].phase.Selecting?)
  {
    hide Inv, Execute, RespectsLocks, Claimable, Step, Changed;
    StepByChange(s, e);
    if id in s.jobs {
      TableIdsAreBorn(s, id);
      if s.jobs[id].lockedBy.Some? {
        LocksBelongToLoops(s, id);
      }
    }
    LockAfterChange(s, ChangeOf(s, e), id);
  }

  lemma LocksBelongToLoops(s: State, id: Id)
    requires Inv(s) && id in s.jobs && s.jobs[id].lockedBy.Some?
    ensures s.jobs[id].lockedBy.value in s.loops
  {
  }

  lemma LockAfterChange(s: State, c: Change, id: Id)
    requires Legal(s, c) && id in Changed(s, c).jobs && Changed(s, c).jobs[id].lockedBy.Some?
    requires id in s.jobs ==> RowOk(s.jobs[id])
    ensures var lock := Changed(s, c).jobs[id].lockedBy;
            (id in s.jobs && s.jobs[id].lockedBy == lock) || (c.Updates? && c.u.Claim? && lock == Some(c.u.owner))
  {
    hide Execute, Claimable, Sent;
    match c
    case Updates(u, at) =>
      if Selects(u, id, s.jobs[id], at) && !u.Claim? {
        NonClaimKeepsOrReleases(u, id, s.jobs[id], at);
      }
    case _ =>
  }

  /** A worker that shut down never holds a lock again, whatever happens, unless it is started again. */
  lemma {:induction false} GoneStaysGone(s: State, events: seq<Event>, end: State, worker: string)
    requires Inv(s) && Path(s, events, end) && Gone(s, worker)
    requires forall e :: e in events ==> !(e.StartLoop? && e.worker == worker)
    ensures Gone(end, worker)
    decreases |events|
  {
    hide Inv, Enabled, Step, Gone;
    if events != [] {
      assert events[0] in events;
      StepKeepsInv(s, events[0]);
      StepKeepsGone(s, events[0], worker);
      GoneStaysGone(Step(s, events[0]), events[1..], end, worker);
    }
  }
}
