/**
Workers and the jobs table as one transition system.

A state holds the table, the claim loops of all workers and the notifications under way. Events are the statements of
clients, operators and recovery, the steps of claim loops, and message deliveries, in any interleaving. Each statement
carries its own database time, so nothing is assumed about clocks. A claim is two events: the select that locks a
queued row, and the update that the unique index may still reject. A reply may be lost whether or not its statement
committed.

Ghost bookkeeping: every claim gets a number, and a ledger per job records its current claim number, the claims and
forced requeues since it was created or retried, and whether an overwrite put `max_attempts` below what was used up.
*/
module Protocol {
  import opened Prelude
  import opened Jobs
  import opened TableInvariant
  import opened Claiming
  import opened Ownership

  datatype Ledger = Ledger(claim: nat, claims: nat, forced: nat, lowered: bool)

  /** Where a claim loop is. `woken` says a wakeup arrived since it registered interest. */
  datatype Phase =
    | Ready
    | Armed(woken: bool)
    | Selecting(id: Id, at: Time, woken: bool)
    | Parked(at: Time, empty: bool, woken: bool)
    | Handling(id: Id, claim: nat, attempt: int, maxAttempts: int)
    | Ended

  datatype Loop = Loop(worker: string, names: set<string>, phase: Phase)

  /** What is remembered of a pruned job: its last row and the cutoff of the statement that deleted it. */
  datatype Grave = Grave(row: Row, cutoff: Time)

  datatype State = State(
    jobs: Table,
    ledgers: map<Id, Ledger>,
    lastClaim: nat,
    loops: map<string, Loop>,
    inFlight: set<string>,
    born: set<Id>,
    graves: map<Id, Grave>
  )

  const INITIAL := State(map[], map[], 0, map[], {}, {}, map[])

  // ---------------------------------------------------------------- building blocks

  /** The row lock of a pending claim. */
  ghost predicate RowLocked(s: State, id: Id) {
    exists owner :: owner in s.loops && s.loops[owner].phase.Selecting? && s.loops[owner].phase.id == id
  }

  /** No statement changes a row another transaction has locked; it would wait for that transaction first. */
  ghost predicate RespectsLocks(s: State, after: Table) {
    forall id :: RowLocked(s, id) && id in s.jobs ==> id in after && after[id] == s.jobs[id]
  }

  function SetPhase(s: State, owner: string, phase: Phase): State
    requires owner in s.loops
  {
    s.(loops := s.loops[owner := s.loops[owner].(phase := phase)])
  }

  function LedgerAfter(u: Update, g: Ledger, claim: nat): Ledger {
    if u.Claim? then g.(claim := claim, claims := g.claims + 1)
    else if u.Retry? then Ledger(g.claim, 0, 0, false)
    else if u.IsForced() then g.(forced := g.forced + 1)
    else g
  }

  function Workers(s: State): set<string> {
    set owner | owner in s.loops :: s.loops[owner].worker
  }

  /** A committed notification goes to the listener of every worker. */
  function Sent(s: State, notify: bool): set<string> {
    if notify then s.inFlight + Workers(s) else s.inFlight
  }

  /** One committed UPDATE. */
  function Run(s: State, u: Update, at: Time): (after: State)
    ensures after.loops == s.loops
  {
    s.(jobs := Apply(s.jobs, u, at),
       ledgers := map id | id in s.ledgers ::
         if id in s.jobs && Selects(u, id, s.jobs[id], at) then LedgerAfter(u, s.ledgers[id], s.lastClaim + 1)
         else s.ledgers[id],
       lastClaim := if u.Claim? then s.lastClaim + 1 else s.lastClaim,
       inFlight := Sent(s, Notifies(s.jobs, u, at)))
  }

  /** The bookkeeping of one enqueue: a fresh ledger, or a fresh verdict on the attempts of an overwritten job. */
  function LedgerEnqueued(r: Row, g: Ledger, q: Request): Ledger {
    if q.mode != Dedupe && r.status == Queued then g.(lowered := r.attempt >= q.maxAttempts + g.forced) else g
  }

  ghost function RunEnqueue(s: State, newId: Id, q: Request, at: Time): (after: State)
    ensures after.loops == s.loops
  {
    var holder := KeyHolder(s.jobs, q.jobKey);
    s.(jobs := Upsert(s.jobs, newId, q, at),
       ledgers :=
         if holder.None? then s.ledgers[newId := Ledger(0, 0, 0, false)]
         else if holder.value in s.ledgers then
           s.ledgers[holder.value := LedgerEnqueued(s.jobs[holder.value], s.ledgers[holder.value], q)]
         else s.ledgers,
       born := if holder.None? then s.born + {newId} else s.born,
       inFlight := Sent(s, UpsertNotifies(s.jobs, q)))
  }

  function RunPrune(s: State, retainFor: Time, at: Time): (after: State)
    ensures after.loops == s.loops
  {
    var dead := set id | id in s.jobs && Prunable(s.jobs[id], retainFor, at);
    s.(jobs := Prune(s.jobs, retainFor, at),
       ledgers := s.ledgers - dead,
       graves := s.graves + map id | id in dead :: Grave(s.jobs[id], at - retainFor))
  }

  // ---------------------------------------------------------------- events

  /** The owner string of a loop. Its index is a number and its suffix a UUID, which holds no colon. */
  predicate IsOwnerOf(owner: string, worker: string, index: string, suffix: string) {
    owner == FormatOwner(worker, index, suffix) && IsIndex(index) && ColonFree(suffix)
  }

  datatype Event =
    | Enqueue(newId: Id, q: Request, at: Time)
    | Statement(u: Update, at: Time)
    | PruneFinished(retainFor: Time, at: Time)
    | StartLoop(owner: string, worker: string, index: string, suffix: string, names: set<string>)
    | Arm(owner: string)
    | Select(owner: string, id: Id, at: Time)
    | FindNothing(owner: string, at: Time)
    | CommitClaim(owner: string, heard: bool)
    | LoseRace(owner: string)
    | ClaimError(owner: string)
    | Renew(owner: string, at: Time, applied: bool, stop: bool)
    | Finish(owner: string, u: Update, at: Time, applied: bool)
    | Abort(owner: string)
    | Deliver(worker: string, last: bool)
    | Unpark(owner: string)

  /** The statement with which a loop ends the handling of a job: success, failure, or no handler for the name. */
  predicate IsResult(u: Update, owner: string, p: Phase)
    requires p.Handling?
  {
    || u == CompleteLocked(p.id, owner)
    || (u.FailLocked? && u.id == p.id && u.owner == owner
        && ((u.attempt == p.attempt && u.maxAttempts == p.maxAttempts)
            || (u.attempt == p.maxAttempts && u.maxAttempts == p.maxAttempts)))
  }

  /**
  The row's own conditions hold when it is locked. The queue test may already be out of date, so it is not required.
  */
  ghost predicate Selectable(s: State, owner: string, id: Id, at: Time)
    requires owner in s.loops
  {
    && id in s.jobs && s.jobs[id].status == Queued && s.jobs[id].runAt <= at
    && s.jobs[id].name in s.loops[owner].names && !RowLocked(s, id)
  }

  ghost predicate Enabled(s: State, e: Event) {
    match e
    case Enqueue(newId, q, at) =>
      newId !in s.born && q.maxAttempts > 0 && RespectsLocks(s, Upsert(s.jobs, newId, q, at))
    case Statement(u, at) =>
      && !u.Claim? && !u.CompleteLocked? && !u.RenewLock? && !u.FailLocked?
      && Execute(s.jobs, u, at).Committed? && RespectsLocks(s, Apply(s.jobs, u, at))
    case PruneFinished(_, _) => true
    case StartLoop(owner, worker, index, suffix, _) =>
      owner !in s.loops && IsOwnerOf(owner, worker, index, suffix)
    case Arm(owner) => owner in s.loops && s.loops[owner].phase == Ready
    case Select(owner, id, at) =>
      owner in s.loops && s.loops[owner].phase.Armed? && Selectable(s, owner, id, at)
    case FindNothing(owner, at) =>
      && owner in s.loops && s.loops[owner].phase.Armed?
      && forall id :: Claimable(s.jobs, id, s.loops[owner].names, at) ==> RowLocked(s, id)
    case CommitClaim(owner, _) =>
      && owner in s.loops && s.loops[owner].phase.Selecting?
      && Execute(s.jobs, Claim(s.loops[owner].phase.id, owner), s.loops[owner].phase.at).Committed?
    case LoseRace(owner) =>
      && owner in s.loops && s.loops[owner].phase.Selecting?
      && Execute(s.jobs, Claim(s.loops[owner].phase.id, owner), s.loops[owner].phase.at).Rejected?
    case ClaimError(owner) => owner in s.loops && (s.loops[owner].phase.Armed? || s.loops[owner].phase.Selecting?)
    case Renew(owner, at, applied, stop) =>
      && owner in s.loops && s.loops[owner].phase.Handling?
      && (stop ==> applied && Affected(s.jobs, RenewLock(s.loops[owner].phase.id, owner), at) == {})
    case Finish(owner, u, _, _) =>
      owner in s.loops && s.loops[owner].phase.Handling? && IsResult(u, owner, s.loops[owner].phase)
    case Abort(owner) => owner in s.loops
    case Deliver(worker, last) => last ==> worker in s.inFlight
    case Unpark(owner) => owner in s.loops && s.loops[owner].phase.Parked?
  }

  function Woken(p: Phase): Phase {
    match p
    case Armed(_) => Armed(true)
    case Selecting(id, at, _) => Selecting(id, at, true)
    case Parked(at, empty, _) => Parked(at, empty, true)
    case _ => p
  }

  /**
  The listener of a worker wakes its registered loops; `last` when no further notification for it is under way.
  Without `last` it is also the wakeup a recovery, cron or claim loop sends within its own process, which nothing
  needs to precede.
  */
  function Delivered(s: State, worker: string, last: bool): State {
    s.(inFlight := if last then s.inFlight - {worker} else s.inFlight,
       loops := map owner | owner in s.loops :: WokenLoop(s.loops[owner], worker))
  }

  function WokenLoop(l: Loop, worker: string): Loop {
    if l.worker == worker then l.(phase := Woken(l.phase)) else l
  }

  /** The state after a committed claim, before the loop learns of it. */
  function AfterCommit(s: State, owner: string): State
    requires owner in s.loops && s.loops[owner].phase.Selecting?
  {
    var p := s.loops[owner].phase;
    Run(SetPhase(s, owner, Ready), Claim(p.id, owner), p.at)
  }

  ghost function Step(s: State, e: Event): State
    requires Enabled(s, e)
  {
    match e
    case Enqueue(newId, q, at) => RunEnqueue(s, newId, q, at)
    case Statement(u, at) => Run(s, u, at)
    case PruneFinished(retainFor, at) => RunPrune(s, retainFor, at)
    case StartLoop(owner, worker, _, _, names) => s.(loops := s.loops[owner := Loop(worker, names, Ready)])
    case Arm(owner) => SetPhase(s, owner, Armed(false))
    case Select(owner, id, at) => SetPhase(s, owner, Selecting(id, at, s.loops[owner].phase.woken))
    case FindNothing(owner, at) =>
      SetPhase(s, owner, Parked(at, Candidates(s.jobs, s.loops[owner].names, at) == {}, s.loops[owner].phase.woken))
    case CommitClaim(owner, heard) =>
      var after := AfterCommit(s, owner);
      var id := s.loops[owner].phase.id;
      if heard && id in after.jobs then
        SetPhase(after, owner, Handling(id, after.lastClaim, after.jobs[id].attempt, after.jobs[id].maxAttempts))
      else after
    case LoseRace(owner) => SetPhase(s, owner, Parked(s.loops[owner].phase.at, false, s.loops[owner].phase.woken))
    case ClaimError(owner) => SetPhase(s, owner, Ready)
    case Renew(owner, at, applied, stop) =>
      var after := if applied then Run(s, RenewLock(s.loops[owner].phase.id, owner), at) else s;
      if stop then SetPhase(after, owner, Ready) else after
    case Finish(owner, u, at, applied) => SetPhase(if applied then Run(s, u, at) else s, owner, Ready)
    case Abort(owner) => SetPhase(s, owner, Ended)
    case Deliver(worker, last) => Delivered(s, worker, last)
    case Unpark(owner) => SetPhase(s, owner, Ready)
  }

  // ---------------------------------------------------------------- the invariant

  /** The ledger agrees with the attempt columns. */
  predicate Accounted(r: Row, g: Ledger) {
    && g.claims == r.attempt
    && (!g.lowered && r.status == Queued ==> r.attempt < r.maxAttempts + g.forced)
    && (!g.lowered && r.status == Running ==> r.attempt <= r.maxAttempts + g.forced)
  }

  ghost predicate LedgersOk(s: State) {
    && s.ledgers.Keys == s.jobs.Keys
    && (forall id :: id in s.jobs ==> Accounted(s.jobs[id], s.ledgers[id]) && s.ledgers[id].claim <= s.lastClaim)
  }

  /** Every id ever inserted is in the table or was pruned as a finished job past its retention. */
  ghost predicate HistoryOk(s: State) {
    && s.born == s.jobs.Keys + s.graves.Keys
    && s.jobs.Keys !! s.graves.Keys
    && (forall id :: id in s.graves ==>
          var r := s.graves[id].row;
          r.status.IsTerminal() && r.finishedAt.Some? && r.finishedAt.value < s.graves[id].cutoff)
  }

  ghost predicate IssuedBy(owner: string, worker: string) {
    exists index, suffix :: IsOwnerOf(owner, worker, index, suffix)
  }

  /** Locks belong to loops, and owner strings carry the worker that formatted them. */
  ghost predicate OwnersOk(s: State) {
    && (forall owner :: owner in s.loops ==> IssuedBy(owner, s.loops[owner].worker))
    && (forall id :: id in s.jobs && s.jobs[id].lockedBy.Some? ==> s.jobs[id].lockedBy.value in s.loops)
  }

  /**
  Fencing. The row a loop handles carries the loop's lock exactly while its current claim is the one the loop holds, and
  then the attempt numbers the loop remembers are the row's.
  */
  ghost predicate Fenced(s: State, owner: string, p: Phase)
    requires p.Handling?
  {
    && 0 < p.claim <= s.lastClaim && p.id in s.born
    && (p.id in s.jobs && p.id in s.ledgers ==>
          && (s.jobs[p.id].lockedBy == Some(owner) <==>
              s.jobs[p.id].status == Running && s.ledgers[p.id].claim == p.claim)
          && (s.jobs[p.id].lockedBy == Some(owner) ==>
              s.jobs[p.id].attempt == p.attempt && s.jobs[p.id].maxAttempts == p.maxAttempts))
  }

  /** A parked loop that found nothing either still has nothing to claim as of that time, or a wakeup is on its way. */
  ghost predicate Wakeable(s: State, l: Loop)
    requires l.phase.Parked?
  {
    l.phase.empty && !l.phase.woken && l.worker !in s.inFlight ==>
      forall id :: !Claimable(s.jobs, id, l.names, l.phase.at)
  }

  /** A selected row stays as it was selected until the claim ends. */
  ghost predicate Held(s: State, l: Loop)
    requires l.phase.Selecting?
  {
    var id := l.phase.id;
    id in s.jobs && s.jobs[id].status == Queued && s.jobs[id].runAt <= l.phase.at && s.jobs[id].name in l.names
  }

  ghost predicate LoopOk(s: State, owner: string, l: Loop) {
    && (l.phase.Handling? ==> Fenced(s, owner, l.phase))
    && (l.phase.Parked? ==> Wakeable(s, l))
    && (l.phase.Selecting? ==> Held(s, l))
  }

  predicate SameRow(a: Phase, b: Phase) {
    a.Selecting? && b.Selecting? && a.id == b.id
  }

  ghost predicate LoopsOk(s: State) {
    && (forall owner :: owner in s.loops ==> LoopOk(s, owner, s.loops[owner]))
    && (forall a, b :: a in s.loops && b in s.loops && SameRow(s.loops[a].phase, s.loops[b].phase) ==> a == b)
  }

  ghost predicate Inv(s: State) {
    TableOk(s.jobs) && LedgersOk(s) && HistoryOk(s) && OwnersOk(s) && LoopsOk(s)
  }
}
