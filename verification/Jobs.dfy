/**
The `pgspawn.jobs` table and the meaning of every SQL statement that changes it.

A table is a map from id to row. An UPDATE is given by its WHERE clause (`Selects`) and its SET list (`SetRow`); the
tables it may leave are checked against the two partial unique indexes (`Execute`). Timestamps are whole microseconds,
the resolution of `timestamptz`.
*/
module Jobs {
  import opened Prelude

  type Id = nat
  type Time = int

  const MILLISECOND: Time := 1_000
  const SECOND: Time := 1_000_000

  datatype Status = Queued | Running | Succeeded | Failed | Cancelled {
    predicate IsTerminal() {
      this != Queued && this != Running
    }

    predicate IsActive() {
      this == Queued || this == Running
    }
  }

  datatype Row = Row(
    name: string,
    status: Status,
    payload: string,
    queueName: Option<string>,
    priority: int,
    runAt: Time,
    jobKey: Option<string>,
    attempt: int,
    maxAttempts: int,
    lockedBy: Option<string>,
    lockedAt: Option<Time>,
    error: Option<string>,
    startedAt: Option<Time>,
    finishedAt: Option<Time>,
    createdAt: Time
  )

  type Table = map<Id, Row>

  // ---------------------------------------------------------------- ownership strings

  /** The lock owner string of one claim loop: worker id, loop index and a random suffix, joined by colons. */
  function FormatOwner(worker: string, index: string, suffix: string): string {
    worker + ":" + index + ":" + suffix
  }

  /** `left(locked_by, length(worker || ':')) = worker || ':'`. */
  predicate OwnedBy(worker: string, owner: string) {
    worker + ":" <= owner
  }

  // ---------------------------------------------------------------- UPDATE statements

  datatype Update =
    | Cancel(id: Id)
    | Retry(id: Id)
    | PermanentlyFail(id: Id, reason: string)
    | CompleteJob(id: Id)
    | Reschedule(id: Id, runAt: Time)
    | Release(worker: string)
    | ForceUnlock(worker: string)
    | RecoverStale(staleAfter: Time)
    | RecoverDead(dead: set<string>)
    | Claim(id: Id, owner: string)
    | CompleteLocked(id: Id, owner: string)
    | RenewLock(id: Id, owner: string)
    | FailLocked(id: Id, owner: string, attempt: int, maxAttempts: int, reason: string, backoff: Time)
  {
    /** The four statements that requeue a running job without asking whether it has attempts left. */
    predicate IsForced() {
      Release? || ForceUnlock? || RecoverStale? || RecoverDead?
    }
  }

  /** The WHERE clause. */
  predicate Selects(u: Update, id: Id, r: Row, now: Time) {
    match u
    case Cancel(i) => id == i && r.status == Queued
    case Retry(i) => id == i && (r.status == Failed || r.status == Cancelled)
    case PermanentlyFail(i, _) => id == i && r.status.IsActive()
    case CompleteJob(i) => id == i && r.status.IsActive()
    case Reschedule(i, _) => id == i && r.status == Queued
    case Release(w) => r.status == Running && r.lockedBy.Some? && OwnedBy(w, r.lockedBy.value)
    case ForceUnlock(w) => r.status == Running && r.lockedBy.Some? && OwnedBy(w, r.lockedBy.value)
    case RecoverStale(s) => r.status == Running && r.lockedAt.Some? && r.lockedAt.value < now - s
    case RecoverDead(dead) =>
      r.status == Running && r.lockedBy.Some? && exists w :: w in dead && OwnedBy(w, r.lockedBy.value)
    case Claim(i, _) => id == i
    case CompleteLocked(i, o) => id == i && r.lockedBy == Some(o)
    case RenewLock(i, o) => id == i && r.lockedBy == Some(o) && r.status == Running
    case FailLocked(i, o, _, _, _, _) => id == i && r.lockedBy == Some(o)
  }

  function Coalesce(error: Option<string>, otherwise: string): Option<string> {
    if error.Some? then error else Some(otherwise)
  }

  function Requeued(r: Row, now: Time, reason: string): Row {
    r.(status := Queued, lockedBy := None, lockedAt := None, runAt := now, error := Coalesce(r.error, reason))
  }

  function ForcedReason(u: Update): string
    requires u.IsForced()
  {
    match u
    case Release(_) => "released by shutting down worker"
    case ForceUnlock(_) => "released by operator"
    case RecoverStale(_) => "recovered stale running job"
    case RecoverDead(_) => "recovered dead worker job"
  }

  /** The SET list, evaluated on a selected row. */
  function SetRow(u: Update, r: Row, now: Time): Row {
    match u
    case Cancel(_) => r.(status := Cancelled, finishedAt := Some(now), error := None)
    case Retry(_) =>
      r.(status := Queued, attempt := 0, runAt := now, lockedBy := None, lockedAt := None, error := None,
         startedAt := None, finishedAt := None)
    case PermanentlyFail(_, reason) =>
      r.(status := Failed, lockedBy := None, lockedAt := None, finishedAt := Some(now), error := Some(reason))
    case CompleteJob(_) =>
      r.(status := Succeeded, lockedBy := None, lockedAt := None, finishedAt := Some(now), error := None)
    case Reschedule(_, at) => r.(runAt := at)
    case Release(_) | ForceUnlock(_) | RecoverStale(_) | RecoverDead(_) => Requeued(r, now, ForcedReason(u))
    case Claim(_, owner) =>
      r.(status := Running, attempt := r.attempt + 1, lockedBy := Some(owner), lockedAt := Some(now),
         startedAt := Some(now), finishedAt := None, error := None)
    case CompleteLocked(_, _) =>
      r.(status := Succeeded, lockedBy := None, lockedAt := None, finishedAt := Some(now), error := None)
    case RenewLock(_, _) => r.(lockedAt := Some(now))
    case FailLocked(_, _, attempt, maxAttempts, reason, backoff) =>
      if attempt >= maxAttempts then
        r.(status := Failed, lockedBy := None, lockedAt := None, finishedAt := Some(now), error := Some(reason))
      else
        r.(status := Queued, lockedBy := None, lockedAt := None, runAt := now + backoff, error := Some(reason))
  }

  function Affected(t: Table, u: Update, now: Time): set<Id> {
    set id | id in t && Selects(u, id, t[id], now)
  }

  function Apply(t: Table, u: Update, now: Time): Table {
    map id | id in t :: if Selects(u, id, t[id], now) then SetRow(u, t[id], now) else t[id]
  }

  /** The registrations without a recent heartbeat, which dead-worker recovery removes. */
  function Dead(workers: map<string, Time>, staleAfter: Time, now: Time): set<string> {
    set w | w in workers && workers[w] < now - staleAfter
  }

  // ---------------------------------------------------------------- INSERT ... ON CONFLICT

  datatype KeyMode = Dedupe | Replace | PreserveRunAt

  /** One enqueue call; `runAt` is the caller's timestamp or the client clock when the caller gave none. */
  datatype Request = Request(
    name: string,
    payload: string,
    queueName: Option<string>,
    priority: int,
    runAt: Time,
    maxAttempts: int,
    jobKey: Option<string>,
    mode: KeyMode
  )

  function NewRow(q: Request, now: Time): Row {
    Row(q.name, Queued, q.payload, q.queueName, q.priority, q.runAt, q.jobKey, 0, q.maxAttempts, None, None, None, None,
        None, now)
  }

  /** The DO UPDATE branch: every assignment keeps the old value unless the holder is queued and the mode overwrites. */
  function Overwrite(r: Row, q: Request): Row {
    if q.mode != Dedupe && r.status == Queued then
      r.(name := q.name, payload := q.payload, queueName := q.queueName, priority := q.priority,
         runAt := if q.mode == Replace then q.runAt else r.runAt, maxAttempts := q.maxAttempts, error := None)
    else
      r
  }

  /** `r` is covered by `jobs_job_key_active_idx` under this key. */
  predicate HoldsKey(r: Row, key: Option<string>) {
    key.Some? && r.jobKey == key && r.status.IsActive()
  }

  ghost function KeyHolder(t: Table, key: Option<string>): (holder: Option<Id>)
    ensures holder.Some? ==> holder.value in t && HoldsKey(t[holder.value], key)
    ensures holder.None? ==> forall id :: id in t ==> !HoldsKey(t[id], key)
  {
    if exists id :: id in t && HoldsKey(t[id], key) then
      var id :| id in t && HoldsKey(t[id], key);
      Some(id)
    else
      None
  }

  /** The id the statement returns: the holder's when the key is taken, otherwise the fresh one. */
  ghost function EnqueuedId(t: Table, newId: Id, q: Request): Id {
    var holder := KeyHolder(t, q.jobKey);
    if holder.Some? then holder.value else newId
  }

  ghost function Upsert(t: Table, newId: Id, q: Request, now: Time): Table {
    var holder := KeyHolder(t, q.jobKey);
    if holder.Some? then t[holder.value := Overwrite(t[holder.value], q)] else t[newId := NewRow(q, now)]
  }

  // ---------------------------------------------------------------- DELETE

  /** `prune_finished` removes this row when it runs at `now`. */
  predicate Prunable(r: Row, retainFor: Time, now: Time) {
    r.status.IsTerminal() && r.finishedAt.Some? && r.finishedAt.value < now - retainFor
  }

  function Prune(t: Table, retainFor: Time, now: Time): Table {
    map id | id in t && !Prunable(t[id], retainFor, now) :: t[id]
  }

  // ---------------------------------------------------------------- constraints

  /** Both rows would need the same entry of `jobs_queue_running_idx`. */
  predicate SharesSlot(a: Row, b: Row) {
    a.status == Running && b.status == Running && a.queueName.Some? && a.queueName == b.queueName
  }

  /** `jobs_queue_running_idx` accepts the table. */
  ghost predicate QueuesSerial(t: Table) {
    forall i, j :: i in t && j in t && SharesSlot(t[i], t[j]) ==> i == j
  }

  /** `jobs_job_key_active_idx` accepts the table. */
  ghost predicate KeysUnique(t: Table) {
    forall i, j :: i in t && j in t && t[i].status.IsActive() && HoldsKey(t[j], t[i].jobKey) ==> i == j
  }

  datatype Outcome = Committed(table: Table) | Rejected

  /** An UPDATE as the database runs it: a unique violation leaves the table as it was. */
  ghost function Execute(t: Table, u: Update, now: Time): Outcome {
    var after := Apply(t, u, now);
    if QueuesSerial(after) && KeysUnique(after) then Committed(after) else Rejected
  }

  // ---------------------------------------------------------------- notify triggers

  /**
  `_900_notify` fires for UPDATE OF status, run_at: the column must be in the SET list, its value need not change.
  */
  predicate AssignsStatusOrRunAt(u: Update) {
    !u.RenewLock?
  }

  predicate AssignsStatus(u: Update) {
    !u.RenewLock? && !u.Reschedule?
  }

  /** One of the two triggers fires for a row that `u` takes from `before` to `after`. */
  predicate Fires(u: Update, before: Row, after: Row) {
    || (AssignsStatusOrRunAt(u) && after.status == Queued)
    || (AssignsStatus(u) && before.status == Running && after.status.IsTerminal() && before.queueName.Some?)
  }

  predicate Notifies(t: Table, u: Update, now: Time) {
    exists id :: id in t && Selects(u, id, t[id], now) && Fires(u, t[id], SetRow(u, t[id], now))
  }

  /**
  The insert fires `_900_notify`; so does the conflict branch, whose SET list names run_at, when the holder is queued.
  */
  ghost predicate UpsertNotifies(t: Table, q: Request) {
    var holder := KeyHolder(t, q.jobKey);
    holder.Some? ==> t[holder.value].status == Queued
  }
}
