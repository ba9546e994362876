/**
What every statement leaves in the columns of a job, said without its SET list: which of the columns a caller set stay,
which say how the job is doing, and what a new row takes from its request.
*/
module Columns {
  import opened Prelude
  import opened Jobs
  import opened TableInvariant

  /** What the client asked for, apart from the time, and when the row was made. */
  predicate SameDefinition(a: Row, b: Row) {
    && a.name == b.name && a.payload == b.payload && a.queueName == b.queueName && a.priority == b.priority
    && a.jobKey == b.jobKey && a.maxAttempts == b.maxAttempts && a.createdAt == b.createdAt
  }

  /** The row asks for what the request asked for, apart from the time. */
  predicate Carries(r: Row, q: Request) {
    && r.name == q.name && r.payload == q.payload && r.queueName == q.queueName && r.priority == q.priority
    && r.jobKey == q.jobKey && r.maxAttempts == q.maxAttempts
  }

  predicate SameAttempts(a: Row, b: Row) {
    a.attempt == b.attempt && a.startedAt == b.startedAt
  }

  predicate Unlocked(r: Row) {
    r.lockedBy == None && r.lockedAt == None
  }

  /** Finished at `at` with this status. */
  predicate EndedAs(r: Row, status: Status, at: Time, error: Option<string>) {
    r.status == status && Unlocked(r) && r.finishedAt == Some(at) && r.error == error
  }

  /** Waiting for a claim from `runAt` on. */
  predicate WaitsFrom(r: Row, runAt: Time, error: Option<string>) {
    r.status == Queued && Unlocked(r) && r.runAt == runAt && r.finishedAt == None && r.error == error
  }

  /** Claimed by `owner` at `at` for its next attempt. */
  predicate ClaimedFrom(r: Row, before: Row, owner: string, at: Time) {
    && r.status == Running && r.lockedBy == Some(owner) && r.lockedAt == Some(at) && r.startedAt == Some(at)
    && r.attempt == before.attempt + 1 && r.runAt == before.runAt && r.finishedAt == None && r.error == None
    && SameDefinition(r, before)
  }

  /** Back in the queue at `at`, with the attempts it has used. */
  predicate RequeuedFrom(r: Row, before: Row, at: Time, why: string) {
    WaitsFrom(r, at, Some(why)) && SameDefinition(r, before) && SameAttempts(r, before)
  }

  /** A new row for a request. */
  predicate InsertedFor(r: Row, q: Request, at: Time) {
    && Carries(r, q) && WaitsFrom(r, q.runAt, None)
    && r.attempt == 0 && r.startedAt == None && r.createdAt == at
  }

  /** Finished, with everything else as it was. */
  predicate EndedFrom(r: Row, before: Row, status: Status, at: Time, error: Option<string>) {
    EndedAs(r, status, at, error) && SameDefinition(r, before) && SameAttempts(r, before) && r.runAt == before.runAt
  }

  /** What a statement makes of a row it selects. */
  predicate Leaves(u: Update, before: Row, after: Row, at: Time) {
    match u
    case Cancel(_) => EndedFrom(after, before, Cancelled, at, None)
    case CompleteJob(_) => EndedFrom(after, before, Succeeded, at, None)
    case CompleteLocked(_, _) => EndedFrom(after, before, Succeeded, at, None)
    case PermanentlyFail(_, reason) => EndedFrom(after, before, Failed, at, Some(reason))
    case FailLocked(_, _, attempt, maxAttempts, reason, backoff) =>
      if attempt < maxAttempts then
        WaitsFrom(after, at + backoff, Some(reason)) && SameDefinition(after, before) && SameAttempts(after, before)
      else EndedFrom(after, before, Failed, at, Some(reason))
    case Retry(_) =>
      WaitsFrom(after, at, None) && SameDefinition(after, before) && after.attempt == 0 && after.startedAt == None
    case Reschedule(_, runAt) =>
      WaitsFrom(after, runAt, before.error) && SameDefinition(after, before) && SameAttempts(after, before)
    case Release(_) => RequeuedFrom(after, before, at, "released by shutting down worker")
    case ForceUnlock(_) => RequeuedFrom(after, before, at, "released by operator")
    case RecoverStale(_) => RequeuedFrom(after, before, at, "recovered stale running job")
    case RecoverDead(_) => RequeuedFrom(after, before, at, "recovered dead worker job")
    case Claim(_, owner) => ClaimedFrom(after, before, owner, at)
    case RenewLock(_, owner) =>
      && after.lockedAt == Some(at) && after.lockedBy == Some(owner) && after.status == Running
      && SameDefinition(after, before) && SameAttempts(after, before)
      && after.runAt == before.runAt && after.finishedAt == None && after.error == None
  }

  lemma SetRowLeaves(u: Update, id: Id, r: Row, at: Time)
    requires RowOk(r) && Selects(u, id, r, at)
    requires u.Claim? ==> r.status == Queued
    ensures Leaves(u, r, SetRow(u, r, at), at)
  {
  }

  /** No statement changes what the client asked for. */
  lemma LeavesDefinition(u: Update, before: Row, after: Row, at: Time)
    requires Leaves(u, before, after, at)
    ensures SameDefinition(after, before)
  {
  }

  /** The statements about one id, and which rows they are for. */
  lemma SelectsExactlyWhen(u: Update, id: Id, r: Row, at: Time)
    ensures u.Cancel? || u.Reschedule? ==> (Selects(u, id, r, at) <==> u.id == id && r.status == Queued)
    ensures u.CompleteJob? || u.PermanentlyFail? ==>
              (Selects(u, id, r, at) <==> u.id == id && (r.status == Queued || r.status == Running))
    ensures u.Retry? ==> (Selects(u, id, r, at) <==> u.id == id && (r.status == Failed || r.status == Cancelled))
  {
  }

  lemma NewRowIsInserted(q: Request, at: Time)
    ensures InsertedFor(NewRow(q, at), q, at)
  {
  }

  /** An overwritten row carries the request; its time only when the mode replaces it. */
  lemma OverwriteCarries(r: Row, q: Request)
    requires r.jobKey == q.jobKey
    ensures var after := Overwrite(r, q);
            if q.mode != Dedupe && r.status == Queued then
              && Carries(after, q) && after.error == None
              && after.runAt == (if q.mode == Replace then q.runAt else r.runAt)
              && SameAttempts(after, r) && after.createdAt == r.createdAt && after.status == Queued
              && after.lockedBy == r.lockedBy && after.lockedAt == r.lockedAt && after.finishedAt == r.finishedAt
            else after == r
  {
  }

  /** For which of its rows a statement wakes the workers: what it queues, and what leaves a busy named queue. */
  lemma TriggersExactlyWhen(u: Update, id: Id, r: Row, at: Time)
    requires RowOk(r) && Selects(u, id, r, at)
    requires u.Claim? ==> r.status == Queued
    ensures Fires(u, r, SetRow(u, r, at)) <==>
            match u
            case Cancel(_) | Claim(_, _) | RenewLock(_, _) => false
            case Retry(_) | Reschedule(_, _) => true
            case Release(_) | ForceUnlock(_) | RecoverStale(_) | RecoverDead(_) => true
            case CompleteJob(_) | PermanentlyFail(_, _) => r.status == Running && r.queueName.Some?
            case CompleteLocked(_, _) => r.queueName.Some?
            case FailLocked(_, _, attempt, maxAttempts, _, _) => attempt < maxAttempts || r.queueName.Some?
  {
  }

  /** An enqueue wakes them unless the job that holds its key is running already. */
  lemma EnqueueNotifiesExactlyWhen(t: Table, q: Request)
    requires TableOk(t)
    ensures UpsertNotifies(t, q) <==>
            forall id :: id in t && q.jobKey.Some? && t[id].jobKey == q.jobKey ==> t[id].status != Running
  {
    var holder := KeyHolder(t, q.jobKey);
    if holder.Some? {
      assert t[holder.value].status == Running || t[holder.value].status == Queued;
    }
  }

  // ---------------------------------------------------------------- a whole table

  /** The statement leaves every row it selects as said above, and no other row is touched. */
  ghost predicate TableLeft(t: Table, u: Update, at: Time, after: Table) {
    && after.Keys == t.Keys
    && forall id :: id in t ==>
         if Selects(u, id, t[id], at) then Leaves(u, t[id], after[id], at) else after[id] == t[id]
  }

  lemma ApplyLeaves(t: Table, u: Update, at: Time)
    requires TableOk(t) && ClaimsQueued(t, u)
    ensures TableLeft(t, u, at, Apply(t, u, at))
  {
    hide Selects, SetRow, Leaves, QueuesSerial, KeysUnique;
    forall id | id in t && Selects(u, id, t[id], at) ensures Leaves(u, t[id], Apply(t, u, at)[id], at) {
      ClaimIdSelected(u, id, t[id], at);
      SetRowLeaves(u, id, t[id], at);
    }
  }

  lemma ClaimIdSelected(u: Update, id: Id, r: Row, at: Time)
    requires Selects(u, id, r, at)
    ensures u.Claim? ==> u.id == id
  {
  }

  // ---------------------------------------------------------------- inserts

  /** The row an enqueue under a free key leaves at the id it returns; nothing else changes. */
  lemma InsertLeaves(t: Table, newId: Id, q: Request, at: Time)
    requires newId !in t && forall id :: id in t ==> !HoldsKey(t[id], q.jobKey)
    ensures var after := Upsert(t, newId, q, at);
            && EnqueuedId(t, newId, q) == newId && newId in after && InsertedFor(after[newId], q, at)
            && after.Keys == t.Keys + {newId} && forall id :: id in t ==> after[id] == t[id]
  {
    NewRowIsInserted(q, at);
  }
}
