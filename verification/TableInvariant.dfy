/**
What every statement keeps about the jobs table, and which statements the two unique indexes can reject.

The row invariant is implicit in the SQL: `complete_locked` and `fail_locked` test only the id and the lock owner, and
are sound because no other statement leaves a lock on a row that is not running.
*/
module TableInvariant {
  import opened Prelude
  import opened Jobs

  /** The columns of one row agree with its status. */
  predicate RowOk(r: Row) {
    && (r.status == Running <==> r.lockedBy.Some?)
    && (r.status == Running <==> r.lockedAt.Some?)
    && (r.status.IsTerminal() <==> r.finishedAt.Some?)
    && (r.attempt > 0 <==> r.startedAt.Some?)
    && (r.status == Running ==> r.attempt > 0)
    && r.attempt >= 0
    && r.maxAttempts > 0
    && (r.status != Queued ==> (r.error.Some? <==> r.status == Failed))
  }

  ghost predicate TableOk(t: Table) {
    && (forall id :: id in t ==> RowOk(t[id]))
    && QueuesSerial(t)
    && KeysUnique(t)
  }

  // ---------------------------------------------------------------- rows

  lemma SetRowKeepsRowOk(u: Update, id: Id, r: Row, now: Time)
    requires RowOk(r) && Selects(u, id, r, now)
    requires u.Claim? ==> r.status == Queued
    ensures RowOk(SetRow(u, r, now))
  {
  }

  /**
  Apart from a claim, a statement never starts a job: a selected row keeps its status, owner and attempt numbers, or it
  ends up unlocked and not running. In particular a completion or failure that finds its owner finds a running job.
  */
  lemma NonClaimKeepsOrReleases(u: Update, id: Id, r: Row, now: Time)
    requires RowOk(r) && Selects(u, id, r, now) && !u.Claim?
    ensures var after := SetRow(u, r, now);
            || (after.status != Running && after.lockedBy == None)
            || (&& after.status == r.status && after.lockedBy == r.lockedBy
                && after.attempt == r.attempt && after.maxAttempts == r.maxAttempts)
    ensures u.CompleteLocked? || u.FailLocked? ==> r.status == Running
  {
  }

  /** Only `retry` takes a row from inactive to active. */
  lemma OnlyRetryActivates(u: Update, id: Id, r: Row, now: Time)
    requires RowOk(r) && Selects(u, id, r, now) && SetRow(u, r, now).status.IsActive() && !r.status.IsActive()
    requires u.Claim? ==> r.status == Queued
    ensures u.Retry? && r.status != Succeeded
  {
  }

  // ---------------------------------------------------------------- the indexes

  /** Claiming `id` collides with a running job of the same named queue. */
  ghost predicate QueueBusy(t: Table, id: Id)
    requires id in t
  {
    exists other :: other in t && other != id && t[other].status == Running
                    && t[id].queueName.Some? && t[other].queueName == t[id].queueName
  }

  /** Retrying `id` collides with another active job under its key. */
  ghost predicate KeyTaken(t: Table, id: Id)
    requires id in t
  {
    exists other :: other in t && other != id && HoldsKey(t[other], t[id].jobKey)
  }

  /** A claim takes a queued row: the candidate subquery selected it and holds its row lock. */
  predicate ClaimsQueued(t: Table, u: Update) {
    u.Claim? ==> u.id in t && t[u.id].status == Queued
  }

  lemma ApplyKeepsRowsOk(t: Table, u: Update, now: Time)
    requires TableOk(t) && ClaimsQueued(t, u)
    ensures forall id :: id in t ==> RowOk(Apply(t, u, now)[id])
  {
    forall id | id in t ensures RowOk(Apply(t, u, now)[id]) {
      if Selects(u, id, t[id], now) {
        SetRowKeepsRowOk(u, id, t[id], now);
      }
    }
  }

  lemma ApplyKeepsQueuesSerial(t: Table, u: Update, now: Time)
    requires TableOk(t) && ClaimsQueued(t, u)
    ensures QueuesSerial(Apply(t, u, now)) <==> !(u.Claim? && QueueBusy(t, u.id))
  {
    var after := Apply(t, u, now);
    if u.Claim? && QueueBusy(t, u.id) {
      var other :| other in t && other != u.id && t[other].status == Running
                   && t[u.id].queueName.Some? && t[other].queueName == t[u.id].queueName;
      assert SharesSlot(after[u.id], after[other]);
    } else {
      forall k | k in t
        ensures after[k].queueName == t[k].queueName
        ensures after[k].status == Running ==> t[k].status == Running || (u.Claim? && k == u.id)
      {
        SlotAfter(t, u, now, k);
      }
      hide Apply, RowOk, KeysUnique;
      forall i, j | i in after && j in after && SharesSlot(after[i], after[j]) ensures i == j {
        assert SharesSlot(t[i], t[j]) ==> i == j;
      }
    }
  }

  /** No statement moves a row to another queue, and only a claim starts one. */
  lemma SlotAfter(t: Table, u: Update, now: Time, id: Id)
    requires id in t && RowOk(t[id])
    ensures var after := Apply(t, u, now)[id];
            && after.queueName == t[id].queueName
            && (after.status == Running ==> t[id].status == Running || (u.Claim? && id == u.id))
  {
    if Selects(u, id, t[id], now) && !u.Claim? {
      NonClaimKeepsOrReleases(u, id, t[id], now);
    }
  }

  lemma ApplyKeepsKeysUnique(t: Table, u: Update, now: Time)
    requires TableOk(t) && ClaimsQueued(t, u)
    ensures KeysUnique(Apply(t, u, now)) <==>
            !(u.Retry? && u.id in t && Selects(u, u.id, t[u.id], now) && KeyTaken(t, u.id))
  {
    var after := Apply(t, u, now);
    forall k | k in t
      ensures after[k].jobKey == t[k].jobKey
      ensures after[k].status.IsActive() && !t[k].status.IsActive() ==>
                u.Retry? && k == u.id && Selects(u, k, t[k], now)
    {
      if Selects(u, k, t[k], now) && after[k].status.IsActive() && !t[k].status.IsActive() {
        OnlyRetryActivates(u, k, t[k], now);
      }
    }
    if u.Retry? && u.id in t && Selects(u, u.id, t[u.id], now) && KeyTaken(t, u.id) {
      var other :| other in t && other != u.id && HoldsKey(t[other], t[u.id].jobKey);
      assert HoldsKey(after[other], after[u.id].jobKey);
    } else {
      forall i, j | i in after && j in after && after[i].status.IsActive() && HoldsKey(after[j], after[i].jobKey)
        ensures i == j
      {
        assert t[i].status.IsActive() && HoldsKey(t[j], t[i].jobKey) ==> i == j;
        assert t[j].status.IsActive() && HoldsKey(t[i], t[j].jobKey) ==> i == j;
      }
    }
  }

  /**
  A unique violation has exactly two sources: a claim of a job whose named queue already runs one, and a retry of a
  finished job whose key another active job holds by now. Every other statement always commits.
  */
  lemma RejectedExactlyWhen(t: Table, u: Update, now: Time)
    requires TableOk(t) && ClaimsQueued(t, u)
    ensures Execute(t, u, now).Rejected? <==>
            || (u.Claim? && QueueBusy(t, u.id))
            || (u.Retry? && u.id in t && Selects(u, u.id, t[u.id], now) && KeyTaken(t, u.id))
  {
    ApplyKeepsQueuesSerial(t, u, now);
    ApplyKeepsKeysUnique(t, u, now);
  }

  /** Every committed UPDATE keeps the table invariant. */
  lemma ExecuteKeepsTableOk(t: Table, u: Update, now: Time)
    requires TableOk(t) && ClaimsQueued(t, u) && Execute(t, u, now).Committed?
    ensures TableOk(Execute(t, u, now).table)
  {
    ApplyKeepsRowsOk(t, u, now);
  }

  // ---------------------------------------------------------------- enqueue and prune

  /**
  Enqueueing never collides with an index and keeps the invariant, whether it inserts, overwrites or leaves the
  holder.
  */
  lemma UpsertKeepsTableOk(t: Table, newId: Id, q: Request, now: Time)
    requires TableOk(t) && newId !in t && q.maxAttempts > 0
    ensures TableOk(Upsert(t, newId, q, now))
  {
    var holder := KeyHolder(t, q.jobKey);
    var target := EnqueuedId(t, newId, q);
    var after := Upsert(t, newId, q, now);
    forall i, j | i in after && j in after && SharesSlot(after[i], after[j]) ensures i == j {
      assert i in t && j in t && SharesSlot(t[i], t[j]);
    }
    forall i, j | i in after && j in after && after[i].status.IsActive() && HoldsKey(after[j], after[i].jobKey)
      ensures i == j
    {
      if holder.None? && i != j && (i == newId || j == newId) {
        assert false;
      }
    }
  }

  lemma PruneKeepsTableOk(t: Table, retainFor: Time, now: Time)
    requires TableOk(t)
    ensures TableOk(Prune(t, retainFor, now))
  {
  }

  // ---------------------------------------------------------------- what one statement can do to a finished job

  /** A finished job changes only through `retry`, and a succeeded job not even then. */
  lemma FinishedChangesOnlyByRetry(t: Table, u: Update, now: Time, id: Id)
    requires TableOk(t) && ClaimsQueued(t, u) && id in t && t[id].status.IsTerminal()
    requires Apply(t, u, now)[id] != t[id]
    ensures u == Retry(id) && t[id].status != Succeeded && Apply(t, u, now)[id].status == Queued
  {
  }

  /** A running job keeps its definition, and everything but the lock time while it stays running. */
  lemma RunningKeepsDefinition(t: Table, u: Update, now: Time, id: Id)
    requires TableOk(t) && ClaimsQueued(t, u) && id in t && t[id].status == Running
    ensures var r := t[id]; var after := Apply(t, u, now)[id];
            && after.name == r.name && after.payload == r.payload && after.queueName == r.queueName
            && after.jobKey == r.jobKey && after.attempt == r.attempt && after.maxAttempts == r.maxAttempts
            && (after.status == Running ==> after == r.(lockedAt := after.lockedAt))
  {
  }

  /**
  A job that finishes at `now` is kept for the retention, counted from then, and pruned by the first run after it.
  */
  lemma FinishedIsRetained(t: Table, u: Update, now: Time, id: Id, retainFor: Time, later: Time)
    requires id in Affected(t, u, now) && RowOk(t[id])
    requires t[id].status.IsActive() && Apply(t, u, now)[id].status.IsTerminal()
    ensures id in Prune(Apply(t, u, now), retainFor, later) <==> later <= now + retainFor
  {
    assert Apply(t, u, now)[id] == SetRow(u, t[id], now);
    hide Apply, KeysUnique, QueuesSerial;
  }

  /** Claiming and renewing start the lease anew: stale recovery takes the job once `staleAfter` has passed since. */
  lemma LockIsFreshFor(t: Table, u: Update, now: Time, id: Id, staleAfter: Time, later: Time)
    requires (u.Claim? || u.RenewLock?) && id in Affected(t, u, now)
    ensures Selects(RecoverStale(staleAfter), id, Apply(t, u, now)[id], later) <==> now + staleAfter < later
  {
  }

  /** A running job has no error text, so the `COALESCE` of a forced requeue always records why it happened. */
  lemma ForcedRequeueRecordsWhy(t: Table, u: Update, now: Time, id: Id)
    requires TableOk(t) && u.IsForced() && id in Affected(t, u, now)
    ensures Apply(t, u, now)[id].error == Some(ForcedReason(u))
  {
    assert RowOk(t[id]);
  }
}
