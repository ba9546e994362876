/**
`Queue`: every statement as a method that changes the shared tables in place. Each is specified by the statement's
meaning in `Jobs`, `Batch`, `Claiming` or `Cron`, keeps the table invariant, and says whether a notification is sent.
*/
module QueueApi {
  import opened Prelude
  import opened Jobs
  import opened TableInvariant
  import opened Columns
  import opened Claiming
  import opened Batch
  import Cron

  datatype EnqueueError = CheckViolation | DuplicateJobKey(key: string)

  datatype QueueError = UniqueViolation

  /** The enqueue options of a cron definition. */
  datatype CronOptions = CronOptions(
    queueName: Option<string>,
    priority: int,
    maxAttempts: int,
    jobKey: Option<string>,
    mode: KeyMode
  )

  /** The job row a cron poll inserts: due at the occurrence itself, not at the time of the poll. */
  function CronRequest(p: Cron.Poll, o: CronOptions): Request {
    Request(p.name, p.payload, o.queueName, o.priority, p.due, o.maxAttempts, o.jobKey, o.mode)
  }

  datatype CronEnqueueResult = Enqueued(id: Id) | AlreadyQueued(id: Id) | Skipped

  /** A statement that can touch one row only does nothing, or updates that row. */
  lemma SingleRow(t: Table, u: Update, now: Time, id: Id)
    requires forall other :: other in t && Selects(u, other, t[other], now) ==> other == id
    ensures var hit := id in t && Selects(u, id, t[id], now);
            && Affected(t, u, now) == (if hit then {id} else {})
            && Apply(t, u, now) == (if hit then t[id := SetRow(u, t[id], now)] else t)
            && (Notifies(t, u, now) <==> hit && Fires(u, t[id], SetRow(u, t[id], now)))
  {
    assert Apply(t, u, now).Keys == t.Keys;
  }

  /** Every request of a batch has its row at the id returned for it, and a new row asks for what the request did. */
  ghost predicate RowsCarry(before: Table, items: seq<Item>, now: Time, after: Table, ids: seq<Id>) {
    && |ids| == |items|
    && forall i :: 0 <= i < |items| ==>
         && ids[i] in after && after[ids[i]].jobKey == items[i].q.jobKey
         && (ids[i] !in before ==> InsertedFor(after[ids[i]], items[i].q, now))
  }

  class Queue {
    var jobs: Table
    var workers: map<string, Time>
    var crons: Cron.Crons
    var notifications: nat

    ghost predicate Valid()
      reads this
    {
      TableOk(jobs)
    }

    constructor ()
      ensures Valid() && jobs == map[] && workers == map[] && crons == map[] && notifications == 0
    {
      jobs, workers, crons, notifications := map[], map[], map[], 0;
    }

    // -------------------------------------------------------------- enqueue

    /** `INSERT ... ON CONFLICT (job_key) DO UPDATE` of one row. */
    static method UpsertRow(table: Table, newId: Id, q: Request, now: Time) returns (after: Table, id: Id, notify: bool)
      requires TableOk(table) && newId !in table && q.maxAttempts > 0
      ensures after == Upsert(table, newId, q, now) && id == EnqueuedId(table, newId, q) && TableOk(after)
      ensures notify == UpsertNotifies(table, q)
      ensures id in after && after[id].jobKey == q.jobKey
      ensures id !in table <==> forall other :: other in table ==> !HoldsKey(table[other], q.jobKey)
      ensures id !in table ==> id == newId && InsertedFor(after[id], q, now)
      ensures forall other :: other in table && other != id ==> other in after && after[other] == table[other]
    {
      UpsertKeepsTableOk(table, newId, q, now);
      if exists holder :: holder in table && HoldsKey(table[holder], q.jobKey) {
        id :| id in table && HoldsKey(table[id], q.jobKey);
        HolderIs(table, q.jobKey, id);
        var row := table[id];
        notify := row.status == Queued;
        if row.status == Queued && q.mode != Dedupe {
          row := row.(name := q.name, payload := q.payload, queueName := q.queueName, priority := q.priority,
                      maxAttempts := q.maxAttempts, error := None);
          if q.mode == Replace {
            row := row.(runAt := q.runAt);
          }
        }
        after := table[id := row];
      } else {
        id := newId;
        notify := true;
        after := table[newId := Row(q.name, Queued, q.payload, q.queueName, q.priority, q.runAt, q.jobKey, 0,
                                    q.maxAttempts, None, None, None, None, None, now)];
      }
    }

    method Enqueue(newId: Id, q: Request, now: Time) returns (result: Result<Id, EnqueueError>)
      requires Valid() && newId !in jobs
      modifies this`jobs, this`notifications
      ensures Valid()
      ensures q.maxAttempts <= 0 ==>
                result == Err(CheckViolation) && jobs == old(jobs) && notifications == old(notifications)
      ensures q.maxAttempts > 0 ==>
                && result == Ok(EnqueuedId(old(jobs), newId, q))
                && jobs == Upsert(old(jobs), newId, q, now)
                && notifications == old(notifications) + (if UpsertNotifies(old(jobs), q) then 1 else 0)
                && result.value in jobs
                && (result.value !in old(jobs) ==> InsertedFor(jobs[result.value], q, now))
    {
      if q.maxAttempts <= 0 {
        return Err(CheckViolation);
      }
      var after, id, notify := UpsertRow(jobs, newId, q, now);
      jobs := after;
      if notify {
        notifications := notifications + 1;
      }
      return Ok(id);
    }

    /** One multi-row upsert: row by row, a sequence of single ones. */
    static method UpsertRows(table: Table, items: seq<Item>, now: Time)
      returns (after: Table, rows: seq<Returned>, notify: bool)
      requires Ready(table, items)
      ensures after == EnqueueAll(table, items, now) && rows == ReturnedRows(table, items, now)
      ensures notify == EnqueueAllNotifies(table, items, now)
      decreases |items|
    {
      hide TableOk, Separate, Upsert, KeyHolder, EnqueuedId, UpsertNotifies;
      if items == [] {
        return table, [], false;
      }
      ReadyStep(table, items, now);
      assert items[0] in items;
      var next, id, fired := UpsertRow(table, items[0].newId, items[0].q, now);
      var more;
      after, more, notify := UpsertRows(next, items[1..], now);
      rows := [Returned(id, items[0].q.jobKey)] + more;
      notify := notify || fired;
    }

    /** Files the returned ids under their keys. */
    static method CollectIds(byKey: map<string, Id>, rows: seq<Returned>, ghost before: seq<Returned>)
      returns (ids: map<string, Id>)
      requires byKey == IdsByKey(before)
      ensures ids == IdsByKey(before + rows)
    {
      ids := byKey;
      assert before + rows[..0] == before;
      for i := 0 to |rows|
        invariant ids == IdsByKey(before + rows[..i])
      {
        assert (before + rows[..i + 1])[..|before| + i] == before + rows[..i];
        if rows[i].jobKey.Some? {
          ids := ids[rows[i].jobKey.value := rows[i].id];
        }
      }
      assert rows[..|rows|] == rows;
    }

    /** The three statements of a batch inside its transaction; an inadmissible request fails its statement. */
    static method InsertGroups(table: Table, items: seq<Item>, now: Time)
      returns (ok: bool, after: Table, byKey: map<string, Id>, notify: bool)
      requires TableOk(table) && Separate(items) && forall it :: it in items ==> it.newId !in table
      ensures ok <==> Ready(table, items)
      ensures !ok ==> exists it :: it in items && it.q.maxAttempts <= 0
      ensures ok ==>
                && after == EnqueueAll(table, items, now)
                && byKey == IdsByKey(ReturnedRows(table, Grouped(items), now))
                && notify == NotifiesAlone(table, items)
    {
      hide Ready, Separate, TableOk, EnqueueAll, GroupedPrefix, ReturnedRows, EnqueueAllNotifies, IdsByKey;
      GroupedPrefixStart(table, items, now);
      after, byKey, notify, ok := table, map[], false, true;
      ghost var rows: seq<Returned> := [];
      for m := 0 to 3
        invariant Ready(table, GroupedPrefix(items, m))
        invariant after == EnqueueAll(table, GroupedPrefix(items, m), now)
        invariant rows == ReturnedRows(table, GroupedPrefix(items, m), now) && byKey == IdsByKey(rows)
        invariant notify == EnqueueAllNotifies(table, GroupedPrefix(items, m), now)
      {
        var selected := OfMode(items, MODES[m]);
        ghost var done := GroupedPrefix(items, m);
        GroupedPrefixNext(items, m);
        if selected == [] {
          assert done + selected == done;
        } else {
          if bad :| bad in selected && bad.q.maxAttempts <= 0 {
            NotReady(table, items, bad);
            return false, table, map[], false;
          }
          NextGroupReady(table, items, m, now);
          EnqueueAllAppend(table, done, selected, now);
          ReturnedRowsAppend(table, done, selected, now);
          EnqueueAllNotifiesAppend(table, done, selected, now);
          var returned, fired;
          after, returned, fired := UpsertRows(after, selected, now);
          byKey := CollectIds(byKey, returned, rows);
          rows := rows + returned;
          notify := notify || fired;
        }
      }
      AllGroupsReady(table, items, now);
    }

    static function ItemsOf(requests: seq<Request>, newIds: seq<Id>): (items: seq<Item>)
      requires |newIds| == |requests|
      ensures |items| == |requests|
    {
      seq(|requests|, i requires 0 <= i < |requests| => Item(requests[i], newIds[i]))
    }

    static ghost predicate KeyRepeated(requests: seq<Request>, key: string) {
      exists i, j :: 0 <= i < j < |requests| && requests[i].jobKey == Some(key) && requests[j].jobKey == Some(key)
    }

    /**
    `enqueue_many`. A repeated key or an inadmissible request leaves the table as it was; otherwise table and ids are
    those of enqueueing the requests one by one in request order, with at most one notification for the whole batch.
    */
    method EnqueueMany(requests: seq<Request>, newIds: seq<Id>, now: Time)
      returns (result: Result<seq<Id>, EnqueueError>)
      requires Valid() && |newIds| == |requests|
      requires forall i :: 0 <= i < |newIds| ==> newIds[i] !in jobs
      requires forall i, j :: 0 <= i < j < |newIds| ==> newIds[i] != newIds[j]
      modifies this`jobs, this`notifications
      ensures Valid()
      ensures var items := ItemsOf(requests, newIds);
              match result
              case Ok(ids) =>
                && Ready(old(jobs), items)
                && jobs == EnqueueAll(old(jobs), items, now)
                && ids == EnqueueAllIds(old(jobs), items, now)
                && RowsCarry(old(jobs), items, now, jobs, ids)
                && notifications == old(notifications) + if NotifiesAlone(old(jobs), items) then 1 else 0
              case Err(DuplicateJobKey(key)) =>
                KeyRepeated(requests, key) && jobs == old(jobs) && notifications == old(notifications)
              case Err(CheckViolation) =>
                && (forall key :: !KeyRepeated(requests, key))
                && (exists i :: 0 <= i < |requests| && requests[i].maxAttempts <= 0)
                && jobs == old(jobs) && notifications == old(notifications)
    {
      var items := ItemsOf(requests, newIds);
      if requests == [] {
        assert items == [] && Ready(jobs, items);
        return Ok([]);
      }
      hide Ready, TableOk, EnqueueAll, EnqueueAllIds, ReturnedRows, Grouped, IdsByKey, NotifiesAlone, RowsCarry;
      var batchKeys: set<string> := {};
      for i := 0 to |requests|
        invariant jobs == old(jobs) && notifications == old(notifications)
        invariant forall k :: 0 <= k < i && requests[k].jobKey.Some? ==> requests[k].jobKey.value in batchKeys
        invariant forall key :: key in batchKeys ==> exists k :: 0 <= k < i && requests[k].jobKey == Some(key)
        invariant forall a, b :: 0 <= a < b < i && requests[a].jobKey.Some? ==> requests[a].jobKey != requests[b].jobKey
      {
        if requests[i].jobKey.Some? {
          var key := requests[i].jobKey.value;
          if key in batchKeys {
            return Err(DuplicateJobKey(key));
          }
          batchKeys := batchKeys + {key};
        }
      }
      assert Separate(items);
      forall it | it in items ensures it.newId !in jobs {
        var k :| 0 <= k < |items| && items[k] == it;
      }
      var ok, after, byKey, notify := InsertGroups(jobs, items, now);
      if !ok {
        return Err(CheckViolation);
      }
      var ids := OrderIds(jobs, items, byKey, now);
      EnqueueAllSettles(jobs, items, now);
      EnqueuedRowsCarry(jobs, items, now);
      jobs := after;
      if notify {
        notifications := notifications + 1;
      }
      return Ok(ids);
    }

    /** Puts the ids back into request order: by key where there is one, else the generated id. No key is missing. */
    static method OrderIds(ghost table: Table, items: seq<Item>, byKey: map<string, Id>, ghost now: Time)
      returns (ids: seq<Id>)
      requires Ready(table, items) && byKey == IdsByKey(ReturnedRows(table, Grouped(items), now))
      ensures ids == EnqueueAllIds(table, items, now)
    {
      hide Ready, IdsByKey, ReturnedRows, EnqueueAllIds, KeyHolder;
      EnqueueAllIdsAre(table, items, now);
      ids := [];
      for i := 0 to |items|
        invariant |ids| == i && forall k :: 0 <= k < i ==> ids[k] == TargetOf(table, items[k])
      {
        match items[i].q.jobKey
        case Some(key) =>
          BatchIdsByKey(table, items, now, items[i]);
          ids := ids + [byKey[key]];
        case None =>
          ids := ids + [items[i].newId];
      }
    }

    // -------------------------------------------------------------- single-row updates

    /**
    The table is the one the statement prescribes, with the columns it is to leave, and a notification went out exactly
    when a trigger fired.
    */
    static ghost predicate Performed(
        before: Table, u: Update, now: Time, after: Table, sentBefore: nat, sentAfter: nat)
    {
      && after == Apply(before, u, now) && TableLeft(before, u, now, after)
      && sentAfter == sentBefore + if Notifies(before, u, now) then 1 else 0
    }

    /** Cancels a job that is still queued. */
    method Cancel(id: Id, now: Time) returns (changed: bool)
      requires Valid()
      modifies this`jobs, this`notifications
      ensures Valid() && Performed(old(jobs), Update.Cancel(id), now, jobs, old(notifications), notifications)
      ensures changed <==> Affected(old(jobs), Update.Cancel(id), now) == {id}
      ensures changed ==> id in old(jobs) && id in jobs && EndedFrom(jobs[id], old(jobs)[id], Cancelled, now, None)
    {
      SingleRow(jobs, Update.Cancel(id), now, id);
      ExecuteKeepsTableOkUnlessRejected(jobs, Update.Cancel(id), now);
      hide TableOk, TableLeft, Apply, Affected, Notifies;
      changed := id in jobs && jobs[id].status == Queued;
      if changed {
        var row := jobs[id];
        jobs := jobs[id := row.(status := Cancelled, finishedAt := Some(now), error := None)];
      }
    }

    /** Restarts a failed or cancelled job with a fresh attempt counter; fails when another active job holds its key. */
    method Retry(id: Id, now: Time) returns (result: Result<bool, QueueError>)
      requires Valid()
      modifies this`jobs, this`notifications
      ensures Valid()
      ensures result.Err? <==>
                id in old(jobs) && (old(jobs)[id].status == Failed || old(jobs)[id].status == Cancelled)
                && KeyTaken(old(jobs), id)
      ensures result.Err? ==> jobs == old(jobs) && notifications == old(notifications)
      ensures result.Ok? ==>
                && Performed(old(jobs), Update.Retry(id), now, jobs, old(notifications), notifications)
                && (result.value <==> Affected(old(jobs), Update.Retry(id), now) == {id})
    {
      ghost var u := Update.Retry(id);
      SingleRow(jobs, u, now, id);
      RejectedExactlyWhen(jobs, u, now);
      if id !in jobs || !(jobs[id].status == Failed || jobs[id].status == Cancelled) {
        ApplyLeaves(jobs, u, now);
        return Ok(false);
      }
      if exists other :: other in jobs && other != id && HoldsKey(jobs[other], jobs[id].jobKey) {
        return Err(UniqueViolation);
      }
      ExecuteKeepsTableOk(jobs, u, now);
      ApplyLeaves(jobs, u, now);
      jobs := jobs[id := jobs[id].(status := Queued, attempt := 0, runAt := now, lockedBy := None, lockedAt := None,
                                   error := None, startedAt := None, finishedAt := None)];
      notifications := notifications + 1;
      return Ok(true);
    }

    /** Retires an unfinished job as failed and releases its lock. */
    method PermanentlyFail(id: Id, reason: string, now: Time) returns (changed: bool)
      requires Valid()
      modifies this`jobs, this`notifications
      ensures Valid()
      ensures Performed(old(jobs), Update.PermanentlyFail(id, reason), now, jobs, old(notifications), notifications)
      ensures changed <==> Affected(old(jobs), Update.PermanentlyFail(id, reason), now) == {id}
      ensures changed ==> id in old(jobs) && id in jobs && EndedFrom(jobs[id], old(jobs)[id], Failed, now, Some(reason))
    {
      SingleRow(jobs, Update.PermanentlyFail(id, reason), now, id);
      ExecuteKeepsTableOkUnlessRejected(jobs, Update.PermanentlyFail(id, reason), now);
      hide TableOk, TableLeft, Apply, Affected, Notifies;
      changed := id in jobs && (jobs[id].status == Queued || jobs[id].status == Running);
      if changed {
        var row := jobs[id];
        jobs := jobs[id := row.(status := Failed, lockedBy := None, lockedAt := None, finishedAt := Some(now),
                                error := Some(reason))];
        if row.status == Running && row.queueName.Some? {
          notifications := notifications + 1;
        }
      }
    }

    /** Retires an unfinished job as succeeded and releases its lock. */
    method Complete(id: Id, now: Time) returns (changed: bool)
      requires Valid()
      modifies this`jobs, this`notifications
      ensures Valid() && Performed(old(jobs), Update.CompleteJob(id), now, jobs, old(notifications), notifications)
      ensures changed <==> Affected(old(jobs), Update.CompleteJob(id), now) == {id}
      ensures changed ==> id in old(jobs) && id in jobs && EndedFrom(jobs[id], old(jobs)[id], Succeeded, now, None)
    {
      SingleRow(jobs, Update.CompleteJob(id), now, id);
      ExecuteKeepsTableOkUnlessRejected(jobs, Update.CompleteJob(id), now);
      hide TableOk, TableLeft, Apply, Affected, Notifies;
      changed := id in jobs && (jobs[id].status == Queued || jobs[id].status == Running);
      if changed {
        var row := jobs[id];
        jobs := jobs[id := row.(status := Succeeded, lockedBy := None, lockedAt := None, finishedAt := Some(now),
                                error := None)];
        if row.status == Running && row.queueName.Some? {
          notifications := notifications + 1;
        }
      }
    }

    /** Moves a queued job to a new time. */
    method Reschedule(id: Id, runAt: Time, now: Time) returns (changed: bool)
      requires Valid()
      modifies this`jobs, this`notifications
      ensures Valid()
      ensures Performed(old(jobs), Update.Reschedule(id, runAt), now, jobs, old(notifications), notifications)
      ensures changed <==> Affected(old(jobs), Update.Reschedule(id, runAt), now) == {id}
    {
      SingleRow(jobs, Update.Reschedule(id, runAt), now, id);
      ExecuteKeepsTableOkUnlessRejected(jobs, Update.Reschedule(id, runAt), now);
      hide TableOk, TableLeft, Apply, Affected, Notifies;
      changed := id in jobs && jobs[id].status == Queued;
      if changed {
        var row := jobs[id];
        jobs := jobs[id := row.(runAt := runAt)];
        notifications := notifications + 1;
      }
    }

    /** Records a handler's success. The statement tests only id and owner; what it finds is always a running job. */
    method CompleteLocked(id: Id, owner: string, now: Time) returns (changed: bool)
      requires Valid()
      modifies this`jobs, this`notifications
      ensures Valid()
      ensures Performed(old(jobs), Update.CompleteLocked(id, owner), now, jobs, old(notifications), notifications)
      ensures changed <==> Affected(old(jobs), Update.CompleteLocked(id, owner), now) == {id}
      ensures changed ==> id in old(jobs) && id in jobs && EndedFrom(jobs[id], old(jobs)[id], Succeeded, now, None)
    {
      SingleRow(jobs, Update.CompleteLocked(id, owner), now, id);
      ExecuteKeepsTableOkUnlessRejected(jobs, Update.CompleteLocked(id, owner), now);
      hide TableOk, TableLeft, Apply, Affected, Notifies;
      changed := id in jobs && jobs[id].lockedBy == Some(owner);
      if changed {
        var row := jobs[id];
        jobs := jobs[id := row.(status := Succeeded, lockedBy := None, lockedAt := None, finishedAt := Some(now),
                                error := None)];
        if row.queueName.Some? {
          notifications := notifications + 1;
        }
      }
    }

    /** Extends the lock of a running job. Silent: it sets neither status nor run_at. */
    method RenewLock(id: Id, owner: string, now: Time) returns (changed: bool)
      requires Valid()
      modifies this`jobs, this`notifications
      ensures Valid() && Performed(old(jobs), Update.RenewLock(id, owner), now, jobs, old(notifications), notifications)
      ensures changed <==> Affected(old(jobs), Update.RenewLock(id, owner), now) == {id}
    {
      SingleRow(jobs, Update.RenewLock(id, owner), now, id);
      ExecuteKeepsTableOkUnlessRejected(jobs, Update.RenewLock(id, owner), now);
      hide TableOk, TableLeft, Apply, Affected, Notifies;
      changed := id in jobs && jobs[id].lockedBy == Some(owner) && jobs[id].status == Running;
      if changed {
        var row := jobs[id];
        jobs := jobs[id := row.(lockedAt := Some(now))];
      }
    }

    /**
    Records a handler's failure: the job is retried after a backoff, or failed for good when its attempts are used up.
    */
    method FailLocked(
        id: Id, owner: string, attempt: int, maxAttempts: int, reason: string, exp: int -> Time, now: Time)
      returns (changed: bool)
      requires Valid()
      modifies this`jobs, this`notifications
      ensures Valid()
      ensures var u := Update.FailLocked(id, owner, attempt, maxAttempts, reason, exp(Min(attempt, 10)));
              && Performed(old(jobs), u, now, jobs, old(notifications), notifications)
              && (changed <==> Affected(old(jobs), u, now) == {id})
    {
      var backoff := exp(Min(attempt, 10));
      ghost var u := Update.FailLocked(id, owner, attempt, maxAttempts, reason, backoff);
      FailLockedInPlace(jobs, u, now);
      hide TableOk, Apply, Affected, Notifies, TableLeft, SetRow, Min;
      changed := id in jobs && jobs[id].lockedBy == Some(owner);
      if changed {
        var row := jobs[id];
        var retried := attempt < maxAttempts;
        if retried {
          row := row.(status := Queued, lockedBy := None, lockedAt := None, runAt := now + backoff,
                      error := Some(reason));
        } else {
          row := row.(status := Failed, lockedBy := None, lockedAt := None, finishedAt := Some(now),
                      error := Some(reason));
        }
        assert row == SetRow(u, jobs[id], now);
        jobs := jobs[id := row];
        if retried || row.queueName.Some? {
          notifications := notifications + 1;
        }
      }
    }

    // -------------------------------------------------------------- forced requeues

    /** The SET list the four forced requeues share, applied to the selected rows. */
    method Requeue(hit: set<Id>, reason: string, now: Time) returns (count: nat)
      modifies this`jobs, this`notifications
      ensures jobs == RequeueAll(old(jobs), hit, reason, now) && count == |hit|
      ensures notifications == old(notifications) + if hit != {} then 1 else 0
    {
      jobs := map id | id in jobs ::
        if id in hit then
          jobs[id].(status := Queued, lockedBy := None, lockedAt := None, runAt := now,
                    error := if jobs[id].error.Some? then jobs[id].error else Some(reason))
        else jobs[id];
      if hit != {} {
        notifications := notifications + 1;
      }
      count := |hit|;
    }

    /** Requeues every running job whose lock owner starts with the worker's prefix. */
    method ReleaseWorkerJobs(worker: string, now: Time) returns (count: nat)
      requires Valid()
      modifies this`jobs, this`notifications
      ensures Valid() && Performed(old(jobs), Update.Release(worker), now, jobs, old(notifications), notifications)
      ensures count == |Affected(old(jobs), Update.Release(worker), now)|
    {
      hide TableOk;
      var hit := set id | id in jobs && jobs[id].status == Running && jobs[id].lockedBy.Some?
                          && worker + ":" <= jobs[id].lockedBy.value;
      assert hit == Affected(jobs, Update.Release(worker), now);
      ForcedRequeueMeaning(jobs, Update.Release(worker), now);
      count := Requeue(hit, "released by shutting down worker", now);
    }

    /** The same by an operator, who also deregisters the worker. */
    method ForceUnlockWorker(worker: string, now: Time) returns (count: nat)
      requires Valid()
      modifies this`jobs, this`notifications, this`workers
      ensures Valid() && Performed(old(jobs), Update.ForceUnlock(worker), now, jobs, old(notifications), notifications)
      ensures count == |Affected(old(jobs), Update.ForceUnlock(worker), now)|
      ensures workers == old(workers) - {worker}
    {
      hide TableOk;
      var hit := set id | id in jobs && jobs[id].status == Running && jobs[id].lockedBy.Some?
                          && worker + ":" <= jobs[id].lockedBy.value;
      assert hit == Affected(jobs, Update.ForceUnlock(worker), now);
      ForcedRequeueMeaning(jobs, Update.ForceUnlock(worker), now);
      count := Requeue(hit, "released by operator", now);
      workers := workers - {worker};
    }

    /** Requeues running jobs whose lock was not renewed for longer than `staleAfter`. */
    method RecoverStale(staleAfter: Time, now: Time) returns (count: nat)
      requires Valid()
      modifies this`jobs, this`notifications
      ensures Valid()
      ensures Performed(old(jobs), Update.RecoverStale(staleAfter), now, jobs, old(notifications), notifications)
      ensures count == |Affected(old(jobs), Update.RecoverStale(staleAfter), now)|
    {
      hide TableOk;
      var hit := set id | id in jobs && jobs[id].status == Running && jobs[id].lockedAt.Some?
                          && jobs[id].lockedAt.value < now - staleAfter;
      assert hit == Affected(jobs, Update.RecoverStale(staleAfter), now);
      ForcedRequeueMeaning(jobs, Update.RecoverStale(staleAfter), now);
      count := Requeue(hit, "recovered stale running job", now);
    }

    /** Removes registrations without a recent heartbeat and requeues the jobs those workers had locked. */
    method RecoverDeadWorkers(staleAfter: Time, now: Time) returns (count: nat)
      requires Valid()
      modifies this`jobs, this`notifications, this`workers
      ensures Valid()
      ensures var dead := Dead(old(workers), staleAfter, now); var u := Update.RecoverDead(dead);
              && Performed(old(jobs), u, now, jobs, old(notifications), notifications)
              && count == |Affected(old(jobs), u, now)|
              && workers == old(workers) - dead
      ensures forall w :: w in workers <==> w in old(workers) && now - staleAfter <= old(workers)[w]
      ensures forall w, id ::
                && w in old(workers) && w !in workers && id in old(jobs) && old(jobs)[id].status == Running
                && old(jobs)[id].lockedBy.Some? && OwnedBy(w, old(jobs)[id].lockedBy.value) ==>
                  id in jobs && Claimable(jobs, id, {jobs[id].name}, now)
    {
      hide TableOk;
      var dead := set w | w in workers && workers[w] < now - staleAfter;
      var hit := set id | id in jobs && jobs[id].status == Running && jobs[id].lockedBy.Some?
                          && exists w :: w in dead && w + ":" <= jobs[id].lockedBy.value;
      assert hit == Affected(jobs, Update.RecoverDead(dead), now);
      ForcedRequeueMeaning(jobs, Update.RecoverDead(dead), now);
      forall w, id | w in dead && id in jobs && jobs[id].status == Running && jobs[id].lockedBy.Some?
                     && OwnedBy(w, jobs[id].lockedBy.value)
        ensures var after := Apply(jobs, Update.RecoverDead(dead), now);
                after[id].name == jobs[id].name && Claimable(after, id, {jobs[id].name}, now)
      {
        DeadWorkersJobsAreClaimable(jobs, workers, staleAfter, now, id, w);
      }
      hide Claimable, TableLeft, Apply, Notifies, OwnedBy;
      count := Requeue(hit, "recovered dead worker job", now);
      workers := workers - dead;
    }

    // -------------------------------------------------------------- claim and deadline

    /** Takes the first candidate, if there is one, and counts the attempt. */
    method ClaimNext(owner: string, names: set<string>, now: Time) returns (claimed: Option<Id>)
      requires Valid()
      modifies this`jobs
      ensures Valid()
      ensures claimed.None? <==> Candidates(old(jobs), names, now) == {}
      ensures claimed.None? ==> jobs == old(jobs)
      ensures claimed.Some? ==>
                && IsFirst(old(jobs), claimed.value, names, now)
                && jobs == Claimed(old(jobs), claimed.value, owner, now)
                && ClaimedFrom(jobs[claimed.value], old(jobs)[claimed.value], owner, now)
                && (forall id :: id in old(jobs) && id != claimed.value ==> id in jobs && jobs[id] == old(jobs)[id])
    {
      hide TableOk;
      if !exists id :: id in jobs && Claimable(jobs, id, names, now) {
        assert forall id :: id !in Candidates(jobs, names, now);
        return None;
      }
      assert Candidates(jobs, names, now) != {} by {
        var id :| id in jobs && Claimable(jobs, id, names, now);
        assert id in Candidates(jobs, names, now);
      }
      FirstExists(jobs, names, now);
      var id :| id in jobs && IsFirst(jobs, id, names, now);
      AtomicClaimCommits(jobs, id, owner, names, now);
      var row := jobs[id];
      jobs := jobs[id := row.(status := Running, attempt := row.attempt + 1, lockedBy := Some(owner),
                              lockedAt := Some(now), startedAt := Some(now), finishedAt := None, error := None)];
      return Some(id);
    }

    /** Milliseconds until the earliest waiting job is due; nothing when no job waits. */
    method NextRunnableIn(names: set<string>, now: Time) returns (ms: Option<nat>)
      requires Valid()
      ensures IsDeadline(jobs, names, now, ms)
    {
      var waiting := set id | id in jobs && Waiting(jobs, id, names);
      ms := None;
      assert forall id :: Waiting(jobs, id, names) ==> id in waiting;
      if waiting != {} {
        EarliestExists(jobs, waiting);
        var id :| id in waiting && forall other :: other in waiting ==> jobs[id].runAt <= jobs[other].runAt;
        var wait := CeilDiv(jobs[id].runAt - now, MILLISECOND);
        ms := Some(if wait < 0 then 0 else wait);
      }
    }

    // -------------------------------------------------------------- retention and registrations

    /** Deletes jobs that finished more than `retainFor` ago. */
    method PruneFinished(retainFor: Time, now: Time) returns (count: nat)
      requires Valid()
      modifies this`jobs
      ensures Valid() && jobs == Prune(old(jobs), retainFor, now)
      ensures count == |old(jobs).Keys - jobs.Keys|
      ensures forall id :: id in old(jobs) && !old(jobs)[id].status.IsTerminal() ==> id in jobs
    {
      var hit := set id | id in jobs && jobs[id].status.IsTerminal() && jobs[id].finishedAt.Some?
                          && jobs[id].finishedAt.value < now - retainFor;
      PruneKeepsTableOk(jobs, retainFor, now);
      hide TableOk;
      assert jobs - hit == Prune(jobs, retainFor, now);
      assert hit == jobs.Keys - (jobs - hit).Keys;
      jobs := jobs - hit;
      count := |hit|;
    }

    /** Registers a worker or refreshes its heartbeat. */
    method RegisterWorker(worker: string, now: Time)
      modifies this`workers
      ensures workers == old(workers)[worker := now]
    {
      workers := workers[worker := now];
    }

    method DeregisterWorker(worker: string)
      modifies this`workers
      ensures workers == old(workers) - {worker}
    {
      workers := workers - {worker};
    }

    /** The cleanup at the end of `run_until_shutdown`: both statements run, whatever else happened. */
    method Shutdown(worker: string, now: Time) returns (count: nat)
      requires Valid()
      modifies this`jobs, this`notifications, this`workers
      ensures Valid() && worker !in workers
      ensures jobs == Apply(old(jobs), Update.Release(worker), now)
      ensures forall id :: id in jobs && jobs[id].lockedBy.Some? ==> !OwnedBy(worker, jobs[id].lockedBy.value)
    {
      count := ReleaseWorkerJobs(worker, now);
      DeregisterWorker(worker);
    }

    // -------------------------------------------------------------- crons

    /**
    Claims an occurrence and enqueues it, in one statement. An occurrence that is already claimed changes nothing; a
    claimed one is skipped when the definition is new and does not catch up. A request the jobs table does not admit
    fails the statement, and the occurrence stays unclaimed.
    */
    method TryEnqueueCron(p: Cron.Poll, o: CronOptions, newId: Id)
      returns (result: Result<CronEnqueueResult, EnqueueError>)
      requires Valid() && newId !in jobs
      modifies this`crons, this`jobs, this`notifications
      ensures Valid()
      ensures result.Err? <==> Cron.Enqueues(old(crons), p) && o.maxAttempts <= 0
      ensures result.Err? ==> crons == old(crons)
      ensures result.Ok? ==> crons == Cron.AfterPoll(old(crons), p)
      ensures result.Err? || result.value == Skipped ==> jobs == old(jobs) && notifications == old(notifications)
      ensures result.Ok? ==> (result.value == Skipped <==> !Cron.Enqueues(old(crons), p))
      ensures result.Ok? && result.value != Skipped ==>
                && jobs == Upsert(old(jobs), newId, CronRequest(p, o), p.now)
                && notifications == old(notifications) + (if UpsertNotifies(old(jobs), CronRequest(p, o)) then 1 else 0)
                && result.value.id == EnqueuedId(old(jobs), newId, CronRequest(p, o))
                && (result.value.Enqueued? <==> result.value.id !in old(jobs))
      ensures result.Ok? && result.value.Enqueued? ==>
                && result.value.id in jobs
                && var r := jobs[result.value.id];
                   && r.status == Queued && r.runAt == p.due && r.name == p.name && r.payload == p.payload
                   && r.queueName == o.queueName && r.priority == o.priority && r.maxAttempts == o.maxAttempts
                   && r.jobKey == o.jobKey && r.attempt == 0 && Unlocked(r) && r.createdAt == p.now
      ensures result.Ok? && result.value.Enqueued? ==>
                forall names: set<string>, at: Time ::
                  Claimable(jobs, result.value.id, names, at) <==>
                  && p.name in names && p.due <= at
                  && (o.queueName.Some? ==>
                        forall other :: other in old(jobs) && old(jobs)[other].status == Running ==>
                          old(jobs)[other].queueName != o.queueName)
      ensures result.Ok? && Cron.Claims(old(crons), p) ==>
                && p.identifier in crons
                && var c := crons[p.identifier];
                   && c.name == p.name && c.payload == p.payload
                   && c.lastRunAt == Some(p.due) && c.nextRunAt == Some(p.next)
                   && c.createdAt == if p.identifier in old(crons) then old(crons)[p.identifier].createdAt else p.now
      ensures result.Ok? && !Cron.Claims(old(crons), p) ==> crons == old(crons)
    {
      hide Claimable, TableOk, KeyHolder, UpsertNotifies, Upsert, EnqueuedId;
      var existed := p.sees && p.identifier in crons && crons[p.identifier].createdAt < p.now;
      var claimed := true;
      if p.identifier in crons {
        var last := crons[p.identifier].lastRunAt;
        claimed := last == None || last.value < p.due;
      }
      if !claimed {
        return Ok(Skipped);
      }
      if (p.catchUp || existed) && o.maxAttempts <= 0 {
        return Err(CheckViolation);
      }
      var created := if p.identifier in crons then crons[p.identifier].createdAt else p.now;
      crons := crons[p.identifier := Cron.CronRow(p.name, p.payload, Some(p.due), Some(p.next), created)];
      if !(p.catchUp || existed) {
        return Ok(Skipped);
      }
      var after, id, notify := UpsertRow(jobs, newId, CronRequest(p, o), p.now);
      var inserted := id !in jobs;
      if inserted {
        CronJobIsDue(jobs, newId, p, o);
      }
      jobs := after;
      if notify {
        notifications := notifications + 1;
      }
      return Ok(if inserted then Enqueued(id) else AlreadyQueued(id));
    }
  }

  function RequeueAll(t: Table, hit: set<Id>, reason: string, now: Time): Table {
    map id | id in t :: if id in hit then Requeued(t[id], now, reason) else t[id]
  }

  /** A forced requeue commits, requeues what it selects and notifies when it selects anything. */
  lemma ForcedRequeueMeaning(t: Table, u: Update, now: Time)
    requires TableOk(t) && u.IsForced()
    ensures TableOk(Apply(t, u, now)) && TableLeft(t, u, now, Apply(t, u, now))
    ensures Apply(t, u, now) == RequeueAll(t, Affected(t, u, now), ForcedReason(u), now)
    ensures Notifies(t, u, now) <==> Affected(t, u, now) != {}
  {
    hide TableOk;
    ExecuteKeepsTableOkUnlessRejected(t, u, now);
    ForcedRowMeaning(t, u, now);
    NotifiesWhenSomeRowFires(t, u, now);
    hide SetRow, Selects, Requeued, Fires, Notifies;
  }

  /** When a statement fires a trigger for every row it selects, it notifies unless it selects none. */
  lemma NotifiesWhenSomeRowFires(t: Table, u: Update, now: Time)
    requires forall id :: id in t && Selects(u, id, t[id], now) ==> Fires(u, t[id], SetRow(u, t[id], now))
    ensures Notifies(t, u, now) <==> Affected(t, u, now) != {}
  {
    hide Selects, Fires, SetRow;
    if Notifies(t, u, now) {
      var id :| id in t && Selects(u, id, t[id], now) && Fires(u, t[id], SetRow(u, t[id], now));
      assert id in Affected(t, u, now);
    }
    if Affected(t, u, now) != {} {
      var id :| id in Affected(t, u, now);
      assert Fires(u, t[id], SetRow(u, t[id], now));
    }
  }

  lemma ForcedRowMeaning(t: Table, u: Update, now: Time)
    requires u.IsForced()
    ensures forall id :: id in t && Selects(u, id, t[id], now) ==>
              && SetRow(u, t[id], now) == Requeued(t[id], now, ForcedReason(u))
              && Fires(u, t[id], SetRow(u, t[id], now))
  {
  }

  /** The two branches of `fail_locked`, and that its owner only ever finds a running job. */
  lemma FailLockedMeaning(t: Table, u: Update, now: Time)
    requires TableOk(t) && u.FailLocked?
    ensures forall other :: other in t && Selects(u, other, t[other], now) ==> other == u.id
    ensures u.id in t ==>
              var r := t[u.id]; var after := SetRow(u, r, now);
              && (Selects(u, u.id, r, now) <==> r.lockedBy == Some(u.owner))
              && (u.attempt >= u.maxAttempts ==>
                    after == r.(status := Failed, lockedBy := None, lockedAt := None, finishedAt := Some(now),
                                error := Some(u.reason)))
              && (u.attempt < u.maxAttempts ==>
                    after == r.(status := Queued, lockedBy := None, lockedAt := None, runAt := now + u.backoff,
                                error := Some(u.reason)))
              && (Selects(u, u.id, r, now) ==>
                    (Fires(u, r, after) <==> r.queueName.Some? || u.attempt < u.maxAttempts))
  {
    hide QueuesSerial, KeysUnique;
    if u.id in t {
      assert RowOk(t[u.id]);
    }
  }

  /** The same as an update in place: the row written, when a notification goes out, and that the table stays sound. */
  lemma FailLockedInPlace(t: Table, u: Update, now: Time)
    requires TableOk(t) && u.FailLocked?
    ensures TableOk(Apply(t, u, now)) && TableLeft(t, u, now, Apply(t, u, now))
    ensures var hit := u.id in t && t[u.id].lockedBy == Some(u.owner);
            && Affected(t, u, now) == (if hit then {u.id} else {})
            && (Notifies(t, u, now) <==> hit && (t[u.id].queueName.Some? || u.attempt < u.maxAttempts))
            && Apply(t, u, now) == (if hit then t[u.id := SetRow(u, t[u.id], now)] else t)
            && (hit && u.attempt >= u.maxAttempts ==>
                  SetRow(u, t[u.id], now) ==
                  t[u.id].(status := Failed, lockedBy := None, lockedAt := None, finishedAt := Some(now),
                           error := Some(u.reason)))
            && (hit && u.attempt < u.maxAttempts ==>
                  SetRow(u, t[u.id], now) ==
                  t[u.id].(status := Queued, lockedBy := None, lockedAt := None, runAt := now + u.backoff,
                           error := Some(u.reason)))
  {
    hide TableOk, Apply, Affected, Notifies, SetRow, Fires, Selects, RowOk, TableLeft;
    FailLockedMeaning(t, u, now);
    SingleRow(t, u, now, u.id);
    ExecuteKeepsTableOkUnlessRejected(t, u, now);
  }

  /** A claim of a candidate always commits in one step. */
  lemma AtomicClaimCommits(t: Table, id: Id, owner: string, names: set<string>, now: Time)
    requires TableOk(t) && Claimable(t, id, names, now)
    ensures TableOk(Claimed(t, id, owner, now))
    ensures Claimed(t, id, owner, now) == t[id := SetRow(Update.Claim(id, owner), t[id], now)]
    ensures ClaimedFrom(Claimed(t, id, owner, now)[id], t[id], owner, now)
  {
    var u := Update.Claim(id, owner);
    SingleRow(t, u, now, id);
    assert !QueueBusy(t, id);
    RejectedExactlyWhen(t, u, now);
    ExecuteKeepsTableOk(t, u, now);
  }

  /** Statements other than a claim or a retry always commit and keep the invariant. */
  lemma ExecuteKeepsTableOkUnlessRejected(t: Table, u: Update, now: Time)
    requires TableOk(t) && !u.Claim? && !u.Retry?
    ensures TableOk(Apply(t, u, now)) && TableLeft(t, u, now, Apply(t, u, now))
  {
    ApplyLeaves(t, u, now);
    RejectedExactlyWhen(t, u, now);
    ExecuteKeepsTableOk(t, u, now);
  }

  lemma {:induction false} EarliestExists(t: Table, ids: set<Id>)
    requires ids != {} && forall id :: id in ids ==> id in t
    ensures exists id :: id in ids && forall other :: other in ids ==> t[id].runAt <= t[other].runAt
    decreases |ids|
  {
    var id :| id in ids;
    if ids == {id} {
      assert forall other :: other in ids ==> other == id;
    } else {
      EarliestExists(t, ids - {id});
      var rest :| rest in ids - {id} && forall other :: other in ids - {id} ==> t[rest].runAt <= t[other].runAt;
      var first := if t[id].runAt <= t[rest].runAt then id else rest;
      assert forall other :: other in ids ==> other == id || other in ids - {id};
      assert first in ids && forall other :: other in ids ==> t[first].runAt <= t[other].runAt;
    }
  }

  /** A job inserted by a cron poll can be claimed from the occurrence itself on, in a queue that runs nothing. */
  lemma CronJobIsDue(t: Table, newId: Id, p: Cron.Poll, o: CronOptions)
    requires newId !in t && EnqueuedId(t, newId, CronRequest(p, o)) !in t
    ensures forall names: set<string>, at: Time ::
              Claimable(Upsert(t, newId, CronRequest(p, o), p.now), newId, names, at) <==>
              && p.name in names && p.due <= at
              && (o.queueName.Some? ==>
                    forall id :: id in t && t[id].status == Running ==> t[id].queueName != o.queueName)
  {
    FreeKey(t, newId, CronRequest(p, o), p.now);
    forall names: set<string>, at: Time
      ensures Claimable(Upsert(t, newId, CronRequest(p, o), p.now), newId, names, at) <==>
              && p.name in names && p.due <= at
              && (o.queueName.Some? ==>
                    forall id :: id in t && t[id].status == Running ==> t[id].queueName != o.queueName)
    {
      InsertedIsClaimable(t, newId, CronRequest(p, o), p.now, names, at);
    }
    hide Claimable, Upsert, EnqueuedId;
  }

  /** An enqueue that returns an id not in the table found its key free. */
  lemma FreeKey(t: Table, newId: Id, q: Request, now: Time)
    requires EnqueuedId(t, newId, q) !in t
    ensures KeyHolder(t, q.jobKey) == None && newId !in t
  {
  }

  lemma EnqueuedRowsCarry(t: Table, items: seq<Item>, now: Time)
    requires Ready(t, items)
    ensures var after, ids := EnqueueAll(t, items, now), EnqueueAllIds(t, items, now);
            RowsCarry(t, items, now, after, ids)
  {
    EnqueueAllSettles(t, items, now);
    EnqueueAllIdsAre(t, items, now);
    hide TableOk, Separate, Usable, EnqueueAll, EnqueueAllIds, InsertedFor, TargetOf, RowFor;
    forall i | 0 <= i < |items|
      ensures var it := items[i];
              && RowFor(t, it, now).jobKey == it.q.jobKey
              && (TargetOf(t, it) !in t ==> InsertedFor(RowFor(t, it, now), it.q, now))
    {
      assert items[i] in items;
      OwnRowCarries(t, items[i], now);
    }
  }

  lemma OwnRowCarries(t: Table, it: Item, now: Time)
    requires Usable(t, it)
    ensures RowFor(t, it, now).jobKey == it.q.jobKey
    ensures TargetOf(t, it) !in t ==> InsertedFor(RowFor(t, it, now), it.q, now)
  {
    NewRowIsInserted(it.q, now);
  }
}
