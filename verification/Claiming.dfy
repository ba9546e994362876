/**
Which job a claim takes: the candidate subquery of `claim_next`, its order, and runs of repeated claims at a fixed time.
*/
module Claiming {
  import opened Prelude
  import opened Jobs
  import opened TableInvariant
  import opened Columns

  /** The job's named queue, if it has one, runs nothing. */
  predicate Unblocked(t: Table, id: Id)
    requires id in t
  {
    t[id].queueName == None
    || forall other :: other in t && t[other].status == Running ==> t[other].queueName != t[id].queueName
  }

  /** Queued under a requested name in a free queue, due or not: the rows `next_runnable_in` looks at. */
  predicate Waiting(t: Table, id: Id, names: set<string>) {
    id in t && t[id].status == Queued && t[id].name in names && Unblocked(t, id)
  }

  /** A row the candidate subquery of `claim_next` returns at `now`. */
  predicate Claimable(t: Table, id: Id, names: set<string>, now: Time) {
    Waiting(t, id, names) && t[id].runAt <= now
  }

  function Candidates(t: Table, names: set<string>, now: Time): set<Id> {
    set id | id in t && Claimable(t, id, names, now)
  }

  /** ORDER BY priority, run_at, created_at. Rows equal in all three may come in either order. */
  predicate NotAfter(a: Row, b: Row) {
    a.priority < b.priority
    || (a.priority == b.priority
        && (a.runAt < b.runAt || (a.runAt == b.runAt && a.createdAt <= b.createdAt)))
  }

  /** `id` can come first in the ordered candidate list. */
  predicate IsFirst(t: Table, id: Id, names: set<string>, now: Time) {
    && Claimable(t, id, names, now)
    && forall other :: other in t && Claimable(t, other, names, now) ==> NotAfter(t[id], t[other])
  }

  /** Every non-empty set of rows has one that the order may put first. */
  lemma {:induction false} LeastExists(t: Table, ids: set<Id>) returns (least: Id)
    requires ids != {} && forall id :: id in ids ==> id in t
    ensures least in ids && forall id :: id in ids ==> NotAfter(t[least], t[id])
    decreases |ids|
  {
    least :| least in ids;
    if ids != {least} {
      var rest := LeastExists(t, ids - {least});
      if !NotAfter(t[least], t[rest]) {
        least := rest;
      }
    }
  }

  lemma FirstExists(t: Table, names: set<string>, now: Time)
    requires Candidates(t, names, now) != {}
    ensures exists id :: id in t && IsFirst(t, id, names, now)
  {
    var least := LeastExists(t, Candidates(t, names, now));
    assert IsFirst(t, least, names, now);
  }

  // ---------------------------------------------------------------- when a job becomes claimable again

  /** A running job that leaves its named queue leaves the queue empty. */
  lemma LeavingFreesTheQueue(t: Table, u: Update, now: Time, id: Id)
    requires TableOk(t) && !u.Claim? && id in Affected(t, u, now) && t[id].status == Running
    requires Apply(t, u, now)[id].status != Running
    ensures Unblocked(Apply(t, u, now), id)
  {
    var after := Apply(t, u, now);
    SlotAfter(t, u, now, id);
    forall other | other in after && after[other].status == Running
      ensures after[id].queueName == None || after[other].queueName != after[id].queueName
    {
      SlotAfter(t, u, now, other);
      assert SharesSlot(t[id], t[other]) ==> id == other;
    }
  }

  /** A job that a forced requeue releases is claimable at once, even from a named queue. */
  lemma ForcedRequeueIsClaimable(t: Table, u: Update, now: Time, id: Id)
    requires TableOk(t) && u.IsForced() && id in Affected(t, u, now)
    ensures Claimable(Apply(t, u, now), id, {t[id].name}, now)
  {
    LeavingFreesTheQueue(t, u, now, id);
  }

  /**
  Every running job whose owner string starts with a registration older than `staleAfter` is claimable right after
  dead-worker recovery.
  */
  lemma DeadWorkersJobsAreClaimable(
      t: Table, workers: map<string, Time>, staleAfter: Time, now: Time, id: Id, w: string)
    requires TableOk(t) && w in workers && workers[w] < now - staleAfter
    requires id in t && t[id].status == Running && t[id].lockedBy.Some? && OwnedBy(w, t[id].lockedBy.value)
    ensures var after := Apply(t, RecoverDead(Dead(workers, staleAfter, now)), now);
            after[id].name == t[id].name && Claimable(after, id, {t[id].name}, now)
  {
    var u := RecoverDead(Dead(workers, staleAfter, now));
    assert w in Dead(workers, staleAfter, now);
    assert id in Affected(t, u, now);
    ForcedRequeueIsClaimable(t, u, now, id);
  }

  /** A job that failed and is retried waits out its backoff, and is claimable right after it on an unchanged table. */
  lemma BackoffIsWaitedOut(t: Table, u: Update, now: Time, id: Id, at: Time)
    requires TableOk(t) && u.FailLocked? && u.attempt < u.maxAttempts && id in Affected(t, u, now)
    ensures Claimable(Apply(t, u, now), id, {t[id].name}, at) <==> now + u.backoff <= at
  {
    assert RowOk(t[id]);
    LeavingFreesTheQueue(t, u, now, id);
  }

  /** A retried job is claimable at once unless its named queue is busy. */
  lemma RetriedIsClaimable(t: Table, now: Time, id: Id)
    requires TableOk(t) && id in Affected(t, Retry(id), now)
    ensures Claimable(Apply(t, Retry(id), now), id, {t[id].name}, now) <==> !QueueBusy(t, id)
  {
    var after := Apply(t, Retry(id), now);
    assert forall other :: other in t && other != id ==> after[other] == t[other];
    assert after[id].status == Queued && after[id].queueName == t[id].queueName;
  }

  /** A rescheduled job is claimable from its new time on, unless its named queue is busy. */
  lemma RescheduledIsClaimable(t: Table, id: Id, runAt: Time, now: Time, at: Time)
    requires TableOk(t) && id in Affected(t, Reschedule(id, runAt), now)
    ensures Claimable(Apply(t, Reschedule(id, runAt), now), id, {t[id].name}, at) <==> runAt <= at && !QueueBusy(t, id)
  {
    var after := Apply(t, Reschedule(id, runAt), now);
    assert forall other :: other in t && other != id ==> after[other] == t[other];
    assert after[id].status == Queued && after[id].queueName == t[id].queueName;
  }

  /** A newly inserted job is claimable under its name from its time on, unless its named queue is busy. */
  lemma InsertedIsClaimable(t: Table, newId: Id, q: Request, now: Time, names: set<string>, at: Time)
    requires newId !in t && KeyHolder(t, q.jobKey) == None
    ensures Claimable(Upsert(t, newId, q, now), newId, names, at) <==>
            && q.name in names && q.runAt <= at
            && (q.queueName.Some? ==>
                  forall id :: id in t && t[id].status == Running ==> t[id].queueName != q.queueName)
  {
    var after := Upsert(t, newId, q, now);
    assert after == t[newId := NewRow(q, now)];
    forall id | id in t && t[id].status == Running ensures id in after && after[id] == t[id] {
    }
  }

  // ---------------------------------------------------------------- repeated claims

  function Claimed(t: Table, id: Id, owner: string, now: Time): Table {
    Apply(t, Claim(id, owner), now)
  }

  predicate SameQueue(t: Table, a: Id, b: Id)
    requires a in t && b in t
  {
    t[a].queueName.Some? && t[a].queueName == t[b].queueName
  }

  /** A claim removes its job and every other job of the same named queue from the candidates, and nothing else. */
  lemma CandidatesAfterClaim(t: Table, id: Id, owner: string, names: set<string>, now: Time)
    requires Claimable(t, id, names, now)
    ensures var after := Claimed(t, id, owner, now);
            && (forall other :: other in t ==>
                  (Claimable(after, other, names, now) <==>
                   Claimable(t, other, names, now) && other != id && !SameQueue(t, id, other)))
            && (forall other :: other in t && other != id ==> after[other] == t[other])
            && after.Keys == t.Keys
  {
    var after := Claimed(t, id, owner, now);
    forall other | other in t
      ensures Claimable(after, other, names, now) <==>
              Claimable(t, other, names, now) && other != id && !SameQueue(t, id, other)
    {
      if other != id && Claimable(t, other, names, now) {
        assert after[id].status == Running;
        assert !SameQueue(t, id, other) ==> Unblocked(after, other);
      }
      if other != id && Claimable(after, other, names, now) && t[other].queueName.Some? {
        forall x | x in t && t[x].status == Running ensures t[x].queueName != t[other].queueName {
          assert after[x].status == Running;
        }
      }
    }
  }

  /**
  Claims, one after another at time `now`, take exactly `picks`. A loop that has claimed a job is busy with it, so each
  claim has its own owner.
  */
  ghost predicate ClaimRun(t: Table, picks: seq<Id>, owners: seq<string>, names: set<string>, now: Time)
    decreases |picks|
  {
    && |owners| == |picks|
    && (picks == []
        || (&& IsFirst(t, picks[0], names, now)
            && ClaimRun(Claimed(t, picks[0], owners[0], now), picks[1..], owners[1..], names, now)))
  }

  function AfterClaims(t: Table, picks: seq<Id>, owners: seq<string>, now: Time): Table
    requires |owners| == |picks|
    decreases |picks|
  {
    if picks == [] then t else AfterClaims(Claimed(t, picks[0], owners[0], now), picks[1..], owners[1..], now)
  }

  /** Two different jobs, the first of which the order may put before the second. */
  predicate Precedes(t: Table, a: Id, b: Id) {
    a in t && b in t && a != b && NotAfter(t[a], t[b])
  }

  ghost predicate InOrder(t: Table, picks: seq<Id>) {
    forall i, j :: 0 <= i < j < |picks| ==> Precedes(t, picks[i], picks[j])
  }

  /** No two picks share a named queue. */
  ghost predicate OnePerQueue(t: Table, picks: seq<Id>) {
    && (forall id :: id in picks ==> id in t)
    && (forall i, j :: 0 <= i < j < |picks| ==> !SameQueue(t, picks[i], picks[j]))
  }

  /** Putting a job in front that precedes every pick keeps the order. */
  lemma InOrderCons(t: Table, next: Table, first: Id, rest: seq<Id>)
    requires InOrder(next, rest)
    requires forall id :: id in rest ==> Precedes(t, first, id) && id in next && next[id] == t[id]
    ensures InOrder(t, [first] + rest)
  {
    var picks := [first] + rest;
    forall i, j | 0 <= i < j < |picks| ensures Precedes(t, picks[i], picks[j]) {
      assert picks[j] == rest[j - 1] && picks[j] in rest;
      if i > 0 {
        assert Precedes(next, rest[i - 1], rest[j - 1]);
      }
    }
  }

  /** The jobs are picked in (priority, run_at, created_at) order, each a distinct candidate of the initial table. */
  lemma {:induction false} ClaimsAreOrdered(
      t: Table, picks: seq<Id>, owners: seq<string>, names: set<string>, now: Time)
    requires ClaimRun(t, picks, owners, names, now)
    ensures forall id :: id in picks ==> Claimable(t, id, names, now)
    ensures InOrder(t, picks) && OnePerQueue(t, picks)
    decreases |picks|
  {
    if picks != [] {
      hide Claimable, Claimed, NotAfter;
      var next, rest := Claimed(t, picks[0], owners[0], now), picks[1..];
      FirstPrecedesRest(t, picks[0], owners[0], names, now);
      ClaimsAreOrdered(next, rest, owners[1..], names, now);
      assert picks == [picks[0]] + rest;
      InOrderCons(t, next, picks[0], rest);
      OnePerQueueCons(t, next, picks[0], rest);
    }
  }

  /** So lower priority values run first, among equal ones the job due earlier, and then the one created earlier. */
  lemma UrgentJobsFirst(t: Table, picks: seq<Id>, owners: seq<string>, names: set<string>, now: Time, i: nat, j: nat)
    requires ClaimRun(t, picks, owners, names, now) && i < j < |picks|
    ensures picks[i] in t && picks[j] in t && picks[i] != picks[j]
    ensures var a, b := t[picks[i]], t[picks[j]];
            && a.priority <= b.priority
            && (a.priority == b.priority ==> a.runAt <= b.runAt)
            && (a.priority == b.priority && a.runAt == b.runAt ==> a.createdAt <= b.createdAt)
  {
    ClaimsAreOrdered(t, picks, owners, names, now);
    assert Precedes(t, picks[i], picks[j]);
  }

  /** What stays claimable after a claim comes from another queue and does not precede the claimed job. */
  lemma FirstPrecedesRest(t: Table, first: Id, owner: string, names: set<string>, now: Time)
    requires IsFirst(t, first, names, now)
    ensures var next := Claimed(t, first, owner, now);
            forall id :: Claimable(next, id, names, now) ==>
              Claimable(t, id, names, now) && Precedes(t, first, id) && next[id] == t[id] && !SameQueue(t, first, id)
  {
    CandidatesAfterClaim(t, first, owner, names, now);
    hide Claimed, NotAfter;
  }

  lemma OnePerQueueCons(t: Table, next: Table, first: Id, rest: seq<Id>)
    requires OnePerQueue(next, rest) && first in t
    requires forall id :: id in rest ==> id in t && next[id] == t[id] && !SameQueue(t, first, id)
    ensures OnePerQueue(t, [first] + rest)
  {
    var picks := [first] + rest;
    forall i, j | 0 <= i < j < |picks| ensures !SameQueue(t, picks[i], picks[j]) {
      assert picks[j] == rest[j - 1] && picks[j] in rest;
      if i > 0 {
        assert picks[i] == rest[i - 1] && picks[i] in rest;
        assert !SameQueue(next, rest[i - 1], rest[j - 1]);
      }
    }
  }

  /**
  Every job that was a candidate is picked, blocked by an earlier-or-equal pick of its queue, or still a candidate.
  */
  lemma {:induction false} NothingSkipped(
      t: Table, picks: seq<Id>, owners: seq<string>, names: set<string>, now: Time, id: Id)
    requires ClaimRun(t, picks, owners, names, now) && Claimable(t, id, names, now)
    ensures || id in picks
            || (exists p :: p in picks && p in t && SameQueue(t, p, id) && NotAfter(t[p], t[id]))
            || Claimable(AfterClaims(t, picks, owners, now), id, names, now)
    decreases |picks|
  {
    if picks != [] && id != picks[0] {
      var next := Claimed(t, picks[0], owners[0], now);
      CandidatesAfterClaim(t, picks[0], owners[0], names, now);
      if SameQueue(t, picks[0], id) {
        assert picks[0] in picks;
      } else {
        NothingSkipped(next, picks[1..], owners[1..], names, now, id);
        if p :| p in picks[1..] && p in next && SameQueue(next, p, id) && NotAfter(next[p], next[id]) {
          ClaimsAreOrdered(next, picks[1..], owners[1..], names, now);
          assert p != picks[0];
          assert p in picks;
        }
      }
    }
  }

  /**
  Claiming until nothing is left, without completing anything, takes every due job of the requested names outside named
  queues, and from each free named queue exactly one job: one that no due job of that queue precedes.
  */
  lemma GreedyClaiming(t: Table, picks: seq<Id>, owners: seq<string>, names: set<string>, now: Time)
    requires ClaimRun(t, picks, owners, names, now)
    requires Candidates(AfterClaims(t, picks, owners, now), names, now) == {}
    ensures InOrder(t, picks) && forall id :: id in picks ==> Claimable(t, id, names, now)
    ensures forall id :: Claimable(t, id, names, now) && t[id].queueName == None ==> id in picks
    ensures forall id :: Claimable(t, id, names, now) && t[id].queueName.Some? ==>
              exists p :: p in picks && p in t && SameQueue(t, p, id) && NotAfter(t[p], t[id])
                          && forall other :: other in picks && other in t && SameQueue(t, other, id) ==> other == p
  {
    ClaimsAreOrdered(t, picks, owners, names, now);
    forall id | Claimable(t, id, names, now)
      ensures t[id].queueName == None ==> id in picks
      ensures t[id].queueName.Some? ==>
                exists p :: p in picks && p in t && SameQueue(t, p, id) && NotAfter(t[p], t[id])
                            && forall other :: other in picks && other in t && SameQueue(t, other, id) ==> other == p
    {
      NothingSkipped(t, picks, owners, names, now, id);
      NoneLeft(AfterClaims(t, picks, owners, now), names, now, id);
      hide ClaimRun, Claimable, AfterClaims, NotAfter;
      if t[id].queueName.Some? {
        if id in picks {
          OnlyPickOfQueue(t, picks, id, id);
        } else {
          var p :| p in picks && p in t && SameQueue(t, p, id) && NotAfter(t[p], t[id]);
          OnlyPickOfQueue(t, picks, p, id);
        }
      }
    }
  }

  lemma NoneLeft(t: Table, names: set<string>, now: Time, id: Id)
    requires Candidates(t, names, now) == {}
    ensures !Claimable(t, id, names, now)
  {
    assert id !in Candidates(t, names, now);
  }

  lemma OnlyPickOfQueue(t: Table, picks: seq<Id>, p: Id, id: Id)
    requires OnePerQueue(t, picks) && p in picks && id in t && SameQueue(t, p, id)
    ensures forall other :: other in picks && SameQueue(t, other, id) ==> other == p
  {
    forall other | other in picks && SameQueue(t, other, id) ensures other == p {
      var i :| 0 <= i < |picks| && picks[i] == p;
      var j :| 0 <= j < |picks| && picks[j] == other;
      assert SameQueue(t, p, other) && SameQueue(t, other, p);
      assert !(i < j) && !(j < i);
    }
  }

  /** Distinct members of a finite set are no more than it has. */
  lemma {:induction false} DistinctBound(picks: seq<Id>, ids: set<Id>)
    requires forall i :: 0 <= i < |picks| ==> picks[i] in ids
    requires forall i, j :: 0 <= i < j < |picks| ==> picks[i] != picks[j]
    ensures |picks| <= |ids|
    decreases |picks|
  {
    if picks != [] {
      DistinctBound(picks[1..], ids - {picks[0]});
    }
  }

  /** Repeated claiming ends: no run is longer than the initial candidate list. */
  lemma ClaimingTerminates(t: Table, picks: seq<Id>, owners: seq<string>, names: set<string>, now: Time)
    requires ClaimRun(t, picks, owners, names, now)
    ensures |picks| <= |Candidates(t, names, now)|
  {
    ClaimsAreOrdered(t, picks, owners, names, now);
    assert forall i, j :: 0 <= i < j < |picks| ==> Precedes(t, picks[i], picks[j]);
    DistinctBound(picks, Candidates(t, names, now));
  }

  // ---------------------------------------------------------------- from requests to claims

  /** Enqueued at `aAt` and `bAt`, the first of these requests goes first: by priority, then time, then insertion. */
  predicate GoesFirst(a: Request, aAt: Time, b: Request, bAt: Time) {
    || a.priority < b.priority
    || (a.priority == b.priority && a.runAt < b.runAt)
    || (a.priority == b.priority && a.runAt == b.runAt && aAt < bAt)
  }

  /** The job inserted for a request can be claimed now under its name, in a queue that runs nothing. */
  predicate DueInFreeQueue(t: Table, q: Request, names: set<string>, now: Time) {
    && q.name in names && q.runAt <= now
    && (q.queueName.Some? ==> forall id :: id in t && t[id].status == Running ==> t[id].queueName != q.queueName)
  }

  lemma InsertedJobsAreClaimable(
      t: Table, a: Id, p: Request, aAt: Time, b: Id, q: Request, bAt: Time, names: set<string>, now: Time)
    requires a !in t && b !in t && a != b
    requires (forall id :: id in t ==> !HoldsKey(t[id], p.jobKey) && !HoldsKey(t[id], q.jobKey))
             && (p.jobKey.None? || p.jobKey != q.jobKey)
    requires DueInFreeQueue(t, p, names, now) && DueInFreeQueue(t, q, names, now)
    ensures var after := Upsert(Upsert(t, a, p, aAt), b, q, bAt);
            && Claimable(after, a, names, now) && Claimable(after, b, names, now)
            && InsertedFor(after[a], p, aAt) && InsertedFor(after[b], q, bAt)
  {
    InsertLeaves(t, a, p, aAt);
    var mid := Upsert(t, a, p, aAt);
    assert forall id :: id in mid ==> !HoldsKey(mid[id], q.jobKey);
    InsertLeaves(mid, b, q, bAt);
    hide Upsert, HoldsKey;
  }

  /**
  From the request to the claim: of two requests inserted into queues that run nothing and both due, the one with the
  lower priority value is claimed first; on equal priority the one due earlier, and then the one inserted earlier. No
  claim takes the other while it is claimable, and a run of claims takes the other only after it or after another job of
  its queue.
  */
  lemma UrgentRequestFirst(
      t: Table, a: Id, p: Request, aAt: Time, b: Id, q: Request, bAt: Time, names: set<string>, now: Time,
      picks: seq<Id>, owners: seq<string>, j: nat)
    requires a !in t && b !in t && a != b
    requires (forall id :: id in t ==> !HoldsKey(t[id], p.jobKey) && !HoldsKey(t[id], q.jobKey))
             && (p.jobKey.None? || p.jobKey != q.jobKey)
    requires DueInFreeQueue(t, p, names, now) && DueInFreeQueue(t, q, names, now)
    requires var after := Upsert(Upsert(t, a, p, aAt), b, q, bAt); ClaimRun(after, picks, owners, names, now)
    requires j < |picks|
    ensures var after := Upsert(Upsert(t, a, p, aAt), b, q, bAt);
            && (GoesFirst(p, aAt, q, bAt) && picks[j] == b ==>
                  exists i :: 0 <= i < j && picks[i] in after && (picks[i] == a || SameQueue(after, picks[i], a)))
            && (GoesFirst(q, bAt, p, aAt) && picks[j] == a ==>
                  exists i :: 0 <= i < j && picks[i] in after && (picks[i] == b || SameQueue(after, picks[i], b)))
  {
    var after := Upsert(Upsert(t, a, p, aAt), b, q, bAt);
    InsertedJobsAreClaimable(t, a, p, aAt, b, q, bAt, names, now);
    hide Upsert, HoldsKey, Claimable, ClaimRun;
    if GoesFirst(p, aAt, q, bAt) && picks[j] == b {
      MoreUrgentIsTaken(after, picks, owners, names, now, j, a);
    }
    if GoesFirst(q, bAt, p, aAt) && picks[j] == a {
      MoreUrgentIsTaken(after, picks, owners, names, now, j, b);
    }
  }

  /** A job that precedes a pick strictly was taken before it, or another of its queue was. */
  lemma {:induction false} MoreUrgentIsTaken(
      t: Table, picks: seq<Id>, owners: seq<string>, names: set<string>, now: Time, j: nat, id: Id)
    requires ClaimRun(t, picks, owners, names, now) && j < |picks|
    requires Claimable(t, id, names, now) && picks[j] in t && !NotAfter(t[picks[j]], t[id])
    ensures exists i :: 0 <= i < j && picks[i] in t && (picks[i] == id || SameQueue(t, picks[i], id))
    decreases j
  {
    CandidatesAfterClaim(t, picks[0], owners[0], names, now);
    if j == 0 {
    } else if picks[0] == id || SameQueue(t, picks[0], id) {
      assert picks[0] in t;
    } else {
      var next := Claimed(t, picks[0], owners[0], now);
      ClaimsAreOrdered(t, picks, owners, names, now);
      assert Precedes(t, picks[0], picks[j]);
      hide ClaimRun, Claimable, NotAfter, Claimed;
      MoreUrgentIsTaken(next, picks[1..], owners[1..], names, now, j - 1, id);
      var i :| 0 <= i < j - 1 && picks[1..][i] in next && (picks[1..][i] == id || SameQueue(next, picks[1..][i], id));
      assert picks[i + 1] == picks[1..][i];
      assert Precedes(t, picks[0], picks[i + 1]);
    }
  }

  // ---------------------------------------------------------------- claims with a completion after each

  function ClaimedAndCompleted(t: Table, id: Id, owner: string, now: Time): Table {
    Apply(Claimed(t, id, owner, now), CompleteLocked(id, owner), now)
  }

  /** Completing gives the queue back: only the finished job leaves the candidates. */
  lemma CandidatesAfterCompletion(t: Table, id: Id, owner: string, names: set<string>, now: Time)
    requires Claimable(t, id, names, now)
    ensures var after := ClaimedAndCompleted(t, id, owner, now);
            && (forall other :: other in t ==>
                  (Claimable(after, other, names, now) <==> Claimable(t, other, names, now) && other != id))
            && (forall other :: other in t && other != id ==> after[other] == t[other])
            && after.Keys == t.Keys
  {
    var after := ClaimedAndCompleted(t, id, owner, now);
    assert after[id].status == Succeeded;
    forall other | other in t
      ensures Claimable(after, other, names, now) <==> Claimable(t, other, names, now) && other != id
    {
      if other != id && Claimable(after, other, names, now) && t[other].queueName.Some? {
        forall x | x in t && t[x].status == Running ensures t[x].queueName != t[other].queueName {
          assert x != id;
          assert after[x].status == Running;
        }
      }
    }
  }

  /** Claim, run and complete, over and over at time `now`, processes exactly `picks`. */
  ghost predicate DrainRun(t: Table, picks: seq<Id>, owner: string, names: set<string>, now: Time)
    decreases |picks|
  {
    if picks == [] then Candidates(t, names, now) == {}
    else
      && IsFirst(t, picks[0], names, now)
      && DrainRun(ClaimedAndCompleted(t, picks[0], owner, now), picks[1..], owner, names, now)
  }

  /** A draining loop processes every due job whose queue was free at the start, each once, in order. */
  lemma {:induction false} DrainsEverything(t: Table, picks: seq<Id>, owner: string, names: set<string>, now: Time)
    requires DrainRun(t, picks, owner, names, now)
    ensures forall id :: id in picks <==> Claimable(t, id, names, now)
    ensures InOrder(t, picks)
    decreases |picks|
  {
    if picks == [] {
      forall id | id in t ensures !Claimable(t, id, names, now) {
        assert id !in Candidates(t, names, now);
      }
    } else {
      var next, rest := ClaimedAndCompleted(t, picks[0], owner, now), picks[1..];
      CandidatesAfterCompletion(t, picks[0], owner, names, now);
      DrainsEverything(next, rest, owner, names, now);
      assert picks == [picks[0]] + rest;
      assert forall id :: Claimable(t, id, names, now) ==> id in t;
      assert forall id :: Claimable(next, id, names, now) ==> id in next;
      hide Claimable, ClaimedAndCompleted;
      InOrderCons(t, next, picks[0], rest);
    }
  }

  // ---------------------------------------------------------------- the deadline query

  function CeilDiv(a: int, b: int): (c: int)
    requires b > 0
    ensures (c - 1) * b < a <= c * b
  {
    (a + b - 1) / b
  }

  /** `GREATEST(0, CEIL(...))` of the time to `runAt`, in milliseconds. */
  function MillisUntil(runAt: Time, now: Time): (ms: nat)
    ensures ms == 0 <==> runAt <= now
    ensures runAt > now ==> runAt <= now + ms * MILLISECOND < runAt + MILLISECOND
  {
    var ms := CeilDiv(runAt - now, MILLISECOND);
    if ms < 0 then 0 else ms
  }

  /** What `next_runnable_in` may return: nothing waits, or the time to the earliest waiting row. */
  ghost predicate IsDeadline(t: Table, names: set<string>, now: Time, ms: Option<nat>) {
    match ms
    case None => forall id :: !Waiting(t, id, names)
    case Some(m) =>
      exists id :: Waiting(t, id, names) && m == MillisUntil(t[id].runAt, now)
                   && forall other :: Waiting(t, other, names) ==> t[id].runAt <= t[other].runAt
  }

  /** The two queries agree: a claim at the same time would find a candidate exactly when the deadline is zero. */
  lemma DeadlineAgreesWithClaim(t: Table, names: set<string>, now: Time, ms: Option<nat>)
    requires IsDeadline(t, names, now, ms)
    ensures Candidates(t, names, now) != {} <==> ms == Some(0)
  {
    if ms.Some? {
      var id :| Waiting(t, id, names) && ms.value == MillisUntil(t[id].runAt, now)
                && forall other :: Waiting(t, other, names) ==> t[id].runAt <= t[other].runAt;
      if ms.value == 0 {
        assert id in Candidates(t, names, now);
      }
    }
  }

  /** On an unchanged table no claim succeeds before a positive deadline, and one does when the wait is over. */
  lemma WaitingForTheDeadline(t: Table, names: set<string>, now: Time, ms: Option<nat>, later: Time)
    requires IsDeadline(t, names, now, ms) && ms.Some? && ms.value > 0
    ensures later >= now + ms.value * MILLISECOND ==> Candidates(t, names, later) != {}
    ensures later <= now + (ms.value - 1) * MILLISECOND ==> Candidates(t, names, later) == {}
  {
    var id :| Waiting(t, id, names) && ms.value == MillisUntil(t[id].runAt, now)
              && forall other :: Waiting(t, other, names) ==> t[id].runAt <= t[other].runAt;
    if later >= now + ms.value * MILLISECOND {
      assert id in Candidates(t, names, later);
    }
  }

  /** `idle_wait_duration`, in milliseconds. A zero deadline stands for the full poll interval. */
  function IdleWait(nextRunIn: Option<nat>, pollInterval: nat): nat {
    if nextRunIn.Some? && nextRunIn.value != 0 then Min(nextRunIn.value, pollInterval) else pollInterval
  }

  /**
  An idle wait is positive, never longer than the safety poll, and ends by the deadline unless the job became due
  between the claim and the deadline query; then it is the full poll interval.
  */
  lemma IdleWaitIsSafe(t: Table, names: set<string>, now: Time, ms: Option<nat>, pollInterval: nat)
    requires IsDeadline(t, names, now, ms) && pollInterval > 0
    ensures 0 < IdleWait(ms, pollInterval) <= pollInterval
    ensures ms.Some? ==> (IdleWait(ms, pollInterval) <= ms.value <==> Candidates(t, names, now) == {})
  {
    DeadlineAgreesWithClaim(t, names, now, ms);
  }

  /**
  How long it is: the full poll interval when nothing waits or something is claimable by now; otherwise until the
  earliest waiting job is due, rounded up to a millisecond, or the poll interval, whichever is shorter.
  */
  lemma IdleWaitIs(t: Table, names: set<string>, now: Time, ms: Option<nat>, pollInterval: nat)
    requires IsDeadline(t, names, now, ms)
    ensures (forall id :: !Waiting(t, id, names)) || Candidates(t, names, now) != {} ==>
              IdleWait(ms, pollInterval) == pollInterval
    ensures forall id :: Waiting(t, id, names) && Candidates(t, names, now) == {}
                         && (forall other :: Waiting(t, other, names) ==> t[id].runAt <= t[other].runAt) ==>
              var until := t[id].runAt - now; var wait := IdleWait(ms, pollInterval);
              && wait <= pollInterval && wait * MILLISECOND < until + MILLISECOND
              && (wait == pollInterval || until <= wait * MILLISECOND)
  {
    DeadlineAgreesWithClaim(t, names, now, ms);
  }
}
