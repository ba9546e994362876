/**
The `pgspawn.crons` table: how polls by any number of workers coordinate one enqueue per occurrence.

A poll offers the latest due occurrence and its successor. The guarded upsert of `try_enqueue_cron` accepts it only when
it is later than the recorded one, so the database alone decides which poll claims an occurrence.
*/
module Cron {
  import opened Prelude
  import opened Jobs

  datatype CronRow = CronRow(
    name: string,
    payload: string,
    lastRunAt: Option<Time>,
    nextRunAt: Option<Time>,
    createdAt: Time
  )

  /**
  One `try_enqueue_cron` call. `due` and `next` come from the schedule, `now` is the statement's database time. `sees`
  says that the snapshot taken when the statement began holds a row of the identifier; the upsert acts on the current
  row, which an overlapping statement may have inserted since.
  */
  datatype Poll = Poll(
    identifier: string,
    name: string,
    payload: string,
    due: Time,
    next: Time,
    catchUp: bool,
    now: Time,
    sees: bool
  )

  type Crons = map<string, CronRow>

  /** The WHERE clause of the upsert; a new identifier inserts without it. */
  predicate Claims(crons: Crons, p: Poll) {
    p.identifier !in crons
    || crons[p.identifier].lastRunAt == None
    || crons[p.identifier].lastRunAt.value < p.due
  }

  /** A claimed occurrence is enqueued when the definition catches up or the snapshot shows it recorded before. */
  predicate Enqueues(crons: Crons, p: Poll) {
    Claims(crons, p) && (p.catchUp || (p.sees && p.identifier in crons && crons[p.identifier].createdAt < p.now))
  }

  function Recorded(crons: Crons, p: Poll): CronRow {
    var created := if p.identifier in crons then crons[p.identifier].createdAt else p.now;
    CronRow(p.name, p.payload, Some(p.due), Some(p.next), created)
  }

  function AfterPoll(crons: Crons, p: Poll): Crons {
    if Claims(crons, p) then crons[p.identifier := Recorded(crons, p)] else crons
  }

  // ---------------------------------------------------------------- histories

  /** The occurrences of `identifier` claimed by a run of polls, in the order the database accepted them. */
  function ClaimedDues(crons: Crons, polls: seq<Poll>, identifier: string): seq<Time>
    decreases |polls|
  {
    if polls == [] then []
    else
      (if polls[0].identifier == identifier && Claims(crons, polls[0]) then [polls[0].due] else [])
      + ClaimedDues(AfterPoll(crons, polls[0]), polls[1..], identifier)
  }

  /** The occurrences of `identifier` that a run of polls tries to enqueue. */
  function EnqueuedDues(crons: Crons, polls: seq<Poll>, identifier: string): seq<Time>
    decreases |polls|
  {
    if polls == [] then []
    else
      (if polls[0].identifier == identifier && Enqueues(crons, polls[0]) then [polls[0].due] else [])
      + EnqueuedDues(AfterPoll(crons, polls[0]), polls[1..], identifier)
  }

  ghost predicate StrictlyIncreasing(times: seq<Time>) {
    forall i, j :: 0 <= i < j < |times| ==> times[i] < times[j]
  }

  predicate LastBefore(crons: Crons, identifier: string, due: Time) {
    identifier in crons && crons[identifier].lastRunAt.Some? ==> crons[identifier].lastRunAt.value < due
  }

  /**
  Whatever the interleaving, the clocks and the schedules of the polling workers: the claimed occurrences of an
  identifier strictly increase and lie after the recorded one, so each occurrence is claimed at most once.
  */
  lemma {:induction false} ClaimsStrictlyIncrease(crons: Crons, polls: seq<Poll>, identifier: string)
    ensures StrictlyIncreasing(ClaimedDues(crons, polls, identifier))
    ensures forall due :: due in ClaimedDues(crons, polls, identifier) ==> LastBefore(crons, identifier, due)
    decreases |polls|
  {
    if polls != [] {
      var after := AfterPoll(crons, polls[0]);
      var rest := ClaimedDues(after, polls[1..], identifier);
      ClaimsStrictlyIncrease(after, polls[1..], identifier);
      if polls[0].identifier == identifier && Claims(crons, polls[0]) {
        forall k | 0 <= k < |rest| ensures polls[0].due < rest[k] {
          assert rest[k] in rest && LastBefore(after, identifier, rest[k]);
        }
      }
    }
  }

  /** Every row a poll writes has its next run after its last one, so this holds of all stored rows. */
  ghost predicate RowsAdvance(crons: Crons) {
    forall id :: id in crons ==>
      && crons[id].lastRunAt.Some? && crons[id].nextRunAt.Some?
      && crons[id].lastRunAt.value < crons[id].nextRunAt.value
  }

  function AfterPolls(crons: Crons, polls: seq<Poll>): Crons
    decreases |polls|
  {
    if polls == [] then crons else AfterPolls(AfterPoll(crons, polls[0]), polls[1..])
  }

  lemma {:induction false} StoredRowsAdvance(crons: Crons, polls: seq<Poll>)
    requires RowsAdvance(crons) && forall p :: p in polls ==> p.due < p.next
    ensures RowsAdvance(AfterPolls(crons, polls))
    ensures forall id :: id in AfterPolls(crons, polls) ==>
              id in crons || exists p :: p in polls && p.identifier == id
    decreases |polls|
  {
    if polls != [] {
      assert polls[0] in polls;
      StoredRowsAdvance(AfterPoll(crons, polls[0]), polls[1..]);
    }
  }

  /** With catch-up on, every claimed occurrence is enqueued. */
  lemma {:induction false} CatchUpEnqueuesAll(crons: Crons, polls: seq<Poll>, identifier: string)
    requires forall p :: p in polls && p.identifier == identifier ==> p.catchUp
    ensures EnqueuedDues(crons, polls, identifier) == ClaimedDues(crons, polls, identifier)
    decreases |polls|
  {
    if polls != [] {
      assert polls[0] in polls;
      CatchUpEnqueuesAll(AfterPoll(crons, polls[0]), polls[1..], identifier);
    }
  }

  // ---------------------------------------------------------------- overlapping statements

  /** The table after the first `i` statements of a run. */
  function Before(crons: Crons, polls: seq<Poll>, i: nat): Crons
    requires i <= |polls|
  {
    AfterPolls(crons, polls[..i])
  }

  /**
  Statements listed in the order in which the database lets them commit. Statement `i` began after the first `begun[i]`
  of them had committed, and its snapshot shows what those left.
  */
  ghost predicate Snapshots(crons: Crons, polls: seq<Poll>, begun: seq<nat>) {
    && |begun| == |polls|
    && forall i :: 0 <= i < |polls| ==>
         begun[i] <= i && (polls[i].sees <==> polls[i].identifier in Before(crons, polls, begun[i]))
  }

  lemma {:induction false} AfterPollsAppend(crons: Crons, a: seq<Poll>, b: seq<Poll>)
    ensures AfterPolls(crons, a + b) == AfterPolls(AfterPolls(crons, a), b)
    decreases |a|
  {
    if a == [] {
      assert a + b == b;
    } else {
      AfterPollsAppend(AfterPoll(crons, a[0]), a[1..], b);
      assert (a + b)[1..] == a[1..] + b;
    }
  }

  /** No poll removes a row or changes when it was created, and every polled identifier has one afterwards. */
  lemma {:induction false} RowsPersist(crons: Crons, polls: seq<Poll>, identifier: string)
    ensures var after := AfterPolls(crons, polls);
            && (identifier in after <==> identifier in crons || exists p :: p in polls && p.identifier == identifier)
            && (identifier in crons ==> after[identifier].createdAt == crons[identifier].createdAt)
    decreases |polls|
  {
    if polls != [] {
      RowsPersist(AfterPoll(crons, polls[0]), polls[1..], identifier);
      assert polls == [polls[0]] + polls[1..];
      assert polls[0] in polls;
    }
  }

  /** Statement `j` is the first of the run about the identifier. */
  ghost predicate IsFirstOf(polls: seq<Poll>, identifier: string, j: nat) {
    && j < |polls| && polls[j].identifier == identifier
    && forall i :: 0 <= i < j ==> polls[i].identifier != identifier
  }

  /** The first statement about a new identifier inserts its row, and the row keeps that statement's time. */
  lemma FirstStatementCreates(crons: Crons, polls: seq<Poll>, identifier: string, j: nat)
    requires identifier !in crons && IsFirstOf(polls, identifier, j)
    ensures var after := AfterPolls(crons, polls);
            identifier in after && after[identifier].createdAt == polls[j].now
  {
    var head, tail := polls[..j], polls[j + 1..];
    assert polls == head + ([polls[j]] + tail);
    AfterPollsAppend(crons, head, [polls[j]] + tail);
    RowsPersist(crons, head, identifier);
    var before := AfterPolls(crons, head);
    assert ([polls[j]] + tail)[1..] == tail;
    RowsPersist(AfterPoll(before, polls[j]), tail, identifier);
  }

  lemma {:induction false} FirstOfExists(polls: seq<Poll>, identifier: string) returns (j: nat)
    requires exists p :: p in polls && p.identifier == identifier
    ensures IsFirstOf(polls, identifier, j)
    decreases |polls|
  {
    if polls[0].identifier == identifier {
      j := 0;
    } else {
      j := FirstOfExists(polls[1..], identifier);
      assert forall i :: 0 < i < j + 1 ==> polls[i] == polls[1..][i - 1];
      j := j + 1;
    }
  }

  /** The snapshot shows a row created before this statement's time: `existing` in the source. */
  ghost predicate ShownEarlier(crons: Crons, polls: seq<Poll>, begun: nat, p: Poll) {
    if p.identifier in crons then crons[p.identifier].createdAt < p.now
    else exists j: nat :: IsFirstOf(polls, p.identifier, j) && j < begun && polls[j].now < p.now
  }

  /**
  Which claims are enqueued, for any overlap and any times of the polling statements: exactly those that catch up, or
  whose statement is later than the creation of a row that had been committed when it began. Whatever is claimed by a
  statement that began before the first commit is only recorded.
  */
  lemma EnqueuedExactlyWhen(crons: Crons, polls: seq<Poll>, begun: seq<nat>, i: nat)
    requires Snapshots(crons, polls, begun) && i < |polls|
    ensures var p := polls[i];
            Enqueues(Before(crons, polls, i), p) <==>
            Claims(Before(crons, polls, i), p) && (p.catchUp || ShownEarlier(crons, polls, begun[i], p))
  {
    var p, early := polls[i], polls[..begun[i]];
    assert polls[..i] == early + polls[begun[i]..i];
    AfterPollsAppend(crons, early, polls[begun[i]..i]);
    RowsPersist(crons, early, p.identifier);
    RowsPersist(Before(crons, polls, begun[i]), polls[begun[i]..i], p.identifier);
    hide AfterPolls;
    if p.identifier !in crons {
      CreatedInSnapshot(crons, polls, begun[i], p);
    }
  }

  lemma CreatedInSnapshot(crons: Crons, polls: seq<Poll>, begun: nat, p: Poll)
    requires begun <= |polls| && p.identifier !in crons
    ensures var seen := AfterPolls(crons, polls[..begun]);
            (p.identifier in seen && seen[p.identifier].createdAt < p.now) <==> ShownEarlier(crons, polls, begun, p)
  {
    var early, id := polls[..begun], p.identifier;
    RowsPersist(crons, early, id);
    assert forall j: nat :: j < begun ==> polls[j] == early[j] && early[j] in early;
    if exists q :: q in early && q.identifier == id {
      var j := FirstOfExists(early, id);
      assert IsFirstOf(polls, id, j);
      FirstStatementCreates(crons, early, id, j);
      assert forall k: nat :: IsFirstOf(polls, id, k) ==> k == j;
    }
    hide AfterPolls;
  }

  /** The first statement of a run and the rest of it. */
  lemma DuesUnfold(crons: Crons, polls: seq<Poll>, identifier: string)
    requires polls != []
    ensures var next, rest := AfterPoll(crons, polls[0]), polls[1..]; var ours := polls[0].identifier == identifier;
            && AfterPolls(crons, polls) == AfterPolls(next, rest)
            && ClaimedDues(crons, polls, identifier)
               == (if ours && Claims(crons, polls[0]) then [polls[0].due] else []) + ClaimedDues(next, rest, identifier)
            && EnqueuedDues(crons, polls, identifier)
               == (if ours && Enqueues(crons, polls[0]) then [polls[0].due] else [])
                  + EnqueuedDues(next, rest, identifier)
  {
  }

  lemma Regroup(one: seq<Time>, tail: seq<Time>, after: seq<Time>)
    ensures one + (tail + after) == (one + tail) + after
  {
  }

  lemma {:induction false} DuesAppend(crons: Crons, a: seq<Poll>, b: seq<Poll>, identifier: string)
    ensures ClaimedDues(crons, a + b, identifier)
         == ClaimedDues(crons, a, identifier) + ClaimedDues(AfterPolls(crons, a), b, identifier)
    ensures EnqueuedDues(crons, a + b, identifier)
         == EnqueuedDues(crons, a, identifier) + EnqueuedDues(AfterPolls(crons, a), b, identifier)
    decreases |a|
  {
    if a == [] {
      assert a + b == b;
    } else {
      hide Claims, Enqueues, AfterPoll, ClaimedDues, EnqueuedDues, AfterPolls;
      DuesUnfold(crons, a, identifier);
      DuesUnfold(crons, a + b, identifier);
      assert (a + b)[1..] == a[1..] + b;
      var next, rest := AfterPoll(crons, a[0]), a[1..];
      DuesAppend(next, rest, b, identifier);
      var end, ours := AfterPolls(next, rest), a[0].identifier == identifier;
      Regroup(if ours && Claims(crons, a[0]) then [a[0].due] else [],
              ClaimedDues(next, rest, identifier), ClaimedDues(end, b, identifier));
      Regroup(if ours && Enqueues(crons, a[0]) then [a[0].due] else [],
              EnqueuedDues(next, rest, identifier), EnqueuedDues(end, b, identifier));
    }
  }

  /** The claimed and the enqueued occurrences of a run are those of its single statements, in order. */
  lemma DuesStepByStep(crons: Crons, polls: seq<Poll>, identifier: string, i: nat)
    requires i < |polls|
    ensures var p := polls[i]; var ours := p.identifier == identifier; var before := Before(crons, polls, i);
            && ClaimedDues(crons, polls[..i + 1], identifier)
               == ClaimedDues(crons, polls[..i], identifier) + (if ours && Claims(before, p) then [p.due] else [])
            && EnqueuedDues(crons, polls[..i + 1], identifier)
               == EnqueuedDues(crons, polls[..i], identifier) + (if ours && Enqueues(before, p) then [p.due] else [])
  {
    hide Claims, Enqueues, AfterPoll;
    PrefixExtends(polls, i);
    DuesAppend(crons, polls[..i], [polls[i]], identifier);
    assert [polls[i]][1..] == [];
  }

  /** Overlap matters: two first polls that do not see each other may claim two occurrences and enqueue neither. */
  lemma OverlappingClaimIsNotEnqueued()
    ensures var a := Poll("sync", "job", "", 10 * SECOND, 20 * SECOND, false, 11 * SECOND, false);
            var b := Poll("sync", "job", "", 20 * SECOND, 30 * SECOND, false, 21 * SECOND, false);
            var polls := [a, b];
            && Snapshots(map[], polls, [0, 0])
            && ClaimedDues(map[], polls, "sync") == [10 * SECOND, 20 * SECOND]
            && EnqueuedDues(map[], polls, "sync") == []
  {
    var a := Poll("sync", "job", "", 10 * SECOND, 20 * SECOND, false, 11 * SECOND, false);
    var b := Poll("sync", "job", "", 20 * SECOND, 30 * SECOND, false, 21 * SECOND, false);
    var polls := [a, b];
    var recorded := AfterPoll(map[], a);
    assert polls[..0] == [] && polls[1..] == [b] && [b][1..] == [];
    assert recorded["sync"].lastRunAt == Some(10 * SECOND);
    DuesUnfold(map[], polls, "sync");
    DuesUnfold(recorded, [b], "sync");
  }

  // ---------------------------------------------------------------- statements that do not overlap

  /** A recorded definition enqueues every occurrence claimed by a statement that sees the record. */
  lemma {:induction false} RecordedEnqueuesAll(crons: Crons, polls: seq<Poll>, identifier: string)
    requires identifier in crons
    requires forall p :: p in polls && p.identifier == identifier ==> p.sees && crons[identifier].createdAt < p.now
    ensures EnqueuedDues(crons, polls, identifier) == ClaimedDues(crons, polls, identifier)
    decreases |polls|
  {
    if polls != [] {
      assert polls[0] in polls;
      RecordedEnqueuesAll(AfterPoll(crons, polls[0]), polls[1..], identifier);
    }
  }

  /** The statements about an identifier run one after another: at increasing times, each seeing the ones before. */
  ghost predicate OneByOne(polls: seq<Poll>, identifier: string) {
    forall i, j :: 0 <= i < j < |polls| && polls[i].identifier == identifier && polls[j].identifier == identifier ==>
      polls[j].sees && polls[i].now < polls[j].now
  }

  /**
  Without catch-up, the first observation of a definition only records it: when statements do not overlap, all claims
  but the first are enqueued.
  */
  lemma {:induction false} FirstObservationOnlyRecords(crons: Crons, polls: seq<Poll>, identifier: string)
    requires identifier !in crons
    requires forall p :: p in polls && p.identifier == identifier ==> !p.catchUp
    requires OneByOne(polls, identifier)
    ensures var claimed := ClaimedDues(crons, polls, identifier);
            EnqueuedDues(crons, polls, identifier) == if claimed == [] then [] else claimed[1..]
    decreases |polls|
  {
    if polls != [] {
      var after := AfterPoll(crons, polls[0]);
      OneByOneInTail(polls, identifier);
      assert forall p :: p in polls[1..] ==> p in polls;
      if polls[0].identifier == identifier {
        assert polls[0] in polls;
        RecordedEnqueuesAll(after, polls[1..], identifier);
      } else {
        FirstObservationOnlyRecords(after, polls[1..], identifier);
      }
    }
  }

  lemma OneByOneInTail(polls: seq<Poll>, identifier: string)
    requires polls != [] && OneByOne(polls, identifier)
    ensures OneByOne(polls[1..], identifier)
    ensures polls[0].identifier == identifier ==>
              forall p :: p in polls[1..] && p.identifier == identifier ==> p.sees && polls[0].now < p.now
  {
    assert forall i :: 0 <= i < |polls[1..]| ==> polls[1..][i] == polls[i + 1];
  }

  // ---------------------------------------------------------------- which occurrences are claimed

  /** Some poll offers the occurrence before any poll of the identifier that offers a later one reaches the database. */
  ghost predicate InTime(polls: seq<Poll>, identifier: string, due: Time) {
    exists i :: 0 <= i < |polls| && OffersFirst(polls, identifier, due, i)
  }

  ghost predicate OffersFirst(polls: seq<Poll>, identifier: string, due: Time, i: nat)
    requires i < |polls|
  {
    && polls[i].identifier == identifier && polls[i].due == due
    && forall j :: 0 <= j < i && polls[j].identifier == identifier ==> polls[j].due <= due
  }

  lemma InTimeUnfold(polls: seq<Poll>, identifier: string, due: Time)
    requires polls != []
    ensures var ours, rest := polls[0].identifier == identifier, InTime(polls[1..], identifier, due);
            InTime(polls, identifier, due) <==>
            if ours then polls[0].due == due || (rest && polls[0].due <= due) else rest
  {
    var rest := polls[1..];
    assert forall i :: 0 <= i < |rest| ==> rest[i] == polls[i + 1];
    if polls[0].identifier == identifier && polls[0].due == due {
      assert OffersFirst(polls, identifier, due, 0);
    }
    if InTime(polls, identifier, due) {
      var i :| 0 <= i < |polls| && OffersFirst(polls, identifier, due, i);
      if i > 0 {
        assert OffersFirst(rest, identifier, due, i - 1);
      }
    }
    if InTime(rest, identifier, due) && (polls[0].identifier == identifier ==> polls[0].due <= due) {
      var i :| 0 <= i < |rest| && OffersFirst(rest, identifier, due, i);
      forall j | 0 <= j < i + 1 && polls[j].identifier == identifier ensures polls[j].due <= due {
        assert j > 0 ==> rest[j - 1] == polls[j];
      }
      assert OffersFirst(polls, identifier, due, i + 1);
    }
  }

  /**
  For polls of any number of workers in any order: an occurrence is claimed exactly when it is offered in time and lies
  after the recorded one. What a stale poll offers after a newer poll is never claimed.
  */
  lemma {:induction false} ClaimedExactlyWhen(crons: Crons, polls: seq<Poll>, identifier: string, due: Time)
    ensures due in ClaimedDues(crons, polls, identifier) <==>
            InTime(polls, identifier, due) && LastBefore(crons, identifier, due)
    decreases |polls|
  {
    if polls != [] {
      hide InTime;
      InTimeUnfold(polls, identifier, due);
      ClaimedExactlyWhen(AfterPoll(crons, polls[0]), polls[1..], identifier, due);
    }
  }

  // ---------------------------------------------------------------- when no occurrence is skipped

  /** The laws of a schedule: `next` is the least occurrence after an instant. */
  ghost predicate IsNext(occurs: Time -> bool, after: Time, next: Time) {
    occurs(next) && after < next && forall o :: occurs(o) && after < o ==> next <= o
  }

  ghost predicate IsLatest(occurs: Time -> bool, now: Time, due: Time) {
    occurs(due) && due <= now && forall o :: occurs(o) && o <= now ==> o <= due
  }

  /** Each of the times is the schedule's successor of the one before. */
  ghost predicate Consecutive(occurs: Time -> bool, times: seq<Time>) {
    forall k :: 0 < k < |times| ==> IsNext(occurs, times[k - 1], times[k])
  }

  /** All polls of the identifier offer occurrences. */
  ghost predicate OffersOccurrences(polls: seq<Poll>, identifier: string, occurs: Time -> bool) {
    forall p :: p in polls && p.identifier == identifier ==> occurs(p.due)
  }

  /** Every occurrence between two of these times is offered in time. */
  ghost predicate AllInTimeBetween(polls: seq<Poll>, identifier: string, occurs: Time -> bool, times: seq<Time>) {
    forall a, o, b :: occurs(o) && a in times && b in times && a <= o <= b ==> InTime(polls, identifier, o)
  }

  lemma ClaimsOccur(crons: Crons, polls: seq<Poll>, identifier: string, occurs: Time -> bool)
    requires OffersOccurrences(polls, identifier, occurs)
    ensures forall due :: due in ClaimedDues(crons, polls, identifier) ==> occurs(due)
  {
    forall due | due in ClaimedDues(crons, polls, identifier) ensures occurs(due) {
      ClaimedExactlyWhen(crons, polls, identifier, due);
      var i :| 0 <= i < |polls| && OffersFirst(polls, identifier, due, i);
      assert polls[i] in polls;
    }
  }

  /**
  The claims are consecutive occurrences exactly when every occurrence between two of them is offered in time; it is not
  enough that it is offered.
  */
  lemma ConsecutiveExactlyWhen(crons: Crons, polls: seq<Poll>, identifier: string, occurs: Time -> bool)
    requires OffersOccurrences(polls, identifier, occurs)
    ensures var claimed := ClaimedDues(crons, polls, identifier);
            Consecutive(occurs, claimed) <==> AllInTimeBetween(polls, identifier, occurs, claimed)
  {
    hide OffersOccurrences, InTime;
    var claimed := ClaimedDues(crons, polls, identifier);
    ClaimsStrictlyIncrease(crons, polls, identifier);
    if Consecutive(occurs, claimed) {
      forall a, o, b | occurs(o) && a in claimed && b in claimed && a <= o <= b ensures InTime(polls, identifier, o) {
        ConsecutiveContains(occurs, claimed, a, o, b);
        ClaimedExactlyWhen(crons, polls, identifier, o);
      }
    }
    if AllInTimeBetween(polls, identifier, occurs, claimed) {
      ClaimsOccur(crons, polls, identifier, occurs);
      forall k | 0 < k < |claimed| ensures IsNext(occurs, claimed[k - 1], claimed[k]) {
        NoneBetween(crons, polls, identifier, occurs, k);
      }
    }
  }

  /** Consecutive increasing times contain every occurrence between two of them. */
  lemma ConsecutiveContains(occurs: Time -> bool, times: seq<Time>, a: Time, o: Time, b: Time)
    requires Consecutive(occurs, times) && StrictlyIncreasing(times)
    requires occurs(o) && a in times && b in times && a <= o <= b
    ensures o in times
  {
    if a < o {
      var i :| 0 <= i < |times| && times[i] == a;
      var j :| 0 <= j < |times| && times[j] == b;
      LargerValueLaterIndex(times, i, j);
      var m := FirstFrom(times, i, j, o);
      assert IsNext(occurs, times[m - 1], times[m]);
    }
  }

  lemma LargerValueLaterIndex(times: seq<Time>, i: nat, j: nat)
    requires StrictlyIncreasing(times) && i < |times| && j < |times| && times[i] < times[j]
    ensures i < j
  {
  }

  /** The first of the times at or after an instant that lies between two of them. */
  lemma {:induction false} FirstFrom(times: seq<Time>, i: nat, j: nat, o: Time) returns (m: nat)
    requires i < j < |times| && times[i] < o <= times[j]
    ensures i < m <= j && times[m - 1] < o <= times[m]
    decreases j - i
  {
    if o <= times[i + 1] {
      m := i + 1;
    } else {
      m := FirstFrom(times, i + 1, j, o);
    }
  }

  lemma NoneBetween(crons: Crons, polls: seq<Poll>, identifier: string, occurs: Time -> bool, k: nat)
    requires var claimed := ClaimedDues(crons, polls, identifier);
             && 0 < k < |claimed| && StrictlyIncreasing(claimed)
             && (forall due :: due in claimed ==> occurs(due) && LastBefore(crons, identifier, due))
             && AllInTimeBetween(polls, identifier, occurs, claimed)
    ensures var claimed := ClaimedDues(crons, polls, identifier); IsNext(occurs, claimed[k - 1], claimed[k])
  {
    hide InTime, ClaimedDues;
    var claimed := ClaimedDues(crons, polls, identifier);
    var a, b := claimed[k - 1], claimed[k];
    assert a in claimed && b in claimed;
    forall o | occurs(o) && a < o ensures b <= o {
      if o <= b {
        ClaimedExactlyWhen(crons, polls, identifier, o);
        var m :| 0 <= m < |claimed| && claimed[m] == o;
        LargerValueLaterIndex(claimed, k - 1, m);
      }
    }
  }

  /** The occurrence recorded as claimed last, if there is one. */
  function LastClaimed(crons: Crons, identifier: string): Option<Time> {
    if identifier in crons then crons[identifier].lastRunAt else None
  }

  /** The first claim is the successor of the recorded one exactly when every occurrence up to it is offered in time. */
  lemma FirstClaimFollowsExactlyWhen(crons: Crons, polls: seq<Poll>, identifier: string, occurs: Time -> bool)
    requires OffersOccurrences(polls, identifier, occurs) && LastClaimed(crons, identifier).Some?
    requires ClaimedDues(crons, polls, identifier) != []
    ensures var last, first := LastClaimed(crons, identifier).value, ClaimedDues(crons, polls, identifier)[0];
            IsNext(occurs, last, first) <==>
            forall o :: occurs(o) && last < o <= first ==> InTime(polls, identifier, o)
  {
    hide InTime;
    var claimed := ClaimedDues(crons, polls, identifier);
    var last, first := LastClaimed(crons, identifier).value, claimed[0];
    ClaimsStrictlyIncrease(crons, polls, identifier);
    ClaimsOccur(crons, polls, identifier, occurs);
    ClaimedExactlyWhen(crons, polls, identifier, first);
    assert first in claimed;
    if forall o :: occurs(o) && last < o <= first ==> InTime(polls, identifier, o) {
      forall o | occurs(o) && last < o ensures first <= o {
        if o <= first {
          ClaimedExactlyWhen(crons, polls, identifier, o);
          var m :| 0 <= m < |claimed| && claimed[m] == o;
        }
      }
    }
  }

  /**
  It happens that an occurrence is offered and still skipped. With an occurrence every ten seconds, a poll that read its
  clock at second 20 reaches the database only after one that read its clock at second 30.
  */
  lemma OvertakenPollIsSkipped()
    ensures var occurs := (t: Time) => t % (10 * SECOND) == 0;
            var first := Poll("sync", "job", "", 10 * SECOND, 20 * SECOND, true, 10 * SECOND, false);
            var late := Poll("sync", "job", "", 20 * SECOND, 30 * SECOND, true, 31 * SECOND, true);
            var newer := Poll("sync", "job", "", 30 * SECOND, 40 * SECOND, true, 30 * SECOND, true);
            var polls := [first, newer, late];
            && IsLatest(occurs, 10 * SECOND, first.due) && IsLatest(occurs, 20 * SECOND, late.due)
            && IsLatest(occurs, 30 * SECOND, newer.due) && occurs(20 * SECOND)
            && ClaimedDues(map[], polls, "sync") == [10 * SECOND, 30 * SECOND]
            && !InTime(polls, "sync", 20 * SECOND)
  {
    var first := Poll("sync", "job", "", 10 * SECOND, 20 * SECOND, true, 10 * SECOND, false);
    var late := Poll("sync", "job", "", 20 * SECOND, 30 * SECOND, true, 31 * SECOND, true);
    var newer := Poll("sync", "job", "", 30 * SECOND, 40 * SECOND, true, 30 * SECOND, true);
    var polls := [first, newer, late];
    var c1 := AfterPoll(map[], first);
    var c2 := AfterPoll(c1, newer);
    assert polls[1..] == [newer, late] && [newer, late][1..] == [late];
    DuesUnfold(map[], polls, "sync");
    DuesUnfold(c1, [newer, late], "sync");
    DuesUnfold(c2, [late], "sync");
    ClaimedExactlyWhen(map[], polls, "sync", 20 * SECOND);
    hide InTime, ClaimedDues, EnqueuedDues, AfterPolls;
  }

  // ---------------------------------------------------------------- independence of identifiers

  function OnlyFor(polls: seq<Poll>, identifier: string): (mine: seq<Poll>)
    ensures forall p :: p in mine <==> p in polls && p.identifier == identifier
  {
    if polls == [] then []
    else (if polls[0].identifier == identifier then [polls[0]] else []) + OnlyFor(polls[1..], identifier)
  }

  /** Polls of other identifiers, however interleaved, have no influence on what is claimed for this one. */
  lemma {:induction false} IdentifiersAreIndependent(a: Crons, b: Crons, polls: seq<Poll>, identifier: string)
    requires identifier in a <==> identifier in b
    requires identifier in a ==> a[identifier] == b[identifier]
    ensures ClaimedDues(a, polls, identifier) == ClaimedDues(b, OnlyFor(polls, identifier), identifier)
    ensures EnqueuedDues(a, polls, identifier) == EnqueuedDues(b, OnlyFor(polls, identifier), identifier)
    decreases |polls|
  {
    if polls != [] {
      var p, rest := polls[0], OnlyFor(polls[1..], identifier);
      if p.identifier == identifier {
        IdentifiersAreIndependent(AfterPoll(a, p), AfterPoll(b, p), polls[1..], identifier);
        assert ([p] + rest)[1..] == rest;
      } else {
        IdentifiersAreIndependent(AfterPoll(a, p), b, polls[1..], identifier);
        assert OnlyFor(polls, identifier) == rest;
      }
    }
  }

  // ---------------------------------------------------------------- polls that are frequent and prompt enough

  /** Different occurrences are at least `gap` apart. */
  ghost predicate Spaced(occurs: Time -> bool, gap: Time) {
    forall a, b :: occurs(a) && occurs(b) && a < b ==> b - a >= gap
  }

  /**
  Of polls that read their workers' clocks at `read` and reach the database in this order: one reads the clock within
  `gap` from `t` on, and none that read it later than that overtakes it.
  */
  ghost predicate Caught(read: seq<Time>, t: Time, gap: Time) {
    exists k :: 0 <= k < |read| && t <= read[k] < t + gap && forall j :: 0 <= j < k ==> read[j] < t + gap
  }

  /** That is so of every instant after `from` up to the last reading. */
  ghost predicate CaughtSince(read: seq<Time>, from: Time, gap: Time) {
    forall j, t :: 0 <= j < |read| && from < t <= read[j] ==> Caught(read, t, gap)
  }

  /** Each poll of an identifier offers what is due by the clock its worker read. */
  ghost predicate OffersLatest(mine: seq<Poll>, read: seq<Time>, occurs: Time -> bool) {
    |read| == |mine| && forall i :: 0 <= i < |mine| ==> IsLatest(occurs, read[i], mine[i].due)
  }

  /** An occurrence caught by such polls is offered in time. */
  lemma CaughtIsInTime(
      mine: seq<Poll>, read: seq<Time>, identifier: string, occurs: Time -> bool, gap: Time, o: Time)
    requires OffersLatest(mine, read, occurs) && Spaced(occurs, gap) && occurs(o) && Caught(read, o, gap)
    requires forall p :: p in mine ==> p.identifier == identifier
    ensures InTime(mine, identifier, o)
  {
    var k :| 0 <= k < |read| && o <= read[k] < o + gap && forall j :: 0 <= j < k ==> read[j] < o + gap;
    forall j | 0 <= j <= k ensures mine[j].due <= o {
      assert IsLatest(occurs, read[j], mine[j].due);
    }
    assert IsLatest(occurs, read[k], mine[k].due) && mine[k] in mine;
    assert OffersFirst(mine, identifier, o, k);
  }

  /**
  So is one with a poll that reads its clock and takes effect before the next occurrence, with no bound on the others.
  */
  lemma TookEffectInItsSlot(
      mine: seq<Poll>, read: seq<Time>, took: seq<Time>, identifier: string, occurs: Time -> bool, o: Time, k: nat)
    requires OffersLatest(mine, read, occurs) && |took| == |read| && k < |read| && occurs(o)
    requires forall p :: p in mine ==> p.identifier == identifier
    requires forall i :: 0 <= i < |read| ==> read[i] <= took[i]
    requires forall i, j :: 0 <= i < j < |took| ==> took[i] <= took[j]
    requires o <= read[k] && forall next :: occurs(next) && o < next ==> took[k] < next
    ensures InTime(mine, identifier, o)
  {
    forall j | 0 <= j <= k ensures mine[j].due <= o {
      assert IsLatest(occurs, read[j], mine[j].due);
      assert read[j] <= took[j] <= took[k];
    }
    assert IsLatest(occurs, read[k], mine[k].due) && mine[k] in mine;
    assert OffersFirst(mine, identifier, o, k);
  }

  lemma LatestAreOccurrences(mine: seq<Poll>, read: seq<Time>, identifier: string, occurs: Time -> bool)
    requires OffersLatest(mine, read, occurs)
    ensures OffersOccurrences(mine, identifier, occurs)
  {
    forall p | p in mine ensures occurs(p.due) {
      var i :| 0 <= i < |mine| && mine[i] == p;
      assert IsLatest(occurs, read[i], mine[i].due);
    }
  }

  /**
  Polls that catch every instant claim the occurrences of a schedule one after another, whatever the table held before,
  whatever the order of the workers' statements and whatever other definitions are polled in between.
  */
  lemma FrequentPollsSkipNothing(
      crons: Crons, polls: seq<Poll>, read: seq<Time>, identifier: string, occurs: Time -> bool, gap: Time)
    requires Spaced(occurs, gap) && OffersLatest(OnlyFor(polls, identifier), read, occurs)
    requires forall i :: 0 <= i < |read| ==> CaughtSince(read, read[i], gap)
    ensures Consecutive(occurs, ClaimedDues(crons, polls, identifier))
  {
    hide InTime, Caught;
    var mine := OnlyFor(polls, identifier);
    IdentifiersAreIndependent(crons, crons, polls, identifier);
    LatestAreOccurrences(mine, read, identifier, occurs);
    var claimed := ClaimedDues(crons, mine, identifier);
    forall a, o, b | occurs(o) && a in claimed && b in claimed && a <= o <= b ensures InTime(mine, identifier, o) {
      ClaimedExactlyWhen(crons, mine, identifier, a);
      if a < o {
        var i := ReadOf(crons, mine, read, identifier, occurs, a);
        var j := ReadOf(crons, mine, read, identifier, occurs, b);
        assert read[i] < o <= read[j];
        CaughtIsInTime(mine, read, identifier, occurs, gap, o);
      }
    }
    ConsecutiveExactlyWhen(crons, mine, identifier, occurs);
  }

  /** The reading of the poll that claimed an occurrence. */
  lemma ReadOf(crons: Crons, mine: seq<Poll>, read: seq<Time>, identifier: string, occurs: Time -> bool, due: Time)
    returns (i: nat)
    requires OffersLatest(mine, read, occurs) && due in ClaimedDues(crons, mine, identifier)
    ensures i < |read| && IsLatest(occurs, read[i], due)
  {
    ClaimedExactlyWhen(crons, mine, identifier, due);
    i :| 0 <= i < |mine| && OffersFirst(mine, identifier, due, i);
    assert IsLatest(occurs, read[i], mine[i].due);
  }

  /**
  Nor is anything lost over a restart when every instant since `since` is caught, the reading that offered the recorded
  occurrence: the first claim is its successor.
  */
  lemma RestartSkipsNothing(
      crons: Crons, polls: seq<Poll>, read: seq<Time>, identifier: string, occurs: Time -> bool, gap: Time, since: Time)
    requires Spaced(occurs, gap) && OffersLatest(OnlyFor(polls, identifier), read, occurs)
    requires LastClaimed(crons, identifier).Some? && IsLatest(occurs, since, LastClaimed(crons, identifier).value)
    requires CaughtSince(read, since, gap) && ClaimedDues(crons, polls, identifier) != []
    ensures IsNext(occurs, LastClaimed(crons, identifier).value, ClaimedDues(crons, polls, identifier)[0])
  {
    hide InTime, Caught;
    var mine, last := OnlyFor(polls, identifier), LastClaimed(crons, identifier).value;
    IdentifiersAreIndependent(crons, crons, polls, identifier);
    LatestAreOccurrences(mine, read, identifier, occurs);
    var first := ClaimedDues(crons, mine, identifier)[0];
    var j := ReadOf(crons, mine, read, identifier, occurs, first);
    forall o | occurs(o) && last < o <= first ensures InTime(mine, identifier, o) {
      assert since < o <= read[j];
      CaughtIsInTime(mine, read, identifier, occurs, gap, o);
    }
    FirstClaimFollowsExactlyWhen(crons, mine, identifier, occurs);
  }

  // ---------------------------------------------------------------- how polls come to catch every instant

  /** From every instant after `from` up to the last reading, some clock is read within `period`. */
  ghost predicate ReadSince(read: seq<Time>, from: Time, period: Time) {
    forall j, t :: 0 <= j < |read| && from < t <= read[j] ==> ReadWithin(read, t, period)
  }

  ghost predicate ReadWithin(read: seq<Time>, t: Time, period: Time) {
    exists k :: 0 <= k < |read| && t <= read[k] < t + period
  }

  /**
  Any number of workers: when clocks are read often enough, and every statement takes effect within `delay` of its
  reading, a period and a delay together no longer than the spacing catch every instant. `took` is when each statement
  took effect; the database lets them take effect in this order.
  */
  lemma PromptPollsCatch(read: seq<Time>, took: seq<Time>, from: Time, period: Time, delay: Time, gap: Time)
    requires |took| == |read| && ReadSince(read, from, period) && period + delay <= gap
    requires forall i :: 0 <= i < |read| ==> read[i] <= took[i] <= read[i] + delay
    requires forall i, j :: 0 <= i < j < |took| ==> took[i] <= took[j]
    ensures CaughtSince(read, from, gap)
  {
    forall j, t | 0 <= j < |read| && from < t <= read[j] ensures Caught(read, t, gap) {
      assert ReadWithin(read, t, period);
      var k :| 0 <= k < |read| && t <= read[k] < t + period;
      assert read[k] <= took[k] <= read[k] + delay;
      forall i | 0 <= i < k ensures read[i] < t + gap {
        assert read[i] <= took[i] <= took[k];
      }
    }
  }

  /** One worker, whose statements follow one another: readings no further apart than the spacing, however slow. */
  lemma SteadyPollsCatch(read: seq<Time>, from: Time, gap: Time)
    requires forall k :: 0 < k < |read| ==> read[k - 1] <= read[k] <= read[k - 1] + gap
    requires read != [] ==> read[0] <= from + gap
    requires gap > 0
    ensures CaughtSince(read, from, gap)
  {
    forall j, t | 0 <= j < |read| && from < t <= read[j] ensures Caught(read, t, gap) {
      if t <= read[0] {
        assert 0 <= 0 < |read| && t <= read[0] < t + gap;
      } else {
        var m := FirstFrom(read, 0, j, t);
        forall i | 0 <= i < m ensures read[i] < t + gap {
          TimesOrdered(read, i, m - 1);
        }
      }
    }
  }

  lemma {:induction false} TimesOrdered(times: seq<Time>, i: nat, j: nat)
    requires forall k :: 0 < k < |times| ==> times[k - 1] <= times[k]
    requires i <= j < |times|
    ensures times[i] <= times[j]
    decreases j
  {
    if i < j {
      TimesOrdered(times, i, j - 1);
    }
  }
}
