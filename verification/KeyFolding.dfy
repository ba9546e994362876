/**
Job keys: what any number of enqueues under one key amount to, in any run in which nothing else touches the job that
holds it.
*/
module KeyFolding {
  import opened Prelude
  import opened Jobs
  import opened Columns
  import opened Protocol
  import opened ProtocolInvariant
  import opened ProtocolTheorems

  /** The last request whose mode overwrites the definition. */
  function LastDefining(requests: seq<Request>): Option<Request> {
    if requests == [] then None
    else
      var last := requests[|requests| - 1];
      if last.mode != Dedupe then Some(last) else LastDefining(requests[..|requests| - 1])
  }

  /** The last request whose mode also restarts the timer. */
  function LastReplacing(requests: seq<Request>): Option<Request> {
    if requests == [] then None
    else
      var last := requests[|requests| - 1];
      if last.mode == Replace then Some(last) else LastReplacing(requests[..|requests| - 1])
  }

  /**
  The holder after all the requests. While it is queued its definition comes from the last request that is not `Dedupe`
  and its time from the last `Replace`; a running job keeps everything.
  */
  function Folded(r: Row, requests: seq<Request>): Row {
    if r.status != Queued then r
    else
      var definition := LastDefining(requests);
      var timer := LastReplacing(requests);
      var defined :=
        if definition.Some? then
          var q := definition.value;
          r.(name := q.name, payload := q.payload, queueName := q.queueName, priority := q.priority,
             maxAttempts := q.maxAttempts, error := None)
        else r;
      if timer.Some? then defined.(runAt := timer.value.runAt) else defined
  }

  lemma OverwriteExtendsFold(r: Row, requests: seq<Request>)
    requires requests != []
    ensures Folded(r, requests) == Overwrite(Folded(r, requests[..|requests| - 1]), requests[|requests| - 1])
  {
  }

  lemma {:induction false} FoldFromTheFront(r: Row, q: Request, rest: seq<Request>)
    ensures Folded(r, [q] + rest) == Folded(Overwrite(r, q), rest)
    decreases |rest|
  {
    var all := [q] + rest;
    OverwriteExtendsFold(r, all);
    if rest == [] {
      assert all[..|all| - 1] == [];
    } else {
      var before := rest[..|rest| - 1];
      assert all[..|all| - 1] == [q] + before;
      FoldFromTheFront(r, q, before);
      OverwriteExtendsFold(Overwrite(r, q), rest);
    }
  }

  lemma OverwriteKeepsIdentity(r: Row, q: Request)
    ensures var after := Overwrite(r, q);
            && after.jobKey == r.jobKey && after.status == r.status && after.attempt == r.attempt
            && (r.status == Running ==> after == r)
  {
  }

  // ---------------------------------------------------------------- runs

  predicate IsUnder(e: Event, key: Option<string>) {
    e.Enqueue? && e.q.jobKey == key
  }

  /** The requests under a key that a run enqueues. */
  function RequestsUnder(events: seq<Event>, key: Option<string>): (requests: seq<Request>)
    ensures forall q :: q in requests ==> q.jobKey == key
  {
    if events == [] then []
    else (if IsUnder(events[0], key) then [events[0].q] else []) + RequestsUnder(events[1..], key)
  }

  /** The ids those enqueues return. */
  ghost function IdsReturned(s: State, events: seq<Event>, key: Option<string>): seq<Id>
    decreases |events|
  {
    if events == [] || !Enabled(s, events[0]) then []
    else
      (if IsUnder(events[0], key) then [EnqueuedId(s.jobs, events[0].newId, events[0].q)] else [])
      + IdsReturned(Step(s, events[0]), events[1..], key)
  }

  /** Each event of the run is an enqueue under the key or leaves the holder's row alone. */
  ghost predicate OnlyEnqueuesTouch(s: State, events: seq<Event>, holder: Id, key: Option<string>)
    decreases |events|
  {
    events != [] && Enabled(s, events[0]) ==>
      var after := Step(s, events[0]);
      && (IsUnder(events[0], key)
          || (holder in s.jobs && holder in after.jobs && after.jobs[holder] == s.jobs[holder]))
      && OnlyEnqueuesTouch(after, events[1..], holder, key)
  }

  lemma EnqueueUnderHeldKey(s: State, e: Event, holder: Id)
    requires Inv(s) && Enabled(s, e) && holder in s.jobs && HoldsKey(s.jobs[holder], s.jobs[holder].jobKey)
    requires IsUnder(e, s.jobs[holder].jobKey)
    ensures EnqueuedId(s.jobs, e.newId, e.q) == holder
    ensures holder in Step(s, e).jobs && Step(s, e).jobs[holder] == Overwrite(s.jobs[holder], e.q)
  {
    hide Inv, Overwrite, RespectsLocks, Upsert;
    if e.newId in s.jobs {
      TableIdsAreBorn(s, e.newId);
    }
    HolderOf(s, e.q.jobKey, holder);
    EnqueueAt(s, e.newId, e.q, e.at, holder);
    hide RunEnqueue;
  }

  /** One event of such a run: the holder is overwritten or stays, and still holds the key. */
  lemma StepFolds(s: State, e: Event, holder: Id, key: Option<string>)
    requires Inv(s) && Enabled(s, e) && holder in s.jobs && HoldsKey(s.jobs[holder], key)
    requires IsUnder(e, key) || (holder in Step(s, e).jobs && Step(s, e).jobs[holder] == s.jobs[holder])
    ensures holder in Step(s, e).jobs && HoldsKey(Step(s, e).jobs[holder], key)
    ensures var r, after := s.jobs[holder], Step(s, e).jobs[holder];
            && after == (if IsUnder(e, key) then Overwrite(r, e.q) else r)
            && after.jobKey == r.jobKey == key && after.status == r.status && after.attempt == r.attempt
            && (r.status == Running ==> after == r)
    ensures IsUnder(e, key) ==> EnqueuedId(s.jobs, e.newId, e.q) == holder
  {
    hide Inv, Enabled, Step, Overwrite;
    if IsUnder(e, key) {
      EnqueueUnderHeldKey(s, e, holder);
      OverwriteKeepsIdentity(s.jobs[holder], e.q);
    }
  }

  /**
  Any number of enqueues under a held key, with other statements about other jobs in between: the job that held the key
  still does, with the same id, key, status and attempts, and what the calls changed is their fold.
  */
  lemma {:induction false} KeyFolding(s: State, events: seq<Event>, end: State, holder: Id, key: Option<string>)
    requires Inv(s) && Path(s, events, end) && holder in s.jobs && HoldsKey(s.jobs[holder], key)
    requires OnlyEnqueuesTouch(s, events, holder, key)
    ensures holder in end.jobs && end.jobs[holder] == Folded(s.jobs[holder], RequestsUnder(events, key))
    ensures var r, after := s.jobs[holder], end.jobs[holder];
            && after.jobKey == key && after.status == r.status && after.attempt == r.attempt
            && (r.status == Running ==> after == r)
    decreases |events|
  {
    hide Inv, Enabled, Step, Overwrite, Folded, HoldsKey;
    if events == [] {
      FoldOfNothing(s.jobs[holder], key);
    } else {
      var e, next, rest := events[0], Step(s, events[0]), RequestsUnder(events[1..], key);
      StepKeepsInv(s, e);
      StepFolds(s, e, holder, key);
      KeyFolding(next, events[1..], end, holder, key);
      if IsUnder(e, key) {
        FoldFromTheFront(s.jobs[holder], e.q, rest);
      }
      assert RequestsUnder(events, key) == if IsUnder(e, key) then [e.q] + rest else rest;
    }
  }

  lemma FoldOfNothing(r: Row, key: Option<string>)
    requires HoldsKey(r, key)
    ensures Folded(r, []) == r && r.jobKey == key
  {
  }

  /** And every one of the calls returned the id of that job. */
  lemma {:induction false} EveryCallReturnsTheHolder(
      s: State, events: seq<Event>, end: State, holder: Id, key: Option<string>)
    requires Inv(s) && Path(s, events, end) && holder in s.jobs && HoldsKey(s.jobs[holder], key)
    requires OnlyEnqueuesTouch(s, events, holder, key)
    ensures forall id :: id in IdsReturned(s, events, key) ==> id == holder
    decreases |events|
  {
    hide Inv, Enabled, Step, Overwrite, HoldsKey;
    if events != [] {
      StepKeepsInv(s, events[0]);
      StepFolds(s, events[0], holder, key);
      EveryCallReturnsTheHolder(Step(s, events[0]), events[1..], end, holder, key);
    }
  }

  /** From a key nobody holds, the first enqueue creates the job and the others fold into it. */
  lemma KeyFoldingFromFree(s: State, events: seq<Event>, end: State, key: Option<string>)
    requires Inv(s) && Path(s, events, end) && key.Some? && KeyHolder(s.jobs, key) == None
    requires events != [] && IsUnder(events[0], key)
    requires OnlyEnqueuesTouch(Step(s, events[0]), events[1..], events[0].newId, key)
    ensures var e := events[0];
            && EnqueuedId(s.jobs, e.newId, e.q) == e.newId && e.newId in end.jobs
            && end.jobs[e.newId] == Folded(NewRow(e.q, e.at), RequestsUnder(events[1..], key))
    ensures var e, later, r := events[0], RequestsUnder(events[1..], key), end.jobs[events[0].newId];
            && Carries(r, LastDefining(later).GetOr(e.q)) && WaitsFrom(r, LastReplacing(later).GetOr(e.q).runAt, None)
            && r.attempt == 0 && r.startedAt == None && r.createdAt == e.at
    ensures forall id :: id in IdsReturned(s, events, key) ==> id == events[0].newId
  {
    var e := events[0];
    StepKeepsInv(s, e);
    InsertsNewRow(s, e, key);
    hide Inv, Enabled, Step, Folded;
    KeyFolding(Step(s, e), events[1..], end, e.newId, key);
    EveryCallReturnsTheHolder(Step(s, e), events[1..], end, e.newId, key);
    NewRowIsInserted(e.q, e.at);
    FoldIntoNewRow(NewRow(e.q, e.at), e.q, e.at, RequestsUnder(events[1..], key));
  }

  /** What the fold makes of a new row: the last definition and the last time asked for. */
  lemma FoldIntoNewRow(r: Row, q: Request, at: Time, later: seq<Request>)
    requires InsertedFor(r, q, at) && forall other :: other in later ==> other.jobKey == q.jobKey
    ensures var after := Folded(r, later);
            && Carries(after, LastDefining(later).GetOr(q))
            && WaitsFrom(after, LastReplacing(later).GetOr(q).runAt, None)
            && after.attempt == 0 && after.startedAt == None && after.createdAt == at
  {
    LastIsOneOf(later);
  }

  lemma {:induction false} LastIsOneOf(requests: seq<Request>)
    ensures LastDefining(requests).Some? ==> LastDefining(requests).value in requests
    decreases |requests|
  {
    if requests != [] {
      LastIsOneOf(requests[..|requests| - 1]);
    }
  }

  lemma InsertsNewRow(s: State, e: Event, key: Option<string>)
    requires Enabled(s, e) && IsUnder(e, key) && key.Some? && KeyHolder(s.jobs, key) == None
    ensures EnqueuedId(s.jobs, e.newId, e.q) == e.newId
    ensures e.newId in Step(s, e).jobs && Step(s, e).jobs[e.newId] == NewRow(e.q, e.at)
    ensures HoldsKey(Step(s, e).jobs[e.newId], key)
  {
  }
}
