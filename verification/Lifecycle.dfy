/**
Lifecycle counters of one worker: what the claim loops record about handlers, and what the periodic summary drains.
*/
module Lifecycle {
  import opened Prelude

  const U64_MAX: nat := 0xFFFF_FFFF_FFFF_FFFF

  datatype Summary = Summary(
    started: nat,
    succeeded: nat,
    failed: nat,
    retried: nat,
    permanentFailed: nat,
    abandoned: nat,
    running: nat,
    totalElapsed: nat
  )

  const EMPTY := Summary(0, 0, 0, 0, 0, 0, 0, 0)

  type Entries = map<string, Summary>

  function Get(entries: Entries, name: string): Summary {
    if name in entries then entries[name] else EMPTY
  }

  function SaturatingAdd(a: nat, b: nat): nat {
    Min(a + b, U64_MAX)
  }

  function SaturatingDec(a: nat): nat {
    if a == 0 then 0 else a - 1
  }

  datatype Outcome = Succeeded | Failed(permanent: bool) | Abandoned

  /** What one `record_*` call does to the entry of its job name. */
  function Recorded(s: Summary, outcome: Outcome, elapsed: nat): Summary {
    var ended := s.(running := SaturatingDec(s.running), totalElapsed := SaturatingAdd(s.totalElapsed, elapsed));
    match outcome
    case Succeeded => ended.(succeeded := s.succeeded + 1)
    case Failed(true) => ended.(failed := s.failed + 1, permanentFailed := s.permanentFailed + 1)
    case Failed(false) => ended.(failed := s.failed + 1, retried := s.retried + 1)
    case Abandoned => ended.(abandoned := s.abandoned + 1)
  }

  /** A drain reports a name when something started in the window or still runs. */
  predicate Reported(s: Summary) {
    s.started > 0 || s.running > 0
  }

  function Snapshot(entries: Entries): Entries {
    map name | name in entries && Reported(entries[name]) :: entries[name]
  }

  function Emptied(s: Summary): Summary {
    EMPTY.(running := s.running)
  }

  function Drained(entries: Entries): Entries {
    map name | name in entries :: Emptied(entries[name])
  }

  /** The mutex-held map of the worker. */
  class JobSummaries {
    var entries: Entries

    constructor ()
      ensures entries == map[]
    {
      entries := map[];
    }

    method RecordStarted(name: string)
      modifies this
      ensures var s := Get(old(entries), name);
              entries == old(entries)[name := s.(started := s.started + 1, running := s.running + 1)]
    {
      var summary := if name in entries then entries[name] else EMPTY;
      summary := summary.(started := summary.started + 1);
      summary := summary.(running := summary.running + 1);
      entries := entries[name := summary];
    }

    method RecordSucceeded(name: string, elapsed: nat)
      modifies this
      ensures entries == old(entries)[name := Recorded(Get(old(entries), name), Succeeded, elapsed)]
    {
      var summary := if name in entries then entries[name] else EMPTY;
      summary := summary.(succeeded := summary.succeeded + 1);
      summary := summary.(running := SaturatingDec(summary.running));
      summary := summary.(totalElapsed := SaturatingAdd(summary.totalElapsed, elapsed));
      entries := entries[name := summary];
    }

    method RecordFailed(name: string, elapsed: nat, permanent: bool)
      modifies this
      ensures entries == old(entries)[name := Recorded(Get(old(entries), name), Failed(permanent), elapsed)]
    {
      var summary := if name in entries then entries[name] else EMPTY;
      summary := summary.(failed := summary.failed + 1);
      summary := summary.(running := SaturatingDec(summary.running));
      summary := summary.(totalElapsed := SaturatingAdd(summary.totalElapsed, elapsed));
      if permanent {
        summary := summary.(permanentFailed := summary.permanentFailed + 1);
      } else {
        summary := summary.(retried := summary.retried + 1);
      }
      entries := entries[name := summary];
    }

    method RecordAbandoned(name: string, elapsed: nat)
      modifies this
      ensures entries == old(entries)[name := Recorded(Get(old(entries), name), Abandoned, elapsed)]
    {
      var summary := if name in entries then entries[name] else EMPTY;
      summary := summary.(abandoned := summary.abandoned + 1);
      summary := summary.(running := SaturatingDec(summary.running));
      summary := summary.(totalElapsed := SaturatingAdd(summary.totalElapsed, elapsed));
      entries := entries[name := summary];
    }

    /** Takes the window of every name, keeping only what still runs. */
    method Drain() returns (snapshot: Entries)
      modifies this
      ensures entries == Drained(old(entries)) && snapshot == Snapshot(old(entries))
    {
      ghost var before := entries;
      snapshot := map[];
      var todo := entries.Keys;
      while todo != {}
        invariant todo <= before.Keys
        invariant entries == map name | name in before :: if name in todo then before[name] else Emptied(before[name])
        invariant snapshot == map name | name in before && name !in todo && Reported(before[name]) :: before[name]
        decreases |todo|
      {
        var name :| name in todo;
        var current := entries[name];
        var running := current.running;
        var summary := EMPTY;
        if current.started > 0 || running > 0 {
          summary := EMPTY.(running := running);
          snapshot := snapshot[name := current.(running := running)];
        }
        entries := entries[name := summary];
        todo := todo - {name};
      }
    }
  }

  // ---------------------------------------------------------------- one claimed job

  /** The reply to a statement about the lock: the row was updated, it was not, or the statement failed. */
  datatype Reply = Held | Lost | Error

  datatype HandlerEnd = ReturnedOk | ReturnedErr | Panicked

  /** What a claim loop records. `handler` tells apart the executions of one worker. */
  datatype Event =
    | Started(handler: nat, name: string)
    | Finished(handler: nat, name: string, outcome: Outcome, elapsed: nat)
    | Drain

  /** What the handler's end comes to, given the replies to the renewals and to the statement for its result. */
  function OutcomeOf(renewals: seq<Reply>, end: HandlerEnd, reply: Reply, attempt: int, maxAttempts: int): Outcome {
    if Lost in renewals then Abandoned
    else if end != ReturnedOk then Failed(attempt >= maxAttempts)
    else if reply == Held then Outcome.Succeeded
    else Abandoned
  }

  /**
  `run_claimed_job`, when the worker is not dropped meanwhile: the renewals until the handler ends or one finds the lock
  gone, then the statement for its result. `known` says the name has a handler. A job that starts is recorded finished
  exactly once, under the same name, whatever the database replies; a job without a handler is not recorded at all.
  */
  method RunClaimedJob(summaries: JobSummaries, handler: nat, known: bool, name: string, attempt: int, maxAttempts: int,
                       renewals: seq<Reply>, end: HandlerEnd, reply: Reply, elapsed: nat)
    returns (log: seq<Event>)
    modifies summaries
    ensures !known ==> log == [] && summaries.entries == old(summaries.entries)
    ensures known ==>
              && log == [Started(handler, name),
                         Finished(handler, name, OutcomeOf(renewals, end, reply, attempt, maxAttempts), elapsed)]
              && summaries.entries == EntriesAfter(EntriesAfter(old(summaries.entries), log[0]), log[1])
  {
    if !known {
      return [];
    }
    summaries.RecordStarted(name);
    var i := 0;
    while i < |renewals|
      invariant 0 <= i <= |renewals| && Lost !in renewals[..i]
      invariant summaries.entries == EntriesAfter(old(summaries.entries), Started(handler, name))
    {
      if renewals[i] == Lost {
        summaries.RecordAbandoned(name, elapsed);
        return [Started(handler, name), Finished(handler, name, Abandoned, elapsed)];
      }
      i := i + 1;
    }
    assert renewals[..|renewals|] == renewals;
    var outcome: Outcome;
    match end {
      case ReturnedOk =>
        match reply {
          case Held =>
            outcome := Outcome.Succeeded;
            summaries.RecordSucceeded(name, elapsed);
          case Lost =>
            outcome := Abandoned;
            summaries.RecordAbandoned(name, elapsed);
          case Error =>
            outcome := Abandoned;
            summaries.RecordAbandoned(name, elapsed);
        }
      case ReturnedErr =>
        outcome := Failed(attempt >= maxAttempts);
        summaries.RecordFailed(name, elapsed, attempt >= maxAttempts);
      case Panicked =>
        outcome := Failed(attempt >= maxAttempts);
        summaries.RecordFailed(name, elapsed, attempt >= maxAttempts);
    }
    log := [Started(handler, name), Finished(handler, name, outcome, elapsed)];
  }

  // ---------------------------------------------------------------- any interleaving of loops and drains

  function EntriesAfter(entries: Entries, e: Event): Entries {
    match e
    case Started(_, name) =>
      var s := Get(entries, name);
      entries[name := s.(started := s.started + 1, running := s.running + 1)]
    case Finished(_, name, outcome, elapsed) => entries[name := Recorded(Get(entries, name), outcome, elapsed)]
    case Drain => Drained(entries)
  }

  function EntriesOf(events: seq<Event>): Entries {
    if events == [] then map[]
    else EntriesAfter(EntriesOf(events[..|events| - 1]), events[|events| - 1])
  }

  /** The handlers started and not yet recorded finished. */
  function Open(events: seq<Event>): map<nat, string> {
    if events == [] then map[]
    else
      var before := Open(events[..|events| - 1]);
      match events[|events| - 1]
      case Started(h, name) => before[h := name]
      case Finished(h, _, _, _) => before - {h}
      case Drain => before
  }

  /** Loops record a start before the finish of the same execution, and each at most once. */
  predicate WellFormed(events: seq<Event>) {
    events == []
    || (var before := events[..|events| - 1];
        && WellFormed(before)
        && match events[|events| - 1]
           case Started(h, _) => h !in Open(before)
           case Finished(h, name, _, _) => h in Open(before) && Open(before)[h] == name
           case Drain => true)
  }

  /** What the log says of one execution. */
  function LogOf(events: seq<Event>, h: nat): seq<Event> {
    if events == [] then []
    else
      var last := events[|events| - 1];
      LogOf(events[..|events| - 1], h) + if !last.Drain? && last.handler == h then [last] else []
  }

  /** The log of one `run_claimed_job` call, whole or as far as it got before the worker was dropped. */
  predicate OneRun(log: seq<Event>) {
    || log == []
    || (|log| == 1 && log[0].Started?)
    || (|log| == 2 && log[0].Started? && log[1].Finished?
        && log[0].name == log[1].name && log[0].handler == log[1].handler)
  }

  /**
  Well-formedness is nothing but interleaving: any merge of the logs of `run_claimed_job` calls, with drains anywhere,
  is well formed, and an execution is open while its log holds only the start.
  */
  lemma {:induction false} InterleavingsAreWellFormed(events: seq<Event>)
    requires forall h :: OneRun(LogOf(events, h))
    ensures WellFormed(events)
    ensures forall h :: h in Open(events) <==> |LogOf(events, h)| == 1
    ensures forall h :: h in Open(events) ==> LogOf(events, h)[0] == Started(h, Open(events)[h])
    decreases |events|
  {
    if events != [] {
      var before := events[..|events| - 1];
      forall h ensures OneRun(LogOf(before, h)) {
        PrefixOfARun(events, h);
      }
      InterleavingsAreWellFormed(before);
      var last := events[|events| - 1];
      if !last.Drain? {
        assert OneRun(LogOf(events, last.handler));
      }
    }
  }

  lemma PrefixOfARun(events: seq<Event>, h: nat)
    requires events != [] && OneRun(LogOf(events, h))
    ensures OneRun(LogOf(events[..|events| - 1], h))
  {
    var earlier := LogOf(events[..|events| - 1], h);
    assert earlier <= LogOf(events, h);
  }

  function NamedHandlers(open: map<nat, string>, name: string): set<nat> {
    set h | h in open && open[h] == name
  }

  function OpenFor(events: seq<Event>, name: string): set<nat> {
    NamedHandlers(Open(events), name)
  }

  lemma OpeningAdds(open: map<nat, string>, h: nat, x: string, name: string)
    requires h !in open
    ensures |NamedHandlers(open[h := x], name)| == |NamedHandlers(open, name)| + if x == name then 1 else 0
  {
    assert NamedHandlers(open[h := x], name) == NamedHandlers(open, name) + if x == name then {h} else {};
  }

  lemma ClosingRemoves(open: map<nat, string>, h: nat, name: string)
    requires h in open
    ensures |NamedHandlers(open, name)| == |NamedHandlers(open - {h}, name)| + if open[h] == name then 1 else 0
  {
    assert NamedHandlers(open - {h}, name) == NamedHandlers(open, name) - {h};
    assert h in NamedHandlers(open, name) <==> open[h] == name;
  }

  /** How often an event of this kind occurs under a name. */
  function Starts(events: seq<Event>, name: string): nat {
    if events == [] then 0
    else
      Starts(events[..|events| - 1], name)
      + (match events[|events| - 1] case Started(_, n) => if n == name then 1 else 0 case _ => 0)
  }

  function Finishes(events: seq<Event>, name: string): nat {
    if events == [] then 0
    else
      Finishes(events[..|events| - 1], name)
      + (match events[|events| - 1] case Finished(_, n, _, _) => if n == name then 1 else 0 case _ => 0)
  }

  /** The starts that all snapshots so far reported for a name. */
  function ReportedStarts(events: seq<Event>, name: string): nat {
    if events == [] then 0
    else
      var before := events[..|events| - 1];
      ReportedStarts(before, name)
      + if events[|events| - 1] == Drain then Get(Snapshot(EntriesOf(before)), name).started else 0
  }

  /**
  Over any interleaving: `running` is the number of handlers in progress, which is starts minus recorded finishes, so
  the saturating decrement never saturates; and `failed` splits into retried and permanently failed.
  */
  lemma {:induction false} RunningCountsOpenHandlers(events: seq<Event>, name: string)
    requires WellFormed(events)
    ensures Get(EntriesOf(events), name).running == |OpenFor(events, name)|
    ensures Starts(events, name) == Finishes(events, name) + |OpenFor(events, name)|
    ensures var s := Get(EntriesOf(events), name); s.failed == s.retried + s.permanentFailed
    decreases |events|
  {
    if events == [] {
      assert OpenFor(events, name) == {};
    } else {
      var before := events[..|events| - 1];
      RunningCountsOpenHandlers(before, name);
      OpenForStep(events, name);
      hide WellFormed, OpenFor, Open;
    }
  }

  /** One event moves the count of open handlers and of starts and finishes of a name together. */
  lemma OpenForStep(events: seq<Event>, name: string)
    requires events != [] && WellFormed(events)
    ensures var before := events[..|events| - 1]; var n := |OpenFor(before, name)|; var m := |OpenFor(events, name)|;
            match events[|events| - 1]
            case Started(_, x) => m == n + if x == name then 1 else 0
            case Finished(_, x, _, _) => n == m + if x == name then 1 else 0
            case Drain => m == n
  {
    hide EntriesAfter, NamedHandlers;
    var before := events[..|events| - 1];
    match events[|events| - 1]
    case Started(h, x) => OpeningAdds(Open(before), h, x, name);
    case Finished(h, x, _, _) => ClosingRemoves(Open(before), h, name);
    case Drain =>
  }

  /** The finishes with this outcome since the last drain. */
  function Outcomes(events: seq<Event>, name: string, outcome: Outcome): nat {
    if events == [] then 0
    else
      match events[|events| - 1]
      case Finished(_, n, o, _) =>
        Outcomes(events[..|events| - 1], name, outcome) + if n == name && o == outcome then 1 else 0
      case Started(_, _) => Outcomes(events[..|events| - 1], name, outcome)
      case Drain => 0
  }

  function ElapsedSum(events: seq<Event>, name: string): nat {
    if events == [] then 0
    else
      match events[|events| - 1]
      case Finished(_, n, _, elapsed) => ElapsedSum(events[..|events| - 1], name) + if n == name then elapsed else 0
      case Started(_, _) => ElapsedSum(events[..|events| - 1], name)
      case Drain => 0
  }

  /** Every counter counts its own outcome, and the total time is their sum up to the largest 64-bit number. */
  lemma {:induction false} CountersCountOutcomes(events: seq<Event>, name: string)
    ensures var s := Get(EntriesOf(events), name);
            && s.succeeded == Outcomes(events, name, Outcome.Succeeded)
            && s.retried == Outcomes(events, name, Failed(false))
            && s.permanentFailed == Outcomes(events, name, Failed(true))
            && s.abandoned == Outcomes(events, name, Abandoned)
            && s.totalElapsed == Min(ElapsedSum(events, name), U64_MAX)
    decreases |events|
  {
    if events != [] {
      CountersCountOutcomes(events[..|events| - 1], name);
    }
  }

  lemma FinishNeverSaturates(events: seq<Event>, h: nat, name: string, outcome: Outcome, elapsed: nat)
    requires WellFormed(events + [Finished(h, name, outcome, elapsed)])
    ensures Get(EntriesOf(events), name).running > 0
  {
    var all := events + [Finished(h, name, outcome, elapsed)];
    assert all[..|all| - 1] == events;
    RunningCountsOpenHandlers(events, name);
    assert h in OpenFor(events, name);
  }

  /** Every start is reported in exactly one snapshot or still in the window. */
  lemma {:induction false} EveryStartReportedOnce(events: seq<Event>, name: string)
    ensures ReportedStarts(events, name) + Get(EntriesOf(events), name).started == Starts(events, name)
    decreases |events|
  {
    if events != [] {
      EveryStartReportedOnce(events[..|events| - 1], name);
    }
  }

  function Completions(s: Summary): nat {
    s.succeeded + s.failed + s.abandoned
  }

  /**
  Completions are different: a drain drops those of a name exactly when nothing of it started in the window and
  nothing of it runs any more.
  */
  lemma CompletionsDroppedExactlyWhen(entries: Entries, name: string)
    ensures Completions(Get(Snapshot(entries), name)) == Completions(Get(entries, name)) <==>
            !(Completions(Get(entries, name)) > 0 && Get(entries, name).started == 0 && Get(entries, name).running == 0)
  {
  }

  /** It happens: the only run of a job ends after the window that saw it start. */
  lemma ADroppedCompletion()
    ensures var events := [Started(0, "job"), Drain, Finished(0, "job", Outcome.Succeeded, 5)];
            && WellFormed(events)
            && Completions(Get(EntriesOf(events), "job")) == 1
            && "job" !in Snapshot(EntriesOf(events))
  {
    var e0, e1, e2 := Started(0, "job"), Drain, Finished(0, "job", Outcome.Succeeded, 5);
    assert [e0, e1, e2][..2] == [e0, e1] && [e0, e1][..1] == [e0] && [e0][..0] == [];
    assert EntriesOf([e0])["job"] == EMPTY.(started := 1, running := 1);
    assert EntriesOf([e0, e1])["job"] == EMPTY.(running := 1);
    assert WellFormed([e0]) && Open([e0]) == map[0 := "job"];
    assert WellFormed([e0, e1]) && Open([e0, e1]) == map[0 := "job"];
  }
}
