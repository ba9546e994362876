/**
Leases in real time. A claim loop renews `locked_at` of the job it handles, a worker refreshes its heartbeat; both
sleep for an interval and then send a statement that may fail. The recovery statements treat a timestamp older than
`stale_after` as abandoned. How slow and how unreliable may the database be before recovery takes a job from a live
loop?
*/
module Lease {
  import opened Prelude
  import opened Jobs

  /**
  `interval` between statements, `delay` that one may take, how many in a row may fail, for how long the refreshing may
  have stopped before the work under the lease ends too, and the age at which recovery takes over. Lock renewal never
  stops early; heartbeats do, when shutdown is requested while handlers may go on for the grace period.
  */
  datatype Params = Params(interval: Time, delay: Time, failures: nat, grace: Time, staleAfter: Time)

  predicate Sensible(c: Params) {
    c.interval > 0 && c.delay >= 0 && c.grace >= 0
  }

  /** What `n` rounds of an interval and a statement take. */
  function Span(c: Params, n: nat): Time {
    n * (c.interval + c.delay)
  }

  lemma SpanStep(c: Params, n: nat)
    ensures Span(c, 0) == 0 && Span(c, n + 1) == Span(c, n) + c.interval + c.delay
  {
    assert (n + 1) * (c.interval + c.delay) == n * (c.interval + c.delay) + (c.interval + c.delay);
  }

  /**
  The longest time between the starts of two statements that succeed, plus the time the second one takes, or plus the
  grace period when the second one is never sent.
  */
  function WorstAge(c: Params): Time {
    Span(c, c.failures + 1) + Max(c.delay, c.grace)
  }

  datatype Phase = Sleeping(since: Time) | Sending(begun: Time, applied: bool) | Stopped(since: Time)

  /**
  The refresher of one timestamp. `stamp` is the database time of the last statement that took effect, `good` the time
  it was sent, and `failed` the number of failures since.
  */
  datatype Refresher = Refresher(clock: Time, stamp: Time, phase: Phase, good: Time, failed: nat)

  datatype Event = Tick(to: Time) | Begin | Apply(now: Time) | End | Stop

  function TimeLimit(c: Params, p: Phase): Time {
    match p
    case Sleeping(since) => since + c.interval
    case Sending(begun, _) => begun + c.delay
    case Stopped(since) => since + c.grace
  }

  /**
  Time passes no further than the timer of a sleep, the allowed duration of a statement or the grace period. A statement
  may begin before the timer, as the completion of a handler does.
  */
  predicate Enabled(c: Params, r: Refresher, e: Event) {
    match e
    case Tick(to) => r.clock <= to <= TimeLimit(c, r.phase)
    case Begin => r.phase.Sleeping?
    case Apply(now) => r.phase.Sending? && !r.phase.applied && r.phase.begun <= now <= r.clock
    case End => r.phase.Sending? && (!r.phase.applied ==> r.failed < c.failures)
    case Stop => r.phase.Sleeping?
  }

  function Step(c: Params, r: Refresher, e: Event): Refresher
    requires Enabled(c, r, e)
  {
    match e
    case Tick(to) => r.(clock := to)
    case Begin => r.(phase := Sending(r.clock, false))
    case Apply(now) => r.(stamp := now, phase := Sending(r.phase.begun, true), good := r.phase.begun, failed := 0)
    case End => r.(phase := Sleeping(r.clock), failed := if r.phase.applied then 0 else r.failed + 1)
    case Stop => r.(phase := Stopped(r.clock))
  }

  ghost predicate Path(c: Params, r: Refresher, events: seq<Event>, end: Refresher)
    decreases |events|
  {
    if events == [] then end == r else Enabled(c, r, events[0]) && Path(c, Step(c, r, events[0]), events[1..], end)
  }

  /** Just after the claim or registration took effect, or was answered: sent at `good`, executed at `stamp`. */
  predicate Start(c: Params, r: Refresher) {
    && (r.phase == Sleeping(r.clock) || r.phase == Sending(r.good, true))
    && r.good <= r.stamp <= r.clock <= r.good + c.delay && r.failed == 0
  }

  predicate Inv(c: Params, r: Refresher) {
    && r.good <= r.stamp && r.failed <= c.failures
    && match r.phase
       case Sleeping(since) =>
         since <= r.clock <= since + c.interval && since <= r.good + c.delay + Span(c, r.failed)
       case Sending(begun, applied) =>
         && begun <= r.clock <= begun + c.delay
         && (applied ==> begun == r.good && r.failed == 0)
         && (!applied ==> begun <= r.good + Span(c, r.failed + 1))
       case Stopped(since) =>
         since <= r.clock <= since + c.grace && since <= r.good + Span(c, r.failed + 1)
  }

  lemma StepKeepsInv(c: Params, r: Refresher, e: Event)
    requires Sensible(c) && Inv(c, r) && Enabled(c, r, e)
    ensures Inv(c, Step(c, r, e))
  {
    hide Span;
    SpanStep(c, r.failed);
  }

  lemma {:induction false} PathKeepsInv(c: Params, r: Refresher, events: seq<Event>, end: Refresher)
    requires Sensible(c) && Inv(c, r) && Path(c, r, events, end)
    ensures Inv(c, end)
    decreases |events|
  {
    if events != [] {
      StepKeepsInv(c, r, events[0]);
      PathKeepsInv(c, Step(c, r, events[0]), events[1..], end);
    }
  }

  lemma AgeIsBounded(c: Params, r: Refresher)
    requires Sensible(c) && Inv(c, r)
    ensures r.clock - r.stamp <= WorstAge(c)
  {
    SpanGrows(c, r.failed + 1, c.failures + 1);
    SpanGrows(c, 1, r.failed + 1);
    SpanStep(c, r.failed);
    SpanStep(c, 0);
    hide Span;
  }

  lemma SpanGrows(c: Params, m: nat, n: nat)
    requires Sensible(c) && m <= n
    ensures Span(c, m) <= Span(c, n)
  {
    MulMonotone(m, n, c.interval + c.delay);
  }

  /** A recovery statement running at `now` takes this timestamp for abandoned. */
  predicate Abandoned(c: Params, r: Refresher, now: Time) {
    now <= r.clock && r.stamp < now - c.staleAfter
  }

  /** No schedule of statements, delays and failures ever makes a live refresher look abandoned. */
  ghost predicate Safe(c: Params) {
    forall start, events, r, now :: Start(c, start) && Path(c, start, events, r) ==> !Abandoned(c, r, now)
  }

  /** The stamp of a live refresher never looks abandoned to a recovery statement that runs at `now`. */
  lemma NeverStale(c: Params, start: Refresher, events: seq<Event>, r: Refresher, now: Time)
    requires Sensible(c) && Start(c, start) && Path(c, start, events, r)
    requires WorstAge(c) <= c.staleAfter
    ensures !Abandoned(c, r, now)
  {
    assert 0 * (c.interval + c.delay) == 0;
    PathKeepsInv(c, start, events, r);
    AgeIsBounded(c, r);
  }

  // ---------------------------------------------------------------- the bound is exact

  /** The slowest schedule: every statement takes the full delay, and as many as allowed fail. */
  function Slowest(c: Params, failed: nat): Refresher
    requires failed <= c.failures
  {
    var since := c.delay + failed * (c.interval + c.delay);
    Refresher(since, 0, Sleeping(since), 0, failed)
  }

  lemma {:induction false} SlowestIsReachable(c: Params, failed: nat) returns (events: seq<Event>)
    requires Sensible(c) && failed <= c.failures
    ensures Path(c, Slowest(c, 0), events, Slowest(c, failed))
    decreases failed
  {
    if failed == 0 {
      events := [];
    } else {
      var before := SlowestIsReachable(c, failed - 1);
      var r := Slowest(c, failed - 1);
      var period := c.interval + c.delay;
      assert failed * period == (failed - 1) * period + period;
      var wake, done := r.clock + c.interval, r.clock + period;
      var r1 := Step(c, r, Tick(wake));
      var r2 := Step(c, r1, Begin);
      var r3 := Step(c, r2, Tick(done));
      assert Step(c, r3, End) == Slowest(c, failed);
      assert Path(c, r3, [End], Slowest(c, failed));
      PathCons(c, r2, Tick(done), [End], Slowest(c, failed));
      PathCons(c, r1, Begin, [Tick(done), End], Slowest(c, failed));
      PathCons(c, r, Tick(wake), [Begin, Tick(done), End], Slowest(c, failed));
      events := before + [Tick(wake), Begin, Tick(done), End];
      PathAppend(c, Slowest(c, 0), before, r, [Tick(wake), Begin, Tick(done), End], Slowest(c, failed));
    }
  }

  lemma PathCons(c: Params, r: Refresher, e: Event, events: seq<Event>, end: Refresher)
    requires Enabled(c, r, e) && Path(c, Step(c, r, e), events, end)
    ensures Path(c, r, [e] + events, end)
  {
    assert ([e] + events)[1..] == events;
  }

  lemma {:induction false} PathAppend(
      c: Params, r: Refresher, a: seq<Event>, mid: Refresher, b: seq<Event>, end: Refresher)
    requires Path(c, r, a, mid) && Path(c, mid, b, end)
    ensures Path(c, r, a + b, end)
    decreases |a|
  {
    if a == [] {
      assert a + b == b;
    } else {
      PathAppend(c, Step(c, r, a[0]), a[1..], mid, b, end);
      assert (a + b)[1..] == a[1..] + b;
    }
  }

  /**
  A live lease is safe under every schedule exactly when `stale_after` covers the worst age; if it does not, the slowest
  schedule lets recovery take it.
  */
  lemma LeaseSafeExactlyWhen(c: Params)
    requires Sensible(c)
    ensures Safe(c) <==> WorstAge(c) <= c.staleAfter
  {
    if WorstAge(c) <= c.staleAfter {
      forall start, events, r, now | Start(c, start) && Path(c, start, events, r) && Abandoned(c, r, now)
        ensures false
      {
        NeverStale(c, start, events, r, now);
      }
    } else {
      var start := Slowest(c, 0);
      var before := SlowestIsReachable(c, c.failures);
      var last, end := LastLeg(c);
      PathAppend(c, start, before, Slowest(c, c.failures), last, end);
      assert 0 * (c.interval + c.delay) == 0;
      assert Start(c, start) && Abandoned(c, end, end.clock);
    }
  }

  /** After the last allowed failure: one more sleep, and then a slow statement, or none and the whole grace period. */
  lemma LastLeg(c: Params) returns (events: seq<Event>, end: Refresher)
    requires Sensible(c)
    ensures Path(c, Slowest(c, c.failures), events, end) && end.clock == WorstAge(c) && end.stamp == 0
  {
    var r := Slowest(c, c.failures);
    SpanStep(c, c.failures);
    var wake, late := r.clock + c.interval, r.clock + c.interval + Max(c.delay, c.grace);
    var next := if c.delay >= c.grace then Begin else Stop;
    var r1 := Step(c, r, Tick(wake));
    var r2 := Step(c, r1, next);
    end := Step(c, r2, Tick(late));
    assert Path(c, r2, [Tick(late)], end) by {
      assert Path(c, end, [], end);
    }
    PathCons(c, r1, next, [Tick(late)], end);
    PathCons(c, r, Tick(wake), [next, Tick(late)], end);
    events := [Tick(wake), next, Tick(late)];
  }

  // ---------------------------------------------------------------- the configuration

  /** The settings `WorkerConfig::validate` looks at, and the grace period of a shutdown, which it does not. */
  datatype Config = Config(
    concurrency: nat,
    pollInterval: nat,
    cronPollInterval: nat,
    heartbeatInterval: nat,
    lockRenewInterval: nat,
    recoveryInterval: nat,
    staleAfter: nat,
    shutdownGracePeriod: nat
  )

  const DEFAULT_CONFIG := Config(4, 30 * SECOND, 30 * SECOND, 15 * SECOND, 30 * SECOND, 60 * SECOND, 600 * SECOND,
                                 30 * SECOND)

  function Validate(c: Config): (r: Result<(), string>) {
    if c.concurrency == 0 then Err("concurrency must be greater than zero")
    else if c.pollInterval == 0 then Err("poll_interval must be greater than zero")
    else if c.cronPollInterval == 0 then Err("cron_poll_interval must be greater than zero")
    else if c.heartbeatInterval == 0 then Err("heartbeat_interval must be greater than zero")
    else if c.lockRenewInterval == 0 then Err("lock_renew_interval must be greater than zero")
    else if c.recoveryInterval == 0 then Err("recovery_interval must be greater than zero")
    else if c.staleAfter <= c.heartbeatInterval then Err("stale_after must be greater than heartbeat_interval")
    else if c.staleAfter <= c.lockRenewInterval then Err("stale_after must be greater than lock_renew_interval")
    else Ok(())
  }

  /** Accepted exactly when there is a claim loop, every interval is positive and both leases outlast theirs. */
  lemma AcceptedExactlyWhen(c: Config)
    ensures Validate(c).Ok? <==>
            && c.concurrency > 0 && c.pollInterval > 0 && c.cronPollInterval > 0 && c.recoveryInterval > 0
            && 0 < c.heartbeatInterval < c.staleAfter && 0 < c.lockRenewInterval < c.staleAfter
  {
  }

  /** The two leases of a worker, when every statement takes at most `delay` and at most `failures` in a row fail. */
  function LockLease(c: Config, delay: nat, failures: nat): Params {
    Params(c.lockRenewInterval, delay, failures, 0, c.staleAfter)
  }

  function HeartbeatLease(c: Config, delay: nat, failures: nat): Params {
    Params(c.heartbeatInterval, delay, failures, c.shutdownGracePeriod, c.staleAfter)
  }

  /**
  What `validate` buys when no statement fails. The lock of an accepted configuration is safe exactly for delays up to
  half of what `stale_after` exceeds the interval by, and the heartbeat too, unless the grace period needs more. A
  configuration refused for `stale_after` leaves one of them unsafe for every positive delay.
  */
  lemma ValidatedConfigHasSlack(c: Config, delay: nat)
    requires c.heartbeatInterval > 0 && c.lockRenewInterval > 0
    ensures Validate(c).Ok? ==> (Safe(LockLease(c, delay, 0)) <==> 2 * delay <= c.staleAfter - c.lockRenewInterval)
    ensures Validate(c).Ok? ==>
              (Safe(HeartbeatLease(c, delay, 0)) <==>
               delay + Max(delay, c.shutdownGracePeriod) <= c.staleAfter - c.heartbeatInterval)
    ensures Validate(c) == Err("stale_after must be greater than heartbeat_interval") && delay > 0 ==>
              !Safe(HeartbeatLease(c, delay, 0))
    ensures Validate(c) == Err("stale_after must be greater than lock_renew_interval") && delay > 0 ==>
              !Safe(LockLease(c, delay, 0))
  {
    LeaseSafeExactlyWhen(LockLease(c, delay, 0));
    LeaseSafeExactlyWhen(HeartbeatLease(c, delay, 0));
    hide Safe;
  }

  /** The defaults are safe exactly as long as no statement takes more than 285 seconds. */
  lemma DefaultsAreSafeExactlyWhen(delay: nat)
    ensures Validate(DEFAULT_CONFIG).Ok?
    ensures Safe(LockLease(DEFAULT_CONFIG, delay, 0)) && Safe(HeartbeatLease(DEFAULT_CONFIG, delay, 0)) <==>
            delay <= 285 * SECOND
  {
    ValidatedConfigHasSlack(DEFAULT_CONFIG, delay);
    hide Safe;
  }

  /**
  A grace period as long as `stale_after` passes validation, but heartbeats end when shutdown is requested: jobs still
  running in the grace period can be taken for those of a dead worker, however fast the database answers.
  */
  lemma LongGraceIsAcceptedButUnsafe()
    ensures var c := DEFAULT_CONFIG.(shutdownGracePeriod := 600 * SECOND);
            Validate(c).Ok? && forall delay: nat :: !Safe(HeartbeatLease(c, delay, 0))
  {
    var c := DEFAULT_CONFIG.(shutdownGracePeriod := 600 * SECOND);
    forall delay: nat ensures !Safe(HeartbeatLease(c, delay, 0)) {
      ValidatedConfigHasSlack(c, delay);
    }
    hide Safe;
  }
}
