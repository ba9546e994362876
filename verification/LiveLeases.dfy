/**
The protocol in real time: the transition system of `Protocol` with a clock, the registrations of workers, and the two
refreshers of `Lease` at work, one for the lock of every job a loop handles and one for the heartbeat of every worker.
What recovery reads are the timestamps the refreshers wrote, and so it never takes a job from a live loop.
*/
module LiveLeases {
  import opened Prelude
  import opened Jobs
  import opened TableInvariant
  import opened Claiming
  import opened Ownership
  import opened Protocol
  import opened ProtocolInvariant
  import opened ProtocolTheorems
  import Lease

  /**
  The slowest lock renewal and heartbeat that any worker of the deployment has, the shortest `stale_after` any of them
  recovers with, and the ids of all workers.
  */
  datatype Setup = Setup(lock: Lease.Params, beat: Lease.Params, workers: set<string>)

  ghost predicate Sound(c: Setup) {
    && Lease.Sensible(c.lock) && Lease.Sensible(c.beat)
    && Lease.WorstAge(c.lock) <= c.lock.staleAfter && Lease.WorstAge(c.beat) <= c.beat.staleAfter
    && forall a, b :: a in c.workers && b in c.workers && a != b ==> !Confusable(a, b)
  }

  /**
  `registered` is the workers table, `leases` the lock of every handling loop, `beats` that of every running worker.
  */
  datatype World = World(
    s: State,
    clock: Time,
    registered: map<string, Time>,
    leases: map<string, Lease.Refresher>,
    beats: map<string, Lease.Refresher>
  )

  const START := World(INITIAL, 0, map[], map[], map[])

  /**
  What can happen: time passes; a loop sends a renewal or a result, and is answered; a worker registers, sends a
  heartbeat that executes and is answered, stops its heartbeat when shutdown is requested, leaves when its loops have
  ended, and removes its registration; or an event of the protocol. `begun` is when the claim that an event commits
  was sent.
  */
  datatype Happening =
    | Passes(to: Time)
    | Sends(owner: string)
    | IsAnswered(owner: string)
    | Registers(worker: string, begun: Time, at: Time)
    | SendsBeat(worker: string)
    | BeatExecutes(worker: string, at: Time)
    | BeatIsAnswered(worker: string)
    | StopsBeating(worker: string)
    | Leaves(worker: string)
    | Deregisters(worker: string)
    | Does(e: Event, begun: Time)

  /** The protocol events that depend on time. */
  ghost predicate Timely(c: Setup, w: World, e: Event, begun: Time)
    requires Enabled(w.s, e)
  {
    match e
    case StartLoop(_, worker, _, _, _) => worker in w.beats
    case CommitClaim(owner, heard) =>
      heard ==> begun <= w.s.loops[owner].phase.at <= w.clock <= begun + c.lock.delay
    case Renew(owner, at, applied, _) =>
      owner in w.leases && (applied ==> Lease.Enabled(c.lock, w.leases[owner], Lease.Apply(at)))
    case Finish(owner, _, _, _) => owner in w.leases && w.leases[owner].phase.Sending?
    case Statement(u, at) =>
      && (u.RecoverStale? ==> at <= w.clock && c.lock.staleAfter <= u.staleAfter)
      && (u.RecoverDead? ==>
            at <= w.clock && exists age :: c.beat.staleAfter <= age && u.dead == Dead(w.registered, age, at))
    case _ => true
  }

  ghost predicate CanHappen(c: Setup, w: World, h: Happening) {
    match h
    case Passes(to) =>
      && w.clock <= to
      && (forall owner :: owner in w.leases ==> Lease.Enabled(c.lock, w.leases[owner], Lease.Tick(to)))
      && (forall worker :: worker in w.beats ==> Lease.Enabled(c.beat, w.beats[worker], Lease.Tick(to)))
    case Sends(owner) => owner in w.leases && Lease.Enabled(c.lock, w.leases[owner], Lease.Begin)
    case IsAnswered(owner) => owner in w.leases && Lease.Enabled(c.lock, w.leases[owner], Lease.End)
    case Registers(worker, begun, at) =>
      worker in c.workers && worker !in w.beats && begun <= at <= w.clock <= begun + c.beat.delay
    case SendsBeat(worker) => worker in w.beats && Lease.Enabled(c.beat, w.beats[worker], Lease.Begin)
    case BeatExecutes(worker, at) => worker in w.beats && Lease.Enabled(c.beat, w.beats[worker], Lease.Apply(at))
    case BeatIsAnswered(worker) => worker in w.beats && Lease.Enabled(c.beat, w.beats[worker], Lease.End)
    case StopsBeating(worker) => worker in w.beats && Lease.Enabled(c.beat, w.beats[worker], Lease.Stop)
    case Leaves(worker) =>
      forall owner :: owner in w.s.loops && w.s.loops[owner].worker == worker ==> w.s.loops[owner].phase == Ended
    case Deregisters(worker) => worker !in w.beats
    case Does(e, begun) => Enabled(w.s, e) && Timely(c, w, e, begun)
  }

  function TickAll(c: Lease.Params, refreshers: map<string, Lease.Refresher>, to: Time): map<string, Lease.Refresher> {
    map name | name in refreshers :: refreshers[name].(clock := to)
  }

  function Refreshed(c: Lease.Params, refreshers: map<string, Lease.Refresher>, name: string, e: Lease.Event)
    : map<string, Lease.Refresher>
    requires name in refreshers && Lease.Enabled(c, refreshers[name], e)
  {
    refreshers[name := Lease.Step(c, refreshers[name], e)]
  }

  /** Force-unlock and dead-worker recovery remove registrations in the same statement. */
  function RegisteredAfter(registered: map<string, Time>, e: Event): map<string, Time> {
    if e.Statement? && e.u.ForceUnlock? then registered - {e.u.worker}
    else if e.Statement? && e.u.RecoverDead? then registered - e.u.dead
    else registered
  }

  /**
  A claim that is heard of starts the lease of its job; it ends with the result, the loss of the lock, or the loop.
  */
  ghost function LeasesAfter(c: Setup, w: World, e: Event, begun: Time): map<string, Lease.Refresher>
    requires Enabled(w.s, e) && Timely(c, w, e, begun)
  {
    match e
    case CommitClaim(owner, heard) =>
      var p := w.s.loops[owner].phase;
      if heard && p.id in w.s.jobs then
        w.leases[owner := Lease.Refresher(w.clock, p.at, Lease.Sending(begun, true), begun, 0)]
      else w.leases
    case Renew(owner, at, applied, stop) =>
      if stop then w.leases - {owner}
      else if applied then Refreshed(c.lock, w.leases, owner, Lease.Apply(at))
      else w.leases
    case Finish(owner, _, _, _) => w.leases - {owner}
    case Abort(owner) => w.leases - {owner}
    case _ => w.leases
  }

  ghost function After(c: Setup, w: World, h: Happening): World
    requires CanHappen(c, w, h)
  {
    match h
    case Passes(to) => w.(clock := to, leases := TickAll(c.lock, w.leases, to), beats := TickAll(c.beat, w.beats, to))
    case Sends(owner) => w.(leases := Refreshed(c.lock, w.leases, owner, Lease.Begin))
    case IsAnswered(owner) => w.(leases := Refreshed(c.lock, w.leases, owner, Lease.End))
    case Registers(worker, begun, at) =>
      w.(registered := w.registered[worker := at],
         beats := w.beats[worker := Lease.Refresher(w.clock, at, Lease.Sending(begun, true), begun, 0)])
    case SendsBeat(worker) => w.(beats := Refreshed(c.beat, w.beats, worker, Lease.Begin))
    case BeatExecutes(worker, at) =>
      w.(registered := w.registered[worker := at], beats := Refreshed(c.beat, w.beats, worker, Lease.Apply(at)))
    case BeatIsAnswered(worker) => w.(beats := Refreshed(c.beat, w.beats, worker, Lease.End))
    case StopsBeating(worker) => w.(beats := Refreshed(c.beat, w.beats, worker, Lease.Stop))
    case Leaves(worker) => w.(beats := w.beats - {worker})
    case Deregisters(worker) => w.(registered := w.registered - {worker})
    case Does(e, begun) =>
      w.(s := Step(w.s, e), registered := RegisteredAfter(w.registered, e), leases := LeasesAfter(c, w, e, begun))
  }

  // ---------------------------------------------------------------- the invariant

  /** Every refresher shows the time and keeps the invariant of its lease. */
  ghost predicate Ticking(c: Lease.Params, refreshers: map<string, Lease.Refresher>, clock: Time) {
    forall name :: name in refreshers ==> refreshers[name].clock == clock && Lease.Inv(c, refreshers[name])
  }

  ghost predicate Handles(s: State, owner: string) {
    owner in s.loops && s.loops[owner].phase.Handling?
  }

  /** While the claim a loop holds is current, the lock time of its job is the one its refresher wrote last. */
  ghost predicate LockShows(s: State, owner: string, r: Lease.Refresher) {
    && Handles(s, owner)
    && var p := s.loops[owner].phase;
       Current(s, p.id, p.claim) ==> s.jobs[p.id].lockedAt == Some(r.stamp)
  }

  ghost predicate LeasesOk(c: Setup, w: World) {
    && Ticking(c.lock, w.leases, w.clock)
    && (forall owner :: Handles(w.s, owner) ==> owner in w.leases)
    && (forall owner :: owner in w.leases ==> LockShows(w.s, owner, w.leases[owner]))
  }

  /** The registration of a running worker shows the heartbeat its refresher wrote last, unless it was removed. */
  ghost predicate BeatsOk(c: Setup, w: World) {
    && Ticking(c.beat, w.beats, w.clock)
    && w.beats.Keys <= c.workers && w.registered.Keys <= c.workers
    && (forall worker :: worker in w.beats && worker in w.registered ==> w.registered[worker] == w.beats[worker].stamp)
    && (forall owner :: owner in w.s.loops && w.s.loops[owner].phase != Ended ==> w.s.loops[owner].worker in w.beats)
  }

  ghost predicate WorldOk(c: Setup, w: World) {
    Inv(w.s) && LeasesOk(c, w) && BeatsOk(c, w)
  }

  // ---------------------------------------------------------------- what a protocol event does to locks and loops

  /** A current claim keeps its owner, and only its own renewal moves the lock time. */
  lemma LockTimeStays(s: State, e: Event, id: Id, claim: nat)
    requires Inv(s) && Enabled(s, e) && Current(s, id, claim) && Current(Step(s, e), id, claim)
    ensures Step(s, e).jobs[id].lockedBy == s.jobs[id].lockedBy
    ensures var renews :=
              e.Renew? && e.applied && s.loops[e.owner].phase.id == id && s.jobs[id].lockedBy == Some(e.owner);
            Step(s, e).jobs[id].lockedAt == if renews then Some(e.at) else s.jobs[id].lockedAt
  {
    StepByChange(s, e);
    TableIdsAreBorn(s, id);
    LockAfterChangeStays(s, ChangeOf(s, e), id, claim);
    hide Inv, Enabled, Step, Current, Changed, Legal;
    RenewalIs(s, e);
    hide ChangeOf;
  }

  lemma RenewalIs(s: State, e: Event)
    requires Enabled(s, e)
    ensures var c := ChangeOf(s, e);
            c.Updates? && c.u.RenewLock? <==> e.Renew? && e.applied
    ensures e.Renew? && e.applied ==> ChangeOf(s, e) == Updates(RenewLock(s.loops[e.owner].phase.id, e.owner), e.at)
  {
    hide Execute, RespectsLocks, Selectable, Claimable;
  }

  lemma RowLockStays(u: Update, id: Id, r: Row, at: Time)
    requires Selects(u, id, r, at) && RowOk(r) && r.status == Running && SetRow(u, r, at).status == Running && !u.Claim?
    ensures SetRow(u, r, at).lockedBy == r.lockedBy
    ensures SetRow(u, r, at).lockedAt == if u.RenewLock? then Some(at) else r.lockedAt
  {
  }

  lemma RenewalSelects(u: Update, id: Id, r: Row, at: Time)
    requires u.RenewLock? && r.status == Running
    ensures Selects(u, id, r, at) <==> u.id == id && r.lockedBy == Some(u.owner)
  {
  }

  lemma LockAfterChangeStays(s: State, c: Change, id: Id, claim: nat)
    requires Inv(s) && Legal(s, c) && Current(s, id, claim) && Current(Changed(s, c), id, claim) && RowOk(s.jobs[id])
    ensures var r, after := s.jobs[id], Changed(s, c).jobs[id];
            && after.lockedBy == r.lockedBy
            && after.lockedAt ==
               if c.Updates? && c.u.RenewLock? && c.u.id == id && r.lockedBy == Some(c.u.owner) then Some(c.at)
               else r.lockedAt
  {
    hide Inv, Run, RunEnqueue, Execute, Claimable, Selects, SetRow, LedgerAfter, HonestFailure, RowOk, Prunable;
    match c
    case Updates(u, at) =>
      RunAt(s, u, at, id);
      if u.RenewLock? {
        RenewalSelects(u, id, s.jobs[id], at);
      }
      if Selects(u, id, s.jobs[id], at) {
        ClaimIdIs(u, id, s.jobs[id], at);
        RowLockStays(u, id, s.jobs[id], at);
      }
    case Inserts(newId, q, at) => EnqueueAt(s, newId, q, at, id);
    case _ =>
  }

  /** Which loops handle a job after an event: those that did, unless it ends that, and one that hears of its claim. */
  lemma HandlingAfter(s: State, e: Event, owner: string)
    requires Enabled(s, e) && Handles(Step(s, e), owner)
    ensures || (e.CommitClaim? && e.heard && e.owner == owner)
            || (Handles(s, owner) && s.loops[owner].phase == Step(s, e).loops[owner].phase)
    ensures e.Finish? || e.Abort? || (e.Renew? && e.stop) ==> e.owner != owner
  {
    hide Run, RunEnqueue, RunPrune, Apply, Upsert, Execute, RespectsLocks, Claimable, Candidates, IsResult, Selectable,
         RowLocked, Affected, FormatOwner;
  }

  lemma StillHandling(s: State, e: Event, owner: string)
    requires Enabled(s, e) && Handles(s, owner)
    requires !((e.Finish? || e.Abort? || (e.Renew? && e.stop)) && e.owner == owner)
    ensures Handles(Step(s, e), owner) && Step(s, e).loops[owner] == s.loops[owner]
  {
    hide Run, RunEnqueue, RunPrune, Apply, Upsert, Execute, RespectsLocks, Claimable, Candidates, IsResult, Selectable,
         RowLocked, Affected, FormatOwner;
  }

  // ---------------------------------------------------------------- leases keep up

  /** A refresher that is not touched shows the lock time of its job after every event of the others. */
  lemma UntouchedLeaseShows(s: State, e: Event, owner: string, r: Lease.Refresher)
    requires Inv(s) && Enabled(s, e) && LockShows(s, owner, r)
    requires !((e.Finish? || e.Abort? || (e.Renew? && (e.applied || e.stop))) && e.owner == owner)
    ensures LockShows(Step(s, e), owner, r)
  {
    hide Inv, Enabled, Step, Current;
    StillHandling(s, e, owner);
    var p := s.loops[owner].phase;
    if Current(Step(s, e), p.id, p.claim) {
      WasCurrent(s, e, owner);
      LockTimeStays(s, e, p.id, p.claim);
      LockIsOwn(s, owner);
    }
  }

  /** The claim a loop handles is current after an event only if it was before. */
  lemma WasCurrent(s: State, e: Event, owner: string)
    requires Inv(s) && Enabled(s, e) && Handles(s, owner)
    requires var p := s.loops[owner].phase; Current(Step(s, e), p.id, p.claim)
    ensures var p := s.loops[owner].phase; Current(s, p.id, p.claim)
  {
    var p := s.loops[owner].phase;
    LoopIsFenced(s, owner);
    hide Inv, Enabled, Step, Current;
    if !Current(s, p.id, p.claim) {
      StepKeepsLost(s, e, p.id, p.claim);
    }
  }

  lemma LockIsOwn(s: State, owner: string)
    requires Inv(s) && Handles(s, owner)
    requires var p := s.loops[owner].phase; Current(s, p.id, p.claim)
    ensures var p := s.loops[owner].phase;
            && p.id in s.jobs && p.id in s.ledgers
            && s.jobs[p.id].lockedBy == Some(owner) && s.jobs[p.id].status == Running && RowOk(s.jobs[p.id])
  {
    LoopIsFenced(s, owner);
    hide Inv;
  }

  lemma RenewedLeaseShows(s: State, e: Event, owner: string, r: Lease.Refresher)
    requires Inv(s) && Enabled(s, e) && Handles(s, owner)
    requires e.Renew? && e.owner == owner && e.applied && !e.stop && r.stamp == e.at
    ensures LockShows(Step(s, e), owner, r)
  {
    hide Inv, Enabled, Step, Current;
    StillHandling(s, e, owner);
    var p := s.loops[owner].phase;
    if Current(Step(s, e), p.id, p.claim) {
      WasCurrent(s, e, owner);
      LockTimeStays(s, e, p.id, p.claim);
      LockIsOwn(s, owner);
    }
  }

  lemma ClaimedLeaseShows(s: State, e: Event, owner: string, r: Lease.Refresher)
    requires Inv(s) && Enabled(s, e) && e.CommitClaim? && e.heard && e.owner == owner
    requires s.loops[owner].phase.id in s.jobs && r.stamp == s.loops[owner].phase.at
    ensures LockShows(Step(s, e), owner, r)
  {
    hide Inv, Run, Execute, Current, SetRow, Selects;
    var p := s.loops[owner].phase;
    SelectedRowIsQueued(s, owner);
    StepByChange(s, e);
    RunAt(s, Claim(p.id, owner), p.at, p.id);
    ClaimStamps(p.id, owner, s.jobs[p.id], p.at);
    HeardLoopHandles(s, e);
    hide Step, ChangeOf, Legal;
  }

  lemma ClaimStamps(id: Id, owner: string, r: Row, at: Time)
    ensures Selects(Claim(id, owner), id, r, at) && SetRow(Claim(id, owner), r, at).lockedAt == Some(at)
  {
  }

  lemma HeardLoopHandles(s: State, e: Event)
    requires Enabled(s, e) && e.CommitClaim? && e.heard && s.loops[e.owner].phase.id in s.jobs
    ensures Handles(Step(s, e), e.owner) && Step(s, e).loops[e.owner].phase.id == s.loops[e.owner].phase.id
  {
    hide Execute, Selects, SetRow, Notifies, Sent, LedgerAfter;
  }

  lemma LeasesStayOk(c: Setup, w: World, e: Event, begun: Time)
    requires Sound(c) && WorldOk(c, w) && CanHappen(c, w, Does(e, begun))
    ensures LeasesOk(c, After(c, w, Does(e, begun)))
  {
    hide Inv, Enabled, Step, LockShows, BeatsOk;
    var after := After(c, w, Does(e, begun));
    LeasesKeepTicking(c, w, e, begun);
    forall owner | Handles(after.s, owner) ensures owner in after.leases {
      HandlingAfter(w.s, e, owner);
      if e.CommitClaim? && e.heard && e.owner == owner {
        CommitFindsTheRow(w.s, e);
      }
    }
    forall owner | owner in after.leases ensures LockShows(after.s, owner, after.leases[owner]) {
      LeaseStillShows(c, w, e, begun, owner);
    }
  }

  lemma CommitFindsTheRow(s: State, e: Event)
    requires Inv(s) && Enabled(s, e) && e.CommitClaim?
    ensures e.owner in s.loops && s.loops[e.owner].phase.Selecting? && s.loops[e.owner].phase.id in s.jobs
    ensures !Handles(s, e.owner)
  {
    SelectedRowIsQueued(s, e.owner);
    hide Inv, Execute;
  }

  lemma LeasesKeepTicking(c: Setup, w: World, e: Event, begun: Time)
    requires Sound(c) && Ticking(c.lock, w.leases, w.clock) && Enabled(w.s, e) && Timely(c, w, e, begun)
    ensures Ticking(c.lock, LeasesAfter(c, w, e, begun), w.clock)
  {
    hide Enabled;
    if e.Renew? && e.applied && !e.stop {
      Lease.StepKeepsInv(c.lock, w.leases[e.owner], Lease.Apply(e.at));
    }
  }

  lemma LeaseStillShows(c: Setup, w: World, e: Event, begun: Time, owner: string)
    requires Sound(c) && Inv(w.s) && LeasesOk(c, w) && Enabled(w.s, e) && Timely(c, w, e, begun)
    requires owner in LeasesAfter(c, w, e, begun)
    ensures LockShows(Step(w.s, e), owner, LeasesAfter(c, w, e, begun)[owner])
  {
    hide Inv, Enabled, Step, LockShows, Ticking, Lease.Inv;
    var r := LeasesAfter(c, w, e, begun)[owner];
    if e.CommitClaim? && e.heard && e.owner == owner {
      CommitFindsTheRow(w.s, e);
      ClaimedLeaseShows(w.s, e, owner, r);
    } else if e.Renew? && e.owner == owner && e.applied && !e.stop {
      LeaseIsHandled(w, owner);
      RenewedLeaseShows(w.s, e, owner, r);
    } else {
      UntouchedLeaseShows(w.s, e, owner, r);
    }
  }

  lemma LeaseIsHandled(w: World, owner: string)
    requires owner in w.leases && LockShows(w.s, owner, w.leases[owner])
    ensures Handles(w.s, owner)
  {
  }

  // ---------------------------------------------------------------- the other parts of the invariant

  lemma BeatsStayOk(c: Setup, w: World, e: Event, begun: Time)
    requires BeatsOk(c, w) && CanHappen(c, w, Does(e, begun))
    ensures BeatsOk(c, After(c, w, Does(e, begun)))
  {
    LoopsAfter(w.s, e);
    hide Enabled, Step, Ticking;
    StartsInBeats(c, w, e, begun);
  }

  lemma StartsInBeats(c: Setup, w: World, e: Event, begun: Time)
    requires Enabled(w.s, e) && Timely(c, w, e, begun)
    ensures e.StartLoop? ==> e.worker in w.beats
  {
  }

  lemma RefreshersTick(c: Lease.Params, refreshers: map<string, Lease.Refresher>, clock: Time, to: Time)
    requires Lease.Sensible(c) && Ticking(c, refreshers, clock)
    requires forall name :: name in refreshers ==> Lease.Enabled(c, refreshers[name], Lease.Tick(to))
    ensures Ticking(c, TickAll(c, refreshers, to), to)
  {
    forall name | name in refreshers ensures Lease.Inv(c, refreshers[name].(clock := to)) {
      Lease.StepKeepsInv(c, refreshers[name], Lease.Tick(to));
    }
  }

  lemma OneRefresherSteps(
      c: Lease.Params, refreshers: map<string, Lease.Refresher>, clock: Time, name: string, e: Lease.Event)
    requires Lease.Sensible(c) && Ticking(c, refreshers, clock) && !e.Tick?
    requires name in refreshers && Lease.Enabled(c, refreshers[name], e)
    ensures Ticking(c, Refreshed(c, refreshers, name, e), clock)
    ensures Refreshed(c, refreshers, name, e)[name].stamp == if e.Apply? then e.now else refreshers[name].stamp
  {
    Lease.StepKeepsInv(c, refreshers[name], e);
  }

  /** The invariant is inductive. */
  lemma WorldStaysOk(c: Setup, w: World, h: Happening)
    requires Sound(c) && WorldOk(c, w) && CanHappen(c, w, h)
    ensures WorldOk(c, After(c, w, h))
  {
    match h
    case Does(e, begun) =>
      StepKeepsInv(w.s, e);
      LeasesStayOk(c, w, e, begun);
      BeatsStayOk(c, w, e, begun);
      hide Inv, LeasesOk, BeatsOk, Enabled, Timely, Step, LeasesAfter;
    case _ => RefreshingStaysOk(c, w, h);
  }

  lemma RefreshingStaysOk(c: Setup, w: World, h: Happening)
    requires Sound(c) && WorldOk(c, w) && CanHappen(c, w, h) && !h.Does?
    ensures WorldOk(c, After(c, w, h))
  {
    hide Inv, LeasesOk, BeatsOk, CanHappen, Sound;
    LeasesWhileRefreshing(c, w, h);
    BeatsWhileRefreshing(c, w, h);
  }

  lemma LeasesWhileRefreshing(c: Setup, w: World, h: Happening)
    requires Sound(c) && LeasesOk(c, w) && CanHappen(c, w, h) && !h.Does?
    ensures LeasesOk(c, After(c, w, h))
  {
    hide Lease.Inv, Lease.Step, Lease.Enabled, Current;
    match h
    case Passes(to) => RefreshersTick(c.lock, w.leases, w.clock, to);
    case Sends(owner) => OneRefresherSteps(c.lock, w.leases, w.clock, owner, Lease.Begin);
    case IsAnswered(owner) => OneRefresherSteps(c.lock, w.leases, w.clock, owner, Lease.End);
    case _ =>
  }

  lemma BeatsWhileRefreshing(c: Setup, w: World, h: Happening)
    requires Sound(c) && BeatsOk(c, w) && CanHappen(c, w, h) && !h.Does?
    ensures BeatsOk(c, After(c, w, h))
  {
    hide Lease.Inv, Lease.Step, Lease.Enabled;
    match h
    case Passes(to) => RefreshersTick(c.beat, w.beats, w.clock, to);
    case Registers(worker, begun, at) => NewBeatIsOk(c, w, begun, at);
    case SendsBeat(worker) => OneRefresherSteps(c.beat, w.beats, w.clock, worker, Lease.Begin);
    case BeatExecutes(worker, at) => OneRefresherSteps(c.beat, w.beats, w.clock, worker, Lease.Apply(at));
    case BeatIsAnswered(worker) => OneRefresherSteps(c.beat, w.beats, w.clock, worker, Lease.End);
    case StopsBeating(worker) => OneRefresherSteps(c.beat, w.beats, w.clock, worker, Lease.Stop);
    case _ =>
  }

  lemma NewBeatIsOk(c: Setup, w: World, begun: Time, at: Time)
    requires begun <= at <= w.clock <= begun + c.beat.delay
    ensures Lease.Inv(c.beat, Lease.Refresher(w.clock, at, Lease.Sending(begun, true), begun, 0))
  {
  }

  // ---------------------------------------------------------------- runs

  ghost predicate History(c: Setup, w: World, happenings: seq<Happening>, end: World)
    decreases |happenings|
  {
    if happenings == [] then end == w
    else CanHappen(c, w, happenings[0]) && History(c, After(c, w, happenings[0]), happenings[1..], end)
  }

  ghost predicate Possible(c: Setup, w: World) {
    exists happenings :: History(c, START, happenings, w)
  }

  lemma {:induction false} HistoryStaysOk(c: Setup, w: World, happenings: seq<Happening>, end: World)
    requires Sound(c) && WorldOk(c, w) && History(c, w, happenings, end)
    ensures WorldOk(c, end)
    decreases |happenings|
  {
    hide WorldOk, CanHappen, After;
    if happenings != [] {
      WorldStaysOk(c, w, happenings[0]);
      HistoryStaysOk(c, After(c, w, happenings[0]), happenings[1..], end);
    }
  }

  lemma PossibleIsOk(c: Setup, w: World)
    requires Sound(c) && Possible(c, w)
    ensures WorldOk(c, w)
  {
    InitialInv();
    assert WorldOk(c, START);
    hide WorldOk;
    var happenings :| History(c, START, happenings, w);
    HistoryStaysOk(c, START, happenings, w);
  }

  // ---------------------------------------------------------------- recovery spares live jobs

  /** The loop handles the job, and its claim is the row's current one. */
  ghost predicate Holds(s: State, owner: string, id: Id, claim: nat) {
    Handles(s, owner) && s.loops[owner].phase.id == id && s.loops[owner].phase.claim == claim && Current(s, id, claim)
  }

  lemma LockIsYoung(c: Setup, w: World, owner: string, id: Id, claim: nat, at: Time, age: Time)
    requires Sound(c) && WorldOk(c, w) && Holds(w.s, owner, id, claim) && at <= w.clock && c.lock.staleAfter <= age
    ensures !Selects(RecoverStale(age), id, w.s.jobs[id], at)
  {
    assert LockShows(w.s, owner, w.leases[owner]);
    Lease.AgeIsBounded(c.lock, w.leases[owner]);
    hide Inv, Lease.Inv, Lease.WorstAge;
  }

  lemma WorkerIsNotDead(c: Setup, w: World, owner: string, id: Id, claim: nat, at: Time, age: Time)
    requires Sound(c) && WorldOk(c, w) && Holds(w.s, owner, id, claim) && at <= w.clock && c.beat.staleAfter <= age
    ensures !Selects(RecoverDead(Dead(w.registered, age, at)), id, w.s.jobs[id], at)
  {
    var worker := w.s.loops[owner].worker;
    Lease.AgeIsBounded(c.beat, w.beats[worker]);
    assert worker !in Dead(w.registered, age, at);
    LockIsOwn(w.s, owner);
    LoopsAreIssued(w.s, owner);
    hide Inv, Lease.Inv, Lease.WorstAge, OwnedBy, Confusable, Current;
    var index, suffix :| IsOwnerOf(owner, worker, index, suffix);
    forall dead | dead in Dead(w.registered, age, at) ensures !OwnedBy(dead, owner) {
      SeparateExactlyWhen(dead, worker, suffix);
    }
  }

  /**
  Lease safety: in every history of a deployment within the bounds, no recovery statement of any worker selects the
  job of a live loop, one that still handles the job under its current claim.
  */
  lemma RecoverySparesLiveJobs(c: Setup, w: World, u: Update, at: Time, begun: Time, owner: string, id: Id, claim: nat)
    requires Sound(c) && Possible(c, w) && Holds(w.s, owner, id, claim)
    requires u.RecoverStale? || u.RecoverDead?
    requires CanHappen(c, w, Does(Statement(u, at), begun))
    ensures id !in Affected(w.s.jobs, u, at)
  {
    PossibleIsOk(c, w);
    hide WorldOk, Enabled, Selects;
    if u.RecoverStale? {
      LockIsYoung(c, w, owner, id, claim, at, u.staleAfter);
    } else {
      var age :| c.beat.staleAfter <= age && u.dead == Dead(w.registered, age, at);
      WorkerIsNotDead(c, w, owner, id, claim, at, age);
    }
  }

  // ---------------------------------------------------------------- what ends a claim

  /**
  The loop sends its result or ends; an operator completes, fails or force-unlocks the job; or a worker with this id
  releases its jobs on shutdown.
  */
  predicate EndsClaim(e: Event, owner: string, id: Id) {
    || ((e.Finish? || e.Abort?) && e.owner == owner)
    || (e.Statement? && (e.u.PermanentlyFail? || e.u.CompleteJob?) && e.u.id == id)
    || (e.Statement? && (e.u.Release? || e.u.ForceUnlock?) && OwnedBy(e.u.worker, owner))
  }

  /** What may take the lock from a running row. */
  lemma WhatTakesALock(u: Update, id: Id, r: Row, at: Time)
    requires Selects(u, id, r, at) && RowOk(r) && r.status == Running && !u.Claim?
    ensures || SetRow(u, r, at).status == Running
            || ((u.PermanentlyFail? || u.CompleteJob?) && u.id == id)
            || ((u.CompleteLocked? || u.FailLocked?) && r.lockedBy == Some(u.owner))
            || ((u.Release? || u.ForceUnlock?) && OwnedBy(u.worker, r.lockedBy.value))
            || u.RecoverStale? || u.RecoverDead?
  {
  }

  /**
  An event that takes the lock of a live loop's job is one of those, or a recovery statement that selects the job.
  */
  lemma EventTakesALock(s: State, e: Event, owner: string, id: Id, claim: nat)
    requires Inv(s) && Enabled(s, e) && Holds(s, owner, id, claim) && !Current(Step(s, e), id, claim)
    ensures || EndsClaim(e, owner, id)
            || (e.Statement? && (e.u.RecoverStale? || e.u.RecoverDead?) && id in Affected(s.jobs, e.u, e.at))
  {
    hide Inv, Enabled, Step, Changed, ChangeOf, Current, OwnedBy, Legal, Selects;
    LockIsOwn(s, owner);
    StepByChange(s, e);
    SameCurrent(Step(s, e), Changed(s, ChangeOf(s, e)), id, claim);
    ChangeTakesALock(s, ChangeOf(s, e), owner, id, claim);
    UpdateComesFrom(s, e);
  }

  lemma SameCurrent(a: State, b: State, id: Id, claim: nat)
    requires SameTables(a, b)
    ensures Current(a, id, claim) <==> Current(b, id, claim)
  {
  }

  lemma UpdateComesFrom(s: State, e: Event)
    requires Enabled(s, e)
    ensures var c := ChangeOf(s, e);
            c.Updates? ==>
              || e == Statement(c.u, c.at)
              || c.u.Claim? || c.u.RenewLock?
              || (e.Finish? && (c.u.CompleteLocked? || c.u.FailLocked?) && c.u.owner == e.owner)
    ensures e.Statement? ==> !e.u.CompleteLocked? && !e.u.FailLocked?
  {
    hide Execute, RespectsLocks, Selectable, Claimable;
  }

  lemma ChangeTakesALock(s: State, c: Change, owner: string, id: Id, claim: nat)
    requires Inv(s) && Legal(s, c) && Current(s, id, claim) && !Current(Changed(s, c), id, claim)
    requires s.jobs[id].lockedBy == Some(owner) && RowOk(s.jobs[id])
    ensures c.Updates? && Selects(c.u, id, s.jobs[id], c.at)
    ensures || ((c.u.PermanentlyFail? || c.u.CompleteJob?) && c.u.id == id)
            || ((c.u.CompleteLocked? || c.u.FailLocked?) && c.u.owner == owner)
            || ((c.u.Release? || c.u.ForceUnlock?) && OwnedBy(c.u.worker, owner))
            || c.u.RecoverStale? || c.u.RecoverDead?
  {
    hide Inv, Run, RunEnqueue, Execute, Claimable, Selects, SetRow, HonestFailure, RowOk, OwnedBy;
    match c
    case Updates(u, at) =>
      RunAt(s, u, at, id);
      if Selects(u, id, s.jobs[id], at) {
        ClaimIdIs(u, id, s.jobs[id], at);
        WhatTakesALock(u, id, s.jobs[id], at);
      }
    case Inserts(newId, q, at) => EnqueueAt(s, newId, q, at, id);
    case _ =>
  }

  /** In every possible history, a live loop's claim is ended by those events and by nothing else. */
  lemma LiveClaimEndsOnlyBy(c: Setup, w: World, h: Happening, owner: string, id: Id, claim: nat)
    requires Sound(c) && Possible(c, w) && CanHappen(c, w, h) && Holds(w.s, owner, id, claim)
    ensures Holds(After(c, w, h).s, owner, id, claim) || (h.Does? && EndsClaim(h.e, owner, id))
  {
    PossibleIsOk(c, w);
    if h.Does? && !EndsClaim(h.e, owner, id) {
      hide LeasesOk, BeatsOk, Timely, LeasesAfter, Inv, Enabled, Step, Current;
      HeldLoopStays(w.s, h.e, owner, id, claim);
      if !Current(Step(w.s, h.e), id, claim) {
        EventTakesALock(w.s, h.e, owner, id, claim);
        RecoverySparesLiveJobs(c, w, h.e.u, h.e.at, h.begun, owner, id, claim);
      }
    }
  }

  /** A renewal stops the handling only when it found the lock gone. */
  lemma HeldLoopStays(s: State, e: Event, owner: string, id: Id, claim: nat)
    requires Inv(s) && Enabled(s, e) && Holds(s, owner, id, claim) && !EndsClaim(e, owner, id)
    ensures Handles(Step(s, e), owner) && Step(s, e).loops[owner] == s.loops[owner]
  {
    hide Inv, Step;
    LockIsOwn(s, owner);
    if e.Renew? && e.owner == owner {
      assert id in Affected(s.jobs, RenewLock(id, owner), e.at);
    }
    hide RespectsLocks, Execute;
    StillHandling(s, e, owner);
  }

  /** Over whole histories: a claim that a loop held and that is not held any more was ended by one of those events. */
  lemma {:induction false} LostClaimWasEnded(
      c: Setup, w: World, happenings: seq<Happening>, end: World, owner: string, id: Id, claim: nat) returns (i: nat)
    requires Sound(c) && Possible(c, w) && History(c, w, happenings, end)
    requires Holds(w.s, owner, id, claim) && !Holds(end.s, owner, id, claim)
    ensures i < |happenings| && happenings[i].Does? && EndsClaim(happenings[i].e, owner, id)
    decreases |happenings|
  {
    hide CanHappen, After, Holds, EndsClaim;
    var h := happenings[0];
    LiveClaimEndsOnlyBy(c, w, h, owner, id, claim);
    if h.Does? && EndsClaim(h.e, owner, id) {
      i := 0;
    } else {
      StaysPossible(c, w, h);
      i := LostClaimWasEnded(c, After(c, w, h), happenings[1..], end, owner, id, claim);
      i := i + 1;
    }
  }

  lemma StaysPossible(c: Setup, w: World, h: Happening)
    requires Possible(c, w) && CanHappen(c, w, h)
    ensures Possible(c, After(c, w, h))
  {
    hide CanHappen, After;
    var before :| History(c, START, before, w);
    HistoryAppend(c, START, before, w, h);
  }

  lemma {:induction false} HistoryAppend(c: Setup, w: World, happenings: seq<Happening>, mid: World, h: Happening)
    requires History(c, w, happenings, mid) && CanHappen(c, mid, h)
    ensures History(c, w, happenings + [h], After(c, mid, h))
    decreases |happenings|
  {
    hide CanHappen, After;
    if happenings == [] {
      assert [h][1..] == [];
      assert History(c, After(c, mid, h), [], After(c, mid, h));
    } else {
      HistoryAppend(c, After(c, w, happenings[0]), happenings[1..], mid, h);
      assert (happenings + [h])[1..] == happenings[1..] + [h];
    }
  }

  // ---------------------------------------------------------------- handlers exclude each other

  /** Every loop that handles a job holds the job's current claim. */
  ghost predicate AllHeld(s: State) {
    forall owner :: Handles(s, owner) ==> Current(s, s.loops[owner].phase.id, s.loops[owner].phase.claim)
  }

  /** An operator ends a job by hand, or a worker's release reaches the job of a loop that still handles one. */
  ghost predicate Disturbs(w: World, h: Happening) {
    && h.Does? && h.e.Statement?
    && (|| h.e.u.PermanentlyFail? || h.e.u.CompleteJob? || h.e.u.ForceUnlock?
        || (h.e.u.Release? && exists owner :: Handles(w.s, owner) && OwnedBy(h.e.u.worker, owner)))
  }

  ghost predicate Undisturbed(c: Setup, w: World, happenings: seq<Happening>)
    decreases |happenings|
  {
    happenings != [] && CanHappen(c, w, happenings[0]) ==>
      !Disturbs(w, happenings[0]) && Undisturbed(c, After(c, w, happenings[0]), happenings[1..])
  }

  /** A loop that hears of its claim holds it. */
  lemma HeardClaimIsCurrent(s: State, e: Event)
    requires Inv(s) && Enabled(s, e) && e.CommitClaim? && e.heard
    ensures var after := Step(s, e);
            && Handles(after, e.owner)
            && Current(after, after.loops[e.owner].phase.id, after.loops[e.owner].phase.claim)
  {
    CommitFindsTheRow(s, e);
    HeardLoopHandles(s, e);
    StepKeepsInv(s, e);
    var p := s.loops[e.owner].phase;
    ClaimStamps(p.id, e.owner, s.jobs[p.id], p.at);
    StepByChange(s, e);
    SelectedRowIsQueued(s, e.owner);
    RunAt(s, Claim(p.id, e.owner), p.at, p.id);
    LoopIsFenced(Step(s, e), e.owner);
    ClaimLocks(p.id, e.owner, s.jobs[p.id], p.at);
    hide Inv, Step, Run, SetRow, Selects, Execute, RespectsLocks;
  }

  lemma ClaimLocks(id: Id, owner: string, r: Row, at: Time)
    ensures SetRow(Claim(id, owner), r, at).lockedBy == Some(owner)
  {
  }

  lemma HappeningKeepsAllHeld(c: Setup, w: World, h: Happening)
    requires Sound(c) && Possible(c, w) && CanHappen(c, w, h) && AllHeld(w.s) && !Disturbs(w, h)
    ensures AllHeld(After(c, w, h).s)
  {
    PossibleIsOk(c, w);
    if h.Does? {
      hide LeasesOk, BeatsOk, Timely, LeasesAfter, Inv, Enabled, Step, Current, Possible;
      var after := Step(w.s, h.e);
      forall owner | Handles(after, owner)
        ensures Current(after, after.loops[owner].phase.id, after.loops[owner].phase.claim)
      {
        HandlingAfter(w.s, h.e, owner);
        if h.e.CommitClaim? && h.e.heard && h.e.owner == owner {
          HeardClaimIsCurrent(w.s, h.e);
        } else {
          var p := w.s.loops[owner].phase;
          LiveClaimEndsOnlyBy(c, w, h, owner, p.id, p.claim);
          LockIsOwn(w.s, owner);
        }
      }
    }
  }

  lemma {:induction false} UndisturbedKeepsAllHeld(c: Setup, w: World, happenings: seq<Happening>, end: World)
    requires Sound(c) && Possible(c, w) && History(c, w, happenings, end) && Undisturbed(c, w, happenings)
    requires AllHeld(w.s)
    ensures AllHeld(end.s) && Possible(c, end)
    decreases |happenings|
  {
    hide CanHappen, After, AllHeld, Disturbs, Possible;
    if happenings != [] {
      HappeningKeepsAllHeld(c, w, happenings[0]);
      StaysPossible(c, w, happenings[0]);
      UndisturbedKeepsAllHeld(c, After(c, w, happenings[0]), happenings[1..], end);
    }
  }

  /** Two jobs that must not run at once: the same job, or two of one named queue. */
  predicate Exclusive(s: State, a: Id, b: Id) {
    a in s.jobs && b in s.jobs && (a == b || (s.jobs[a].queueName.Some? && s.jobs[a].queueName == s.jobs[b].queueName))
  }

  /**
  Serial execution: from the start of a deployment within the bounds, as long as no operator ends a job by hand and no
  worker releases jobs that its loops still handle, no two handlers of one job or of one named queue ever run at once.
  */
  lemma HandlersExcludeEachOther(c: Setup, happenings: seq<Happening>, w: World, a: string, b: string)
    requires Sound(c) && History(c, START, happenings, w) && Undisturbed(c, START, happenings)
    requires Handles(w.s, a) && Handles(w.s, b) && Exclusive(w.s, w.s.loops[a].phase.id, w.s.loops[b].phase.id)
    ensures a == b
  {
    assert History(c, START, [], START);
    UndisturbedKeepsAllHeld(c, START, happenings, w);
    PossibleIsOk(c, w);
    LockIsOwn(w.s, a);
    LockIsOwn(w.s, b);
    RunningOneIsUnique(w.s, w.s.loops[a].phase.id, w.s.loops[b].phase.id);
    hide LeasesOk, BeatsOk, History, Undisturbed, Possible, Inv, Exclusive, Current;
  }

  lemma RunningOneIsUnique(s: State, i: Id, j: Id)
    requires Inv(s) && Exclusive(s, i, j) && s.jobs[i].status == Running && s.jobs[j].status == Running
    ensures i == j
  {
    hide LedgersOk, HistoryOk, OwnersOk, LoopsOk, KeysUnique, RowOk;
  }

  /** And every running handler is the one its job's row names. */
  lemma HandlersHoldTheirClaims(c: Setup, happenings: seq<Happening>, w: World, owner: string)
    requires Sound(c) && History(c, START, happenings, w) && Undisturbed(c, START, happenings) && Handles(w.s, owner)
    ensures var id := w.s.loops[owner].phase.id;
            id in w.s.jobs && w.s.jobs[id].status == Running && w.s.jobs[id].lockedBy == Some(owner)
  {
    assert History(c, START, [], START);
    UndisturbedKeepsAllHeld(c, START, happenings, w);
    PossibleIsOk(c, w);
    LockIsOwn(w.s, owner);
    hide LeasesOk, BeatsOk, History, Undisturbed, Possible, Inv;
  }
}
