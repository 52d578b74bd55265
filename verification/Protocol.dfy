/**
 The publication protocol as a transition system.  Each run owns a cell: its lease,
 its durable record, the workers that were ever given its lease, the recovery actors
 working on it, and its remote staging table and statements.  A step changes one cell;
 only the fence and the commit history connect cells.
 */
module Protocol {
  import opened Wrappers
  import opened Publication

  /**
   Where a worker stands between two atomic actions.  The order is the order of durable
   events and remote effects in the connector's prepare, write, finalize and abort.
   */
  datatype Phase =
    | Start                // leased, nothing recorded
    | Prepared             // prepare_started recorded; target validation runs here
    | StagingSent          // CREATE of the staging table sent
    | StagingMade          // ... and acknowledged
    | StagingBroken        // ... or raised
    | Loading              // staging_ready recorded, batches may follow
    | BatchSent            // rows inserted, batch_written not yet recorded
    | Finalizing           // publish_submitted not yet recorded
    | Submitted            // publish_submitted recorded, statement not yet sent
    | Executing            // statement sent, no answer yet
    | ExecuteFailed        // the statement raised
    | Acknowledged         // the statement answered
    | Confirmed            // committed recorded
    | StagingDropped       // ... and staging dropped
    | StagingNotDropped    // ... or the drop raised
    | Aborting             // abort entered
    | AbortDropped         // abort dropped staging
    | AbortNotDropped      // abort's drop raised
    | AbortEnded           // abort returned; the engine may call it again
    | Stopped              // session forgotten

  datatype Worker = Worker(phase: Phase, publishSubmitted: bool)

  /** A recovery actor between two of its transactions. */
  datatype Recoverer = Claiming | Reconciling | MarkerFound | Cleaning | Cleaned

  datatype Cell = Cell(
    userId: UserId, generation: Generation, target: TargetKey,
    lease: Lease, record: Option<Record>,
    creator: Option<Token>,        // history: the lease token that created the record
    claimed: bool,                 // history: some recovery claim has happened
    workers: map<Token, Worker>, recoverers: map<Token, Recoverer>,
    creating: nat, staging: bool,  // staging CREATEs in flight, staging table present
    inFlight: nat)                 // publish statements in flight

  datatype Commit = Commit(run: RunId, target: TargetKey)

  /** `mentioned` holds the runs whose publish marker some statement not their own carries. */
  datatype System = System(
    cells: map<RunId, Cell>, history: seq<Commit>, issued: set<Token>, now: Time, mentioned: set<RunId>)

  /**
   What the environment is assumed to do.  `disarmed`: a run is claimed for recovery only when its
   worker can no longer submit.  `unmentioned`: nobody but a run's own publish statement carries
   its marker.  The code enforces neither.
   */
  datatype Assumptions = Assumptions(disarmed: bool, unmentioned: bool)

  const ASSUMED := Assumptions(true, true)

  // ----- Events as the worker sees them -----

  /** An event may commit and be acknowledged, commit and raise, or not commit. */
  datatype Delivery = Acked | AppliedUnacked | Lost

  function EventAt(w: Worker): Option<Event> {
    match w.phase
    case Start => Some(PrepareStarted)
    case StagingMade => Some(StagingReady)
    case StagingBroken => Some(AbortUncertain)
    case Finalizing => Some(PublishSubmitted)
    case ExecuteFailed => Some(PublishUncertain)
    case Acknowledged => Some(CommitConfirmed)
    case StagingDropped => Some(CleanupConfirmed)
    case StagingNotDropped => Some(CleanupIsPending)
    case Aborting => if w.publishSubmitted then Some(PublishUncertain) else None
    case AbortDropped => Some(AbortConfirmed)
    case AbortNotDropped => Some(AbortUncertain)
    case _ => None
  }

  /** The worker after its event returned (`ok`) or raised. */
  function AfterEvent(w: Worker, ok: bool): Worker {
    match w.phase
    case Start => w.(phase := if ok then Prepared else Stopped)
    case StagingMade => w.(phase := if ok then Loading else Stopped)
    case StagingBroken => w.(phase := Stopped)
    case BatchSent => w.(phase := if ok then Loading else Aborting)
    case Finalizing => if ok then Worker(Submitted, true) else w.(phase := Aborting)
    case ExecuteFailed => w.(phase := Aborting)
    case Acknowledged => w.(phase := if ok then Confirmed else Aborting)
    case StagingDropped => w.(phase := Stopped)
    case StagingNotDropped => w.(phase := Stopped)
    case Aborting => w.(phase := AbortEnded)
    case AbortDropped => w.(phase := if ok then Stopped else AbortEnded)
    case AbortNotDropped => w.(phase := AbortEnded)
    case _ => w
  }

  /** Moves of a worker that touch neither the database nor the remote side. */
  predicate LocalMove(w: Worker, w': Worker) {
    && w'.publishSubmitted == w.publishSubmitted
    && (match w.phase
        case Prepared => w'.phase == Stopped
        case StagingSent => w'.phase == StagingBroken
        case Loading => w'.phase in {BatchSent, Finalizing, Aborting}
        case Finalizing => w'.phase == Aborting
        case Submitted => w'.phase == ExecuteFailed
        case Executing => w'.phase == ExecuteFailed
        case AbortEnded => w'.phase in {Aborting, Stopped}
        case _ => false)
  }

  // ----- Steps -----

  datatype CellStep =
    | GiveLease(minted: Token, until: Time)
    | RenewLease(until: Time)
    | EndLease(final: bool)
    | WorkerEvent(worker: Token, rows: nat, bytes: nat, delivery: Delivery)
    | WorkerMove(worker: Token, next: Worker)
    | WorkerCrash(worker: Token)
    | SendCreate(worker: Token)
    | CreateAnswered(worker: Token)
    | LandCreate
    | DropCreate
    | SendPublish(worker: Token)
    | PublishAnswered(worker: Token)
    | FailPublish
    | DropAfterCommit(worker: Token, ok: bool, effect: bool)
    | DropInAbort(worker: Token, ok: bool, effect: bool)
    | Claim(recoverer: Token)
    | Read(recoverer: Token, ownerActive: bool, credentials: Credentials)
    | Reconcile(recoverer: Token, verdict: Verdict)
    | Conclude(recoverer: Token, delivery: Delivery)
    | DropStaging(recoverer: Token, ok: bool, effect: bool)
    | Finish(recoverer: Token, delivery: Delivery)
    | GiveUp(recoverer: Token)
    | RecovererCrash(recoverer: Token)

  /** What a cell step may read outside its cell. */
  datatype Context = Context(
    run: RunId, now: Time, issued: set<Token>, fenceFree: bool, commits: nat, mentioned: bool, assumed: Assumptions)

  /** `w` has recorded its intent and may still come to record a submission. */
  predicate CanSubmit(c: Cell, w: Worker) {
    || w.phase == Prepared || w.phase == StagingMade || w.phase == Loading
    || w.phase == BatchSent || w.phase == Finalizing
    || (w.phase == StagingSent && (c.staging || c.creating > 0))
  }

  /** The lease token is still that of the record's creator, and that worker can submit. */
  predicate Armed(c: Cell) {
    && c.lease.token.Some? && c.lease.token == c.creator
    && c.lease.token.value in c.workers && CanSubmit(c, c.workers[c.lease.token.value])
  }

  function CallerOf(c: Cell, run: RunId, token: Token): Caller {
    Caller(run, token, c.userId, c.target, c.generation)
  }

  function EventOf(w: Worker, rows: nat, bytes: nat): Option<Event> {
    if w.phase == BatchSent then Some(BatchWritten(rows, bytes)) else EventAt(w)
  }

  /** The record still carries the recoverer's token. */
  predicate Holds(c: Cell, recoverer: Token) {
    c.record.Some? && c.record.value.recoveryToken == Some(recoverer)
  }

  function Rewrite(c: Cell, recoverer: Token, rec: Record): Cell {
    if Holds(c, recoverer) then c.(record := Some(rec)) else c
  }

  function Leave(c: Cell, recoverer: Token): Cell {
    c.(recoverers := c.recoverers - {recoverer})
  }

  function GoOn(c: Cell, recoverer: Token, phase: Recoverer): Cell {
    c.(recoverers := c.recoverers[recoverer := phase])
  }

  function PutWorker(c: Cell, token: Token, w: Worker): Cell {
    c.(workers := c.workers[token := w])
  }

  /** The error handler of a pass writes by the state the pass read, not by the record's. */
  function ErrorState(q: Recoverer): State {
    if q == Reconciling || q == MarkerFound then Uncertain else CleanupPending
  }

  predicate At(c: Cell, worker: Token, phase: Phase) {
    worker in c.workers && c.workers[worker].phase == phase
  }

  predicate Is(c: Cell, recoverer: Token, phase: Recoverer) {
    recoverer in c.recoverers && c.recoverers[recoverer] == phase
  }

  ghost predicate CellNext(x: Context, c: Cell, step: CellStep, c': Cell) {
    match step
    case GiveLease(minted, until) =>
      && !c.lease.terminal && (c.lease.token.None? || Due(c.lease.expires, x.now))
      && minted !in x.issued
      && c' == c.(lease := c.lease.(token := Some(minted), expires := Some(until)),
                  workers := c.workers[minted := Worker(Start, false)])
    case RenewLease(until) =>
      && c.lease.token.Some? && !Due(c.lease.expires, x.now)
      && c' == c.(lease := c.lease.(expires := Some(until)))
    case EndLease(final) =>
      c' == c.(lease := c.lease.(token := None, expires := None, terminal := c.lease.terminal || final))
    case WorkerEvent(t, rows, bytes, delivery) =>
      && t in c.workers && EventOf(c.workers[t], rows, bytes).Some?
      && var w := c.workers[t];
         var outcome := Recorded(Some(c.lease), c.record, CallerOf(c, x.run, t),
                                 EventOf(w, rows, bytes).value, x.now, x.fenceFree);
         c' == if outcome.Failure? || delivery == Lost then PutWorker(c, t, AfterEvent(w, false))
               else PutWorker(c, t, AfterEvent(w, delivery == Acked)).(
                      record := Some(outcome.value),
                      creator := if w.phase == Start then Some(t) else c.creator)
    case WorkerMove(t, next) =>
      t in c.workers && LocalMove(c.workers[t], next) && c' == PutWorker(c, t, next)
    case WorkerCrash(t) =>
      t in c.workers && c' == c.(workers := c.workers - {t})
    case SendCreate(t) =>
      && At(c, t, Prepared)
      && c' == PutWorker(c, t, c.workers[t].(phase := StagingSent)).(creating := c.creating + 1)
    case CreateAnswered(t) =>
      && At(c, t, StagingSent) && c.staging
      && c' == PutWorker(c, t, c.workers[t].(phase := StagingMade))
    case LandCreate =>
      c.creating > 0 && c' == c.(creating := c.creating - 1, staging := true)
    case DropCreate =>
      c.creating > 0 && c' == c.(creating := c.creating - 1)
    case SendPublish(t) =>
      && At(c, t, Submitted)
      && c' == PutWorker(c, t, c.workers[t].(phase := Executing)).(inFlight := c.inFlight + 1)
    case PublishAnswered(t) =>
      && At(c, t, Executing) && x.commits > 0
      && c' == PutWorker(c, t, c.workers[t].(phase := Acknowledged))
    case FailPublish =>
      c.inFlight > 0 && c' == c.(inFlight := c.inFlight - 1)
    case DropAfterCommit(t, ok, effect) =>
      && At(c, t, Confirmed) && (ok ==> effect)
      && c' == PutWorker(c, t, c.workers[t].(phase := if ok then StagingDropped else StagingNotDropped)).(
                 staging := c.staging && !effect)
    case DropInAbort(t, ok, effect) =>
      && At(c, t, Aborting) && !c.workers[t].publishSubmitted && (ok ==> effect)
      && c' == PutWorker(c, t, c.workers[t].(phase := if ok then AbortDropped else AbortNotDropped)).(
                 staging := c.staging && !effect)
    case Claim(q) =>
      && c.record.Some? && Claimable(c.record.value, c.lease, x.now) && q !in x.issued
      // The named lease assumption.
      && (x.assumed.disarmed ==> !Armed(c))
      && c' == GoOn(c, q, Claiming).(record := Some(Claimed(c.record.value, q, x.now)), claimed := true)
    case Read(q, ownerActive, credentials) =>
      && Is(c, q, Claiming)
      && (if !Holds(c, q) then c' == Leave(c, q)
          else
            var rec := c.record.value;
            if !ownerActive then c' == Leave(c.(record := Some(Deferred(rec, RETRY_SECONDS, rec.state, x.now))), q)
            else if credentials != Ready then
              c' == Leave(c.(record := Some(Deferred(rec, if credentials == Stale then STALE_RETRY_SECONDS
                                                          else RETRY_SECONDS, Unattended(rec), x.now))), q)
            else c' == GoOn(c, q, if NeedsReconciliation(rec.state) then Reconciling else Cleaning))
    case Reconcile(q, verdict) =>
      && Is(c, q, Reconciling)
      && (match verdict
          case Found =>
            && (x.commits > 0 || x.mentioned) && c.record.Some? && Searchable(c.record.value.submittedAt, x.now)
            && c' == GoOn(c, q, MarkerFound)
          case Unknown =>
            c.record.Some? &&
            c' == Leave(Rewrite(c, q, Deferred(c.record.value, RETRY_SECONDS, Uncertain, x.now)), q)
          case Raised => c' == c)
    case Conclude(q, delivery) =>
      && Is(c, q, MarkerFound) && c.record.Some?
      && (if !Holds(c, q) then c' == Leave(c, q)
          else if delivery == Lost then c' == c
          else c' == GoOn(c.(record := Some(MarkedCommitted(c.record.value, x.now))), q,
                          if delivery == Acked then Cleaning else MarkerFound))
    case DropStaging(q, ok, effect) =>
      && Is(c, q, Cleaning) && (ok ==> effect)
      && c' == (if ok then GoOn(c, q, Cleaned) else c).(staging := c.staging && !effect)
    case Finish(q, delivery) =>
      && Is(c, q, Cleaned) && c.record.Some?
      && (if !Holds(c, q) then c' == Leave(c, q)
          else if delivery == Lost then c' == c
          else c' == (if delivery == Acked then Leave(c, q) else c).(record := Some(Closed(c.record.value))))
    case GiveUp(q) =>
      && q in c.recoverers && c.recoverers[q] != Claiming && c.record.Some?
      && c' == Leave(Rewrite(c, q, Deferred(c.record.value, RETRY_SECONDS, ErrorState(c.recoverers[q]), x.now)), q)
    case RecovererCrash(q) =>
      q in c.recoverers && c' == Leave(c, q)
  }

  // ----- Whole systems -----

  function CommitCount(history: seq<Commit>, run: RunId): nat {
    if history == [] then 0
    else CommitCount(history[..|history| - 1], run) + if history[|history| - 1].run == run then 1 else 0
  }

  /** No other cell's record holds the fence of `key`. */
  ghost predicate NoOtherHolder(cells: map<RunId, Cell>, run: RunId, key: TargetKey) {
    forall r :: r in cells && r != run ==> !HoldsFence(cells[r], key)
  }

  predicate HoldsFence(c: Cell, key: TargetKey) {
    c.record.Some? && c.record.value.active == Some(key)
  }

  ghost function ContextOf(s: System, run: RunId, assumed: Assumptions): Context
    requires run in s.cells
  {
    Context(run, s.now, s.issued, NoOtherHolder(s.cells, run, s.cells[run].target),
            CommitCount(s.history, run), run in s.mentioned, assumed)
  }

  /** Tokens handed out by a step. */
  function Issues(step: CellStep): set<Token> {
    match step
    case GiveLease(minted, _) => {minted}
    case Claim(q) => {q}
    case _ => {}
  }

  datatype Step = Tick(until: Time) | Land(run: RunId) | Mention(run: RunId) | On(run: RunId, cell: CellStep)

  ghost predicate Next(s: System, step: Step, s': System, assumed: Assumptions) {
    match step
    case Tick(until) => s.now <= until && s' == s.(now := until)
    case Land(run) =>
      // A publish statement takes effect.  Its sender may be long gone.
      && run in s.cells && s.cells[run].inFlight > 0
      && s' == s.(history := s.history + [Commit(run, s.cells[run].target)],
                  cells := s.cells[run := s.cells[run].(inFlight := s.cells[run].inFlight - 1)])
    case Mention(run) =>
      // A statement that is not the run's own carries the run's marker.
      !assumed.unmentioned && s' == s.(mentioned := s.mentioned + {run})
    case On(run, step) =>
      && run in s.cells && run in s'.cells
      && CellNext(ContextOf(s, run, assumed), s.cells[run], step, s'.cells[run])
      && s' == s.(cells := s.cells[run := s'.cells[run]], issued := s.issued + Issues(step))
  }

  /** The system with one run's cell replaced. */
  ghost function Put(s: System, run: RunId, c: Cell): System { s.(cells := s.cells[run := c]) }

  /** Runs exist, none was ever leased, nothing is recorded or remote. */
  ghost predicate Init(s: System) {
    && s.history == [] && s.mentioned == {}
    && (forall r :: r in s.cells ==>
          var c := s.cells[r];
          && c.lease.token.None? && c.lease.userId == c.userId && c.record.None? && c.creator.None? && !c.claimed
          && c.workers == map[] && c.recoverers == map[]
          && c.creating == 0 && !c.staging && c.inFlight == 0)
  }

  /** Consecutive states are related by the given steps. */
  ghost predicate Steps(trace: seq<System>, steps: seq<Step>, assumed: Assumptions) {
    && |trace| == |steps| + 1
    && forall i {:trigger steps[i]} :: 0 <= i < |steps| ==> Next(trace[i], steps[i], trace[i + 1], assumed)
  }

  /** `trace` is a run of the protocol. */
  ghost predicate Behaviour(trace: seq<System>, steps: seq<Step>, assumed: Assumptions) {
    Steps(trace, steps, assumed) && Init(trace[0])
  }

  /** The protocol can go from `s` to `s'`. */
  ghost predicate Leads(s: System, s': System, assumed: Assumptions) {
    exists trace, steps :: Steps(trace, steps, assumed) && trace[0] == s && trace[|trace| - 1] == s'
  }

  lemma Stay(s: System, assumed: Assumptions)
    ensures Leads(s, s, assumed)
  {
    assert Steps([s], [], assumed) && [s][0] == s && [s][|[s]| - 1] == s;
  }

  lemma OneMoreStep(s: System, s': System, step: Step, s'': System, assumed: Assumptions)
    requires Leads(s, s', assumed) && Next(s', step, s'', assumed)
    ensures Leads(s, s'', assumed)
  {
    var trace, steps :| Steps(trace, steps, assumed) && trace[0] == s && trace[|trace| - 1] == s';
    var longer := trace + [s''];
    assert Steps(longer, steps + [step], assumed) && longer[0] == s && longer[|longer| - 1] == s'';
  }
}
