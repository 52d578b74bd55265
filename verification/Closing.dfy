/**
 Exactly when a record can still be closed.  Its publish statement must not be lost, and somebody
 must still be able to confirm the commit: the worker that holds the lease, a recovery actor past
 its search, or a search within the 30 days the provider's history is looked at.
 */
module Closing {
  import opened Wrappers
  import opened Publication
  import opened Protocol
  import opened ProtocolSafety
  import opened ProtocolTheorems
  import opened Continuations
  import opened Recovery

  // ----- Who can still confirm -----

  /** The publish statement was sent and is gone: nothing landed, nothing is under way, nobody will send it. */
  ghost predicate StatementLost(c: Cell, commits: nat) {
    && c.record.Some? && c.record.value.submittedAt.Some? && commits == 0 && c.inFlight == 0
    && forall t :: t in c.workers ==> c.workers[t].phase != Submitted
  }

  /** The worker with the lease may yet report the commit. */
  predicate WorkerConfirms(c: Cell) {
    && c.lease.token.Some? && c.lease.token.value in c.workers
    && var phase := c.workers[c.lease.token.value].phase;
       phase == Submitted || phase == Executing || phase == Acknowledged
  }

  /** The recovery actor with the token is in the given phase. */
  predicate HolderIn(c: Cell, phase: Recoverer) {
    && c.record.Some? && c.record.value.recoveryToken.Some? && Is(c, c.record.value.recoveryToken.value, phase)
  }

  /** When the next claim is due. */
  function DueAt(rec: Record, now: Time): Time { Max(now, Until(rec.recoveryExpires)) }

  /** A search under way, or one of the next pass, is within the window. */
  predicate CanSearch(c: Cell, now: Time) {
    && c.record.Some?
    && var rec := c.record.value;
       || Searchable(rec.submittedAt, DueAt(rec, now))
       || (Searchable(rec.submittedAt, now) && (HolderIn(c, Claiming) || HolderIn(c, Reconciling)))
  }

  predicate Undecided(c: Cell) {
    c.record.Some? && c.record.value.submittedAt.Some? && c.record.value.confirmedAt.None?
  }

  /** Submitted, not confirmed, and nobody left to confirm. */
  ghost predicate Stuck(c: Cell, commits: nat, now: Time) {
    && Undecided(c)
    && (StatementLost(c, commits)
        || (!WorkerConfirms(c) && !HolderIn(c, MarkerFound) && !CanSearch(c, now)))
  }

  ghost predicate StuckIn(s: System, run: RunId) {
    run in s.cells && Stuck(s.cells[run], CommitCount(s.history, run), s.now)
  }

  // ----- Hopeless stays hopeless -----

  /** Nobody of this cell confirms: not the search, and neither worker nor recovery actor over a commit. */
  ghost predicate Hopeless(c: Cell, commits: nat, now: Time) {
    && Undecided(c) && !CanSearch(c, now)
    && (commits > 0 ==> !WorkerConfirms(c) && !HolderIn(c, MarkerFound))
  }

  /** While nobody confirms, no step is misled, whatever others mention. */
  lemma HopelessIsNotMisled(x: Context, c: Cell, step: CellStep, c': Cell)
    requires CellNext(x, c, step, c') && Hopeless(c, x.commits, x.now)
    ensures !Misled(x, c, step)
  {
  }

  lemma HopelessStep(x: Context, c: Cell, step: CellStep, c': Cell)
    requires StepFrom(x, c, step, c') && TimesInv(c, x.now) && Hopeless(c, x.commits, x.now)
    ensures Hopeless(c', x.commits, x.now)
  {
    if step.WorkerEvent? {
      HopelessEvent(x, c, step, c');
    } else if IsRecoveryStep(step) {
      HopelessRecovery(x, c, step, c');
    } else {
      HopelessOther(x, c, step, c');
    }
  }

  /** What decides whether the cell is hopeless. */
  predicate SameHope(rec: Record, rec': Record) {
    && rec'.submittedAt == rec.submittedAt && rec'.confirmedAt == rec.confirmedAt
    && rec'.recoveryToken == rec.recoveryToken && rec'.recoveryExpires == rec.recoveryExpires
  }

  lemma StaysHopeless(c: Cell, c': Cell, commits: nat, now: Time)
    requires Hopeless(c, commits, now) && c'.record.Some? && SameHope(c.record.value, c'.record.value)
    requires c'.recoverers == c.recoverers && (WorkerConfirms(c') ==> WorkerConfirms(c))
    ensures Hopeless(c', commits, now)
  {
  }

  lemma HopelessOther(x: Context, c: Cell, step: CellStep, c': Cell)
    requires StepFrom(x, c, step, c') && Hopeless(c, x.commits, x.now)
    requires !step.WorkerEvent? && !IsRecoveryStep(step)
    ensures Hopeless(c', x.commits, x.now)
  {
    NoNewConfirmer(x, c, step, c');
    StaysHopeless(c, c', x.commits, x.now);
  }

  lemma NoNewConfirmer(x: Context, c: Cell, step: CellStep, c': Cell)
    requires CellNext(x, c, step, c') && !step.WorkerEvent? && !IsRecoveryStep(step)
    ensures c'.record == c.record && c'.recoverers == c.recoverers
    ensures WorkerConfirms(c') ==> WorkerConfirms(c)
  {
    if step.GiveLease? || step.RenewLease? || step.EndLease? {
      NoConfirmerByLease(x, c, step, c');
    }
  }

  lemma NoConfirmerByLease(x: Context, c: Cell, step: CellStep, c': Cell)
    requires CellNext(x, c, step, c') && (step.GiveLease? || step.RenewLease? || step.EndLease?)
    ensures c'.record == c.record && c'.recoverers == c.recoverers
    ensures WorkerConfirms(c') ==> WorkerConfirms(c)
  {
  }

  /** The reports a worker can still get recorded neither submit nor confirm. */
  lemma HopelessReports(x: Context, c: Cell, t: Token, event: Event)
    requires CellInv(x.run, c, x.commits, x.issued) && Hopeless(c, x.commits, x.now) && Sends(c, t, event)
    requires Recorded(Some(c.lease), c.record, CallerOf(c, x.run, t), event, x.now, x.fenceFree).Success?
    ensures event != PrepareStarted && event != PublishSubmitted
    ensures event != CommitConfirmed && event != CleanupConfirmed
  {
    assert WorkerInv(c, x.commits, t, c.workers[t]);
  }

  lemma ReportKeepsHope(rec: Record, event: Event, caller: Caller, now: Time)
    requires event != PrepareStarted && Updated(rec, caller, event, now).Success?
    requires event != PublishSubmitted && event != CommitConfirmed && event != CleanupConfirmed
    ensures SameHope(rec, Updated(rec, caller, event, now).value)
  {
  }

  /** A report never brings its worker to where it confirms, except by submitting. */
  lemma NoConfirmerByReport(x: Context, c: Cell, step: CellStep, c': Cell)
    requires StepFrom(x, c, step, c') && step.WorkerEvent? && Undecided(c)
    ensures c'.recoverers == c.recoverers && c'.lease == c.lease
    ensures WorkerConfirms(c') ==> WorkerConfirms(c)
  {
    var t := step.worker;
    var ok := EventShape(x, c, step, c');
    assert WorkerInv(c, x.commits, t, c.workers[t]);
    SubmittedIsPast(c, x.commits, t);
    NoConfirmerReported(c, t, ok, c');
  }

  lemma NoConfirmerReported(c: Cell, t: Token, ok: bool, c': Cell)
    requires Reported(c, t, ok, c') && c.workers[t].phase != Finalizing
    ensures WorkerConfirms(c') ==> WorkerConfirms(c)
  {
    AfterReport(c.workers[t], ok);
  }

  /** Nobody submits a second time. */
  lemma SubmittedIsPast(c: Cell, commits: nat, t: Token)
    requires c.record.Some? && c.record.value.submittedAt.Some?
    requires t in c.workers && WorkerInv(c, commits, t, c.workers[t])
    ensures c.workers[t].phase != Finalizing
  {
  }

  lemma AfterReport(w: Worker, ok: bool)
    requires w.phase != Finalizing
    ensures var phase := AfterEvent(w, ok).phase;
            phase == Submitted || phase == Executing || phase == Acknowledged ==> phase == w.phase
  {
  }

  lemma HopelessEvent(x: Context, c: Cell, step: CellStep, c': Cell)
    requires StepFrom(x, c, step, c') && Hopeless(c, x.commits, x.now) && step.WorkerEvent?
    ensures Hopeless(c', x.commits, x.now)
  {
    var t := step.worker;
    var event := EventOf(c.workers[t], step.rows, step.bytes).value;
    var outcome := Recorded(Some(c.lease), c.record, CallerOf(c, x.run, t), event, x.now, x.fenceFree);
    NoConfirmerByReport(x, c, step, c');
    if outcome.Success? {
      HopelessReports(x, c, t, event);
      ReportKeepsHope(c.record.value, event, CallerOf(c, x.run, t), x.now);
    }
    StaysHopeless(c, c', x.commits, x.now);
  }

  lemma HopelessRecovery(x: Context, c: Cell, step: CellStep, c': Cell)
    requires StepFrom(x, c, step, c') && TimesInv(c, x.now) && Hopeless(c, x.commits, x.now) && IsRecoveryStep(step)
    ensures Hopeless(c', x.commits, x.now)
  {
    KeepsWorker(x, c, step, c');
    if step.Claim? {
      HopelessClaim(x, c, step, c');
    } else {
      ActorIsThere(x, c, step, c');
      if step.Read? {
        HopelessRead(x, c, step, c');
      } else if step.Reconcile? {
        HopelessSearch(x, c, step, c');
      } else if step.GiveUp? || step.RecovererCrash? {
        HopelessEnd(x, c, step, c');
      } else {
        HopelessCleanup(x, c, step, c');
      }
    }
  }

  lemma HopelessClaim(x: Context, c: Cell, step: CellStep, c': Cell)
    requires CellNext(x, c, step, c') && Hopeless(c, x.commits, x.now) && step.Claim? && SameWorker(c, c')
    ensures Hopeless(c', x.commits, x.now)
  {
  }

  lemma HopelessRead(x: Context, c: Cell, step: CellStep, c': Cell)
    requires CellNext(x, c, step, c') && TimesInv(c, x.now) && Hopeless(c, x.commits, x.now)
    requires SameWorker(c, c') && step.Read?
    ensures Hopeless(c', x.commits, x.now)
  {
  }

  lemma HopelessSearch(x: Context, c: Cell, step: CellStep, c': Cell)
    requires CellNext(x, c, step, c') && TimesInv(c, x.now) && Hopeless(c, x.commits, x.now)
    requires SameWorker(c, c') && step.Reconcile?
    ensures Hopeless(c', x.commits, x.now)
  {
  }

  lemma HopelessEnd(x: Context, c: Cell, step: CellStep, c': Cell)
    requires CellNext(x, c, step, c') && TimesInv(c, x.now) && Hopeless(c, x.commits, x.now) && SameWorker(c, c')
    requires step.GiveUp? || step.RecovererCrash?
    ensures Hopeless(c', x.commits, x.now)
  {
  }

  lemma HopelessCleanup(x: Context, c: Cell, step: CellStep, c': Cell)
    requires CellNext(x, c, step, c') && Hopeless(c, x.commits, x.now) && SameWorker(c, c')
    requires step.Conclude? || step.DropStaging? || step.Finish?
    requires RecovererInv(c, x.commits, step.recoverer)
    ensures Hopeless(c', x.commits, x.now)
  {
  }

  // ----- A lost statement stays lost -----

  lemma LostStep(x: Context, c: Cell, step: CellStep, c': Cell)
    requires StepFrom(x, c, step, c') && StatementLost(c, x.commits)
    ensures StatementLost(c', x.commits)
  {
    if step.WorkerEvent? {
      LostEvent(x, c, step, c');
    } else if IsRecoveryStep(step) {
      LostRecovery(x, c, step, c');
    } else {
      LostOther(x, c, step, c');
    }
  }

  lemma LostOther(x: Context, c: Cell, step: CellStep, c': Cell)
    requires CellNext(x, c, step, c') && StatementLost(c, x.commits)
    requires !step.WorkerEvent? && !IsRecoveryStep(step)
    ensures StatementLost(c', x.commits)
  {
  }

  lemma LostEvent(x: Context, c: Cell, step: CellStep, c': Cell)
    requires StepFrom(x, c, step, c') && StatementLost(c, x.commits) && step.WorkerEvent?
    ensures StatementLost(c', x.commits)
  {
    var t := step.worker;
    var ok := EventShape(x, c, step, c');
    assert WorkerInv(c, x.commits, t, c.workers[t]);
    SubmittedIsPast(c, x.commits, t);
    AfterReport(c.workers[t], ok);
    SubmissionStays(Some(c.lease), c.record, CallerOf(c, x.run, t), EventOf(c.workers[t], step.rows, step.bytes).value,
                    x.now, x.fenceFree);
  }

  lemma SubmissionStays(
      lease: Option<Lease>, record: Option<Record>, caller: Caller, event: Event, now: Time, fenceFree: bool)
    requires record.Some? && record.value.submittedAt.Some?
    ensures var outcome := Recorded(lease, record, caller, event, now, fenceFree);
            outcome.Success? ==> outcome.value.submittedAt.Some?
  {
  }

  lemma LostRecovery(x: Context, c: Cell, step: CellStep, c': Cell)
    requires StepFrom(x, c, step, c') && StatementLost(c, x.commits) && IsRecoveryStep(step)
    ensures StatementLost(c', x.commits)
  {
    if !step.Claim? {
      ActorIsThere(x, c, step, c');
      RecoveryShape(x, c, step, c');
      KeepsWorker(x, c, step, c');
    }
  }

  // ----- Stuck stays stuck -----

  lemma StuckStep(x: Context, c: Cell, step: CellStep, c': Cell)
    requires StepFrom(x, c, step, c') && TimesInv(c, x.now) && Stuck(c, x.commits, x.now)
    requires CellInv(x.run, c', x.commits, x.issued + Issues(step))
    ensures Stuck(c', x.commits, x.now)
  {
    if StatementLost(c, x.commits) {
      LostStep(x, c, step, c');
    } else {
      HopelessStep(x, c, step, c');
      if x.commits == 0 { NoConfirmerOfNothing(x, c, step, c'); }
    }
  }

  /** With nothing landed yet, nobody who could not confirm before comes to be able to. */
  lemma NoConfirmerOfNothing(x: Context, c: Cell, step: CellStep, c': Cell)
    requires StepFrom(x, c, step, c') && Undecided(c) && !WorkerConfirms(c) && x.commits == 0
    requires CellInv(x.run, c', x.commits, x.issued + Issues(step))
    ensures !WorkerConfirms(c') && !HolderIn(c', MarkerFound)
  {
    if step.WorkerEvent? {
      NoConfirmerByReport(x, c, step, c');
    } else if IsRecoveryStep(step) {
      KeepsWorker(x, c, step, c');
    } else {
      NoNewConfirmer(x, c, step, c');
    }
    NoMarkerOfNothing(x.run, c', x.issued + Issues(step));
  }

  lemma NoMarkerOfNothing(run: RunId, c: Cell, issued: set<Token>)
    requires CellInv(run, c, 0, issued)
    ensures !HolderIn(c, MarkerFound)
  {
    assert forall q :: q in c.recoverers ==> RecovererInv(c, 0, q);
  }

  lemma LandedStaysStuck(c: Cell, commits: nat, now: Time)
    requires Stuck(c, commits, now) && c.inFlight > 0
    ensures Stuck(c.(inFlight := c.inFlight - 1), commits + 1, now)
  {
  }

  lemma LaterStaysStuck(c: Cell, commits: nat, now: Time, later: Time)
    requires Stuck(c, commits, now) && now <= later
    ensures Stuck(c, commits, later)
  {
  }

  lemma StuckOn(s: System, step: CellStep, s': System, run: RunId)
    requires SystemInv(s) && SystemInv(s') && Next(s, On(run, step), s', ASSUMED) && StuckIn(s, run)
    ensures StuckIn(s', run)
  {
    assert CellInv(run, s'.cells[run], CommitCount(s'.history, run), s'.issued);
    FromInvariant(s, run, step, s');
    StuckStep(ContextOf(s, run, ASSUMED), s.cells[run], step, s'.cells[run]);
  }

  lemma StuckLand(s: System, r: RunId, s': System, run: RunId)
    requires Next(s, Land(r), s', ASSUMED) && StuckIn(s, run)
    ensures StuckIn(s', run)
  {
    Appended(s.history, Commit(r, s.cells[r].target), run);
    if r == run { LandedStaysStuck(s.cells[run], CommitCount(s.history, run), s.now); }
  }

  lemma StuckNext(s: System, step: Step, s': System, run: RunId)
    requires SystemInv(s) && SystemInv(s') && Next(s, step, s', ASSUMED) && StuckIn(s, run)
    ensures StuckIn(s', run)
  {
    match step {
      case Tick(later) => LaterStaysStuck(s.cells[run], CommitCount(s.history, run), s.now, later);
      case Land(r) => StuckLand(s, r, s', run);
      case Mention(_) =>
      case On(r, cellStep) => if r == run { StuckOn(s, cellStep, s', run); }
    }
  }

  ghost predicate SoundlyStuck(s: System, run: RunId) { SystemInv(s) && StuckIn(s, run) }

  lemma StuckAlong(s: System, step: Step, s': System, run: RunId)
    requires SoundlyStuck(s, run) && Next(s, step, s', ASSUMED)
    ensures SoundlyStuck(s', run)
  {
    StepKeeps(s, step, s');
    StuckNext(s, step, s', run);
  }

  /** A stuck record is never closed and never gives up its fence. */
  lemma StuckKeepsFence(s: System, s': System, run: RunId)
    requires SystemInv(s) && StuckIn(s, run) && Leads(s, s', ASSUMED)
    ensures run in s'.cells && s'.cells[run].record.Some? && !IsClosed(s'.cells[run].record.value.state)
    ensures HoldsFence(s'.cells[run], s'.cells[run].target)
  {
    forall t, step, t' | SoundlyStuck(t, run) && Next(t, step, t', ASSUMED) ensures SoundlyStuck(t', run) {
      StuckAlong(t, step, t', run);
    }
    LeadsInside(s, s', ASSUMED, t => SoundlyStuck(t, run));
    assert CellInv(run, s'.cells[run], CommitCount(s'.history, run), s'.issued);
  }

  // ----- What is not stuck can be closed -----

  const PERFECT := World(true, Ready, Found, true)

  /** Credentials that cannot be used: a confirmed record is deferred to cleanup. */
  const LOCKED_OUT := World(true, Unavailable, Unknown, false)

  ghost predicate Open(s: System, run: RunId) {
    SystemInv(s) && run in s.cells && s.cells[run].record.Some? && Recoverable(s.cells[run].record.value.state)
  }

  ghost predicate ClosedAs(s: System, run: RunId, destiny: State) {
    && run in s.cells && s.cells[run].record.Some?
    && s.cells[run].record.value.state == destiny && s.cells[run].record.value.active.None?
  }

  /** The record of an open run is as it was. */
  ghost predicate SameRecord(s: System, s': System, run: RunId) {
    run in s.cells && run in s'.cells && s'.cells[run].record == s.cells[run].record
  }

  /** The run's lease ends: nobody it was given to passes the check any more. */
  lemma LeaseEnds(s0: System, s: System, run: RunId) returns (s': System)
    requires Open(s, run) && Leads(s0, s, ASSUMED)
    ensures Open(s', run) && Leads(s0, s', ASSUMED) && SameRecord(s, s', run)
    ensures s'.cells[run].lease.terminal && s'.cells[run].lease.token.None?
    ensures s'.history == s.history && s'.now == s.now && s'.cells[run].inFlight == s.cells[run].inFlight
    ensures s'.cells[run].workers == s.cells[run].workers
    ensures s'.cells[run].claimed == s.cells[run].claimed
  {
    var c := s.cells[run];
    var c' := c.(lease := c.lease.(token := None, expires := None, terminal := true));
    StepOn(s0, s, run, EndLease(true), c');
    s' := Put(s, run, c');
  }

  /** A worker about to send its publish statement sends it. */
  lemma Sent(s0: System, s: System, run: RunId, t: Token) returns (s': System)
    requires Open(s, run) && Leads(s0, s, ASSUMED) && At(s.cells[run], t, Submitted)
    ensures Open(s', run) && Leads(s0, s', ASSUMED) && SameRecord(s, s', run) && s'.now == s.now
    ensures At(s'.cells[run], t, Executing) && s'.cells[run].inFlight > 0
    ensures s'.cells[run].lease == s.cells[run].lease && s'.cells[run].recoverers == s.cells[run].recoverers
    ensures s'.cells[run].claimed == s.cells[run].claimed
  {
    var c := s.cells[run];
    var c' := PutWorker(c, t, c.workers[t].(phase := Executing)).(inFlight := c.inFlight + 1);
    StepOn(s0, s, run, SendPublish(t), c');
    s' := Put(s, run, c');
  }

  lemma Landed(s0: System, s: System, run: RunId) returns (s': System)
    requires Open(s, run) && Leads(s0, s, ASSUMED) && s.cells[run].inFlight > 0
    ensures Open(s', run) && Leads(s0, s', ASSUMED) && SameRecord(s, s', run) && s'.now == s.now
    ensures CommitCount(s'.history, run) > 0 && s'.cells[run].workers == s.cells[run].workers
    ensures s'.cells[run].lease == s.cells[run].lease && s'.cells[run].recoverers == s.cells[run].recoverers
    ensures s'.cells[run].claimed == s.cells[run].claimed
  {
    var commit := Commit(run, s.cells[run].target);
    Appended(s.history, commit, run);
    s' := LandsOnce(s, run, commit);
    OneMoreStep(s0, s, Land(run), s', ASSUMED);
    StepKeeps(s, Land(run), s');
  }

  /** A statement that is not lost comes to be in the history; the worker that awaits it still does. */
  lemma ComesToHistory(s0: System, s: System, run: RunId) returns (s': System)
    requires Open(s, run) && Leads(s0, s, ASSUMED) && Undecided(s.cells[run])
    requires !StatementLost(s.cells[run], CommitCount(s.history, run))
    ensures Open(s', run) && Leads(s0, s', ASSUMED) && SameRecord(s, s', run) && s'.now == s.now
    ensures CommitCount(s'.history, run) > 0
    ensures s'.cells[run].lease == s.cells[run].lease && s'.cells[run].recoverers == s.cells[run].recoverers
    ensures WorkerConfirms(s.cells[run]) ==>
              At(s'.cells[run], s'.cells[run].lease.token.value, Executing)
              || At(s'.cells[run], s'.cells[run].lease.token.value, Acknowledged)
  {
    s' := s;
    if CommitCount(s.history, run) == 0 && s.cells[run].inFlight == 0 {
      var t :| t in s.cells[run].workers && s.cells[run].workers[t].phase == Submitted;
      s' := Sent(s0, s, run, t);
      SentOnce(s, run, t);
    }
    if CommitCount(s'.history, run) == 0 { s' := Landed(s0, s', run); }
    NotSubmittedOverCommit(s', run);
  }

  /** The worker about to send is the only one with anything to confirm. */
  lemma SentOnce(s: System, run: RunId, t: Token)
    requires Open(s, run) && At(s.cells[run], t, Submitted)
    ensures WorkerConfirms(s.cells[run]) ==> s.cells[run].lease.token == Some(t)
  {
    var c := s.cells[run];
    assert CellInv(run, c, CommitCount(s.history, run), s.issued);
    assert WorkerInv(c, CommitCount(s.history, run), t, c.workers[t]);
    if WorkerConfirms(c) {
      assert WorkerInv(c, CommitCount(s.history, run), c.lease.token.value, c.workers[c.lease.token.value]);
    }
  }

  lemma NotSubmittedOverCommit(s: System, run: RunId)
    requires Open(s, run) && CommitCount(s.history, run) > 0
    ensures forall t :: t in s.cells[run].workers ==> s.cells[run].workers[t].phase != Submitted
  {
    var c := s.cells[run];
    assert CellInv(run, c, CommitCount(s.history, run), s.issued);
    forall t | t in c.workers ensures c.workers[t].phase != Submitted {
      assert WorkerInv(c, CommitCount(s.history, run), t, c.workers[t]);
    }
  }

  /** The clock comes to when the next claim is due. */
  lemma ComesDue(s0: System, s: System, run: RunId) returns (s': System)
    requires Open(s, run) && Leads(s0, s, ASSUMED)
    ensures Open(s', run) && Leads(s0, s', ASSUMED) && s'.cells == s.cells && s'.history == s.history
    ensures s'.now == DueAt(s.cells[run].record.value, s.now)
    ensures Due(s.cells[run].record.value.recoveryExpires, s'.now)
  {
    s' := Later(s0, s, DueAt(s.cells[run].record.value, s.now));
  }

  /** One pass over a record whose claim is due and whose lease is over. */
  lemma PassLeads(s0: System, s: System, run: RunId, world: World) returns (s': System, q: Token)
    requires Open(s, run) && Leads(s0, s, ASSUMED) && Due(s.cells[run].record.value.recoveryExpires, s.now)
    requires s.cells[run].lease.terminal && s.cells[run].lease.token.None?
    requires world.marker == Found && NeedsReconciliation(s.cells[run].record.value.state) ==>
               CommitCount(s.history, run) > 0 && Searchable(s.cells[run].record.value.submittedAt, s.now)
    ensures Leads(s0, s', ASSUMED) && SystemInv(s') && run in s'.cells
    ensures s'.cells[run].record == Some(PassResult(Claimed(s.cells[run].record.value, q, s.now), world, s.now))
    ensures s'.cells[run].lease == s.cells[run].lease
  {
    q := Highest(s.issued) + 1;
    var cells, steps := PassIsProtocolRun(ContextOf(s, run, ASSUMED), s.cells[run], q, world);
    s' := PathLeads(s, run, q, cells, steps, |steps|, ASSUMED);
    LeadsKeeps(s, s');
    LeadsOn(s0, s, s', ASSUMED);
  }

  /** A perfect pass closes. */
  lemma Passed(s0: System, s: System, run: RunId) returns (s': System)
    requires Open(s, run) && Leads(s0, s, ASSUMED) && Due(s.cells[run].record.value.recoveryExpires, s.now)
    requires s.cells[run].lease.terminal && s.cells[run].lease.token.None?
    requires NeedsReconciliation(s.cells[run].record.value.state) ==>
               CommitCount(s.history, run) > 0 && Searchable(s.cells[run].record.value.submittedAt, s.now)
    ensures Leads(s0, s', ASSUMED) && ClosedAs(s', run, Destiny(s.cells[run].record.value))
  {
    var q;
    s', q := PassLeads(s0, s, run, PERFECT);
    assert CellInv(run, s.cells[run], CommitCount(s.history, run), s.issued);
    PerfectPassCloses(run, s.cells[run], CommitCount(s.history, run), q, s.now);
  }

  lemma PerfectPassCloses(run: RunId, c: Cell, commits: nat, q: Token, now: Time)
    requires RecordInv(run, c, commits) && c.record.Some? && Recoverable(c.record.value.state)
    ensures var r := PassResult(Claimed(c.record.value, q, now), PERFECT, now);
            r.state == Destiny(c.record.value) && r.active.None?
  {
  }

  /** A confirmed record that still asks for its marker: unusable credentials move it on to cleanup. */
  lemma LockedOutMovesOn(s0: System, s: System, run: RunId) returns (s': System)
    requires Open(s, run) && Leads(s0, s, ASSUMED) && Due(s.cells[run].record.value.recoveryExpires, s.now)
    requires s.cells[run].lease.terminal && s.cells[run].lease.token.None?
    requires s.cells[run].record.value.confirmedAt.Some?
    ensures Open(s', run) && Leads(s0, s', ASSUMED) && s'.cells[run].lease == s.cells[run].lease
    ensures s'.cells[run].record.value.submittedAt.Some? <==> s.cells[run].record.value.submittedAt.Some?
    ensures !NeedsReconciliation(s'.cells[run].record.value.state)
  {
    var q;
    s', q := PassLeads(s0, s, run, LOCKED_OUT);
    LockedOut(s.cells[run].record.value, q, s.now);
  }

  lemma LockedOut(rec: Record, q: Token, now: Time)
    requires rec.confirmedAt.Some?
    ensures var r := PassResult(Claimed(rec, q, now), LOCKED_OUT, now);
            Recoverable(r.state) && !NeedsReconciliation(r.state) && r.submittedAt == rec.submittedAt
  {
  }

  lemma ConfirmedCloses(s0: System, s: System, run: RunId) returns (s': System)
    requires Open(s, run) && Leads(s0, s, ASSUMED) && s.cells[run].record.value.confirmedAt.Some?
    ensures Leads(s0, s', ASSUMED) && ClosedAs(s', run, Complete)
  {
    assert CellInv(run, s.cells[run], CommitCount(s.history, run), s.issued);
    ConfirmedWasSubmitted(run, s.cells[run], CommitCount(s.history, run));
    var ended := LeaseEnds(s0, s, run);
    var due := ComesDue(s0, ended, run);
    if NeedsReconciliation(s.cells[run].record.value.state) {
      var deferred := LockedOutMovesOn(s0, due, run);
      due := ComesDue(s0, deferred, run);
    }
    s' := Passed(s0, due, run);
  }

  lemma ConfirmedWasSubmitted(run: RunId, c: Cell, commits: nat)
    requires RecordInv(run, c, commits) && c.record.Some? && c.record.value.confirmedAt.Some?
    ensures c.record.value.submittedAt.Some?
  {
  }

  /** A record that was never submitted. */
  lemma UnsubmittedCloses(s: System, run: RunId) returns (s': System)
    requires Open(s, run) && s.cells[run].record.value.submittedAt.None?
    ensures Leads(s, s', ASSUMED) && ClosedAs(s', run, Unchanged)
  {
    Stay(s, ASSUMED);
    var ended := LeaseEnds(s, s, run);
    assert CellInv(run, s.cells[run], CommitCount(s.history, run), s.issued);
    var due := ComesDue(s, ended, run);
    s' := Passed(s, due, run);
  }

  /** The next pass finds the marker in time. */
  lemma NextSearchCloses(s0: System, s: System, run: RunId) returns (s': System)
    requires Open(s, run) && Leads(s0, s, ASSUMED) && Undecided(s.cells[run]) && CommitCount(s.history, run) > 0
    requires Searchable(s.cells[run].record.value.submittedAt, DueAt(s.cells[run].record.value, s.now))
    ensures Leads(s0, s', ASSUMED) && ClosedAs(s', run, Complete)
  {
    var ended := LeaseEnds(s0, s, run);
    var due := ComesDue(s0, ended, run);
    s' := Passed(s0, due, run);
  }

  /** The worker that holds the lease hears the answer and reports the commit. */
  lemma WorkerReportsCommit(s0: System, s: System, run: RunId, t: Token) returns (s': System)
    requires Open(s, run) && Leads(s0, s, ASSUMED) && Undecided(s.cells[run]) && CommitCount(s.history, run) > 0
    requires s.cells[run].lease.token == Some(t)
    requires At(s.cells[run], t, Executing) || At(s.cells[run], t, Acknowledged)
    ensures Open(s', run) && Leads(s0, s', ASSUMED) && s'.cells[run].record.value.confirmedAt.Some?
  {
    var c := s.cells[run];
    if At(c, t, Executing) {
      var heard := PutWorker(c, t, c.workers[t].(phase := Acknowledged));
      StepOn(s0, s, run, PublishAnswered(t), heard);
      s' := CommitRecorded(s0, Put(s, run, heard), run, t);
    } else {
      s' := CommitRecorded(s0, s, run, t);
    }
  }

  lemma CommitRecorded(s0: System, s: System, run: RunId, t: Token) returns (s': System)
    requires Open(s, run) && Leads(s0, s, ASSUMED) && s.cells[run].lease.token == Some(t)
    requires At(s.cells[run], t, Acknowledged)
    ensures Open(s', run) && Leads(s0, s', ASSUMED) && s'.cells[run].record.value.confirmedAt.Some?
  {
    var x, c := ContextOf(s, run, ASSUMED), s.cells[run];
    assert CellInv(run, c, x.commits, s.issued);
    assert WorkerInv(c, x.commits, t, c.workers[t]);
    var c' := CommitIsRecorded(x, c, t);
    StepOn(s0, s, run, WorkerEvent(t, 0, 0, Acked), c');
    s' := Put(s, run, c');
  }

  lemma CommitIsRecorded(x: Context, c: Cell, t: Token) returns (c': Cell)
    requires RecordInv(x.run, c, x.commits) && At(c, t, Acknowledged) && WorkerInv(c, x.commits, t, c.workers[t])
    requires c.lease.token == Some(t) && c.lease.userId == c.userId
    ensures CellNext(x, c, WorkerEvent(t, 0, 0, Acked), c')
    ensures c'.record.Some? && c'.record.value.confirmedAt.Some? && Recoverable(c'.record.value.state)
  {
    var rec := c.record.value.(state := State.Committed, active := None, confirmedAt := Some(x.now));
    c' := PutWorker(c, t, c.workers[t].(phase := Confirmed)).(record := Some(rec));
  }

  /** A recovery actor that has the marker in hand writes it down. */
  lemma MarkerWritten(s0: System, s: System, run: RunId) returns (s': System)
    requires Open(s, run) && Leads(s0, s, ASSUMED) && HolderIn(s.cells[run], MarkerFound)
    ensures Open(s', run) && Leads(s0, s', ASSUMED) && s'.cells[run].record.value.confirmedAt.Some?
  {
    var c, q := s.cells[run], s.cells[run].record.value.recoveryToken.value;
    var c' := GoOn(c.(record := Some(MarkedCommitted(c.record.value, s.now))), q, Cleaning);
    StepOn(s0, s, run, Conclude(q, Acked), c');
    s' := Put(s, run, c');
  }

  lemma ReadGoesOn(x: Context, c: Cell, q: Token)
    requires Is(c, q, Claiming) && Holds(c, q) && NeedsReconciliation(c.record.value.state)
    ensures CellNext(x, c, Read(q, true, Ready), GoOn(c, q, Reconciling))
  {
  }

  /** A recovery actor that has claimed the record goes on to search. */
  lemma SearchStarts(s0: System, s: System, run: RunId) returns (s': System)
    requires Open(s, run) && Leads(s0, s, ASSUMED) && Undecided(s.cells[run]) && HolderIn(s.cells[run], Claiming)
    requires NeedsReconciliation(s.cells[run].record.value.state)
    ensures Open(s', run) && Leads(s0, s', ASSUMED) && SameRecord(s, s', run)
    ensures s'.now == s.now && s'.history == s.history && HolderIn(s'.cells[run], Reconciling)
  {
    var c, q := s.cells[run], s.cells[run].record.value.recoveryToken.value;
    ReadGoesOn(ContextOf(s, run, ASSUMED), c, q);
    StepOn(s0, s, run, Read(q, true, Ready), GoOn(c, q, Reconciling));
    s' := Put(s, run, GoOn(c, q, Reconciling));
  }

  /** A search under way comes to find the marker. */
  lemma SearchFinds(s0: System, s: System, run: RunId) returns (s': System)
    requires Open(s, run) && Leads(s0, s, ASSUMED) && CommitCount(s.history, run) > 0
    requires Searchable(s.cells[run].record.value.submittedAt, s.now) && HolderIn(s.cells[run], Reconciling)
    ensures Open(s', run) && Leads(s0, s', ASSUMED) && HolderIn(s'.cells[run], MarkerFound)
  {
    var c, q := s.cells[run], s.cells[run].record.value.recoveryToken.value;
    StepOn(s0, s, run, Reconcile(q, Found), GoOn(c, q, MarkerFound));
    s' := Put(s, run, GoOn(c, q, MarkerFound));
  }

  /** An undecided record that can be recovered asks for its marker. */
  lemma UndecidedSearches(run: RunId, c: Cell, commits: nat)
    requires RecordInv(run, c, commits) && Undecided(c) && Recoverable(c.record.value.state)
    ensures NeedsReconciliation(c.record.value.state)
  {
  }

  lemma UndecidedCloses(s: System, run: RunId) returns (s': System)
    requires Open(s, run) && Undecided(s.cells[run]) && !StuckIn(s, run)
    ensures Leads(s, s', ASSUMED) && ClosedAs(s', run, Complete)
  {
    Stay(s, ASSUMED);
    var c := s.cells[run];
    assert CellInv(run, c, CommitCount(s.history, run), s.issued);
    UndecidedSearches(run, c, CommitCount(s.history, run));
    if HolderIn(c, MarkerFound) {
      var written := MarkerWritten(s, s, run);
      s' := ConfirmedCloses(s, written, run);
    } else {
      var landed := ComesToHistory(s, s, run);
      if WorkerConfirms(c) {
        var reported := WorkerReportsCommit(s, landed, run, c.lease.token.value);
        s' := ConfirmedCloses(s, reported, run);
      } else if Searchable(c.record.value.submittedAt, DueAt(c.record.value, s.now)) {
        s' := NextSearchCloses(s, landed, run);
      } else {
        var searching := landed;
        if HolderIn(c, Claiming) { searching := SearchStarts(s, landed, run); }
        var found := SearchFinds(s, searching, run);
        var written := MarkerWritten(s, found, run);
        s' := ConfirmedCloses(s, written, run);
      }
    }
  }

  /**
   Whatever happened before, a recoverable record of any state satisfying the invariant can still
   close exactly when it is not stuck, and then with its destiny and a free fence.
   */
  lemma ClosesExactlyUnlessStuck(s: System, run: RunId)
    requires Open(s, run)
    ensures (exists s' :: Leads(s, s', ASSUMED) && ClosedAs(s', run, Destiny(s.cells[run].record.value)))
            <==> !StuckIn(s, run)
  {
    var rec := s.cells[run].record.value;
    assert CellInv(run, s.cells[run], CommitCount(s.history, run), s.issued);
    if StuckIn(s, run) {
      forall s' | Leads(s, s', ASSUMED) ensures !ClosedAs(s', run, Destiny(rec)) { StuckKeepsFence(s, s', run); }
    } else if rec.submittedAt.None? {
      var s' := UnsubmittedCloses(s, run);
    } else if rec.confirmedAt.Some? {
      Stay(s, ASSUMED);
      var s' := ConfirmedCloses(s, s, run);
    } else {
      var s' := UndecidedCloses(s, run);
    }
  }
}
