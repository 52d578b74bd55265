/**
 Whole calls of the connector are runs of the protocol.  Between a worker's actions the environment
 takes its own steps: a sent CREATE lands, a sent publish statement takes effect.
 */
module ConnectorRuns {
  import opened Wrappers
  import opened Publication
  import opened Protocol
  import opened ProtocolSafety
  import opened ProtocolTheorems
  import opened Continuations
  import opened WorkerWalks
  import opened DatabricksConnector

  // ----- Workers whose raised reports left no trace -----

  /** The record and the remote side are where the worker believes them to be. */
  ghost predicate Believes(c: Cell, w: Worker, fenceFree: bool, commits: nat) {
    match w.phase
    case Start => c.record.None? && fenceFree
    case Stopped => true
    case Confirmed => true
    case StagingDropped => true
    case StagingNotDropped => true
    case _ =>
      && c.record.Some? && c.record.value.active == Some(c.target) && c.record.value.confirmedAt.None?
      && c.record.value.submittedAt.Some? == w.publishSubmitted
      && (w.phase == StagingSent ==> c.staging || c.creating > 0)
      && (w.phase == Executing ==> c.inFlight > 0 || commits > 0)
  }

  /** Worker `t` holds the lease of an unclaimed run and believes rightly. */
  ghost predicate Honest(s: System, run: RunId, t: Token) {
    && SystemInv(s) && run in s.cells && t in s.cells[run].workers
    && s.cells[run].lease.token == Some(t) && !s.cells[run].claimed
    && Believes(s.cells[run], s.cells[run].workers[t],
                NoOtherHolder(s.cells, run, s.cells[run].target), CommitCount(s.history, run))
  }

  ghost function WorkerOf(s: System, run: RunId, t: Token): Worker
    requires run in s.cells && t in s.cells[run].workers
  {
    s.cells[run].workers[t]
  }

  // ----- The environment's part -----

  /** The CREATE of a waiting worker lands. */
  lemma StagingLands(s0: System, s: System, run: RunId, t: Token) returns (s': System)
    requires Honest(s, run, t) && Leads(s0, s, ASSUMED) && WorkerOf(s, run, t).phase == StagingSent
    ensures Honest(s', run, t) && Leads(s0, s', ASSUMED) && WorkerOf(s', run, t) == WorkerOf(s, run, t)
    ensures s'.cells[run].staging
  {
    var c := s.cells[run];
    if c.staging {
      s' := s;
    } else {
      var c' := c.(creating := c.creating - 1, staging := true);
      StepOn(s0, s, run, LandCreate, c');
      OthersStay(s, run, c', c.target);
      s' := Put(s, run, c');
    }
  }

  /** The publish statement of a waiting worker takes effect. */
  lemma PublishLands(s0: System, s: System, run: RunId, t: Token) returns (s': System)
    requires Honest(s, run, t) && Leads(s0, s, ASSUMED) && WorkerOf(s, run, t).phase == Executing
    ensures Honest(s', run, t) && Leads(s0, s', ASSUMED) && WorkerOf(s', run, t) == WorkerOf(s, run, t)
    ensures CommitCount(s'.history, run) > 0
  {
    var c := s.cells[run];
    if CommitCount(s.history, run) > 0 {
      s' := s;
    } else {
      var commit := Commit(run, c.target);
      Appended(s.history, commit, run);
      s' := LandsOnce(s, run, commit);
      OneMoreStep(s0, s, Land(run), s', ASSUMED);
      StepKeeps(s, Land(run), s');
      OthersStay(s, run, s'.cells[run], c.target);
    }
  }

  // ----- One action, then any walk -----

  /** What a cell and its worker know, without the rest of the system. */
  ghost predicate Sees(x: Context, c: Cell, t: Token) {
    && RecordInv(x.run, c, x.commits) && t in c.workers && WorkerInv(c, x.commits, t, c.workers[t])
    && c.lease.token == Some(t) && c.lease.userId == c.userId && !c.claimed
    && Believes(c, c.workers[t], x.fenceFree, x.commits)
    && (c.record.Some? && c.record.value.active == Some(c.target) ==> x.fenceFree)
  }

  lemma HonestSees(s: System, run: RunId, t: Token)
    requires Honest(s, run, t)
    ensures Sees(ContextOf(s, run, ASSUMED), s.cells[run], t)
  {
    var c := s.cells[run];
    assert CellInv(run, c, CommitCount(s.history, run), s.issued);
    assert WorkerInv(c, CommitCount(s.history, run), t, c.workers[t]);
    if c.record.Some? && c.record.value.active == Some(c.target) { OwnFenceIsFree(s, run); }
  }

  /** Reports of a worker that believes rightly are accepted. */
  lemma ReportIsAccepted(x: Context, c: Cell, t: Token, event: Event)
    requires Sees(x, c, t) && Moved(c.workers[t], Report(event, true)).Some?
    ensures Answerable(x, c, t, Report(event, true))
  {
  }

  lemma BelievesAfterReport(x: Context, c: Cell, t: Token, event: Event)
    requires Sees(x, c, t) && Moved(c.workers[t], Report(event, true)).Some?
    requires Answerable(x, c, t, Report(event, true))
    ensures var c' := Acted(x, c, t, Report(event, true)); Believes(c', c'.workers[t], x.fenceFree, x.commits)
  {
    if event.PrepareStarted? || event.StagingReady? || event.BatchWritten? || event.PublishSubmitted? {
      BelievesAfterPreparation(x, c, t, event);
    }
  }

  lemma BelievesAfterPreparation(x: Context, c: Cell, t: Token, event: Event)
    requires Sees(x, c, t) && Moved(c.workers[t], Report(event, true)).Some?
    requires Answerable(x, c, t, Report(event, true))
    requires event.PrepareStarted? || event.StagingReady? || event.BatchWritten? || event.PublishSubmitted?
    ensures var c' := Acted(x, c, t, Report(event, true)); Believes(c', c'.workers[t], x.fenceFree, x.commits)
  {
  }

  lemma BelievesAfterRefusal(x: Context, c: Cell, t: Token, event: Event)
    requires Sees(x, c, t) && Moved(c.workers[t], Report(event, false)).Some?
    ensures var c' := Acted(x, c, t, Report(event, false)); Believes(c', c'.workers[t], x.fenceFree, x.commits)
  {
  }

  lemma BelievesAfterOther(x: Context, c: Cell, t: Token, a: Action)
    requires Sees(x, c, t) && Moved(c.workers[t], a).Some? && !a.Report? && Answerable(x, c, t, a)
    ensures var c' := Acted(x, c, t, a); Believes(c', c'.workers[t], x.fenceFree, x.commits)
  {
    if a.Execute? || a.NotSent? || a.Reply? || a.Drop? || a.EnterAbort? { BelievesAfterPublishing(x, c, t, a); }
  }

  lemma BelievesAfterPublishing(x: Context, c: Cell, t: Token, a: Action)
    requires Sees(x, c, t) && Moved(c.workers[t], a).Some? && Answerable(x, c, t, a)
    requires a.Execute? || a.NotSent? || a.Reply? || a.Drop? || a.EnterAbort?
    ensures var c' := Acted(x, c, t, a); Believes(c', c'.workers[t], x.fenceFree, x.commits)
  {
  }

  lemma StaysHonest(x: Context, c: Cell, t: Token, a: Action)
    requires Sees(x, c, t) && Moved(c.workers[t], a).Some? && Answerable(x, c, t, a)
    ensures var c' := Acted(x, c, t, a);
            && t in c'.workers && c'.lease == c.lease && !c'.claimed && c'.target == c.target
            && Believes(c', c'.workers[t], x.fenceFree, x.commits)
  {
    if !a.Report? {
      BelievesAfterOther(x, c, t, a);
    } else if a.ok {
      BelievesAfterReport(x, c, t, a.event);
    } else {
      BelievesAfterRefusal(x, c, t, a.event);
    }
  }

  /** What the action waits for outside happens. */
  lemma EnvironmentAnswers(s0: System, s: System, run: RunId, t: Token, a: Action) returns (s': System)
    requires Honest(s, run, t) && Leads(s0, s, ASSUMED) && Moved(WorkerOf(s, run, t), a).Some?
    ensures Honest(s', run, t) && Leads(s0, s', ASSUMED) && WorkerOf(s', run, t) == WorkerOf(s, run, t)
    ensures a == StagingReply(true) ==> s'.cells[run].staging
    ensures a == Reply(true) ==> CommitCount(s'.history, run) > 0
  {
    s' := s;
    if a == StagingReply(true) {
      s' := StagingLands(s0, s, run, t);
    } else if a == Reply(true) {
      s' := PublishLands(s0, s, run, t);
    }
  }

  lemma ActionRuns(s0: System, s: System, run: RunId, t: Token, a: Action, w': Worker) returns (s': System)
    requires Honest(s, run, t) && Leads(s0, s, ASSUMED) && Moved(WorkerOf(s, run, t), a) == Some(w')
    ensures Honest(s', run, t) && Leads(s0, s', ASSUMED) && WorkerOf(s', run, t) == w'
  {
    var ready := EnvironmentAnswers(s0, s, run, t, a);
    var x, c := ContextOf(ready, run, ASSUMED), ready.cells[run];
    HonestSees(ready, run, t);
    if a.Report? && a.ok { ReportIsAccepted(x, c, t, a.event); }
    var step := ActionIsProtocolStep(x, c, t, a);
    StepOn(s0, ready, run, step, Acted(x, c, t, a));
    StaysHonest(x, c, t, a);
    OthersStay(ready, run, Acted(x, c, t, a), c.target);
    s' := Put(ready, run, Acted(x, c, t, a));
  }

  /** Some continuation brings worker `t`, still believing rightly, to `w`. */
  ghost predicate Attains(s: System, run: RunId, t: Token, w: Worker) {
    exists s' :: Leads(s, s', ASSUMED) && Honest(s', run, t) && WorkerOf(s', run, t) == w
  }

  lemma AttainsOn(s: System, run: RunId, t: Token, w: Worker, a: Action, w': Worker)
    requires Attains(s, run, t, w) && Moved(w, a) == Some(w')
    ensures Attains(s, run, t, w')
  {
    var before :| Leads(s, before, ASSUMED) && Honest(before, run, t) && WorkerOf(before, run, t) == w;
    var s' := ActionRuns(s, before, run, t, a, w');
  }

  /**
   Every walk, in particular every call of the connector with whatever answers, is a run of the
   protocol: from any state satisfying the invariant in which the worker holds its lease, the
   actions and the environment's steps between them lead to where the walk ends.
   */
  lemma CallIsProtocolRun(s: System, run: RunId, t: Token, actions: seq<Action>, w': Worker) returns (s': System)
    requires Honest(s, run, t) && Walks(WorkerOf(s, run, t), actions, w')
    ensures Honest(s', run, t) && Leads(s, s', ASSUMED) && WorkerOf(s', run, t) == w'
  {
    Stay(s, ASSUMED);
    forall w, a, next | Attains(s, run, t, w) && Moved(w, a) == Some(next) ensures Attains(s, run, t, next) {
      AttainsOn(s, run, t, w, a, next);
    }
    WalksInside(WorkerOf(s, run, t), actions, w', w => Attains(s, run, t, w));
    s' :| Leads(s, s', ASSUMED) && Honest(s', run, t) && WorkerOf(s', run, t) == w';
  }

  // ----- From an idle run -----

  /** Nothing of the run is recorded, its lease can be taken and nobody holds its target's fence. */
  ghost predicate Idle(s: System, run: RunId) {
    && SystemInv(s) && run in s.cells && s.cells[run].record.None?
    && !s.cells[run].lease.terminal && s.cells[run].lease.token.None?
    && NoOtherHolder(s.cells, run, s.cells[run].target)
  }

  lemma Leases(s: System, run: RunId) returns (s': System, t: Token)
    requires Idle(s, run)
    ensures Leads(s, s', ASSUMED) && Honest(s', run, t) && WorkerOf(s', run, t) == Worker(Start, false)
  {
    var c := s.cells[run];
    t := Highest(s.issued) + 1;
    assert CellInv(run, c, CommitCount(s.history, run), s.issued);
    var c' := c.(lease := c.lease.(token := Some(t), expires := Some(s.now)),
                 workers := c.workers[t := Worker(Start, false)]);
    Stay(s, ASSUMED);
    s' := StepLeads(s, s, run, GiveLease(t, s.now), c', ASSUMED);
    LeadsKeeps(s, s');
    OthersStay(s, run, c', c.target);
  }

  const PREPARED := PrepareAnswers(true, true, true, true, true)

  /** An idle run can be prepared. */
  lemma Loads(s: System, run: RunId) returns (s': System, t: Token)
    requires Idle(s, run)
    ensures Leads(s, s', ASSUMED) && Honest(s', run, t) && WorkerOf(s', run, t) == Worker(Loading, false)
  {
    var leased;
    leased, t := Leases(s, run);
    PrepareWalks(PREPARED);
    s' := CallIsProtocolRun(leased, run, t, PrepareActions(PREPARED), Worker(Loading, false));
    LeadsOn(s, leased, s', ASSUMED);
  }

  /** What a successful finalize does up to its last report. */
  function PublishActions(): seq<Action> {
    [Validate(true), Report(PublishSubmitted, true)] + [Execute, Reply(true)]
    + [Report(CommitConfirmed, true), Drop(true)]
  }

  lemma SubmissionWalks()
    ensures Walks(Worker(Loading, false), [Validate(true), Report(PublishSubmitted, true)], Worker(Submitted, true))
  {
    WalkTwo(Worker(Loading, false), Validate(true), Report(PublishSubmitted, true));
  }

  lemma ConfirmationWalks()
    ensures Walks(Worker(Acknowledged, true), [Report(CommitConfirmed, true), Drop(true)], Worker(StagingDropped, true))
  {
    WalkTwo(Worker(Acknowledged, true), Report(CommitConfirmed, true), Drop(true));
  }

  lemma PublishWalks()
    ensures Walks(Worker(Loading, false), PublishActions(), Worker(StagingDropped, true))
  {
    SubmissionWalks();
    AnsweredWalks();
    ConfirmationWalks();
    WalkOnto(Worker(Loading, false), [Validate(true), Report(PublishSubmitted, true)], Worker(Submitted, true),
             [Execute, Reply(true)], Worker(Acknowledged, true));
    WalkOnto(Worker(Loading, false), [Validate(true), Report(PublishSubmitted, true)] + [Execute, Reply(true)],
             Worker(Acknowledged, true), [Report(CommitConfirmed, true), Drop(true)], Worker(StagingDropped, true));
  }

  lemma LastReport(x: Context, c: Cell, t: Token)
    requires Sees(x, c, t) && c.workers[t].phase == StagingDropped
    ensures Answerable(x, c, t, Report(CleanupConfirmed, true))
    ensures var c' := Acted(x, c, t, Report(CleanupConfirmed, true));
            c'.record.Some? && c'.record.value.state == Complete
  {
    ReportIsAccepted(x, c, t, CleanupConfirmed);
  }

  lemma LastReportCompletes(s0: System, s: System, run: RunId, t: Token) returns (s': System)
    requires Honest(s, run, t) && Leads(s0, s, ASSUMED) && WorkerOf(s, run, t).phase == StagingDropped
    ensures SystemInv(s') && Leads(s0, s', ASSUMED) && run in s'.cells && s'.cells[run].record.Some?
    ensures s'.cells[run].record.value.state == Complete
  {
    var x, c := ContextOf(s, run, ASSUMED), s.cells[run];
    HonestSees(s, run, t);
    LastReport(x, c, t);
    var c' := Acted(x, c, t, Report(CleanupConfirmed, true));
    var step := ActionIsProtocolStep(x, c, t, Report(CleanupConfirmed, true));
    StepOn(s0, s, run, step, c');
    s' := Put(s, run, c');
  }

  /** A loaded run can be published and its staging dropped. */
  lemma Publishes(s0: System, s: System, run: RunId, t: Token) returns (s': System)
    requires Honest(s, run, t) && Leads(s0, s, ASSUMED) && WorkerOf(s, run, t) == Worker(Loading, false)
    ensures Honest(s', run, t) && Leads(s0, s', ASSUMED) && WorkerOf(s', run, t).phase == StagingDropped
  {
    PublishWalks();
    s' := CallIsProtocolRun(s, run, t, PublishActions(), Worker(StagingDropped, true));
    LeadsOn(s0, s, s', ASSUMED);
  }

  lemma CompleteIsOneCommit(s: System, run: RunId)
    requires SystemInv(s) && run in s.cells && s.cells[run].record.Some? && s.cells[run].record.value.state == Complete
    ensures s.cells[run].record.value.active.None? && CommitCount(s.history, run) == 1
  {
    assert CellInv(run, s.cells[run], CommitCount(s.history, run), s.issued);
  }

  /** The protocol can do its work: every idle run can come to be complete, with exactly one commit. */
  lemma EveryRunCanComplete(s: System, run: RunId) returns (s': System)
    requires Idle(s, run)
    ensures Leads(s, s', ASSUMED) && run in s'.cells && s'.cells[run].record.Some?
    ensures s'.cells[run].record.value.state == Complete && s'.cells[run].record.value.active.None?
    ensures CommitCount(s'.history, run) == 1
  {
    var loaded, t := Loads(s, run);
    var dropped := Publishes(s, loaded, run, t);
    s' := LastReportCompletes(s, dropped, run, t);
    CompleteIsOneCommit(s', run);
  }
}
