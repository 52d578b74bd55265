/** What every step of the protocol keeps, and what that means for whole runs. */
module ProtocolSafety {
  import opened Wrappers
  import opened Publication
  import opened Protocol

  // ----- The invariant of one cell, given how many commits its run has -----

  predicate NeverSubmitted(state: State) {
    state == Preparing || state == Staging || state == CleanupPending || state == CleanupRequired || state == Unchanged
  }

  predicate Unresolved(state: State) {
    state == Publishing || state == Uncertain || state == CleanupRequired
  }

  predicate Resolved(state: State) {
    state == Committed || state == Uncertain || state == CleanupPending || state == Complete
  }

  ghost predicate RecordInv(run: RunId, c: Cell, commits: nat) {
    match c.record
    case None => c.inFlight == 0 && commits == 0 && c.creator.None? && !c.claimed
    case Some(rec) =>
      && c.creator.Some?
      && rec.userId == c.userId && rec.generation == c.generation && rec.targetKey == c.target
      && rec.submissionId == run
      && (rec.active.None? || rec.active == Some(c.target))
      && c.inFlight + commits <= 1
      && (c.inFlight > 0 ==> c.staging)
      && (rec.submittedAt.None? ==>
            && rec.confirmedAt.None? && c.inFlight + commits == 0
            && NeverSubmitted(rec.state))
      && (rec.submittedAt.Some? && rec.confirmedAt.None? ==>
            rec.active == Some(c.target) && Unresolved(rec.state))
      && (rec.confirmedAt.Some? ==>
            rec.submittedAt.Some? && commits == 1 && Resolved(rec.state))
      && (IsClosed(rec.state) ==> rec.active.None?)
      && (rec.recoveryToken.Some? ==> c.claimed && (Recoverable(rec.state) || rec.state == Unchanged))
      && (rec.state == CleanupRequired ==> c.claimed)
      && (!c.claimed ==> rec.recoveryExpires.None?)
  }

  /** prepare_started is recorded and publish_submitted not yet attempted. */
  predicate Preparatory(p: Phase) {
    p.Prepared? || p.StagingSent? || p.StagingMade? || p.StagingBroken? || p.Loading? || p.BatchSent? || p.Finalizing?
  }

  predicate UsesStaging(p: Phase) {
    p.StagingMade? || p.Loading? || p.BatchSent? || p.Finalizing?
  }

  predicate PastCommit(p: Phase) {
    p.Confirmed? || p.StagingDropped? || p.StagingNotDropped?
  }

  predicate PastSubmit(p: Phase) {
    p.Submitted? || p.Executing? || p.ExecuteFailed? || p.Acknowledged? || PastCommit(p)
  }

  /** The record of a worker that got past prepare_started. */
  ghost predicate WorkerInv(c: Cell, commits: nat, t: Token, w: Worker) {
    if w.phase == Start then !w.publishSubmitted
    else if w.phase == Stopped then true
    else
      && c.record.Some? && c.creator == Some(t)
      && var rec := c.record.value;
         && (Preparatory(w.phase) ==>
               rec.submittedAt.None? && !w.publishSubmitted && (!c.claimed ==> rec.active == Some(c.target)))
         && (UsesStaging(w.phase) && !c.claimed ==> c.staging)
         && (PastSubmit(w.phase) ==> w.publishSubmitted)
         && (w.phase == Submitted ==> c.inFlight + commits == 0 && c.staging)
         && (w.phase == Acknowledged ==> commits == 1)
         && (PastCommit(w.phase) ==> rec.confirmedAt.Some?)
         && (w.phase.AbortDropped? || w.phase.AbortNotDropped? ==> !w.publishSubmitted)
         && (rec.state == Complete ==> c.claimed)
         && (w.publishSubmitted ==> rec.submittedAt.Some?)
         && (!w.publishSubmitted ==> c.inFlight + commits == 0)
  }

  ghost predicate RecovererInv(c: Cell, commits: nat, q: Token)
    requires q in c.recoverers
  {
    && c.record.Some?
    && var rec := c.record.value;
       match c.recoverers[q]
       case Claiming => true
       case Reconciling => rec.submittedAt.Some?
       case MarkerFound => rec.submittedAt.Some? && (Holds(c, q) ==> commits == 1)
       case _ => rec.submittedAt.None? || rec.confirmedAt.Some?
  }

  ghost predicate TokensInv(c: Cell, issued: set<Token>) {
    && c.lease.userId == c.userId
    && (c.lease.token.Some? ==> c.lease.token.value in issued)
    && (c.creator.Some? ==> c.creator.value in issued)
    && c.workers.Keys <= issued && c.recoverers.Keys <= issued
    && (c.claimed ==> !Armed(c))
    && (c.recoverers != map[] ==> c.claimed)
  }

  ghost predicate CellInv(run: RunId, c: Cell, commits: nat, issued: set<Token>) {
    && RecordInv(run, c, commits)
    && TokensInv(c, issued)
    && (forall t :: t in c.workers ==> WorkerInv(c, commits, t, c.workers[t]))
    && (forall q :: q in c.recoverers ==> RecovererInv(c, commits, q))
  }

  predicate Engaged(w: Worker) { !w.phase.Start? && !w.phase.Stopped? }

  // ----- Frames: what a step must still show when it touches one actor -----

  /** Only worker `t` and the remote side changed. */
  lemma ReplaceWorker(run: RunId, c: Cell, c': Cell, commits: nat, issued: set<Token>, t: Token)
    requires CellInv(run, c, commits, issued) && t in c.workers && t in c'.workers && Engaged(c.workers[t])
    requires c' == c.(workers := c.workers[t := c'.workers[t]], staging := c'.staging,
                      creating := c'.creating, inFlight := c'.inFlight)
    requires RecordInv(run, c', commits) && WorkerInv(c', commits, t, c'.workers[t])
    requires c.claimed ==> !Armed(c')
    ensures CellInv(run, c', commits, issued)
  {
    assert WorkerInv(c, commits, t, c.workers[t]);
    forall u | u in c'.workers && u != t ensures WorkerInv(c', commits, u, c'.workers[u]) {
      assert WorkerInv(c, commits, u, c.workers[u]);
    }
    KeepRecoverers(c, c', commits);
  }

  /** Recoverers look at the record and the commits only. */
  lemma KeepRecoverers(c: Cell, c': Cell, commits: nat)
    requires c'.record == c.record && c'.claimed == c.claimed && c'.recoverers == c.recoverers
    requires forall q :: q in c.recoverers ==> RecovererInv(c, commits, q)
    ensures forall q :: q in c'.recoverers ==> RecovererInv(c', commits, q)
  {
    forall q | q in c'.recoverers ensures RecovererInv(c', commits, q) {
      assert RecovererInv(c, commits, q);
    }
  }

  /** The record's recovery token is as before, or gone. */
  predicate SameToken(rec: Record, rec': Record) {
    rec'.recoveryToken.None? || rec'.recoveryToken == rec.recoveryToken
  }

  /** A claimed record is never submitted or unconfirmed by its worker. */
  predicate SameDestiny(rec: Record, rec': Record) {
    && rec'.submittedAt.Some? == rec.submittedAt.Some?
    && (rec.confirmedAt.Some? ==> rec'.confirmedAt.Some?)
  }

  /** Worker `t`, whose token passes the lease check, rewrote the record. */
  ghost predicate Rewritten(run: RunId, c: Cell, commits: nat, t: Token, c': Cell) {
    && t in c.workers && t in c'.workers && c.lease.token == Some(t) && c'.creator == Some(t)
    && (c.record.None? || Engaged(c.workers[t]))
    && c' == c.(workers := c.workers[t := c'.workers[t]], record := c'.record, creator := c'.creator)
    && RecordInv(run, c', commits) && WorkerInv(c', commits, t, c'.workers[t])
    && (c.claimed ==> && c.record.Some? && c'.record.Some? && SameDestiny(c.record.value, c'.record.value)
                      && !CanSubmit(c', c'.workers[t]) && SameToken(c.record.value, c'.record.value))
  }

  lemma ReplaceRecord(run: RunId, c: Cell, c': Cell, commits: nat, issued: set<Token>, t: Token)
    requires CellInv(run, c, commits, issued) && Rewritten(run, c, commits, t, c')
    ensures CellInv(run, c', commits, issued)
  {
    assert WorkerInv(c, commits, t, c.workers[t]);
    forall q | q in c'.recoverers ensures RecovererInv(c', commits, q) {
      assert RecovererInv(c, commits, q);
    }
    forall u | u in c'.workers && u != t ensures WorkerInv(c', commits, u, c'.workers[u]) {
      assert WorkerInv(c, commits, u, c.workers[u]);
    }
  }

  /** Recovery actor `q` changed the record or dropped staging. */
  lemma ReplaceByRecovery(run: RunId, c: Cell, c': Cell, commits: nat, issued: set<Token>, q: Token)
    requires CellInv(run, c, commits, issued) && c.record.Some? && c'.record.Some?
    requires c' == c.(record := c'.record, claimed := true, recoverers := c'.recoverers, staging := c'.staging)
    requires !Armed(c) && (c'.staging ==> c.staging)
    requires c'.record.value.submittedAt == c.record.value.submittedAt
    requires SameToken(c.record.value, c'.record.value) || c'.record.value.recoveryToken == Some(q)
    requires c.record.value.confirmedAt.Some? ==> c'.record.value.confirmedAt.Some?
    requires c.staging ==> c'.staging || c.record.value.submittedAt.None? || c.record.value.confirmedAt.Some?
    requires RecordInv(run, c', commits) && q in issued
    requires forall p :: p in c'.recoverers && p != q ==> p in c.recoverers && c'.recoverers[p] == c.recoverers[p]
    requires q in c'.recoverers ==> RecovererInv(c', commits, q)
    ensures CellInv(run, c', commits, issued)
  {
    forall u | u in c'.workers ensures WorkerInv(c', commits, u, c'.workers[u]) {
      assert WorkerInv(c, commits, u, c.workers[u]);
    }
    forall p | p in c'.recoverers && p != q ensures RecovererInv(c', commits, p) {
      assert RecovererInv(c, commits, p);
    }
  }

  // ----- Every step inside a cell keeps the cell's invariant -----

  lemma CellStepKeeps(x: Context, c: Cell, step: CellStep, c': Cell)
    requires StepFrom(x, c, step, c')
    ensures CellInv(x.run, c', x.commits, x.issued + Issues(step))
  {
    if step.GiveLease? || step.RenewLease? || step.EndLease? {
      LeaseKeeps(x, c, step, c');
    } else if step.LandCreate? || step.DropCreate? || step.FailPublish? {
      RemoteKeeps(x, c, step, c');
    } else if step.WorkerEvent? {
      EventKeeps(x, c, step, c');
    } else if step.WorkerCrash? {
      CrashKeeps(x, c, step, c');
    } else if IsRecoveryStep(step) {
      RecoveryKeeps(x, c, step, c');
    } else {
      WorkerKeeps(x, c, step, c');
    }
    assert x.issued + {} == x.issued;
  }

  ghost predicate StepFrom(x: Context, c: Cell, step: CellStep, c': Cell) {
    && x.assumed.disarmed && CellInv(x.run, c, x.commits, x.issued) && CellNext(x, c, step, c')
    && !Misled(x, c, step)
  }

  /** A recovery actor that holds the record takes somebody else's marker for the run's. */
  predicate Misled(x: Context, c: Cell, step: CellStep) {
    step.Reconcile? && step.verdict == Found && Holds(c, step.recoverer) && x.commits == 0
  }

  lemma LeaseKeeps(x: Context, c: Cell, step: CellStep, c': Cell)
    requires StepFrom(x, c, step, c') && (step.GiveLease? || step.RenewLease? || step.EndLease?)
    ensures CellInv(x.run, c', x.commits, x.issued + Issues(step))
  {
    forall t | t in c'.workers ensures WorkerInv(c', x.commits, t, c'.workers[t]) {
      if t in c.workers && c'.workers[t] == c.workers[t] {
        assert WorkerInv(c, x.commits, t, c.workers[t]);
      }
    }
    KeepRecoverers(c, c', x.commits);
  }

  lemma RemoteKeeps(x: Context, c: Cell, step: CellStep, c': Cell)
    requires StepFrom(x, c, step, c') && (step.LandCreate? || step.DropCreate? || step.FailPublish?)
    ensures CellInv(x.run, c', x.commits, x.issued)
  {
    forall t | t in c'.workers ensures WorkerInv(c', x.commits, t, c'.workers[t]) {
      assert WorkerInv(c, x.commits, t, c.workers[t]);
    }
    KeepRecoverers(c, c', x.commits);
  }

  lemma CrashKeeps(x: Context, c: Cell, step: CellStep, c': Cell)
    requires StepFrom(x, c, step, c') && step.WorkerCrash?
    ensures CellInv(x.run, c', x.commits, x.issued)
  {
    forall t | t in c'.workers ensures WorkerInv(c', x.commits, t, c'.workers[t]) {
      assert WorkerInv(c, x.commits, t, c.workers[t]);
    }
    KeepRecoverers(c, c', x.commits);
  }

  predicate IsRecoveryStep(step: CellStep) {
    || step.Claim? || step.Read? || step.Reconcile? || step.Conclude? || step.DropStaging?
    || step.Finish? || step.GiveUp? || step.RecovererCrash?
  }

  lemma WorkerKeeps(x: Context, c: Cell, step: CellStep, c': Cell)
    requires StepFrom(x, c, step, c')
    requires || step.WorkerMove? || step.SendCreate? || step.CreateAnswered? || step.SendPublish?
             || step.PublishAnswered? || step.DropAfterCommit? || step.DropInAbort?
    ensures CellInv(x.run, c', x.commits, x.issued)
  {
    var t := step.worker;
    assert WorkerInv(c, x.commits, t, c.workers[t]);
    if step.WorkerMove? {
      MoveKeeps(c, c', x.commits, t);
    } else if step.SendPublish? || step.PublishAnswered? {
      PublishKeeps(x, c, step, c');
    } else {
      StagingKeeps(x, c, step, c');
    }
    ReplaceWorker(x.run, c, c', x.commits, x.issued, t);
  }

  lemma MoveKeeps(c: Cell, c': Cell, commits: nat, t: Token)
    requires t in c.workers && WorkerInv(c, commits, t, c.workers[t])
    requires t in c'.workers && LocalMove(c.workers[t], c'.workers[t]) && c' == PutWorker(c, t, c'.workers[t])
    ensures Engaged(c.workers[t]) && WorkerInv(c', commits, t, c'.workers[t])
    ensures CanSubmit(c', c'.workers[t]) ==> CanSubmit(c, c.workers[t])
  {
  }

  lemma PublishKeeps(x: Context, c: Cell, step: CellStep, c': Cell)
    requires RecordInv(x.run, c, x.commits) && CellNext(x, c, step, c') && (step.SendPublish? || step.PublishAnswered?)
    requires WorkerInv(c, x.commits, step.worker, c.workers[step.worker])
    ensures Engaged(c.workers[step.worker])
    ensures RecordInv(x.run, c', x.commits) && WorkerInv(c', x.commits, step.worker, c'.workers[step.worker])
    ensures CanSubmit(c', c'.workers[step.worker]) ==> CanSubmit(c, c.workers[step.worker])
  {
  }

  lemma StagingKeeps(x: Context, c: Cell, step: CellStep, c': Cell)
    requires RecordInv(x.run, c, x.commits) && CellNext(x, c, step, c')
    requires step.SendCreate? || step.CreateAnswered? || step.DropAfterCommit? || step.DropInAbort?
    requires WorkerInv(c, x.commits, step.worker, c.workers[step.worker])
    ensures Engaged(c.workers[step.worker])
    ensures RecordInv(x.run, c', x.commits) && WorkerInv(c', x.commits, step.worker, c'.workers[step.worker])
    ensures CanSubmit(c', c'.workers[step.worker]) ==> CanSubmit(c, c.workers[step.worker])
  {
    if step.DropAfterCommit? {
      DropKeeps(x, c, step, c');
    } else if step.DropInAbort? {
      AbortDropKeeps(x, c, step, c');
    }
  }

  lemma DropKeeps(x: Context, c: Cell, step: CellStep, c': Cell)
    requires RecordInv(x.run, c, x.commits) && CellNext(x, c, step, c') && step.DropAfterCommit?
    requires WorkerInv(c, x.commits, step.worker, c.workers[step.worker])
    ensures Engaged(c.workers[step.worker])
    ensures RecordInv(x.run, c', x.commits) && WorkerInv(c', x.commits, step.worker, c'.workers[step.worker])
    ensures CanSubmit(c', c'.workers[step.worker]) ==> CanSubmit(c, c.workers[step.worker])
  {
  }

  lemma AbortDropKeeps(x: Context, c: Cell, step: CellStep, c': Cell)
    requires RecordInv(x.run, c, x.commits) && CellNext(x, c, step, c') && step.DropInAbort?
    requires WorkerInv(c, x.commits, step.worker, c.workers[step.worker])
    ensures Engaged(c.workers[step.worker])
    ensures RecordInv(x.run, c', x.commits) && WorkerInv(c', x.commits, step.worker, c'.workers[step.worker])
    ensures CanSubmit(c', c'.workers[step.worker]) ==> CanSubmit(c, c.workers[step.worker])
  {
  }

  lemma EventKeeps(x: Context, c: Cell, step: CellStep, c': Cell)
    requires StepFrom(x, c, step, c') && step.WorkerEvent?
    ensures CellInv(x.run, c', x.commits, x.issued)
  {
    var t, w := step.worker, c.workers[step.worker];
    var event := EventOf(w, step.rows, step.bytes).value;
    var outcome := Recorded(Some(c.lease), c.record, CallerOf(c, x.run, t), event, x.now, x.fenceFree);
    if outcome.Failure? || step.delivery == Lost {
      RaisedEventKeeps(x, c, t, c');
    } else {
      assert WorkerInv(c, x.commits, t, w);
      AppliedWorker(x, c, t, event, outcome.value, step.delivery == Acked, c');
      ReplaceRecord(x.run, c, c', x.commits, x.issued, t);
    }
  }

  /** A report moves its worker, and changes nothing but the record and its creator besides. */
  predicate Reported(c: Cell, t: Token, ok: bool, c': Cell) {
    t in c.workers && c' == PutWorker(c, t, AfterEvent(c.workers[t], ok)).(record := c'.record, creator := c'.creator)
  }

  lemma EventShape(x: Context, c: Cell, step: CellStep, c': Cell) returns (ok: bool)
    requires CellNext(x, c, step, c') && step.WorkerEvent?
    ensures Reported(c, step.worker, ok, c')
  {
    var t, w := step.worker, c.workers[step.worker];
    ok := step.delivery == Acked
          && Recorded(Some(c.lease), c.record, CallerOf(c, x.run, t), EventOf(w, step.rows, step.bytes).value,
                      x.now, x.fenceFree).Success?;
  }

  lemma RaisedWorker(c: Cell, commits: nat, t: Token, c': Cell)
    requires t in c.workers && WorkerInv(c, commits, t, c.workers[t])
    requires c' == PutWorker(c, t, AfterEvent(c.workers[t], false))
    ensures WorkerInv(c', commits, t, c'.workers[t])
  {
  }

  /** An event that did not commit only moves its worker to its failure branch. */
  lemma RaisedEventKeeps(x: Context, c: Cell, t: Token, c': Cell)
    requires CellInv(x.run, c, x.commits, x.issued) && t in c.workers
    requires c' == PutWorker(c, t, AfterEvent(c.workers[t], false))
    ensures CellInv(x.run, c', x.commits, x.issued)
  {
    StaysDisarmed(c, t, false, c');
    assert WorkerInv(c, x.commits, t, c.workers[t]);
    RaisedWorker(c, x.commits, t, c');
    forall u | u in c'.workers && u != t ensures WorkerInv(c', x.commits, u, c'.workers[u]) {
      assert WorkerInv(c, x.commits, u, c.workers[u]);
    }
    KeepRecoverers(c, c', x.commits);
  }

  ghost predicate Sends(c: Cell, t: Token, event: Event) {
    && t in c.workers
    && (EventAt(c.workers[t]) == Some(event) || (c.workers[t].phase == BatchSent && event.BatchWritten?))
  }

  /** A committed event leaves the record well formed. */
  lemma AppliedRecord(x: Context, c: Cell, t: Token, event: Event, rec: Record)
    requires CellInv(x.run, c, x.commits, x.issued) && Sends(c, t, event)
    requires Recorded(Some(c.lease), c.record, CallerOf(c, x.run, t), event, x.now, x.fenceFree) == Success(rec)
    ensures c.lease.token == Some(t) && (c.record.None? || Engaged(c.workers[t]))
    ensures c.claimed ==> c.record.Some? && SameDestiny(c.record.value, rec) && !CanSubmit(c, c.workers[t])
    ensures c.record.Some? ==> SameToken(c.record.value, rec)
    ensures RecordInv(x.run, c.(record := Some(rec), creator := Some(t)), x.commits)
  {
    assert WorkerInv(c, x.commits, t, c.workers[t]);
  }

  /** Worker `t` reported, the report committed, and the worker saw the acknowledgement or not. */
  ghost predicate Applied(x: Context, c: Cell, t: Token, event: Event, acked: bool, c': Cell) {
    && t in c.workers && WorkerInv(c, x.commits, t, c.workers[t]) && Sends(c, t, event)
    && RecordInv(x.run, c, x.commits) && !(c.claimed && CanSubmit(c, c.workers[t])) && c'.record.Some?
    && Recorded(Some(c.lease), c.record, CallerOf(c, x.run, t), event, x.now, x.fenceFree) == Success(c'.record.value)
    && c' == PutWorker(c, t, AfterEvent(c.workers[t], acked)).(record := c'.record, creator := Some(t))
  }

  /** ... and its sender where it should be, whether or not it saw the acknowledgement. */
  lemma AppliedPreparation(x: Context, c: Cell, t: Token, event: Event, acked: bool, c': Cell)
    requires Applied(x, c, t, event, acked, c')
    requires event.PrepareStarted? || event.StagingReady? || event.BatchWritten?
    ensures WorkerInv(c', x.commits, t, c'.workers[t])
  {
  }

  lemma AppliedPublication(x: Context, c: Cell, t: Token, event: Event, acked: bool, c': Cell)
    requires Applied(x, c, t, event, acked, c')
    requires event.PublishSubmitted? || event.CommitConfirmed?
    ensures WorkerInv(c', x.commits, t, c'.workers[t])
  {
  }

  lemma AppliedCleanup(x: Context, c: Cell, t: Token, event: Event, acked: bool, c': Cell)
    requires Applied(x, c, t, event, acked, c')
    requires event.CleanupIsPending? || event.CleanupConfirmed?
    ensures WorkerInv(c', x.commits, t, c'.workers[t])
  {
  }

  lemma AppliedAbort(x: Context, c: Cell, t: Token, event: Event, acked: bool, c': Cell)
    requires Applied(x, c, t, event, acked, c')
    requires event.PublishUncertain? || event.AbortConfirmed? || event.AbortUncertain?
    ensures WorkerInv(c', x.commits, t, c'.workers[t])
  {
  }

  /** An event never brings a worker back to where it can submit. */
  lemma StaysDisarmed(c: Cell, t: Token, ok: bool, c': Cell)
    requires t in c.workers && (c.workers[t].phase == Start ==> !ok)
    requires c'.workers == c.workers[t := AfterEvent(c.workers[t], ok)]
    requires c'.staging == c.staging && c'.creating == c.creating
    ensures CanSubmit(c', c'.workers[t]) ==> CanSubmit(c, c.workers[t])
  {
  }

  lemma AppliedEvent(x: Context, c: Cell, t: Token, event: Event, acked: bool, c': Cell)
    requires Applied(x, c, t, event, acked, c')
    ensures WorkerInv(c', x.commits, t, c'.workers[t])
  {
    if event.PrepareStarted? || event.StagingReady? || event.BatchWritten? {
      AppliedPreparation(x, c, t, event, acked, c');
    } else if event.PublishSubmitted? || event.CommitConfirmed? {
      AppliedPublication(x, c, t, event, acked, c');
    } else if event.CleanupIsPending? || event.CleanupConfirmed? {
      AppliedCleanup(x, c, t, event, acked, c');
    } else {
      AppliedAbort(x, c, t, event, acked, c');
    }
  }

  lemma AppliedWorker(x: Context, c: Cell, t: Token, event: Event, rec: Record, acked: bool, c': Cell)
    requires CellInv(x.run, c, x.commits, x.issued) && Sends(c, t, event)
    requires Recorded(Some(c.lease), c.record, CallerOf(c, x.run, t), event, x.now, x.fenceFree) == Success(rec)
    requires c' == PutWorker(c, t, AfterEvent(c.workers[t], acked)).(record := Some(rec), creator := Some(t))
    ensures Rewritten(x.run, c, x.commits, t, c')
  {
    AppliedRecord(x, c, t, event, rec);
    if c.claimed { StaysDisarmed(c, t, acked, c'); }
    assert WorkerInv(c, x.commits, t, c.workers[t]);
    AppliedEvent(x, c, t, event, acked, c');
    WorkersUnread(x.run, c.(record := Some(rec), creator := Some(t)), c'.workers, x.commits);
  }

  lemma WorkersUnread(run: RunId, c: Cell, workers: map<Token, Worker>, commits: nat)
    requires RecordInv(run, c, commits)
    ensures RecordInv(run, c.(workers := workers), commits)
  {
  }

  lemma RecoveryKeeps(x: Context, c: Cell, step: CellStep, c': Cell)
    requires StepFrom(x, c, step, c') && IsRecoveryStep(step)
    ensures CellInv(x.run, c', x.commits, x.issued + Issues(step))
  {
    if step.Claim? {
      ClaimKeepsCell(x, c, step, c');
    } else {
      var q := step.recoverer;
      ActorIsThere(x, c, step, c');
      RecoveryShape(x, c, step, c');
      if step.Read? || step.Reconcile? || step.GiveUp? {
        RecoveryReads(x, c, step, c');
      } else {
        RecoveryWrites(x, c, step, c');
      }
      ReplaceByRecovery(x.run, c, c', x.commits, x.issued, q);
    }
  }

  /** Every recovery step but a claim is one of an actor that has claimed before. */
  lemma ActorIsThere(x: Context, c: Cell, step: CellStep, c': Cell)
    requires StepFrom(x, c, step, c') && IsRecoveryStep(step) && !step.Claim?
    ensures c.claimed && !Armed(c) && step.recoverer in c.recoverers && step.recoverer in x.issued
    ensures RecovererInv(c, x.commits, step.recoverer)
  {
    assert step.recoverer in c.recoverers;
  }

  lemma ClaimKeepsCell(x: Context, c: Cell, step: CellStep, c': Cell)
    requires StepFrom(x, c, step, c') && step.Claim?
    ensures CellInv(x.run, c', x.commits, x.issued + {step.recoverer})
  {
    RecoveryReads(x, c, step, c');
    ReplaceByRecovery(x.run, c, c', x.commits, x.issued + {step.recoverer}, step.recoverer);
  }

  /** What recovery actor `q` may change in a cell. */
  ghost predicate Shaped(c: Cell, q: Token, c': Cell) {
    && c.record.Some? && c'.record.Some? && c'.record.value.submittedAt == c.record.value.submittedAt
    && SameToken(c.record.value, c'.record.value)
    && (c.record.value.confirmedAt.Some? ==> c'.record.value.confirmedAt.Some?)
    && (c.staging ==> c'.staging || c.record.value.submittedAt.None? || c.record.value.confirmedAt.Some?)
    && c' == c.(record := c'.record, claimed := true, recoverers := c'.recoverers, staging := c'.staging)
    && forall p :: p in c'.recoverers && p != q ==> p in c.recoverers && c'.recoverers[p] == c.recoverers[p]
  }

  /** A recovery step never touches submission, never unconfirms, and confirms only a real commit. */
  lemma RecoveryShape(x: Context, c: Cell, step: CellStep, c': Cell)
    requires CellNext(x, c, step, c') && IsRecoveryStep(step) && !step.Claim? && c.claimed
    requires RecovererInv(c, x.commits, step.recoverer)
    ensures Shaped(c, step.recoverer, c')
  {
    if step.Read? || step.Reconcile? || step.GiveUp? {
      ReadingShape(x, c, step, c');
    } else {
      WritingShape(x, c, step, c');
    }
  }

  lemma ReadingShape(x: Context, c: Cell, step: CellStep, c': Cell)
    requires CellNext(x, c, step, c') && (step.Read? || step.Reconcile? || step.GiveUp?) && c.claimed
    requires RecovererInv(c, x.commits, step.recoverer)
    ensures Shaped(c, step.recoverer, c')
  {
  }

  lemma WritingShape(x: Context, c: Cell, step: CellStep, c': Cell)
    requires step.Conclude? || step.DropStaging? || step.Finish? || step.RecovererCrash?
    requires CellNext(x, c, step, c') && c.claimed && RecovererInv(c, x.commits, step.recoverer)
    ensures Shaped(c, step.recoverer, c')
  {
  }

  lemma RecoveryReads(x: Context, c: Cell, step: CellStep, c': Cell)
    requires !Misled(x, c, step)
    requires CellNext(x, c, step, c') && RecordInv(x.run, c, x.commits)
    requires step.Claim? || step.Read? || step.Reconcile? || step.GiveUp?
    requires !step.Claim? ==> c.claimed && RecovererInv(c, x.commits, step.recoverer)
    ensures RecordInv(x.run, c', x.commits)
    ensures step.recoverer in c'.recoverers ==> RecovererInv(c', x.commits, step.recoverer)
  {
    if step.Read? { ReadKeeps(x, c, step, c'); }
  }

  lemma ReadKeeps(x: Context, c: Cell, step: CellStep, c': Cell)
    requires CellNext(x, c, step, c') && RecordInv(x.run, c, x.commits) && step.Read?
    requires c.claimed && RecovererInv(c, x.commits, step.recoverer)
    ensures RecordInv(x.run, c', x.commits)
    ensures step.recoverer in c'.recoverers ==> RecovererInv(c', x.commits, step.recoverer)
  {
  }

  lemma RecoveryWrites(x: Context, c: Cell, step: CellStep, c': Cell)
    requires CellNext(x, c, step, c') && RecordInv(x.run, c, x.commits)
    requires step.Conclude? || step.DropStaging? || step.Finish? || step.RecovererCrash?
    requires !step.Claim? ==> c.claimed && RecovererInv(c, x.commits, step.recoverer)
    ensures RecordInv(x.run, c', x.commits)
    ensures step.recoverer in c'.recoverers ==> RecovererInv(c', x.commits, step.recoverer)
  {
  }

  // ----- Recovery leases are short -----

  /** A recovery token is leased for no longer than the recovery lease. */
  ghost predicate TimesInv(c: Cell, now: Time) {
    c.record.Some? && c.record.value.recoveryToken.Some? ==>
      c.record.value.recoveryExpires.Some? && c.record.value.recoveryExpires.value <= now + RECOVERY_LEASE_SECONDS
  }

  lemma TimesKeep(x: Context, c: Cell, step: CellStep, c': Cell)
    requires CellNext(x, c, step, c') && TimesInv(c, x.now)
    ensures TimesInv(c', x.now)
  {
    if step.WorkerEvent? {
      TimesKeepInEvents(x, c, step, c');
    } else if IsRecoveryStep(step) {
      TimesKeepInRecovery(x, c, step, c');
    }
  }

  lemma TimesKeepInEvents(x: Context, c: Cell, step: CellStep, c': Cell)
    requires CellNext(x, c, step, c') && TimesInv(c, x.now) && step.WorkerEvent?
    ensures TimesInv(c', x.now)
  {
  }

  lemma TimesKeepInRecovery(x: Context, c: Cell, step: CellStep, c': Cell)
    requires CellNext(x, c, step, c') && TimesInv(c, x.now) && IsRecoveryStep(step)
    ensures TimesInv(c', x.now)
  {
  }
}
