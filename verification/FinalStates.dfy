/**
 When a record that is complete, or parked for an operator, can still change, exactly.  Recovery
 leaves such a record alone and the events of a run never look at its state, so it depends on where
 the worker that holds the lease stands.
 */
module FinalStates {
  import opened Wrappers
  import opened Publication
  import opened Protocol
  import opened ProtocolSafety
  import opened ProtocolTheorems
  import opened Continuations
  import opened ConnectorRuns
  import opened Recovery
  import opened Closing
  import opened WorkerWalks
  import LeaseAssumption

  predicate Final(state: State) { state == Complete || state == CleanupRequired }

  /**
   The worker that holds the lease is past its first event.  Behind a complete record, one that has
   only to report the cleaned staging changes nothing.
   */
  predicate Meddles(c: Cell) {
    && c.lease.token.Some? && c.lease.token.value in c.workers && Engaged(c.workers[c.lease.token.value])
    && (c.record.Some? && c.record.value.state == Complete ==> !At(c, c.lease.token.value, StagingDropped))
  }

  // ----- Without a meddler the state stays -----

  ghost predicate Settled(c: Cell, state: State) {
    c.record.Some? && c.record.value.state == state && Final(state) && !Meddles(c)
  }

  lemma SettledStep(x: Context, c: Cell, step: CellStep, c': Cell, state: State)
    requires StepFrom(x, c, step, c') && Settled(c, state)
    ensures Settled(c', state)
  {
    if step.WorkerEvent? {
      SettledEvent(x, c, step, c', state);
    } else if IsRecoveryStep(step) {
      SettledRecovery(x, c, step, c', state);
    } else if step.GiveLease? || step.RenewLease? || step.EndLease? {
      SettledLease(x, c, step, c', state);
    } else {
      SettledOther(x, c, step, c', state);
    }
  }

  lemma SettledLease(x: Context, c: Cell, step: CellStep, c': Cell, state: State)
    requires CellNext(x, c, step, c') && Settled(c, state)
    requires step.GiveLease? || step.RenewLease? || step.EndLease?
    ensures Settled(c', state)
  {
  }

  lemma SettledOther(x: Context, c: Cell, step: CellStep, c': Cell, state: State)
    requires CellNext(x, c, step, c') && Settled(c, state)
    requires !step.WorkerEvent? && !IsRecoveryStep(step)
    requires !step.GiveLease? && !step.RenewLease? && !step.EndLease?
    ensures Settled(c', state)
  {
  }

  lemma SettledRecovery(x: Context, c: Cell, step: CellStep, c': Cell, state: State)
    requires StepFrom(x, c, step, c') && Settled(c, state) && IsRecoveryStep(step)
    ensures Settled(c', state)
  {
    KeepsWorker(x, c, step, c');
    SettledUntouched(x, c, step, c');
  }

  lemma SettledUntouched(x: Context, c: Cell, step: CellStep, c': Cell)
    requires CellNext(x, c, step, c') && IsRecoveryStep(step)
    requires c.record.Some? && Final(c.record.value.state) && c.record.value.recoveryToken.None?
    ensures c'.record == c.record
  {
  }

  lemma SettledEvent(x: Context, c: Cell, step: CellStep, c': Cell, state: State)
    requires StepFrom(x, c, step, c') && Settled(c, state) && step.WorkerEvent?
    ensures Settled(c', state)
  {
    var t, w := step.worker, c.workers[step.worker];
    assert WorkerInv(c, x.commits, t, w);
    if c.lease.token == Some(t) && Engaged(w) {
      SettledReport(x, c, step, c', state);
    } else {
      var ok := EventShape(x, c, step, c');
      CannotRecord(x, c, t, EventOf(w, step.rows, step.bytes).value);
      assert !Engaged(w) ==> !Engaged(AfterEvent(w, false)) by {
        assert w.phase == Start || w.phase == Stopped <==> !Engaged(w);
      }
    }
  }

  /** The last report behind a complete record leaves it complete. */
  lemma SettledReport(x: Context, c: Cell, step: CellStep, c': Cell, state: State)
    requires CellNext(x, c, step, c') && Settled(c, state) && step.WorkerEvent? && RecordInv(x.run, c, x.commits)
    requires c.lease.token == Some(step.worker) && Engaged(c.workers[step.worker])
    ensures Settled(c', state)
  {
    assert c.workers[step.worker].phase == StagingDropped && c.record.value.confirmedAt.Some?;
  }

  ghost predicate SettledIn(s: System, run: RunId, state: State) {
    SystemInv(s) && run in s.cells && Settled(s.cells[run], state)
  }

  lemma SettledNext(s: System, step: Step, s': System, run: RunId, state: State)
    requires SettledIn(s, run, state) && Next(s, step, s', ASSUMED)
    ensures SettledIn(s', run, state)
  {
    StepKeeps(s, step, s');
    if step.On? && step.run == run {
      FromInvariant(s, run, step.cell, s');
      SettledStep(ContextOf(s, run, ASSUMED), s.cells[run], step.cell, s'.cells[run], state);
    }
  }

  lemma SettledForever(s: System, s': System, run: RunId, state: State)
    requires SettledIn(s, run, state) && Leads(s, s', ASSUMED)
    ensures SettledIn(s', run, state)
  {
    forall t, step, t' | SettledIn(t, run, state) && Next(t, step, t', ASSUMED) ensures SettledIn(t', run, state) {
      SettledNext(t, step, t', run, state);
    }
    LeadsInside(s, s', ASSUMED, t => SettledIn(t, run, state));
  }

  // ----- A meddler changes it -----

  /** A system in which worker `t` may still report on a final record. */
  ghost predicate Meddled(s: System, run: RunId, t: Token, rec: Record) {
    && SystemInv(s) && run in s.cells && s.cells[run].record == Some(rec) && Final(rec.state)
    && s.cells[run].lease.token == Some(t) && Meddles(s.cells[run])
    && NoOtherHolder(s.cells, run, s.cells[run].target)
  }

  lemma MeddlerIsSound(s: System, run: RunId, t: Token, rec: Record)
    requires Meddled(s, run, t, rec)
    ensures var c := s.cells[run]; var n := CommitCount(s.history, run);
            && RecordInv(run, c, n) && WorkerInv(c, n, t, c.workers[t])
            && c.lease.userId == c.userId && (c.claimed ==> !Armed(c))
  {
    assert CellInv(run, s.cells[run], CommitCount(s.history, run), s.issued);
  }

  /** The worker is about to report something that changes a final state. */
  predicate Telling(w: Worker) {
    || w.phase == ExecuteFailed || w.phase == Acknowledged || w.phase == StagingNotDropped
    || (w.phase == Aborting && w.publishSubmitted) || w.phase == AbortNotDropped || w.phase == StagingBroken
  }

  lemma Tells(s0: System, s: System, run: RunId, t: Token, rec: Record) returns (s': System)
    requires Meddled(s, run, t, rec) && Leads(s0, s, ASSUMED) && Telling(s.cells[run].workers[t])
    ensures Leads(s0, s', ASSUMED) && run in s'.cells && s'.cells[run].record.Some?
    ensures s'.cells[run].record.value.state != rec.state
  {
    var c, w, x := s.cells[run], s.cells[run].workers[t], ContextOf(s, run, ASSUMED);
    MeddlerIsSound(s, run, t, rec);
    var event := TellingReports(w);
    TellingIsHeard(x, c, t, event);
    var step := ActionIsProtocolStep(x, c, t, Report(event, true));
    StepOn(s0, s, run, step, Acted(x, c, t, Report(event, true)));
    s' := Put(s, run, Acted(x, c, t, Report(event, true)));
  }

  lemma TellingReports(w: Worker) returns (event: Event)
    requires Telling(w)
    ensures EventOf(w, 0, 0) == Some(event)
  {
    event := EventOf(w, 0, 0).value;
  }

  lemma TellingIsHeard(x: Context, c: Cell, t: Token, event: Event)
    requires RecordInv(x.run, c, x.commits) && c.record.Some? && Final(c.record.value.state) && x.fenceFree
    requires t in c.workers && WorkerInv(c, x.commits, t, c.workers[t]) && Telling(c.workers[t])
    requires c.lease.token == Some(t) && c.lease.userId == c.userId && EventOf(c.workers[t], 0, 0) == Some(event)
    ensures Moved(c.workers[t], Report(event, true)).Some? && Answerable(x, c, t, Report(event, true))
    ensures var c' := Acted(x, c, t, Report(event, true));
            c'.record.Some? && c'.record.value.state != c.record.value.state
  {
  }

  function Distance(w: Worker): nat {
    if Telling(w) then 0
    else if w.phase == AbortDropped then 4
    else if w.phase == AbortEnded then 3
    else if w.phase == Aborting || w.phase == Confirmed then 2
    else 1
  }

  /** A worker that has a report ahead of it. */
  predicate Underway(phase: Phase) {
    || phase == Confirmed || phase == Aborting || phase == AbortDropped || phase == AbortEnded
    || phase == StagingSent || phase == Submitted || phase == Executing
  }

  lemma MeddlerStands(run: RunId, c: Cell, commits: nat, t: Token)
    requires RecordInv(run, c, commits) && t in c.workers && WorkerInv(c, commits, t, c.workers[t])
    requires c.record.Some? && Final(c.record.value.state) && c.lease.token == Some(t) && Meddles(c)
    requires c.claimed ==> !Armed(c)
    ensures Telling(c.workers[t]) || Underway(c.workers[t].phase)
  {
  }

  /** A step of worker `t` that takes it nearer to a report and leaves the record alone. */
  ghost predicate Nearer(x: Context, c: Cell, t: Token, step: CellStep, c': Cell) {
    && CellNext(x, c, step, c') && Issues(step) == {} && c'.target == c.target
    && c'.record == c.record && c'.lease == c.lease
    && t in c.workers && t in c'.workers && Engaged(c'.workers[t]) && c'.workers[t].phase != StagingDropped
    && Distance(c'.workers[t]) < Distance(c.workers[t])
  }

  /** The meddling worker's next move towards a report. */
  lemma Approaches(x: Context, c: Cell, t: Token) returns (step: CellStep, c': Cell)
    requires c.record.Some? && t in c.workers && Underway(c.workers[t].phase) && !Telling(c.workers[t])
    ensures Nearer(x, c, t, step, c')
  {
    var w := c.workers[t];
    if w.phase == Confirmed || w.phase == Aborting {
      step, c' := ApproachesByDropping(x, c, t);
    } else if w.phase == AbortDropped {
      step, c' := WorkerEvent(t, 0, 0, Lost), PutWorker(c, t, w.(phase := AbortEnded));
    } else {
      step, c' := ApproachesByMoving(x, c, t);
    }
  }

  lemma ApproachesByDropping(x: Context, c: Cell, t: Token) returns (step: CellStep, c': Cell)
    requires t in c.workers && !Telling(c.workers[t])
    requires c.workers[t].phase == Confirmed || c.workers[t].phase == Aborting
    ensures Nearer(x, c, t, step, c')
  {
    var w := c.workers[t];
    if w.phase == Confirmed {
      step, c' := DropAfterCommit(t, false, false), PutWorker(c, t, w.(phase := StagingNotDropped));
    } else {
      step, c' := DropInAbort(t, false, false), PutWorker(c, t, w.(phase := AbortNotDropped));
    }
  }

  lemma ApproachesByMoving(x: Context, c: Cell, t: Token) returns (step: CellStep, c': Cell)
    requires t in c.workers && !Telling(c.workers[t])
    requires var phase := c.workers[t].phase;
             phase == AbortEnded || phase == StagingSent || phase == Submitted || phase == Executing
    ensures Nearer(x, c, t, step, c')
  {
    var w := c.workers[t];
    var w' := w.(phase := if w.phase == AbortEnded then Aborting
                          else if w.phase == StagingSent then StagingBroken else ExecuteFailed);
    step, c' := WorkerMove(t, w'), PutWorker(c, t, w');
  }

  lemma {:induction false} ComesToTell(s0: System, s: System, run: RunId, t: Token, rec: Record) returns (s': System)
    requires Meddled(s, run, t, rec) && Leads(s0, s, ASSUMED)
    ensures Meddled(s', run, t, rec) && Leads(s0, s', ASSUMED) && Telling(s'.cells[run].workers[t])
    decreases Distance(s.cells[run].workers[t])
  {
    if Telling(s.cells[run].workers[t]) {
      return s;
    }
    MeddlerIsSound(s, run, t, rec);
    MeddlerStands(run, s.cells[run], CommitCount(s.history, run), t);
    var step, c' := Approaches(ContextOf(s, run, ASSUMED), s.cells[run], t);
    StepOn(s0, s, run, step, c');
    OthersStay(s, run, c', c'.target);
    s' := ComesToTell(s0, Put(s, run, c'), run, t, rec);
  }

  /**
   From every state satisfying the invariant in which a record is complete or parked and its target's
   fence is free for it, some continuation leaves that state if and only if the worker that holds the
   lease meddles.
   */
  lemma FinalIsLeftExactlyWhenMeddled(s: System, run: RunId)
    requires SystemInv(s) && run in s.cells && s.cells[run].record.Some? && Final(s.cells[run].record.value.state)
    requires NoOtherHolder(s.cells, run, s.cells[run].target)
    ensures (exists s' :: Leads(s, s', ASSUMED) && run in s'.cells && s'.cells[run].record.Some?
                          && s'.cells[run].record.value.state != s.cells[run].record.value.state)
            <==> Meddles(s.cells[run])
  {
    var rec := s.cells[run].record.value;
    if Meddles(s.cells[run]) {
      Stay(s, ASSUMED);
      var telling := ComesToTell(s, s, run, s.cells[run].lease.token.value, rec);
      var s' := Tells(s, telling, run, s.cells[run].lease.token.value, rec);
    } else {
      forall s' | Leads(s, s', ASSUMED) ensures SettledIn(s', run, rec.state) {
        SettledForever(s, s', run, rec.state);
      }
    }
  }

  /** Behind a complete record the meddling worker stands in one of these phases. */
  lemma MeddlingPhases(s: System, run: RunId)
    requires SystemInv(s) && run in s.cells && s.cells[run].record.Some?
    requires s.cells[run].record.value.state == Complete
    ensures Meddles(s.cells[run]) <==>
            && s.cells[run].lease.token.Some? && s.cells[run].lease.token.value in s.cells[run].workers
            && var phase := s.cells[run].workers[s.cells[run].lease.token.value].phase;
               || phase == Executing || phase == ExecuteFailed || phase == Acknowledged || phase == Confirmed
               || phase == StagingNotDropped || phase == Aborting || phase == AbortEnded
  {
    var c := s.cells[run];
    assert CellInv(run, c, CommitCount(s.history, run), s.issued);
    if c.lease.token.Some? && c.lease.token.value in c.workers {
      CompletePhases(run, c, CommitCount(s.history, run), c.lease.token.value);
    }
  }

  lemma CompletePhases(run: RunId, c: Cell, commits: nat, t: Token)
    requires RecordInv(run, c, commits) && c.record.Some? && c.record.value.state == Complete
    requires t in c.workers && WorkerInv(c, commits, t, c.workers[t])
    ensures var phase := c.workers[t].phase;
            Engaged(c.workers[t]) && phase != StagingDropped <==>
            || phase == Executing || phase == ExecuteFailed || phase == Acknowledged || phase == Confirmed
            || phase == StagingNotDropped || phase == Aborting || phase == AbortEnded
  {
  }

  // ----- Every idle run can come to this -----

  /**
   The publish statement has landed, the worker has not heard yet, holds a lease that is due, and
   nobody has claimed the record.
   */
  ghost predicate Unheard(s: System, run: RunId, t: Token) {
    && Open(s, run) && NoOtherHolder(s.cells, run, s.cells[run].target) && CommitCount(s.history, run) > 0
    && At(s.cells[run], t, Executing) && s.cells[run].lease.token == Some(t) && Due(s.cells[run].lease.expires, s.now)
    && Undecided(s.cells[run]) && !s.cells[run].claimed
    && NeedsReconciliation(s.cells[run].record.value.state)
    && Searchable(s.cells[run].record.value.submittedAt, s.now)
  }

  /** A worker about to submit is slow: its lease comes due, then it submits. */
  lemma SubmitsLate(s0: System, s: System, run: RunId, t: Token) returns (s': System)
    requires Honest(s, run, t) && Leads(s0, s, ASSUMED) && WorkerOf(s, run, t) == Worker(Finalizing, false)
    ensures Open(s', run) && Leads(s0, s', ASSUMED) && NoOtherHolder(s'.cells, run, s'.cells[run].target)
    ensures At(s'.cells[run], t, Submitted) && !s'.cells[run].claimed
    ensures s'.cells[run].lease.token == Some(t) && Due(s'.cells[run].lease.expires, s'.now)
    ensures Undecided(s'.cells[run]) && s'.cells[run].record.value.state == Publishing
    ensures Searchable(s'.cells[run].record.value.submittedAt, s'.now)
  {
    var late := Later(s0, s, s.now + 1 + Until(s.cells[run].lease.expires));
    var c, x := late.cells[run], ContextOf(late, run, ASSUMED);
    HonestSees(late, run, t);
    ReportIsAccepted(x, c, t, PublishSubmitted);
    OwnFenceIsFree(late, run);
    var c' := Acted(x, c, t, Report(PublishSubmitted, true));
    SubmissionRecorded(x, c, t);
    var step := ActionIsProtocolStep(x, c, t, Report(PublishSubmitted, true));
    StepOn(s0, late, run, step, c');
    OthersStay(late, run, c', c.target);
    s' := Put(late, run, c');
  }

  lemma SubmissionRecorded(x: Context, c: Cell, t: Token)
    requires Sees(x, c, t) && c.workers[t] == Worker(Finalizing, false)
    requires Answerable(x, c, t, Report(PublishSubmitted, true))
    ensures var c' := Acted(x, c, t, Report(PublishSubmitted, true));
            && At(c', t, Submitted) && !c'.claimed && c'.lease == c.lease && c'.target == c.target
            && Undecided(c') && c'.record.value.state == Publishing && c'.record.value.submittedAt == Some(x.now)
  {
  }

  lemma EveryRunCanBeUnheard(s: System, run: RunId) returns (s': System, t: Token)
    requires Idle(s, run)
    ensures Leads(s, s', ASSUMED) && Unheard(s', run, t)
  {
    assert Moved(Worker(Loading, false), Validate(true)) == Some(Worker(Finalizing, false));
    var loaded;
    loaded, t := Loads(s, run);
    var checked := ActionRuns(s, loaded, run, t, Validate(true), Worker(Finalizing, false));
    var submitted := SubmitsLate(s, checked, run, t);
    s' := LandsUnheard(s, submitted, run, t);
  }

  lemma LandsUnheard(s0: System, s: System, run: RunId, t: Token) returns (s': System)
    requires Open(s, run) && Leads(s0, s, ASSUMED) && At(s.cells[run], t, Submitted) && !s.cells[run].claimed
    requires s.cells[run].lease.token == Some(t) && Due(s.cells[run].lease.expires, s.now)
    requires Undecided(s.cells[run]) && s.cells[run].record.value.state == Publishing
    requires Searchable(s.cells[run].record.value.submittedAt, s.now)
    ensures Leads(s0, s', ASSUMED) && Unheard(s', run, t)
  {
    var sent := Sent(s0, s, run, t);
    s' := Landed(s0, sent, run);
    OwnFence(s', run);
  }

  /** An undecided record holds its fence. */
  lemma OwnFence(s: System, run: RunId)
    requires Open(s, run) && Undecided(s.cells[run])
    ensures NoOtherHolder(s.cells, run, s.cells[run].target)
  {
    assert CellInv(run, s.cells[run], CommitCount(s.history, run), s.issued);
    OwnFenceIsFree(s, run);
  }

  /** A recovery pass of the given world over an unheard run; the worker stays where it was. */
  lemma UnheardPass(s0: System, s: System, run: RunId, t: Token, world: World) returns (s': System, q: Token)
    requires Unheard(s, run, t) && Leads(s0, s, ASSUMED)
    ensures Leads(s0, s', ASSUMED) && SystemInv(s') && run in s'.cells
    ensures s'.cells[run].record == Some(PassResult(Claimed(s.cells[run].record.value, q, s.now), world, s.now))
    ensures s'.cells[run].lease.token == Some(t) && At(s'.cells[run], t, Executing)
    ensures NoOtherHolder(s'.cells, run, s'.cells[run].target)
  {
    var c := s.cells[run];
    assert CellInv(run, c, CommitCount(s.history, run), s.issued);
    q := Highest(s.issued) + 1;
    var cells, steps := PassIsProtocolRun(ContextOf(s, run, ASSUMED), c, q, world);
    s' := PathLeads(s, run, q, cells, steps, |steps|, ASSUMED);
    LeadsKeeps(s, s');
    LeadsOn(s0, s, s', ASSUMED);
    OthersStay(s, run, cells[|steps|], c.target);
  }

  lemma PassEnds(rec: Record, q: Token, world: World, now: Time, parked: bool)
    requires rec.confirmedAt.None? && NeedsReconciliation(rec.state) && world == if parked then LOCKED_OUT else PERFECT
    ensures PassResult(Claimed(rec, q, now), world, now).state == if parked then CleanupRequired else Complete
  {
  }

  /** Every idle run can come to be complete, or parked, while its worker can still change that. */
  lemma EveryRunCanBeMeddledWith(s: System, run: RunId, parked: bool) returns (s': System)
    requires Idle(s, run)
    ensures Leads(s, s', ASSUMED) && SystemInv(s') && run in s'.cells && s'.cells[run].record.Some?
    ensures s'.cells[run].record.value.state == if parked then CleanupRequired else Complete
    ensures Meddles(s'.cells[run]) && NoOtherHolder(s'.cells, run, s'.cells[run].target)
  {
    var unheard, t := EveryRunCanBeUnheard(s, run);
    var world := if parked then LOCKED_OUT else PERFECT;
    var q;
    s', q := UnheardPass(s, unheard, run, t, world);
    PassEnds(unheard.cells[run].record.value, q, world, unheard.now, parked);
  }

  /** Past the window, without lease or recovery actor, an undecided record is stuck. */
  lemma AgedIsStuck(run: RunId, c: Cell, commits: nat, now: Time)
    requires RecordInv(run, c, commits) && Undecided(c) && !c.claimed && c.lease.token.None?
    requires c.record.value.submittedAt.value + WINDOW_SECONDS <= now
    ensures Stuck(c, commits, now)
  {
  }

  /** Every idle run can come to be stuck although its publish statement has landed. */
  lemma EveryRunCanBeStuck(s: System, run: RunId) returns (s': System)
    requires Idle(s, run)
    ensures Leads(s, s', ASSUMED) && SystemInv(s') && StuckIn(s', run) && CommitCount(s'.history, run) > 0
  {
    var unheard, t := EveryRunCanBeUnheard(s, run);
    var ended := LeaseEnds(s, unheard, run);
    var c := ended.cells[run];
    s' := Later(s, ended, ended.now + c.record.value.submittedAt.value + WINDOW_SECONDS);
    assert CellInv(run, c, CommitCount(ended.history, run), ended.issued);
    AgedIsStuck(run, c, CommitCount(ended.history, run), s'.now);
  }
}
