/** The protocol's guarantees, over every run of it. */
module ProtocolTheorems {
  import opened Wrappers
  import opened Publication
  import opened Protocol
  import opened ProtocolSafety

  // ----- The invariant of the whole system -----

  ghost predicate FencesDistinct(s: System) {
    forall r, q :: r in s.cells && q in s.cells && r != q && s.cells[r].target == s.cells[q].target ==>
      !(HoldsFence(s.cells[r], s.cells[r].target) && HoldsFence(s.cells[q], s.cells[r].target))
  }

  ghost predicate HistoryInv(s: System) {
    forall i :: 0 <= i < |s.history| ==>
      s.history[i].run in s.cells && s.history[i].target == s.cells[s.history[i].run].target
  }

  ghost predicate SystemInv(s: System) {
    && (forall r :: r in s.cells ==> CellInv(r, s.cells[r], CommitCount(s.history, r), s.issued))
    && FencesDistinct(s) && HistoryInv(s) && TimesHold(s) && s.mentioned == {}
  }

  ghost predicate TimesHold(s: System) { forall r :: r in s.cells ==> TimesInv(s.cells[r], s.now) }

  lemma TimesStayIn(s: System, step: Step, s': System, assumed: Assumptions)
    requires TimesHold(s) && Next(s, step, s', assumed)
    ensures TimesHold(s')
  {
    if step.On? {
      TimesKeep(ContextOf(s, step.run, assumed), s.cells[step.run], step.cell, s'.cells[step.run]);
    }
  }

  lemma Appended(history: seq<Commit>, commit: Commit, run: RunId)
    ensures CommitCount(history + [commit], run) ==
            CommitCount(history, run) + if commit.run == run then 1 else 0
  {
    assert (history + [commit])[..|history + [commit]| - 1] == history;
  }

  lemma CellInvGrows(run: RunId, c: Cell, commits: nat, issued: set<Token>, more: set<Token>)
    requires CellInv(run, c, commits, issued) && issued <= more
    ensures CellInv(run, c, commits, more)
  {
  }

  /** A publish statement taking effect: one commit more, one statement in flight less. */
  lemma LandKeeps(run: RunId, c: Cell, commits: nat, issued: set<Token>)
    requires CellInv(run, c, commits, issued) && c.inFlight > 0
    ensures CellInv(run, c.(inFlight := c.inFlight - 1), commits + 1, issued)
  {
    var c' := c.(inFlight := c.inFlight - 1);
    forall t | t in c'.workers ensures WorkerInv(c', commits + 1, t, c'.workers[t]) {
      assert WorkerInv(c, commits, t, c.workers[t]);
    }
    forall q | q in c'.recoverers ensures RecovererInv(c', commits + 1, q) {
      assert RecovererInv(c, commits, q);
    }
  }

  /** Only a step that finds the fence free makes a record hold it. */
  lemma FenceNotStolen(x: Context, c: Cell, step: CellStep, c': Cell)
    requires StepFrom(x, c, step, c')
    ensures c'.target == c.target
    ensures HoldsFence(c', c.target) ==> HoldsFence(c, c.target) || x.fenceFree
  {
    if step.WorkerEvent? {
      FenceNotStolenByEvent(x, c, step, c');
    } else if IsRecoveryStep(step) {
      FenceNotStolenByRecovery(x, c, step, c');
    }
  }

  lemma FenceNotStolenByEvent(x: Context, c: Cell, step: CellStep, c': Cell)
    requires StepFrom(x, c, step, c') && step.WorkerEvent?
    ensures c'.target == c.target
    ensures HoldsFence(c', c.target) ==> HoldsFence(c, c.target) || x.fenceFree
  {
  }

  lemma FenceNotStolenByRecovery(x: Context, c: Cell, step: CellStep, c': Cell)
    requires StepFrom(x, c, step, c') && IsRecoveryStep(step)
    ensures c'.target == c.target
    ensures HoldsFence(c', c.target) ==> HoldsFence(c, c.target)
  {
    if step.Conclude? || step.DropStaging? || step.Finish? || step.RecovererCrash? {
      FenceNotStolenByClosing(x, c, step, c');
    }
  }

  lemma FenceNotStolenByClosing(x: Context, c: Cell, step: CellStep, c': Cell)
    requires CellNext(x, c, step, c')
    requires step.Conclude? || step.DropStaging? || step.Finish? || step.RecovererCrash?
    ensures c'.target == c.target
    ensures HoldsFence(c', c.target) ==> HoldsFence(c, c.target)
  {
  }

  lemma LandCellsKeep(s: System, run: RunId, s': System)
    requires SystemInv(s) && Next(s, Land(run), s', ASSUMED)
    ensures forall r :: r in s'.cells ==> CellInv(r, s'.cells[r], CommitCount(s'.history, r), s'.issued)
  {
    forall r | r in s'.cells
      ensures CellInv(r, s'.cells[r], CommitCount(s'.history, r), s'.issued)
    {
      Appended(s.history, Commit(run, s.cells[run].target), r);
      if r == run { LandKeeps(run, s.cells[run], CommitCount(s.history, run), s.issued); }
    }
  }

  lemma LandKeepsHistory(s: System, run: RunId, s': System)
    requires FencesDistinct(s) && HistoryInv(s) && Next(s, Land(run), s', ASSUMED)
    ensures FencesDistinct(s') && HistoryInv(s')
  {
  }

  /** A step inside a run starts from the run's invariant. */
  lemma FromInvariant(s: System, run: RunId, step: CellStep, s': System)
    requires SystemInv(s) && Next(s, On(run, step), s', ASSUMED)
    ensures StepFrom(ContextOf(s, run, ASSUMED), s.cells[run], step, s'.cells[run])
    ensures TimesInv(s.cells[run], s.now)
  {
  }

  lemma OwnCellKeeps(s: System, run: RunId, step: CellStep, s': System)
    requires SystemInv(s) && Next(s, On(run, step), s', ASSUMED)
    ensures CellInv(run, s'.cells[run], CommitCount(s'.history, run), s'.issued)
  {
    FromInvariant(s, run, step, s');
    CellStepKeeps(ContextOf(s, run, ASSUMED), s.cells[run], step, s'.cells[run]);
  }

  lemma OtherCellKeeps(s: System, run: RunId, step: CellStep, s': System, r: RunId)
    requires SystemInv(s) && Next(s, On(run, step), s', ASSUMED) && r in s'.cells && r != run
    ensures CellInv(r, s'.cells[r], CommitCount(s'.history, r), s'.issued)
  {
    CellInvGrows(r, s.cells[r], CommitCount(s.history, r), s.issued, s'.issued);
  }

  lemma CellsKeep(s: System, run: RunId, step: CellStep, s': System)
    requires SystemInv(s) && Next(s, On(run, step), s', ASSUMED)
    ensures forall r :: r in s'.cells ==> CellInv(r, s'.cells[r], CommitCount(s'.history, r), s'.issued)
  {
    OwnCellKeeps(s, run, step, s');
    forall r | r in s'.cells && r != run { OtherCellKeeps(s, run, step, s', r); }
  }

  lemma FencesStayDistinct(s: System, run: RunId, step: CellStep, s': System)
    requires SystemInv(s) && Next(s, On(run, step), s', ASSUMED)
    ensures FencesDistinct(s') && HistoryInv(s')
  {
    FromInvariant(s, run, step, s');
    FenceNotStolen(ContextOf(s, run, ASSUMED), s.cells[run], step, s'.cells[run]);
    OneCellChanged(s, run, s'.cells[run], s');
  }

  /** A cell that did not steal a fence keeps fences distinct. */
  lemma OneCellChanged(s: System, run: RunId, c': Cell, s': System)
    requires FencesDistinct(s) && HistoryInv(s) && run in s.cells
    requires s'.cells == s.cells[run := c'] && s'.history == s.history && c'.target == s.cells[run].target
    requires HoldsFence(c', c'.target) ==> HoldsFence(s.cells[run], c'.target) || NoOtherHolder(s.cells, run, c'.target)
    ensures FencesDistinct(s') && HistoryInv(s')
  {
  }

  lemma StepKeeps(s: System, step: Step, s': System)
    requires SystemInv(s) && Next(s, step, s', ASSUMED)
    ensures SystemInv(s')
  {
    TimesStayIn(s, step, s', ASSUMED);
    match step {
      case Tick(_) =>
      case Land(run) =>
        LandCellsKeep(s, run, s');
        LandKeepsHistory(s, run, s');
      case Mention(_) =>
      case On(run, cellStep) =>
        CellsKeep(s, run, cellStep, s');
        FencesStayDistinct(s, run, cellStep, s');
    }
  }

  lemma {:induction false} Reachable(trace: seq<System>, steps: seq<Step>, i: nat)
    requires Behaviour(trace, steps, ASSUMED) && i < |trace|
    ensures SystemInv(trace[i])
  {
    if i > 0 {
      Reachable(trace, steps, i - 1);
      assert Next(trace[i - 1], steps[i - 1], trace[i - 1 + 1], ASSUMED);
      StepKeeps(trace[i - 1], steps[i - 1], trace[i]);
    }
  }

  /** Whoever holds the fence of its target is the only one. */
  lemma OwnFenceIsFree(s: System, run: RunId)
    requires SystemInv(s) && run in s.cells && HoldsFence(s.cells[run], s.cells[run].target)
    ensures NoOtherHolder(s.cells, run, s.cells[run].target)
  {
    var key := s.cells[run].target;
    forall r | r in s.cells && r != run ensures !HoldsFence(s.cells[r], key) {
      assert CellInv(r, s.cells[r], CommitCount(s.history, r), s.issued);
    }
  }

  // ----- Safety of publication -----

  /**
   Whenever a publish statement takes effect, its run holds the target's fence, nobody else
   does, it is the run's first commit, and the staging table it reads is still there.
   */
  lemma PublishesUnderOwnFence(trace: seq<System>, steps: seq<Step>, i: nat, run: RunId)
    requires Behaviour(trace, steps, ASSUMED) && i < |steps| && steps[i] == Land(run)
    ensures run in trace[i].cells
    ensures HoldsFence(trace[i].cells[run], trace[i].cells[run].target)
    ensures NoOtherHolder(trace[i].cells, run, trace[i].cells[run].target)
    ensures CommitCount(trace[i].history, run) == 0
    ensures trace[i].cells[run].staging
  {
    Reachable(trace, steps, i);
    var s := trace[i];
    assert Next(s, steps[i], trace[i + 1], ASSUMED);
    assert CellInv(run, s.cells[run], CommitCount(s.history, run), s.issued);
    OwnFenceIsFree(s, run);
  }

  lemma {:induction false} CountsOccurrences(history: seq<Commit>, run: RunId, i: nat, j: nat)
    requires i < j < |history| && history[i].run == run && history[j].run == run
    ensures CommitCount(history, run) >= 2
  {
    var prefix := history[..|history| - 1];
    if j < |history| - 1 {
      CountsOccurrences(prefix, run, i, j);
    } else {
      OccursOnce(prefix, run, i);
    }
  }

  lemma {:induction false} OccursOnce(history: seq<Commit>, run: RunId, i: nat)
    requires i < |history| && history[i].run == run
    ensures CommitCount(history, run) >= 1
  {
    if i < |history| - 1 { OccursOnce(history[..|history| - 1], run, i); }
  }

  lemma CommitsAtMostOnce(s: System, run: RunId)
    requires SystemInv(s) && run in s.cells
    ensures CommitCount(s.history, run) <= 1
  {
    assert CellInv(run, s.cells[run], CommitCount(s.history, run), s.issued);
  }

  /** Whoever crashes, expires or recovers, no run appears twice in the commit history. */
  lemma PublishesAtMostOnce(trace: seq<System>, steps: seq<Step>, i: nat)
    requires Behaviour(trace, steps, ASSUMED) && i < |trace|
    ensures forall a, b :: 0 <= a < b < |trace[i].history| ==> trace[i].history[a].run != trace[i].history[b].run
  {
    Reachable(trace, steps, i);
    var s := trace[i];
    forall a, b | 0 <= a < b < |s.history| ensures s.history[a].run != s.history[b].run {
      CommitsAtMostOnce(s, s.history[a].run);
      if s.history[a].run == s.history[b].run {
        CountsOccurrences(s.history, s.history[a].run, a, b);
      }
    }
  }

  /**
   What a durable record says about the remote history, in every reachable state:
   submitted and unconfirmed keeps the fence; `Unchanged` means no commit and none in
   flight; confirmed, hence `Complete`, means exactly one commit.
   */
  lemma RecordTellsHistory(trace: seq<System>, steps: seq<Step>, i: nat, run: RunId)
    requires Behaviour(trace, steps, ASSUMED) && i < |trace|
    requires run in trace[i].cells && trace[i].cells[run].record.Some?
    ensures var c := trace[i].cells[run]; var rec := c.record.value; var n := CommitCount(trace[i].history, run);
            && (rec.submittedAt.Some? && rec.confirmedAt.None? ==>
                  && rec.active == Some(c.target) && NoOtherHolder(trace[i].cells, run, c.target)
                  && rec.state != Unchanged)
            && (rec.state == Unchanged ==> n == 0 && c.inFlight == 0)
            && (rec.confirmedAt.Some? ==> n == 1 && c.inFlight == 0)
            && (rec.state == Complete ==> rec.confirmedAt.Some?)
  {
    Reachable(trace, steps, i);
    var s := trace[i];
    assert CellInv(run, s.cells[run], CommitCount(s.history, run), s.issued);
    if HoldsFence(s.cells[run], s.cells[run].target) { OwnFenceIsFree(s, run); }
  }

  // ----- What can no longer change -----

  /** No worker that got past its first event still holds the lease. */
  ghost predicate Quiet(c: Cell) {
    forall t :: t in c.workers && c.lease.token == Some(t) ==> !Engaged(c.workers[t])
  }

  /** Nobody is left who could rewrite the record. */
  ghost predicate Frozen(c: Cell) {
    && c.record.Some? && c.record.value.recoveryToken.None? && !Recoverable(c.record.value.state)
    && Quiet(c)
  }

  lemma FrozenStep(x: Context, c: Cell, step: CellStep, c': Cell)
    requires StepFrom(x, c, step, c') && Frozen(c)
    ensures c'.record == c.record && Frozen(c')
  {
    if step.WorkerEvent? {
      FrozenEvent(x, c, step, c');
    } else if step.WorkerMove? {
      FrozenMove(x, c, step, c');
    } else if IsRecoveryStep(step) {
      FrozenRecovery(x, c, step, c');
    }
  }

  /** The events of a worker without the lease fail, and so does a first event on an existing record. */
  lemma CannotRecord(x: Context, c: Cell, t: Token, event: Event)
    requires c.record.Some? && Sends(c, t, event)
    requires c.lease.token == Some(t) ==> !Engaged(c.workers[t])
    ensures Recorded(Some(c.lease), c.record, CallerOf(c, x.run, t), event, x.now, x.fenceFree).Failure?
  {
    if !Engaged(c.workers[t]) { assert event == PrepareStarted; }
  }

  lemma FrozenEvent(x: Context, c: Cell, step: CellStep, c': Cell)
    requires StepFrom(x, c, step, c') && Frozen(c) && step.WorkerEvent?
    ensures c'.record == c.record && Frozen(c')
  {
    var t, w := step.worker, c.workers[step.worker];
    CannotRecord(x, c, t, EventOf(w, step.rows, step.bytes).value);
    assert c' == PutWorker(c, t, AfterEvent(w, false));
    assert !Engaged(w) ==> !Engaged(AfterEvent(w, false)) by {
      assert w.phase == Start || w.phase == Stopped <==> !Engaged(w);
    }
  }

  lemma FrozenMove(x: Context, c: Cell, step: CellStep, c': Cell)
    requires StepFrom(x, c, step, c') && Frozen(c) && step.WorkerMove?
    ensures c'.record == c.record && Frozen(c')
  {
    assert Engaged(c.workers[step.worker]);
  }

  lemma FrozenRecovery(x: Context, c: Cell, step: CellStep, c': Cell)
    requires CellNext(x, c, step, c') && Frozen(c) && IsRecoveryStep(step)
    ensures c'.record == c.record && Frozen(c')
  {
  }

  lemma FinalIsFrozen(run: RunId, c: Cell, commits: nat, issued: set<Token>)
    requires CellInv(run, c, commits, issued) && c.record.Some? && Quiet(c)
    requires c.record.value.state == Complete || c.record.value.state == CleanupRequired
    ensures Frozen(c)
  {
  }

  lemma FrozenNext(s: System, step: Step, s': System, run: RunId)
    requires SystemInv(s) && Next(s, step, s', ASSUMED) && run in s.cells && Frozen(s.cells[run])
    ensures run in s'.cells && s'.cells[run].record == s.cells[run].record && Frozen(s'.cells[run])
  {
    if step.On? && step.run == run {
      FromInvariant(s, run, step.cell, s');
      FrozenStep(ContextOf(s, run, ASSUMED), s.cells[run], step.cell, s'.cells[run]);
    }
  }

  lemma {:induction false} StaysFrozen(trace: seq<System>, steps: seq<Step>, i: nat, j: nat, run: RunId)
    requires Behaviour(trace, steps, ASSUMED) && i <= j < |trace|
    requires run in trace[i].cells && Frozen(trace[i].cells[run])
    ensures run in trace[j].cells && Frozen(trace[j].cells[run])
    ensures trace[j].cells[run].record == trace[i].cells[run].record
  {
    if i < j {
      StaysFrozen(trace, steps, i, j - 1, run);
      FrozenAlong(trace, steps, j - 1, run);
    }
  }

  lemma FrozenAlong(trace: seq<System>, steps: seq<Step>, j: nat, run: RunId)
    requires Behaviour(trace, steps, ASSUMED) && j < |steps|
    requires run in trace[j].cells && Frozen(trace[j].cells[run])
    ensures run in trace[j + 1].cells && Frozen(trace[j + 1].cells[run])
    ensures trace[j + 1].cells[run].record == trace[j].cells[run].record
  {
    Reachable(trace, steps, j);
    assert Next(trace[j], steps[j], trace[j + 1], ASSUMED);
    FrozenNext(trace[j], steps[j], trace[j + 1], run);
  }

  /**
   A record that is complete, or parked for an operator, never changes again once no worker past
   its first event holds the lease.
   */
  lemma FinalStatesAreFinal(trace: seq<System>, steps: seq<Step>, i: nat, j: nat, run: RunId)
    requires Behaviour(trace, steps, ASSUMED) && i <= j < |trace|
    requires run in trace[i].cells && trace[i].cells[run].record.Some? && Quiet(trace[i].cells[run])
    requires var state := trace[i].cells[run].record.value.state; state == Complete || state == CleanupRequired
    ensures run in trace[j].cells && trace[j].cells[run].record == trace[i].cells[run].record
  {
    Reachable(trace, steps, i);
    FinalIsFrozen(run, trace[i].cells[run], CommitCount(trace[i].history, run), trace[i].issued);
    StaysFrozen(trace, steps, i, j, run);
  }

  /** Never submitted, and nobody left who could submit. */
  ghost predicate NeverWillSubmit(c: Cell) {
    && c.record.Some? && c.record.value.submittedAt.None?
    && (c.claimed || forall t :: t in c.workers ==> !Preparatory(c.workers[t].phase))
  }

  lemma NeverSubmitsStep(x: Context, c: Cell, step: CellStep, c': Cell)
    requires StepFrom(x, c, step, c') && NeverWillSubmit(c)
    ensures NeverWillSubmit(c')
  {
    if step.WorkerEvent? {
      NeverSubmitsEvent(x, c, step, c');
    } else if step.WorkerMove? {
      assert WorkerInv(c, x.commits, step.worker, c.workers[step.worker]);
      NeverSubmitsMove(x, c, step, c');
    } else if IsRecoveryStep(step) {
      NeverSubmitsRecovery(x, c, step, c');
    }
  }

  lemma NeverSubmitsEvent(x: Context, c: Cell, step: CellStep, c': Cell)
    requires StepFrom(x, c, step, c') && NeverWillSubmit(c) && step.WorkerEvent?
    ensures NeverWillSubmit(c')
  {
    var t, w := step.worker, c.workers[step.worker];
    var event := EventOf(w, step.rows, step.bytes).value;
    var outcome := Recorded(Some(c.lease), c.record, CallerOf(c, x.run, t), event, x.now, x.fenceFree);
    var ok := EventShape(x, c, step, c');
    if outcome.Success? && step.delivery != Lost && c.claimed {
      AppliedRecord(x, c, t, event, outcome.value);
    } else if !c.claimed {
      NotPrepared(w, ok);
      NotSubmittedBy(Some(c.lease), c.record, CallerOf(c, x.run, t), event, x.now, x.fenceFree);
    }
  }

  lemma NotPrepared(w: Worker, ok: bool)
    requires !Preparatory(w.phase)
    ensures Preparatory(AfterEvent(w, ok).phase) ==> w.phase == Start && ok
  {
  }

  lemma NotSubmittedBy(
      lease: Option<Lease>, record: Option<Record>, caller: Caller, event: Event, now: Time, fenceFree: bool)
    requires record.Some? && record.value.submittedAt.None? && event != PublishSubmitted
    ensures var outcome := Recorded(lease, record, caller, event, now, fenceFree);
            outcome.Success? ==> event != PrepareStarted && outcome.value.submittedAt.None?
  {
  }

  lemma NeverSubmitsMove(x: Context, c: Cell, step: CellStep, c': Cell)
    requires StepFrom(x, c, step, c') && NeverWillSubmit(c) && step.WorkerMove?
    requires WorkerInv(c, x.commits, step.worker, c.workers[step.worker])
    ensures NeverWillSubmit(c')
  {
  }

  lemma NeverSubmitsRecovery(x: Context, c: Cell, step: CellStep, c': Cell)
    requires StepFrom(x, c, step, c') && NeverWillSubmit(c) && IsRecoveryStep(step)
    ensures NeverWillSubmit(c')
  {
  }

  lemma NeverSubmitsNext(s: System, step: Step, s': System, run: RunId)
    requires SystemInv(s) && Next(s, step, s', ASSUMED) && run in s.cells && NeverWillSubmit(s.cells[run])
    ensures run in s'.cells && NeverWillSubmit(s'.cells[run])
  {
    if step.On? && step.run == run {
      FromInvariant(s, run, step.cell, s');
      NeverSubmitsStep(ContextOf(s, run, ASSUMED), s.cells[run], step.cell, s'.cells[run]);
    }
  }

  /** `Unchanged` is a promise about the future too: that run never commits. */
  lemma {:induction false} UnchangedForever(trace: seq<System>, steps: seq<Step>, i: nat, j: nat, run: RunId)
    requires Behaviour(trace, steps, ASSUMED) && i <= j < |trace|
    requires run in trace[i].cells && trace[i].cells[run].record.Some?
    requires trace[i].cells[run].record.value.state == Unchanged
    ensures run in trace[j].cells && NeverWillSubmit(trace[j].cells[run])
    ensures CommitCount(trace[j].history, run) == 0
  {
    if i == j {
      Reachable(trace, steps, i);
      UnchangedIsOver(run, trace[i].cells[run], CommitCount(trace[i].history, run), trace[i].issued);
    } else {
      UnchangedForever(trace, steps, i, j - 1, run);
      UnsubmittedAlong(trace, steps, j - 1, run);
    }
  }

  lemma UnchangedIsOver(run: RunId, c: Cell, commits: nat, issued: set<Token>)
    requires CellInv(run, c, commits, issued) && c.record.Some? && c.record.value.state == Unchanged
    ensures NeverWillSubmit(c) && commits == 0
  {
    forall t | t in c.workers && !c.claimed ensures !Preparatory(c.workers[t].phase) {
      assert WorkerInv(c, commits, t, c.workers[t]);
    }
  }

  lemma UnsubmittedAlong(trace: seq<System>, steps: seq<Step>, j: nat, run: RunId)
    requires Behaviour(trace, steps, ASSUMED) && j < |steps|
    requires run in trace[j].cells && NeverWillSubmit(trace[j].cells[run])
    ensures run in trace[j + 1].cells && NeverWillSubmit(trace[j + 1].cells[run])
    ensures CommitCount(trace[j + 1].history, run) == 0
  {
    Reachable(trace, steps, j);
    Reachable(trace, steps, j + 1);
    assert Next(trace[j], steps[j], trace[j + 1], ASSUMED);
    NeverSubmitsNext(trace[j], steps[j], trace[j + 1], run);
    assert CellInv(run, trace[j + 1].cells[run], CommitCount(trace[j + 1].history, run), trace[j + 1].issued);
  }

  // ----- Recovery has a single writer -----

  predicate StepOf(step: CellStep, q: Token) {
    IsRecoveryStep(step) && step.recoverer == q
  }

  lemma LostTokenStep(x: Context, c: Cell, step: CellStep, c': Cell, q: Token)
    requires CellNext(x, c, step, c') && q in x.issued && !Holds(c, q)
    ensures !Holds(c', q)
    ensures StepOf(step, q) ==> c'.record == c.record
  {
    if IsRecoveryStep(step) {
      LostTokenRecovery(x, c, step, c', q);
    } else if step.WorkerEvent? {
      LostTokenEvent(x, c, step, c', q);
    }
  }

  lemma LostTokenRecovery(x: Context, c: Cell, step: CellStep, c': Cell, q: Token)
    requires CellNext(x, c, step, c') && q in x.issued && !Holds(c, q) && IsRecoveryStep(step)
    ensures !Holds(c', q)
    ensures StepOf(step, q) ==> c'.record == c.record
  {
  }

  lemma LostTokenEvent(x: Context, c: Cell, step: CellStep, c': Cell, q: Token)
    requires CellNext(x, c, step, c') && !Holds(c, q) && step.WorkerEvent?
    ensures !Holds(c', q)
  {
  }

  /** A recovery actor whose token was replaced or cleared never alters the record again. */
  lemma {:induction false} LostTokenNeverWrites(
      trace: seq<System>, steps: seq<Step>, assumed: Assumptions, i: nat, j: nat, run: RunId, q: Token)
    requires Behaviour(trace, steps, assumed) && i <= j < |steps|
    requires run in trace[i].cells && q in trace[i].issued && !Holds(trace[i].cells[run], q)
    ensures run in trace[j].cells && q in trace[j].issued && !Holds(trace[j].cells[run], q)
    ensures steps[j].On? && steps[j].run == run && StepOf(steps[j].cell, q) ==>
              trace[j + 1].cells[run].record == trace[j].cells[run].record
  {
    if i < j {
      LostTokenNeverWrites(trace, steps, assumed, i, j - 1, run, q);
      var s := trace[j - 1];
      assert Next(s, steps[j - 1], trace[j - 1 + 1], assumed);
      if steps[j - 1].On? && steps[j - 1].run == run {
        LostTokenStep(ContextOf(s, run, assumed), s.cells[run], steps[j - 1].cell, trace[j].cells[run], q);
      }
    }
    assert Next(trace[j], steps[j], trace[j + 1], assumed);
    if steps[j].On? && steps[j].run == run {
      LostTokenStep(ContextOf(trace[j], run, assumed), trace[j].cells[run], steps[j].cell, trace[j + 1].cells[run], q);
    }
  }

  /** A recovery actor reports a commit only when the history holds that run's exact marker. */
  lemma ConfirmsOnlyRealCommits(trace: seq<System>, steps: seq<Step>, i: nat, run: RunId)
    requires Behaviour(trace, steps, ASSUMED) && i < |trace|
    requires run in trace[i].cells && trace[i].cells[run].record.Some?
    requires trace[i].cells[run].record.value.confirmedAt.Some?
    ensures exists k :: 0 <= k < |trace[i].history| && trace[i].history[k] == Commit(run, trace[i].cells[run].target)
  {
    Reachable(trace, steps, i);
    var s := trace[i];
    assert CellInv(run, s.cells[run], CommitCount(s.history, run), s.issued);
    Occurrence(s.history, run);
  }

  lemma {:induction false} Occurrence(history: seq<Commit>, run: RunId)
    requires CommitCount(history, run) > 0
    ensures exists k :: 0 <= k < |history| && history[k].run == run
  {
    if history[|history| - 1].run != run {
      Occurrence(history[..|history| - 1], run);
    }
  }
}
