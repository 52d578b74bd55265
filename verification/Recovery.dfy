/**
 Recovery: what a record is bound to come to, why nothing that happens on the way changes it, and
 exactly when it can still be closed.
 */
module Recovery {
  import opened Wrappers
  import opened Publication
  import opened Protocol
  import opened ProtocolSafety
  import opened ProtocolTheorems
  import opened Continuations

  // ----- Destiny -----

  /** What a record must come to: a submission, once made, can only end complete. */
  function Destiny(rec: Record): State {
    if rec.submittedAt.Some? then Complete else Unchanged
  }

  /** On reachable records an undisturbed pass that closes, closes with the record's destiny. */
  lemma PassReachesDestiny(run: RunId, c: Cell, commits: nat, world: World, now: Time)
    requires RecordInv(run, c, commits) && c.record.Some? && Recoverable(c.record.value.state)
    ensures var rec := c.record.value; var r := PassResult(rec, world, now);
            && Destiny(r) == Destiny(rec)
            && (IsClosed(r.state) ==> r.state == Destiny(rec) && r.active.None?)
  {
  }

  /**
   Once a record was claimed, no step changes its destiny: not a recovery actor stopping anywhere,
   losing an acknowledgement or competing with another, not its worker, not unusable credentials.
   */
  lemma ClaimedStepKeepsDestiny(x: Context, c: Cell, step: CellStep, c': Cell)
    requires StepFrom(x, c, step, c') && c.claimed
    ensures c'.claimed && c'.record.Some? && Destiny(c'.record.value) == Destiny(c.record.value)
  {
    if step.WorkerEvent? {
      ClaimedEventKeepsDestiny(x, c, step, c');
    } else if IsRecoveryStep(step) {
      ClaimedRecoveryKeepsDestiny(x, c, step, c');
    }
  }

  lemma ClaimedEventKeepsDestiny(x: Context, c: Cell, step: CellStep, c': Cell)
    requires StepFrom(x, c, step, c') && c.claimed && step.WorkerEvent?
    ensures c'.claimed && c'.record.Some? && Destiny(c'.record.value) == Destiny(c.record.value)
  {
    var t, w := step.worker, c.workers[step.worker];
    var event := EventOf(w, step.rows, step.bytes).value;
    var outcome := Recorded(Some(c.lease), c.record, CallerOf(c, x.run, t), event, x.now, x.fenceFree);
    if outcome.Success? && step.delivery != Lost {
      AppliedRecord(x, c, t, event, outcome.value);
    }
  }

  lemma ClaimedRecoveryKeepsDestiny(x: Context, c: Cell, step: CellStep, c': Cell)
    requires StepFrom(x, c, step, c') && c.claimed && IsRecoveryStep(step)
    ensures c'.claimed && c'.record.Some? && Destiny(c'.record.value) == Destiny(c.record.value)
  {
    if !step.Claim? {
      ActorIsThere(x, c, step, c');
      RecoveryShape(x, c, step, c');
    }
  }

  ghost predicate BoundTo(s: System, run: RunId, destiny: State) {
    && run in s.cells && s.cells[run].claimed && s.cells[run].record.Some?
    && Destiny(s.cells[run].record.value) == destiny
  }

  lemma NextKeepsDestiny(s: System, step: Step, s': System, run: RunId, destiny: State)
    requires SystemInv(s) && Next(s, step, s', ASSUMED) && BoundTo(s, run, destiny)
    ensures BoundTo(s', run, destiny)
  {
    if step.On? && step.run == run {
      FromInvariant(s, run, step.cell, s');
      ClaimedStepKeepsDestiny(ContextOf(s, run, ASSUMED), s.cells[run], step.cell, s'.cells[run]);
    }
  }

  /** A claimed record closes only with its destiny and without a fence, whatever happened in between. */
  lemma ClosedIsDestined(run: RunId, c: Cell, commits: nat)
    requires RecordInv(run, c, commits) && c.record.Some? && IsClosed(c.record.value.state)
    ensures c.record.value.state == Destiny(c.record.value) && c.record.value.active.None?
  {
  }

  lemma DestinyAlong(trace: seq<System>, steps: seq<Step>, j: nat, run: RunId, destiny: State)
    requires Behaviour(trace, steps, ASSUMED) && j < |steps| && BoundTo(trace[j], run, destiny)
    ensures BoundTo(trace[j + 1], run, destiny)
  {
    Reachable(trace, steps, j);
    assert Next(trace[j], steps[j], trace[j + 1], ASSUMED);
    NextKeepsDestiny(trace[j], steps[j], trace[j + 1], run, destiny);
  }

  lemma {:induction false} DestinyStays(
      trace: seq<System>, steps: seq<Step>, i: nat, j: nat, run: RunId, destiny: State)
    requires Behaviour(trace, steps, ASSUMED) && i <= j < |trace| && BoundTo(trace[i], run, destiny)
    ensures BoundTo(trace[j], run, destiny)
  {
    if i < j {
      DestinyStays(trace, steps, i, j - 1, run, destiny);
      DestinyAlong(trace, steps, j - 1, run, destiny);
    }
  }

  /**
   Crash-safety.  From its first claim on, over every run of the protocol, a record's destiny is
   fixed, and whenever the record is closed it is closed with that destiny and a free fence.
   */
  lemma RecoveryKeepsDestiny(trace: seq<System>, steps: seq<Step>, i: nat, j: nat, run: RunId)
    requires Behaviour(trace, steps, ASSUMED) && i <= j < |trace|
    requires run in trace[i].cells && trace[i].cells[run].claimed && trace[i].cells[run].record.Some?
    ensures run in trace[j].cells && trace[j].cells[run].record.Some?
    ensures IsClosed(trace[j].cells[run].record.value.state) ==>
              && trace[j].cells[run].record.value.state == Destiny(trace[i].cells[run].record.value)
              && trace[j].cells[run].record.value.active.None?
  {
    DestinyStays(trace, steps, i, j, run, Destiny(trace[i].cells[run].record.value));
    Reachable(trace, steps, j);
    assert CellInv(run, trace[j].cells[run], CommitCount(trace[j].history, run), trace[j].issued);
    if IsClosed(trace[j].cells[run].record.value.state) {
      ClosedIsDestined(run, trace[j].cells[run], CommitCount(trace[j].history, run));
    }
  }

  // ----- A pass is a path of the protocol -----

  ghost predicate Path(x: Context, cells: seq<Cell>, steps: seq<CellStep>) {
    && |cells| == |steps| + 1
    && forall i :: 0 <= i < |steps| ==> CellNext(x, cells[i], steps[i], cells[i + 1])
  }

  /** The search for the run's marker can find one. */
  predicate CanFind(x: Context, c: Cell) {
    (x.commits > 0 || x.mentioned) && c.record.Some? && Searchable(c.record.value.submittedAt, x.now)
  }

  /** One claim, then steps of the same recovery actor. */
  predicate Continues(steps: seq<CellStep>, q: Token) {
    && steps != [] && steps[0] == Claim(q)
    && forall i :: 1 <= i < |steps| ==> IsRecoveryStep(steps[i]) && !steps[i].Claim?
  }

  lemma Extend(x: Context, cells: seq<Cell>, steps: seq<CellStep>, step: CellStep, c: Cell)
    requires Path(x, cells, steps) && CellNext(x, cells[|cells| - 1], step, c)
    ensures Path(x, cells + [c], steps + [step])
  {
  }

  /**
   The sequential pass of `PublicationLedger.RecoverOnce` is one of the protocol's runs: claim,
   read, reconcile, conclude, drop, finish, each an enabled step, ending in `PassResult`.
   */
  lemma PassIsProtocolRun(x: Context, c: Cell, q: Token, world: World) returns (cells: seq<Cell>, steps: seq<CellStep>)
    requires c.record.Some? && Claimable(c.record.value, c.lease, x.now) && q !in x.issued
    requires x.assumed.disarmed ==> !Armed(c)
    requires world.marker == Found && NeedsReconciliation(c.record.value.state) ==> CanFind(x, c)
    ensures Path(x, cells, steps) && cells[0] == c && Continues(steps, q)
    ensures cells[|cells| - 1].record == Some(PassResult(Claimed(c.record.value, q, x.now), world, x.now))
  {
    var claimed := PassClaims(x, c, q);
    cells, steps := [c, claimed], [Claim(q)];
    if !world.ownerActive || world.credentials != Ready {
      cells, steps := ReadDefers(x, cells, steps, q, world);
      return;
    }
    cells, steps := ReadGoesOn(x, cells, steps, claimed, q);
    if NeedsReconciliation(c.record.value.state) {
      cells, steps := Reconciled(x, cells, steps, cells[|cells| - 1], q, world.marker);
      if world.marker != Found { return; }
    }
    cells, steps := CleanedUp(x, cells, steps, q, world.cleaned);
  }

  lemma PassClaims(x: Context, c: Cell, q: Token) returns (claimed: Cell)
    requires c.record.Some? && Claimable(c.record.value, c.lease, x.now) && q !in x.issued
    requires x.assumed.disarmed ==> !Armed(c)
    ensures Path(x, [c, claimed], [Claim(q)]) && Continues([Claim(q)], q)
    ensures Is(claimed, q, Claiming) && Holds(claimed, q) && (CanFind(x, c) ==> CanFind(x, claimed))
    ensures claimed.record.value == Claimed(c.record.value, q, x.now)
  {
    claimed := GoOn(c, q, Claiming).(record := Some(Claimed(c.record.value, q, x.now)), claimed := true);
    assert CellNext(x, c, Claim(q), claimed);
  }

  lemma ReadGoesOn(x: Context, before: seq<Cell>, taken: seq<CellStep>, c: Cell, q: Token)
    returns (cells: seq<Cell>, steps: seq<CellStep>)
    requires Path(x, before, taken) && Continues(taken, q) && c == before[|before| - 1]
    requires Is(c, q, Claiming) && Holds(c, q)
    ensures Path(x, cells, steps) && cells[0] == before[0] && Continues(steps, q)
    ensures var last := cells[|cells| - 1];
            && last.record == c.record && Holds(last, q)
            && Is(last, q, if NeedsReconciliation(c.record.value.state) then Reconciling else Cleaning)
  {
    var next := GoOn(c, q, if NeedsReconciliation(c.record.value.state) then Reconciling else Cleaning);
    Extend(x, before, taken, Read(q, true, Ready), next);
    cells, steps := before + [next], taken + [Read(q, true, Ready)];
  }

  lemma ReadDefers(x: Context, before: seq<Cell>, taken: seq<CellStep>, q: Token, world: World)
    returns (cells: seq<Cell>, steps: seq<CellStep>)
    requires Path(x, before, taken) && Continues(taken, q)
    requires Is(before[|before| - 1], q, Claiming) && Holds(before[|before| - 1], q)
    requires !world.ownerActive || world.credentials != Ready
    ensures Path(x, cells, steps) && cells[0] == before[0] && Continues(steps, q)
    ensures cells[|cells| - 1].record == Some(PassResult(before[|before| - 1].record.value, world, x.now))
  {
    var c := before[|before| - 1];
    var deferred := Leave(c.(record := Some(PassResult(c.record.value, world, x.now))), q);
    var step := Read(q, world.ownerActive, world.credentials);
    Extend(x, before, taken, step, deferred);
    cells, steps := before + [deferred], taken + [step];
  }

  lemma Reconciled(x: Context, before: seq<Cell>, taken: seq<CellStep>, c: Cell, q: Token, verdict: Verdict)
    returns (cells: seq<Cell>, steps: seq<CellStep>)
    requires Path(x, before, taken) && Continues(taken, q) && c == before[|before| - 1]
    requires Is(c, q, Reconciling) && Holds(c, q) && (verdict == Found ==> CanFind(x, c))
    ensures Path(x, cells, steps) && cells[0] == before[0] && Continues(steps, q)
    ensures cells[|cells| - 1].record ==
            Some(if verdict == Found then MarkedCommitted(c.record.value, x.now)
                 else Deferred(c.record.value, RETRY_SECONDS, Uncertain, x.now))
    ensures verdict == Found ==> Is(cells[|cells| - 1], q, Cleaning) && Holds(cells[|cells| - 1], q)
  {
    cells, steps := before, taken;
    if verdict == Found {
      var found := GoOn(c, q, MarkerFound);
      Extend(x, cells, steps, Reconcile(q, Found), found);
      cells, steps := cells + [found], steps + [Reconcile(q, Found)];
      var marked := GoOn(found.(record := Some(MarkedCommitted(c.record.value, x.now))), q, Cleaning);
      Extend(x, cells, steps, Conclude(q, Acked), marked);
      cells, steps := cells + [marked], steps + [Conclude(q, Acked)];
    } else {
      var deferred := Leave(c.(record := Some(Deferred(c.record.value, RETRY_SECONDS, Uncertain, x.now))), q);
      var step := if verdict == Raised then GiveUp(q) else Reconcile(q, Unknown);
      Extend(x, cells, steps, step, deferred);
      cells, steps := cells + [deferred], steps + [step];
    }
  }

  lemma CleanedUp(x: Context, before: seq<Cell>, taken: seq<CellStep>, q: Token, cleaned: bool)
    returns (cells: seq<Cell>, steps: seq<CellStep>)
    requires Path(x, before, taken) && Continues(taken, q)
    requires Is(before[|before| - 1], q, Cleaning) && Holds(before[|before| - 1], q)
    ensures Path(x, cells, steps) && cells[0] == before[0] && Continues(steps, q)
    ensures cells[|cells| - 1].record ==
            Some(if cleaned then Closed(before[|before| - 1].record.value)
                 else Deferred(before[|before| - 1].record.value, RETRY_SECONDS, CleanupPending, x.now))
  {
    var c := before[|before| - 1];
    if cleaned {
      var dropped := GoOn(c, q, Cleaned).(staging := false);
      Extend(x, before, taken, DropStaging(q, true, true), dropped);
      cells, steps := Finished(x, before + [dropped], taken + [DropStaging(q, true, true)], dropped, q);
    } else {
      var deferred := Leave(c.(record := Some(Deferred(c.record.value, RETRY_SECONDS, CleanupPending, x.now))), q);
      Extend(x, before, taken, GiveUp(q), deferred);
      cells, steps := before + [deferred], taken + [GiveUp(q)];
    }
  }

  lemma Finished(x: Context, before: seq<Cell>, taken: seq<CellStep>, c: Cell, q: Token)
    returns (cells: seq<Cell>, steps: seq<CellStep>)
    requires Path(x, before, taken) && Continues(taken, q) && c == before[|before| - 1]
    requires Is(c, q, Cleaned) && Holds(c, q)
    ensures Path(x, cells, steps) && cells[0] == before[0] && Continues(steps, q)
    ensures cells[|cells| - 1].record == Some(Closed(c.record.value))
  {
    var closed := Leave(c, q).(record := Some(Closed(c.record.value)));
    Extend(x, before, taken, Finish(q, Acked), closed);
    cells, steps := before + [closed], taken + [Finish(q, Acked)];
  }

  // ----- From a path of one run to the whole system -----

  /** A recovery step leaves the worker's side alone. */
  predicate SameWorker(c: Cell, c': Cell) {
    c'.target == c.target && c'.inFlight == c.inFlight && c'.workers == c.workers && c'.lease == c.lease
  }

  lemma KeepsWorker(x: Context, c: Cell, step: CellStep, c': Cell)
    requires CellNext(x, c, step, c') && IsRecoveryStep(step)
    ensures SameWorker(c, c')
  {
    if step.Conclude? || step.DropStaging? || step.Finish? || step.RecovererCrash? {
      ClosingKeepsWorker(x, c, step, c');
    }
  }

  lemma ClosingKeepsWorker(x: Context, c: Cell, step: CellStep, c': Cell)
    requires step.Conclude? || step.DropStaging? || step.Finish? || step.RecovererCrash?
    requires CellNext(x, c, step, c')
    ensures SameWorker(c, c')
  {
  }

  /** Which tokens were handed out matters to claims only. */
  lemma IgnoresTokens(x: Context, issued: set<Token>, c: Cell, step: CellStep, c': Cell)
    requires CellNext(x, c, step, c') && IsRecoveryStep(step) && !step.Claim?
    ensures CellNext(x.(issued := issued), c, step, c')
  {
  }

  lemma SameContext(s: System, s': System, run: RunId, c': Cell, issued: set<Token>, assumed: Assumptions)
    requires run in s.cells && s' == Put(s, run, c').(issued := issued) && c'.target == s.cells[run].target
    ensures ContextOf(s', run, assumed) == ContextOf(s, run, assumed).(issued := issued)
  {
    assert forall r :: r in s.cells && r != run ==> s'.cells[r] == s.cells[r];
  }

  /** The system after `n` steps of the path. */
  ghost predicate Follows(s: System, run: RunId, q: Token, cells: seq<Cell>, n: nat, s': System, assumed: Assumptions) {
    && run in s.cells && n < |cells|
    && Leads(s, s', assumed) && s' == Put(s, run, cells[n]).(issued := s.issued + {q})
    && SameWorker(s.cells[run], cells[n])
  }

  lemma PathAt(x: Context, cells: seq<Cell>, steps: seq<CellStep>, q: Token, n: nat)
    requires Path(x, cells, steps) && Continues(steps, q) && n < |steps|
    ensures CellNext(x, cells[n], steps[n], cells[n + 1])
    ensures if n == 0 then steps[n] == Claim(q) else IsRecoveryStep(steps[n]) && !steps[n].Claim?
  {
  }

  lemma FollowsClaim(s: System, run: RunId, q: Token, cells: seq<Cell>, assumed: Assumptions) returns (s': System)
    requires run in s.cells && |cells| > 1 && cells[0] == s.cells[run]
    requires CellNext(ContextOf(s, run, assumed), cells[0], Claim(q), cells[1])
    ensures Follows(s, run, q, cells, 1, s', assumed)
  {
    Stay(s, assumed);
    KeepsWorker(ContextOf(s, run, assumed), cells[0], Claim(q), cells[1]);
    s' := StepLeads(s, s, run, Claim(q), cells[1], assumed);
  }

  lemma FollowsOn(
      s: System, run: RunId, q: Token, cells: seq<Cell>, n: nat, step: CellStep, before: System, assumed: Assumptions)
    returns (s': System)
    requires Follows(s, run, q, cells, n, before, assumed) && n + 1 < |cells|
    requires CellNext(ContextOf(s, run, assumed), cells[n], step, cells[n + 1])
    requires IsRecoveryStep(step) && !step.Claim?
    ensures Follows(s, run, q, cells, n + 1, s', assumed)
  {
    var x := ContextOf(s, run, assumed);
    KeepsWorker(x, cells[n], step, cells[n + 1]);
    SameContext(s, before, run, cells[n], s.issued + {q}, assumed);
    IgnoresTokens(x, s.issued + {q}, cells[n], step, cells[n + 1]);
    s' := StepLeads(s, before, run, step, cells[n + 1], assumed);
    assert s.issued + {q} + {} == s.issued + {q};
    assert Put(before, run, cells[n + 1]).cells == Put(s, run, cells[n + 1]).cells;
  }

  /** A path of one run is a run of the system. */
  lemma {:induction false} PathLeads(
      s: System, run: RunId, q: Token, cells: seq<Cell>, steps: seq<CellStep>, n: nat, assumed: Assumptions)
    returns (s': System)
    requires run in s.cells && cells != [] && cells[0] == s.cells[run]
    requires Path(ContextOf(s, run, assumed), cells, steps) && Continues(steps, q) && 1 <= n <= |steps|
    ensures Follows(s, run, q, cells, n, s', assumed)
  {
    PathAt(ContextOf(s, run, assumed), cells, steps, q, n - 1);
    if n == 1 {
      s' := FollowsClaim(s, run, q, cells, assumed);
    } else {
      var before := PathLeads(s, run, q, cells, steps, n - 1, assumed);
      s' := FollowsOn(s, run, q, cells, n - 1, steps[n - 1], before, assumed);
    }
  }
}
