/**
 The lease assumption, exactly.  The event check compares the lease token but not its expiry, while
 recovery may start once the lease has expired.  Claiming a record is safe exactly when the worker
 that holds its token can no longer come to submit: otherwise that worker can publish between
 recovery's read and its last write, and the record closes as `Unchanged` over a commit.
 */
module LeaseAssumption {
  import opened Wrappers
  import opened Publication
  import opened Protocol
  import opened ProtocolSafety
  import opened ProtocolTheorems
  import opened Continuations
  import ConnectorRuns

  // ----- Necessary: what an armed worker does to a claimed record -----

  /** Recovery reads the record as never submitted and is about to drop staging; the worker goes on. */
  ghost predicate Poised(c: Cell, t: Token, q: Token, w: Worker) {
    && t in c.workers && c.workers[t] == w && !w.publishSubmitted
    && c.lease.token == Some(t) && c.lease.userId == c.userId
    && Is(c, q, Cleaning) && c.inFlight == 0
    && c.record.Some?
    && var rec := c.record.value;
       && rec.userId == c.userId && rec.generation == c.generation && rec.targetKey == c.target
       && rec.active == Some(c.target) && rec.submittedAt.None? && rec.confirmedAt.None?
       && rec.recoveryToken == Some(q)
  }

  ghost predicate PoisedIn(s: System, run: RunId, t: Token, q: Token, w: Worker) {
    && run in s.cells && Poised(s.cells[run], t, q, w)
    && NoOtherHolder(s.cells, run, s.cells[run].target) && CommitCount(s.history, run) == 0
  }

  lemma Go(s0: System, s: System, run: RunId, step: CellStep, c': Cell)
    requires run in s.cells && Leads(s0, s, ASSUMED) && Issues(step) == {}
    requires CellNext(ContextOf(s, run, ASSUMED), s.cells[run], step, c')
    ensures Leads(s0, Put(s, run, c'), ASSUMED)
    ensures forall key :: NoOtherHolder(s.cells, run, key) ==> NoOtherHolder(Put(s, run, c').cells, run, key)
  {
    assert s.issued + {} == s.issued && Put(s, run, c').cells[run] == c';
    assert Next(s, On(run, step), Put(s, run, c'), ASSUMED);
    OneMoreStep(s0, s, On(run, step), Put(s, run, c'), ASSUMED);
  }

  function Distance(c: Cell, w: Worker): nat {
    match w.phase
    case Prepared => 5
    case StagingSent => if c.staging then 3 else 4
    case StagingMade => 2
    case BatchSent => 2
    case Loading => 1
    case _ => 0
  }

  /** A step that takes the poised worker, or its CREATE, nearer to submitting. */
  ghost predicate Nearer(x: Context, c: Cell, t: Token, q: Token, w: Worker, step: CellStep, c': Cell, w': Worker) {
    && CellNext(x, c, step, c') && Issues(step) == {} && c'.target == c.target
    && Poised(c', t, q, w') && CanSubmit(c', w') && Distance(c', w') < Distance(c, w)
  }

  /** The worker's, or its CREATE's, next step towards submitting. */
  lemma Advance(x: Context, c: Cell, t: Token, q: Token, w: Worker) returns (step: CellStep, c': Cell, w': Worker)
    requires Poised(c, t, q, w) && CanSubmit(c, w) && w.phase != Finalizing && x.fenceFree
    ensures Nearer(x, c, t, q, w, step, c', w')
  {
    if w.phase == StagingSent {
      step, c', w' := AwaitsStaging(x, c, t, q, w);
    } else if w.phase == Prepared {
      step, w' := SendCreate(t), Worker(StagingSent, false);
      c' := PutWorker(c, t, w').(creating := c.creating + 1);
    } else if w.phase == Loading {
      step, w' := WorkerMove(t, Worker(Finalizing, false)), Worker(Finalizing, false);
      c' := PutWorker(c, t, w');
    } else {
      step, c', w' := Reports(x, c, t, q, w);
    }
  }

  lemma AwaitsStaging(x: Context, c: Cell, t: Token, q: Token, w: Worker) returns (step: CellStep, c': Cell, w': Worker)
    requires Poised(c, t, q, w) && CanSubmit(c, w) && w.phase == StagingSent
    ensures Nearer(x, c, t, q, w, step, c', w')
  {
    if c.staging {
      step, w' := CreateAnswered(t), Worker(StagingMade, false);
      c' := PutWorker(c, t, w');
    } else {
      step, w', c' := LandCreate, w, c.(creating := c.creating - 1, staging := true);
    }
  }

  lemma Reports(x: Context, c: Cell, t: Token, q: Token, w: Worker) returns (step: CellStep, c': Cell, w': Worker)
    requires Poised(c, t, q, w) && (w.phase == StagingMade || w.phase == BatchSent) && x.fenceFree
    ensures Nearer(x, c, t, q, w, step, c', w')
  {
    var event := EventOf(w, 0, 0).value;
    step, w' := WorkerEvent(t, 0, 0, Acked), Worker(Loading, false);
    var outcome := Recorded(Some(c.lease), c.record, CallerOf(c, x.run, t), event, x.now, x.fenceFree);
    c' := PutWorker(c, t, w').(record := Some(outcome.value));
  }

  /** From any phase in which it can submit, the worker gets to where it is about to. */
  lemma {:induction false} ComesToSubmit(s0: System, s: System, run: RunId, t: Token, q: Token, w: Worker)
    returns (s': System, w': Worker)
    requires Leads(s0, s, ASSUMED) && PoisedIn(s, run, t, q, w) && CanSubmit(s.cells[run], w)
    ensures Leads(s0, s', ASSUMED) && PoisedIn(s', run, t, q, w') && w'.phase == Finalizing
    decreases Distance(s.cells[run], w)
  {
    if w.phase == Finalizing {
      return s, w;
    }
    var step, c', next := Advance(ContextOf(s, run, ASSUMED), s.cells[run], t, q, w);
    Go(s0, s, run, step, c');
    s', w' := ComesToSubmit(s0, Put(s, run, c'), run, t, q, next);
  }

  /** Recovery actor `q` is cleaning what it believes was never submitted. */
  ghost predicate Mistaken(c: Cell, q: Token) {
    && Is(c, q, Cleaning) && c.record.Some?
    && c.record.value.recoveryToken == Some(q) && c.record.value.confirmedAt.None?
  }

  /** Submitted, sent and landed, while recovery still believes the record was never submitted. */
  ghost predicate Overtaken(s: System, run: RunId, q: Token) {
    run in s.cells && Mistaken(s.cells[run], q) && CommitCount(s.history, run) == 1
  }

  lemma Submits(s0: System, s: System, run: RunId, t: Token, q: Token, w: Worker) returns (s': System)
    requires Leads(s0, s, ASSUMED) && PoisedIn(s, run, t, q, w) && w.phase == Finalizing
    ensures Leads(s0, s', ASSUMED) && run in s'.cells && At(s'.cells[run], t, Submitted)
    ensures Mistaken(s'.cells[run], q) && CommitCount(s'.history, run) == 0
  {
    var c := s.cells[run];
    var rec := c.record.value.(state := Publishing, submissionId := run, submittedAt := Some(s.now));
    var c' := PutWorker(c, t, Worker(Submitted, true)).(record := Some(rec));
    Go(s0, s, run, WorkerEvent(t, 0, 0, Acked), c');
    s' := Put(s, run, c');
  }

  lemma Sends(s0: System, s: System, run: RunId, t: Token, q: Token) returns (s': System)
    requires Leads(s0, s, ASSUMED) && run in s.cells && At(s.cells[run], t, Submitted) && Mistaken(s.cells[run], q)
    ensures Leads(s0, s', ASSUMED) && run in s'.cells && s'.cells[run].inFlight > 0 && Mistaken(s'.cells[run], q)
    ensures s'.history == s.history
  {
    var c := s.cells[run];
    var c' := PutWorker(c, t, c.workers[t].(phase := Executing)).(inFlight := c.inFlight + 1);
    Go(s0, s, run, SendPublish(t), c');
    s' := Put(s, run, c');
  }

  lemma Lands(s0: System, s: System, run: RunId, q: Token) returns (s': System)
    requires Leads(s0, s, ASSUMED) && run in s.cells && s.cells[run].inFlight > 0 && Mistaken(s.cells[run], q)
    requires CommitCount(s.history, run) == 0
    ensures Leads(s0, s', ASSUMED) && Overtaken(s', run, q)
  {
    var commit := Commit(run, s.cells[run].target);
    Appended(s.history, commit, run);
    s' := LandsOnce(s, run, commit);
    OneMoreStep(s0, s, Land(run), s', ASSUMED);
  }

  /** The record says nothing was changed and frees its fence, over exactly one commit. */
  ghost predicate ClosedOverACommit(s: System, run: RunId) {
    && run in s.cells && s.cells[run].record.Some?
    && s.cells[run].record.value.state == Unchanged && s.cells[run].record.value.active.None?
    && CommitCount(s.history, run) == 1
  }

  lemma Closes(s0: System, s: System, run: RunId, q: Token) returns (s': System)
    requires Leads(s0, s, ASSUMED) && Overtaken(s, run, q)
    ensures Leads(s0, s', ASSUMED) && ClosedOverACommit(s', run)
  {
    var c := s.cells[run];
    var dropped := GoOn(c, q, Cleaned).(staging := false);
    Go(s0, s, run, DropStaging(q, true, true), dropped);
    var swept := Put(s, run, dropped);
    var closed := Leave(dropped, q).(record := Some(Closed(c.record.value)));
    Go(s0, swept, run, Finish(q, Acked), closed);
    s' := Put(swept, run, closed);
  }

  // ----- The claim -----

  function ClaimedCell(c: Cell, q: Token, now: Time): Cell
    requires c.record.Some?
  {
    GoOn(c, q, Claiming).(record := Some(Claimed(c.record.value, q, now)), claimed := true)
  }

  /** The system right after recovery actor `q` claims the run's record. */
  ghost function AfterClaim(s: System, run: RunId, q: Token): System
    requires run in s.cells && s.cells[run].record.Some?
  {
    Put(s, run, ClaimedCell(s.cells[run], q, s.now)).(issued := s.issued + {q})
  }

  ghost predicate MayClaim(s: System, run: RunId, q: Token) {
    && SystemInv(s) && run in s.cells && s.cells[run].record.Some? && q !in s.issued
    && Claimable(s.cells[run].record.value, s.cells[run].lease, s.now)
  }

  lemma ArmedIsUnsubmitted(run: RunId, c: Cell, commits: nat, issued: set<Token>, t: Token)
    requires RecordInv(run, c, commits) && TokensInv(c, issued) && Armed(c) && c.lease.token == Some(t)
    requires WorkerInv(c, commits, t, c.workers[t])
    ensures !c.claimed && c.record.Some? && commits == 0 && c.inFlight == 0 && !c.workers[t].publishSubmitted
    ensures var rec := c.record.value;
            && rec.userId == c.userId && rec.generation == c.generation && rec.targetKey == c.target
            && rec.active == Some(c.target) && rec.submittedAt.None? && rec.confirmedAt.None?
            && !NeedsReconciliation(rec.state)
  {
  }

  lemma PoisedOnceRead(x: Context, c: Cell, t: Token, q: Token) returns (read: Cell)
    requires RecordInv(x.run, c, x.commits) && TokensInv(c, x.issued) && Armed(c) && c.lease.token == Some(t)
    requires WorkerInv(c, x.commits, t, c.workers[t])
    ensures var claimed := ClaimedCell(c, q, x.now);
            CellNext(x, claimed, Read(q, true, Ready), read) && Poised(read, t, q, c.workers[t])
    ensures CanSubmit(read, c.workers[t]) && x.commits == 0 && HoldsFence(c, c.target) && read.target == c.target
  {
    ArmedIsUnsubmitted(x.run, c, x.commits, x.issued, t);
    read := GoOn(ClaimedCell(c, q, x.now), q, Cleaning);
  }

  /** An armed worker, a claimed record: recovery reads it as never submitted. */
  lemma ReadsAsUnsubmitted(s: System, run: RunId, q: Token) returns (s': System, w: Worker)
    requires MayClaim(s, run, q) && Armed(s.cells[run])
    ensures Leads(AfterClaim(s, run, q), s', ASSUMED)
    ensures PoisedIn(s', run, s.cells[run].lease.token.value, q, w) && CanSubmit(s'.cells[run], w)
  {
    var c, t := s.cells[run], s.cells[run].lease.token.value;
    var s1 := AfterClaim(s, run, q);
    w := c.workers[t];
    assert CellInv(run, c, CommitCount(s.history, run), s.issued);
    assert WorkerInv(c, CommitCount(s.history, run), t, w);
    var x := ContextOf(s1, run, ASSUMED);
    var read := PoisedOnceRead(x.(issued := s.issued), c, t, q);
    OwnFenceIsFree(s, run);
    Stay(s1, ASSUMED);
    Go(s1, s1, run, Read(q, true, Ready), read);
    OthersStay(s, run, s1.cells[run], c.target);
    s' := Put(s1, run, read);
  }

  lemma ArmedGoesWrong(s: System, run: RunId, q: Token) returns (s': System)
    requires MayClaim(s, run, q) && Armed(s.cells[run])
    ensures Leads(AfterClaim(s, run, q), s', ASSUMED) && ClosedOverACommit(s', run)
  {
    var s1, t := AfterClaim(s, run, q), s.cells[run].lease.token.value;
    var poised, w := ReadsAsUnsubmitted(s, run, q);
    poised, w := ComesToSubmit(s1, poised, run, t, q, w);
    var sent := Submits(s1, poised, run, t, q, w);
    sent := Sends(s1, sent, run, t, q);
    var landed := Lands(s1, sent, run, q);
    s' := Closes(s1, landed, run, q);
  }

  lemma ClaimKeeps(s: System, run: RunId, q: Token)
    requires MayClaim(s, run, q) && !Armed(s.cells[run])
    ensures SystemInv(AfterClaim(s, run, q))
  {
    assert Next(s, On(run, Claim(q)), AfterClaim(s, run, q), ASSUMED);
    StepKeeps(s, On(run, Claim(q)), AfterClaim(s, run, q));
  }

  lemma NeverClosedOverACommit(s: System, run: RunId)
    requires SystemInv(s)
    ensures !ClosedOverACommit(s, run)
  {
    if run in s.cells {
      assert CellInv(run, s.cells[run], CommitCount(s.history, run), s.issued);
    }
  }

  /**
   Claiming a claimable record of any state that satisfies the invariant can end in `Unchanged` over
   a commit exactly when the record's creator still holds the lease token and can come to submit.
   */
  lemma ClaimIsUnsafeExactlyWhenArmed(s: System, run: RunId, q: Token)
    requires MayClaim(s, run, q)
    ensures (exists s' :: Leads(AfterClaim(s, run, q), s', ASSUMED) && ClosedOverACommit(s', run))
            <==> Armed(s.cells[run])
  {
    if Armed(s.cells[run]) {
      var s' := ArmedGoesWrong(s, run, q);
    } else {
      forall s' | Leads(AfterClaim(s, run, q), s', ASSUMED) ensures !ClosedOverACommit(s', run) {
        ClaimKeeps(s, run, q);
        LeadsKeeps(AfterClaim(s, run, q), s');
        NeverClosedOverACommit(s', run);
      }
    }
  }

  /** Every idle run can come to be claimable while armed: its worker is slow and its lease expires. */
  lemma EveryRunCanBeArmed(s: System, run: RunId) returns (s': System, q: Token)
    requires ConnectorRuns.Idle(s, run)
    ensures Leads(s, s', ASSUMED) && MayClaim(s', run, q) && Armed(s'.cells[run])
  {
    var loaded, t := ConnectorRuns.Loads(s, run);
    var c := loaded.cells[run];
    assert CellInv(run, c, CommitCount(loaded.history, run), loaded.issued);
    assert WorkerInv(c, CommitCount(loaded.history, run), t, c.workers[t]);
    LoadedIsArmed(run, c, CommitCount(loaded.history, run), t, loaded.now);
    s' := Later(s, loaded, loaded.now + Until(c.lease.expires) + Until(c.record.value.recoveryExpires));
    q := Highest(s'.issued) + 1;
  }

  lemma LoadedIsArmed(run: RunId, c: Cell, commits: nat, t: Token, now: Time)
    requires RecordInv(run, c, commits) && At(c, t, Loading) && WorkerInv(c, commits, t, c.workers[t])
    requires c.lease.token == Some(t) && !c.claimed
    ensures Armed(c) && c.record.Some?
    ensures Claimable(c.record.value, c.lease, now + Until(c.lease.expires) + Until(c.record.value.recoveryExpires))
  {
  }
}
