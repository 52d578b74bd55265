/**
 The Databricks destination: the order in which one load reports durable events and touches the
 remote side.  What the outside world answers is a parameter of each call.  Every call drives the
 protocol's worker along a walk, action by action.
 */
module DatabricksConnector {
  import opened Wrappers
  import opened Publication
  import opened Protocol
  import opened WorkerWalks

  type Row = seq<string>

  /** A load that was prepared: its columns, what was loaded so far, and whether it was submitted. */
  datatype LoadState = LoadState(columns: set<string>, rows: nat, bytes: nat, publishSubmitted: bool)

  datatype Batch = Batch(columns: set<string>, rows: seq<Row>, bytes: nat)

  datatype ConnectorError = ProviderError | ReviewError | WorkerGone | PublishIsUncertain | EventRefused

  datatype Manifest = Manifest(rows: nat, bytes: nat, cleanupPending: bool)

  datatype AbortResult = RolledBack | AbortIsUncertain | AbortRaised

  /** The order of the answers is the order the call asks for them. */
  datatype PrepareAnswers = PrepareAnswers(
    started: bool, valid: bool, created: bool, uncertainRecorded: bool, ready: bool)

  /** `failsAt` is the chunk whose insertion raises, after `partial` of its rows. */
  datatype WriteAnswers = WriteAnswers(failsAt: Option<nat>, partial: nat, recorded: bool)

  datatype Execution = BeforeSend | AfterSend | Answered

  datatype FinalizeAnswers = FinalizeAnswers(
    valid: bool, session: bool, submitted: bool, executed: Execution, uncertainRecorded: bool,
    committed: bool, dropped: bool, cleanupRecorded: bool)

  datatype AbortAnswers = AbortAnswers(uncertainRecorded: bool, dropped: bool, confirmed: bool)

  const BATCH_INSERT_ROWS: nat := 500

  // ----- What each call does, by the answers it gets -----

  function PrepareActions(a: PrepareAnswers): seq<Action> {
    if !a.started then [Report(PrepareStarted, false)]
    else if !a.valid then [Report(PrepareStarted, true), Reject]
    else [Report(PrepareStarted, true), SendStaging] + StagingActions(a)
  }

  /** A staging table that may exist is reported unless `staging_ready` is. */
  function StagingActions(a: PrepareAnswers): seq<Action> {
    [StagingReply(a.created),
     if a.created then Report(StagingReady, a.ready) else Report(AbortUncertain, a.uncertainRecorded)]
  }

  predicate Prepares(a: PrepareAnswers) { a.started && a.valid && a.created && a.ready }

  function PrepareEnd(a: PrepareAnswers): Worker { Worker(if Prepares(a) then Loading else Stopped, false) }

  lemma PrepareWalks(a: PrepareAnswers)
    ensures Walks(Worker(Start, false), PrepareActions(a), PrepareEnd(a))
  {
    var w := Worker(Start, false);
    if !a.started {
      WalkOne(w, Report(PrepareStarted, false));
    } else if !a.valid {
      WalkTwo(w, Report(PrepareStarted, true), Reject);
    } else {
      WalkTwo(w, Report(PrepareStarted, true), SendStaging);
      WalkTwo(Worker(StagingSent, false), StagingActions(a)[0], StagingActions(a)[1]);
      WalkOnto(w, [Report(PrepareStarted, true), SendStaging], Worker(StagingSent, false),
               StagingActions(a), PrepareEnd(a));
    }
  }

  function WriteActions(rows: nat, bytes: nat, inserted: bool, recorded: bool): seq<Action> {
    if inserted then [Insert(true), Report(BatchWritten(rows, bytes), recorded)] else [Insert(false)]
  }

  function WriteEnd(inserted: bool, recorded: bool): Worker {
    Worker(if inserted && recorded then Loading else Aborting, false)
  }

  lemma WriteWalks(rows: nat, bytes: nat, inserted: bool, recorded: bool)
    ensures Walks(Worker(Loading, false), WriteActions(rows, bytes, inserted, recorded), WriteEnd(inserted, recorded))
  {
    if inserted {
      WalkTwo(Worker(Loading, false), Insert(true), Report(BatchWritten(rows, bytes), recorded));
    } else {
      WalkOne(Worker(Loading, false), Insert(false));
    }
  }

  function FinalizeActions(a: FinalizeAnswers): seq<Action> {
    if !a.valid then [Validate(false)]
    else if !a.session then [Validate(true), NoSession]
    else [Validate(true), Report(PublishSubmitted, a.submitted)] + if a.submitted then ExecuteActions(a) else []
  }

  function ExecuteActions(a: FinalizeAnswers): seq<Action> {
    match a.executed
    case BeforeSend => [NotSent, Report(PublishUncertain, a.uncertainRecorded)]
    case AfterSend => [Execute, Reply(false)] + [Report(PublishUncertain, a.uncertainRecorded)]
    case Answered => [Execute, Reply(true)] + CommitActions(a)
  }

  function CommitActions(a: FinalizeAnswers): seq<Action> {
    [Report(CommitConfirmed, a.committed)] + if a.committed then CleanupActions(a) else []
  }

  function CleanupActions(a: FinalizeAnswers): seq<Action> {
    [Drop(a.dropped), Report(if a.dropped then CleanupConfirmed else CleanupIsPending, a.cleanupRecorded)]
  }

  predicate Submits(a: FinalizeAnswers) { a.valid && a.session && a.submitted }

  predicate Publishes(a: FinalizeAnswers) { Submits(a) && a.executed == Answered && a.committed }

  function FinalizeEnd(a: FinalizeAnswers): Worker {
    Worker(if Publishes(a) then Stopped else Aborting, Submits(a))
  }

  lemma CommitWalks(a: FinalizeAnswers)
    ensures Walks(Worker(Acknowledged, true), CommitActions(a),
                  Worker(if a.committed then Stopped else Aborting, true))
  {
    var first := [Report(CommitConfirmed, a.committed)];
    WalkOne(Worker(Acknowledged, true), first[0]);
    if a.committed {
      WalkTwo(Worker(Confirmed, true), CleanupActions(a)[0], CleanupActions(a)[1]);
      WalkOnto(Worker(Acknowledged, true), first, Worker(Confirmed, true), CleanupActions(a), Worker(Stopped, true));
    } else {
      assert first + [] == first;
    }
  }

  lemma AnsweredWalks()
    ensures Walks(Worker(Submitted, true), [Execute, Reply(true)], Worker(Acknowledged, true))
  {
    WalkTwo(Worker(Submitted, true), Execute, Reply(true));
  }

  lemma FailedReplyWalks()
    ensures Walks(Worker(Submitted, true), [Execute, Reply(false)], Worker(ExecuteFailed, true))
  {
    WalkTwo(Worker(Submitted, true), Execute, Reply(false));
  }

  lemma ExecuteWalks(a: FinalizeAnswers)
    ensures Walks(Worker(Submitted, true), ExecuteActions(a),
                  Worker(if a.executed == Answered && a.committed then Stopped else Aborting, true))
  {
    var w := Worker(Submitted, true);
    if a.executed == BeforeSend {
      WalkTwo(w, NotSent, Report(PublishUncertain, a.uncertainRecorded));
    } else if a.executed == AfterSend {
      FailedReplyWalks();
      WalkOn(w, [Execute, Reply(false)], Worker(ExecuteFailed, true), Report(PublishUncertain, a.uncertainRecorded));
    } else {
      AnsweredWalks();
      CommitWalks(a);
      WalkOnto(w, [Execute, Reply(true)], Worker(Acknowledged, true), CommitActions(a),
               Worker(if a.committed then Stopped else Aborting, true));
    }
  }

  lemma FinalizeWalks(a: FinalizeAnswers)
    ensures Walks(Worker(Loading, false), FinalizeActions(a), FinalizeEnd(a))
  {
    var w := Worker(Loading, false);
    if !a.valid {
      WalkOne(w, Validate(false));
    } else if !a.session {
      WalkTwo(w, Validate(true), NoSession);
    } else {
      var first := [Validate(true), Report(PublishSubmitted, a.submitted)];
      WalkTwo(w, Validate(true), Report(PublishSubmitted, a.submitted));
      if a.submitted {
        ExecuteWalks(a);
        WalkOnto(w, first, Worker(Submitted, true), ExecuteActions(a), FinalizeEnd(a));
      } else {
        assert first + [] == first;
      }
    }
  }

  lemma UncertainActions(a: FinalizeAnswers)
    requires Submits(a) && a.executed != Answered
    ensures FinalizeActions(a) ==
            [Validate(true)] + [Report(PublishSubmitted, true)]
            + (if a.executed == BeforeSend then [NotSent] else [Execute, Reply(false)])
            + [Report(PublishUncertain, a.uncertainRecorded)]
  {
  }

  lemma UnconfirmedActions(a: FinalizeAnswers)
    requires Submits(a) && a.executed == Answered && !a.committed
    ensures FinalizeActions(a) ==
            [Validate(true)] + [Report(PublishSubmitted, true)] + [Execute, Reply(true)]
            + [Report(CommitConfirmed, false)]
  {
  }

  lemma PublishedActions(a: FinalizeAnswers)
    requires Publishes(a)
    ensures FinalizeActions(a) ==
            [Validate(true)] + [Report(PublishSubmitted, true)] + [Execute, Reply(true)]
            + [Report(CommitConfirmed, true)] + [Drop(a.dropped)]
            + [Report(if a.dropped then CleanupConfirmed else CleanupIsPending, a.cleanupRecorded)]
  {
  }

  /** After `publish_submitted` an abort only reports; before it, staging is dropped first. */
  function AbortActions(submitted: bool, a: AbortAnswers): seq<Action> {
    if submitted then [Report(PublishUncertain, a.uncertainRecorded)]
    else
      [Drop(a.dropped),
       if a.dropped then Report(AbortConfirmed, a.confirmed) else Report(AbortUncertain, a.uncertainRecorded)]
  }

  function Entering(w: Worker): seq<Action> { if w.phase == Aborting then [] else [EnterAbort] }

  function AbortEnd(submitted: bool, a: AbortAnswers): Worker {
    Worker(if !submitted && a.dropped && a.confirmed then Stopped else AbortEnded, submitted)
  }

  lemma AbortingWalks(submitted: bool, a: AbortAnswers)
    ensures Walks(Worker(Aborting, submitted), AbortActions(submitted, a), AbortEnd(submitted, a))
  {
    var actions := AbortActions(submitted, a);
    if submitted {
      WalkOne(Worker(Aborting, true), actions[0]);
    } else {
      WalkTwo(Worker(Aborting, false), actions[0], actions[1]);
    }
  }

  lemma AbortWalks(w: Worker, a: AbortAnswers)
    requires w.phase == Aborting || w.phase == Loading || w.phase == AbortEnded
    ensures Walks(w, Entering(w) + AbortActions(w.publishSubmitted, a), AbortEnd(w.publishSubmitted, a))
  {
    if w.phase == Aborting { NoWalk(w); } else { WalkOne(w, EnterAbort); }
    AbortingWalks(w.publishSubmitted, a);
    WalkOnto(w, Entering(w), w.(phase := Aborting),
             AbortActions(w.publishSubmitted, a), AbortEnd(w.publishSubmitted, a));
  }

  // ----- The connector -----

  /** The private staging tables on the remote side. */
  class StagingArea {
    var rows: map<RunId, seq<Row>>

    constructor ()
      ensures rows == map[]
    {
      rows := map[];
    }
  }

  /**
   A kept load is loading or aborting and knows whether it submitted; while loading, its count is
   that of the rows staged.
   */
  ghost predicate Followed(run: RunId, load: LoadState, workers: map<RunId, Worker>, rows: map<RunId, seq<Row>>) {
    && run in workers && workers[run].publishSubmitted == load.publishSubmitted
    && (workers[run].phase == Loading || workers[run].phase == Aborting || workers[run].phase == AbortEnded)
    && (workers[run].phase == Loading ==>
          !workers[run].publishSubmitted && run in rows && load.rows == |rows[run]|)
  }

  ghost predicate Sound(
      loads: map<RunId, LoadState>, workers: map<RunId, Worker>, astray: set<RunId>, rows: map<RunId, seq<Row>>)
  {
    forall run :: run in loads && run !in astray ==> Followed(run, loads[run], workers, rows)
  }

  /** A call of one run leaves the others sound. */
  lemma ElsewhereSound(
      run: RunId,
      loads: map<RunId, LoadState>, workers: map<RunId, Worker>, astray: set<RunId>, rows: map<RunId, seq<Row>>,
      loads': map<RunId, LoadState>, workers': map<RunId, Worker>, astray': set<RunId>, rows': map<RunId, seq<Row>>)
    requires Sound(loads, workers, astray, rows)
    requires loads' - {run} == loads - {run} && workers' - {run} == workers - {run}
    requires astray' - {run} == astray - {run} && rows' - {run} == rows - {run}
    requires run in loads' && run !in astray' ==> Followed(run, loads'[run], workers', rows')
    ensures Sound(loads', workers', astray', rows')
  {
    forall r | r in loads' && r !in astray' && r != run ensures Followed(r, loads'[r], workers', rows') {
      assert r in loads' - {run} && r !in astray' - {run};
      assert r in loads && r !in astray && Followed(r, loads[r], workers, rows);
      assert r in workers - {run} && (r in rows ==> r in rows - {run});
    }
  }

  class Connector {
    const staging: StagingArea
    var loads: map<RunId, LoadState>
    /** Where each run's worker stands in the protocol. */
    ghost var workers: map<RunId, Worker>
    /** Runs with a call outside the engine's order: prepared twice, or used after a call that failed. */
    ghost var astray: set<RunId>

    constructor ()
      ensures Valid() && loads == map[] && workers == map[] && astray == {} && fresh(staging) && staging.rows == map[]
    {
      staging := new StagingArea();
      loads, workers, astray := map[], map[], {};
    }

    ghost predicate Valid()
      reads this, staging
    {
      Sound(loads, workers, astray, staging.rows)
    }

    /** The engine may write or finalize: every call of the run so far succeeded. */
    ghost predicate InOrder(run: RunId)
      reads this
    {
      run in loads && run !in astray && run in workers && workers[run].phase == Loading
    }

    /** The run's worker goes along, unless the call is outside the engine's order. */
    ghost method Go(run: RunId, end: Worker)
      modifies this`workers, this`astray
      ensures workers == if old(InOrder(run)) then old(workers)[run := end] else old(workers)
      ensures astray == if old(InOrder(run)) then old(astray) else old(astray) + {run}
    {
      if InOrder(run) {
        workers := workers[run := end];
      } else {
        astray := astray + {run};
      }
    }

    /** A run prepared again is followed from the new load on, if it comes to one. */
    method PrepareDestination(run: RunId, columns: set<string>, answers: PrepareAnswers)
      returns (result: Result<(), ConnectorError>, ghost actions: seq<Action>)
      requires Valid()
      modifies this, staging
      ensures Valid() && actions == PrepareActions(answers)
      ensures run in workers && workers == old(workers)[run := workers[run]]
      ensures Walks(Worker(Start, false), actions, workers[run])
      ensures result.Success? <==> answers.started && answers.valid && answers.created && answers.ready
      ensures result == Failure(ReviewError) <==> answers.started && !answers.valid
      ensures result == Failure(ProviderError) <==> answers.started && answers.valid && !answers.created
      ensures result == Failure(EventRefused) <==>
                !answers.started || (answers.valid && answers.created && !answers.ready)
      ensures workers[run].phase == if result.Success? then Loading else Stopped
      ensures astray == if result.Success? then old(astray) - {run}
                        else if run in old(loads) then old(astray) + {run} else old(astray)
      ensures loads == if result.Success? then old(loads)[run := LoadState(columns, 0, 0, false)] else old(loads)
      ensures staging.rows == if answers.started && answers.valid && answers.created
                              then old(staging.rows)[run := []] else old(staging.rows)
    {
      PrepareWalks(answers);
      workers := workers[run := PrepareEnd(answers)];
      astray := if Prepares(answers) then astray - {run} else if run in loads then astray + {run} else astray;
      actions := [Report(PrepareStarted, answers.started)];
      if !answers.started {
        return Failure(EventRefused), actions;
      }
      if !answers.valid {
        actions := actions + [Reject];
        return Failure(ReviewError), actions;
      }
      actions := actions + [SendStaging];
      actions := actions + [StagingReply(answers.created)];
      if !answers.created {
        actions := actions + [Report(AbortUncertain, answers.uncertainRecorded)];
        assert actions == PrepareActions(answers);
        return Failure(ProviderError), actions;
      }
      staging.rows := staging.rows[run := []];
      actions := actions + [Report(StagingReady, answers.ready)];
      assert actions == PrepareActions(answers);
      if !answers.ready {
        return Failure(EventRefused), actions;
      }
      loads := loads[run := LoadState(columns, 0, 0, false)];
      return Success(()), actions;
    }

    /** Rows go in by chunks; a chunk that raises may leave some of its rows behind. */
    method InsertRows(run: RunId, rows: seq<Row>, answers: WriteAnswers) returns (ok: bool, inserted: nat)
      requires run in staging.rows
      modifies staging
      ensures inserted <= |rows| && staging.rows == old(staging.rows)[run := old(staging.rows[run]) + rows[..inserted]]
      ensures ok ==> inserted == |rows|
      ensures ok <==> answers.failsAt.None? || answers.failsAt.value * 500 >= |rows|
    {
      var offset, chunk := 0, 0;
      ghost var was := staging.rows[run];
      assert was + rows[..0] == was && staging.rows == staging.rows[run := was];
      while offset < |rows|
        invariant 0 <= chunk && offset == chunk * BATCH_INSERT_ROWS
        invariant offset < |rows| || chunk == 0 || offset - BATCH_INSERT_ROWS < |rows|
        invariant answers.failsAt.Some? ==> answers.failsAt.value >= chunk
        invariant staging.rows == old(staging.rows)[run := was + rows[..Least(offset, |rows|)]]
        decreases |rows| - offset
      {
        var end := Least(offset + BATCH_INSERT_ROWS, |rows|);
        var fails := answers.failsAt == Some(chunk);
        if fails {
          end := Least(offset + answers.partial, end);
        }
        assert (was + rows[..offset]) + rows[offset..end] == was + rows[..end];
        staging.rows := staging.rows[run := staging.rows[run] + rows[offset..end]];
        if fails {
          return false, end;
        }
        offset, chunk := offset + BATCH_INSERT_ROWS, chunk + 1;
      }
      return true, |rows|;
    }

    /** The batch goes into staging and is counted.  A staging table that is gone raises at the first chunk. */
    method Stage(run: RunId, batch: Batch, answers: WriteAnswers) returns (error: Option<ConnectorError>)
      requires run in loads
      modifies `loads, staging
      ensures error == Some(ReviewError) <==> batch.columns != old(loads[run]).columns
      ensures error == None <==> Fits(old(loads[run]), batch, answers, run in old(staging.rows))
      ensures error == None || error == Some(ReviewError) || error == Some(ProviderError)
      ensures loads ==
              if error.Some? then old(loads)
              else old(loads)[run := old(loads[run]).(rows := old(loads[run]).rows + |batch.rows|,
                                                      bytes := old(loads[run]).bytes + batch.bytes)]
      ensures run !in old(staging.rows) ==> staging.rows == old(staging.rows)
      ensures run in old(staging.rows) ==>
                && run in staging.rows && old(staging.rows[run]) <= staging.rows[run]
                && staging.rows == old(staging.rows)[run := staging.rows[run]]
                && (error.None? ==> staging.rows[run] == old(staging.rows[run]) + batch.rows)
    {
      assert run in staging.rows ==> staging.rows == staging.rows[run := staging.rows[run]];
      var state := loads[run];
      if batch.columns != state.columns {
        return Some(ReviewError);
      }
      var ok := batch.rows == [];
      if run in staging.rows {
        var inserted;
        ok, inserted := InsertRows(run, batch.rows, answers);
        assert batch.rows[..|batch.rows|] == batch.rows;
      }
      if !ok {
        return Some(ProviderError);
      }
      state := state.(rows := state.rows + |batch.rows|);
      state := state.(bytes := state.bytes + batch.bytes);
      loads := loads[run := state];
      return None;
    }

    /** Rows are inserted, then counted, then the record is told the running totals. */
    method WriteBatch(run: RunId, batch: Batch, answers: WriteAnswers)
      returns (result: Result<(nat, nat), ConnectorError>, ghost actions: seq<Action>)
      requires Valid()
      modifies this, staging
      ensures Valid()
      ensures run !in old(loads) ==>
                && result == Failure(WorkerGone) && actions == [] && loads == old(loads)
                && workers == old(workers) && astray == old(astray) && staging.rows == old(staging.rows)
      ensures old(InOrder(run)) ==>
                && run in workers && workers == old(workers)[run := workers[run]] && astray == old(astray)
                && Walks(old(workers[run]), actions, workers[run])
                && workers[run].phase == (if result.Success? then Loading else Aborting)
      ensures run in old(loads) && !old(InOrder(run)) ==> workers == old(workers) && astray == old(astray) + {run}
      ensures run in old(loads) ==>
                && var was := old(loads[run]);
                var inserted := Fits(was, batch, answers, run in old(staging.rows));
                && var rows, bytes := was.rows + |batch.rows|, was.bytes + batch.bytes;
                && actions == WriteActions(rows, bytes, inserted, answers.recorded)
                && loads == (if inserted then old(loads)[run := was.(rows := rows, bytes := bytes)] else old(loads))
                && result == (if batch.columns != was.columns then Failure(ReviewError)
                              else if !inserted then Failure(ProviderError)
                              else if !answers.recorded then Failure(EventRefused)
                              else Success((|batch.rows|, batch.bytes)))
      ensures run in old(loads) && run !in old(staging.rows) ==> staging.rows == old(staging.rows)
      ensures run in old(loads) && run in old(staging.rows) ==>
                && run in staging.rows && old(staging.rows[run]) <= staging.rows[run]
                && staging.rows == old(staging.rows)[run := staging.rows[run]]
                && (result.Success? ==> staging.rows[run] == old(staging.rows[run]) + batch.rows)
    {
      actions := [];
      if run !in loads {
        return Failure(WorkerGone), actions;
      }
      ghost var inserted := Fits(loads[run], batch, answers, run in staging.rows);
      ghost var rows, bytes := loads[run].rows + |batch.rows|, loads[run].bytes + batch.bytes;
      assert InOrder(run) ==> Followed(run, loads[run], workers, staging.rows);
      assert InOrder(run) ==> workers[run] == Worker(Loading, false);
      WriteWalks(rows, bytes, inserted, answers.recorded);
      Go(run, WriteEnd(inserted, answers.recorded));
      var error := Stage(run, batch, answers);
      ElsewhereSound(run, old(loads), old(workers), old(astray), old(staging.rows),
                     loads, workers, astray, staging.rows);
      actions := [Insert(error.None?)];
      if error.Some? {
        result := Failure(error.value);
      } else {
        actions := actions + [Report(BatchWritten(loads[run].rows, loads[run].bytes), answers.recorded)];
        result := if answers.recorded then Success((|batch.rows|, batch.bytes)) else Failure(EventRefused);
      }
      assert actions == WriteActions(rows, bytes, inserted, answers.recorded);
    }

    /**
     Publication.  It succeeds only after the durable `committed` event, reporting as many rows as
     were staged; once `publish_submitted` is recorded the load remembers it, and an unanswered
     statement is reported as uncertain.
     */
    method Finalize(run: RunId, answers: FinalizeAnswers)
      returns (result: Result<Manifest, ConnectorError>, ghost actions: seq<Action>)
      requires Valid()
      modifies this, staging
      ensures Valid()
      ensures run !in old(loads) ==>
                && result == Failure(WorkerGone) && actions == [] && loads == old(loads)
                && workers == old(workers) && astray == old(astray) && staging.rows == old(staging.rows)
      ensures run in old(loads) ==> actions == FinalizeActions(answers)
      ensures old(InOrder(run)) ==>
                && run in workers && workers == old(workers)[run := workers[run]] && astray == old(astray)
                && Walks(old(workers[run]), actions, workers[run])
                && workers[run].phase == (if result.Success? then Stopped else Aborting)
                && (result.Success? ==> result.value.rows == |old(staging.rows[run])|)
      ensures run in old(loads) && !old(InOrder(run)) ==> workers == old(workers) && astray == old(astray) + {run}
      ensures run in old(loads) ==>
                var state := old(loads[run]);
                && loads == (if Publishes(answers) then old(loads) - {run}
                             else if Submits(answers) then old(loads)[run := state.(publishSubmitted := true)]
                             else old(loads))
                && staging.rows == (if Publishes(answers) && answers.dropped then old(staging.rows) - {run}
                                    else old(staging.rows))
                && result == (if Publishes(answers) then
                                Success(Manifest(state.rows, state.bytes,
                                                 !(answers.dropped && answers.cleanupRecorded)))
                              else if !answers.valid then Failure(ReviewError)
                              else if !answers.session || !answers.submitted then Failure(ProviderError)
                              else if answers.executed != Answered then Failure(PublishIsUncertain)
                              else Failure(EventRefused))
    {
      actions := [];
      if run !in loads {
        return Failure(WorkerGone), actions;
      }
      FinalizeWalks(answers);
      Go(run, FinalizeEnd(answers));
      actions := [Validate(answers.valid)];
      if !answers.valid {
        return Failure(ReviewError), actions;
      }
      if !answers.session {
        actions := actions + [NoSession];
        return Failure(ProviderError), actions;
      }
      actions := actions + [Report(PublishSubmitted, answers.submitted)];
      if !answers.submitted {
        assert actions == FinalizeActions(answers);
        return Failure(ProviderError), actions;
      }
      loads := loads[run := loads[run].(publishSubmitted := true)];
      actions := actions + if answers.executed == BeforeSend then [NotSent]
                           else [Execute, Reply(answers.executed == Answered)];
      if answers.executed != Answered {
        actions := actions + [Report(PublishUncertain, answers.uncertainRecorded)];
        UncertainActions(answers);
        return Failure(PublishIsUncertain), actions;
      }
      actions := actions + [Report(CommitConfirmed, answers.committed)];
      if !answers.committed {
        UnconfirmedActions(answers);
        return Failure(EventRefused), actions;
      }
      var cleanupPending := !answers.dropped;
      actions := actions + [Drop(answers.dropped)];
      if answers.dropped {
        staging.rows := staging.rows - {run};
      }
      ghost var last := if cleanupPending then CleanupIsPending else CleanupConfirmed;
      actions := actions + [Report(last, answers.cleanupRecorded)];
      PublishedActions(answers);
      if !answers.cleanupRecorded {
        cleanupPending := true;
      }
      var manifest := Manifest(loads[run].rows, loads[run].bytes, cleanupPending);
      loads := loads - {run};
      return Success(manifest), actions;
    }

    /**
     Rolling back.  It claims a rollback only if the record was closed as unchanged, and after
     `publish_submitted` it never drops staging.
     */
    method Abort(run: RunId, answers: AbortAnswers) returns (result: AbortResult, ghost actions: seq<Action>)
      requires Valid()
      modifies this, staging
      ensures Valid() && astray == old(astray)
      ensures run !in old(loads) ==>
                && result == AbortIsUncertain && actions == []
                && loads == old(loads) && workers == old(workers) && staging.rows == old(staging.rows)
      ensures run in old(loads) ==>
                actions == (if run in astray then [] else Entering(old(workers[run])))
                           + AbortActions(old(loads[run].publishSubmitted), answers)
      ensures run in old(loads) && run !in astray ==>
                && run in workers && workers == old(workers)[run := workers[run]]
                && Walks(old(workers[run]), actions, workers[run])
                && workers[run].phase == if result == RolledBack then Stopped else AbortEnded
      ensures run in old(loads) && run in astray ==> workers == old(workers)
      ensures result == RolledBack <==>
                run in old(loads) && !old(loads[run].publishSubmitted) && answers.dropped && answers.confirmed
      ensures result == AbortRaised <==>
                run in old(loads) && !old(loads[run].publishSubmitted) && answers.dropped && !answers.confirmed
      ensures loads == if result == RolledBack then old(loads) - {run} else old(loads)
      ensures staging.rows == if run in old(loads) && !old(loads[run].publishSubmitted) && answers.dropped
                              then old(staging.rows) - {run} else old(staging.rows)
    {
      actions := [];
      if run !in loads {
        return AbortIsUncertain, actions;
      }
      if run !in astray {
        AbortWalks(workers[run], answers);
        actions := Entering(workers[run]);
        workers := workers[run := AbortEnd(workers[run].publishSubmitted, answers)];
      }
      ghost var entering := actions;
      if loads[run].publishSubmitted {
        actions := actions + [Report(PublishUncertain, answers.uncertainRecorded)];
        return AbortIsUncertain, actions;
      }
      actions := actions + [Drop(answers.dropped)];
      if !answers.dropped {
        actions := actions + [Report(AbortUncertain, answers.uncertainRecorded)];
        assert actions == entering + AbortActions(false, answers);
        return AbortIsUncertain, actions;
      }
      staging.rows := staging.rows - {run};
      actions := actions + [Report(AbortConfirmed, answers.confirmed)];
      assert actions == entering + AbortActions(false, answers);
      if !answers.confirmed {
        return AbortRaised, actions;
      }
      loads := loads - {run};
      return RolledBack, actions;
    }
  }

  function Least(a: nat, b: nat): nat { if a < b then a else b }

  /** The batch has the load's columns, its staging table is there, and all its chunks of 500 rows go in. */
  ghost predicate Fits(state: LoadState, batch: Batch, answers: WriteAnswers, there: bool) {
    && batch.columns == state.columns && (there || batch.rows == [])
    && (answers.failsAt.None? || answers.failsAt.value * 500 >= |batch.rows|)
  }
}
