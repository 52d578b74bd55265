/**
 A whole load against the ledger: every batch is staged, then reported.  While every report is
 acknowledged, the durable record, the connector and the staging table agree on what was staged.
 */
module LoadProgress {
  import opened Wrappers
  import opened Publication
  import opened Protocol
  import opened DatabricksConnector

  function SumRows(batches: seq<Batch>): nat {
    if batches == [] then 0 else SumRows(batches[..|batches| - 1]) + |batches[|batches| - 1].rows|
  }

  function SumBytes(batches: seq<Batch>): nat {
    if batches == [] then 0 else SumBytes(batches[..|batches| - 1]) + batches[|batches| - 1].bytes
  }

  function AllRows(batches: seq<Batch>): seq<Row> {
    if batches == [] then [] else AllRows(batches[..|batches| - 1]) + batches[|batches| - 1].rows
  }

  lemma {:induction false} RowsAddUp(batches: seq<Batch>)
    ensures |AllRows(batches)| == SumRows(batches)
  {
    if batches != [] { RowsAddUp(batches[..|batches| - 1]); }
  }

  lemma OneMore(batches: seq<Batch>, i: nat, before: seq<Row>)
    requires i < |batches|
    ensures before + AllRows(batches[..i + 1]) == before + AllRows(batches[..i]) + batches[i].rows
    ensures SumBytes(batches[..i + 1]) == SumBytes(batches[..i]) + batches[i].bytes
  {
    assert batches[..i + 1][..i] == batches[..i];
  }

  /** Every call of the run so far succeeded, and record, connector and staging table agree. */
  ghost predicate InStep(c: Connector, ledger: PublicationLedger, run: RunId)
    reads c, c.staging, ledger
  {
    && c.Valid() && ledger.Valid() && c.InOrder(run) && run in c.staging.rows && run in ledger.records
    && ledger.records[run].stagedRows == c.loads[run].rows == |c.staging.rows[run]|
    && ledger.records[run].stagedBytes == c.loads[run].bytes
  }

  /** The ledger takes reports of the caller: lease, record and fence are the caller's own. */
  ghost predicate Acknowledges(ledger: PublicationLedger, caller: Caller)
    reads ledger
  {
    && caller.runId in ledger.leases && caller.runId in ledger.records
    && ledger.leases[caller.runId].userId == caller.userId
    && ledger.leases[caller.runId].token == Some(caller.leaseToken)
    && var record := ledger.records[caller.runId];
    && record.targetKey == caller.targetKey
    && record.userId == caller.userId && record.generation == caller.generation
    && (record.active == Some(caller.targetKey) ==> !Taken(ledger.records, caller))
  }

  /** A batch of the load's columns, none of whose chunks raises. */
  ghost predicate GoesIn(columns: set<string>, batch: Batch, insertion: WriteAnswers) {
    batch.columns == columns && (insertion.failsAt.None? || insertion.failsAt.value * 500 >= |batch.rows|)
  }

  lemma ReportAccepted(ledger: PublicationLedger, caller: Caller, event: Event, now: Time)
    requires event.BatchWritten? && caller.runId in ledger.records
    ensures Recorded(Lookup(ledger.leases, caller.runId), Lookup(ledger.records, caller.runId), caller, event, now,
                     FenceFree(ledger.records, caller.runId, caller.targetKey)).Success? <==>
            Acknowledges(ledger, caller)
  {
    assert Taken(ledger.records, caller) <==> !FenceFree(ledger.records, caller.runId, caller.targetKey);
  }

  /** One batch: into staging, then to the ledger, whose answer the connector gets. */
  method WriteAndReport(c: Connector, ledger: PublicationLedger, caller: Caller, batch: Batch, insertion: WriteAnswers,
                        now: Time)
    returns (written: bool)
    requires InStep(c, ledger, caller.runId)
    modifies c, c.staging, ledger`records, ledger`updated
    ensures written <==>
              GoesIn(old(c.loads[caller.runId]).columns, batch, insertion) && old(Acknowledges(ledger, caller))
    ensures written ==>
              && InStep(c, ledger, caller.runId) && Acknowledges(ledger, caller)
              && c.loads[caller.runId].columns == old(c.loads[caller.runId]).columns
              && c.staging.rows[caller.runId] == old(c.staging.rows[caller.runId]) + batch.rows
              && c.loads[caller.runId].bytes == old(c.loads[caller.runId]).bytes + batch.bytes
  {
    var run := caller.runId;
    var event := BatchWritten(c.loads[run].rows + |batch.rows|, c.loads[run].bytes + batch.bytes);
    ReportAccepted(ledger, caller, event, now);
    var recorded := Recorded(Lookup(ledger.leases, run), Lookup(ledger.records, run), caller, event, now,
                             FenceFree(ledger.records, run, caller.targetKey)).Success?;
    var result, _ := c.WriteBatch(run, batch, insertion.(recorded := recorded));
    if result.Success? || result == Failure(EventRefused) {
      var outcome := ledger.RecordEvent(caller, event, now);
      written := outcome.Success?;
    } else {
      written := false;
    }
  }

  /** Batches in order, up to the first that fails. */
  method Load(c: Connector, ledger: PublicationLedger, caller: Caller, batches: seq<Batch>,
              insertions: nat -> WriteAnswers, times: nat -> Time)
    returns (all: bool)
    requires InStep(c, ledger, caller.runId)
    modifies c, c.staging, ledger`records, ledger`updated
    ensures all <==>
              && (batches == [] || old(Acknowledges(ledger, caller)))
              && forall i: nat :: i < |batches| ==>
                   GoesIn(old(c.loads[caller.runId]).columns, batches[i], insertions(i))
    ensures all ==>
              && InStep(c, ledger, caller.runId)
              && c.staging.rows[caller.runId] == old(c.staging.rows[caller.runId]) + AllRows(batches)
              && var was := old(ledger.records[caller.runId]);
              && ledger.records[caller.runId].stagedRows == was.stagedRows + SumRows(batches)
              && ledger.records[caller.runId].stagedBytes == was.stagedBytes + SumBytes(batches)
  {
    ghost var run, before := caller.runId, c.staging.rows[caller.runId];
    var i := 0;
    while i < |batches|
      invariant 0 <= i <= |batches| && InStep(c, ledger, run)
      invariant c.staging.rows[run] == before + AllRows(batches[..i])
      invariant c.loads[run].bytes == old(c.loads[run]).bytes + SumBytes(batches[..i])
      invariant c.loads[run].columns == old(c.loads[run]).columns
      invariant i == 0 || old(Acknowledges(ledger, caller))
      invariant Acknowledges(ledger, caller) <==> old(Acknowledges(ledger, caller))
      invariant forall j: nat :: j < i ==> GoesIn(old(c.loads[run]).columns, batches[j], insertions(j))
    {
      var written := WriteAndReport(c, ledger, caller, batches[i], insertions(i), times(i));
      if !written {
        return false;
      }
      OneMore(batches, i, before);
      i := i + 1;
    }
    assert batches[..i] == batches;
    RowsAddUp(batches);
    return true;
  }

  /** A load that was just prepared, all its batches, and the publication: the manifest counts them all. */
  method LoadAndFinalize(c: Connector, ledger: PublicationLedger, caller: Caller, batches: seq<Batch>,
                         insertions: nat -> WriteAnswers, times: nat -> Time, answers: FinalizeAnswers)
    returns (result: Result<Manifest, ConnectorError>)
    requires InStep(c, ledger, caller.runId)
    requires c.loads[caller.runId].rows == 0 && c.loads[caller.runId].bytes == 0
    modifies c, c.staging, ledger`records, ledger`updated
    ensures result.Success? <==>
              && (batches == [] || old(Acknowledges(ledger, caller)))
              && (forall i: nat :: i < |batches| ==>
                    GoesIn(old(c.loads[caller.runId]).columns, batches[i], insertions(i)))
              && answers.valid && answers.session && answers.submitted && answers.executed == Answered
              && answers.committed
    ensures result.Success? ==>
              && result.value.rows == |AllRows(batches)| && result.value.bytes == SumBytes(batches)
              && caller.runId in ledger.records
              && ledger.records[caller.runId].stagedRows == result.value.rows
              && ledger.records[caller.runId].stagedBytes == result.value.bytes
  {
    var all := Load(c, ledger, caller, batches, insertions, times);
    if !all {
      return Failure(EventRefused);
    }
    RowsAddUp(batches);
    var finalized, _ := c.Finalize(caller.runId, answers);
    return finalized;
  }
}
