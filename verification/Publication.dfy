/**
 The durable publication record of one Databricks write, the per-target fence it
 carries, and every database transaction that changes it.  A transaction is one
 atomic step: it either commits with its whole effect or leaves no trace.
 */
module Publication {
  import opened Wrappers

  type RunId = nat
  type UserId = nat
  type Generation = nat
  type Token = nat
  type Time = nat

  /** The case-folded identity of a table.  It stands for its own SHA-256 digest. */
  datatype TargetKey = TargetKey(workspace: string, catalog: string, schema: string, table: string)

  datatype State =
    | Preparing | Staging | Publishing | Committed | Uncertain
    | CleanupPending | CleanupRequired | Complete | Unchanged

  datatype Record = Record(
    userId: UserId, generation: Generation,
    targetKey: TargetKey, active: Option<TargetKey>,
    state: State, submissionId: RunId,
    stagedRows: nat, stagedBytes: nat,
    submittedAt: Option<Time>, confirmedAt: Option<Time>,
    recoveryToken: Option<Token>, recoveryExpires: Option<Time>)

  /** The part of a pipeline run that publication reads: its owner and its lease. */
  datatype Lease = Lease(userId: UserId, token: Option<Token>, expires: Option<Time>, terminal: bool)

  /** Who reports an event, for which target. */
  datatype Caller = Caller(
    runId: RunId, leaseToken: Token, userId: UserId, targetKey: TargetKey, generation: Generation)

  datatype Event =
    | PrepareStarted | StagingReady | BatchWritten(rows: nat, bytes: nat)
    | PublishSubmitted | CommitConfirmed | PublishUncertain
    | CleanupIsPending | CleanupConfirmed | AbortConfirmed | AbortUncertain

  /** `FenceTaken` is the unique-index violation of a commit that re-arms a fence. */
  datatype Refusal = WorkerLost | DestinationConflict | CredentialsStale | AlreadySubmitted | FenceTaken

  const RECOVERY_LEASE_SECONDS: nat := 60
  const RETRY_SECONDS: nat := 300
  const STALE_RETRY_SECONDS: nat := 3600

  // ----- Lease and fence -----

  /** The lease check compares the token and the owner, not the expiry. */
  predicate HoldsLease(lease: Option<Lease>, caller: Caller) {
    && lease.Some?
    && lease.value.userId == caller.userId
    && lease.value.token == Some(caller.leaseToken)
  }

  /** No other run's record holds the fence of `key`. */
  predicate FenceFree(records: map<RunId, Record>, run: RunId, key: TargetKey) {
    forall r :: r in records && r != run ==> records[r].active != Some(key)
  }

  /** The unique index on the nullable fence column. */
  ghost predicate UniqueFences(records: map<RunId, Record>) {
    forall r, q :: r in records && q in records && r != q && records[r].active.Some? ==>
      records[r].active != records[q].active
  }

  function Lookup<V>(m: map<RunId, V>, run: RunId): (found: Option<V>)
    ensures found.Some? <==> run in m
    ensures found.Some? ==> found.value == m[run]
  {
    if run in m then Some(m[run]) else None
  }

  // ----- Events reported by the worker -----

  function NewRecord(caller: Caller): Record {
    Record(caller.userId, caller.generation, caller.targetKey, Some(caller.targetKey), Preparing,
           caller.runId, 0, 0, None, None, None, None)
  }

  function Max(a: nat, b: nat): nat { if a < b then b else a }

  /** The field updates of one event on an existing record. */
  function Updated(rec: Record, caller: Caller, event: Event, now: Time): Result<Record, Refusal>
    requires event != PrepareStarted
  {
    match event
    case StagingReady => Success(rec.(state := Staging))
    case BatchWritten(rows, bytes) =>
      Success(rec.(stagedRows := Max(rec.stagedRows, rows), stagedBytes := Max(rec.stagedBytes, bytes)))
    case PublishSubmitted =>
      Success(rec.(state := Publishing, submissionId := caller.runId, submittedAt := Some(now)))
    case CommitConfirmed => Success(rec.(state := Committed, active := None, confirmedAt := Some(now)))
    case PublishUncertain => Success(rec.(state := Uncertain, active := Some(caller.targetKey)))
    case CleanupIsPending =>
      Success(rec.(state := CleanupPending,
                   active := if rec.confirmedAt.None? then Some(caller.targetKey) else rec.active))
    case CleanupConfirmed => Success(Closed(rec))
    case AbortConfirmed =>
      if rec.submittedAt.Some? then Failure(AlreadySubmitted)
      else Success(rec.(state := Unchanged, active := None))
    case AbortUncertain =>
      Success(rec.(state := if rec.submittedAt.Some? then Uncertain else CleanupPending,
                   active := Some(caller.targetKey)))
  }

  /** One event transaction, as a function of what it reads. */
  function Recorded(lease: Option<Lease>, record: Option<Record>, caller: Caller, event: Event, now: Time,
                    fenceFree: bool): Result<Record, Refusal>
  {
    if !HoldsLease(lease, caller) then Failure(WorkerLost)
    else if event == PrepareStarted then
      if record.Some? then Failure(WorkerLost)
      else if !fenceFree then Failure(DestinationConflict)
      else Success(NewRecord(caller))
    else if record.None? || record.value.targetKey != caller.targetKey then Failure(WorkerLost)
    else if record.value.userId != caller.userId || record.value.generation != caller.generation then
      Failure(CredentialsStale)
    else
      var next := Updated(record.value, caller, event, now);
      if next.Success? && next.value.active == Some(caller.targetKey) && !fenceFree then Failure(FenceTaken)
      else next
  }

  // ----- The same, field by field and refusal by refusal -----

  /** What an accepted event leaves in each field of an existing record. */
  ghost predicate Writes(event: Event, caller: Caller, now: Time, was: Record, rec: Record) {
    && rec.userId == was.userId && rec.generation == was.generation && rec.targetKey == was.targetKey
    && rec.stagedRows == (if event.BatchWritten? && event.rows > was.stagedRows then event.rows else was.stagedRows)
    && rec.stagedBytes ==
       (if event.BatchWritten? && event.bytes > was.stagedBytes then event.bytes else was.stagedBytes)
    && rec.submissionId == (if event == PublishSubmitted then caller.runId else was.submissionId)
    && rec.submittedAt == (if event == PublishSubmitted then Some(now) else was.submittedAt)
    && rec.confirmedAt == (if event == CommitConfirmed then Some(now) else was.confirmedAt)
    && rec.recoveryToken == (if event == CleanupConfirmed then None else was.recoveryToken)
    && rec.recoveryExpires == (if event == CleanupConfirmed then None else was.recoveryExpires)
    && rec.active ==
       (if event == CommitConfirmed || event == CleanupConfirmed || event == AbortConfirmed then None
        else if Rearms(event, was) then Some(caller.targetKey) else was.active)
    && rec.state ==
       (if event.BatchWritten? then was.state else if event == StagingReady then Staging
        else if event == PublishSubmitted then Publishing else if event == CommitConfirmed then State.Committed
        else if event == CleanupIsPending then CleanupPending else if event == AbortConfirmed then Unchanged
        else if event == CleanupConfirmed then if was.confirmedAt == None then Unchanged else Complete
        else if event == AbortUncertain && was.submittedAt == None then CleanupPending else Uncertain)
  }

  /** The event puts the fence back on the target. */
  predicate Rearms(event: Event, was: Record) {
    event == PublishUncertain || event == AbortUncertain || (event == CleanupIsPending && was.confirmedAt == None)
  }

  /** The worker's lease is over, or the record is not what the event expects to find for this target. */
  ghost predicate Lost(lease: Option<Lease>, record: Option<Record>, caller: Caller, event: Event) {
    || lease.None? || lease.value.userId != caller.userId || lease.value.token != Some(caller.leaseToken)
    || (if event == PrepareStarted then record.Some?
        else record.None? || record.value.targetKey != caller.targetKey)
  }

  /** The record was made by somebody else or over another connection. */
  ghost predicate Outdated(record: Option<Record>, caller: Caller, event: Event) {
    event != PrepareStarted && record.Some?
    && (record.value.userId != caller.userId || record.value.generation != caller.generation)
  }

  /** Which mismatch is refused how; nothing else is refused. */
  ghost predicate RefusedAs(outcome: Result<Record, Refusal>, lease: Option<Lease>, record: Option<Record>,
                            caller: Caller, event: Event, taken: bool)
  {
    && (outcome == Failure(WorkerLost) <==> Lost(lease, record, caller, event))
    && (outcome == Failure(CredentialsStale) <==>
          !Lost(lease, record, caller, event) && Outdated(record, caller, event))
    && (outcome == Failure(DestinationConflict) <==>
          !Lost(lease, record, caller, event) && event == PrepareStarted && taken)
    && (outcome == Failure(AlreadySubmitted) <==>
          && !Lost(lease, record, caller, event) && !Outdated(record, caller, event)
          && event == AbortConfirmed && record.value.submittedAt != None)
    && (outcome == Failure(FenceTaken) <==>
          && !Lost(lease, record, caller, event) && !Outdated(record, caller, event)
          && event != PrepareStarted && taken && HoldsAfter(event, record.value, caller))
  }

  /** The record holds the fence of the caller's target after the event. */
  ghost predicate HoldsAfter(event: Event, was: Record, caller: Caller) {
    || Rearms(event, was)
    || (&& event != CommitConfirmed && event != CleanupConfirmed && event != AbortConfirmed
        && was.active == Some(caller.targetKey))
  }

  lemma RefusalsOf(lease: Option<Lease>, record: Option<Record>, caller: Caller, event: Event, now: Time,
                   fenceFree: bool)
    ensures RefusedAs(Recorded(lease, record, caller, event, now, fenceFree), lease, record, caller, event, !fenceFree)
  {
  }

  lemma WritesOf(lease: Option<Lease>, record: Option<Record>, caller: Caller, event: Event, now: Time, fenceFree: bool)
    requires Recorded(lease, record, caller, event, now, fenceFree).Success?
    ensures var rec := Recorded(lease, record, caller, event, now, fenceFree).value;
            if event == PrepareStarted then Fresh(rec, caller)
            else record.Some? && Writes(event, caller, now, record.value, rec)
  {
  }

  /** A record as `prepare_started` makes it: the caller's, fenced, with nothing staged or submitted. */
  ghost predicate Fresh(rec: Record, caller: Caller) {
    && rec.userId == caller.userId && rec.generation == caller.generation && rec.targetKey == caller.targetKey
    && rec.active == Some(caller.targetKey) && rec.state == Preparing && rec.submissionId == caller.runId
    && rec.stagedRows == 0 && rec.stagedBytes == 0 && rec.submittedAt == None && rec.confirmedAt == None
    && rec.recoveryToken == None && rec.recoveryExpires == None
  }

  /** Another run's record holds the fence of the caller's target. */
  ghost predicate Taken(records: map<RunId, Record>, caller: Caller) {
    exists r :: r in records && r != caller.runId && records[r].active == Some(caller.targetKey)
  }

  // ----- Transactions of the recovery actor -----

  predicate Recoverable(state: State) {
    || state == Preparing || state == Staging || state == Committed
    || state == CleanupPending || state == Publishing || state == Uncertain
  }

  /** Publication is over and nothing is left to clean. */
  predicate IsClosed(state: State) { state == Complete || state == Unchanged }

  predicate Due(at: Option<Time>, now: Time) { at.None? || at.value <= now }

  /** Selection of a recovery candidate: its record, and its run's lease. */
  predicate Claimable(rec: Record, lease: Lease, now: Time) {
    && Recoverable(rec.state)
    && Due(rec.recoveryExpires, now)
    && (lease.terminal || Due(lease.expires, now))
  }

  /** Neither closed nor parked, not leased to a recovery actor, and its run is over or its lease ran out. */
  ghost predicate Abandoned(rec: Record, lease: Lease, now: Time) {
    && rec.state != CleanupRequired && rec.state != Complete && rec.state != Unchanged
    && !(rec.recoveryExpires.Some? && rec.recoveryExpires.value > now)
    && (lease.terminal || !(lease.expires.Some? && lease.expires.value > now))
  }

  lemma AbandonedIsClaimable(rec: Record, lease: Lease, now: Time)
    ensures Abandoned(rec, lease, now) <==> Claimable(rec, lease, now)
  {
  }

  function Claimed(rec: Record, token: Token, now: Time): Record {
    rec.(recoveryToken := Some(token), recoveryExpires := Some(now + RECOVERY_LEASE_SECONDS))
  }

  function Deferred(rec: Record, delay: nat, state: State, now: Time): Record {
    rec.(state := state, recoveryToken := None, recoveryExpires := Some(now + Max(1, delay)))
  }

  /** Where a record goes when the saved credentials cannot be used. */
  function Unattended(rec: Record): State {
    if rec.confirmedAt.None? then CleanupRequired else CleanupPending
  }

  /** An exact commit marker was found. */
  function MarkedCommitted(rec: Record, now: Time): Record {
    rec.(state := CleanupPending, active := None, confirmedAt := Some(now))
  }

  /** Staging is gone: the record closes by whether its commit was confirmed. */
  function Closed(rec: Record): Record {
    rec.(state := if rec.confirmedAt.Some? then Complete else Unchanged,
         active := None, recoveryToken := None, recoveryExpires := None)
  }

  const LOOKBACK_SECONDS: nat := 60
  const WINDOW_SECONDS: nat := 2_592_000   // 30 days

  /** The search for a commit's marker looks back no further than this. */
  predicate Searchable(submittedAt: Option<Time>, now: Time) {
    submittedAt.Some? && submittedAt.value > 0 && submittedAt.value + WINDOW_SECONDS >= now + LOOKBACK_SECONDS
  }

  predicate NeedsReconciliation(state: State) { state == Publishing || state == Uncertain }

  // ----- One recovery pass, sequentially -----

  datatype Credentials = Ready | Unavailable | Stale
  datatype Verdict = Found | Unknown | Raised

  /** What the outside world answers during one pass. */
  datatype World = World(ownerActive: bool, credentials: Credentials, marker: Verdict, cleaned: bool)

  /** The claimed record after the pass; `None` credentials or owner trouble defer it. */
  function PassResult(rec: Record, world: World, now: Time): Record {
    if !world.ownerActive then Deferred(rec, RETRY_SECONDS, rec.state, now)
    else if world.credentials == Unavailable then Deferred(rec, RETRY_SECONDS, Unattended(rec), now)
    else if world.credentials == Stale then Deferred(rec, STALE_RETRY_SECONDS, Unattended(rec), now)
    else if NeedsReconciliation(rec.state) && world.marker != Found then
      Deferred(rec, RETRY_SECONDS, Uncertain, now)
    else
      var ready := if NeedsReconciliation(rec.state) then MarkedCommitted(rec, now) else rec;
      if world.cleaned then Closed(ready) else Deferred(ready, RETRY_SECONDS, CleanupPending, now)
  }

  /** Where an undisturbed pass leaves a record, field by field. */
  ghost predicate Passes(was: Record, rec: Record, world: World, now: Time) {
    var attended := world.ownerActive && world.credentials == Ready;
    var asks := was.state == Publishing || was.state == Uncertain;
    var confirmed := was.confirmedAt != None || (attended && asks && world.marker == Found);
    var closed := attended && world.cleaned && (asks ==> world.marker == Found);
    && rec == was.(state := rec.state, active := rec.active, confirmedAt := rec.confirmedAt,
                   recoveryToken := None, recoveryExpires := rec.recoveryExpires)
    && rec.state == (if !world.ownerActive then was.state
                     else if !attended then if confirmed then CleanupPending else CleanupRequired
                     else if asks && world.marker != Found then Uncertain
                     else if !closed then CleanupPending else if confirmed then Complete else Unchanged)
    && rec.active == (if closed || (attended && asks && world.marker == Found) then None else was.active)
    && rec.confirmedAt == (if attended && asks && world.marker == Found then Some(now) else was.confirmedAt)
    && rec.recoveryExpires ==
       (if closed then None
        else Some(now + if world.ownerActive && world.credentials == Stale then 3600 else 300))
  }

  lemma PassOf(rec: Record, world: World, now: Time)
    ensures Passes(rec, PassResult(rec, world, now), world, now)
  {
  }

  /** The publication table and the leases of the runs it refers to. */
  class PublicationLedger {
    var leases: map<RunId, Lease>
    var records: map<RunId, Record>
    /** When each record was last written. */
    var updated: map<RunId, Time>

    /** Every record has a run and a time of its last writing, and no two hold one fence. */
    ghost predicate Valid()
      reads this
    {
      UniqueFences(records) && records.Keys <= leases.Keys && records.Keys == updated.Keys
    }

    constructor (leases: map<RunId, Lease>)
      ensures Valid() && this.leases == leases && records == map[]
    {
      this.leases := leases;
      records, updated := map[], map[];
    }

    /** `record_publication_event`: guards first, then one branch per event. */
    method RecordEvent(caller: Caller, event: Event, now: Time) returns (outcome: Result<Record, Refusal>)
      requires Valid()
      modifies this`records, this`updated
      ensures Valid()
      ensures outcome == Recorded(Lookup(old(leases), caller.runId), Lookup(old(records), caller.runId),
                                  caller, event, now,
                                  FenceFree(old(records), caller.runId, caller.targetKey))
      ensures RefusedAs(outcome, Lookup(old(leases), caller.runId), Lookup(old(records), caller.runId), caller, event,
                        Taken(old(records), caller))
      ensures outcome.Success? && event != PrepareStarted ==>
                caller.runId in old(records) && Writes(event, caller, now, old(records)[caller.runId], outcome.value)
      ensures outcome.Success? && event.BatchWritten? ==>
                && outcome.value.stagedRows ==
                   (if event.rows > old(records)[caller.runId].stagedRows then event.rows
                    else old(records)[caller.runId].stagedRows)
                && outcome.value.stagedBytes ==
                   (if event.bytes > old(records)[caller.runId].stagedBytes then event.bytes
                    else old(records)[caller.runId].stagedBytes)
      ensures outcome.Success? && event == PrepareStarted ==> Fresh(outcome.value, caller)
      ensures records == if outcome.Success? then old(records)[caller.runId := outcome.value] else old(records)
      ensures updated == if outcome.Success? then old(updated)[caller.runId := now] else old(updated)
    {
      ghost var lease, record, free := Lookup(leases, caller.runId), Lookup(records, caller.runId),
                                       FenceFree(records, caller.runId, caller.targetKey);
      RefusalsOf(lease, record, caller, event, now, free);
      if Recorded(lease, record, caller, event, now, free).Success? {
        WritesOf(lease, record, caller, event, now, free);
      }
      if !HoldsLease(Lookup(leases, caller.runId), caller) {
        return Failure(WorkerLost);
      }
      if event == PrepareStarted {
        if caller.runId in records {
          return Failure(WorkerLost);
        }
        if !FenceFree(records, caller.runId, caller.targetKey) {
          return Failure(DestinationConflict);
        }
        records, updated := records[caller.runId := NewRecord(caller)], updated[caller.runId := now];
        return Success(records[caller.runId]);
      }
      outcome := UpdateRecord(caller, event, now);
    }

    /** The record of an event other than the first: its identity, its fields, then its fence. */
    method UpdateRecord(caller: Caller, event: Event, now: Time) returns (outcome: Result<Record, Refusal>)
      requires Valid() && event != PrepareStarted && HoldsLease(Lookup(leases, caller.runId), caller)
      modifies this`records, this`updated
      ensures Valid()
      ensures outcome == Recorded(Lookup(old(leases), caller.runId), Lookup(old(records), caller.runId),
                                  caller, event, now,
                                  FenceFree(old(records), caller.runId, caller.targetKey))
      ensures records == if outcome.Success? then old(records)[caller.runId := outcome.value] else old(records)
      ensures updated == if outcome.Success? then old(updated)[caller.runId := now] else old(updated)
    {
      if caller.runId !in records || records[caller.runId].targetKey != caller.targetKey {
        return Failure(WorkerLost);
      }
      var next := records[caller.runId];
      if next.userId != caller.userId || next.generation != caller.generation {
        return Failure(CredentialsStale);
      }
      match event {
        case StagingReady =>
          next := next.(state := Staging);
        case BatchWritten(rows, bytes) =>
          next := next.(stagedRows := Max(next.stagedRows, rows));
          next := next.(stagedBytes := Max(next.stagedBytes, bytes));
        case PublishSubmitted =>
          next := next.(state := Publishing);
          next := next.(submissionId := caller.runId);
          next := next.(submittedAt := Some(now));
        case CommitConfirmed =>
          next := next.(state := Committed);
          next := next.(active := None);
          next := next.(confirmedAt := Some(now));
        case PublishUncertain =>
          next := next.(state := Uncertain);
          next := next.(active := Some(caller.targetKey));
        case CleanupIsPending =>
          next := next.(state := CleanupPending);
          if next.confirmedAt.None? {
            next := next.(active := Some(caller.targetKey));
          }
        case CleanupConfirmed =>
          next := next.(state := if next.confirmedAt.Some? then Complete else Unchanged);
          next := next.(active := None);
          next := next.(recoveryToken := None);
          next := next.(recoveryExpires := None);
        case AbortConfirmed =>
          if next.submittedAt.Some? {
            return Failure(AlreadySubmitted);
          }
          next := next.(state := Unchanged);
          next := next.(active := None);
        case AbortUncertain =>
          if next.submittedAt.Some? {
            next := next.(state := Uncertain);
          } else {
            next := next.(state := CleanupPending);
          }
          next := next.(active := Some(caller.targetKey));
      }
      // Committing checks the unique index; a violation rolls the transaction back.
      if next.active == Some(caller.targetKey) && !FenceFree(records, caller.runId, caller.targetKey) {
        return Failure(FenceTaken);
      }
      records, updated := records[caller.runId := next], updated[caller.runId := now];
      return Success(next);
    }

    /** The claim transaction: lease the claimable record written longest ago to `token`. */
    method ClaimForRecovery(token: Token, now: Time) returns (candidate: Option<RunId>)
      requires Valid()
      modifies this`records, this`updated
      ensures Valid() && records.Keys == old(records).Keys
      ensures candidate.None? ==> records == old(records) && updated == old(updated)
      ensures candidate.None? <==>
              forall r :: r in old(records) ==> !Abandoned(old(records)[r], old(leases)[r], now)
      ensures candidate.Some? ==>
                && candidate.value in old(records)
                && Abandoned(old(records)[candidate.value], old(leases)[candidate.value], now)
                && updated == old(updated)[candidate.value := now]
                && records == old(records)[candidate.value := old(records)[candidate.value].(
                                             recoveryToken := Some(token), recoveryExpires := Some(now + 60))]
      ensures candidate.Some? ==>
                forall r :: r in old(records) && Abandoned(old(records)[r], old(leases)[r], now) ==>
                              old(updated)[candidate.value] <= old(updated)[r]
    {
      forall r | r in records { AbandonedIsClaimable(records[r], leases[r], now); }
      var due := set r | r in records && Claimable(records[r], leases[r], now);
      if due == {} {
        assert forall r :: r in records && Claimable(records[r], leases[r], now) ==> r in due;
        return None;
      }
      var run := Oldest(due);
      records, updated := records[run := Claimed(records[run], token, now)], updated[run := now];
      return Some(run);
    }

    /** Of some runs, one whose record was written no later than the others'. */
    method Oldest(runs: set<RunId>) returns (run: RunId)
      requires runs != {} && runs <= updated.Keys
      ensures run in runs && forall r :: r in runs ==> updated[run] <= updated[r]
    {
      run :| run in runs;
      var left := runs - {run};
      while left != {}
        invariant run in runs && left <= runs
        invariant forall r :: r in runs - left ==> updated[run] <= updated[r]
        decreases |left|
      {
        var next :| next in left;
        if updated[next] < updated[run] {
          run := next;
        }
        left := left - {next};
      }
    }

    /**
     `process_pending_publication_recovery` when nobody interferes: claim, read, reconcile, clean.
     Nobody interfering, the record carries this pass's token at each of its writes.
     */
    method RecoverOnce(token: Token, now: Time, world: World) returns (candidate: Option<RunId>)
      requires Valid()
      modifies this`records, this`updated
      ensures Valid()
      ensures candidate.None? ==> records == old(records) && updated == old(updated)
      ensures candidate.Some? ==>
                && candidate.value in old(records) && updated == old(updated)[candidate.value := now]
                && records == old(records)[candidate.value :=
                                             PassResult(Claimed(old(records)[candidate.value], token, now), world, now)]
                && Passes(old(records)[candidate.value], records[candidate.value], world, now)
    {
      candidate := ClaimForRecovery(token, now);
      if candidate.None? {
        return;
      }
      PassOf(records[candidate.value], world, now);
      RunPass(candidate.value, token, now, world);
    }

    /** What follows the claim. */
    method RunPass(run: RunId, token: Token, now: Time, world: World)
      requires Valid() && run in records && records[run].recoveryToken == Some(token)
      modifies this`records, this`updated
      ensures Valid() && updated == old(updated)[run := now]
      ensures records == old(records)[run := PassResult(old(records)[run], world, now)]
    {
      var record := records[run];
      if !world.ownerActive {
        Defer(run, token, RETRY_SECONDS, None, now);
      } else if world.credentials == Unavailable {
        Defer(run, token, RETRY_SECONDS, Some(Unattended(record)), now);
      } else if world.credentials == Stale {
        Defer(run, token, STALE_RETRY_SECONDS, Some(Unattended(record)), now);
      } else {
        Recover(run, token, now, world);
      }
    }

    method Recover(run: RunId, token: Token, now: Time, world: World)
      requires Valid() && run in records && records[run].recoveryToken == Some(token)
      requires world.ownerActive && world.credentials == Ready
      modifies this`records, this`updated
      ensures Valid() && updated == old(updated)[run := now]
      ensures records == old(records)[run := PassResult(old(records)[run], world, now)]
    {
      if NeedsReconciliation(records[run].state) {
        var concluded := ConcludePublication(run, token, world.marker, now);
        if !concluded {
          return;
        }
      }
      CleanUp(run, token, world.cleaned, now);
    }

    /**
     The marker search decides: a found marker confirms the commit, anything else leaves it uncertain.
     A replaced token changes nothing.
     */
    method ConcludePublication(run: RunId, token: Token, marker: Verdict, now: Time) returns (concluded: bool)
      requires Valid() && run in records
      modifies this`records, this`updated
      ensures Valid() && concluded == (marker == Found && old(records)[run].recoveryToken == Some(token))
      ensures var was := old(records)[run];
              if was.recoveryToken != Some(token) then records == old(records) && updated == old(updated)
              else && updated == old(updated)[run := now]
                   && records == old(records)[run :=
                        if marker == Found then was.(state := CleanupPending, active := None, confirmedAt := Some(now))
                        else was.(state := Uncertain, recoveryToken := None, recoveryExpires := Some(now + 300))]
    {
      if marker != Found {
        Defer(run, token, RETRY_SECONDS, Some(Uncertain), now);
        return false;
      }
      var record := records[run];
      if record.recoveryToken != Some(token) {
        return false;
      }
      record := record.(state := CleanupPending);
      record := record.(active := None);
      record := record.(confirmedAt := Some(now));
      records, updated := records[run := record], updated[run := now];
      return true;
    }

    /** Once staging is gone the record closes.  A replaced token changes nothing. */
    method CleanUp(run: RunId, token: Token, cleaned: bool, now: Time)
      requires Valid() && run in records
      modifies this`records, this`updated
      ensures Valid()
      ensures var was := old(records)[run];
              if was.recoveryToken != Some(token) then records == old(records) && updated == old(updated)
              else && updated == old(updated)[run := now]
                   && records == old(records)[run :=
                        if cleaned then
                          was.(state := if was.confirmedAt == None then Unchanged else Complete,
                               active := None, recoveryToken := None, recoveryExpires := None)
                        else was.(state := CleanupPending, recoveryToken := None, recoveryExpires := Some(now + 300))]
    {
      if !cleaned {
        Defer(run, token, RETRY_SECONDS, Some(CleanupPending), now);
        return;
      }
      var record := records[run];
      if record.recoveryToken != Some(token) {
        return;
      }
      record := record.(state := if record.confirmedAt.Some? then Complete else Unchanged);
      record := record.(active := None);
      record := record.(recoveryToken := None);
      record := record.(recoveryExpires := None);
      records, updated := records[run := record], updated[run := now];
    }

    /** `_defer_recovery` behind its token check: a replaced token changes nothing. */
    method Defer(run: RunId, token: Token, delay: nat, state: Option<State>, now: Time)
      requires Valid() && run in records
      modifies this`records, this`updated
      ensures Valid()
      ensures updated ==
              if old(records)[run].recoveryToken != Some(token) then old(updated) else old(updated)[run := now]
      ensures records ==
              if old(records)[run].recoveryToken != Some(token) then old(records)
              else old(records)[run := old(records)[run].(
                     state := if state.Some? then state.value else old(records)[run].state,
                     recoveryToken := None, recoveryExpires := Some(now + if delay == 0 then 1 else delay))]
    {
      var record := records[run];
      if record.recoveryToken == Some(token) {
        if state.Some? {
          record := record.(state := state.value);
        }
        record := record.(recoveryToken := None);
        record := record.(recoveryExpires := Some(now + Max(1, delay)));
        records, updated := records[run := record], updated[run := now];
      }
    }
  }
}
