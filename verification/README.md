# Data Mover: verified model

Data Mover moves rows from a source table or file to a destination table or file. This project
models the parts of it that must not go wrong quietly, and proves what they promise.

**The Databricks publication protocol** (`Publication`, `RecordHistory`, `Protocol`, `ProtocolSafety`,
`ProtocolTheorems`, `Continuations`, `LeaseAssumption`, `Recovery`, `Closing`, `FinalStates`, `Markers`,
`Reconciliation`, `WorkerWalks`, `DatabricksConnector`, `LoadProgress`, `ConnectorRuns`). A worker that holds a run lease stages rows, submits one
publish statement to a remote table and cleans up. A durable record carries a fence on the target (a
nullable unique column); a recovery actor with its own expiring token takes over abandoned records.

- `Publication` holds the record, every database transaction on it, and an imperative ledger proved
  against them; `RecordHistory` says what a record's fields are after any list of transactions.
- `Protocol` is the transition system of all actors: run leases, records, workers, recovery actors,
  staging tables, statements in flight, the target's commit history, a clock. An event may be recorded
  and acknowledged, recorded and lost on the way back, or not recorded; workers and recovery actors may
  crash between any two actions; a statement may take effect long after its sender is gone.
- `Recovery` and `Closing` say what a record is bound to come to and exactly when it can still get
  there, `FinalStates` exactly when a complete or parked record can still change.
- `WorkerWalks`, `DatabricksConnector` and `ConnectorRuns` connect the connector's prepare, write,
  finalize and abort to it: each call drives the worker along a walk, and every walk is a run of the
  protocol with the environment's steps in between. `LoadProgress` runs a whole load of batches against
  the ledger.
- `Reconciliation` is the search for a commit's marker in query and table history, and `Markers` the
  text it looks for.

Two environment assumptions have names, and the code enforces neither.

- `disarmed`: a record is claimed for recovery only when the worker that created it no longer holds the
  lease token, or is past the point from which it can come to submit. The lease check compares the
  token and not its expiry (`app/services/databricks_publication.py:156-165`), while recovery may begin
  on expiry (`:217-221`). The assumption is exact: `LeaseAssumption.ClaimIsUnsafeExactlyWhenArmed`
  proves, for every claimable record of every state satisfying the invariant, that claiming it can end
  in `unchanged` over a commit if and only if the worker is still armed; and every idle run can come to
  that (`LeaseAssumption.EveryRunCanBeArmed`).
- `unmentioned`: no statement but a run's own publish statement carries that run's marker. The search
  of the query history accepts any finished statement whose text contains the marker
  (`app/connectors/databricks.py:997-1001`), so an operator's lookup of a run is found as its commit
  (`Reconciliation.LookupIsFound`). `Reconciliation.FoundExactlyWhen` and `RuleIsSoundExactlyWhen` say
  when a found marker means a commit, and `CompleteOverNothingExactlyWhenMentioned` that without the
  assumption every record awaiting its marker can be closed as complete over no commit, as long as the
  marker can be searched for within the 30 days.

Facts about the code that the proofs brought out:

- A recoverable record can still close exactly when it is not stuck
  (`Closing.ClosesExactlyUnlessStuck`). It is stuck when it was submitted, is not confirmed, and either
  its publish statement is gone, or nobody can confirm the commit any more: no worker with the lease
  waits for its answer, no recovery actor holds the marker, and no search, neither one under way nor
  that of the next pass, comes within the 30-day window (`app/connectors/databricks.py:961-964`).
- A stuck record keeps its fence in every continuation (`Closing.StuckKeepsFence`), also when its
  statement did take effect. Every idle run can come to that (`FinalStates.EveryRunCanBeStuck`).
- Recovery never takes up a record that is `complete` or `cleanup_required`, but the events of a run do
  not look at the record's state. With the target's fence free for it, such a record can change its
  state if and only if the worker that holds the lease is past its first event and, behind a complete
  record, has more left than the report of cleaned staging
  (`FinalStates.FinalIsLeftExactlyWhenMeddled`; `FinalStates.MeddlingPhases` lists where that worker
  stands). Every idle run can come to either (`FinalStates.EveryRunCanBeMeddledWith`).
- When keys of different text are equal to the server, a new key staged twice keeps its last spelling,
  where row-by-row application keeps the first (`PostgresUpsert.UpsertIsRowByRow`).
- Combining Foundry batch types one by one can refuse lists of types that the all-at-once call accepts;
  `LosslessTypes.FoldSucceedsExactlyWhen` says which. The converse never happens.
- The decimal check refuses float columns also where every value would be exact
  (`DecimalValidation.AcceptedExactlyWhenStored`).
- In the emulated Delta tables a replace prepared before an append drops its rows
  (`DeltaBackend.ReplaceDropsAnAppend`).

**The PostgreSQL load path** (`PostgresUpsert`, `OwnedSequences`, `CopyCsv`). The set-based upsert
against row-by-row application; the advance of owned sequences under concurrent `nextval`; the COPY
text against a reader of section 2 of RFC 4180 with unquoted `\N` as null.

**Exact numerics** (`Decimals`, `DecimalValidation`, `ColumnCasting`, `FoundryProfiles`,
`LosslessTypes`, `CsvProfile`, `NumeralText`, `ExactFloats`). One theory of `coefficient * 10^exponent` stored by
Decimal(precision, scale), used by every place that chooses or accepts a type; the texts of CSV numbers
and their values, which the type inference is measured against; and integers in a
binary significand under roundTiesToEven, section 4.3.1 of IEEE 754-2019.

**Engines with state** (`DemoUpsert`, `DemoPostgres`, `DeltaBackend`, `RuntimeLifetime`,
`BatchSplitter`). The emulated PostgreSQL and Delta backends, the admission and drain counter of
the runtime, and the splitting and numbering of batches from source to destination.

A database transaction is one atomic step. A frame is a sequence of rows with an arbitrary size
function. Hash digests are replaced by the identity they are taken of. Integers are unbounded
except where a width decides something (64-bit CSV integers, PostgreSQL and Polars integer types,
float significands), and there it is written out.

## Model

| member | source | states |
|---|---|---|
| Publication.PublicationLedger.RecordEvent | app/services/databricks_publication.py:29-152 | each event writes its own fields and leaves every other field of the record: a batch raises staged rows to its rows and staged bytes to its bytes; each mismatch of lease, record, connection, submission or fence has its own refusal, nothing else is refused, and a refusal changes nothing; two records never hold one fence |
| RecordHistory.TotalsAreLargestReported | app/services/databricks_publication.py:94-100 | after any list of transactions on a record, staged rows and staged bytes are each the largest reported by the batch events it accepted |
| RecordHistory.TimesAreThoseReported | app/services/databricks_publication.py:101-113 | its submission time is that of its last accepted submission, and its confirmation time that of its last confirmation, by the worker or by a found marker |
| Publication.PublicationLedger.ClaimForRecovery | app/services/databricks_publication.py:198-239 | of the records neither closed nor parked, not leased to a recovery actor and whose run is over or out of its lease, the one written longest ago is leased to the new token for 60 seconds; nothing is claimed exactly when there is none, and no other record changes |
| Publication.PublicationLedger.RecoverOnce | app/services/databricks_publication.py:180-435 | a whole undisturbed recovery pass, in its order of transactions, leaves the claimed record in the state, fence, confirmation and retry time that owner, credentials, marker and cleanup call for |
| Publication.PublicationLedger.ConcludePublication | app/services/databricks_publication.py:344-378 | only a found marker confirms the commit and frees the fence; a replaced token changes nothing |
| Publication.PublicationLedger.CleanUp | app/services/databricks_publication.py:380-402 | once staging is gone the record closes by whether its commit was confirmed; a replaced token changes nothing |
| Publication.PublicationLedger.Defer | app/services/databricks_publication.py:438-453 | postponing clears the token and sets the retry time, and does nothing for a token that was replaced |
| ProtocolTheorems.Reachable | app/services/databricks_publication.py:29-435 | the system invariant (records, workers, recovery actors, fences, history) holds in every reachable state |
| ProtocolSafety.CellStepKeeps | app/services/databricks_publication.py:72-152 | each step of a worker, recovery actor, lease or remote statement keeps the invariant of the run it belongs to |
| ProtocolTheorems.PublishesUnderOwnFence | app/connectors/databricks.py:693-745 | whenever a publish statement takes effect, its run holds the target's fence, no other run does, it is that run's first commit and its staging table still exists |
| ProtocolTheorems.PublishesAtMostOnce | app/connectors/databricks.py:703-745 | no run occurs twice in the commit history, whoever crashes, expires or recovers |
| ProtocolTheorems.RecordTellsHistory | app/services/databricks_publication.py:101-152 | submitted and unconfirmed keeps the fence and is never `unchanged`; `unchanged` means no commit and none in flight; confirmed means exactly one |
| ProtocolTheorems.UnchangedForever | app/services/databricks_publication.py:124-140 | once a record says `unchanged`, its run never commits in any continuation |
| ProtocolTheorems.FinalStatesAreFinal | app/services/databricks_publication.py:203-212 | a record that is complete, or parked as `cleanup_required`, never changes again once no worker past its first event holds the lease |
| ProtocolTheorems.LostTokenNeverWrites | app/services/databricks_publication.py:243-246 | from the moment a recovery token is replaced or cleared, no step of its actor alters the record, with or without the lease assumption |
| ProtocolTheorems.ConfirmsOnlyRealCommits | app/services/databricks_publication.py:354-378 | a record is confirmed only if the target's history holds that run's commit |
| LeaseAssumption.ClaimIsUnsafeExactlyWhenArmed | app/services/databricks_publication.py:156-165 | from every state satisfying the invariant, claiming a claimable record can end in `unchanged`, fence free, over one commit if and only if its creator still holds the lease token in a phase from which it can come to submit |
| LeaseAssumption.ArmedGoesWrong | app/services/databricks_publication.py:217-239 | the run that shows it, from whichever phase the worker is in |
| LeaseAssumption.EveryRunCanBeArmed | app/services/databricks_publication.py:217-221 | every idle run can come to be claimable while its worker can still submit |
| Reconciliation.Reconcile | app/connectors/databricks.py:947-1027 | the marker is found exactly when the workspace, the identity, the 30-day window and the compute hold and a page read, or a row of the table history, shows it; an answer is raised exactly for another workspace, an unknown compute or a broken history |
| Reconciliation.WindowInSeconds | app/connectors/databricks.py:959-964 | the window in milliseconds is the protocol's window in seconds; a record never submitted is outside it |
| Reconciliation.SearchQueries | app/connectors/databricks.py:965-1007 | found exactly when one of the first hundred pages reached shows a finished statement with both tags or the marker in its text |
| Reconciliation.SearchHistory | app/connectors/databricks.py:1009-1027 | found exactly when some row has the run in the first column named `usermetadata`, wherever that stands, and no row before it ends short of that column; a failing connector, or a short row first, is raised; a failing provider is unknown |
| Reconciliation.OwnCommitIsFound | app/connectors/databricks.py:1018-1027 | a row whose metadata cell is the run is found, wherever that column and that row stand, and nothing is raised |
| Reconciliation.MatchesExactlyWhen | app/connectors/databricks.py:982-1001 | a statement matches exactly when it finished and the last tag of each name gives run and target, or its text holds `datamover-run:`, the run, `;target:` and the target |
| Reconciliation.FoundExactlyWhen | app/connectors/databricks.py:983-1001 | over every log, the search finds the run's marker if and only if the run committed or another finished statement carries the marker |
| Reconciliation.RuleIsSoundExactlyWhen | app/connectors/databricks.py:983-1001 | over logs mixing the publish statements of all runs with others, a found marker means the run committed exactly when no admitted foreign statement and no admitted statement body carries the marker |
| Reconciliation.LookupIsFound | app/connectors/databricks.py:997-1001 | for every run, an operator's lookup statement alone is found as its commit |
| Reconciliation.OwnPublishIsFound | app/connectors/databricks.py:698-724 | what a run's publish statement leaves behind, its reconciliation finds |
| Markers.MarkerOccursExactly | app/connectors/databricks.py:720-723 | a publish statement contains the marker of a run and target exactly when they are its own or its body spells the marker out |
| Markers.ValidRunExactly | app/connectors/databricks.py:959-960 | the runs that are searched for are the texts of twenty to forty hexadecimal digits and dashes |
| Reconciliation.VerdictIsProtocolStep | app/services/databricks_publication.py:344-382 | whatever verdict the search gives of a log that agrees with the system, the protocol has the step for it |
| Reconciliation.CompleteOverNothingExactlyWhenMentioned | app/services/databricks_publication.py:344-402 | an undecided record without a commit can be closed as complete over none exactly when others may carry markers and the search still comes within the window |
| Recovery.RecoveryKeepsDestiny | app/services/databricks_publication.py:344-434 | from its first claim on, over every run of the protocol, a record's outcome is fixed, and whenever it is closed it is closed with that outcome and a free fence |
| Recovery.ClaimedStepKeepsDestiny | app/services/databricks_publication.py:344-434 | no step on a claimed record changes what it must come to: crashes, lost acknowledgements, competing recovery actors, its worker, unusable credentials |
| Recovery.PassReachesDestiny | app/services/databricks_publication.py:251-402 | on reachable records an undisturbed pass that closes, closes with the record's due outcome |
| Closing.ClosesExactlyUnlessStuck | app/connectors/databricks.py:947-1027 | a recoverable record of any state satisfying the invariant can still close, with its due outcome and a free fence, exactly when it is not stuck: its statement is not lost, and the marker can still be searched for in time or somebody past the search can still confirm |
| Closing.StuckKeepsFence | app/services/databricks_publication.py:344-378 | a stuck record stays open and keeps its fence in every continuation |
| FinalStates.FinalIsLeftExactlyWhenMeddled | app/services/databricks_publication.py:72-152 | from every state satisfying the invariant with the fence free, a complete or parked record can change its state if and only if the worker that holds the lease meddles |
| FinalStates.MeddlingPhases | app/services/databricks_publication.py:101-152 | behind a complete record the meddling worker stands in one of seven phases, from sending the statement to the end of an abort |
| FinalStates.EveryRunCanBeMeddledWith | app/services/databricks_publication.py:217-239 | every idle run can come to be complete, or parked, with its worker in such a phase and the fence free |
| FinalStates.EveryRunCanBeStuck | app/connectors/databricks.py:961-964 | every idle run can come to be stuck although its publish statement took effect |
| Recovery.PassIsProtocolRun | app/services/databricks_publication.py:227-402 | the sequential pass of the ledger is one of the protocol's runs |
| Recovery.PathLeads | app/services/databricks_publication.py:227-402 | a pass within one run is a run of the whole system |
| DatabricksConnector.Connector.PrepareDestination | app/connectors/databricks.py:516-618 | the actions of preparing, in order, are a walk of a new worker; a load is kept exactly when all of them succeed, with an empty staging table; an earlier load of the run stays otherwise |
| DatabricksConnector.PrepareWalks | app/connectors/databricks.py:542-587 | whatever is answered, those actions walk the protocol's worker from start to loading or stopped |
| DatabricksConnector.Connector.WriteBatch | app/connectors/databricks.py:621-659 | a batch of other columns is refused and nothing goes in; otherwise rows go in before they are reported, and the load's rows and bytes, which the record is told, grow by the batch's; staging holds the earlier rows and then the batch; after calls that all succeeded it is a walk of the worker |
| DatabricksConnector.Connector.InsertRows | app/connectors/databricks.py:643-644 | chunks of 500 insert every row once and in order, or a first part when one raises |
| DatabricksConnector.WriteWalks | app/connectors/databricks.py:642-656 | a batch walks the protocol's worker back to loading, or to aborting on any failure |
| LoadProgress.Load | app/connectors/databricks.py:621-659 | a list of batches against the ledger goes through exactly when the ledger still takes the caller's reports and every batch goes in; the record's staged rows are then the rows in the staging table, and rows and bytes have grown by the sums over the batches |
| LoadProgress.LoadAndFinalize | app/connectors/databricks.py:621-784 | a prepared load that is finalized reports the rows and bytes of all its batches, as the record does |
| DatabricksConnector.Connector.Finalize | app/connectors/databricks.py:661-784 | success exactly after the durable commit event; a recorded submission is remembered; an unanswered statement is reported as uncertain; after calls that all succeeded it is a walk of the worker and reports as many rows as were staged |
| DatabricksConnector.Connector.Abort | app/connectors/databricks.py:881-930 | a rollback is claimed exactly when nothing was submitted, staging was dropped and the record closed; after a submission staging stays; a walk of the worker after calls in the engine's order |
| DatabricksConnector.AbortWalks | app/connectors/databricks.py:886-930 | whatever is answered, an abort entered from loading, a failure or an earlier abort walks the protocol's worker to stopped or back to waiting |
| WorkerWalks.ActionIsProtocolStep | app/connectors/databricks.py:516-930 | every action of a worker is an enabled step of the protocol with the same effect on the run |
| ConnectorRuns.CallIsProtocolRun | app/connectors/databricks.py:516-930 | every walk, so every call with whatever answers, is a run of the protocol with the environment's steps in between |
| ConnectorRuns.EveryRunCanComplete | app/connectors/databricks.py:693-784 | from every state satisfying the invariant an idle run can come to be complete, with exactly one commit |
| DatabricksConnector.FinalizeWalks | app/connectors/databricks.py:693-784 | the actions of finalize, whatever is answered, walk the protocol's worker to stopped or aborting |
| WorkerWalks.SubmitsBeforeExecuting | app/connectors/databricks.py:710-724 | in every walk the publish statement is sent right after the submission is durably recorded |
| WorkerWalks.ExecutesAtMostOnce | app/connectors/databricks.py:710-745 | in every walk from the start it is sent at most once |
| WorkerWalks.DropsOnlySafely | app/connectors/databricks.py:747-760 | in every walk from the start staging is dropped only if the statement was never sent or right after the commit is durably confirmed |
| PostgresUpsert.UpsertIsRowByRow | app/connectors/postgres.py:1059-1121 | in whatever order the server takes the reduced rows, the statement succeeds and leaves the table that applying the staged rows one by one would, new keys spelled as staged last; the tables are the same exactly when the first and last spellings of every new key agree |
| PostgresUpsert.StatementWrites | app/connectors/postgres.py:1076-1121 | after the statement, in whatever order, a staged key without nulls has the loaded columns of its last staged row, and its spelling and other columns from the table when it was there, else from that row and the defaults; any other key keeps its row |
| PostgresUpsert.StatementInserts | app/connectors/postgres.py:1067-1091 | every staged row with a null anywhere in its key adds its own spelling, loaded columns and the defaults, once each, and nothing else is added to the rows that cannot conflict |
| PostgresUpsert.AppliedRow | app/connectors/postgres.py:1103-1121 | a staged key ends with the loaded columns of its last staged row and keeps its own or its first staged spelling, every other key keeps its row, unsupplied columns keep their values or take the defaults |
| PostgresUpsert.MergeSucceeds | app/connectors/postgres.py:1076-1091 | the reduced rows never make one statement touch a key twice |
| PostgresUpsert.SourceOfKey | app/connectors/postgres.py:1076-1091 | the reduction keeps each non-null key once, on its last staged row |
| PostgresUpsert.OrderIgnored | app/connectors/postgres.py:1076-1091 | null-key insertions and key counts do not depend on row order |
| PostgresUpsert.ExpectedRowsAreTouchedRows | app/connectors/postgres.py:1206-1241 | the number of staged rows with a null in their key plus the number of different keys without one is the number of rows the statement applies |
| PostgresUpsert.RepeatingChangesNothing | app/connectors/postgres.py:1059-1121 | without null keys, loading the same rows again changes nothing |
| OwnedSequences.OwnedSequence.NextVal | app/connectors/postgres.py:1323-1325 | the next value is handed out, and never again |
| OwnedSequences.OwnedSequence.Advance | app/connectors/postgres.py:1308-1374 | which setting refuses which way, exactly; an owned sequence is locked, and one that is not owned refused, exactly when some staged or destination key lies beyond the next value; on passing, with either sign of increment and any concurrent calls, every later value lies strictly beyond every key and beyond every value ever handed out, and nothing more is skipped |
| OwnedSequences.BoundaryIsExtreme | app/connectors/postgres.py:1288-1305 | the boundary is a non-null key that no other lies beyond, and absent exactly when all are null |
| OwnedSequences.AdvanceAll | app/connectors/postgres.py:1316-1374 | advancing several columns passes exactly when every column's sequence can be advanced or need not be, and then reserves the keys of each |
| CopyCsv.WriteField | app/connectors/postgres.py:992-1008 | one field is written as null, doubled quotes or hexadecimal |
| CopyCsv.WriteBatch | app/connectors/postgres.py:984-1014 | the buffer is the encoding of the batch |
| CopyCsv.RoundTrip | app/connectors/postgres.py:992-1014 | reading the emitted text gives null for null, each text itself, and two hexadecimal digits for each byte, row by row, exactly when every row has a column |
| CopyCsv.RecordReadsBack | app/connectors/postgres.py:1002-1012 | one record reads back whatever follows it, quotes, commas, line breaks and literal `\N` included |
| CopyCsv.BytesReadBack | app/connectors/postgres.py:992-1001 | the hexadecimal text determines the bytes |
| Decimals.EmbedsIffRoom | app/connectors/decimal_validation.py:82-87 | every value of one decimal type is stored by another exactly when scale and integer digits both suffice |
| Decimals.ScaledExactly | app/services/column_casting.py:145-158 | a coefficient with an exponent is an integer at a scale exactly when the two agree after multiplying out both powers of ten |
| DecimalValidation.Validate | app/connectors/decimal_validation.py:39-103 | passes exactly when no column is refused, and names a refused one otherwise, unbounded columns first |
| DecimalValidation.AcceptedExactlyWhenStored | app/connectors/decimal_validation.py:72-103 | a bounded source is accepted exactly when the destination stores every value of it, except that float columns are refused also for whole numbers of at most 7 or 15 digits |
| DecimalValidation.UnboundedAcceptedExactlyWhenStored | app/connectors/decimal_validation.py:50-70 | an unbounded source is accepted exactly when the destination stores every value of every precision and scale |
| DecimalValidation.FloatTargets | app/connectors/decimal_validation.py:99-103 | a float column stores every value of a decimal type exactly when it has no scale and at most 7 (real) or 15 (double precision) digits |
| DecimalValidation.DoubleIsRefusedThoughExact | app/connectors/decimal_validation.py:99-103 | the input: Decimal(5, 0) into double precision would lose nothing and is refused |
| DecimalValidation.RefusalHasWitness | app/connectors/decimal_validation.py:80-91 | a refused decimal target has a named source value it cannot store |
| DecimalValidation.IntegerTargets | app/connectors/decimal_validation.py:94-98 | an integer target stores every source value exactly when scale is zero and the digits are within its limit |
| DecimalValidation.DigitLimitsAreTight | app/connectors/decimal_validation.py:97 | 4, 9 and 18 digits fit smallint, integer and bigint, and one digit more does not |
| ColumnCasting.DecimalTypeOf | app/services/column_casting.py:136-165 | the chosen type stores every value of the column, and its scale and integer digits are each asked for by some value; refused exactly for a cell that is no number, or because those two come to more than 38 digits |
| ColumnCasting.NumberFits | app/services/column_casting.py:145-158 | enough scale and integer digits store a number exactly |
| ColumnCasting.NeedsIntegerDigits | app/services/column_casting.py:150 | fewer integer digits would not store it, whatever the scale |
| FoundryProfiles.ValueProfiles | app/connectors/foundry.py:164-186 | the loop over frames and columns computes the joined profile |
| FoundryProfiles.MergeProfiles | app/connectors/foundry.py:189-200 | the loop over profiles computes their join |
| FoundryProfiles.ExtremesSuffice | app/connectors/foundry.py:172-181 | in a fixed-scale column, a type wide enough for the minimum and the maximum stores every value |
| FoundryProfiles.MergedTypeHoldsEverything | app/connectors/foundry.py:1428-1432 | every value of every batch fits the merged Decimal(precision, scale) |
| FoundryProfiles.ProfilesAskFor | app/connectors/foundry.py:164-186 | the merged scale and digits are no larger than some value of some batch asks for |
| FoundryProfiles.MergingIsProfiling | app/connectors/foundry.py:189-200 | merging the profiles of any number of groups of batches is profiling all the batches together |
| FoundryProfiles.SplittingIsFree | app/connectors/foundry.py:1428-1432 | profiling a column in two parts and joining is profiling it whole |
| LosslessTypes.CommonIsSound | app/connectors/foundry.py:80-129 | every value of every input type is exact in the common type |
| LosslessTypes.CommonDecimalIsLeast | app/connectors/foundry.py:86-103 | no narrower decimal type stores all inputs |
| LosslessTypes.CommonIntegerIsLeast | app/connectors/foundry.py:104-114 | every integer type that covers all inputs covers the common one |
| LosslessTypes.CommonFloatExactlyWhen | app/connectors/foundry.py:115-127 | floats, with integers or without, have a common type exactly when every integer in the range of every integer type is exact in the widest float, and it is that float |
| LosslessTypes.RangesByWidth | app/connectors/foundry.py:104-114 | an integer type holds what its bits do, in two's complement when it has a sign |
| LosslessTypes.CommonIgnoresOrder | app/connectors/foundry.py:80-129 | the common type depends on the input types as a multiset only |
| LosslessTypes.FoldAgreesWithCommon | app/connectors/foundry.py:1376-1396 | whenever combining batch by batch gives a type, combining all at once gives the same |
| LosslessTypes.FoldSucceedsExactlyWhen | app/connectors/foundry.py:1376-1396 | combining batch by batch succeeds exactly when every first part of the batches has a common type and no float arrives after integers that were widened past what it holds exactly |
| LosslessTypes.FoldCanRefuseWhatCommonAccepts | app/connectors/foundry.py:1446-1464 | an input that batch by batch is refused and all at once accepted: two integer types, then a float |
| LosslessTypes.CommonSchema | app/connectors/foundry.py:132-157 | a common schema exists exactly when columns agree and each column has a type, and holds those types |
| LosslessTypes.ProfiledColumnIsLossless | app/connectors/foundry.py:132-157 | the type a profile gives a decimal column stores every value of every batch |
| CsvProfile.ProfileRows | app/domain/csv_inference.py:94-141 | the loop over rows and cells computes every column's tally over the kept rows, or reports the first fault |
| CsvProfile.ProfileCsv | app/domain/csv_inference.py:142-155 | counts and profiles for all columns, or the first fault of the rows, or a refusal because some column needs more than 38 digits |
| CsvProfile.FirstFaultDecides | app/domain/csv_inference.py:108-121 | the first row of the wrong length, named by its place among the rows kept, or with a cell over the limit, is the fault of the file |
| CsvProfile.TallyExactly | app/domain/csv_inference.py:118-140 | a tally has the types of the populated cells, their number, and the number of empty ones |
| CsvProfile.MergedExactly | app/domain/csv_inference.py:196-207 | which sets of cell types make a column empty, integer, decimal, datetime, boolean, date or time |
| CsvProfile.RefusedExactlyWhenTooWide | app/domain/csv_inference.py:219-231 | a decimal column is refused exactly when the digits some cell has before its point and some cell behind it come to more than 38 |
| CsvProfile.InferredDecimalIsTight | app/domain/csv_inference.py:133-240 | the reported scale and integer digits are each asked for by some cell |
| NumeralText.TextIsRead | app/domain/csv_inference.py:13-17 | every text of a sign, digits, a point and digits, and an exponent is read, part by part |
| NumeralText.OnlyTextsAreRead | app/domain/csv_inference.py:13-17 | what is read is such a text |
| NumeralText.ReadHasTheValue | app/domain/csv_inference.py:129-137 | the number read is, at every scale, the value of the text: its digits, signed, times ten to the exponent less the digits behind the point |
| NumeralText.PrintedReadsBack | app/domain/csv_inference.py:129-137 | printing a natural number in decimal digits and reading the digits gives it back |
| NumeralText.ReadPrintsBack | app/domain/csv_inference.py:129-137 | reading digits without a leading zero and printing the number gives them back |
| NumeralText.NumbersExactly | app/domain/csv_inference.py:158-174 | which texts count as 64-bit integers and which as decimals |
| NumeralText.OtherTextsAreNoNumbers | app/domain/csv_inference.py:158-193 | no other text counts as a number |
| NumeralText.RecordedExactly | app/domain/csv_inference.py:126-138 | a number whose signed digits and exponent the decimal reader does not take counts as text, any other as what it is |
| NumeralText.InferredDecimalIsExact | app/domain/csv_inference.py:127-240 | every populated cell of a column inferred decimal, integers included, is the text of a number whose value the reported type, of at most 38 digits, stores exactly, and the scale is at least the digits behind its point |
| NumeralText.InferredIntegerFits | app/domain/csv_inference.py:158-170 | every populated cell of a column inferred integer is a sign and digits whose value is a 64-bit integer |
| CsvProfile.StreamsCombine | app/domain/csv_inference.py:110-141 | profiling two row streams one after the other combines their tallies |
| CsvProfile.RowOrderDoesNotMatter | app/domain/csv_inference.py:110-155 | a file is refused in every order of its raw rows or in none; otherwise row count, inferred types, counts and digits are the same |
| ExactFloats.AcceptsExactlyTheRepresentable | app/connectors/postgres.py:1436-1446 | an integer passes exactly when it has at most 24 or 53 significant bits and is in range |
| ExactFloats.TwoConversions | app/connectors/postgres.py:1436-1446 | rounding to double and then to single accepts and refuses nothing wrongly |
| ExactFloats.RoundsToNearest | app/connectors/postgres.py:1436-1446 | the rounding used finds a nearest representable number |
| ExactFloats.TiesGoToEven | app/connectors/postgres.py:1436-1446 | of two equally near ones it takes the even one |
| ExactFloats.SmallIntegersPass | app/connectors/foundry.py:115-127 | every integer up to 2^24 or 2^53 passes |
| ExactFloats.LimitIsTight | app/connectors/foundry.py:115-127 | the next integer does not |
| ExactFloats.ValidateBatch | app/connectors/postgres.py:1449-1473 | a batch passes exactly when every integer bound for a float column is exact, and a named column has one that is not |
| DemoUpsert.Apply | app/connectors/fake.py:456-495 | the indexed loop does, for any rows, what searching the row list for the last row of each key would |
| DemoUpsert.UpsertIsKeyedMerge | app/connectors/fake.py:456-495 | on rows that satisfy the conflict key it never reports a repeated key, is the keyed merge and counts what it loaded |
| DemoUpsert.MergeKeepsPositions | app/connectors/fake.py:484-491 | existing positions keep their key and their preserved columns |
| DemoUpsert.MergeWritesPositions | app/connectors/fake.py:484-491 | when updating, a position that an incoming row meets on a full key carries that row's cells in every column that is not preserved and its own in those that are; any other position is as it was |
| DemoUpsert.MergeAddsUnmet | app/connectors/fake.py:474-479 | behind them come the incoming rows that meet no existing row, in their order |
| DemoUpsert.NullKeysAreAdded | app/connectors/fake.py:474-479 | every incoming row with a null key is added |
| DemoUpsert.MergeStaysDistinct | app/connectors/fake.py:456-495 | the merge satisfies the conflict key again |
| DemoPostgres.Enforce | app/connectors/fake.py:387-407 | accepts a table exactly when its keys are distinct and its primary key has no nulls |
| DemoPostgres.DemoBackend.Commit | app/connectors/fake.py:272-356 | one commit replaces one table or nothing, and every stored table stays sound |
| DemoPostgres.CommitKeepsConstraints | app/connectors/fake.py:272-356 | whatever the policy, a committed table satisfies its keys and keeps generated keys integral |
| DemoPostgres.GeneratedIdsAreNew | app/connectors/fake.py:410-421 | generated keys differ from every existing one |
| DemoPostgres.AppendWithGeneratedIds | app/connectors/fake.py:291-304 | an append without the generated column fails exactly when the rows cannot be coerced |
| DemoPostgres.NewTableWithGeneratedIds | app/connectors/fake.py:359-385 | a new table with a generated key is never refused for a conflict |
| DemoPostgres.AppendKeepsEarlierRows | app/connectors/fake.py:291-304 | an append keeps every earlier row in place and counts the rows it adds |
| DemoPostgres.CommitWritesRows | app/connectors/fake.py:291-318 | a replace leaves exactly the incoming rows, an append the earlier rows and then those, numbered on from the largest generated key and cast cell by cell; types, keys and generated column stay |
| DemoPostgres.CommitMergesRows | app/connectors/fake.py:320-348 | a merge leaves the keyed merge of the earlier rows and the incoming ones, cast, keeping generated keys that the load omits |
| DemoPostgres.CommitCreatesRows | app/connectors/fake.py:359-385 | a new table has the incoming rows as they came, numbered from one when its key is generated |
| DemoPostgres.CoercionRefusals | app/connectors/fake.py:410-453 | which columns or null keys are a drift of the schema, and which cells an unsupported type |
| DemoPostgres.CreationRefusals | app/connectors/fake.py:359-407 | when a new table is a drift of the schema, when a conflict, and when neither |
| DemoPostgres.RepeatedKeyUnreachable | app/connectors/fake.py:320-348 | the repeated-key error cannot happen in a commit |
| DeltaBackend.Connector.Prepare | app/connectors/fake_databricks.py:260-318 | a load is opened with the identity of its table, or nothing changes |
| DeltaBackend.Connector.WriteBatch | app/connectors/fake_databricks.py:328-338 | a batch with right counts, columns and number is kept, any other changes nothing |
| DeltaBackend.Connector.Finalize | app/connectors/fake_databricks.py:340-375 | one table changes and the load closes, or nothing changes and the load stays |
| DeltaBackend.TablesReplayTheirCommits | app/connectors/fake_databricks.py:340-375 | after any interleaving every table holds its successful finalizes, in the order they finalized |
| DeltaBackend.LoadHoldsItsBatches | app/connectors/fake_databricks.py:328-338 | after any interleaving an open load holds the rows and bytes of exactly the batches accepted since it was prepared, in their order |
| DeltaBackend.CommitWritesItsBatches | app/connectors/fake_databricks.py:340-375 | a successful finalize leaves its table with those rows, behind the table's own for an append and instead of them otherwise |
| DeltaBackend.AppendsLoseNothing | app/connectors/fake_databricks.py:355-363 | appends keep every row committed before them |
| DeltaBackend.CreateComesFirst | app/connectors/fake_databricks.py:350-355 | of two pending creates of one table at most one commits |
| DeltaBackend.IdentityStays | app/connectors/fake_databricks.py:369-372 | a table once there stays and keeps its identity |
| DeltaBackend.OnlyCommitsWrite | app/connectors/fake_databricks.py:340-379 | failed and aborted loads leave every table as it was |
| DeltaBackend.TableInClosedForm | app/connectors/fake_databricks.py:340-375 | after any interleaving a table holds the rows of its last commit that was no append, then those of every later append, in order |
| DeltaBackend.ReplaceDropsAnAppend | app/connectors/fake_databricks.py:348-364 | a pending replace commits after any append to its table and leaves none of its rows |
| DeltaBackend.AppendsBothStay | app/connectors/fake_databricks.py:355-363 | of two pending appends both commit and both stay |
| RuntimeLifetime.PipelineOperationLease.Release | app/infrastructure/runtime.py:37-42 | releases once, a second time is harmless, and the over-release error is unreachable |
| RuntimeLifetime.PipelineOperationLease.Retain | app/infrastructure/runtime.py:44-51 | a live lease can be split even while draining, a released one cannot |
| RuntimeLifetime.PipelineOperationLifetime.TryAdmit | app/infrastructure/runtime.py:68-73 | admits exactly when accepting and not stopped; the counter stays the number of unreleased leases |
| RuntimeLifetime.PipelineOperationLifetime.BeginShutdown | app/infrastructure/runtime.py:75-79 | nothing is accepted any more and the stop event is raised; no lease changes |
| RuntimeLifetime.PipelineOperationLifetime.IsIdle | app/infrastructure/runtime.py:86-88 | idle exactly when every lease ever granted was released |
| RuntimeLifetime.RuntimeOperationScope.Close | app/infrastructure/runtime.py:110-115 | closing gives the lease back once |
| RuntimeLifetime.ExecutionRuntime.Enter | app/infrastructure/runtime.py:163-188 | a live scope of the same runtime lends its admission, anything else needs a new one, and the context names the new scope |
| RuntimeLifetime.ExecutionRuntime.Exit | app/infrastructure/runtime.py:176-192 | the context is as before and the admission is given back once |
| RuntimeLifetime.DrainedForever | app/infrastructure/runtime.py:68-98 | once shut down with nothing live, no sequence of calls changes anything |
| RuntimeLifetime.DrainingGrowsOnlyByRetaining | app/infrastructure/runtime.py:44-51 | while draining, the count grows exactly by retaining a live lease |
| RuntimeLifetime.ReleasedForGood | app/infrastructure/runtime.py:37-42 | a released lease stays released and releasing it again never has an effect |
| RuntimeLifetime.GrantsBalanceReleases | app/infrastructure/runtime.py:90-98 | over any run, leases granted less leases released is the live count |
| BatchSplitter.Split | app/connectors/base.py:109-147 | batches meet both limits, are numbered in sequence, join to the frame, are not halved needlessly, and splitting fails only at a row over the limit |
| BatchSplitter.SplitsExactlyWhen | app/connectors/base.py:109-147 | for sizes that grow with the rows, splitting fails exactly when some row alone is over the limit |
| BatchSplitter.Extract | app/connectors/postgres.py:709-724 | chained frames give contiguous numbers and join to all rows, or stop before the frame with an oversize row |
| BatchSplitter.PendingLoad.WriteBatch | app/connectors/fake.py:708-735 | a batch is kept only with right counts, a larger number and the expected columns |
| BatchSplitter.Transfer | app/connectors/fake.py:935-952 | the destination's checks of counts and order never fire, and the source's rows arrive in order unless a row is oversize or a frame has other columns |

## Left out

- ProtocolTheorems.Reachable: holds under the two named assumptions, which the code does not enforce; `LeaseAssumption.ClaimIsUnsafeExactlyWhenArmed` and `Reconciliation.CompleteOverNothingExactlyWhenMentioned` show that each is exactly what is needed.
- ProtocolSafety.CellStepKeeps: holds under the two named assumptions; that the worker reports events only for its own run and target is how the worker's closure calls the ledger and is not checked again here.
- ProtocolTheorems.PublishesUnderOwnFence: holds under the two named assumptions.
- ProtocolTheorems.PublishesAtMostOnce: holds under the two named assumptions.
- ProtocolTheorems.RecordTellsHistory: holds under the two named assumptions.
- ProtocolTheorems.UnchangedForever: holds under the two named assumptions.
- ProtocolTheorems.FinalStatesAreFinal: holds under the two named assumptions; its condition keeps the whole record, the exact one for its state is in `FinalStates`.
- ProtocolTheorems.ConfirmsOnlyRealCommits: holds under the two named assumptions; what the search finds without the second is in `Reconciliation`.
- Publication.PublicationLedger.RecoverOnce: one clock reading serves the whole pass; in the protocol, time may pass between any two steps.
- Recovery.RecoveryKeepsDestiny: holds under the two named assumptions.
- Recovery.ClaimedStepKeepsDestiny: holds under the two named assumptions.
- Closing.ClosesExactlyUnlessStuck: continuations are those of the two named assumptions.
- FinalStates.FinalIsLeftExactlyWhenMeddled: continuations are those of the two named assumptions; while another run holds the fence nothing is said.
- ConnectorRuns.CallIsProtocolRun: starts where the worker holds its lease and no earlier raised report of it was recorded after all.
- Reconciliation.Reconcile: the provider's own filters on time and warehouse, and its limit on rows, shape the pages and rows given to it.
- Run leases: claiming, renewing and ending a lease are assumed as the worker uses them; `app/services/pipeline_runs.py`, the heartbeat thread and the run state machine are not part of this model.
- The deletion of records with their runs, and whatever an operator does to a record in `cleanup_required`.
- Error summaries, retry texts and other reporting fields of a publication record.
- SHA-256 digests of target identities: replaced by the case-folded identity itself; case folding is not modelled.
- DatabricksConnector.Connector.PrepareDestination: each remote and database outcome is an input; target validation (identity, schema, tags) is one of them.
- DatabricksConnector.Connector.WriteBatch: each remote and database outcome is an input; the conversion of timestamp values is not modelled; the worker of a run used after a failed call is not followed.
- DatabricksConnector.Connector.Finalize: each remote and database outcome is an input; the choice of the publish statement by write policy is not modelled, its marker is in `Markers`; the worker of a run used after a failed call is not followed.
- DatabricksConnector.Connector.Abort: each remote and database outcome is an input.
- PostgresUpsert.UpsertIsRowByRow: the `ignore` action, key-only upserts, generated columns and other constraints of the destination are not modelled; a default is a fixed value per column.
- OwnedSequences.OwnedSequence.Advance: the sequence's MINVALUE, MAXVALUE and CYCLE are not modelled.
- PostgreSQL preflight, staging table creation, append and replace statements, transactions and privileges.
- CopyCsv.RoundTrip: a row without columns writes an empty line, which no reader can tell from a row with one null; the converse direction is part of the statement.
- DecimalValidation.Validate: columns come with their precision and scale already read from the type label.
- ColumnCasting.DecimalTypeOf: reading a cell's text as a decimal is an input; the strict cast and the comparison of values before and after it are not modelled.
- LosslessTypes.FoldAgreesWithCommon: about declared types only; value profiles override decimal types and are covered by `ProfiledColumnIsLossless`.
- CsvProfile.ProfileCsv: stripping white space, dialect detection, header checks and the recognition of booleans, dates and times are parameters; which numbers Python's decimal reader accepts is a parameter.
- DemoPostgres.DemoBackend.Commit: strict casts are a parameter except for 64-bit integer columns, which hold integers only; the 64-bit limit of generated keys is not modelled.
- DeltaBackend.TablesReplayTheirCommits: workspaces are opened with their seed tables beforehand; new identities are never empty.
- RuntimeLifetime.ExecutionRuntime.Enter: threads, cancellation and the waiting of `wait_until_idle` are not modelled; calls under the lock are atomic.
- BatchSplitter.Transfer: a source yields all batches of a frame at once, as the PostgreSQL and Foundry sources do.
- Foundry file transfer, spool files and their size limits; the encrypted spool between scan and load.
- Routes, pages, sessions, credentials, compute startup, email, logging, settings.
