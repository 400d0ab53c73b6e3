# Macro loader: verified model

A Dafny model of the state-carrying parts of a market-data loader and proofs about all inputs,
runs and reachable states. The loader ingests daily series into monthly Bronze files, derives
Silver and a wide Gold frame, publishes immutable Gold builds under a catalog, replicates the
current build into PostgreSQL, and derives technical features there by generated SQL.

What is modelled, by file:

- `Ema`, `Macd`, `EmaFeatures`, `Rsi`, `Stochastic` (with `Reals`): the recurrences and windows
  that the generated queries evaluate, over real numbers with NULL as `None`, against the simple
  forms of the parity tests.
- `RowDigest`, `DeltaPlan`: the byte framing of a row digest and the complete-state comparison.
- `SparseTables`, `RowWrites`: one sparse table per series and the chain of full outer joins.
- `Replica`, `ReplicaChecks`, `ReplicaRuns`, `ReplicaLiveness`, `ReplicaHistory`, `ReplicaStore`: a
  synchronisation as a function of the target, its histories across releases, and the same as
  statements that may fail inside a transaction.
- `SilverRows`, `GoldAssembly`: canonical Silver and the fold of joins that makes a Gold frame.
- `BronzeToGold`: the numbers of retained Bronze followed through Silver and Gold to consumers.
- `MonthlyFrames`, `BronzeFrames`, `Planner`, `IntSets`, `BronzeSchedule`, `Snapshots`,
  `BronzeStore`, `Silver`: upserts, monthly files, fetch windows, shared snapshots, the
  compensated commit, and Silver builds.
- `BronzeThreads`, `BronzeInterleaving`, `BronzeFiles`, `BronzeAudit`: worker threads as atomic
  steps with faults at every write, in any interleaving, down to the files and records they leave.
- `GoldCatalog`, `GoldRetention`, `GoldRecords`, `GoldLake`: catalog validation and resolution,
  retention, and publication with an exception or a stop between any two effects.

Modelling choices that matter:

- SHA-256 (FIPS 180-4, section 6.2) is a free constructor, so equal digests mean equal messages.
  Doubles are bit triples of the binary64 format (IEEE 754-2019, section 3.4) where bytes matter
  and reals where recurrences matter.
- A raised exception is an error value or an outcome; a fault strikes before or after the effect
  it belongs to. Replacing one file is one step. A method with such faults takes a flag `calm`
  that rules them out, and states what it then achieves.
- Stored rows are compared as the code compares them: both zeros are equal, and so are all NaNs
  and two missing cells. The descriptive columns of a Bronze row are one text.
- Identifiers that the code sorts by text are integers with the same order. Clock readings,
  provider answers and faults are inputs.
- A release is a registry with its two version numbers. Registries only grow, and a changed
  registry comes with a higher schema version.

Three statements that the design suggests are false of the code, and are proved with their exact
conditions:

- "A well-formed compatible Gold frame is always accepted." With equal versions it is refused
  when its file differs from the committed one while its canonical rows do not, for instance when
  only the sign of a zero changed (`ReplicaHistory.SignOfZeroIsRefused`,
  `ReplicaLiveness.AcceptedExactly`). An ingestion keeps the stored zero (`BronzeFrames.PrepareAt`),
  so such a pair of builds needs another value stored in between, or a rebuilt Bronze.
- "The recursive query equals the reference average for every period." It does from period 2 on
  and not for period 1 (`Ema.AgreementNeedsPeriodTwo`).
- "Reconciliation always clears stale attempts." It is refused while its clock reads earlier than
  a stale attempt's start (`GoldRecords.ReconcileAccepted`, `GoldRecords.EarlyClockIsRefused`).

## Model

| member | source | states |
|---|---|---|
| Ema.IndependentEma | tests/integration/test_ema_feature_parity.py:60-80 | The reference loop with its seed list computes the reference column, and for every period from 2 on exactly the query's column. |
| Ema.QueryRefinesReference | ingestion/postgres_gold_repository.py:313-366 | The recursive query over (seed_count, seed_sum, ema) gives the reference value at every row of every input, price or signed form. |
| Ema.AgreementNeedsPeriodTwo | ingestion/postgres_gold_repository.py:341-361 | Query and reference agree on all inputs if and only if the period is at least 2, since the first row never carries an average. |
| Ema.DefinedIff | ingestion/postgres_gold_repository.py:341-361 | An average exists exactly when the unbroken run of usable levels ending at the row has at least `period` rows. |
| Ema.ClosedForm | ingestion/postgres_gold_repository.py:341-361 | On a run long enough the average is the dot product of fixed weights with the levels of the run. |
| Ema.WeightFormula | ingestion/postgres_gold_repository.py:351-361 | The weights are c(1-a)^(m-p) on the seed rows and a(1-a)^(m-1-i) on the tail, for any smoothing factor a and seed share c. |
| Ema.EmaWeightFormula | ingestion/postgres_gold_repository.py:351-361 | With the smoothing factor written out: a seed level weighs (1/p)(1-2/(p+1))^(m-p), a later one (2/(p+1))(1-2/(p+1))^(m-1-i). |
| Ema.EmaWeightsAreConvex | ingestion/postgres_gold_repository.py:351-361 | The weights are non-negative and sum to 1. |
| Ema.EmaWithinRun | ingestion/postgres_gold_repository.py:341-361 | Every average lies between any lower and upper bound of the levels of its run. |
| Ema.OnlyTheRunMatters | ingestion/postgres_gold_repository.py:341-361 | Two inputs that agree on the current run have the same average there: values before the last reset never matter. |
| Ema.PriceEmaPositive | ingestion/postgres_gold_repository.py:341-361 | An average of the price form is positive, so the divisions by it are defined. |
| Macd.MacdReference | tests/integration/test_macd_feature_parity.py:185-210 | The reference loop over the three outputs equals the nested recurrences (12 and 26 over levels, signed 9 over their difference, lag 3) at every row. |
| Macd.LineRelativeValue | ingestion/postgres_gold_repository.py:1334-1372 | On 26 or more positive levels the relative line is the closed-form 12-row average minus the 26-row one, over the level. |
| Macd.HistogramValue | ingestion/postgres_gold_repository.py:1342-1375 | On 34 or more the relative histogram is the line minus the closed-form 9-row average of the lines of the run, over the level. |
| Macd.HistogramChange | ingestion/postgres_gold_repository.py:1376-1389 | On 37 or more the change is the relative histogram of the row minus that of three rows before, each written out over the levels. |
| Macd.ExactWarmUp | ingestion/postgres_gold_repository.py:1330-1398 | Relative line, histogram and 3-row delta are non-NULL exactly when at least 26, 34 and 37 consecutive positive levels end at the row. |
| EmaFeatures.IndependentEmaFeatures | tests/integration/test_ema_feature_parity.py:83-122 | The reference feature loop computes the reference features of every row, including the crossover it evaluates without a level. |
| EmaFeatures.KeptExact | ingestion/postgres_gold_repository.py:847-852 | The rows that the query keeps are exactly the non-NULL ones, in order. |
| EmaFeatures.LagAligned | ingestion/postgres_gold_repository.py:847-860 | Within a run, a lag over the non-NULL rows reads the same average as the same number of raw rows back. |
| EmaFeatures.QueryMatchesReference | ingestion/postgres_gold_repository.py:1475-1534 | For every non-NULL row the six outputs, lagged over filtered rows, equal the reference, lagged over raw rows. |
| EmaFeatures.DistanceValues | ingestion/postgres_gold_repository.py:1503-1511 | From 5, 9 and 21 positive levels on, each distance is the level over its closed-form average, minus one; before that there is none. |
| EmaFeatures.SpreadValue | ingestion/postgres_gold_repository.py:1512-1514 | From 21 levels on the spread is the 5-row average minus the 21-row one, over the level. |
| EmaFeatures.SlopeValue | ingestion/postgres_gold_repository.py:1515-1517 | From 12 levels on the slope is the 9-row average minus that of three rows before, over three times the level. |
| EmaFeatures.CrossValue | ingestion/postgres_gold_repository.py:1518-1525 | From 10 levels on the crossover is 1 where the 5-row average comes to exceed the 9-row one, -1 where it comes to fall below, else 0. |
| Rsi.AveragesNonNegative | ingestion/postgres_gold_repository.py:861-941 | Average gain and average loss are NULL together and never negative, at every row and period. |
| Rsi.RsiDefinedIff | ingestion/postgres_gold_repository.py:970-976 | For periods from 2 on the index exists exactly after period + 1 positive levels in a row that are not all equal. |
| Rsi.GuardIsRedundant | ingestion/postgres_gold_repository.py:970-976 | The explicit observation-number guard never changes a value. |
| Rsi.RsiInRange | ingestion/postgres_gold_repository.py:970-976 | A defined index equals 100 gain / (gain + loss) and lies in [0, 100]. |
| Rsi.AveragesClosedForm | ingestion/postgres_gold_repository.py:861-941 | The averages from the levels alone: plain means of the rises and of the falls after exactly `period` moves, then each move enters with weight 1/period and scales the earlier ones. |
| Rsi.WilderWeight | ingestion/postgres_gold_repository.py:861-941 | The weight of each move: (1/p)(1-1/p)^k, where k counts the later moves after the seed. |
| Rsi.RsiClosedForm | ingestion/postgres_gold_repository.py:970-976 | The index is 100 times the averaged rises over the averaged rises and falls, and NULL when both vanish. |
| Rsi.ScaleEnds | ingestion/postgres_gold_repository.py:970-976 | The index is 100 exactly on long enough runs that rise and never fall, and 0 exactly on those that fall and never rise. |
| Rsi.RsiScaleInvariant | ingestion/postgres_gold_repository.py:861-981 | Multiplying every level by a positive constant leaves the index unchanged at every row. |
| Stochastic.EntryPointsAgree | ingestion/ohlc_validation.py:9-22 | The shared bar check and the CBOE filter accept the same bars, exactly those with 0 <= low <= open, close <= high. |
| Stochastic.PercentKInRange | ingestion/postgres_gold_repository.py:1231-1247 | Every defined %K over a window of accepted bars lies in [0, 100], for every window length. |
| Stochastic.PercentDInRange | ingestion/postgres_gold_repository.py:1248-1270 | Every defined %D mean of such values lies in [0, 100]. |
| Stochastic.PercentKValue | ingestion/postgres_gold_repository.py:1231-1247 | %K is 100 (close - lowest low) / (highest high - lowest low) over a full window, and NULL without a full window or a range. |
| Stochastic.PercentDValue | ingestion/postgres_gold_repository.py:1248-1270 | %D is the mean of %K of this bar and the two before it, and NULL unless all three exist. |
| Stochastic.CompleteBarAt | ingestion/postgres_gold_repository.py:1204-1215 | The complete rows in order, field by field, are the bars; CompleteBarsCount says there are no others. |
| Stochastic.OscillatorInRange | ingestion/postgres_gold_repository.py:1211-1270 | From raw rows with missing cells to %K and %D over 5 and 14 complete bars: accepted input implies values in [0, 100]. |
| Stochastic.PercentKRangeExact | ingestion/postgres_gold_repository.py:1231-1247 | Without any assumption on the bars, a defined %K lies in [0, 100] if and only if the close lies between the bounds of its window, for every window length. |
| Stochastic.RejectedBarBreaksScale | ingestion/ohlc_validation.py:19-22 | For both windows of the query, 5 and 14, one bar that the check rejects after bars that it accepts gives %K = 200: the check is what keeps the scale. |
| RowDigest.GoldRowSha256 | application/postgres_delta.py:40-59 | Feeding the digest piece by piece hashes exactly the framed message of the row. |
| RowDigest.FramingText | application/postgres_delta.py:40-59 | The constant bytes of the message are the texts macro-loader:gold-row:v1, timestamp_m1, T, N and F. |
| RowDigest.MessageLayout | application/postgres_delta.py:40-59 | The message byte by byte: prefix, time column, big-endian signed microseconds, then name, NUL, tag and the eight bytes of the double for each column. |
| RowDigest.EpochMicroseconds | application/postgres_delta.py:27-31 | Every UTC timestamp of years 1 to 9999 fits the signed 64-bit field. |
| RowDigest.MicrosecondsRoundTrip | application/postgres_delta.py:27-31 | The timestamp can be recovered from its microseconds. |
| RowDigest.DoubleRoundTrip | application/postgres_delta.py:57-58 | The eight packed bytes determine the canonical double. |
| RowDigest.CanonicalFloatExact | application/postgres_delta.py:34-37 | Exactly NaN and the infinities are rejected, and only the negative zero changes. |
| RowDigest.CellsRoundTrip | application/postgres_delta.py:49-58 | Reading the cell section left to right gives back the column names and the values. |
| RowDigest.DigestDeterminesRow | application/postgres_delta.py:40-59 | Equal digests if and only if equal column lists and equal rows, across schemas. |
| SparseTables.ColumnsDistinct | application/gold_frame.py:73-77 | No wide column appears twice. |
| SparseTables.ColumnOrder | application/gold_frame.py:73-77 | The columns are the levels in registry order, then open, high, low and close of each OHLC series in registry order, and nothing else. |
| SparseTables.ColumnNameText | application/gold_frame.py:73-77 | Each column is named by its series id followed by _level, _open, _high, _low or _close. |
| SparseTables.ColumnNameInjective | application/gold_frame.py:73-77 | The generated name identifies series and field, whatever the series are called. |
| SparseTables.WriteEffect | ingestion/postgres_gold_repository.py:2826-2851 | Writing a row makes every series table hold exactly that row's values, whatever was there, and changes no other key. |
| SparseTables.ClearEffect | ingestion/postgres_gold_repository.py:2854-2856 | Deleting a timestamp removes it from every table and changes no other key. |
| SparseTables.JoinChainKeys | ingestion/postgres_gold_repository.py:543-571 | The outer-join chain has a row exactly where some table has one. |
| SparseTables.JoinChainExact | ingestion/postgres_gold_repository.py:543-571 | Each joined row carries every table's row under its timestamp. |
| SparseTables.RebuildExact | ingestion/postgres_gold_repository.py:2633-2638 | The consumer query shows exactly the timestamps whose wide row has a value, with that row. |
| SparseTables.RowDeterminesTables | ingestion/postgres_gold_repository.py:543-571 | Tables that show the same wide row store the same rows: nothing is stored that the join hides. |
| RowWrites.ApplyRowsRefuses | ingestion/postgres_gold_repository.py:2838-2839 | A sequence of rows is refused if and only if some OHLC level differs from its close. |
| RowWrites.HeldIffShown | ingestion/postgres_gold_repository.py:543-571 | Tables show a row if and only if they hold it and its levels are its closes. |
| RowWrites.CarryShows | ingestion/postgres_gold_repository.py:2896-2902 | Tables that carry exactly a set of showable rows have exactly their digests as consumer digests. |
| RowWrites.ShowsCarry | ingestion/postgres_gold_repository.py:2953-2954 | The post-write consumer comparison alone proves that the tables carry exactly the source rows. |
| RowWrites.WriteThenRebuild | ingestion/postgres_gold_repository.py:2826-2851 | Showable rows are written without refusal over any earlier contents, read back exactly, and leave other keys alone. |
| DeltaPlan.SourceRowsAndDigests | application/postgres_delta.py:77-99 | The conversion loop yields the canonical rows with the digest map, or the exact reason of refusal. |
| DeltaPlan.PlanGoldDelta | application/postgres_delta.py:135-168 | The planning loop computes the planned inserts, updates, deletes and unchanged keys, or the exact error. |
| DeltaPlan.PlanPartition | application/postgres_sync.py:87-101 | The four key sets are disjoint; inserts, updates and unchanged cover the source; deletes are target minus source; unchanged are the agreeing keys. |
| DeltaPlan.PlanExact | ingestion/postgres_gold_repository.py:2929-2945 | Applying a plan in the code's order gives exactly the source digests, and mutates exactly the keys whose digest disagreed. |
| DeltaPlan.EmptyPlanIff | application/postgres_delta.py:150-161 | A plan is empty if and only if the index already equals the source. |
| Replica.CompatibleAtCurrentVersions | application/postgres_sync_service.py:218-328 | At schema 11 and feature 6 the whole branch list accepts exactly prior schemas 7 to 11 with feature 6, and calls exactly 7 to 10 upgrades. |
| Replica.UpgradeIsCompatible | application/postgres_sync_service.py:287-328 | Every upgrade passes the compatibility check and strictly raises the schema version. |
| ReplicaChecks.VersionSteps | application/postgres_sync_service.py:218-328 | The branch lists for all versions: equal versions, the step from schema 1, five joint steps, and schema-only growth from 7 on; all but the first two are upgrades. |
| ReplicaChecks.WellFormedExactly | application/postgres_sync_service.py:343-368 | A source passes every check of its own exactly when its catalog row has the versions, path, count and bounds of its file, and the file the columns, distinct timestamps, finite numbers, and levels equal to closes. |
| ReplicaChecks.EarlyRefusals | application/postgres_sync_service.py:62-82 | Which catalog row is refused before the database is opened, and with which error. |
| ReplicaChecks.AcceptedTarget | application/postgres_sync_service.py:115-150 | Whatever the database holds, a synchronisation that succeeds found no data without a checkpoint, as many digests as it counts, and consumer rows with the indexed digests unless it upgrades. |
| ReplicaChecks.TargetRefusals | application/postgres_sync_service.py:115-150 | For any contents of the database, each refusal of an inconsistent target happens under exactly its condition. |
| ReplicaRuns.SyncCommitsSource | application/postgres_sync_service.py:107-179 | Whatever source is given and whatever the tables held, a synchronisation that succeeds leaves the target representing exactly that source with its checkpoint. |
| ReplicaRuns.ColumnsDetermineRegistry | application/gold_frame.py:73-77 | The wide column list determines the registry, order and kinds included. |
| ReplicaRuns.KeptIsSame | application/postgres_delta.py:155-161 | A row kept by a plan was written under the same registry and is the same row. |
| ReplicaRuns.UpgradeKeepsNothing | application/postgres_sync_service.py:286-328 | After an upgrade that changes the registry no row is classified unchanged. |
| ReplicaLiveness.AppliedPlanCarries | ingestion/postgres_gold_repository.py:2929-2945 | Starting from any represented commit, the writes and deletes leave the tables carrying exactly the new rows, across upgrades too. |
| ReplicaLiveness.DeltaSucceeds | ingestion/postgres_gold_repository.py:2912-2956 | For a well-formed source every post-write check passes and the checkpoint advances. |
| ReplicaLiveness.AcceptedExactly | application/postgres_sync_service.py:107-179 | A well-formed source is refused if and only if the stored versions are out of reach, or versions are equal and the file differs only in bytes, not in canonical rows. |
| ReplicaHistory.MigrateReaches | ingestion/postgres_gold_repository.py:440-443 | A migration to a grown registry keeps the table of every old series as it was, leaves the table of every new series empty, and keeps the representation. |
| ReplicaHistory.HistoryRepresents | ingestion/postgres_gold_repository.py:3014-3043 | After any history of commits, refusals, rolled-back faults, lost commit replies and migrations the target represents the last committed frame. |
| ReplicaHistory.FromEmpty | ingestion/postgres_gold_repository.py:3014-3043 | From an empty database, migrations included: either nothing is stored, or checkpoint and digest index are the last commit's, consumers see exactly its timestamps with its values in the writer's columns and NULL in newer ones, and conformance passes for the release that committed. |
| ReplicaHistory.CommittedRowsAreServed | ingestion/postgres_gold_repository.py:2896-2902 | In every reachable world, also after an upgrade, the consumer relation shows exactly the committed rows, with NULL in the columns that the committing release did not have. |
| ReplicaHistory.PathIndependent | application/postgres_sync_service.py:107-179 | Two histories that end in the same release and the same last commit leave equal series tables, digest index and checkpoint, whichever releases and migrations they passed through. |
| ReplicaHistory.ReplayChangesNothing | application/postgres_sync_service.py:107-179 | Synchronising the committed build again changes only the time of the checkpoint. |
| ReplicaHistory.AgreementExactly | application/postgres_conformance_service.py:143-171 | In every reachable world the conformance comparison passes for a well-formed source of the running release exactly when that is the committed build, file and metadata. |
| ReplicaHistory.SignOfZeroIsRefused | application/postgres_sync_service.py:154-165 | Concrete witness: a build that only flips the sign of a zero is well-formed and compatible, yet refused. |
| ReplicaStore.ServingDatabase.ApplyFeatureRow | ingestion/postgres_gold_repository.py:2826-2851 | The series loop writes the row into all tables or reports a level that is not its close. |
| ReplicaStore.ServingDatabase.ApplyDelta | ingestion/postgres_gold_repository.py:2912-2956 | Statement by statement with faults anywhere: success is the specified delta, a reported check is the specified error, and without faults there is no other error. |
| ReplicaStore.ServingDatabase.SyncLocked | application/postgres_sync_service.py:107-179 | The locked operation reports the build and the counts of the change it made to the digest index, and the specified new contents, or the specified error; without faults exactly that. |
| ReplicaStore.ServingDatabase.Synchronize | ingestion/postgres_gold_repository.py:3014-3043 | The transaction commits exactly the specified target or restores the old one; a success reports the build and how many digests were new, changed, gone and equal, and its checkpoint describes the file; only a lost commit reply reports an error for a committed change; without faults the result is the specified one. |
| SilverRows.CanonicalizedRows | application/silver.py:104-135 | Accepted Bronze becomes Silver with finite values, where an OHLC value is the close of its Bronze row and a scalar has no bar. |
| GoldAssembly.AssembleGoldFrame | application/gold_frame.py:189-235 | The validation loop and the join loop compute the assembled frame or the first error. |
| GoldAssembly.WideRowsExact | application/gold_frame.py:209-224 | The fold of full joins has a row for exactly the observed dates, and each cell is its own series' Silver cell. |
| GoldAssembly.CanonicalAssembles | application/gold_frame.py:189-235 | Canonical inputs are never refused. |
| GoldAssembly.AssembledIsShowable | application/gold_frame.py:189-235 | Gold assembled from canonical Silver has a value in every row and each OHLC level equal to its close, so no row check can refuse it. |
| GoldAssembly.PipelineRoundTrip | ingestion/postgres_gold_repository.py:2826-2851 | Canonical Silver to Gold to sparse tables and back through the join chain returns exactly the source rows. |
| BronzeToGold.GoldShowsBronze | application/gold_frame.py:189-235 | For series built by any histories of ingestions and builds, the assembly is never refused, has a row at midnight of exactly the dates that some series retains in Bronze, and each cell is the Bronze number of its own series and field. |
| BronzeToGold.ConsumersReadBronze | ingestion/postgres_gold_repository.py:2826-2851 | After those rows are written over any tables, the rebuilt row of every retained date shows each Bronze number, up to the sign of a zero. |
| MonthlyFrames.OrdinalOrders | application/planner.py:144-144 | Day numbers order and distinguish calendar dates, so date arithmetic on ordinals is sound. |
| MonthlyFrames.NextDay | application/planner.py:144-144 | Every valid date is followed, one day number later, by the next day of its month, the first of the next month or the first of the next year. |
| MonthlyFrames.MergeAt | ingestion/parquet_repository.py:142-154 | A merge is exactly the existing frame overridden by the incoming rows that do not equal the stored ones, for any row equality. |
| MonthlyFrames.MergePartition | ingestion/parquet_repository.py:195-234 | Rewriting only the changed months makes the monthly files hold exactly the merged frame; other files are untouched. |
| MonthlyFrames.ChangedMonthsExact | ingestion/bronze_uow.py:81-87 | A month is rewritten if and only if its content changes. |
| BronzeFrames.PrepareRefuses | ingestion/parquet_repository.py:96-106 | Preparation is refused exactly when the incoming frame repeats a date. |
| SilverRows.SameDoubleExact | ingestion/parquet_repository.py:126-132 | Two doubles are equal to the merge exactly when they are the same number with zeros unsigned, the same infinity, or both NaN. |
| BronzeFrames.PrepareAt | ingestion/bronze_uow.py:90-113 | An incoming row that says something new, in a number or a descriptive column, replaces the stored row with its fetch time; one that says the same, with both zeros equal, keeps the stored row; other dates stay. |
| BronzeFrames.KeysGrow | ingestion/bronze_uow.py:151-176 | Stored dates plus incoming dates, nothing lost. |
| BronzeFrames.RefetchStagesNothing | ingestion/bronze_uow.py:90-113 | Fetching rows that say the same again at any later time stages no change. |
| BronzeFrames.FetchTimeIsLastChange | ingestion/bronze_uow.py:90-113 | Over any sequence of runs a stored row is the one brought by the last run that changed what it says. |
| BronzeFrames.PartitionExact | ingestion/bronze_uow.py:178-211 | Committing only the changed months makes the files hold exactly each month of the prepared frame. |
| Planner.PlanRunOutcome | application/bronze_orchestration.py:91-121 | A run is refused exactly for bootstrap of a non-empty series, reconcile of an empty one, or a clock before the last observation; the two later guards never fire; a first run and a reconciliation ask for all history up to today. |
| Planner.BoundsExact | ingestion/bronze_uow.py:71-78 | The bounds are the first and the last stored day, and absent exactly for an empty series. |
| Planner.UpdateWindow | application/planner.py:106-163 | With stored history every update window is exactly [maximum - overlap, today], for both fetch capabilities; only a date-range source is also asked from its start. |
| Planner.WindowEnforced | application/bronze_orchestration.py:282-295 | An update accepts the provider's rows if and only if all lie in that window. |
| Planner.AdvancedStateIsAuthoritative | application/state.py:29-77 | A state advanced at a commit never contradicts later Bronze. |
| BronzeSchedule.RunGrows | application/bronze_orchestration.py:91-215 | No run loses a stored date or moves the last observation back. |
| BronzeSchedule.UpdateSyncsExactly | application/planner.py:145-162 | An update synchronises Bronze with the source if and only if every disagreeing date is in the source and inside the window. |
| BronzeSchedule.FullRunSyncsExactly | application/planner.py:119-142 | A first run or a reconciliation synchronises Bronze with the source if and only if every disagreeing date is in the source and not after today. |
| BronzeSchedule.ScheduleSyncs | application/bronze_orchestration.py:91-215 | For any schedule of updates, reconciliations, bootstraps and failed days, a source that keeps its dates and, before an update, changes only within the overlap of the last stored date is never missed: Bronze always shows the source of the last day that succeeded. |
| Snapshots.UpsertIsMapUpdate | ingestion/state_repository.py:105-123 | Read, filter, append, sort and rewrite is never refused and changes the record of its own id only. |
| Snapshots.CanonicalOrder | ingestion/operational_repository.py:150-150 | A snapshot file lists each id once, by rising start and then by rising id. |
| Snapshots.MapDeterminesFile | ingestion/state_repository.py:49-56 | Two sorted snapshots with the same records are the same file. |
| Snapshots.UpsertsCommute | ingestion/operational_repository.py:208-224 | Upserts of different ids commute down to the file. |
| BronzeStore.CommitStores | ingestion/bronze_uow.py:178-228 | A commit stores exactly the prepared frame, one run and one state, and touches no other series' file. |
| BronzeStore.UnitOfWork.RestoreAll | ingestion/bronze_uow.py:229-238 | Restoring the backups in reverse order gives back exactly the earlier files. |
| BronzeStore.UnitOfWork.CommitSuccess | ingestion/bronze_uow.py:178-238 | With a fault before or after any write: every file is as after the whole commit, or exactly as before the call; without faults it commits. |
| BronzeStore.UnitOfWork.RecordFailure | ingestion/bronze_uow.py:240-247 | A failure record changes the run audit only, and only by its own id. |
| BronzeInterleaving.OwnStep | application/bronze_orchestration.py:91-215 | A thread's step depends on and shows in its own files and records exactly as if it ran alone. |
| BronzeInterleaving.StepTouchesOwn | ingestion/bronze_uow.py:178-238 | Under the lock, whole-snapshot rewrites and whole-file restores change no other thread's record. |
| BronzeInterleaving.NoDeadlock | application/bronze_orchestration.py:161-162 | While some thread is unfinished some thread can step. |
| BronzeInterleaving.DistinctSeries | application/bronze_orchestration.py:229-232 | The batch check by counting accepts exactly the batches whose series are pairwise distinct. |
| BronzeInterleaving.FinishIsOutcome | application/bronze_orchestration.py:133-215 | The step machine of one thread, with any fault at any write, ends in complete success, or untouched Bronze and state with one failed record, or no effect. |
| BronzeInterleaving.SuccessStores | application/bronze_orchestration.py:133-187 | A successful run's files hold exactly the merged series and its state records the Bronze maximum. |
| BronzeAudit.RunEnds | application/bronze_orchestration.py:91-215 | A run is refused exactly by its plan, and otherwise succeeds exactly when the provider answers, all rows are in the window, no date repeats and no write raises. |
| BronzeAudit.FailureRecord | application/bronze_orchestration.py:195-215 | A failed run records no success, nothing inserted, revised or written, the plan's mode and window, and the rows fetched and accepted before it failed. |
| BronzeAudit.SuccessRecord | application/bronze_orchestration.py:133-187 | A successful run records the dates that were not stored, the stored dates that now say something else, the months whose content changed, and the plan's mode and window. |
| BronzeAudit.SuccessState | application/state.py:29-60 | The new state carries commit time, window, mode, counts and the last stored date; the reconciliation time moves only for a reconciliation. |
| BronzeInterleaving.Serializable | application/bronze_orchestration.py:217-258 | Every complete interleaving over distinct series, with any provider answers and faults, ends with the files, audit and states of every sequential order, and each thread ends as it would alone. |
| BronzeFiles.RunOnFiles | ingestion/bronze_uow.py:178-247 | A thread's run on its records is the unit of work's run on the disk: its complete commit into the sorted snapshot files, its audit record alone, or nothing. |
| BronzeFiles.SerializableFiles | application/bronze_orchestration.py:217-258 | Exactly one disk represents the end of a complete interleaving: the one that every sequential order of unit-of-work runs leaves, file by file. |
| Silver.BuildIsExact | ingestion/silver_repository.py:69-106 | A completed build makes Silver hold exactly the dates of Bronze, each with a canonical row equal to the row-wise canonicalisation, whatever an earlier build left half done. |
| Silver.PartialStaysWithin | ingestion/parquet_repository.py:217-226 | A build that stops after any subset of its writes leaves only canonical rows, and no Silver date outside Bronze. |
| Silver.SilverSeries.UpsertMonthly | ingestion/parquet_repository.py:195-234 | The write loop rewrites exactly the changed months, or stops after some of them; without faults it is refused only for a repeated date. |
| Silver.BuildAfterHistory | ingestion/silver_repository.py:69-106 | After any mix of ingestions, builds and stopped builds that ends in a build, Silver holds exactly the dates of Bronze with the numbers of canonicalised Bronze and Bronze's fetch times. |
| GoldCatalog.StrictCurrentExact | application/gold_catalog.py:92-107 | Strict resolution finds a row exactly when it is the current, selectable and compatible one. |
| GoldCatalog.NewestExact | application/gold_catalog.py:122-129 | The fallback is the greatest candidate by completion time and build id. |
| GoldCatalog.LatestExact | application/gold_catalog.py:109-129 | The resilient resolution answers with the current build if it has the versions, otherwise with the one completed last, by id among equals, and finds nothing exactly when no build has them. |
| GoldCatalog.StrictRefusals | application/gold_catalog.py:92-107 | On a valid catalog the strict resolution otherwise says exactly that nothing is current or that the current build has other versions. |
| GoldCatalog.RecordByStatus | ingestion/gold_catalog_repository.py:45-75 | What a catalog row may say, status by status. |
| GoldCatalog.AcceptedExactly | ingestion/gold_catalog_repository.py:79-85 | A catalog is accepted exactly when every row may say what it says, no id repeats and at most one row is current. |
| GoldRetention.SelectForMarkLoop | application/gold_retention.py:44-65 | The grouping and selection loops compute the selection. |
| GoldRetention.SelectionExact | application/gold_retention.py:44-65 | On every valid catalog selection succeeds and picks exactly the chosen rows of each version pair. |
| GoldRetention.MarkedExactly | application/gold_retention.py:44-65 | A build is marked exactly when it is complete with its files, not current, and at least N builds of its version pair are current or newer. |
| GoldRetention.SelectionOrder | application/gold_retention.py:53-65 | The marked ids come in the order of their version pairs, and within a pair oldest first. |
| GoldRetention.MarkedAreOldest | application/gold_retention.py:55-64 | A marked build is not current and is older than every other non-current build of its pair that stays. |
| GoldRetention.MarkKeepsCount | application/gold_retention.py:52-64 | After marking every version pair keeps min(count, N) builds. |
| GoldRetention.MarkedIsValid | application/gold_retention.py:143-159 | No selected row is refused by the marking checks, and the marked catalog is accepted. |
| GoldRetention.MarkingChangesNoAnswer | application/gold_retention.py:90-110 | Strict-current and latest-compatible resolution give the same answer before and after marking, for every pair of versions. |
| GoldRecords.ReconcileAccepted | application/gold_publication.py:97-123 | Reconciliation is accepted if and only if no building row started after its clock reading. |
| GoldRecords.EarlyClockIsRefused | application/gold_publication.py:97-123 | Concrete witness: an attempt that started at 10 and a clock that reads 5; the reconciled catalog is refused as inconsistent. |
| GoldRecords.RegisterAccepted | ingestion/gold_catalog_repository.py:82-83 | A build can be registered if and only if no row ever had its id. |
| GoldRecords.PromoteEffect | application/gold_publication.py:222-263 | Promotion makes exactly the candidate current and moves statuses only forward. |
| GoldRecords.PromoteAccepted | application/gold_publication.py:222-263 | The promoted catalog is accepted if and only if the attempt started no later than the candidate completed and its time bounds are ordered. |
| GoldRecords.FailAccepted | application/gold_publication.py:265-297 | A failed attempt is accepted into the catalog if and only if the clock reads no earlier than the attempt's start. |
| GoldRecords.PromoteSound | application/gold_publication.py:222-263 | Promoting a validated bundle keeps every selectable build's bytes present and as validated. |
| GoldRecords.SweepSound | ingestion/gold_retention_store.py:30-55 | Deleting files of a tombstoned id never touches a selectable build. |
| GoldRecords.CreateSound | ingestion/gold_build_store.py:81-157 | Creating under an id unknown to the disk leaves every selectable build alone, complete or partial. |
| GoldRecords.PathsAreDistinct | application/paths.py:47-49 | Two builds never share a data, manifest or profile path. |
| GoldLake.Lake.Reconcile | application/gold_publication.py:90-128 | Ends sound with the same current build at every exit; without faults it succeeds if and only if its clock covers every building row, then exactly those rows are failed at that time and the views show the catalog. |
| GoldLake.Lake.FinalizeFailed | application/gold_publication.py:265-297 | Fails only the attempt that is still building, keeping its identity and start; a committed build stays committed and current; without faults it succeeds unless its clock reads before the attempt's start. |
| GoldLake.Lake.Attempt | application/gold_publication.py:175-191 | The current build moves exactly when the promotion took effect, even if that replace then raised; without faults the promotion happens if and only if versions match and times are ordered. |
| GoldLake.Lake.Publish | application/gold_publication.py:130-220 | At every exit, also when stopped between two effects: current is the new build exactly if the catalog shows it committed, otherwise the old one; only files of the new id change. On success its row says what the call and the candidate said, strict resolution for its versions finds it, and every other row is as before but not current, or a failed attempt. Without faults it succeeds if and only if the id is unused, the clock covers every building row, times are ordered and versions match. |
| GoldLake.Lake.CreateData | ingestion/gold_build_store.py:81-157 | Creation-only: an existing id is refused unchanged, a failure leaves partial files at that id alone, and without faults a new id is created. |
| GoldLake.Lake.Sweep | ingestion/gold_retention_store.py:30-58 | Deletion may stop anywhere and be repeated; it affects only its own tombstoned build, and without faults removes it. |
| GoldLake.Lake.RunRetention | application/gold_retention.py:90-140 | At every exit both resolutions answer as before, each row is as before or pruned, and only tombstoned builds lose files; when it succeeds the catalog is the marked one, each pair has at most N builds and no tombstone has files; without faults it always succeeds. |
| GoldLake.Lake.RefreshViews | ingestion/gold_materialized_views.py:86-121 | A refresh that succeeds shows exactly the current row and its profile, or nothing; on a sound lake without faults it always succeeds. |
| GoldLake.Lake.Live | application/gold_publication.py:80-297 | Over any history of publications, reconciliations and retention runs stopped anywhere, every selectable build keeps its validated bytes, rows only advance, and the log of validations only grows and never lists a build twice. |

## Left out

- Floating-point rounding, NaN ordering and the features built on logarithms or square roots (returns, volatility, correlations, z-scores): the recurrences are over real numbers.
- SQL text, migrations, roles, grants and schema conformance queries: the semantics of the generated recurrences, windows, joins and writes are modelled instead.
- HTTP transport, provider parsing beyond the bar check, retries, command line, logging, secret redaction, the mirror's contents and plotting.
- Data-frame typing: missing or mistyped columns, wrong series identity and null timestamps are ruled out by the types of the model.
- Sorting of frame rows, catalog rows and delete keys: rows are taken in any order, which includes the sorted one. The two snapshot files and the retention candidates are sorted.
- Read-permission and corruption errors of an existing file, and a snapshot or backup that cannot be read: a missing snapshot reads as empty.
- A fault while restoring a backup, and restoration across the death of the process: compensation is modelled as it runs to its end.
- The worker-slot limit of the execution policy (`application/parallelism.py`): it only removes interleavings from those covered. A batch with a repeated series id is refused by the code before any work, so the threads of the model have distinct series, and with them distinct run ids.
- BronzeInterleaving.NoDeadlock: says that some thread can step, not that the scheduler is fair.
- ReplicaLiveness.AcceptedExactly: stated for the release's own versions, schema 11 and feature 6; earlier releases appear only as writers of the stored state.
- Removing a series from the registry, or changing its kind: its table would keep rows that no later release clears.
- BronzeSchedule.ScheduleSyncs: the provider is assumed to answer with exactly its numbers inside the requested window; dates it later withdraws stay in Bronze. `Synced` compares numbers, not the descriptive columns.
- The error category and message of a failed audit record, and the secrets cut from them.
- The payload of a manifest and of a profile picture, and the git identity in it: a bundle is three files with contents.
- Two publishers or a publisher and a retention run at the same time: the model runs one operation after another, each possibly stopped inside.
- Directory removal in a sweep when stray files are left in it: the directory goes with its three files.
- Registry data, path building outside a build directory, inventory snapshots, the Gold sidecar files and the production reconstruction stages.
