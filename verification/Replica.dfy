/**
 One synchronisation of the serving replica as a function of the target: every check, the
 delta, and the post-write comparisons, with every raised exception as an error that leaves
 the target as it was.
 */
module Replica {
  import opened Common
  import opened RowDigest
  import opened SparseTables
  import opened DeltaPlan
  import opened RowWrites

  /* ---------- the source side ---------- */

  /** A release of the program: its registry and its two source-controlled versions. */
  datatype Code = Code(reg: Registry, schema: int, feature: int)

  /** The versions of the release this model follows. */
  const SCHEMA_VERSION := 11
  const FEATURE_VERSION := 6

  /** A Parquet file: the frame it holds and everything else its bytes depend on. */
  datatype DataFile = DataFile(frame: Frame, layout: nat)

  datatype FileDigest = FileSha256(file: DataFile)

  datatype Summary = Summary(count: nat, first: Option<Timestamp>, last: Option<Timestamp>)

  /** The catalog row that selects a bundle. */
  datatype Record = Record(build: nat, schema: int, feature: int, rowCount: Option<nat>,
                           first: Option<Timestamp>, last: Option<Timestamp>, hasPath: bool)

  datatype Source = Source(record: Record, file: DataFile)

  /* ---------- the target side ---------- */

  datatype Checkpoint = Checkpoint(build: nat, data: FileDigest, schema: int, feature: int, summary: Summary)

  datatype SyncState = SyncState(checkpoint: Checkpoint, syncedAt: int)

  datatype Target = Target(tables: Tables, hashes: Hashes, state: Option<SyncState>)

  datatype SyncError =
    | NotCurrent | NoDataPath | NoRowCount | InvalidState
    | SemanticVersions | HashesWithoutState | ConsumerWithoutState | DigestCount | ConsumerMismatch
    | FrameColumns | FrameRowCount | FrameBounds | Delta(error: DeltaError)
    | DigestIndexMismatch | StateMismatch
    | MissingDigest | OhlcLevel | PostSummary | PostDigests | PostConsumer
    | Database

  /* ---------- summaries ---------- */

  predicate NotAfter(a: Timestamp, b: Timestamp) {
    || a.days < b.days
    || (a.days == b.days && (a.seconds < b.seconds || (a.seconds == b.seconds && a.micros <= b.micros)))
  }

  lemma FirstExists(keys: set<Timestamp>)
    requires keys != {}
    ensures exists t :: t in keys && forall u :: u in keys ==> NotAfter(t, u)
  {
    var t :| t in keys;
    if keys != {t} {
      FirstExists(keys - {t});
      var first :| first in keys - {t} && forall u :: u in keys - {t} ==> NotAfter(first, u);
      if NotAfter(t, first) {
        forall u | u in keys ensures NotAfter(t, u) {
          assert u == t || u in keys - {t};
        }
      } else {
        forall u | u in keys ensures NotAfter(first, u) {
          assert u == t || u in keys - {t};
        }
      }
    }
  }

  lemma LastExists(keys: set<Timestamp>)
    requires keys != {}
    ensures exists t :: t in keys && forall u :: u in keys ==> NotAfter(u, t)
  {
    var t :| t in keys;
    if keys != {t} {
      LastExists(keys - {t});
      var last :| last in keys - {t} && forall u :: u in keys - {t} ==> NotAfter(u, last);
      if NotAfter(last, t) {
        forall u | u in keys ensures NotAfter(u, t) {
          assert u == t || u in keys - {t};
        }
      } else {
        forall u | u in keys ensures NotAfter(u, last) {
          assert u == t || u in keys - {t};
        }
      }
    }
  }

  function First(keys: set<Timestamp>): (t: Option<Timestamp>)
    ensures t.Some? <==> keys != {}
    ensures t.Some? ==> t.value in keys && forall u :: u in keys ==> NotAfter(t.value, u)
  {
    if keys == {} then None
    else
      FirstExists(keys);
      var t :| t in keys && forall u :: u in keys ==> NotAfter(t, u);
      Some(t)
  }

  function Last(keys: set<Timestamp>): (t: Option<Timestamp>)
    ensures t.Some? <==> keys != {}
    ensures t.Some? ==> t.value in keys && forall u :: u in keys ==> NotAfter(u, t.value)
  {
    if keys == {} then None
    else
      LastExists(keys);
      var t :| t in keys && forall u :: u in keys ==> NotAfter(u, t);
      Some(t)
  }

  function Summarize(keys: set<Timestamp>): Summary {
    Summary(|keys|, First(keys), Last(keys))
  }

  predicate ValidSummary(s: Summary) {
    && (s.count == 0 ==> s.first.None? && s.last.None?)
    && (s.count > 0 ==> s.first.Some? && s.last.Some?)
    && (s.first.Some? && s.last.Some? ==> NotAfter(s.first.value, s.last.value))
  }

  function RawTimes(rows: seq<RawRow>): set<Timestamp> {
    set r | r in rows :: r.timestamp
  }

  /* ---------- version predicates ---------- */

  predicate SchemaOnlyUpgrade(prior: Checkpoint, schema: int, feature: int, code: Code) {
    && prior.feature == feature == code.feature
    && 7 <= prior.schema < schema <= code.schema
  }

  predicate StateCompatible(prior: Option<SyncState>, schema: int, feature: int, code: Code) {
    if prior.None? then true
    else
      var p := prior.value.checkpoint;
      if p.schema == 1 && schema == 2 && p.feature == feature then true
      else if p.schema == 2 && schema == 3 && p.feature == 1 && feature == 2 then true
      else if p.schema == 3 && schema == 4 && p.feature == 2 && feature == 3 then true
      else if p.schema == 4 && schema == 5 && p.feature == 3 && feature == 4 then true
      else if p.schema == 5 && schema == 6 && p.feature == 4 && feature == 5 then true
      else if p.schema == 6 && schema == 7 && p.feature == 5 && feature == 6 then true
      else if SchemaOnlyUpgrade(p, schema, feature, code) then true
      else p.schema == schema && p.feature == feature
  }

  predicate SchemaUpgrade(prior: Option<SyncState>, schema: int, feature: int, code: Code) {
    && prior.Some?
    && var p := prior.value.checkpoint;
       || (p.schema == 2 && p.feature == 1 && schema == 3 && feature == 2)
       || (p.schema == 3 && p.feature == 2 && schema == 4 && feature == 3)
       || (p.schema == 4 && p.feature == 3 && schema == 5 && feature == 4)
       || (p.schema == 5 && p.feature == 4 && schema == 6 && feature == 5)
       || (p.schema == 6 && p.feature == 5 && schema == 7 && feature == 6)
       || SchemaOnlyUpgrade(p, schema, feature, code)
  }

  predicate SameData(prior: SyncState, desired: SyncState) {
    && prior.checkpoint.data == desired.checkpoint.data
    && prior.checkpoint.schema == desired.checkpoint.schema
    && prior.checkpoint.feature == desired.checkpoint.feature
    && prior.checkpoint.summary == desired.checkpoint.summary
  }

  /**
   At the current versions the branch list collapses: any prior schema from 7 on with the
   same features is accepted, and exactly the older ones among them are upgrades.
   */
  lemma CompatibleAtCurrentVersions(prior: SyncState, code: Code)
    requires code.schema == SCHEMA_VERSION && code.feature == FEATURE_VERSION
    ensures StateCompatible(Some(prior), code.schema, code.feature, code)
            <==> prior.checkpoint.feature == 6 && 7 <= prior.checkpoint.schema <= 11
    ensures SchemaUpgrade(Some(prior), code.schema, code.feature, code)
            <==> prior.checkpoint.feature == 6 && 7 <= prior.checkpoint.schema < 11
  {
  }

  /** An upgrade is always compatible, and never between equal versions. */
  lemma UpgradeIsCompatible(prior: Option<SyncState>, schema: int, feature: int, code: Code)
    requires SchemaUpgrade(prior, schema, feature, code)
    ensures StateCompatible(prior, schema, feature, code) && prior.value.checkpoint.schema < schema
  {
  }

  /* ---------- one synchronisation ---------- */

  function Expected(record: Record): Summary
    requires record.rowCount.Some?
  {
    Summary(record.rowCount.value, record.first, record.last)
  }

  function CheckpointOf(src: Source): Checkpoint
    requires src.record.rowCount.Some?
  {
    Checkpoint(src.record.build, FileSha256(src.file), src.record.schema, src.record.feature, Expected(src.record))
  }

  /** The catalog metadata that the frame must match. */
  function MetadataError(code: Code, src: Source): Option<SyncError>
    requires src.record.rowCount.Some?
  {
    var frame := src.file.frame;
    if frame.columns != RawNames(code.reg) then Some(FrameColumns)
    else if |frame.rows| != src.record.rowCount.value then Some(FrameRowCount)
    else if First(RawTimes(frame.rows)) != src.record.first || Last(RawTimes(frame.rows)) != src.record.last
    then Some(FrameBounds)
    else None
  }

  /** The writes and post-write checks; the checkpoint advances last. */
  function ApplyDelta(code: Code, target: Target, plan: Plan, desired: SyncState): Result<Target, SyncError>
    requires ValidRegistry(code.reg) && Tabled(target.tables, code.reg)
    requires Wide(code.reg, plan.inserts + plan.updates)
  {
    if !(Times(plan.inserts + plan.updates) <= plan.source.Keys) then Err(MissingDigest)
    else
      var written := ApplyRows(target.tables, code.reg, plan.inserts + plan.updates);
      if written.None? then Err(OhlcLevel)
      else
        var tables := ClearAll(written.value, code.reg, plan.deletes);
        var hashes := AppliedIndex(target.hashes, plan);
        if Summarize(Rebuild(tables, code.reg).Keys) != desired.checkpoint.summary then Err(PostSummary)
        else if hashes != plan.source then Err(PostDigests)
        else if ConsumerHashes(tables, code.reg) != plan.source then Err(PostConsumer)
        else Ok(Target(tables, hashes, Some(desired)))
  }

  /** Everything between taking the lock and writing, or why nothing is written. */
  function PlanLocked(code: Code, target: Target, src: Source, desired: SyncState): (r: Result<Plan, SyncError>)
    requires ValidRegistry(code.reg) && Tabled(target.tables, code.reg) && src.record.rowCount.Some?
    ensures r.Ok? ==> SourceRows(RawNames(code.reg), src.file.frame).Ok?
                      && r.value == PlanOf(RawNames(code.reg), SourceRows(RawNames(code.reg), src.file.frame).value, target.hashes)
  {
    var prior := target.state;
    var schema, feature := desired.checkpoint.schema, desired.checkpoint.feature;
    var consumer := ConsumerHashes(target.tables, code.reg);
    if !StateCompatible(prior, schema, feature, code) then Err(SemanticVersions)
    else if prior.None? && target.hashes != map[] then Err(HashesWithoutState)
    else if prior.None? && consumer != map[] then Err(ConsumerWithoutState)
    else if prior.Some? && |target.hashes| != prior.value.checkpoint.summary.count then Err(DigestCount)
    else if !SchemaUpgrade(prior, schema, feature, code) && target.hashes != consumer then Err(ConsumerMismatch)
    else
      var metadata := MetadataError(code, src);
      if metadata.Some? then Err(metadata.value)
      else
        var plan := Planned(RawNames(code.reg), src.file.frame, target.hashes, prior.Some?);
        if plan.Err? then Err(Delta(plan.error))
        else if prior.Some? && SameData(prior.value, desired) && plan.value.source != target.hashes
        then Err(DigestIndexMismatch)
        else if prior.Some? && plan.value.Empty() && !SameData(prior.value, desired)
             && !SchemaUpgrade(prior, schema, feature, code)
        then Err(StateMismatch)
        else Ok(plan.value)
  }

  lemma {:induction false} SelectSized(names: seq<Name>, rows: seq<GoldRow>, target: Hashes, kind: Kind)
    requires Sized(rows, |names|)
    ensures Sized(Select(names, rows, target, kind), |names|)
  {
    SelectExact(names, rows, target, kind);
  }

  lemma PlanWide(reg: Registry, rows: seq<GoldRow>, index: Hashes)
    requires Wide(reg, rows)
    ensures var p := PlanOf(RawNames(reg), rows, index); Wide(reg, p.inserts + p.updates)
  {
    hide Select, SourceHashes;
    SelectSized(RawNames(reg), rows, index, Insert);
    SelectSized(RawNames(reg), rows, index, Update);
  }

  function SyncLocked(code: Code, target: Target, src: Source, desired: SyncState): Result<Target, SyncError>
    requires ValidRegistry(code.reg) && Tabled(target.tables, code.reg) && src.record.rowCount.Some?
  {
    var plan := PlanLocked(code, target, src, desired);
    if plan.Err? then Err(plan.error)
    else
      PlanWide(code.reg, SourceRows(RawNames(code.reg), src.file.frame).value, target.hashes);
      ApplyDelta(code, target, plan.value, desired)
  }

  /** The checks made before the database is locked. */
  function SourceError(code: Code, src: Source): (e: Option<SyncError>)
    ensures e.None? ==> src.record.rowCount.Some?
  {
    if src.record.schema != code.schema || src.record.feature != code.feature then Some(NotCurrent)
    else if !src.record.hasPath then Some(NoDataPath)
    else if src.record.rowCount.None? then Some(NoRowCount)
    else if !ValidSummary(Expected(src.record)) then Some(InvalidState)
    else None
  }

  /** One fault-free call of `sync`: the new target, or the error that left it unchanged. */
  function Sync(code: Code, target: Target, src: Source, now: int): Result<Target, SyncError>
    requires ValidRegistry(code.reg) && Tabled(target.tables, code.reg)
  {
    var refused := SourceError(code, src);
    if refused.Some? then Err(refused.value)
    else SyncLocked(code, target, src, SyncState(CheckpointOf(src), now))
  }
}
