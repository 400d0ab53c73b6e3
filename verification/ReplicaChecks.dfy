/**
 What a synchronisation demands of its source and of the target it finds, told from the catalog
 row, the file and the stored contents.
 */
module ReplicaChecks {
  import opened Common
  import opened RowDigest
  import opened SparseTables
  import opened DeltaPlan
  import opened RowWrites
  import opened Replica
  import opened ReplicaRuns

  /* ---------- the source ---------- */

  /** Rows are ordered by their instant in time. */
  lemma OrderIsTime(a: Timestamp, b: Timestamp)
    ensures NotAfter(a, b)
            <==> (a.days * 86_400 + a.seconds) * 1_000_000 + a.micros <= (b.days * 86_400 + b.seconds) * 1_000_000 + b.micros
  {
  }

  /** The first and last timestamps of a file; an empty file has neither. */
  predicate Spans(first: Option<Timestamp>, last: Option<Timestamp>, rows: seq<RawRow>) {
    if rows == [] then first.None? && last.None?
    else
      && first.Some? && last.Some?
      && (exists i :: 0 <= i < |rows| && rows[i].timestamp == first.value)
      && (exists i :: 0 <= i < |rows| && rows[i].timestamp == last.value)
      && (forall i :: 0 <= i < |rows| ==> NotAfter(first.value, rows[i].timestamp) && NotAfter(rows[i].timestamp, last.value))
  }

  lemma SameInstant(a: Timestamp, b: Timestamp)
    requires NotAfter(a, b) && NotAfter(b, a)
    ensures a == b
  {
  }

  lemma SpansExactly(first: Option<Timestamp>, last: Option<Timestamp>, rows: seq<RawRow>)
    ensures Spans(first, last, rows) <==> First(RawTimes(rows)) == first && Last(RawTimes(rows)) == last
  {
    var times := RawTimes(rows);
    if rows == [] {
      assert times == {};
    } else {
      assert rows[0].timestamp in times;
      forall t | t in times ensures exists i :: 0 <= i < |rows| && rows[i].timestamp == t {
        var r :| r in rows && r.timestamp == t;
      }
      if Spans(first, last, rows) {
        SameInstant(first.value, First(times).value);
        SameInstant(last.value, Last(times).value);
      }
    }
  }

  /**
   A source is well-formed exactly when its catalog row has this release's versions, a path, the
   file's row count and the file's first and last timestamps, and the file has this release's
   columns, one row per timestamp, finite numbers, and in each row a value and levels that equal
   their closes.
   */
  lemma WellFormedExactly(code: Code, src: Source)
    requires ValidRegistry(code.reg)
    ensures WellFormed(code, src)
            <==> && src.record.schema == code.schema && src.record.feature == code.feature && src.record.hasPath
                 && src.record.rowCount == Some(|src.file.frame.rows|)
                 && Spans(src.record.first, src.record.last, src.file.frame.rows)
                 && src.file.frame.columns == RawNames(code.reg)
                 && (forall i, j :: 0 <= i < j < |src.file.frame.rows| ==>
                       src.file.frame.rows[i].timestamp != src.file.frame.rows[j].timestamp)
                 && CanonicalRows(src.file.frame.rows).Some?
                 && forall i :: 0 <= i < |src.file.frame.rows| ==>
                      |CanonicalRows(src.file.frame.rows).value[i].values| == |Columns(code.reg)|
                      && Showable(code.reg, CanonicalRows(src.file.frame.rows).value[i])
  {
    hide Showable, RawNames, Columns, CanonicalRows, NotAfter, Spans;
    SpansExactly(src.record.first, src.record.last, src.file.frame.rows);
    if Spans(src.record.first, src.record.last, src.file.frame.rows) {
      SpansAreValid(src.record.first, src.record.last, src.file.frame.rows);
    }
    if src.file.frame.columns == RawNames(code.reg) && CanonicalRows(src.file.frame.rows).Some? {
      CanonicalShape(src.file.frame);
    }
  }

  lemma SpansAreValid(first: Option<Timestamp>, last: Option<Timestamp>, rows: seq<RawRow>)
    requires Spans(first, last, rows)
    ensures ValidSummary(Summary(|rows|, first, last))
  {
    if rows != [] {
      var i :| 0 <= i < |rows| && rows[i].timestamp == first.value;
    }
  }

  /** Before the database is opened: the first violated demand on the catalog row. */
  lemma EarlyRefusals(code: Code, src: Source)
    ensures var e, r := SourceError(code, src), src.record;
            && (e == Some(NotCurrent) <==> r.schema != code.schema || r.feature != code.feature)
            && (e == Some(NoDataPath) <==> e != Some(NotCurrent) && !r.hasPath)
            && (e == Some(NoRowCount) <==> e != Some(NotCurrent) && r.hasPath && r.rowCount.None?)
            && (e == Some(InvalidState) <==>
                  && e != Some(NotCurrent) && r.hasPath && r.rowCount.Some?
                  && (if r.rowCount.value == 0 then r.first.Some? || r.last.Some?
                      else r.first.None? || r.last.None? || !NotAfter(r.first.value, r.last.value)))
            && (e.Some? ==> e.value in {NotCurrent, NoDataPath, NoRowCount, InvalidState})
  {
  }

  /* ---------- the target ---------- */

  /**
   Whatever the target holds, a synchronisation that succeeds found it consistent: nothing stored
   without a checkpoint, as many digests as the checkpoint counts, and, unless it upgrades the
   schema, consumer rows with exactly the indexed digests.
   */
  lemma AcceptedTarget(code: Code, target: Target, src: Source, now: int)
    requires ValidRegistry(code.reg) && Tabled(target.tables, code.reg) && Sync(code, target, src, now).Ok?
    ensures target.state.None? ==> target.hashes == map[] && Rebuild(target.tables, code.reg) == map[]
    ensures target.state.Some? ==> |target.hashes| == target.state.value.checkpoint.summary.count
    ensures target.state.Some? && target.state.value.checkpoint.schema == code.schema ==>
              ConsumerHashes(target.tables, code.reg) == target.hashes
  {
    hide Rebuild, ApplyDelta, Planned, ConsumerHashes, MetadataError;
  }

  /** Under the lock, before anything is planned: the first inconsistency of the target. */
  lemma TargetRefusals(code: Code, target: Target, src: Source, now: int)
    requires ValidRegistry(code.reg) && Tabled(target.tables, code.reg) && SourceError(code, src).None?
    ensures var e, prior := Sync(code, target, src, now), target.state;
            var compatible := StateCompatible(prior, code.schema, code.feature, code);
            var counted := prior.Some? && |target.hashes| == prior.value.checkpoint.summary.count;
            && (e == Err(SemanticVersions) <==> !compatible)
            && (e == Err(HashesWithoutState) <==> prior.None? && target.hashes != map[])
            && (e == Err(ConsumerWithoutState) <==>
                  prior.None? && target.hashes == map[] && Rebuild(target.tables, code.reg) != map[])
            && (e == Err(DigestCount) <==> prior.Some? && compatible && !counted)
            && (e == Err(ConsumerMismatch) <==>
                  && counted && compatible && !SchemaUpgrade(prior, code.schema, code.feature, code)
                  && ConsumerHashes(target.tables, code.reg) != target.hashes)
  {
    hide Rebuild, PlanLocked, ApplyDelta, ConsumerHashes, RawNames, StateCompatible, SchemaUpgrade, SourceError, ValidSummary;
    EarlyRefusals(code, src);
    LockedRefusals(code, target, src, SyncState(CheckpointOf(src), now));
    NoLateRefusal(code, target, src, SyncState(CheckpointOf(src), now));
    NothingShownNothingHashed(target.tables, code.reg);
    FirstRunFits(code);
  }

  lemma LockedRefusals(code: Code, target: Target, src: Source, desired: SyncState)
    requires ValidRegistry(code.reg) && Tabled(target.tables, code.reg) && src.record.rowCount.Some?
    requires desired.checkpoint.schema == code.schema && desired.checkpoint.feature == code.feature
    ensures var e, prior := PlanLocked(code, target, src, desired), target.state;
            var compatible := StateCompatible(prior, code.schema, code.feature, code);
            var consumer := ConsumerHashes(target.tables, code.reg);
            var counted := prior.Some? && |target.hashes| == prior.value.checkpoint.summary.count;
            && (e == Err(SemanticVersions) <==> !compatible)
            && (e == Err(HashesWithoutState) <==> prior.None? && compatible && target.hashes != map[])
            && (e == Err(ConsumerWithoutState) <==> prior.None? && compatible && target.hashes == map[] && consumer != map[])
            && (e == Err(DigestCount) <==> prior.Some? && compatible && !counted)
            && (e == Err(ConsumerMismatch) <==>
                  counted && compatible && !SchemaUpgrade(prior, code.schema, code.feature, code) && consumer != target.hashes)
  {
    hide Planned, ConsumerHashes, RawNames, SameData, StateCompatible, SchemaUpgrade, PlanOf, MetadataError, Tabled, ValidRegistry;
    MetadataErrors(code, src);
    var e, consumer := PlanLocked(code, target, src, desired), ConsumerHashes(target.tables, code.reg);
    if StateCompatible(target.state, code.schema, code.feature, code) {
      if target.state.None? {
        assert target.hashes != map[] ==> e == Err(HashesWithoutState);
      } else {
        assert |target.hashes| != target.state.value.checkpoint.summary.count ==> e == Err(DigestCount);
      }
    }
  }

  lemma MetadataErrors(code: Code, src: Source)
    requires src.record.rowCount.Some?
    ensures MetadataError(code, src) in {None, Some(FrameColumns), Some(FrameRowCount), Some(FrameBounds)}
  {
  }

  /** A planned synchronisation is not refused for the target's earlier contents any more. */
  lemma NoLateRefusal(code: Code, target: Target, src: Source, desired: SyncState)
    requires ValidRegistry(code.reg) && Tabled(target.tables, code.reg) && src.record.rowCount.Some?
    ensures PlanLocked(code, target, src, desired).Err? ==>
              SyncLocked(code, target, src, desired) == Err(PlanLocked(code, target, src, desired).error)
    ensures PlanLocked(code, target, src, desired).Ok? ==>
              SyncLocked(code, target, src, desired).Ok?
              || SyncLocked(code, target, src, desired).error in {MissingDigest, OhlcLevel, PostSummary, PostDigests, PostConsumer}
  {
    hide Rebuild, PlanLocked, ApplyRows, ClearAll, AppliedIndex, ConsumerHashes, Summarize;
  }

  lemma FirstRunFits(code: Code)
    ensures StateCompatible(None, code.schema, code.feature, code) && !SchemaUpgrade(None, code.schema, code.feature, code)
  {
  }

  lemma NothingShownNothingHashed(tables: Tables, reg: Registry)
    requires ValidRegistry(reg) && Tabled(tables, reg)
    ensures Rebuild(tables, reg) == map[] <==> ConsumerHashes(tables, reg) == map[]
  {
    hide Rebuild;
    assert ConsumerHashes(tables, reg).Keys == Rebuild(tables, reg).Keys;
  }

  /* ---------- versions ---------- */

  /**
   The branch list for all versions: equal versions, the one step from schema 1 that keeps its
   features, the five steps that raise schema and features together, and from schema 7 on any
   growth of the schema up to this release under its own features.  All but the first two upgrade.
   */
  lemma VersionSteps(prior: SyncState, schema: int, feature: int, code: Code)
    ensures var p := prior.checkpoint;
            var together := 2 <= p.schema <= 6 && schema == p.schema + 1 && p.feature == p.schema - 1 && feature == p.schema;
            var schemaOnly := 7 <= p.schema < schema <= code.schema && p.feature == feature == code.feature;
            && (SchemaUpgrade(Some(prior), schema, feature, code) <==> together || schemaOnly)
            && (StateCompatible(Some(prior), schema, feature, code)
                <==> || (p.schema == schema && p.feature == feature)
                     || (p.schema == 1 && schema == 2 && p.feature == feature)
                     || together || schemaOnly)
  {
  }
}
