/**
 What the serving replica represents after any history of synchronisations, failures and
 schema migrations, and exactly when a well-formed Gold frame is refused.
 */
module ReplicaRuns {
  import opened Common
  import opened RowDigest
  import opened SparseTables
  import opened DeltaPlan
  import opened RowWrites
  import opened Replica

  /** The Gold frame a release committed to the replica. */
  datatype Commit = Commit(code: Code, src: Source)

  /** A source that passes every check that does not look at the target. */
  predicate WellFormed(code: Code, src: Source) {
    && ValidRegistry(code.reg)
    && SourceError(code, src).None?
    && MetadataError(code, src).None?
    && var rows := SourceRows(RawNames(code.reg), src.file.frame);
       rows.Ok? && forall i :: 0 <= i < |rows.value| ==> Showable(code.reg, rows.value[i])
  }

  function Rows(c: Commit): (rows: seq<GoldRow>)
    requires WellFormed(c.code, c.src)
    ensures Wide(c.code.reg, rows) && DistinctKeys(rows)
  {
    SourceRows(RawNames(c.code.reg), c.src.file.frame).value
  }

  function NamesOf(c: Commit): seq<Name> {
    RawNames(c.code.reg)
  }

  /** Registries only grow, and a new registry comes with a new schema version. */
  predicate Older(a: Code, b: Code) {
    && (forall s :: s in a.reg ==> s in b.reg)
    && a.schema <= b.schema
    && (a.schema == b.schema ==> a.reg == b.reg)
  }

  /** The tables of release `code` hold exactly the rows that an older release wrote; newer series have none. */
  ghost predicate Holding(tables: Tables, code: Code, writer: Code, rows: seq<GoldRow>)
    requires ValidRegistry(code.reg) && Older(writer, code) && Wide(writer.reg, rows)
  {
    && WellStored(tables, code.reg)
    && Tabled(tables, writer.reg)
    && (forall i :: 0 <= i < |rows| ==> HoldsRow(tables, writer.reg, rows[i]))
    && (forall t :: t !in Times(rows) ==> Absent(tables, code.reg, t))
    && (forall i :: 0 <= i < |code.reg| && code.reg[i] !in writer.reg ==> tables[code.reg[i].id] == map[])
  }

  /** The target is empty without state, or digest index, tables and checkpoint are the commit's. */
  ghost predicate Represents(target: Target, code: Code, last: Option<Commit>) {
    && ValidRegistry(code.reg)
    && match last
       case None =>
         target.state.None? && target.hashes == map[] && Older(code, code) && Holding(target.tables, code, code, [])
       case Some(c) =>
         && WellFormed(c.code, c.src)
         && Older(c.code, code)
         && target.state.Some?
         && target.state.value.checkpoint == CheckpointOf(c.src)
         && target.hashes == SourceHashes(NamesOf(c), Rows(c))
         && Holding(target.tables, code, c.code, Rows(c))
  }

  /* ---------- safety: whatever commits is what was given ---------- */

  lemma AppliedStored(tables: Tables, reg: Registry, rows: seq<GoldRow>, gone: set<Timestamp>)
    requires ValidRegistry(reg) && WellStored(tables, reg) && Wide(reg, rows) && ApplyRows(tables, reg, rows).Some?
    ensures WellStored(ClearAll(ApplyRows(tables, reg, rows).value, reg, gone), reg)
  {
    ApplyRowsStored(tables, reg, rows);
    ClearAllEffect(ApplyRows(tables, reg, rows).value, reg, gone);
  }

  /**
   A synchronisation that reports success leaves the target representing exactly the source
   it was given, whatever that source and whatever the target held.
   */
  lemma SyncCommitsSource(code: Code, target: Target, src: Source, now: int)
    requires ValidRegistry(code.reg) && WellStored(target.tables, code.reg)
    requires Sync(code, target, src, now).Ok?
    ensures WellFormed(code, src)
    ensures var after := Sync(code, target, src, now).value;
            Represents(after, code, Some(Commit(code, src))) && after.state == Some(SyncState(CheckpointOf(src), now))
  {
    hide PlanOf, ApplyRows, ClearAll, AppliedIndex, ConsumerHashes, Rebuild, SourceHashes, AnyValue, RawNames;
    hide LevelsMatch, MetadataError, StateCompatible, SchemaUpgrade, SameData, WellStored;
    var rows := SourceRows(RawNames(code.reg), src.file.frame).value;
    var plan := PlanOf(RawNames(code.reg), rows, target.hashes);
    PlanWide(code.reg, rows, target.hashes);
    AppliedStored(target.tables, code.reg, plan.inserts + plan.updates, plan.deletes);
    var after := Sync(code, target, src, now).value;
    PlanSource(RawNames(code.reg), rows, target.hashes);
    ShowsCarry(after.tables, code.reg, rows);
  }

  lemma PlanSource(names: seq<Name>, rows: seq<GoldRow>, index: Hashes)
    requires Sized(rows, |names|)
    ensures PlanOf(names, rows, index).source == SourceHashes(names, rows)
  {
  }

  /* ---------- the column list determines the registry ---------- */

  lemma ColumnsDetermineRegistry(a: Registry, b: Registry)
    requires ValidRegistry(a) && ValidRegistry(b) && Columns(a) == Columns(b)
    ensures a == b
  {
    SameLevelCount(a, b);
    SameLevelCount(b, a);
    ColumnsExact(a);
    ColumnsExact(b);
    forall i | 0 <= i < |a| ensures a[i] == b[i] {
      assert Columns(a)[i] == Level(a[i].id) && Columns(b)[i] == Level(b[i].id);
      var bar := Bar(a[i].id, Open);
      assert IsColumn(a, bar) <==> IsColumn(b, bar);
      OhlcFromColumn(a, i);
      OhlcFromColumn(b, i);
    }
  }

  lemma OhlcFromColumn(reg: Registry, i: nat)
    requires ValidRegistry(reg) && i < |reg|
    ensures IsColumn(reg, Bar(reg[i].id, Open)) <==> reg[i].ohlc
  {
  }

  lemma SameLevelCount(a: Registry, b: Registry)
    requires Columns(a) == Columns(b)
    ensures |a| <= |b|
  {
    if |a| > |b| {
      LevelsComeFirst(a, |b|);
      LevelsComeFirst(b, |b|);
    }
  }

  lemma LevelsComeFirst(reg: Registry, k: nat)
    requires k < |Columns(reg)|
    ensures Columns(reg)[k].Level? <==> k < |reg|
  {
    BarColumnsExact(reg);
    if k >= |reg| {
      assert BarColumns(reg)[k - |reg|] in BarColumns(reg);
    }
  }

  /** Rows kept by a plan were written by the same registry: after an upgrade none is kept. */
  lemma KeptIsSame(code: Code, rows: seq<GoldRow>, i: nat, c: Commit)
    requires ValidRegistry(code.reg) && Wide(code.reg, rows) && i < |rows| && WellFormed(c.code, c.src)
    requires At(SourceHashes(NamesOf(c), Rows(c)), rows[i].timestamp) == Some(RowSha256(RawNames(code.reg), rows[i]))
    ensures code.reg == c.code.reg
    ensures rows[i] in Rows(c)
  {
    hide RowSha256, SourceHashes, Columns, WellFormed, Rows;
    var before := Rows(c);
    SourceHashesKeys(NamesOf(c), before);
    var j :| 0 <= j < |before| && before[j].timestamp == rows[i].timestamp;
    SourceHashesAt(NamesOf(c), before, j);
    DigestDeterminesRow(RawNames(code.reg), rows[i], NamesOf(c), before[j]);
    NamesInjective(Columns(code.reg), Columns(c.code.reg));
    WellFormedRegistry(c);
    ColumnsDetermineRegistry(code.reg, c.code.reg);
  }

  lemma WellFormedRegistry(c: Commit)
    requires WellFormed(c.code, c.src)
    ensures ValidRegistry(c.code.reg)
  {
  }

  /** After an upgrade that changes the registry, the plan classifies no row as unchanged. */
  lemma UpgradeKeepsNothing(target: Target, code: Code, c: Commit, rows: seq<GoldRow>)
    requires Represents(target, code, Some(c)) && code.reg != c.code.reg
    requires Wide(code.reg, rows) && DistinctKeys(rows)
    ensures PlanOf(RawNames(code.reg), rows, target.hashes).kept == {}
  {
    hide RowSha256, SourceHashes, Columns, Rows, Select, WellFormed, Holding;
    PlanPartition(RawNames(code.reg), rows, target.hashes);
    SourceHashesKeys(RawNames(code.reg), rows);
    forall t ensures t !in PlanOf(RawNames(code.reg), rows, target.hashes).kept {
      if t in PlanOf(RawNames(code.reg), rows, target.hashes).kept {
        var i :| 0 <= i < |rows| && rows[i].timestamp == t;
        SourceHashesAt(RawNames(code.reg), rows, i);
        KeptIsSame(code, rows, i, c);
        assert false;
      }
    }
  }
}
