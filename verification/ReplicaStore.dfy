/**
 The replica as the database changes it: statements that write tables, digests and checkpoint
 one after another, any of which may fail, inside one transaction that rolls back.
 */
module ReplicaStore {
  import opened Common
  import opened RowDigest
  import opened SparseTables
  import opened DeltaPlan
  import opened RowWrites
  import opened Replica
  import opened ReplicaChecks

  datatype Counts = Counts(build: nat, inserted: nat, updated: nat, deleted: nat, kept: nat)

  /** The counts of a synchronisation, told from the digest index before and after it. */
  ghost predicate CountsChange(counts: Counts, before: Hashes, after: Hashes) {
    && counts.inserted == |after.Keys - before.Keys|
    && counts.updated == |set t | t in after && t in before && after[t] != before[t]|
    && counts.deleted == |before.Keys - after.Keys|
    && counts.kept == |set t | t in after && t in before && after[t] == before[t]|
  }

  /** The checkpoint of a build: its id, the digest of its file, its versions, and the file's extent. */
  ghost predicate Describes(c: Checkpoint, src: Source) {
    && c.build == src.record.build && c.data == FileSha256(src.file)
    && c.schema == src.record.schema && c.feature == src.record.feature
    && c.summary.count == |src.file.frame.rows|
    && Spans(c.summary.first, c.summary.last, src.file.frame.rows)
  }

  class ServingDatabase {
    var tables: Tables
    var hashes: Hashes
    var state: Option<SyncState>

    function Contents(): Target
      reads this
    {
      Target(tables, hashes, state)
    }

    constructor (initial: Target)
      ensures Contents() == initial
    {
      tables, hashes, state := initial.tables, initial.hashes, initial.state;
    }

    /** Insert or replace one series row; an entirely NULL row is deleted. */
    method PutStored(id: Name, t: Timestamp, values: Stored)
      requires id in tables
      modifies this`tables
      ensures tables == old(tables)[id := Put(old(tables)[id], t, values)]
    {
      var table: Table := tables[id];
      if !AnyValue(values) {
        table := table - {t};
      } else {
        table := table[t := values];
      }
      tables := tables[id := table];
    }

    /** One wide row into its series tables; false where an OHLC level is not its close. */
    method ApplyFeatureRow(reg: Registry, row: GoldRow) returns (ok: bool)
      requires ValidRegistry(reg) && Tabled(tables, reg) && |row.values| == |Columns(reg)|
      modifies this`tables
      ensures tables.Keys == old(tables.Keys)
      ensures ApplyRow(old(tables), reg, row) == if ok then Some(tables) else None
    {
      hide Columns, AnyValue, Put, SourceValues;
      var cells := CellsOf(reg, row);
      var t := row.timestamp;
      for i := 0 to |reg|
        invariant tables == Written(old(tables), reg, i, t, cells)
        invariant forall j :: 0 <= j < i ==> LevelIsClose(reg[j], cells)
      {
        var s := reg[i];
        if s.ohlc && cells[Level(s.id)] != cells[Bar(s.id, Close)] {
          return false;
        }
        PutStored(s.id, t, SourceValues(s, cells));
      }
      ok := true;
    }

    method DeleteFeatureTimestamp(reg: Registry, t: Timestamp)
      requires Tabled(tables, reg)
      modifies this`tables
      ensures tables == Cleared(old(tables), reg, |reg|, t)
    {
      for i := 0 to |reg|
        invariant tables == Cleared(old(tables), reg, i, t)
      {
        tables := tables[reg[i].id := tables[reg[i].id] - {t}];
      }
    }

    /** All given rows; an error is either a refused row or a failed statement. */
    method ApplyFeatureRows(reg: Registry, rows: seq<GoldRow>, calm: bool) returns (error: Option<SyncError>)
      requires ValidRegistry(reg) && Tabled(tables, reg) && Wide(reg, rows)
      modifies this`tables
      ensures tables.Keys == old(tables.Keys)
      ensures error.None? ==> ApplyRows(old(tables), reg, rows) == Some(tables)
      ensures error.Some? ==> error.value == Database || (error.value == OhlcLevel && ApplyRows(old(tables), reg, rows).None?)
      ensures calm ==> error != Some(Database)
    {
      hide ApplyRow, Columns;
      for i := 0 to |rows|
        invariant tables.Keys == old(tables.Keys)
        invariant ApplyRows(old(tables), reg, rows[..i]) == Some(tables)
      {
        var failed := Fault(calm);
        if failed { return Some(Database); }
        assert rows[..i + 1][..i] == rows[..i];
        var ok := ApplyFeatureRow(reg, rows[i]);
        if !ok {
          RefusedRow(old(tables), reg, rows, i + 1);
          return Some(OhlcLevel);
        }
      }
      assert rows[..|rows|] == rows;
      error := None;
    }

    method DeleteFeatureTimestamps(reg: Registry, gone: set<Timestamp>, calm: bool) returns (failed: bool)
      requires ValidRegistry(reg) && Tabled(tables, reg)
      modifies this`tables
      ensures tables.Keys == old(tables.Keys)
      ensures !failed ==> tables == ClearAll(old(tables), reg, gone)
      ensures calm ==> !failed
    {
      hide Cleared, ClearAll;
      var todo := gone;
      NothingCleared(tables, reg);
      while todo != {}
        invariant todo <= gone
        invariant tables == ClearAll(old(tables), reg, gone - todo)
        decreases |todo|
      {
        failed := Fault(calm);
        if failed { return; }
        var t :| t in todo;
        ClearOneMore(old(tables), reg, gone - todo, t);
        DeleteFeatureTimestamp(reg, t);
        assert gone - todo + {t} == gone - (todo - {t});
        todo := todo - {t};
      }
      assert gone - todo == gone;
      failed := false;
    }

    method UpsertDigests(rows: seq<GoldRow>, source: Hashes, calm: bool) returns (failed: bool)
      requires Times(rows) <= source.Keys
      modifies this`hashes
      ensures !failed ==> hashes == Upserted(old(hashes), rows, source)
      ensures calm ==> !failed
    {
      hide Times;
      PrefixTimes(rows);
      for i := 0 to |rows|
        invariant hashes == Upserted(old(hashes), rows[..i], source)
      {
        failed := Fault(calm);
        if failed { return; }
        assert rows[..i + 1][..i] == rows[..i];
        assert rows[..i + 1][i] == rows[i];
        var t := rows[i].timestamp;
        hashes := hashes[t := source[t]];
      }
      assert rows[..|rows|] == rows;
      failed := false;
    }

    method DeleteDigests(gone: set<Timestamp>, calm: bool) returns (failed: bool)
      modifies this`hashes
      ensures !failed ==> hashes == old(hashes) - gone
      ensures calm ==> !failed
    {
      var todo := gone;
      while todo != {}
        invariant todo <= gone
        invariant hashes == old(hashes) - (gone - todo)
        decreases |todo|
      {
        failed := Fault(calm);
        if failed { return; }
        var t :| t in todo;
        hashes := hashes - {t};
        todo := todo - {t};
      }
      assert gone - todo == gone;
      failed := false;
    }

    /** Writes, post-write comparisons, and the checkpoint last; the caller rolls back on error. */
    method ApplyDelta(code: Code, plan: Plan, desired: SyncState, calm: bool) returns (error: Option<SyncError>)
      requires ValidRegistry(code.reg) && Tabled(tables, code.reg) && Wide(code.reg, plan.inserts + plan.updates)
      modifies this
      ensures error.None? ==> Replica.ApplyDelta(code, old(Contents()), plan, desired) == Ok(Contents())
      ensures error.None? ==> hashes == plan.source && state == Some(desired)
      ensures error.Some? && error.value != Database ==>
                Replica.ApplyDelta(code, old(Contents()), plan, desired) == Err(error.value)
      ensures calm ==> error != Some(Database)
    {
      hide ApplyRows, ClearAll, Upserted, Rebuild, ConsumerHashes, Summarize, Times, Columns;
      var rows := plan.inserts + plan.updates;
      if !(Times(rows) <= plan.source.Keys) { return Some(MissingDigest); }
      error := ApplyFeatureRows(code.reg, rows, calm);
      if error.Some? { return; }
      var failed := DeleteFeatureTimestamps(code.reg, plan.deletes, calm);
      if failed { return Some(Database); }
      failed := UpsertDigests(rows, plan.source, calm);
      if failed { return Some(Database); }
      failed := DeleteDigests(plan.deletes, calm);
      if failed { return Some(Database); }
      failed := Fault(calm);
      if failed { return Some(Database); }
      if Summarize(Rebuild(tables, code.reg).Keys) != desired.checkpoint.summary { return Some(PostSummary); }
      if hashes != plan.source { return Some(PostDigests); }
      if ConsumerHashes(tables, code.reg) != plan.source { return Some(PostConsumer); }
      failed := Fault(calm);
      if failed { return Some(Database); }
      state := Some(desired);
    }

    /** The locked part of a synchronisation: reads, checks, plan, delta. */
    method SyncLocked(code: Code, src: Source, desired: SyncState, calm: bool) returns (r: Result<Counts, SyncError>)
      requires ValidRegistry(code.reg) && Tabled(tables, code.reg) && src.record.rowCount.Some?
      modifies this
      ensures r.Ok? ==> Replica.SyncLocked(code, old(Contents()), src, desired) == Ok(Contents())
      ensures r.Ok? ==> r.value.build == src.record.build && CountsChange(r.value, old(hashes), hashes)
      ensures r.Ok? ==> state == Some(desired)
      ensures r.Err? && r.error != Database ==>
                Replica.SyncLocked(code, old(Contents()), src, desired) == Err(r.error)
      ensures calm && r.Err? ==> Replica.SyncLocked(code, old(Contents()), src, desired) == Err(r.error)
    {
      hide PlanOf, SourceRows, Replica.ApplyDelta, Columns, PlanLocked;
      var failed := Fault(calm);
      if failed { return Err(Database); }
      var plan := PlanLocked(code, Contents(), src, desired);
      if plan.Err? { return Err(plan.error); }
      PlanWide(code.reg, SourceRows(RawNames(code.reg), src.file.frame).value, hashes);
      PlannedCounts(RawNames(code.reg), SourceRows(RawNames(code.reg), src.file.frame).value, hashes, src);
      var error := ApplyDelta(code, plan.value, desired, calm);
      if error.Some? { return Err(error.value); }
      r := Ok(CountsOf(src, plan.value));
    }

    /**
     One call of `sync`: the transaction commits what `Sync` says, or the database is exactly
     as before.  Only a lost reply to the commit reports an error for a committed change.
     */
    method Synchronize(code: Code, src: Source, now: int, calm: bool) returns (r: Result<Counts, SyncError>)
      requires ValidRegistry(code.reg) && Tabled(tables, code.reg)
      modifies this
      ensures r.Ok? ==> Sync(code, old(Contents()), src, now) == Ok(Contents())
      ensures r.Ok? ==> r.value.build == src.record.build && CountsChange(r.value, old(hashes), hashes)
      ensures r.Ok? ==> state.Some? && state.value.syncedAt == now && Describes(state.value.checkpoint, src)
      ensures r.Err? && r.error != Database ==> Sync(code, old(Contents()), src, now) == Err(r.error)
      ensures r.Err? ==> Contents() == old(Contents())
                         || (r.error == Database && Sync(code, old(Contents()), src, now) == Ok(Contents()))
      ensures calm ==> if r.Ok? then Sync(code, old(Contents()), src, now) == Ok(Contents())
                       else Sync(code, old(Contents()), src, now) == Err(r.error)
    {
      hide Replica.SyncLocked, Spans;
      var refused := SourceError(code, src);
      if refused.Some? { return Err(refused.value); }
      var before := Contents();
      r := SyncLocked(code, src, SyncState(CheckpointOf(src), now), calm);
      if r.Ok? {
        AcceptedFile(code, before, src, now);
      }
      if r.Err? {
        tables, hashes, state := before.tables, before.hashes, before.state;
        return;
      }
      var lost := Fault(calm);
      if lost {
        if * { tables, hashes, state := before.tables, before.hashes, before.state; }
        r := Err(Database);
      }
    }
  }

  function CountsOf(src: Source, plan: Plan): Counts {
    Counts(src.record.build, |plan.inserts|, |plan.updates|, |plan.deletes|, |plan.kept|)
  }

  /** An accepted file has the extent that its checkpoint records. */
  lemma AcceptedFile(code: Code, target: Target, src: Source, now: int)
    requires ValidRegistry(code.reg) && Tabled(target.tables, code.reg) && Sync(code, target, src, now).Ok?
    ensures src.record.rowCount.Some? && Describes(CheckpointOf(src), src)
  {
    hide Replica.ApplyDelta, Planned, ConsumerHashes, Spans, StateCompatible, SchemaUpgrade;
    SpansExactly(src.record.first, src.record.last, src.file.frame.rows);
  }

  lemma {:induction false} KeyCount(rows: seq<GoldRow>)
    requires DistinctKeys(rows)
    ensures |rows| == |DeltaPlan.Times(rows)|
  {
    if rows != [] {
      var n := |rows| - 1;
      KeyCount(rows[..n]);
      TimesSplit(rows, n);
    }
  }

  lemma SelectedRow(names: seq<Name>, rows: seq<GoldRow>, index: Hashes, kind: Kind, r: GoldRow)
    requires Sized(rows, |names|) && r in Select(names, rows, index, kind)
    ensures r in rows
  {
    SelectExact(names, rows, index, kind);
  }

  lemma {:induction false} SelectDistinct(names: seq<Name>, rows: seq<GoldRow>, index: Hashes, kind: Kind)
    requires Sized(rows, |names|) && DistinctKeys(rows)
    ensures DistinctKeys(Select(names, rows, index, kind))
  {
    hide RowSha256, Classify;
    if rows != [] {
      var n := |rows| - 1;
      SelectDistinct(names, rows[..n], index, kind);
      var front := Select(names, rows[..n], index, kind);
      forall i | 0 <= i < |front| ensures front[i].timestamp != rows[n].timestamp {
        SelectedRow(names, rows[..n], index, kind, front[i]);
        var k :| 0 <= k < n && rows[..n][k] == front[i];
      }
    }
  }

  /** The counts of a plan are those of the change it makes to the digest index. */
  lemma PlannedCounts(names: seq<Name>, rows: seq<GoldRow>, index: Hashes, src: Source)
    requires Sized(rows, |names|) && DistinctKeys(rows)
    ensures var plan := PlanOf(names, rows, index);
            CountsOf(src, plan).build == src.record.build && CountsChange(CountsOf(src, plan), index, plan.source)
  {
    hide Select, DeltaPlan.Times, SourceHashes;
    var plan := PlanOf(names, rows, index);
    PlanPartition(names, rows, index);
    SelectDistinct(names, rows, index, Insert);
    SelectDistinct(names, rows, index, Update);
    KeyCount(plan.inserts);
    KeyCount(plan.updates);
    assert plan.kept == set t | t in plan.source && t in index && plan.source[t] == index[t];
    assert DeltaPlan.Times(plan.updates) == set t | t in plan.source && t in index && plan.source[t] != index[t];
  }

  lemma {:induction false} RefusedRow(tables: Tables, reg: Registry, rows: seq<GoldRow>, i: nat)
    requires Tabled(tables, reg) && Wide(reg, rows) && i <= |rows| && ApplyRows(tables, reg, rows[..i]).None?
    ensures ApplyRows(tables, reg, rows).None?
  {
    if i < |rows| {
      assert rows[..|rows| - 1][..i] == rows[..i];
      RefusedRow(tables, reg, rows[..|rows| - 1], i);
    } else {
      assert rows[..i] == rows;
    }
  }

  lemma NothingCleared(tables: Tables, reg: Registry)
    requires Tabled(tables, reg)
    ensures forall gone :: gone == {} ==> ClearAll(tables, reg, gone) == tables
  {
    assert forall id :: id in tables ==> tables[id] - {} == tables[id];
  }

  lemma PrefixTimes(rows: seq<GoldRow>)
    ensures forall i :: 0 <= i <= |rows| ==> Times(rows[..i]) <= Times(rows)
    ensures forall i :: 0 <= i < |rows| ==> rows[i].timestamp in Times(rows)
  {
  }
}
