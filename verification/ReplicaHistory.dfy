/**
 Whole histories of the serving replica: synchronisations that commit, are refused, or fail at
 any statement, and schema migrations between releases.
 */
module ReplicaHistory {
  import opened Common
  import opened RowDigest
  import opened SparseTables
  import opened DeltaPlan
  import opened RowWrites
  import opened Replica
  import opened ReplicaRuns
  import opened ReplicaLiveness

  /** Where a database error strikes: nowhere, before the commit, or after it took effect. */
  datatype Fault = NoFault | BeforeCommit | AfterCommit

  datatype Event = Synchronize(src: Source, now: int, fault: Fault) | Migrate(code: Code)

  /** The database, the running release, and the Gold frame it committed last. */
  datatype World = World(code: Code, target: Target, last: Option<Commit>)

  function NoTables(reg: Registry): (tables: Tables)
    ensures forall id :: id in tables <==> exists i :: 0 <= i < |reg| && reg[i].id == id
    ensures forall id :: id in tables ==> tables[id] == map[]
  {
    if reg == [] then map[] else NoTables(reg[..|reg| - 1])[reg[|reg| - 1].id := map[]]
  }

  /** A freshly migrated, empty database. */
  function Empty(code: Code): World {
    World(code, Target(NoTables(code.reg), map[], None), None)
  }

  /** A migration creates the tables of new series and keeps the others. */
  function Migrated(tables: Tables, reg: Registry): Tables {
    NoTables(reg) + tables
  }

  predicate CanMigrate(a: Code, b: Code) {
    ValidRegistry(b.reg) && Older(a, b)
  }

  predicate Legal(w: World, e: Event) {
    e.Migrate? ==> CanMigrate(w.code, e.code)
  }

  /** Exactly the registry's tables exist. */
  predicate OwnTables(tables: Tables, reg: Registry) {
    Tabled(tables, reg) && forall id :: id in tables ==> Registered(reg, id)
  }

  predicate Sound(w: World) {
    ValidRegistry(w.code.reg) && OwnTables(w.target.tables, w.code.reg)
  }

  function Next(w: World, e: Event): (after: World)
    requires Sound(w) && Legal(w, e)
  {
    match e
    case Migrate(code) => World(code, w.target.(tables := Migrated(w.target.tables, code.reg)), w.last)
    case Synchronize(src, now, fault) =>
      var r := Sync(w.code, w.target, src, now);
      if r.Err? || fault == BeforeCommit then w
      else World(w.code, r.value, Some(Commit(w.code, src)))
  }

  ghost predicate Reached(w: World) {
    Sound(w) && Represents(w.target, w.code, w.last)
  }

  lemma EmptyReached(code: Code)
    requires ValidRegistry(code.reg)
    ensures Reached(Empty(code))
  {
    var tables := NoTables(code.reg);
    assert forall i :: 0 <= i < |code.reg| ==> tables[code.reg[i].id] == map[];
  }

  /** A series of a grown registry either had its table before, as the same series, or has an empty one. */
  lemma MigratedSeries(tables: Tables, a: Registry, b: Registry, i: nat)
    requires ValidRegistry(a) && ValidRegistry(b) && OwnTables(tables, a) && (forall s :: s in a ==> s in b) && i < |b|
    ensures b[i].id in Migrated(tables, b)
    ensures if b[i] in a then b[i].id in tables && Migrated(tables, b)[b[i].id] == tables[b[i].id]
            else Migrated(tables, b)[b[i].id] == map[]
  {
    if b[i].id in tables {
      var k :| 0 <= k < |a| && a[k].id == b[i].id;
      assert a[k] in b;
    }
  }

  lemma MigratedOwn(tables: Tables, a: Registry, b: Registry)
    requires ValidRegistry(a) && ValidRegistry(b) && OwnTables(tables, a) && (forall s :: s in a ==> s in b)
    ensures OwnTables(Migrated(tables, b), b)
  {
    forall id | id in Migrated(tables, b) ensures Registered(b, id) {
      if id in tables {
        var k :| 0 <= k < |a| && a[k].id == id;
        assert a[k] in b;
      }
    }
  }

  lemma MigratedStored(tables: Tables, a: Registry, b: Registry)
    requires ValidRegistry(a) && ValidRegistry(b) && OwnTables(tables, a) && (forall s :: s in a ==> s in b)
    requires WellStored(tables, a)
    ensures OwnTables(Migrated(tables, b), b) && WellStored(Migrated(tables, b), b)
  {
    hide AnyValue, Migrated;
    MigratedOwn(tables, a, b);
    forall i | 0 <= i < |b|
      ensures forall t :: t in Migrated(tables, b)[b[i].id] ==>
                |Migrated(tables, b)[b[i].id][t]| == Width(b[i]) && AnyValue(Migrated(tables, b)[b[i].id][t])
    {
      MigratedSeries(tables, a, b, i);
      if b[i] in a {
        var k :| 0 <= k < |a| && a[k] == b[i];
      }
    }
  }

  lemma MigratedAbsent(tables: Tables, a: Registry, b: Registry, t: Timestamp)
    requires ValidRegistry(a) && ValidRegistry(b) && OwnTables(tables, a) && (forall s :: s in a ==> s in b)
    requires Absent(tables, a, t) && Tabled(Migrated(tables, b), b)
    ensures Absent(Migrated(tables, b), b, t)
  {
    forall i | 0 <= i < |b| ensures t !in Migrated(tables, b)[b[i].id] {
      MigratedSeries(tables, a, b, i);
      if b[i] in a {
        var k :| 0 <= k < |a| && a[k] == b[i];
      }
    }
  }

  lemma MigratedHolds(tables: Tables, writer: Registry, b: Registry, row: GoldRow)
    requires Tabled(tables, writer) && |row.values| == |Columns(writer)| && HoldsRow(tables, writer, row)
    requires Tabled(Migrated(tables, b), writer)
    ensures HoldsRow(Migrated(tables, b), writer, row)
  {
    HeldElsewhere(Migrated(tables, b), tables, writer, row);
  }

  lemma OlderThrough(a: Code, b: Code, c: Code)
    requires Older(a, b) && Older(b, c)
    ensures Older(a, c)
  {
  }

  /** Migration keeps every stored row and leaves the new tables empty. */
  lemma MigratedHolding(tables: Tables, code: Code, grown: Code, writer: Code, rows: seq<GoldRow>)
    requires ValidRegistry(code.reg) && ValidRegistry(grown.reg) && Older(writer, code) && Older(code, grown)
    requires OwnTables(tables, code.reg) && Wide(writer.reg, rows) && Holding(tables, code, writer, rows)
    ensures Older(writer, grown) && Holding(Migrated(tables, grown.reg), grown, writer, rows)
  {
    hide HoldsRow, Absent, WellStored, OwnTables;
    OlderThrough(writer, code, grown);
    var after := Migrated(tables, grown.reg);
    MigratedStored(tables, code.reg, grown.reg);
    assert Tabled(after, grown.reg) by { StoredTabled(after, grown.reg); }
    assert Tabled(after, writer.reg);
    forall i | 0 <= i < |rows| ensures HoldsRow(after, writer.reg, rows[i]) {
      MigratedHolds(tables, writer.reg, grown.reg, rows[i]);
    }
    forall t | t !in Times(rows) ensures Absent(after, grown.reg, t) {
      MigratedAbsent(tables, code.reg, grown.reg, t);
    }
    forall i | 0 <= i < |grown.reg| && grown.reg[i] !in writer.reg ensures after[grown.reg[i].id] == map[] {
      MigratedSeries(tables, code.reg, grown.reg, i);
      if grown.reg[i] in code.reg {
        var k :| 0 <= k < |code.reg| && code.reg[k] == grown.reg[i];
      }
    }
  }

  lemma StoredTabled(tables: Tables, reg: Registry)
    requires WellStored(tables, reg)
    ensures Tabled(tables, reg)
  {
  }

  lemma MigrateReaches(w: World, code: Code)
    requires Reached(w) && CanMigrate(w.code, code)
    ensures Reached(Next(w, Migrate(code)))
    ensures var after := Next(w, Migrate(code)).target.tables;
            forall i :: 0 <= i < |code.reg| ==>
              code.reg[i].id in after
              && after[code.reg[i].id] == if code.reg[i] in w.code.reg then w.target.tables[code.reg[i].id] else map[]
  {
    hide Holding, WellFormed, SourceHashes, OwnTables, Migrated;
    forall i | 0 <= i < |code.reg|
      ensures code.reg[i].id in Migrated(w.target.tables, code.reg)
      ensures code.reg[i] in w.code.reg ==> code.reg[i].id in w.target.tables
      ensures Migrated(w.target.tables, code.reg)[code.reg[i].id]
              == if code.reg[i] in w.code.reg then w.target.tables[code.reg[i].id] else map[]
    {
      MigratedSeries(w.target.tables, w.code.reg, code.reg, i);
    }
    var writer, rows := WriterOf(w.code, w.last), RowsLeft(w.code, w.last);
    Left(w.target, w.code, w.last);
    RepresentsStored(w.target, w.code, w.last);
    MigratedStored(w.target.tables, w.code.reg, code.reg);
    MigratedHolding(w.target.tables, w.code, code, writer, rows);
    if w.last.None? {
      EmptyHolding(Migrated(w.target.tables, code.reg), code, w.code);
    }
  }

  lemma EmptyHolding(tables: Tables, code: Code, writer: Code)
    requires ValidRegistry(code.reg) && Older(writer, code) && Holding(tables, code, writer, [])
    ensures Holding(tables, code, code, [])
  {
    StoredTabled(tables, code.reg);
  }

  /** A synchronisation neither creates nor drops tables. */
  lemma SyncKeepsTables(code: Code, target: Target, src: Source, now: int)
    requires ValidRegistry(code.reg) && Tabled(target.tables, code.reg) && Sync(code, target, src, now).Ok?
    ensures Sync(code, target, src, now).value.tables.Keys == target.tables.Keys
  {
    hide PlanLocked, ConsumerHashes, Rebuild, Summarize, AppliedIndex, ApplyRows, ClearAll, RawNames, SourceRows, PlanOf;
    hide SourceError, CheckpointOf, Times, Columns;
  }

  lemma SynchronizeReaches(w: World, src: Source, now: int, fault: Fault)
    requires Reached(w)
    ensures Reached(Next(w, Synchronize(src, now, fault)))
  {
    hide Represents, Sync;
    if Sync(w.code, w.target, src, now).Ok? && fault != BeforeCommit {
      RepresentsStored(w.target, w.code, w.last);
      SyncCommitsSource(w.code, w.target, src, now);
      SyncKeepsTables(w.code, w.target, src, now);
      SameOwn(Sync(w.code, w.target, src, now).value.tables, w.target.tables, w.code.reg);
    }
  }

  lemma SameOwn(a: Tables, b: Tables, reg: Registry)
    requires a.Keys == b.Keys && OwnTables(b, reg)
    ensures OwnTables(a, reg)
  {
    assert forall id :: id in a <==> id in a.Keys;
    assert forall id :: id in b <==> id in b.Keys;
  }

  /* ---------- histories ---------- */

  predicate LegalRun(w: World, events: seq<Event>)
    decreases |events|
  {
    events == [] || (Sound(w) && Legal(w, events[0]) && LegalRun(Next(w, events[0]), events[1..]))
  }

  function Run(w: World, events: seq<Event>): World
    requires LegalRun(w, events)
    decreases |events|
  {
    if events == [] then w else Run(Next(w, events[0]), events[1..])
  }

  /**
   After any history from an empty database, the target is empty without state, or its digest
   index, tables and checkpoint are those of the last committed Gold frame.
   */
  lemma {:induction false} HistoryRepresents(w: World, events: seq<Event>)
    requires Reached(w) && LegalRun(w, events)
    ensures Reached(Run(w, events))
    decreases |events|
  {
    hide Reached;
    if events != [] {
      match events[0] {
        case Migrate(code) => MigrateReaches(w, code);
        case Synchronize(src, now, fault) => SynchronizeReaches(w, src, now, fault);
      }
      HistoryRepresents(Next(w, events[0]), events[1..]);
    }
  }

  /* ---------- what a reader of the replica sees ---------- */

  /** A row's cells under a longer column list: NULL in the columns it does not have. */
  function Widened(cols: seq<Column>, cells: map<Column, Option<Number>>): (values: Values)
    ensures |values| == |cols|
  {
    if cols == [] then []
    else
      var c := cols[|cols| - 1];
      Widened(cols[..|cols| - 1], cells) + [if c in cells then cells[c] else None]
  }

  lemma {:induction false} WidenedAt(cols: seq<Column>, cells: map<Column, Option<Number>>, i: nat)
    requires i < |cols|
    ensures Widened(cols, cells)[i] == if cols[i] in cells then cells[cols[i]] else None
  {
    if i < |cols| - 1 {
      WidenedAt(cols[..|cols| - 1], cells, i);
    }
  }

  /** A committed row as the running release's consumers see it. */
  function Served(w: World, r: GoldRow): Values
    requires w.last.Some? && |r.values| == |Columns(w.last.value.code.reg)|
  {
    Widened(Columns(w.code.reg), CellsOf(w.last.value.code.reg, r))
  }

  /** Under its own release a row is served as it was committed. */
  lemma ServedUnchanged(w: World, r: GoldRow)
    requires w.last.Some? && w.last.value.code.reg == w.code.reg && ValidRegistry(w.code.reg)
    requires |r.values| == |Columns(w.code.reg)|
    ensures Served(w, r) == r.values
  {
    hide Columns, Distinct;
    var cols := Columns(w.code.reg);
    ColumnsDistinct(w.code.reg);
    forall i | 0 <= i < |cols| ensures Served(w, r)[i] == r.values[i] {
      WidenedAt(cols, CellsOf(w.code.reg, r), i);
      ByColumnAt(cols, r.values, i);
      assert cols[i] in cols;
    }
  }

  /** One served cell: the written one, or NULL for a series the writer did not know. */
  lemma ServedCell(tables: Tables, code: Code, writer: Code, rows: seq<GoldRow>, j: nat, c: Column)
    requires ValidRegistry(code.reg) && ValidRegistry(writer.reg) && Older(writer, code) && Wide(writer.reg, rows)
    requires Holding(tables, code, writer, rows) && j < |rows| && LevelsMatch(writer.reg, rows[j])
    requires Tabled(tables, code.reg) && IsColumn(code.reg, c)
    ensures c in ByColumn(Columns(code.reg), RowAt(tables, code.reg, rows[j].timestamp))
    ensures ByColumn(Columns(code.reg), RowAt(tables, code.reg, rows[j].timestamp))[c]
            == if c in CellsOf(writer.reg, rows[j]) then CellsOf(writer.reg, rows[j])[c] else None
  {
    hide WellStored, Absent, RowAt, AnyValue, SourceValues, ProjectStored, Columns, Covers;
    var t, cells := rows[j].timestamp, CellsOf(writer.reg, rows[j]);
    var k := SeriesIndex(code.reg, c);
    ColumnShows(tables, code.reg, t, k, c);
    ColumnsExact(writer.reg);
    assert rows[j] in rows && HoldsRow(tables, writer.reg, rows[j]);
    if code.reg[k] in writer.reg {
      WrittenCell(tables, writer.reg, rows[j], code.reg[k], c);
    } else {
      NewSeriesCell(code, writer, k, c);
      assert At(tables[code.reg[k].id], t) == None;
      NullProjection(code.reg[k], c);
    }
  }

  lemma NullProjection(s: Series, c: Column)
    ensures ProjectStored(s, None, c) == None
  {
  }

  lemma WrittenCell(tables: Tables, writer: Registry, row: GoldRow, s: Series, c: Column)
    requires ValidRegistry(writer) && Tabled(tables, writer) && |row.values| == |Columns(writer)|
    requires HoldsRow(tables, writer, row) && LevelsMatch(writer, row)
    requires s in writer && c.id == s.id && (c.Bar? ==> s.ohlc)
    ensures s.id in tables && c in CellsOf(writer, row)
    ensures ProjectStored(s, At(tables[s.id], row.timestamp), c) == CellsOf(writer, row)[c]
  {
    hide Columns, SourceValues, AnyValue, ProjectStored;
    var k :| 0 <= k < |writer| && writer[k] == s;
    assert IsColumn(writer, c);
    ColumnsExact(writer);
    SourceValueOf(s, CellsOf(writer, row), c);
  }

  lemma NewSeriesCell(code: Code, writer: Code, k: nat, c: Column)
    requires ValidRegistry(code.reg) && Older(writer, code) && k < |code.reg| && code.reg[k] !in writer.reg
    requires c.id == code.reg[k].id
    ensures !IsColumn(writer.reg, c)
  {
    forall i | 0 <= i < |writer.reg| ensures writer.reg[i].id != code.reg[k].id {
      assert writer.reg[i] in writer.reg;
      assert writer.reg[i] in code.reg;
    }
  }

  lemma ServedRowAt(w: World, r: GoldRow)
    requires Reached(w) && w.last.Some? && r in Rows(w.last.value)
    ensures RowAt(w.target.tables, w.code.reg, r.timestamp) == Served(w, r)
  {
    hide Represents, WellFormed, Rows, RowAt, Columns, Distinct, SourceHashes, Holding, LevelsMatch;
    var c := w.last.value;
    LastHolding(w);
    var rows := Rows(c);
    var j :| 0 <= j < |rows| && rows[j] == r;
    var cols, row := Columns(w.code.reg), RowAt(w.target.tables, w.code.reg, r.timestamp);
    ColumnsExact(w.code.reg);
    ColumnsDistinct(w.code.reg);
    forall i | 0 <= i < |cols| ensures row[i] == Served(w, r)[i] {
      assert cols[i] in cols;
      ServedCell(w.target.tables, w.code, c.code, rows, j, cols[i]);
      ByColumnAt(cols, row, i);
      WidenedAt(cols, CellsOf(c.code.reg, r), i);
    }
  }

  lemma LastHolding(w: World)
    requires Reached(w) && w.last.Some?
    ensures var c := w.last.value;
            && WellFormed(c.code, c.src) && ValidRegistry(c.code.reg) && Older(c.code, w.code)
            && Holding(w.target.tables, w.code, c.code, Rows(c))
            && WellStored(w.target.tables, w.code.reg)
            && forall j :: 0 <= j < |Rows(c)| ==> LevelsMatch(c.code.reg, Rows(c)[j]) && AnyValue(Rows(c)[j].values)
  {
    hide SourceHashes, Absent, HoldsRow, AnyValue, LevelsMatch, MetadataError, SourceError;
    RepresentsStored(w.target, w.code, w.last);
  }

  /** A value under some column of the writer is a value under the running release's columns. */
  lemma ServedHasValue(w: World, r: GoldRow)
    requires Reached(w) && w.last.Some? && r in Rows(w.last.value)
    ensures AnyValue(Served(w, r))
  {
    hide Represents, WellFormed, Rows, Columns, Distinct, Holding, LevelsMatch;
    var c := w.last.value;
    LastHolding(w);
    var rows := Rows(c);
    var j :| 0 <= j < |rows| && rows[j] == r;
    var written, cols := Columns(c.code.reg), Columns(w.code.reg);
    var i :| 0 <= i < |r.values| && r.values[i].Some?;
    ColumnsExact(c.code.reg);
    ColumnsExact(w.code.reg);
    ColumnsDistinct(c.code.reg);
    assert written[i] in written;
    OlderColumn(c.code, w.code, written[i]);
    var k :| 0 <= k < |cols| && cols[k] == written[i];
    ByColumnAt(written, r.values, i);
    WidenedAt(cols, CellsOf(c.code.reg, r), k);
    assert Served(w, r)[k].Some?;
  }

  lemma OlderColumn(a: Code, b: Code, c: Column)
    requires Older(a, b) && IsColumn(a.reg, c)
    ensures IsColumn(b.reg, c)
  {
    var i :| 0 <= i < |a.reg| && a.reg[i].id == c.id && (c.Bar? ==> a.reg[i].ohlc);
    assert a.reg[i] in b.reg;
  }

  lemma ServedRow(w: World, r: GoldRow)
    requires Reached(w) && w.last.Some? && r in Rows(w.last.value)
    ensures At(Rebuild(w.target.tables, w.code.reg), r.timestamp) == Some(Served(w, r))
  {
    hide Represents, WellFormed, Rows, RowAt, Columns, Rebuild, Served, AnyValue;
    LastHolding(w);
    ServedRowAt(w, r);
    ServedHasValue(w, r);
    RebuildExact(w.target.tables, w.code.reg, r.timestamp);
  }

  /**
   After any history, upgrades included, consumers see exactly the committed rows: as they were
   committed in the columns of the release that wrote them, NULL in newer ones.
   */
  lemma CommittedRowsAreServed(w: World)
    requires Reached(w)
    ensures w.last.None? ==> w.target.state.None? && w.target.hashes == map[] && Rebuild(w.target.tables, w.code.reg) == map[]
    ensures w.last.Some? ==>
              && Rebuild(w.target.tables, w.code.reg).Keys == Times(Rows(w.last.value))
              && forall r :: r in Rows(w.last.value) ==>
                   At(Rebuild(w.target.tables, w.code.reg), r.timestamp) == Some(Served(w, r))
  {
    hide SourceHashes, Rebuild, WellFormed, Rows, HoldsRow, Absent, RowAt, Served, Columns;
    RepresentsStored(w.target, w.code, w.last);
    var shown := Rebuild(w.target.tables, w.code.reg);
    var rows := RowsLeft(w.code, w.last);
    forall t | t !in Times(rows) ensures t !in shown {
      AbsentRow(w.target.tables, w.code.reg, t);
      RebuildExact(w.target.tables, w.code.reg, t);
      assert At(shown, t) == None;
    }
    if w.last.Some? {
      LastHolding(w);
      forall r | r in rows ensures At(shown, r.timestamp) == Some(Served(w, r)) {
        ServedRow(w, r);
      }
      forall t | t in Times(rows) ensures t in shown {
        var i := MutatedKey(rows, t);
        assert rows[i] in rows;
      }
    }
  }

  /**
   Two histories that end in the same commit under the same release leave the same tables,
   index and checkpoint, whatever migrations came between.
   */
  lemma PathIndependent(a: World, b: World)
    requires Reached(a) && Reached(b) && a.code == b.code && a.last == b.last
    ensures a.target.tables == b.target.tables && a.target.hashes == b.target.hashes
    ensures a.target.state.Some? == b.target.state.Some?
    ensures a.target.state.Some? ==> a.target.state.value.checkpoint == b.target.state.value.checkpoint
  {
    hide SourceHashes, WellFormed, Rows, Rebuild, RowAt, WellStored, Holding;
    RepresentsStored(a.target, a.code, a.last);
    RepresentsStored(b.target, b.code, b.last);
    SameServed(a, b);
    forall id ensures At(a.target.tables, id) == At(b.target.tables, id) {
      SameTable(a, b, id);
    }
    SameEntries(a.target.tables, b.target.tables);
  }

  lemma SameServed(a: World, b: World)
    requires Reached(a) && Reached(b) && a.code == b.code && a.last == b.last
    ensures Rebuild(a.target.tables, a.code.reg) == Rebuild(b.target.tables, a.code.reg)
  {
    hide SourceHashes, WellFormed, Rows, Rebuild, Represents, Columns, Served;
    CommittedRowsAreServed(a);
    CommittedRowsAreServed(b);
    if a.last.Some? {
      var x, y := Rebuild(a.target.tables, a.code.reg), Rebuild(b.target.tables, a.code.reg);
      LastWellFormed(a);
      forall t ensures At(x, t) == At(y, t) {
        if t in Times(Rows(a.last.value)) {
          var i := MutatedKey(Rows(a.last.value), t);
          assert Rows(a.last.value)[i] in Rows(a.last.value);
          assert Served(a, Rows(a.last.value)[i]) == Served(b, Rows(a.last.value)[i]) by { SameWidening(a, b, i); }
        }
      }
      SameEntries(x, y);
    }
  }

  lemma SameWidening(a: World, b: World, i: nat)
    requires a.code == b.code && a.last == b.last && a.last.Some?
    requires WellFormed(a.last.value.code, a.last.value.src) && i < |Rows(a.last.value)|
    ensures Served(a, Rows(a.last.value)[i]) == Served(b, Rows(a.last.value)[i])
  {
  }

  lemma SameTable(a: World, b: World, id: Name)
    requires Reached(a) && Reached(b) && a.code == b.code
    requires WellStored(a.target.tables, a.code.reg) && WellStored(b.target.tables, a.code.reg)
    requires Rebuild(a.target.tables, a.code.reg) == Rebuild(b.target.tables, a.code.reg)
    ensures At(a.target.tables, id) == At(b.target.tables, id)
  {
    hide Represents, Rebuild, WellStored, RowAt;
    var reg := a.code.reg;
    if Registered(reg, id) {
      var k :| 0 <= k < |reg| && reg[k].id == id;
      forall t ensures At(a.target.tables[id], t) == At(b.target.tables[id], t) {
        RebuiltDeterminesStored(a.target.tables, b.target.tables, reg, t);
      }
      SameEntries(a.target.tables[id], b.target.tables[id]);
    }
  }

  /** The consumer rows determine the tables. */
  lemma RebuiltDeterminesStored(a: Tables, b: Tables, reg: Registry, t: Timestamp)
    requires ValidRegistry(reg) && WellStored(a, reg) && WellStored(b, reg)
    requires Rebuild(a, reg) == Rebuild(b, reg)
    ensures SameAt(a, b, reg, t)
  {
    hide Rebuild, RowAt;
    RebuildExact(a, reg, t);
    RebuildExact(b, reg, t);
    if AnyValue(RowAt(a, reg, t)) {
      RowDeterminesTables(a, b, reg, t);
    } else {
      NothingShown(a, reg, t);
      NothingShown(b, reg, t);
    }
  }

  /** Synchronising the same build again changes nothing but the time of the checkpoint. */
  lemma ReplayChangesNothing(w: World, now: int)
    requires Reached(w) && w.last.Some? && w.last.value.code == w.code
    requires w.code.schema == SCHEMA_VERSION && w.code.feature == FEATURE_VERSION
    ensures Sync(w.code, w.target, w.last.value.src, now)
            == Ok(w.target.(state := Some(SyncState(CheckpointOf(w.last.value.src), now))))
  {
    hide Represents, Sync, Rows, SourceHashes, WellFormed, SameRows;
    var c := w.last.value;
    LastWellFormed(w);
    AcceptedExactly(w.code, w.target, w.last, c.src, now);
    SyncCommitsSource(w.code, w.target, c.src, now) by { RepresentsStored(w.target, w.code, w.last); }
    SynchronizeReaches(w, c.src, now, NoFault);
    PathIndependent(w, Next(w, Synchronize(c.src, now, NoFault)));
  }

  lemma LastWellFormed(w: World)
    requires Reached(w) && w.last.Some?
    ensures WellFormed(w.last.value.code, w.last.value.src)
    ensures w.last.value == Commit(w.last.value.code, w.last.value.src)
  {
  }

  /* ---------- conformance ---------- */

  datatype Disagreement = IndexDiffers | ConsumerDiffers | SummaryDiffers | StateDiffers

  /** The conformance comparison of a catalog record and its file with the replica. */
  function Disagrees(code: Code, target: Target, src: Source): Option<Disagreement>
    requires WellFormed(code, src) && Tabled(target.tables, code.reg)
  {
    var source := SourceHashes(RawNames(code.reg), Rows(Commit(code, src)));
    var expected := Expected(src.record);
    if source != target.hashes then Some(IndexDiffers)
    else if source != ConsumerHashes(target.tables, code.reg) then Some(ConsumerDiffers)
    else if Summarize(Rebuild(target.tables, code.reg).Keys) != expected || target.state.None? then Some(SummaryDiffers)
    else
      var state := target.state.value.checkpoint;
      if state.build != src.record.build || state.data != FileSha256(src.file) || state.schema != src.record.schema
         || state.feature != src.record.feature || state.summary != expected
      then Some(StateDiffers)
      else None
  }

  /** Agreement holds for the committed build of the running release and for no other. */
  lemma AgreementExactly(w: World, src: Source)
    requires Reached(w) && WellFormed(w.code, src)
    ensures Disagrees(w.code, w.target, src).None?
            <==> w.last.Some? && CheckpointOf(src) == CheckpointOf(w.last.value.src)
  {
    hide Holding, SourceHashes, WellFormed, Rebuild, Rows, ConsumerHashes, Summarize, OwnTables;
    RepresentsStored(w.target, w.code, w.last);
    WellFormedRows(w.code, src);
    if w.last.Some? {
      var c := w.last.value;
      LastWellFormed(w);
      WellFormedRows(c.code, c.src);
      if CheckpointOf(src) == CheckpointOf(c.src) {
        ConsumerAgrees(w.target, w.code, w.last);
        MetadataSummarizes(c);
        SourceHashesKeys(NamesOf(c), Rows(c));
        SameFileSameRows(w.code, src, c.src);
      }
    }
  }

  lemma SameFileSameRows(code: Code, a: Source, b: Source)
    requires WellFormed(code, a) && WellFormed(code, b) && a.file == b.file
    ensures Rows(Commit(code, a)) == Rows(Commit(code, b))
  {
  }

  /* ---------- the refused re-encoding ---------- */

  const ONE_SCALAR: Registry := [Series([1], false)]

  const NOW := Code(ONE_SCALAR, SCHEMA_VERSION, FEATURE_VERSION)

  /** A one-row build whose level is a zero of either sign. */
  function ZeroBuild(build: nat, negative: bool): Source {
    var t: Timestamp := Instant(0, 0, 0);
    Source(Record(build, SCHEMA_VERSION, FEATURE_VERSION, Some(1), Some(t), Some(t), true),
           DataFile(RawFrame(RawNames(ONE_SCALAR), [RawRow(t, [Some(Double(negative, 0, 0))])]), 0))
  }

  const EPOCH: Timestamp := Instant(0, 0, 0)

  lemma OneScalarColumns()
    ensures ValidRegistry(ONE_SCALAR) && Columns(ONE_SCALAR) == [Level([1])]
  {
    assert ONE_SCALAR[..0] == [];
    assert LevelColumns(ONE_SCALAR) == LevelColumns([]) + [Level([1])];
    assert BarColumns(ONE_SCALAR) == BarColumns([]) + SeriesBars(ONE_SCALAR[0]);
  }

  lemma ZeroRows(negative: bool)
    ensures CanonicalRows(ZeroBuild(0, negative).file.frame.rows) == Some([GoldRow(EPOCH, [Some(ZERO)])])
  {
    var values: seq<Option<Double>> := [Some(Double(negative, 0, 0))];
    assert values[..0] == [];
    assert CanonicalValues(values[..0]) == Some([]);
    assert CanonicalFloat(values[0].value) == Some(ZERO);
    var one: seq<Option<Number>> := [Some(ZERO)];
    assert [] + one == one;
    assert CanonicalValues(values) == Some(one);
    var rows := ZeroBuild(0, negative).file.frame.rows;
    assert rows[..0] == [];
    assert CanonicalRows(rows[..0]) == Some([]);
    assert rows[0].values == values;
    assert [] + [GoldRow(EPOCH, one)] == [GoldRow(EPOCH, one)];
  }

  lemma ZeroShowable()
    requires |Columns(ONE_SCALAR)| == 1
    ensures Showable(ONE_SCALAR, GoldRow(EPOCH, [Some(ZERO)]))
  {
    hide Columns;
    assert [Some(ZERO)][0].Some?;
  }

  lemma EpochBounds()
    ensures First({EPOCH}) == Some(EPOCH) && Last({EPOCH}) == Some(EPOCH)
  {
  }

  lemma ZeroBuildWellFormed(build: nat, negative: bool)
    ensures WellFormed(NOW, ZeroBuild(build, negative))
    ensures Rows(Commit(NOW, ZeroBuild(build, negative))) == [GoldRow(EPOCH, [Some(ZERO)])]
  {
    hide First, Last, Columns, Showable;
    OneScalarColumns();
    ZeroRows(negative);
    ZeroShowable();
    EpochBounds();
    var src := ZeroBuild(build, negative);
    assert RawTimes(src.file.frame.rows) == {EPOCH};
  }

  /**
   A build that only flips the sign of a zero has equal canonical rows but another file hash,
   and is refused, although both builds are well-formed and their versions equal.
   */
  lemma SignOfZeroIsRefused()
    ensures Sound(Empty(NOW)) && WellFormed(NOW, ZeroBuild(1, false)) && WellFormed(NOW, ZeroBuild(2, true))
    ensures var after := Next(Empty(NOW), Synchronize(ZeroBuild(1, false), 0, NoFault));
            && after.last == Some(Commit(NOW, ZeroBuild(1, false)))
            && Sound(after)
            && Sync(NOW, after.target, ZeroBuild(2, true), 1).Err?
  {
    hide Represents, Sync, WellFormed, Rows, Columns;
    OneScalarColumns();
    EmptyReached(NOW);
    ZeroBuildWellFormed(1, false);
    ZeroBuildWellFormed(2, true);
    AcceptedExactly(NOW, Empty(NOW).target, None, ZeroBuild(1, false), 0);
    var after := Next(Empty(NOW), Synchronize(ZeroBuild(1, false), 0, NoFault));
    SynchronizeReaches(Empty(NOW), ZeroBuild(1, false), 0, NoFault);
    assert ZeroBuild(1, false).file.frame.rows[0].values[0].value.negative != ZeroBuild(2, true).file.frame.rows[0].values[0].value.negative;
    AcceptedExactly(NOW, after.target, after.last, ZeroBuild(2, true), 1);
  }

  /**
   From an empty database, after any history: either nothing is stored at all, or checkpoint and
   digest index are those of the last committed frame and consumers see exactly its rows; and the
   conformance comparison passes for that frame exactly while its release is running.
   */
  lemma FromEmpty(code: Code, events: seq<Event>)
    requires ValidRegistry(code.reg) && LegalRun(Empty(code), events)
    ensures var w := Run(Empty(code), events);
            && Reached(w)
            && (w.last.None? ==>
                  w.target.state.None? && w.target.hashes == map[] && Rebuild(w.target.tables, w.code.reg) == map[])
            && (w.last.Some? ==>
                  && WellFormed(w.last.value.code, w.last.value.src)
                  && w.target.state.Some? && w.target.state.value.checkpoint == CheckpointOf(w.last.value.src)
                  && w.target.hashes == SourceHashes(NamesOf(w.last.value), Rows(w.last.value))
                  && Rebuild(w.target.tables, w.code.reg).Keys == Times(Rows(w.last.value))
                  && (forall r :: r in Rows(w.last.value) ==>
                        At(Rebuild(w.target.tables, w.code.reg), r.timestamp)
                        == Some(if w.last.value.code.reg == w.code.reg then r.values else Served(w, r)))
                  && (w.last.value.code == w.code ==> Disagrees(w.code, w.target, w.last.value.src).None?))
  {
    hide Holding, SourceHashes, Rebuild, Rows, ConsumerHashes, Disagrees, LegalRun, Run, OwnTables, WellFormed, Served;
    hide Columns;
    EmptyReached(code);
    HistoryRepresents(Empty(code), events);
    var w := Run(Empty(code), events);
    RepresentsStored(w.target, w.code, w.last);
    CommittedRowsAreServed(w);
    if w.last.Some? {
      LastWellFormed(w);
      if w.last.value.code.reg == w.code.reg {
        forall r | r in Rows(w.last.value) ensures Served(w, r) == r.values {
          ServedUnchanged(w, r);
        }
      }
      if w.last.value.code == w.code {
        AgreementExactly(w, w.last.value.src);
      }
    }
  }
}
