/**
 Applying many rows to the sparse tables, and what the rebuilt consumer rows then say.
 */
module RowWrites {
  import opened Common
  import opened RowDigest
  import opened SparseTables
  import opened DeltaPlan

  type Cells = map<Column, Option<Number>>

  predicate Tabled(tables: Tables, reg: Registry) {
    forall i :: 0 <= i < |reg| ==> reg[i].id in tables
  }

  predicate Wide(reg: Registry, rows: seq<GoldRow>) {
    Sized(rows, |Columns(reg)|)
  }

  /** The row's cells by column. */
  function CellsOf(reg: Registry, row: GoldRow): (cells: Cells)
    requires |row.values| == |Columns(reg)|
    ensures Covers(cells, reg)
  {
    RowCovers(reg, row.values);
    ByColumn(Columns(reg), row.values)
  }

  /** Every OHLC level of the row equals the close beside it. */
  predicate LevelsMatch(reg: Registry, row: GoldRow)
    requires |row.values| == |Columns(reg)|
  {
    LevelsAreCloses(reg, CellsOf(reg, row))
  }

  function ApplyRow(tables: Tables, reg: Registry, row: GoldRow): (after: Option<Tables>)
    requires Tabled(tables, reg) && |row.values| == |Columns(reg)|
    ensures after.Some? ==> after.value.Keys == tables.Keys
  {
    if LevelsMatch(reg, row) then Some(Written(tables, reg, |reg|, row.timestamp, CellsOf(reg, row))) else None
  }

  /** All rows in order; None as soon as one is refused. */
  function ApplyRows(tables: Tables, reg: Registry, rows: seq<GoldRow>): (after: Option<Tables>)
    requires Tabled(tables, reg) && Wide(reg, rows)
    ensures after.Some? ==> after.value.Keys == tables.Keys
  {
    if rows == [] then Some(tables)
    else
      var before := ApplyRows(tables, reg, rows[..|rows| - 1]);
      if before.None? then None else ApplyRow(before.value, reg, rows[|rows| - 1])
  }

  predicate Registered(reg: Registry, id: Name) {
    exists i :: 0 <= i < |reg| && reg[i].id == id
  }

  /** The tables without the deleted timestamps. */
  function ClearAll(tables: Tables, reg: Registry, gone: set<Timestamp>): (after: Tables)
    requires Tabled(tables, reg)
    ensures after.Keys == tables.Keys
  {
    map id | id in tables :: if Registered(reg, id) then tables[id] - gone else tables[id]
  }

  lemma DropOneMore(table: Table, gone: set<Timestamp>, t: Timestamp)
    ensures table - gone - {t} == table - (gone + {t})
  {
  }

  lemma ClearedEntry(tables: Tables, reg: Registry, gone: set<Timestamp>, t: Timestamp, id: Name)
    requires ValidRegistry(reg) && Tabled(tables, reg) && id in tables
    ensures Cleared(ClearAll(tables, reg, gone), reg, |reg|, t)[id] == ClearAll(tables, reg, gone + {t})[id]
  {
    hide Cleared;
    if Registered(reg, id) {
      var k :| 0 <= k < |reg| && reg[k].id == id;
      ClearedAt(ClearAll(tables, reg, gone), reg, |reg|, k, t);
      DropOneMore(tables[id], gone, t);
    } else {
      ClearedElsewhere(ClearAll(tables, reg, gone), reg, |reg|, t, id);
    }
  }

  /** Deleting one more timestamp everywhere. */
  lemma ClearOneMore(tables: Tables, reg: Registry, gone: set<Timestamp>, t: Timestamp)
    requires ValidRegistry(reg) && Tabled(tables, reg)
    ensures Cleared(ClearAll(tables, reg, gone), reg, |reg|, t) == ClearAll(tables, reg, gone + {t})
  {
    hide Cleared, ClearAll;
    var after := ClearAll(tables, reg, gone + {t});
    forall id | id in tables ensures Cleared(ClearAll(tables, reg, gone), reg, |reg|, t)[id] == after[id] {
      ClearedEntry(tables, reg, gone, t, id);
    }
  }

  /* ---------- effects on what the tables hold ---------- */

  /** The tables hold the row under its timestamp. */
  predicate HoldsRow(tables: Tables, reg: Registry, row: GoldRow)
    requires Tabled(tables, reg) && |row.values| == |Columns(reg)|
  {
    Holds(tables, reg, row.timestamp, CellsOf(reg, row))
  }

  lemma HeldElsewhere(a: Tables, b: Tables, reg: Registry, row: GoldRow)
    requires Tabled(a, reg) && Tabled(b, reg) && |row.values| == |Columns(reg)|
    requires SameAt(a, b, reg, row.timestamp) && HoldsRow(b, reg, row)
    ensures HoldsRow(a, reg, row)
  {
    hide CellsOf, SourceValues, AnyValue;
  }

  /** Rows are refused exactly when some OHLC level differs from its close. */
  lemma {:induction false} ApplyRowsRefuses(tables: Tables, reg: Registry, rows: seq<GoldRow>)
    requires Tabled(tables, reg) && Wide(reg, rows)
    ensures ApplyRows(tables, reg, rows).Some? <==> forall i :: 0 <= i < |rows| ==> LevelsMatch(reg, rows[i])
  {
    hide LevelsMatch, Written;
    if rows != [] {
      var n := |rows| - 1;
      ApplyRowsRefuses(tables, reg, rows[..n]);
      assert forall i :: 0 <= i < n ==> rows[..n][i] == rows[i];
    }
  }

  lemma {:induction false} ApplyRowsStored(tables: Tables, reg: Registry, rows: seq<GoldRow>)
    requires ValidRegistry(reg) && WellStored(tables, reg) && Wide(reg, rows)
    ensures var after := ApplyRows(tables, reg, rows); after.Some? ==> WellStored(after.value, reg)
  {
    hide CellsOf, LevelsMatch, Columns;
    if rows != [] {
      var n := |rows| - 1;
      ApplyRowsStored(tables, reg, rows[..n]);
      var before := ApplyRows(tables, reg, rows[..n]);
      if before.Some? {
        WriteEffect(before.value, reg, rows[n].timestamp, CellsOf(reg, rows[n]));
      }
    }
  }

  lemma {:induction false} ApplyRowsElsewhere(tables: Tables, reg: Registry, rows: seq<GoldRow>, t: Timestamp)
    requires ValidRegistry(reg) && WellStored(tables, reg) && Wide(reg, rows)
    requires ApplyRows(tables, reg, rows).Some? && t !in Times(rows)
    ensures SameAt(ApplyRows(tables, reg, rows).value, tables, reg, t)
  {
    hide CellsOf, LevelsMatch, Columns, Written, Times, AnyValue;
    if rows != [] {
      var n := |rows| - 1;
      TimesSplit(rows, n);
      ApplyRowsStored(tables, reg, rows[..n]);
      ApplyRowsElsewhere(tables, reg, rows[..n], t);
      var before := ApplyRows(tables, reg, rows[..n]).value;
      WriteEffect(before, reg, rows[n].timestamp, CellsOf(reg, rows[n]));
      SameThrough(ApplyRows(tables, reg, rows).value, before, tables, reg, t);
    }
  }

  lemma SameThrough(a: Tables, b: Tables, c: Tables, reg: Registry, t: Timestamp)
    requires Tabled(a, reg) && Tabled(b, reg) && Tabled(c, reg)
    requires SameAt(a, b, reg, t) && SameAt(b, c, reg, t)
    ensures SameAt(a, c, reg, t)
  {
  }

  predicate OneRowPerKey(rows: seq<GoldRow>) {
    forall i, j :: 0 <= i < j < |rows| && rows[i].timestamp == rows[j].timestamp ==> rows[i] == rows[j]
  }

  lemma {:induction false} ApplyRowsHold(tables: Tables, reg: Registry, rows: seq<GoldRow>, i: nat)
    requires ValidRegistry(reg) && WellStored(tables, reg) && Wide(reg, rows) && OneRowPerKey(rows)
    requires ApplyRows(tables, reg, rows).Some? && i < |rows|
    ensures HoldsRow(ApplyRows(tables, reg, rows).value, reg, rows[i])
  {
    hide CellsOf, LevelsMatch, Columns;
    var n := |rows| - 1;
    ApplyRowsStored(tables, reg, rows[..n]);
    var before := ApplyRows(tables, reg, rows[..n]).value;
    WriteEffect(before, reg, rows[n].timestamp, CellsOf(reg, rows[n]));
    if i < n && rows[i].timestamp != rows[n].timestamp {
      ApplyRowsHold(tables, reg, rows[..n], i);
      HeldElsewhere(ApplyRows(tables, reg, rows).value, before, reg, rows[i]);
    }
  }

  lemma ClearAllEffect(tables: Tables, reg: Registry, gone: set<Timestamp>)
    requires WellStored(tables, reg)
    ensures WellStored(ClearAll(tables, reg, gone), reg)
    ensures forall t :: t in gone ==> Absent(ClearAll(tables, reg, gone), reg, t)
    ensures forall t :: t !in gone ==> SameAt(ClearAll(tables, reg, gone), tables, reg, t)
  {
    hide AnyValue;
    var after := ClearAll(tables, reg, gone);
    forall i | 0 <= i < |reg| ensures after[reg[i].id] == tables[reg[i].id] - gone {
      assert Registered(reg, reg[i].id);
    }
  }

  /* ---------- consumer rows ---------- */

  function RawNames(reg: Registry): (names: seq<Name>)
    ensures |names| == |Columns(reg)|
  {
    Names(Columns(reg))
  }

  /** The digests of the rebuilt wide rows. */
  function ConsumerHashes(tables: Tables, reg: Registry): (hashes: Hashes)
    requires ValidRegistry(reg) && Tabled(tables, reg)
    ensures hashes.Keys == Rebuild(tables, reg).Keys
  {
    var rows := Rebuild(tables, reg);
    map t | t in rows :: RowSha256(RawNames(reg), GoldRow(t, rows[t]))
  }

  /** The tables show t as a row with these values, or as no row. */
  lemma ShownAt(tables: Tables, reg: Registry, t: Timestamp)
    requires ValidRegistry(reg) && Tabled(tables, reg)
    ensures At(ConsumerHashes(tables, reg), t)
         == if AnyValue(RowAt(tables, reg, t)) then Some(RowSha256(RawNames(reg), GoldRow(t, RowAt(tables, reg, t))))
            else None
  {
    hide RowSha256, RowAt, Columns, Rebuild, AnyValue;
    RebuildExact(tables, reg, t);
  }

  /** Every row can be seen by a consumer: it has a value, and its levels are its closes. */
  predicate Showable(reg: Registry, row: GoldRow)
    requires |row.values| == |Columns(reg)|
  {
    AnyValue(row.values) && LevelsMatch(reg, row)
  }

  /** A table row is never invisible: no visible value means nothing is stored. */
  lemma NothingShown(tables: Tables, reg: Registry, t: Timestamp)
    requires ValidRegistry(reg) && WellStored(tables, reg) && !AnyValue(RowAt(tables, reg, t))
    ensures Absent(tables, reg, t)
  {
    hide RowAt, ProjectStored;
    var row := RowAt(tables, reg, t);
    RowCovers(reg, row);
    forall k | 0 <= k < |reg| ensures t !in tables[reg[k].id] {
      StoredIsVisible(tables, reg, t, k);
      NoValueNoStore(reg, k, row);
    }
  }

  lemma NoValueNoCell(cols: seq<Column>, row: Values, c: Column)
    requires |row| == |cols| && Distinct(cols) && !AnyValue(row) && c in cols
    ensures ByColumn(cols, row)[c].None?
  {
    var i :| 0 <= i < |cols| && cols[i] == c;
    ByColumnAt(cols, row, i);
  }

  lemma NoValueNoStore(reg: Registry, k: nat, row: Values)
    requires ValidRegistry(reg) && |row| == |Columns(reg)| && k < |reg| && !AnyValue(row)
    requires Covers(ByColumn(Columns(reg), row), reg)
    ensures !AnyValue(SourceValues(reg[k], ByColumn(Columns(reg), row)))
  {
    hide Columns, Distinct, AnyValue, SourceValues;
    var cols := Columns(reg);
    ColumnsDistinct(reg);
    var cells := ByColumn(cols, row);
    NoValueNoCell(cols, row, Level(reg[k].id));
    if reg[k].ohlc {
      forall f ensures cells[Bar(reg[k].id, f)].None? {
        NoValueNoCell(cols, row, Bar(reg[k].id, f));
      }
    }
    NoneStored(reg[k], cells);
  }

  lemma NoneStored(s: Series, cells: Cells)
    requires Level(s.id) in cells && cells[Level(s.id)].None?
    requires s.ohlc ==> forall f :: Bar(s.id, f) in cells && cells[Bar(s.id, f)].None?
    ensures !AnyValue(SourceValues(s, cells))
  {
    if s.ohlc {
      assert forall f :: cells[Bar(s.id, f)].None?;
    }
  }

  /** A rebuilt row always has its levels equal to its closes. */
  lemma RowAtLevels(tables: Tables, reg: Registry, t: Timestamp)
    requires ValidRegistry(reg) && Tabled(tables, reg)
    ensures LevelsMatch(reg, GoldRow(t, RowAt(tables, reg, t)))
  {
    hide Columns, RowAt, SourceValues;
    var row := RowAt(tables, reg, t);
    RowCovers(reg, row);
    forall k | 0 <= k < |reg| ensures LevelIsClose(reg[k], ByColumn(Columns(reg), row)) {
      if reg[k].ohlc {
        assert IsColumn(reg, Level(reg[k].id)) && IsColumn(reg, Bar(reg[k].id, Close));
        ColumnShows(tables, reg, t, k, Level(reg[k].id));
        ColumnShows(tables, reg, t, k, Bar(reg[k].id, Close));
      }
    }
  }

  /** Tables show exactly the row they hold, and hold exactly the row they show. */
  lemma HeldIffShown(tables: Tables, reg: Registry, row: GoldRow)
    requires ValidRegistry(reg) && WellStored(tables, reg) && |row.values| == |Columns(reg)|
    ensures HoldsRow(tables, reg, row) && LevelsMatch(reg, row) <==> RowAt(tables, reg, row.timestamp) == row.values
  {
    if RowAt(tables, reg, row.timestamp) == row.values {
      ShownIsHeld(tables, reg, row);
      RowAtLevels(tables, reg, row.timestamp);
    } else if HoldsRow(tables, reg, row) && LevelsMatch(reg, row) {
      HeldRow(tables, reg, row.timestamp, row.values);
    }
  }

  lemma ShownIsHeld(tables: Tables, reg: Registry, row: GoldRow)
    requires ValidRegistry(reg) && WellStored(tables, reg) && |row.values| == |Columns(reg)|
    requires RowAt(tables, reg, row.timestamp) == row.values
    ensures HoldsRow(tables, reg, row)
  {
    hide Columns, RowAt, SourceValues, AnyValue, ByColumn;
    forall k | 0 <= k < |reg|
      ensures At(tables[reg[k].id], row.timestamp)
           == if AnyValue(SourceValues(reg[k], CellsOf(reg, row))) then Some(SourceValues(reg[k], CellsOf(reg, row))) else None
    {
      RowCovers(reg, row.values);
      StoredIsVisible(tables, reg, row.timestamp, k);
    }
  }

  /* ---------- tables that carry exactly a set of rows ---------- */

  /** The tables hold these rows and nothing else. */
  ghost predicate Carry(tables: Tables, reg: Registry, rows: seq<GoldRow>)
    requires Wide(reg, rows)
  {
    && WellStored(tables, reg)
    && (forall i :: 0 <= i < |rows| ==> HoldsRow(tables, reg, rows[i]))
    && (forall t :: t !in Times(rows) ==> Absent(tables, reg, t))
  }

  /** Carrying showable rows means that the consumer digests are exactly theirs. */
  lemma CarryShows(tables: Tables, reg: Registry, rows: seq<GoldRow>)
    requires ValidRegistry(reg) && Wide(reg, rows) && DistinctKeys(rows)
    requires forall i :: 0 <= i < |rows| ==> Showable(reg, rows[i])
    requires Carry(tables, reg, rows)
    ensures ConsumerHashes(tables, reg) == SourceHashes(RawNames(reg), rows)
  {
    hide RowSha256, RowAt, Columns, Rebuild, AnyValue, CellsOf, SourceHashes, ConsumerHashes;
    var shown, source := ConsumerHashes(tables, reg), SourceHashes(RawNames(reg), rows);
    SourceHashesKeys(RawNames(reg), rows);
    forall t ensures At(shown, t) == At(source, t) {
      ShownAt(tables, reg, t);
      if t in Times(rows) {
        var i :| 0 <= i < |rows| && rows[i].timestamp == t;
        HeldIffShown(tables, reg, rows[i]);
        SourceHashesAt(RawNames(reg), rows, i);
      } else {
        AbsentRow(tables, reg, t);
      }
    }
    SameEntries(shown, source);
  }

  /** The post-write digest comparison alone proves that the tables carry exactly the rows. */
  lemma ShowsCarry(tables: Tables, reg: Registry, rows: seq<GoldRow>)
    requires ValidRegistry(reg) && WellStored(tables, reg) && Wide(reg, rows) && DistinctKeys(rows)
    requires ConsumerHashes(tables, reg) == SourceHashes(RawNames(reg), rows)
    ensures Carry(tables, reg, rows)
    ensures forall i :: 0 <= i < |rows| ==> Showable(reg, rows[i])
  {
    hide RowSha256, RowAt, Columns, Rebuild, AnyValue, CellsOf, SourceHashes, ConsumerHashes, LevelsMatch;
    var names := RawNames(reg);
    SourceHashesKeys(names, rows);
    forall i | 0 <= i < |rows| ensures HoldsRow(tables, reg, rows[i]) && Showable(reg, rows[i]) {
      var t := rows[i].timestamp;
      ShownAt(tables, reg, t);
      SourceHashesAt(names, rows, i);
      DigestDeterminesRow(names, GoldRow(t, RowAt(tables, reg, t)), names, rows[i]);
      HeldIffShown(tables, reg, rows[i]);
    }
    forall t | t !in Times(rows) ensures Absent(tables, reg, t) {
      ShownAt(tables, reg, t);
      NothingShown(tables, reg, t);
    }
  }

  /** Showable rows are written without refusal, read back exactly, and leave other keys alone. */
  lemma WriteThenRebuild(tables: Tables, reg: Registry, rows: seq<GoldRow>)
    requires ValidRegistry(reg) && WellStored(tables, reg) && Wide(reg, rows) && DistinctKeys(rows)
    requires forall i :: 0 <= i < |rows| ==> Showable(reg, rows[i])
    ensures Tabled(tables, reg)
    ensures var after := ApplyRows(tables, reg, rows);
            && after.Some?
            && (forall i :: 0 <= i < |rows| ==>
                  At(Rebuild(after.value, reg), rows[i].timestamp) == Some(rows[i].values))
            && (forall t :: t !in Times(rows) ==> At(Rebuild(after.value, reg), t) == At(Rebuild(tables, reg), t))
  {
    hide Columns, AnyValue, RowAt, Rebuild, CellsOf, LevelsMatch, ApplyRows;
    ApplyRowsRefuses(tables, reg, rows);
    ApplyRowsStored(tables, reg, rows);
    var after := ApplyRows(tables, reg, rows).value;
    forall i | 0 <= i < |rows| ensures At(Rebuild(after, reg), rows[i].timestamp) == Some(rows[i].values) {
      ApplyRowsHold(tables, reg, rows, i);
      HeldIffShown(after, reg, rows[i]);
      RebuildExact(after, reg, rows[i].timestamp);
    }
    forall t | t !in Times(rows) ensures At(Rebuild(after, reg), t) == At(Rebuild(tables, reg), t) {
      ApplyRowsElsewhere(tables, reg, rows, t);
      RowIsLocal(after, tables, reg, t);
      RebuildExact(after, reg, t);
      RebuildExact(tables, reg, t);
    }
  }
}
