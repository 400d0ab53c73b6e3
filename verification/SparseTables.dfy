/**
 One wide Gold row is stored in one sparse table per source series and rebuilt by a chain of
 full outer joins on the timestamp.
 */
module SparseTables {
  import opened Common
  import opened RowDigest

  /* ---------- registry and columns ---------- */

  datatype Field = Open | High | Low | Close

  datatype Series = Series(id: Name, ohlc: bool)

  type Registry = seq<Series>

  predicate ValidRegistry(reg: Registry) {
    && reg != []
    && forall i, j :: 0 <= i < j < |reg| ==> reg[i].id != reg[j].id
  }

  datatype Column = Level(id: Name) | Bar(id: Name, field: Field)

  function LevelColumns(reg: Registry): (cols: seq<Column>)
    ensures |cols| == |reg|
    ensures forall i :: 0 <= i < |reg| ==> cols[i] == Level(reg[i].id)
  {
    if reg == [] then [] else LevelColumns(reg[..|reg| - 1]) + [Level(reg[|reg| - 1].id)]
  }

  function SeriesBars(s: Series): seq<Column> {
    if s.ohlc then [Bar(s.id, Open), Bar(s.id, High), Bar(s.id, Low), Bar(s.id, Close)] else []
  }

  function BarColumns(reg: Registry): seq<Column> {
    if reg == [] then []
    else
      var s := reg[|reg| - 1];
      BarColumns(reg[..|reg| - 1]) + SeriesBars(s)
  }

  /** All levels in registry order, then the four native fields of each OHLC series. */
  function Columns(reg: Registry): seq<Column> {
    LevelColumns(reg) + BarColumns(reg)
  }

  predicate IsColumn(reg: Registry, c: Column) {
    exists i :: 0 <= i < |reg| && reg[i].id == c.id && (c.Bar? ==> reg[i].ohlc)
  }

  lemma IsColumnSplit(reg: Registry, c: Column)
    requires reg != []
    ensures var n := |reg| - 1;
            IsColumn(reg, c) <==> IsColumn(reg[..n], c) || (reg[n].id == c.id && (c.Bar? ==> reg[n].ohlc))
  {
    var n := |reg| - 1;
    assert forall i :: 0 <= i < n ==> reg[..n][i] == reg[i];
    if IsColumn(reg[..n], c) {
      var i :| 0 <= i < n && reg[..n][i].id == c.id && (c.Bar? ==> reg[..n][i].ohlc);
      assert reg[i] == reg[..n][i];
    }
  }

  lemma {:induction false} BarColumnsExact(reg: Registry)
    ensures forall c :: c in BarColumns(reg) <==> c.Bar? && IsColumn(reg, c)
  {
    if reg != [] {
      var n := |reg| - 1;
      BarColumnsExact(reg[..n]);
      forall c ensures c in BarColumns(reg) <==> c.Bar? && IsColumn(reg, c) {
        IsColumnSplit(reg, c);
        BarColumnsLast(reg, c);
      }
    }
  }

  lemma SeriesBarsExact(s: Series, c: Column)
    ensures c in SeriesBars(s) <==> c.Bar? && s.ohlc && s.id == c.id
  {
    if c.Bar? && s.ohlc && s.id == c.id {
      var k := FieldIndex(c.field);
      assert SeriesBars(s)[k] == c;
    }
  }

  lemma BarColumnsLast(reg: Registry, c: Column)
    requires reg != []
    ensures var n := |reg| - 1;
            c in BarColumns(reg) <==> c in BarColumns(reg[..n]) || (c.Bar? && reg[n].ohlc && reg[n].id == c.id)
  {
    hide SeriesBars;
    SeriesBarsExact(reg[|reg| - 1], c);
  }

  lemma ColumnsExact(reg: Registry)
    ensures forall c :: c in Columns(reg) <==> IsColumn(reg, c)
  {
    BarColumnsExact(reg);
    forall c ensures c in Columns(reg) <==> IsColumn(reg, c) {
      if c.Level? && IsColumn(reg, c) {
        var i :| 0 <= i < |reg| && reg[i].id == c.id;
        assert LevelColumns(reg)[i] == c;
      }
      if c.Level? && c in Columns(reg) {
        assert c in LevelColumns(reg);
      }
    }
  }

  predicate Distinct<T(==)>(xs: seq<T>) {
    forall i, j :: 0 <= i < j < |xs| ==> xs[i] != xs[j]
  }

  lemma {:induction false} BarColumnsDistinct(reg: Registry)
    requires forall i, j :: 0 <= i < j < |reg| ==> reg[i].id != reg[j].id
    ensures Distinct(BarColumns(reg))
  {
    if reg != [] {
      var n := |reg| - 1;
      BarColumnsDistinct(reg[..n]);
      BarColumnsExact(reg[..n]);
      forall c | c in BarColumns(reg[..n]) ensures c.id != reg[n].id {
        var i :| 0 <= i < n && reg[..n][i].id == c.id;
      }
    }
  }

  lemma ColumnsDistinct(reg: Registry)
    requires ValidRegistry(reg)
    ensures Distinct(Columns(reg))
  {
    BarColumnsDistinct(reg);
    BarColumnsExact(reg);
    var levels, bars := LevelColumns(reg), BarColumns(reg);
    forall i, j | 0 <= i < j < |Columns(reg)| ensures Columns(reg)[i] != Columns(reg)[j] {
      if i < |levels| <= j {
        assert bars[j - |levels|] in bars;
      }
    }
  }

  /** How many OHLC series there are. */
  function OhlcCount(reg: Registry): nat {
    |set i | 0 <= i < |reg| && reg[i].ohlc|
  }

  /**
   The order of the columns: the levels in registry order, then, again in registry order, open,
   high, low and close of each OHLC series, and nothing else.
   */
  lemma ColumnOrder(reg: Registry, k: nat)
    requires k < |reg|
    ensures |Columns(reg)| == |reg| + 4 * OhlcCount(reg)
    ensures Columns(reg)[k] == Level(reg[k].id)
    ensures reg[k].ohlc ==>
              var j := |reg| + 4 * OhlcCount(reg[..k]);
              && j + 4 <= |Columns(reg)|
              && Columns(reg)[j] == Bar(reg[k].id, Open) && Columns(reg)[j + 1] == Bar(reg[k].id, High)
              && Columns(reg)[j + 2] == Bar(reg[k].id, Low) && Columns(reg)[j + 3] == Bar(reg[k].id, Close)
  {
    hide OhlcCount, BarColumns;
    BarCount(reg);
    if reg[k].ohlc {
      BarCount(reg[..k]);
      BarPlace(reg, k);
      var bars, before := BarColumns(reg), BarColumns(reg[..k]);
      assert (before + SeriesBars(reg[k])) == bars[..|before| + 4];
    }
  }

  lemma {:induction false} BarCount(reg: Registry)
    ensures |BarColumns(reg)| == 4 * OhlcCount(reg)
  {
    if reg != [] {
      var n := |reg| - 1;
      BarCount(reg[..n]);
      var before := set i | 0 <= i < n && reg[..n][i].ohlc;
      var all := set i | 0 <= i < |reg| && reg[i].ohlc;
      assert all == if reg[n].ohlc then before + {n} else before;
    }
  }

  lemma {:induction false} BarPlace(reg: Registry, k: nat)
    requires k < |reg| && reg[k].ohlc
    ensures BarColumns(reg[..k]) + SeriesBars(reg[k]) <= BarColumns(reg)
  {
    hide SeriesBars;
    var n := |reg| - 1;
    if k < n {
      BarPlace(reg[..n], k);
      assert reg[..n][..k] == reg[..k];
    }
  }

  /* ---------- column names ---------- */

  /** _level, _open, _high, _low, _close */
  function Suffix(c: Column): Name {
    match c
    case Level(_) => [95, 108, 101, 118, 101, 108]
    case Bar(_, Open) => [95, 111, 112, 101, 110]
    case Bar(_, High) => [95, 104, 105, 103, 104]
    case Bar(_, Low) => [95, 108, 111, 119]
    case Bar(_, Close) => [95, 99, 108, 111, 115, 101]
  }

  function ColumnName(c: Column): Name {
    c.id + Suffix(c)
  }

  /** The names as text. */
  lemma ColumnNameText(id: Name)
    ensures ColumnName(Level(id)) == id + Ascii("_level")
    ensures ColumnName(Bar(id, Open)) == id + Ascii("_open") && ColumnName(Bar(id, High)) == id + Ascii("_high")
    ensures ColumnName(Bar(id, Low)) == id + Ascii("_low") && ColumnName(Bar(id, Close)) == id + Ascii("_close")
  {
  }

  /** Names identify columns, whatever the series are called. */
  lemma ColumnNameInjective(a: Column, b: Column)
    requires ColumnName(a) == ColumnName(b)
    ensures a == b
  {
    assert ColumnName(a)[|ColumnName(a)| - 1] == Suffix(a)[|Suffix(a)| - 1];
    assert ColumnName(b)[|ColumnName(b)| - 1] == Suffix(b)[|Suffix(b)| - 1];
    assert Suffix(a) == Suffix(b);
    assert a.id == ColumnName(a)[..|a.id|] == ColumnName(b)[..|b.id|] == b.id;
  }

  function Names(cols: seq<Column>): (names: seq<Name>)
    ensures |names| == |cols|
    ensures forall i :: 0 <= i < |cols| ==> names[i] == ColumnName(cols[i])
  {
    if cols == [] then [] else Names(cols[..|cols| - 1]) + [ColumnName(cols[|cols| - 1])]
  }

  lemma NamesInjective(a: seq<Column>, b: seq<Column>)
    requires Names(a) == Names(b)
    ensures a == b
  {
    assert |a| == |Names(a)| == |Names(b)| == |b|;
    forall i | 0 <= i < |a| ensures a[i] == b[i] {
      assert Names(a)[i] == Names(b)[i];
      ColumnNameInjective(a[i], b[i]);
    }
  }

  /* ---------- rows by column ---------- */

  type Values = seq<Option<Number>>

  /** dict(zip(columns, values)). */
  function ByColumn(cols: seq<Column>, values: Values): (m: map<Column, Option<Number>>)
    requires |cols| == |values|
    ensures forall c :: c in m <==> c in cols
  {
    if cols == [] then map[]
    else ByColumn(cols[..|cols| - 1], values[..|cols| - 1])[cols[|cols| - 1] := values[|cols| - 1]]
  }

  lemma {:induction false} ByColumnAt(cols: seq<Column>, values: Values, i: nat)
    requires |cols| == |values| && Distinct(cols) && i < |cols|
    ensures ByColumn(cols, values)[cols[i]] == values[i]
  {
    if i < |cols| - 1 {
      ByColumnAt(cols[..|cols| - 1], values[..|cols| - 1], i);
    }
  }

  /* ---------- sparse tables ---------- */

  /** The database columns of one row of a series table: four native fields, or one value. */
  type Stored = seq<Option<Number>>

  type Table = map<Timestamp, Stored>

  /** The tables by series. */
  type Tables = map<Name, Table>

  function Width(s: Series): nat {
    if s.ohlc then 4 else 1
  }

  predicate AnyValue(values: Values) {
    exists i :: 0 <= i < |values| && values[i].Some?
  }

  /** Stored rows have the table's width and are never entirely NULL. */
  predicate WellStored(tables: Tables, reg: Registry) {
    forall i :: 0 <= i < |reg| ==>
      && reg[i].id in tables
      && forall t :: t in tables[reg[i].id] ==>
           |tables[reg[i].id][t]| == Width(reg[i]) && AnyValue(tables[reg[i].id][t])
  }

  /** What one row writes into one series table. */
  function SourceValues(s: Series, cells: map<Column, Option<Number>>): (v: Stored)
    requires Level(s.id) in cells && (s.ohlc ==> forall f :: Bar(s.id, f) in cells)
    ensures |v| == Width(s)
  {
    if s.ohlc then [cells[Bar(s.id, Open)], cells[Bar(s.id, High)], cells[Bar(s.id, Low)], cells[Bar(s.id, Close)]]
    else [cells[Level(s.id)]]
  }

  /** An OHLC series must carry its close as its level. */
  predicate LevelIsClose(s: Series, cells: map<Column, Option<Number>>)
    requires Level(s.id) in cells && (s.ohlc ==> Bar(s.id, Close) in cells)
  {
    s.ohlc ==> cells[Level(s.id)] == cells[Bar(s.id, Close)]
  }

  /** Insert or replace; an entirely NULL row is deleted instead. */
  function Put(table: Table, t: Timestamp, values: Stored): Table {
    if AnyValue(values) then table[t := values] else table - {t}
  }

  predicate Covers(cells: map<Column, Option<Number>>, reg: Registry) {
    forall i :: 0 <= i < |reg| ==>
      Level(reg[i].id) in cells && (reg[i].ohlc ==> forall f :: Bar(reg[i].id, f) in cells)
  }

  lemma RowCovers(reg: Registry, values: Values)
    requires |values| == |Columns(reg)|
    ensures Covers(ByColumn(Columns(reg), values), reg)
  {
    ColumnsExact(reg);
    forall i | 0 <= i < |reg|
      ensures Level(reg[i].id) in Columns(reg) && (reg[i].ohlc ==> forall f :: Bar(reg[i].id, f) in Columns(reg))
    {
      assert IsColumn(reg, Level(reg[i].id));
      if reg[i].ohlc {
        forall f ensures Bar(reg[i].id, f) in Columns(reg) {
          assert IsColumn(reg, Bar(reg[i].id, f));
        }
      }
    }
  }

  /** The series whose level differs from their close, among the first n. */
  predicate LevelsAreCloses(reg: Registry, cells: map<Column, Option<Number>>)
    requires Covers(cells, reg)
  {
    forall i :: 0 <= i < |reg| ==> LevelIsClose(reg[i], cells)
  }

  /** The tables after the first n series of the registry have been written. */
  function Written(tables: Tables, reg: Registry, n: nat, t: Timestamp, cells: map<Column, Option<Number>>): (after: Tables)
    requires n <= |reg| && Covers(cells, reg) && forall i :: 0 <= i < |reg| ==> reg[i].id in tables
    ensures after.Keys == tables.Keys
  {
    if n == 0 then tables
    else
      var before := Written(tables, reg, n - 1, t, cells);
      before[reg[n - 1].id := Put(before[reg[n - 1].id], t, SourceValues(reg[n - 1], cells))]
  }

  lemma {:induction false} WrittenElsewhere(tables: Tables, reg: Registry, n: nat, t: Timestamp,
                                            cells: map<Column, Option<Number>>, id: Name)
    requires n <= |reg| && Covers(cells, reg)
    requires (forall i :: 0 <= i < |reg| ==> reg[i].id in tables) && id in tables
    requires forall i :: 0 <= i < n ==> reg[i].id != id
    ensures Written(tables, reg, n, t, cells)[id] == tables[id]
  {
    hide AnyValue, Put, SourceValues;
    if n > 0 {
      WrittenElsewhere(tables, reg, n - 1, t, cells, id);
    }
  }

  lemma {:induction false} WrittenAt(tables: Tables, reg: Registry, n: nat, k: nat, t: Timestamp,
                                     cells: map<Column, Option<Number>>)
    requires ValidRegistry(reg) && k < n <= |reg| && Covers(cells, reg)
    requires forall i :: 0 <= i < |reg| ==> reg[i].id in tables
    ensures Written(tables, reg, n, t, cells)[reg[k].id] == Put(tables[reg[k].id], t, SourceValues(reg[k], cells))
  {
    hide AnyValue, Put, SourceValues;
    if k == n - 1 {
      WrittenElsewhere(tables, reg, n - 1, t, cells, reg[k].id);
    } else {
      WrittenAt(tables, reg, n - 1, k, t, cells);
    }
  }

  /** The tables after one timestamp has been deleted from the first n of them. */
  function Cleared(tables: Tables, reg: Registry, n: nat, t: Timestamp): (after: Tables)
    requires n <= |reg| && forall i :: 0 <= i < |reg| ==> reg[i].id in tables
    ensures after.Keys == tables.Keys
  {
    if n == 0 then tables
    else
      var before := Cleared(tables, reg, n - 1, t);
      before[reg[n - 1].id := before[reg[n - 1].id] - {t}]
  }

  lemma {:induction false} ClearedElsewhere(tables: Tables, reg: Registry, n: nat, t: Timestamp, id: Name)
    requires n <= |reg| && (forall i :: 0 <= i < |reg| ==> reg[i].id in tables) && id in tables
    requires forall i :: 0 <= i < n ==> reg[i].id != id
    ensures Cleared(tables, reg, n, t)[id] == tables[id]
  {
    if n > 0 {
      ClearedElsewhere(tables, reg, n - 1, t, id);
    }
  }

  lemma {:induction false} ClearedAt(tables: Tables, reg: Registry, n: nat, k: nat, t: Timestamp)
    requires ValidRegistry(reg) && k < n <= |reg| && forall i :: 0 <= i < |reg| ==> reg[i].id in tables
    ensures Cleared(tables, reg, n, t)[reg[k].id] == tables[reg[k].id] - {t}
  {
    if k == n - 1 {
      ClearedElsewhere(tables, reg, n - 1, t, reg[k].id);
    } else {
      ClearedAt(tables, reg, n - 1, k, t);
    }
  }

  /* ---------- rebuilding by full outer joins ---------- */

  type Joined = map<Timestamp, seq<Option<Stored>>>

  /** left FULL OUTER JOIN right USING (timestamp), where left already has `width` aliases. */
  function FullOuterJoin(left: Joined, width: nat, right: Table): Joined {
    map t | t in left.Keys + right.Keys :: (if t in left then left[t] else Nulls(width)) + [At(right, t)]
  }

  function JoinChain(tables: Tables, reg: Registry, n: nat): Joined
    requires 1 <= n <= |reg| && forall i :: 0 <= i < |reg| ==> reg[i].id in tables
  {
    if n == 1 then map t | t in tables[reg[0].id] :: [Some(tables[reg[0].id][t])]
    else FullOuterJoin(JoinChain(tables, reg, n - 1), n - 1, tables[reg[n - 1].id])
  }

  /** What every table of the registry stores under one timestamp. */
  function Aliases(tables: Tables, reg: Registry, n: nat, t: Timestamp): (aliases: seq<Option<Stored>>)
    requires n <= |reg| && forall i :: 0 <= i < |reg| ==> reg[i].id in tables
    ensures |aliases| == n
    ensures forall i :: 0 <= i < n ==> aliases[i] == At(tables[reg[i].id], t)
  {
    if n == 0 then [] else Aliases(tables, reg, n - 1, t) + [At(tables[reg[n - 1].id], t)]
  }

  /** The chain has a row for t exactly when some table has one. */
  lemma {:induction false} JoinChainKeys(tables: Tables, reg: Registry, n: nat, t: Timestamp)
    requires 1 <= n <= |reg| && forall i :: 0 <= i < |reg| ==> reg[i].id in tables
    ensures t in JoinChain(tables, reg, n) <==> exists i :: 0 <= i < n && t in tables[reg[i].id]
  {
    hide Nulls;
    if n > 1 {
      JoinChainKeys(tables, reg, n - 1, t);
      assert t in JoinChain(tables, reg, n) <==> t in JoinChain(tables, reg, n - 1) || t in tables[reg[n - 1].id];
    }
  }

  lemma NullAliases(tables: Tables, reg: Registry, n: nat, t: Timestamp)
    requires n <= |reg| && forall i :: 0 <= i < |reg| ==> reg[i].id in tables
    requires forall i :: 0 <= i < n ==> t !in tables[reg[i].id]
    ensures Aliases(tables, reg, n, t) == Nulls<Stored>(n)
  {
  }

  /** A row of the chain carries what every table stores under its timestamp. */
  lemma {:induction false} JoinChainExact(tables: Tables, reg: Registry, n: nat, t: Timestamp)
    requires 1 <= n <= |reg| && forall i :: 0 <= i < |reg| ==> reg[i].id in tables
    requires t in JoinChain(tables, reg, n)
    ensures JoinChain(tables, reg, n)[t] == Aliases(tables, reg, n, t)
  {
    hide Nulls;
    if n == 1 {
      assert Aliases(tables, reg, 0, t) == [];
    } else if t in JoinChain(tables, reg, n - 1) {
      JoinChainExact(tables, reg, n - 1, t);
    } else {
      JoinChainKeys(tables, reg, n - 1, t);
      NullAliases(tables, reg, n - 1, t);
    }
  }

  function FieldIndex(f: Field): nat {
    match f case Open => 0 case High => 1 case Low => 2 case Close => 3
  }

  /** One projected column of one alias: the level of an OHLC series is its close. */
  function ProjectStored(s: Series, stored: Option<Stored>, c: Column): Option<Number> {
    if stored.None? || |stored.value| != Width(s) then None
    else match c
      case Level(_) => stored.value[if s.ohlc then 3 else 0]
      case Bar(_, f) => if s.ohlc then stored.value[FieldIndex(f)] else None
  }

  function SeriesIndex(reg: Registry, c: Column): (k: nat)
    requires IsColumn(reg, c)
    ensures k < |reg| && reg[k].id == c.id && (c.Bar? ==> reg[k].ohlc)
  {
    var n := |reg| - 1;
    IsColumnSplit(reg, c);
    if reg[n].id == c.id && (c.Bar? ==> reg[n].ohlc) then n else SeriesIndex(reg[..n], c)
  }

  function ProjectAt(reg: Registry, aliases: seq<Option<Stored>>, c: Column): Option<Number>
    requires |aliases| == |reg| && IsColumn(reg, c)
  {
    var k := SeriesIndex(reg, c);
    ProjectStored(reg[k], aliases[k], c)
  }

  function ProjectRow(reg: Registry, cols: seq<Column>, aliases: seq<Option<Stored>>): (values: Values)
    requires |aliases| == |reg| && forall c :: c in cols ==> IsColumn(reg, c)
    ensures |values| == |cols|
    ensures forall i :: 0 <= i < |cols| ==> cols[i] in cols && values[i] == ProjectAt(reg, aliases, cols[i])
  {
    if cols == [] then []
    else
      assert cols[|cols| - 1] in cols;
      ProjectRow(reg, cols[..|cols| - 1], aliases) + [ProjectAt(reg, aliases, cols[|cols| - 1])]
  }

  /** The wide row the tables hold at t. */
  function RowAt(tables: Tables, reg: Registry, t: Timestamp): (values: Values)
    requires forall i :: 0 <= i < |reg| ==> reg[i].id in tables
    ensures |values| == |Columns(reg)|
  {
    ColumnsExact(reg);
    ProjectRow(reg, Columns(reg), Aliases(tables, reg, |reg|, t))
  }

  /** The rebuilt wide rows: the joined rows with at least one value. */
  function Rebuild(tables: Tables, reg: Registry): (rows: map<Timestamp, Values>)
    requires ValidRegistry(reg) && forall i :: 0 <= i < |reg| ==> reg[i].id in tables
    ensures forall t :: t in rows ==> |rows[t]| == |Columns(reg)|
  {
    ColumnsExact(reg);
    var joined := JoinChain(tables, reg, |reg|);
    map t | t in joined && |joined[t]| == |reg| && AnyValue(ProjectRow(reg, Columns(reg), joined[t]))
      :: ProjectRow(reg, Columns(reg), joined[t])
  }

  /** The consumer relation shows exactly the timestamps whose wide row has a value. */
  lemma RebuildExact(tables: Tables, reg: Registry, t: Timestamp)
    requires ValidRegistry(reg) && forall i :: 0 <= i < |reg| ==> reg[i].id in tables
    ensures At(Rebuild(tables, reg), t)
         == if AnyValue(RowAt(tables, reg, t)) then Some(RowAt(tables, reg, t)) else None
  {
    JoinChainKeys(tables, reg, |reg|, t);
    ColumnsExact(reg);
    if t in JoinChain(tables, reg, |reg|) {
      JoinChainExact(tables, reg, |reg|, t);
    } else {
      var aliases := Aliases(tables, reg, |reg|, t);
      forall i | 0 <= i < |Columns(reg)| ensures RowAt(tables, reg, t)[i].None? {
        assert ProjectAt(reg, aliases, Columns(reg)[i]).None?;
      }
    }
  }

  /* ---------- what the tables say about one timestamp ---------- */

  /** Tables agree with a wide row at t: each series table holds exactly that row's values. */
  predicate Holds(tables: Tables, reg: Registry, t: Timestamp, cells: map<Column, Option<Number>>)
    requires Covers(cells, reg) && forall i :: 0 <= i < |reg| ==> reg[i].id in tables
  {
    forall i :: 0 <= i < |reg| ==>
      At(tables[reg[i].id], t) == if AnyValue(SourceValues(reg[i], cells)) then Some(SourceValues(reg[i], cells)) else None
  }

  predicate Absent(tables: Tables, reg: Registry, t: Timestamp)
    requires forall i :: 0 <= i < |reg| ==> reg[i].id in tables
  {
    forall i :: 0 <= i < |reg| ==> t !in tables[reg[i].id]
  }

  predicate SameAt(a: Tables, b: Tables, reg: Registry, t: Timestamp)
    requires forall i :: 0 <= i < |reg| ==> reg[i].id in a && reg[i].id in b
  {
    forall i :: 0 <= i < |reg| ==> At(a[reg[i].id], t) == At(b[reg[i].id], t)
  }

  /**
   Writing a row makes the tables hold it whatever they held for its key before, and touches
   no other key.
   */
  lemma WriteEffect(tables: Tables, reg: Registry, t: Timestamp, cells: map<Column, Option<Number>>)
    requires ValidRegistry(reg) && Covers(cells, reg) && WellStored(tables, reg)
    ensures var after := Written(tables, reg, |reg|, t, cells);
            && WellStored(after, reg)
            && Holds(after, reg, t, cells)
            && forall u :: u != t ==> SameAt(after, tables, reg, u)
  {
    var after := Written(tables, reg, |reg|, t, cells);
    forall i | 0 <= i < |reg|
      ensures after[reg[i].id] == Put(tables[reg[i].id], t, SourceValues(reg[i], cells))
    {
      WrittenAt(tables, reg, |reg|, i, t, cells);
    }
  }

  lemma ClearEffect(tables: Tables, reg: Registry, t: Timestamp)
    requires ValidRegistry(reg) && WellStored(tables, reg)
    ensures var after := Cleared(tables, reg, |reg|, t);
            && WellStored(after, reg)
            && Absent(after, reg, t)
            && forall u :: u != t ==> SameAt(after, tables, reg, u)
  {
    var after := Cleared(tables, reg, |reg|, t);
    forall i | 0 <= i < |reg| ensures after[reg[i].id] == tables[reg[i].id] - {t} {
      ClearedAt(tables, reg, |reg|, i, t);
    }
  }

  lemma SourceValueOf(s: Series, cells: map<Column, Option<Number>>, c: Column)
    requires Level(s.id) in cells && (s.ohlc ==> forall f :: Bar(s.id, f) in cells)
    requires LevelIsClose(s, cells) && c.id == s.id && (c.Bar? ==> s.ohlc)
    ensures var v := SourceValues(s, cells);
            ProjectStored(s, if AnyValue(v) then Some(v) else None, c) == cells[c]
  {
    var v := SourceValues(s, cells);
    if c.Bar? {
      assert v[FieldIndex(c.field)] == cells[c];
    } else {
      assert v[if s.ohlc then 3 else 0] == cells[c];
    }
  }

  /** Where the tables hold a row whose levels are closes, they show exactly that row. */
  lemma HeldRow(tables: Tables, reg: Registry, t: Timestamp, values: Values)
    requires ValidRegistry(reg) && |values| == |Columns(reg)|
    requires forall i :: 0 <= i < |reg| ==> reg[i].id in tables
    requires Covers(ByColumn(Columns(reg), values), reg)
    requires LevelsAreCloses(reg, ByColumn(Columns(reg), values))
    requires Holds(tables, reg, t, ByColumn(Columns(reg), values))
    ensures RowAt(tables, reg, t) == values
  {
    hide Columns, Distinct, AnyValue, SourceValues, ProjectStored;
    var cols := Columns(reg);
    ColumnsExact(reg);
    ColumnsDistinct(reg);
    forall i | 0 <= i < |cols| ensures RowAt(tables, reg, t)[i] == values[i] {
      var k := SeriesIndex(reg, cols[i]);
      SourceValueOf(reg[k], ByColumn(cols, values), cols[i]);
      ByColumnAt(cols, values, i);
    }
  }

  lemma AbsentRow(tables: Tables, reg: Registry, t: Timestamp)
    requires ValidRegistry(reg) && (forall i :: 0 <= i < |reg| ==> reg[i].id in tables) && Absent(tables, reg, t)
    ensures !AnyValue(RowAt(tables, reg, t))
  {
    var aliases := Aliases(tables, reg, |reg|, t);
    forall i | 0 <= i < |Columns(reg)| ensures RowAt(tables, reg, t)[i].None? {
      ColumnsExact(reg);
      assert ProjectAt(reg, aliases, Columns(reg)[i]).None?;
    }
  }

  /** The wide row at t depends only on what the tables hold at t. */
  lemma RowIsLocal(a: Tables, b: Tables, reg: Registry, t: Timestamp)
    requires forall i :: 0 <= i < |reg| ==> reg[i].id in a && reg[i].id in b
    requires SameAt(a, b, reg, t)
    ensures RowAt(a, reg, t) == RowAt(b, reg, t)
  {
    assert Aliases(a, reg, |reg|, t) == Aliases(b, reg, |reg|, t);
  }

  /** Equal wide rows mean equal tables: nothing is stored that the join does not show. */
  lemma RowDeterminesTables(a: Tables, b: Tables, reg: Registry, t: Timestamp)
    requires ValidRegistry(reg) && WellStored(a, reg) && WellStored(b, reg)
    requires RowAt(a, reg, t) == RowAt(b, reg, t)
    ensures SameAt(a, b, reg, t)
  {
    RowCovers(reg, RowAt(a, reg, t));
    forall k | 0 <= k < |reg| ensures At(a[reg[k].id], t) == At(b[reg[k].id], t) {
      StoredIsVisible(a, reg, t, k);
      StoredIsVisible(b, reg, t, k);
    }
  }

  /** One column of the wide row shows what the table of its series stores. */
  lemma ColumnShows(tables: Tables, reg: Registry, t: Timestamp, k: nat, c: Column)
    requires ValidRegistry(reg) && (forall i :: 0 <= i < |reg| ==> reg[i].id in tables) && k < |reg|
    requires IsColumn(reg, c) && c.id == reg[k].id
    ensures var cells := ByColumn(Columns(reg), RowAt(tables, reg, t));
            c in cells && cells[c] == ProjectStored(reg[k], At(tables[reg[k].id], t), c)
  {
    hide Columns, ProjectStored, Distinct;
    var cols, row := Columns(reg), RowAt(tables, reg, t);
    ColumnsExact(reg);
    ColumnsDistinct(reg);
    var i :| 0 <= i < |cols| && cols[i] == c;
    ByColumnAt(cols, row, i);
    assert row[i] == ProjectAt(reg, Aliases(tables, reg, |reg|, t), c);
  }

  /** The stored row of series k can be read off the wide row. */
  lemma StoredIsVisible(tables: Tables, reg: Registry, t: Timestamp, k: nat)
    requires ValidRegistry(reg) && WellStored(tables, reg) && k < |reg|
    requires Covers(ByColumn(Columns(reg), RowAt(tables, reg, t)), reg)
    ensures var v := SourceValues(reg[k], ByColumn(Columns(reg), RowAt(tables, reg, t)));
            At(tables[reg[k].id], t) == if AnyValue(v) then Some(v) else None
  {
    hide Columns, ProjectStored, RowAt, SourceValues, AnyValue;
    var cells := ByColumn(Columns(reg), RowAt(tables, reg, t));
    forall c | IsColumn(reg, c) && c.id == reg[k].id
      ensures c in cells && cells[c] == ProjectStored(reg[k], At(tables[reg[k].id], t), c)
    {
      ColumnShows(tables, reg, t, k, c);
    }
    StoredAgrees(reg, k, At(tables[reg[k].id], t), cells);
  }

  lemma StoredAgrees(reg: Registry, k: nat, stored: Option<Stored>, cells: map<Column, Option<Number>>)
    requires k < |reg| && Covers(cells, reg)
    requires stored.Some? ==> |stored.value| == Width(reg[k]) && AnyValue(stored.value)
    requires forall c :: IsColumn(reg, c) && c.id == reg[k].id ==> c in cells && cells[c] == ProjectStored(reg[k], stored, c)
    ensures stored == if AnyValue(SourceValues(reg[k], cells)) then Some(SourceValues(reg[k], cells)) else None
  {
    var s := reg[k];
    var v := SourceValues(s, cells);
    assert IsColumn(reg, Level(s.id));
    if s.ohlc {
      forall f ensures cells[Bar(s.id, f)] == ProjectStored(s, stored, Bar(s.id, f)) {
        assert IsColumn(reg, Bar(s.id, f));
      }
    }
    if stored.Some? {
      assert v == stored.value;
    }
  }
}
