/**
 From retained Bronze rows to the wide Gold frame: canonical Silver per series, then a full
 outer join over all series without filling dates.
 */
module GoldAssembly {
  import opened Common
  import opened RowDigest
  import opened SparseTables
  import opened DeltaPlan
  import opened RowWrites
  import opened SilverRows

  type Day = d: int | -719_162 <= d <= 2_932_896

  function Midnight(d: Day): Timestamp {
    Instant(d, 0, 0)
  }

  type Silver = map<Day, SilverRow>

  /* ---------- joining ---------- */

  datatype AssemblyError = MissingSeries | InvalidSilver | NonFinite

  datatype Joined = Joined(columns: seq<Column>, rows: map<Timestamp, seq<Option<Double>>>)

  predicate ValidSilver(frame: Silver) {
    forall d :: d in frame ==> FiniteNonNull(frame[d].value)
  }

  function SeriesColumns(s: Series): seq<Column> {
    [Level(s.id)] + SeriesBars(s)
  }

  function SeriesCells(s: Series, row: SilverRow): (cells: seq<Option<Double>>)
    ensures |cells| == |SeriesColumns(s)|
  {
    [row.value] + (if s.ohlc then [row.open, row.high, row.low, row.close] else [])
  }

  /** The selected columns of one Silver frame, by midnight timestamp. */
  function SeriesFrame(s: Series, frame: Silver): Joined {
    Joined(SeriesColumns(s), map d | d in frame :: Midnight(d) := SeriesCells(s, frame[d]))
  }

  /** join(how="full", coalesce=True) on the timestamp. */
  function FullJoin(a: Joined, b: Joined): Joined {
    Joined(a.columns + b.columns,
           map t | t in a.rows.Keys + b.rows.Keys ::
             (if t in a.rows then a.rows[t] else Nulls(|a.columns|)) + (if t in b.rows then b.rows[t] else Nulls(|b.columns|)))
  }

  predicate Covered(silver: map<Name, Silver>, reg: Registry) {
    forall i :: 0 <= i < |reg| ==> reg[i].id in silver
  }

  function JoinAll(silver: map<Name, Silver>, reg: Registry): Joined
    requires reg != [] && Covered(silver, reg)
  {
    var last := SeriesFrame(reg[|reg| - 1], silver[reg[|reg| - 1].id]);
    if |reg| == 1 then last else FullJoin(JoinAll(silver, reg[..|reg| - 1]), last)
  }

  /* ---------- what the join holds, column by column ---------- */

  function FieldOf(row: SilverRow, c: Column): Option<Double> {
    match c
    case Level(_) => row.value
    case Bar(_, Open) => row.open
    case Bar(_, High) => row.high
    case Bar(_, Low) => row.low
    case Bar(_, Close) => row.close
  }

  /** The cell of column c at t, straight from the Silver frame of its series. */
  function CellAt(silver: map<Name, Silver>, t: Timestamp, c: Column): Option<Double>
    requires c.id in silver
  {
    if t == Instant(t.days, 0, 0) && t.days in silver[c.id] then FieldOf(silver[c.id][t.days], c) else None
  }

  predicate Observed(silver: map<Name, Silver>, reg: Registry, t: Timestamp)
    requires Covered(silver, reg)
  {
    t == Instant(t.days, 0, 0) && exists i :: 0 <= i < |reg| && t.days in silver[reg[i].id]
  }

  predicate Rectangular(j: Joined) {
    forall t :: t in j.rows ==> |j.rows[t]| == |j.columns|
  }

  /** The join shows each observed timestamp with each column's own Silver cell. */
  ghost predicate Shows(j: Joined, silver: map<Name, Silver>, reg: Registry)
    requires Covered(silver, reg)
  {
    && Rectangular(j)
    && (forall c :: c in j.columns <==> IsColumn(reg, c))
    && (forall t :: t in j.rows <==> Observed(silver, reg, t))
    && (forall k :: 0 <= k < |j.columns| ==> j.columns[k].id in silver)
    && (forall t, k :: t in j.rows && 0 <= k < |j.columns| ==> j.rows[t][k] == CellAt(silver, t, j.columns[k]))
  }

  lemma SeriesColumnsExact(s: Series, c: Column)
    ensures c in SeriesColumns(s) <==> c.id == s.id && (c.Bar? ==> s.ohlc)
  {
    hide SeriesBars;
    SeriesBarsExact(s, c);
    assert SeriesColumns(s)[0] == Level(s.id);
  }

  lemma SeriesCell(s: Series, row: SilverRow, k: nat)
    requires k < |SeriesColumns(s)|
    ensures SeriesColumns(s)[k].id == s.id && SeriesCells(s, row)[k] == FieldOf(row, SeriesColumns(s)[k])
  {
  }

  lemma SeriesFrameShows(silver: map<Name, Silver>, s: Series)
    requires s.id in silver
    ensures Shows(SeriesFrame(s, silver[s.id]), silver, [s])
  {
    hide SeriesColumns, SeriesCells;
    var frame := silver[s.id];
    var j := SeriesFrame(s, frame);
    forall c ensures c in j.columns <==> IsColumn([s], c) {
      SeriesColumnsExact(s, c);
      assert [s][0] == s;
    }
    forall t ensures t in j.rows <==> Observed(silver, [s], t) {
      assert [s][0] == s;
      if t == Instant(t.days, 0, 0) && t.days in frame {
        var d: Day := t.days;
        assert Midnight(d) == t;
      }
    }
    forall k | 0 <= k < |j.columns| ensures j.columns[k].id in silver {
      SeriesColumnsExact(s, j.columns[k]);
    }
    forall t, k | t in j.rows && 0 <= k < |j.columns| ensures j.rows[t][k] == CellAt(silver, t, j.columns[k]) {
      var d: Day := t.days;
      SeriesCell(s, frame[d], k);
    }
  }

  lemma ObservedSplit(silver: map<Name, Silver>, reg: Registry, t: Timestamp)
    requires reg != [] && Covered(silver, reg)
    ensures var n := |reg| - 1;
            Observed(silver, reg, t) <==> Observed(silver, reg[..n], t) || Observed(silver, [reg[n]], t)
  {
    var n := |reg| - 1;
    assert forall i :: 0 <= i < n ==> reg[..n][i] == reg[i];
    assert [reg[n]][0] == reg[n];
    if Observed(silver, reg[..n], t) {
      var i :| 0 <= i < n && t.days in silver[reg[..n][i].id];
      assert t.days in silver[reg[i].id];
    }
  }

  /** A blank cell is right where the series has no observation. */
  lemma UnobservedCell(silver: map<Name, Silver>, reg: Registry, t: Timestamp, c: Column)
    requires Covered(silver, reg) && IsColumn(reg, c) && !Observed(silver, reg, t)
    ensures c.id in silver && CellAt(silver, t, c).None?
  {
    var i :| 0 <= i < |reg| && reg[i].id == c.id;
  }

  lemma FullJoinShows(silver: map<Name, Silver>, reg: Registry, a: Joined, b: Joined)
    requires |reg| > 1 && Covered(silver, reg)
    requires Shows(a, silver, reg[..|reg| - 1]) && Shows(b, silver, [reg[|reg| - 1]])
    ensures Shows(FullJoin(a, b), silver, reg)
  {
    hide IsColumn, Observed, CellAt;
    var n := |reg| - 1;
    var j := FullJoin(a, b);
    forall c ensures c in j.columns <==> IsColumn(reg, c) {
      IsColumnSplit(reg, c);
      SingleColumn(reg[n], c);
    }
    forall t ensures t in j.rows <==> Observed(silver, reg, t) {
      ObservedSplit(silver, reg, t);
    }
    forall k | 0 <= k < |j.columns| ensures j.columns[k].id in silver {
      if k >= |a.columns| {
        assert j.columns[k] == b.columns[k - |a.columns|];
      }
    }
    forall t, k | t in j.rows && 0 <= k < |j.columns| ensures j.rows[t][k] == CellAt(silver, t, j.columns[k]) {
      JoinedCell(silver, reg, a, b, t, k);
    }
  }

  lemma SingleColumn(s: Series, c: Column)
    ensures IsColumn([s], c) <==> s.id == c.id && (c.Bar? ==> s.ohlc)
  {
    assert [s][0] == s;
  }

  lemma JoinedCell(silver: map<Name, Silver>, reg: Registry, a: Joined, b: Joined, t: Timestamp, k: nat)
    requires |reg| > 1 && Covered(silver, reg)
    requires Shows(a, silver, reg[..|reg| - 1]) && Shows(b, silver, [reg[|reg| - 1]])
    requires t in FullJoin(a, b).rows && k < |a.columns + b.columns|
    ensures |FullJoin(a, b).rows[t]| == |a.columns| + |b.columns|
    ensures (a.columns + b.columns)[k].id in silver
    ensures FullJoin(a, b).rows[t][k] == CellAt(silver, t, (a.columns + b.columns)[k])
  {
    hide IsColumn, Observed, CellAt;
    if k < |a.columns| {
      assert a.columns[k] in a.columns;
      if t !in a.rows {
        UnobservedCell(silver, reg[..|reg| - 1], t, a.columns[k]);
      }
    } else {
      assert b.columns[k - |a.columns|] in b.columns;
      if t !in b.rows {
        UnobservedCell(silver, [reg[|reg| - 1]], t, b.columns[k - |a.columns|]);
      }
    }
  }

  lemma {:induction false} JoinAllShows(silver: map<Name, Silver>, reg: Registry)
    requires reg != [] && Covered(silver, reg)
    ensures Shows(JoinAll(silver, reg), silver, reg)
  {
    hide Shows, SeriesFrame, FullJoin;
    var n := |reg| - 1;
    SeriesFrameShows(silver, reg[n]);
    if n == 0 {
      assert reg == [reg[0]];
    } else {
      JoinAllShows(silver, reg[..n]);
      FullJoinShows(silver, reg, JoinAll(silver, reg[..n]), SeriesFrame(reg[n], silver[reg[n].id]));
    }
  }

  /* ---------- the canonical wide frame ---------- */

  type GoldRows = map<Timestamp, seq<Option<Double>>>

  /** fill_nan(None). */
  function FillNan(v: Option<Double>): Option<Double> {
    if v.Some? && IsNan(v.value) then None else v
  }

  function IndexOf(columns: seq<Column>, c: Column): (k: nat)
    requires c in columns
    ensures k < |columns| && columns[k] == c
  {
    if columns[|columns| - 1] == c then |columns| - 1 else IndexOf(columns[..|columns| - 1], c)
  }

  /** The named columns of one joined row, in their canonical order, without NaN. */
  function Selected(columns: seq<Column>, row: seq<Option<Double>>, wanted: seq<Column>): (r: seq<Option<Double>>)
    requires |row| == |columns| && forall c :: c in wanted ==> c in columns
    ensures |r| == |wanted|
  {
    if wanted == [] then []
    else
      Selected(columns, row, wanted[..|wanted| - 1]) + [FillNan(row[IndexOf(columns, wanted[|wanted| - 1])])]
  }

  lemma {:induction false} SelectedAt(columns: seq<Column>, row: seq<Option<Double>>, wanted: seq<Column>, i: nat)
    requires |row| == |columns| && (forall c :: c in wanted ==> c in columns) && i < |wanted|
    ensures Selected(columns, row, wanted)[i] == FillNan(row[IndexOf(columns, wanted[i])])
  {
    hide IndexOf;
    if i < |wanted| - 1 {
      SelectedAt(columns, row, wanted[..|wanted| - 1], i);
    }
  }

  predicate AllFinite(row: seq<Option<Double>>) {
    forall i :: 0 <= i < |row| && row[i].Some? ==> row[i].value.Finite()
  }

  function FirstError(silver: map<Name, Silver>, reg: Registry): (e: Option<AssemblyError>)
    ensures e.None? ==> Covered(silver, reg) && forall i :: 0 <= i < |reg| ==> ValidSilver(silver[reg[i].id])
  {
    if reg == [] then None
    else
      var before := FirstError(silver, reg[..|reg| - 1]);
      var id := reg[|reg| - 1].id;
      if before.Some? then before
      else if id !in silver then Some(MissingSeries)
      else if !ValidSilver(silver[id]) then Some(InvalidSilver)
      else
        assert forall i :: 0 <= i < |reg| - 1 ==> reg[i] == reg[..|reg| - 1][i];
        None
  }

  /** The joined rows under the canonical columns. */
  function WideRows(silver: map<Name, Silver>, reg: Registry): (rows: GoldRows)
    requires ValidRegistry(reg) && Covered(silver, reg)
    ensures forall t :: t in rows ==> |rows[t]| == |Columns(reg)|
  {
    hide JoinAll, Columns;
    JoinAllShows(silver, reg);
    ColumnsExact(reg);
    var j := JoinAll(silver, reg);
    map t | t in j.rows :: Selected(j.columns, j.rows[t], Columns(reg))
  }

  function Assemble(silver: map<Name, Silver>, reg: Registry): Result<GoldRows, AssemblyError>
    requires ValidRegistry(reg)
  {
    var error := FirstError(silver, reg);
    if error.Some? then Err(error.value)
    else
      var rows := WideRows(silver, reg);
      if exists t :: t in rows && !AllFinite(rows[t]) then Err(NonFinite) else Ok(rows)
  }

  /** The validated and selected frames, in registry order. */
  method SelectFrames(silver: map<Name, Silver>, reg: Registry) returns (r: Result<seq<Joined>, AssemblyError>)
    ensures r.Err? <==> FirstError(silver, reg).Some?
    ensures r.Err? ==> FirstError(silver, reg) == Some(r.error)
    ensures r.Ok? ==> |r.value| == |reg| && Covered(silver, reg)
    ensures r.Ok? ==> forall k :: 0 <= k < |reg| ==> r.value[k] == SeriesFrame(reg[k], silver[reg[k].id])
  {
    hide SeriesFrame;
    var frames: seq<Joined> := [];
    for i := 0 to |reg|
      invariant FirstError(silver, reg[..i]).None?
      invariant |frames| == i
      invariant forall k :: 0 <= k < i ==> reg[k].id in silver && frames[k] == SeriesFrame(reg[k], silver[reg[k].id])
    {
      assert reg[..i + 1][..i] == reg[..i] && reg[..i + 1][i] == reg[i];
      if reg[i].id !in silver {
        ErrorStands(silver, reg, i + 1);
        return Err(MissingSeries);
      }
      if !ValidSilver(silver[reg[i].id]) {
        ErrorStands(silver, reg, i + 1);
        return Err(InvalidSilver);
      }
      frames := frames + [SeriesFrame(reg[i], silver[reg[i].id])];
    }
    assert reg[..|reg|] == reg;
    r := Ok(frames);
  }

  /** The join loop, from the first frame on. */
  method JoinFrames(silver: map<Name, Silver>, reg: Registry, frames: seq<Joined>) returns (joined: Joined)
    requires reg != [] && |frames| == |reg| && Covered(silver, reg)
    requires forall k :: 0 <= k < |reg| ==> frames[k] == SeriesFrame(reg[k], silver[reg[k].id])
    ensures joined == JoinAll(silver, reg)
  {
    hide SeriesFrame, FullJoin;
    joined := frames[0];
    assert reg[..1] == [reg[0]];
    for i := 1 to |reg|
      invariant Covered(silver, reg[..i])
      invariant joined == JoinAll(silver, reg[..i])
    {
      assert reg[..i + 1][..i] == reg[..i] && reg[..i + 1][i] == reg[i];
      joined := FullJoin(joined, frames[i]);
    }
    assert reg[..|reg|] == reg;
  }

  /** Validate and select every series, join them all, order the columns, check the numbers. */
  method AssembleGoldFrame(silver: map<Name, Silver>, reg: Registry) returns (r: Result<GoldRows, AssemblyError>)
    requires ValidRegistry(reg)
    ensures r == Assemble(silver, reg)
  {
    hide Columns, SeriesFrame, JoinAll, Selected;
    var frames := SelectFrames(silver, reg);
    if frames.Err? { return Err(frames.error); }
    var joined := JoinFrames(silver, reg, frames.value);
    JoinAllShows(silver, reg);
    ColumnsExact(reg);
    var rows := map t | t in joined.rows :: Selected(joined.columns, joined.rows[t], Columns(reg));
    if exists t :: t in rows && !AllFinite(rows[t]) {
      return Err(NonFinite);
    }
    r := Ok(rows);
  }

  /** Once a prefix of the registry fails, the whole registry fails with the same error. */
  lemma {:induction false} ErrorStands(silver: map<Name, Silver>, reg: Registry, i: nat)
    requires i <= |reg| && FirstError(silver, reg[..i]).Some?
    ensures FirstError(silver, reg) == FirstError(silver, reg[..i])
  {
    if i < |reg| {
      assert reg[..|reg| - 1][..i] == reg[..i];
      ErrorStands(silver, reg[..|reg| - 1], i);
    } else {
      assert reg[..i] == reg;
    }
  }

  /** Every cell of the wide frame is the Silver cell of its own series at its own date. */
  lemma WideRowsExact(silver: map<Name, Silver>, reg: Registry)
    requires ValidRegistry(reg) && Covered(silver, reg)
    ensures forall t :: t in WideRows(silver, reg) <==> Observed(silver, reg, t)
    ensures forall t, i :: t in WideRows(silver, reg) && 0 <= i < |Columns(reg)| ==>
              Columns(reg)[i].id in silver
              && WideRows(silver, reg)[t][i] == FillNan(CellAt(silver, t, Columns(reg)[i]))
  {
    hide JoinAll, Columns, IsColumn, Observed, CellAt, Selected, FillNan;
    JoinAllShows(silver, reg);
    ColumnsExact(reg);
    var j := JoinAll(silver, reg);
    forall t, i | t in j.rows && 0 <= i < |Columns(reg)|
      ensures Columns(reg)[i].id in silver
      ensures WideRows(silver, reg)[t][i] == FillNan(CellAt(silver, t, Columns(reg)[i]))
    {
      assert Columns(reg)[i] in Columns(reg);
      SelectedAt(j.columns, j.rows[t], Columns(reg), i);
    }
  }

  /* ---------- canonical Silver assembles into showable Gold ---------- */

  /** Every registered series holds canonical rows. */
  predicate CanonicalInputs(silver: map<Name, Silver>, reg: Registry) {
    forall i :: 0 <= i < |reg| ==> reg[i].id in silver && CanonicalSeries(reg[i], silver[reg[i].id])
  }

  predicate CanonicalSeries(s: Series, frame: Silver) {
    forall d :: d in frame ==> CanonicalSilverRow(s.ohlc, frame[d])
  }

  lemma CanonicalCell(silver: map<Name, Silver>, reg: Registry, t: Timestamp, c: Column)
    requires CanonicalInputs(silver, reg) && ValidRegistry(reg) && IsColumn(reg, c)
    ensures c.id in silver
    ensures var cell := CellAt(silver, t, c);
            && (cell.Some? ==> cell.value.Finite())
            && (cell.Some? <==> t == Instant(t.days, 0, 0) && t.days in silver[c.id])
            && (c.Bar? && c.field == Close ==> cell == CellAt(silver, t, Level(c.id)))
  {
    var k :| 0 <= k < |reg| && reg[k].id == c.id && (c.Bar? ==> reg[k].ohlc);
    if t == Instant(t.days, 0, 0) && t.days in silver[c.id] {
      var d: Day := t.days;
      assert CanonicalSilverRow(reg[k].ohlc, silver[c.id][d]);
    }
  }

  lemma CanonicalIsCovered(silver: map<Name, Silver>, reg: Registry)
    requires CanonicalInputs(silver, reg)
    ensures Covered(silver, reg) && forall i :: 0 <= i < |reg| ==> ValidSilver(silver[reg[i].id])
  {
  }

  lemma {:induction false} NoError(silver: map<Name, Silver>, reg: Registry)
    requires Covered(silver, reg) && forall i :: 0 <= i < |reg| ==> ValidSilver(silver[reg[i].id])
    ensures FirstError(silver, reg).None?
  {
    if reg != [] {
      assert forall i :: 0 <= i < |reg| - 1 ==> reg[i] == reg[..|reg| - 1][i];
      NoError(silver, reg[..|reg| - 1]);
    }
  }

  /** Canonical inputs are never refused, and every wide cell is exactly the Silver cell. */
  lemma CanonicalAssembles(silver: map<Name, Silver>, reg: Registry)
    requires ValidRegistry(reg) && CanonicalInputs(silver, reg)
    ensures Covered(silver, reg) && Assemble(silver, reg) == Ok(WideRows(silver, reg))
    ensures forall t :: t in WideRows(silver, reg) ==> AllFinite(WideRows(silver, reg)[t])
    ensures forall t, i :: t in WideRows(silver, reg) && 0 <= i < |Columns(reg)| ==>
              Columns(reg)[i].id in silver && WideRows(silver, reg)[t][i] == CellAt(silver, t, Columns(reg)[i])
  {
    hide Columns, CanonicalInputs, WideRows, IsColumn;
    CanonicalIsCovered(silver, reg);
    NoError(silver, reg);
    WideRowsExact(silver, reg);
    ColumnsExact(reg);
    var rows := WideRows(silver, reg);
    forall t, i | t in rows && 0 <= i < |Columns(reg)|
      ensures Columns(reg)[i].id in silver && rows[t][i] == CellAt(silver, t, Columns(reg)[i])
      ensures rows[t][i].Some? ==> rows[t][i].value.Finite()
    {
      assert Columns(reg)[i] in Columns(reg);
      CanonicalCell(silver, reg, t, Columns(reg)[i]);
    }
    forall t | t in rows ensures AllFinite(rows[t]) {
      forall i | 0 <= i < |rows[t]| && rows[t][i].Some? ensures rows[t][i].value.Finite() {
        assert i < |Columns(reg)| && Columns(reg)[i] in Columns(reg);
        CanonicalCell(silver, reg, t, Columns(reg)[i]);
        assert rows[t][i] == CellAt(silver, t, Columns(reg)[i]);
      }
    }
  }

  /** A data file that lists the wide rows, in any order. */
  ghost predicate Lists(f: Frame, reg: Registry, rows: GoldRows) {
    && f.columns == RawNames(reg)
    && DistinctTimes(f.rows)
    && (forall k :: 0 <= k < |f.rows| ==> At(rows, f.rows[k].timestamp) == Some(f.rows[k].values))
    && (forall t :: t in rows ==> exists k :: 0 <= k < |f.rows| && f.rows[k].timestamp == t)
  }

  lemma {:induction false} FiniteValues(values: seq<Option<Double>>)
    requires AllFinite(values)
    ensures CanonicalValues(values).Some?
    ensures forall i :: 0 <= i < |values| ==>
              CanonicalValues(values).value[i] == if values[i].None? then None else CanonicalFloat(values[i].value)
  {
    if values != [] {
      assert forall i :: 0 <= i < |values| - 1 ==> values[i] == values[..|values| - 1][i];
      FiniteValues(values[..|values| - 1]);
    }
  }

  lemma {:induction false} FiniteRows(rows: seq<RawRow>)
    requires forall k :: 0 <= k < |rows| ==> AllFinite(rows[k].values)
    ensures CanonicalRows(rows).Some?
  {
    if rows != [] {
      assert forall k :: 0 <= k < |rows| - 1 ==> rows[k] == rows[..|rows| - 1][k];
      FiniteRows(rows[..|rows| - 1]);
      FiniteValues(rows[|rows| - 1].values);
    }
  }

  lemma AssembledCell(silver: map<Name, Silver>, reg: Registry, t: Timestamp,
                      c: Column) returns (i: nat)
    requires ValidRegistry(reg) && CanonicalInputs(silver, reg) && IsColumn(reg, c)
    requires Covered(silver, reg) && t in WideRows(silver, reg)
    ensures i < |Columns(reg)| && Columns(reg)[i] == c && c.id in silver
    ensures WideRows(silver, reg)[t][i] == CellAt(silver, t, c)
    ensures AllFinite(WideRows(silver, reg)[t])
  {
    hide Columns, CanonicalInputs, WideRows, IsColumn, CellAt;
    ColumnsExact(reg);
    CanonicalAssembles(silver, reg);
    i :| 0 <= i < |Columns(reg)| && Columns(reg)[i] == c;
  }

  /** An assembled row has a value, and each OHLC level is the close beside it. */
  lemma AssembledRowShowable(silver: map<Name, Silver>, reg: Registry, row: GoldRow)
    requires ValidRegistry(reg) && CanonicalInputs(silver, reg)
    requires Covered(silver, reg) && row.timestamp in WideRows(silver, reg)
    requires CanonicalValues(WideRows(silver, reg)[row.timestamp]) == Some(row.values)
    ensures |row.values| == |Columns(reg)| && Showable(reg, row)
  {
    hide Columns, CanonicalInputs, WideRows, IsColumn, CellAt, Observed, CanonicalFloat;
    var t := row.timestamp;
    ColumnsDistinct(reg);
    CanonicalAssembles(silver, reg);
    FiniteValues(WideRows(silver, reg)[t]);
    ObservedLevel(silver, reg, row);
    forall k | 0 <= k < |reg| ensures LevelIsClose(reg[k], CellsOf(reg, row)) {
      if reg[k].ohlc {
        BarIsColumn(reg, k);
        var i := AssembledCell(silver, reg, t, Level(reg[k].id));
        var j := AssembledCell(silver, reg, t, Bar(reg[k].id, Close));
        CanonicalCell(silver, reg, t, Bar(reg[k].id, Close));
        ByColumnAt(Columns(reg), row.values, i);
        ByColumnAt(Columns(reg), row.values, j);
      }
    }
  }

  lemma BarIsColumn(reg: Registry, k: nat)
    requires k < |reg|
    ensures IsColumn(reg, Level(reg[k].id)) && (reg[k].ohlc ==> IsColumn(reg, Bar(reg[k].id, Close)))
  {
  }

  /** An observed date has the level of the series that observed it. */
  lemma ObservedLevel(silver: map<Name, Silver>, reg: Registry, row: GoldRow)
    requires ValidRegistry(reg) && CanonicalInputs(silver, reg)
    requires Covered(silver, reg) && row.timestamp in WideRows(silver, reg)
    requires CanonicalValues(WideRows(silver, reg)[row.timestamp]) == Some(row.values)
    ensures AnyValue(row.values)
  {
    hide Columns, CanonicalInputs, WideRows, IsColumn, CellAt;
    var t := row.timestamp;
    WideRowsExact(silver, reg);
    var k :| 0 <= k < |reg| && t.days in silver[reg[k].id];
    BarIsColumn(reg, k);
    var i := AssembledCell(silver, reg, t, Level(reg[k].id));
    CanonicalCell(silver, reg, t, Level(reg[k].id));
    FiniteValues(WideRows(silver, reg)[t]);
    assert row.values[i].Some?;
  }

  /**
   Gold assembled from canonical Silver passes every row check of the synchronisation: it is
   never refused as non-finite, duplicated, empty in a row, or with a level beside another close.
   */
  lemma AssembledIsShowable(silver: map<Name, Silver>, reg: Registry, f: Frame)
    requires ValidRegistry(reg) && CanonicalInputs(silver, reg)
    requires Assemble(silver, reg).Ok? && Lists(f, reg, Assemble(silver, reg).value)
    ensures SourceRows(RawNames(reg), f).Ok?
    ensures var rows := SourceRows(RawNames(reg), f).value;
            Wide(reg, rows) && forall i :: 0 <= i < |rows| ==> Showable(reg, rows[i])
  {
    hide Columns, CanonicalInputs, WideRows, RawNames, Assemble, Showable;
    CanonicalAssembles(silver, reg);
    forall k | 0 <= k < |f.rows| ensures AllFinite(f.rows[k].values) {
      assert f.rows[k].timestamp in WideRows(silver, reg);
    }
    FiniteRows(f.rows);
    var rows := SourceRows(RawNames(reg), f).value;
    forall i | 0 <= i < |rows| ensures |rows[i].values| == |Columns(reg)| && Showable(reg, rows[i]) {
      CanonicalRowAt(f.rows, i);
      AssembledRowShowable(silver, reg, rows[i]);
    }
  }

  /**
   Decompose and rebuild: whatever the tables held before, writing the assembled rows succeeds
   and the outer-join chain gives back exactly the canonical source rows.
   */
  lemma PipelineRoundTrip(silver: map<Name, Silver>, reg: Registry, f: Frame,
                          tables: Tables)
    requires ValidRegistry(reg) && CanonicalInputs(silver, reg) && WellStored(tables, reg)
    requires Assemble(silver, reg).Ok? && Lists(f, reg, Assemble(silver, reg).value)
    ensures SourceRows(RawNames(reg), f).Ok? && Wide(reg, SourceRows(RawNames(reg), f).value) && Tabled(tables, reg)
    ensures var rows := SourceRows(RawNames(reg), f).value;
            var after := ApplyRows(tables, reg, rows);
            && after.Some?
            && (forall i :: 0 <= i < |rows| ==>
                  At(Rebuild(after.value, reg), rows[i].timestamp) == Some(rows[i].values))
            && (forall t :: t !in Times(rows) ==> At(Rebuild(after.value, reg), t) == At(Rebuild(tables, reg), t))
  {
    AssembledIsShowable(silver, reg, f);
    WriteThenRebuild(tables, reg, SourceRows(RawNames(reg), f).value);
  }
}
