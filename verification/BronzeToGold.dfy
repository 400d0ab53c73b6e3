/**
 From retained Bronze to what consumers read: each series' Silver after any history that ends in
 a completed build, the wide Gold rows over all series, and the rows rebuilt from the sparse tables.
 */
module BronzeToGold {
  import opened Common
  import opened RowDigest
  import opened SilverRows
  import opened SparseTables
  import opened RowWrites
  import opened GoldAssembly
  import opened DeltaPlan
  import M = MonthlyFrames
  import S = Silver

  /* ---------- dates as days since 1970-01-01 ---------- */

  const EPOCH: int := 719_163

  predicate GoldDate(d: M.Date) {
    M.ValidDate(d) && 1 <= d.year <= 9999
  }

  lemma DayInRange(d: M.Date)
    requires GoldDate(d)
    ensures -719_162 <= M.Ordinal(d) - EPOCH <= 2_932_896
  {
    hide M.DaysBeforeMonth;
    M.DayOfYear(d);
    assert M.DaysBeforeYear(1) == 0 && M.DaysBeforeYear(9999) == 3_651_694;
    if d.year > 1 {
      M.YearsGrow(1, d.year);
    }
    if d.year < 9999 {
      M.YearsGrow(d.year, 9999);
    }
  }

  function DayOf(d: M.Date): Day
    requires GoldDate(d)
  {
    DayInRange(d);
    M.Ordinal(d) - EPOCH
  }

  lemma DayIsInjective(a: M.Date, b: M.Date)
    requires GoldDate(a) && GoldDate(b) && DayOf(a) == DayOf(b)
    ensures a == b
  {
    M.OrdinalOrders(a, b);
  }

  lemma DaysDistinct()
    ensures forall a, b :: GoldDate(a) && GoldDate(b) && DayOf(a) == DayOf(b) ==> a == b
  {
    forall a, b | GoldDate(a) && GoldDate(b) && DayOf(a) == DayOf(b) ensures a == b {
      DayIsInjective(a, b);
    }
  }

  /** A Silver frame as the assembly reads it. */
  function ByDay(frame: S.SilverFrame): Silver {
    DaysDistinct();
    map d | d in frame && GoldDate(d) :: DayOf(d) := frame[d].row
  }

  lemma ByDayAt(frame: S.SilverFrame, d: M.Date)
    requires GoldDate(d)
    ensures At(ByDay(frame), DayOf(d)) == if d in frame then Some(frame[d].row) else None
  {
    hide GoldDate, DayOf;
    DaysDistinct();
  }

  /* ---------- one series ---------- */

  /** A history of ingestions and builds of one series, and the completed build that ends it. */
  datatype Story = Story(events: seq<S.Event>, lake: S.Lake, rows: seq<M.Observation<S.SilverEntry>>)

  ghost predicate Completed(s: Series, story: Story) {
    && S.Reaches(s.ohlc, S.Lake(map[], map[]), story.events, story.lake)
    && S.Fits(s.ohlc, story.lake, S.Build(story.rows))
    && S.Canonicalize(s.ohlc, story.lake.bronze).Some?
    && forall d :: d in story.lake.bronze ==> GoldDate(d)
  }

  function SilverOf(s: Series, story: Story): S.SilverFrame {
    M.ReadMonthly(S.Next(s.ohlc, story.lake, S.Build(story.rows)).silver)
  }

  /** The number that one payload gives to a wide column. */
  function PayloadCell(p: Payload, c: Column): Option<Double> {
    match (p, c)
    case (ScalarPayload(x), Level(_)) => x
    case (ScalarPayload(_), Bar(_, _)) => None
    case (BarPayload(_, _, _, close), Level(_)) => close
    case (BarPayload(o, h, l, close), Bar(_, f)) =>
      match f
      case Open => o
      case High => h
      case Low => l
      case Close => close
  }

  /** The number of one series under d in retained Bronze. */
  function BronzeCell(story: Story, d: M.Date, c: Column): Option<Double> {
    if d in story.lake.bronze then PayloadCell(story.lake.bronze[d].payload, c) else None
  }

  lemma RowShowsPayload(ohlc: bool, p: Payload, row: SilverRow, c: Column)
    requires CanonicalRow(ohlc, p).Some? && SameSilver(row, CanonicalRow(ohlc, p).value)
    requires c.Bar? ==> ohlc
    ensures SameCell(FieldOf(row, c), PayloadCell(p, c))
  {
    hide SameDouble;
  }

  /** After a completed build Silver holds exactly Bronze's dates, with canonical rows of equal numbers. */
  lemma SeriesShowsBronze(s: Series, story: Story, d: M.Date)
    requires Completed(s, story)
    ensures S.AllCanonical(s.ohlc, SilverOf(s, story))
    ensures d in SilverOf(s, story) <==> d in story.lake.bronze
    ensures d in story.lake.bronze ==>
              && CanonicalRow(s.ohlc, story.lake.bronze[d].payload).Some?
              && SameSilver(SilverOf(s, story)[d].row, CanonicalRow(s.ohlc, story.lake.bronze[d].payload).value)
  {
    hide S.Next, S.Reaches, S.Fits, CanonicalRow, SameSilver, S.AllCanonical;
    S.BuildAfterHistory(s.ohlc, story.events, story.lake, story.rows);
    var bronze := story.lake.bronze;
    if d in bronze {
      assert S.Payloads(bronze)[d] == bronze[d].payload;
      assert S.SAME_ENTRY(SilverOf(s, story)[d], S.Canonicalize(s.ohlc, bronze).value[d]);
    }
  }

  /* ---------- all series ---------- */

  /** Every registered series comes from its own story. */
  ghost predicate BuiltFrom(silver: map<Name, Silver>, reg: Registry, stories: map<Name, Story>) {
    forall i :: 0 <= i < |reg| ==>
      && reg[i].id in stories && Completed(reg[i], stories[reg[i].id])
      && reg[i].id in silver && silver[reg[i].id] == ByDay(SilverOf(reg[i], stories[reg[i].id]))
  }

  lemma BuiltIsCanonical(silver: map<Name, Silver>, reg: Registry, stories: map<Name, Story>)
    requires BuiltFrom(silver, reg, stories)
    ensures CanonicalInputs(silver, reg)
  {
    hide Completed, SilverOf, CanonicalSilverRow, GoldDate, DayOf;
    forall i | 0 <= i < |reg| ensures CanonicalSeries(reg[i], silver[reg[i].id]) {
      var frame := SilverOf(reg[i], stories[reg[i].id]);
      SeriesShowsBronze(reg[i], stories[reg[i].id], M.Date(1, 1, 1));
      forall day | day in ByDay(frame) ensures CanonicalSilverRow(reg[i].ohlc, ByDay(frame)[day]) {
        var d :| d in frame && GoldDate(d) && DayOf(d) == day;
        ByDayAt(frame, d);
      }
    }
  }

  lemma SeriesAt(silver: map<Name, Silver>, reg: Registry, stories: map<Name, Story>, d: M.Date, k: nat, c: Column)
    requires BuiltFrom(silver, reg, stories) && GoldDate(d) && k < |reg|
    requires c.id == reg[k].id && (c.Bar? ==> reg[k].ohlc)
    ensures DayOf(d) in silver[reg[k].id] <==> d in stories[reg[k].id].lake.bronze
    ensures SameCell(CellAt(silver, Midnight(DayOf(d)), c), BronzeCell(stories[reg[k].id], d, c))
  {
    hide Completed, SilverOf, GoldDate, DayOf, ByDay, PayloadCell, FieldOf, SameSilver, CanonicalRow;
    var story := stories[reg[k].id];
    ByDayAt(SilverOf(reg[k], story), d);
    SeriesShowsBronze(reg[k], story, d);
    if d in story.lake.bronze {
      RowShowsPayload(reg[k].ohlc, story.lake.bronze[d].payload, SilverOf(reg[k], story)[d].row, c);
    }
  }

  /** Some registered series has d in Bronze. */
  predicate InBronze(reg: Registry, stories: map<Name, Story>, d: M.Date) {
    exists i :: 0 <= i < |reg| && reg[i].id in stories && d in stories[reg[i].id].lake.bronze
  }

  /**
   Whatever the histories, the assembly accepts the built series, has a row at midnight of exactly
   the dates that some series retains, and each of its cells is the Bronze number of that series.
   */
  lemma GoldShowsBronze(silver: map<Name, Silver>, reg: Registry, stories: map<Name, Story>, d: M.Date, k: nat, j: nat)
    requires ValidRegistry(reg) && BuiltFrom(silver, reg, stories) && GoldDate(d)
    requires k < |reg| && j < |Columns(reg)| && Columns(reg)[j].id == reg[k].id
    ensures Covered(silver, reg) && Assemble(silver, reg) == Ok(WideRows(silver, reg))
    ensures var t := Midnight(DayOf(d));
            var rows := WideRows(silver, reg);
            && (t in rows <==> InBronze(reg, stories, d))
            && (t in rows ==> SameCell(rows[t][j], BronzeCell(stories[reg[k].id], d, Columns(reg)[j])))
  {
    hide Columns, WideRows, Assemble, BuiltFrom, BronzeCell, SameCell, CellAt, DayOf, GoldDate;
    BuiltIsCanonical(silver, reg, stories);
    CanonicalAssembles(silver, reg);
    var t := Midnight(DayOf(d));
    ObservedIsInBronze(silver, reg, stories, d);
    WideRowsExact(silver, reg);
    if t in WideRows(silver, reg) {
      ColumnsExact(reg);
      assert Columns(reg)[j] in Columns(reg);
      SeriesAt(silver, reg, stories, d, k, Columns(reg)[j]);
    }
  }

  lemma ObservedIsInBronze(silver: map<Name, Silver>, reg: Registry, stories: map<Name, Story>, d: M.Date)
    requires ValidRegistry(reg) && BuiltFrom(silver, reg, stories) && GoldDate(d) && Covered(silver, reg)
    ensures Observed(silver, reg, Midnight(DayOf(d))) <==> InBronze(reg, stories, d)
  {
    hide Completed, SilverOf, GoldDate, DayOf, ByDay, CellAt, BronzeCell;
    forall i | 0 <= i < |reg|
      ensures DayOf(d) in silver[reg[i].id] <==> d in stories[reg[i].id].lake.bronze
    {
      SeriesAt(silver, reg, stories, d, i, Level(reg[i].id));
    }
  }

  /** A rebuilt cell is the canonical form of the wide cell that was written. */
  lemma RebuiltCell(silver: map<Name, Silver>, reg: Registry, f: Frame, tables: Tables, t: Timestamp, j: nat)
    requires ValidRegistry(reg) && CanonicalInputs(silver, reg) && WellStored(tables, reg) && Covered(silver, reg)
    requires Lists(f, reg, WideRows(silver, reg)) && t in WideRows(silver, reg) && j < |Columns(reg)|
    ensures SourceRows(RawNames(reg), f).Ok? && Wide(reg, SourceRows(RawNames(reg), f).value) && Tabled(tables, reg)
    ensures var after := ApplyRows(tables, reg, SourceRows(RawNames(reg), f).value);
            var cell := WideRows(silver, reg)[t][j];
            && after.Some?
            && t in Rebuild(after.value, reg)
            && Rebuild(after.value, reg)[t][j] == if cell.None? then None else CanonicalFloat(cell.value)
  {
    hide Columns, WideRows, Assemble, RawNames, Rebuild, ApplyRows, CanonicalInputs, WellStored, CanonicalFloat, Wide, Tabled;
    CanonicalAssembles(silver, reg);
    PipelineRoundTrip(silver, reg, f, tables);
    var i :| 0 <= i < |f.rows| && f.rows[i].timestamp == t;
    var rows := SourceRows(RawNames(reg), f).value;
    CanonicalRowAt(f.rows, i);
    FiniteValues(f.rows[i].values);
    assert At(Rebuild(ApplyRows(tables, reg, rows).value, reg), rows[i].timestamp) == Some(rows[i].values);
  }

  /**
   The same numbers reach consumers: after the assembled rows are written over any tables, the
   rebuilt row of every retained date shows each Bronze number, with a zero unsigned.
   */
  lemma ConsumersReadBronze(silver: map<Name, Silver>, reg: Registry, stories: map<Name, Story>, f: Frame, tables: Tables,
                            d: M.Date, k: nat, j: nat)
    requires ValidRegistry(reg) && BuiltFrom(silver, reg, stories) && GoldDate(d) && InBronze(reg, stories, d)
    requires k < |reg| && j < |Columns(reg)| && Columns(reg)[j].id == reg[k].id
    requires WellStored(tables, reg) && Covered(silver, reg) && Lists(f, reg, WideRows(silver, reg))
    ensures SourceRows(RawNames(reg), f).Ok? && Wide(reg, SourceRows(RawNames(reg), f).value) && Tabled(tables, reg)
    ensures var after := ApplyRows(tables, reg, SourceRows(RawNames(reg), f).value);
            var number := BronzeCell(stories[reg[k].id], d, Columns(reg)[j]);
            && after.Some?
            && Midnight(DayOf(d)) in Rebuild(after.value, reg)
            && Rebuild(after.value, reg)[Midnight(DayOf(d))][j]
               == if number.None? then None else CanonicalFloat(number.value)
  {
    var number := BronzeCell(stories[reg[k].id], d, Columns(reg)[j]);
    hide Columns, WideRows, Assemble, BuiltFrom, BronzeCell, DayOf, GoldDate, RawNames, InBronze, Rebuild, ApplyRows;
    hide Lists, WellStored, CanonicalInputs, SourceRows, Wide, Tabled, SameDouble, CanonicalFloat;
    BuiltIsCanonical(silver, reg, stories);
    GoldShowsBronze(silver, reg, stories, d, k, j);
    var t := Midnight(DayOf(d));
    RebuiltCell(silver, reg, f, tables, t, j);
    BronzeCellFinite(silver, reg, stories, d, k, j);
    CanonicalAssembles(silver, reg);
    var cell := WideRows(silver, reg)[t][j];
    if number.Some? {
      assert AllFinite(WideRows(silver, reg)[t]) && cell.value.Finite();
      SameDoubleExact(cell.value, number.value);
    }
  }

  lemma BronzeCellFinite(silver: map<Name, Silver>, reg: Registry, stories: map<Name, Story>, d: M.Date, k: nat, j: nat)
    requires ValidRegistry(reg) && BuiltFrom(silver, reg, stories)
    requires k < |reg| && j < |Columns(reg)| && Columns(reg)[j].id == reg[k].id
    ensures var number := BronzeCell(stories[reg[k].id], d, Columns(reg)[j]);
            number.Some? ==> number.value.Finite()
  {
    hide Columns, SilverOf, ByDay, SameSilver, SameCell, Completed;
    SeriesShowsBronze(reg[k], stories[reg[k].id], d);
  }
}
