/**
 Building one Silver series from retained Bronze by monthly upserts, with builds that may stop
 between two file writes.
 */
module Silver {
  import opened Common
  import opened SilverRows
  import opened MonthlyFrames
  import opened BronzeFrames

  /** A Silver row carries the fetch time of its Bronze row. */
  datatype SilverEntry = SilverEntry(row: SilverRow, fetchedAt: int)

  type SilverFrame = Frame<SilverEntry>

  const SAME_ENTRY: Equality<SilverEntry> :=
    (a: SilverEntry, b: SilverEntry) => SameSilver(a.row, b.row) && a.fetchedAt == b.fetchedAt

  function Payloads(bronze: Bronze): map<Date, Payload> {
    map d | d in bronze :: bronze[d].payload
  }

  /** The canonical rows of a Bronze frame with their fetch times, refused if any row is. */
  function Canonicalize(ohlc: bool, bronze: Bronze): (r: Option<SilverFrame>)
    ensures r.Some? ==> r.value.Keys == bronze.Keys
  {
    match CanonicalizeRows(ohlc, Payloads(bronze))
    case None => None
    case Some(rows) => Some(map d | d in bronze :: SilverEntry(rows[d], bronze[d].fetchedAt))
  }

  /** The same dates with equal rows, as the merge compares them. */
  ghost predicate SameFrame(a: SilverFrame, b: SilverFrame) {
    a.Keys == b.Keys && forall d :: d in a ==> SAME_ENTRY(a[d], b[d])
  }

  ghost predicate AllCanonical(ohlc: bool, frame: SilverFrame) {
    forall d :: d in frame ==> CanonicalSilverRow(ohlc, frame[d].row)
  }

  /** Every Bronze date, with the numbers of its canonical row and the fetch time of its Bronze row, and no other date. */
  ghost predicate ShowsBronze(ohlc: bool, frame: SilverFrame, bronze: Bronze) {
    && frame.Keys == bronze.Keys
    && forall d :: d in frame ==>
         && CanonicalRow(ohlc, bronze[d].payload).Some?
         && SameSilver(frame[d].row, CanonicalRow(ohlc, bronze[d].payload).value)
         && frame[d].fetchedAt == bronze[d].fetchedAt
  }

  lemma SameFrameShows(ohlc: bool, frame: SilverFrame, bronze: Bronze)
    requires Canonicalize(ohlc, bronze).Some? && SameFrame(frame, Canonicalize(ohlc, bronze).value)
    ensures ShowsBronze(ohlc, frame, bronze)
  {
    hide CanonicalRow, SameSilver;
    forall d | d in frame
      ensures CanonicalRow(ohlc, bronze[d].payload).Some?
      ensures SameSilver(frame[d].row, CanonicalRow(ohlc, bronze[d].payload).value)
      ensures frame[d].fetchedAt == bronze[d].fetchedAt
    {
      assert Payloads(bronze)[d] == bronze[d].payload;
    }
  }

  lemma CanonicalizeIsCanonical(ohlc: bool, bronze: Bronze)
    requires Canonicalize(ohlc, bronze).Some?
    ensures AllCanonical(ohlc, Canonicalize(ohlc, bronze).value)
  {
    hide CanonicalRow;
    forall d | d in bronze ensures CanonicalSilverRow(ohlc, Canonicalize(ohlc, bronze).value[d].row) {
      CanonicalizedRows(ohlc, Payloads(bronze), d);
    }
  }

  /** Every row of a frame, once. */
  predicate Enumerates(rows: seq<Observation<SilverEntry>>, frame: SilverFrame) {
    && UniqueDates(rows)
    && (forall o :: o in rows ==> At(frame, o.date) == Some(o.row))
    && (forall d :: d in frame ==> d in Dates(rows))
  }

  /** Silver holds canonical rows, and no date that Bronze does not. */
  ghost predicate Within(ohlc: bool, files: Files<SilverEntry>, bronze: Bronze) {
    Monthly(files) && ReadMonthly(files).Keys <= bronze.Keys && AllCanonical(ohlc, ReadMonthly(files))
  }

  /** Merging a candidate that covers all stored dates yields a frame equal to the candidate. */
  lemma MergeCovering(existing: SilverFrame, candidate: SilverFrame, rows: seq<Observation<SilverEntry>>)
    requires Enumerates(rows, candidate) && existing.Keys <= candidate.Keys
    ensures MergeFrames(SAME_ENTRY, existing, rows).Ok?
    ensures SameFrame(MergeFrames(SAME_ENTRY, existing, rows).value.frame, candidate)
    ensures forall d :: d in candidate ==>
              At(MergeFrames(SAME_ENTRY, existing, rows).value.frame, d) in {At(existing, d), At(candidate, d)}
  {
    hide MergeFrames, SameSilver;
    MergeAccepts(existing, rows);
    var merged := MergeFrames(SAME_ENTRY, existing, rows).value.frame;
    forall d ensures d in merged <==> d in candidate
             ensures d in candidate ==> SAME_ENTRY(merged[d], candidate[d])
             ensures d in candidate ==> At(merged, d) in {At(existing, d), At(candidate, d)} {
      MergeAt(SAME_ENTRY, existing, rows, d);
      if d in Dates(rows) {
        var o :| o in rows && o.date == d;
        SilverItself(o.row.row);
      }
    }
  }

  lemma SilverItself(row: SilverRow)
    ensures SameSilver(row, row)
  {
  }

  lemma MergeAccepts(existing: SilverFrame, rows: seq<Observation<SilverEntry>>)
    requires UniqueDates(rows)
    ensures MergeFrames(SAME_ENTRY, existing, rows).Ok?
  {
  }

  /** Stopping after any subset of the writes keeps Silver canonical and within Bronze. */
  lemma PartialStaysWithin(files: Files<SilverEntry>, bronze: Bronze, ohlc: bool, frame: SilverFrame, done: set<Month>)
    requires Within(ohlc, files, bronze) && frame.Keys <= bronze.Keys && AllCanonical(ohlc, frame)
    ensures Within(ohlc, WriteMonths(files, frame, done), bronze)
  {
    hide CanonicalSilverRow;
    var after := WriteMonths(files, frame, done);
    forall d | d in ReadMonthly(after)
      ensures d in bronze && CanonicalSilverRow(ohlc, ReadMonthly(after)[d].row)
    {
      ReadAt(after, d);
      ReadAt(files, d);
      assert At(ReadMonthly(after), d) in {At(frame, d), At(ReadMonthly(files), d)};
    }
  }

  /**
   A completed build makes Silver hold exactly the dates of Bronze, each with a row equal to the
   canonical one, whatever was half-built before.
   */
  lemma BuildIsExact(files: Files<SilverEntry>, bronze: Bronze, ohlc: bool, rows: seq<Observation<SilverEntry>>)
    requires Within(ohlc, files, bronze) && Canonicalize(ohlc, bronze).Some?
    requires Enumerates(rows, Canonicalize(ohlc, bronze).value)
    ensures MergeFrames(SAME_ENTRY, ReadMonthly(files), rows).Ok?
    ensures var m := MergeFrames(SAME_ENTRY, ReadMonthly(files), rows).value;
            var after := WriteMonths(files, m.frame, Months(m.diff.Changed()));
            && m.frame.Keys == bronze.Keys && AllCanonical(ohlc, m.frame)
            && Within(ohlc, after, bronze)
            && SameFrame(ReadMonthly(after), Canonicalize(ohlc, bronze).value)
            && ShowsBronze(ohlc, ReadMonthly(after), bronze)
  {
    hide MergeFrames, Canonicalize, ReadMonthly, CanonicalSilverRow, ShowsBronze;
    var existing, candidate := ReadMonthly(files), Canonicalize(ohlc, bronze).value;
    MergeCovering(existing, candidate, rows);
    MergePartition(SAME_ENTRY, files, rows);
    CanonicalizeIsCanonical(ohlc, bronze);
    var frame := MergeFrames(SAME_ENTRY, existing, rows).value.frame;
    forall d | d in frame ensures CanonicalSilverRow(ohlc, frame[d].row) {
      assert At(frame, d) in {At(existing, d), At(candidate, d)};
    }
    SameFrameShows(ohlc, frame, bronze);
  }

  /* ---------- the build ---------- */

  class SilverSeries {
    var files: Files<SilverEntry>

    /** Upsert and rewrite the changed months one by one; any write may raise. */
    method UpsertMonthly(incoming: seq<Observation<SilverEntry>>, calm: bool) returns (r: Result<FrameDiff<SilverEntry>, bool>)
      requires Monthly(files)
      modifies this
      ensures calm ==> (r.Ok? <==> MergeFrames(SAME_ENTRY, old(ReadMonthly(files)), incoming).Ok?)
      ensures r.Ok? ==> var m := MergeFrames(SAME_ENTRY, old(ReadMonthly(files)), incoming);
                        && m.Ok? && r.value == m.value.diff
                        && files == WriteMonths(old(files), m.value.frame, Months(m.value.diff.Changed()))
      ensures r.Err? ==> (r.error <==> MergeFrames(SAME_ENTRY, old(ReadMonthly(files)), incoming).Ok?)
      ensures r.Err? ==>
                files == old(files)
                || exists done: set<Month> ::
                     MergeFrames(SAME_ENTRY, old(ReadMonthly(files)), incoming).Ok?
                     && done <= Months(MergeFrames(SAME_ENTRY, old(ReadMonthly(files)), incoming).value.diff.Changed())
                     && files == WriteMonths(old(files), MergeFrames(SAME_ENTRY, old(ReadMonthly(files)), incoming).value.frame, done)
    {
      hide MergeFrames, MonthFrame, WriteMonths, ReadMonthly, Monthly;
      var merged := MergeFrames(SAME_ENTRY, ReadMonthly(files), incoming);
      if merged.Err? { return Err(false); }
      var frame, diff := merged.value.frame, merged.value.diff;
      if diff.Changed() == [] {
        assert Months(diff.Changed()) == {};
        NoMonths<SilverEntry>(files, frame);
        return Ok(diff);
      }
      var months := ListMonths(Months(diff.Changed()));
      ghost var done: set<Month> := {};
      NoMonths<SilverEntry>(files, frame);
      for i := 0 to |months|
        invariant done == MonthSet(months[..i]) <= MonthSet(months)
        invariant files == WriteMonths(old(files), frame, done)
      {
        assert months[..i + 1] == months[..i] + [months[i]];
        var raised := Fault(calm);
        if raised { return Err(true); }
        OneMoreMonth(old(files), frame, done, months[i]);
        files := files[months[i] := MonthFrame(frame, months[i])];
        done := done + {months[i]};
        raised := Fault(calm);
        if raised { return Err(true); }
      }
      assert months[..|months|] == months;
      r := Ok(diff);
    }
  }

  lemma NoMonths<R>(files: Files<R>, frame: Frame<R>)
    ensures WriteMonths(files, frame, {}) == files
  {
  }

  lemma OneMoreMonth<R>(files: Files<R>, frame: Frame<R>, done: set<Month>, m: Month)
    ensures WriteMonths(files, frame, done + {m}) == WriteMonths(files, frame, done)[m := MonthFrame(frame, m)]
  {
  }

  /* ---------- histories ---------- */

  /** What can happen to one series: an ingestion, a completed build, or a build that stops after some writes. */
  datatype Event =
    | Ingest(incoming: Fetched)
    | Build(rows: seq<Observation<SilverEntry>>)
    | StoppedBuild(rows: seq<Observation<SilverEntry>>, done: set<Month>)

  datatype Lake = Lake(bronze: Bronze, silver: Files<SilverEntry>)

  /** A build reads the candidate's rows in some order; refused Bronze builds nothing. */
  predicate Fits(ohlc: bool, lake: Lake, e: Event) {
    !e.Ingest? && Canonicalize(ohlc, lake.bronze).Some? ==> Enumerates(e.rows, Canonicalize(ohlc, lake.bronze).value)
  }

  function Next(ohlc: bool, lake: Lake, e: Event): Lake {
    match e
    case Ingest(incoming) =>
      var p := Prepare(lake.bronze, incoming);
      if p.Err? then lake else lake.(bronze := p.value.frame)
    case Build(rows) =>
      var m := MergeFrames(SAME_ENTRY, ReadMonthly(lake.silver), rows);
      if Canonicalize(ohlc, lake.bronze).None? || m.Err? then lake
      else lake.(silver := WriteMonths(lake.silver, m.value.frame, Months(m.value.diff.Changed())))
    case StoppedBuild(rows, done) =>
      var m := MergeFrames(SAME_ENTRY, ReadMonthly(lake.silver), rows);
      if Canonicalize(ohlc, lake.bronze).None? || m.Err? then lake
      else lake.(silver := WriteMonths(lake.silver, m.value.frame, done))
  }

  lemma NextStaysWithin(ohlc: bool, lake: Lake, e: Event)
    requires Within(ohlc, lake.silver, lake.bronze) && Fits(ohlc, lake, e)
    ensures Within(ohlc, Next(ohlc, lake, e).silver, Next(ohlc, lake, e).bronze)
  {
    hide MergeFrames, Canonicalize, Prepare, ReadMonthly, Monthly, AllCanonical;
    match e
    case Ingest(incoming) =>
      if Prepare(lake.bronze, incoming).Ok? {
        KeysGrow(lake.bronze, incoming);
      }
    case Build(rows) =>
      if Canonicalize(ohlc, lake.bronze).Some? {
        BuildIsExact(lake.silver, lake.bronze, ohlc, rows);
      }
    case StoppedBuild(rows, done) =>
      if Canonicalize(ohlc, lake.bronze).Some? {
        BuildIsExact(lake.silver, lake.bronze, ohlc, rows);
        var frame := MergeFrames(SAME_ENTRY, ReadMonthly(lake.silver), rows).value.frame;
        PartialStaysWithin(lake.silver, lake.bronze, ohlc, frame, done);
      }
  }

  ghost predicate Reaches(ohlc: bool, lake: Lake, events: seq<Event>, last: Lake)
    decreases |events|
  {
    if events == [] then lake == last
    else Fits(ohlc, lake, events[0]) && Reaches(ohlc, Next(ohlc, lake, events[0]), events[1..], last)
  }

  /** After any mix of ingestions, builds and stopped builds, Silver stays canonical and within Bronze. */
  lemma {:induction false} HistoryStaysWithin(ohlc: bool, lake: Lake, events: seq<Event>, last: Lake)
    requires Within(ohlc, lake.silver, lake.bronze) && Reaches(ohlc, lake, events, last)
    ensures Within(ohlc, last.silver, last.bronze)
    decreases |events|
  {
    if events != [] {
      NextStaysWithin(ohlc, lake, events[0]);
      HistoryStaysWithin(ohlc, Next(ohlc, lake, events[0]), events[1..], last);
    }
  }

  lemma EmptyWithin(ohlc: bool)
    ensures Within(ohlc, map[], map[])
  {
  }

  lemma BuildNext(ohlc: bool, lake: Lake, rows: seq<Observation<SilverEntry>>)
    requires Within(ohlc, lake.silver, lake.bronze)
    requires Fits(ohlc, lake, Build(rows)) && Canonicalize(ohlc, lake.bronze).Some?
    ensures var after := Next(ohlc, lake, Build(rows));
            && after.bronze == lake.bronze
            && Within(ohlc, after.silver, lake.bronze)
            && SameFrame(ReadMonthly(after.silver), Canonicalize(ohlc, lake.bronze).value)
            && ShowsBronze(ohlc, ReadMonthly(after.silver), lake.bronze)
  {
    hide MergeFrames, Canonicalize, ReadMonthly, WriteMonths, Months, Within, SameFrame, Enumerates, AllCanonical, Prepare, ShowsBronze;
    BuildIsExact(lake.silver, lake.bronze, ohlc, rows);
  }

  /**
   After any history that ends with a completed build, Silver holds exactly the dates of Bronze,
   each with a row equal to the canonical one.
   */
  lemma BuildAfterHistory(ohlc: bool, events: seq<Event>, lake: Lake, rows: seq<Observation<SilverEntry>>)
    requires Reaches(ohlc, Lake(map[], map[]), events, lake)
    requires Fits(ohlc, lake, Build(rows)) && Canonicalize(ohlc, lake.bronze).Some?
    ensures var after := Next(ohlc, lake, Build(rows));
            && after.bronze == lake.bronze
            && Within(ohlc, after.silver, lake.bronze)
            && SameFrame(ReadMonthly(after.silver), Canonicalize(ohlc, lake.bronze).value)
            && ShowsBronze(ohlc, ReadMonthly(after.silver), lake.bronze)
  {
    hide Canonicalize, Reaches, ReadMonthly, Within, SameFrame, Fits, Next, ShowsBronze;
    EmptyWithin(ohlc);
    HistoryStaysWithin(ohlc, Lake(map[], map[]), events, lake);
    BuildNext(ohlc, lake, rows);
  }
}
