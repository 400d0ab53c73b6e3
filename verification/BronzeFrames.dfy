/**
 One ingestion into a retained Bronze series: fetch times that follow payloads, the upsert, and
 the months it rewrites.
 */
module BronzeFrames {
  import opened Common
  import opened RowDigest
  import opened SilverRows
  import opened MonthlyFrames

  /** A stored row: its numbers, its other descriptive columns as one text, and its fetch time. */
  datatype Row = Row(payload: Payload, origin: string, fetchedAt: int)

  type Bronze = Frame<Row>

  type Fetched = seq<Observation<Row>>

  /** Equal in everything but the fetch time. */
  predicate SameMeaning(a: Row, b: Row) {
    SamePayload(a.payload, b.payload) && a.origin == b.origin
  }

  const SAME_ROW: Equality<Row> := (a: Row, b: Row) => SameMeaning(a, b) && a.fetchedAt == b.fetchedAt

  /** The stored row of that date says the same as `row`. */
  predicate Known(existing: Bronze, d: Date, row: Row) {
    d in existing && SameMeaning(existing[d], row)
  }

  /** An unchanged observation keeps the fetch time it was stored with. */
  function StableRow(existing: Bronze, o: Observation<Row>): Observation<Row> {
    if Known(existing, o.date, o.row) then Observation(o.date, o.row.(fetchedAt := existing[o.date].fetchedAt)) else o
  }

  function StableIncoming(existing: Bronze, incoming: Fetched): (stable: Fetched)
    ensures |stable| == |incoming|
    ensures forall i :: 0 <= i < |incoming| ==> stable[i] == StableRow(existing, incoming[i])
  {
    if incoming == [] then []
    else StableIncoming(existing, incoming[..|incoming| - 1]) + [StableRow(existing, incoming[|incoming| - 1])]
  }

  /** What one ingestion is about to commit. */
  datatype Prepared = Prepared(frame: Bronze, diff: FrameDiff<Row>, months: set<Month>)

  function Prepare(existing: Bronze, incoming: Fetched): Result<Prepared, FrameError> {
    match MergeFrames(SAME_ROW, existing, StableIncoming(existing, incoming))
    case Err(e) => Err(e)
    case Ok(m) => Ok(Prepared(m.frame, m.diff, Months(m.diff.Changed())))
  }

  lemma StableDates(existing: Bronze, incoming: Fetched)
    ensures Dates(StableIncoming(existing, incoming)) == Dates(incoming)
    ensures UniqueDates(StableIncoming(existing, incoming)) <==> UniqueDates(incoming)
  {
    var stable := StableIncoming(existing, incoming);
    assert forall i :: 0 <= i < |incoming| ==> stable[i].date == incoming[i].date;
    forall d | d in Dates(incoming) ensures d in Dates(stable) {
      var i :| 0 <= i < |incoming| && incoming[i].date == d;
      assert stable[i] in stable;
    }
    forall d | d in Dates(stable) ensures d in Dates(incoming) {
      var i :| 0 <= i < |stable| && stable[i].date == d;
      assert incoming[i] in incoming;
    }
  }

  /** Preparation is refused exactly for a repeated date. */
  lemma PrepareRefuses(existing: Bronze, incoming: Fetched)
    ensures Prepare(existing, incoming).Ok?
            <==> forall i, j :: 0 <= i < j < |incoming| ==> incoming[i].date != incoming[j].date
  {
    StableDates(existing, incoming);
  }

  /**
   What preparation stores: an incoming row that says something new replaces the stored one with
   its fetch time, a row that says the same leaves the stored one, and all other dates stay.
   */
  lemma PrepareAt(existing: Bronze, incoming: Fetched, d: Date)
    requires Prepare(existing, incoming).Ok?
    ensures var after := Prepare(existing, incoming).value.frame;
            && (forall o :: o in incoming && o.date == d ==>
                  At(after, d) == (if Known(existing, d, o.row) then At(existing, d) else Some(o.row)))
            && (d !in Dates(incoming) ==> At(after, d) == At(existing, d))
  {
    hide MergeFrames, SameMeaning;
    var stable := StableIncoming(existing, incoming);
    StableDates(existing, incoming);
    MergeAt(SAME_ROW, existing, stable, d);
    var after := Prepare(existing, incoming).value.frame;
    forall o | o in incoming && o.date == d
      ensures At(after, d) == if Known(existing, d, o.row) then At(existing, d) else Some(o.row)
    {
      var i :| 0 <= i < |incoming| && incoming[i] == o;
      assert stable[i] in stable;
      StableStays(existing, o);
    }
  }

  /** The merge keeps exactly the rows that say nothing new. */
  lemma StableStays(existing: Bronze, o: Observation<Row>)
    ensures Stays(SAME_ROW, existing, StableRow(existing, o)) <==> Known(existing, o.date, o.row)
  {
  }

  /** Stored keys are never lost. */
  lemma KeysGrow(existing: Bronze, incoming: Fetched)
    requires Prepare(existing, incoming).Ok?
    ensures Prepare(existing, incoming).value.frame.Keys == existing.Keys + Dates(incoming)
  {
    hide Prepare;
    var after := Prepare(existing, incoming).value.frame;
    forall d ensures d in after <==> d in existing || d in Dates(incoming) {
      PrepareAt(existing, incoming, d);
    }
  }

  predicate RowsAgree(a: Fetched, b: Fetched) {
    |a| == |b| && forall i :: 0 <= i < |a| ==> a[i].date == b[i].date && SameMeaning(a[i].row, b[i].row)
  }

  lemma SameDoubles(a: Double, b: Double, c: Double)
    requires SameDouble(a, b) && SameDouble(b, c)
    ensures SameDouble(a, c) && SameDouble(b, a)
  {
  }

  lemma SameCells(a: Option<Double>, b: Option<Double>, c: Option<Double>)
    requires SameCell(a, b) && SameCell(b, c)
    ensures SameCell(a, c) && SameCell(b, a)
  {
    if a.Some? {
      SameDoubles(a.value, b.value, c.value);
    }
  }

  lemma SameMeanings(a: Row, b: Row, c: Row)
    requires SameMeaning(a, b) && SameMeaning(b, c)
    ensures SameMeaning(a, c)
  {
    hide SameCell;
    match (a.payload, b.payload, c.payload)
    case (BarPayload(ao, ah, al, ac), BarPayload(bo, bh, bl, bc), BarPayload(co, ch, cl, cc)) =>
      SameCells(ao, bo, co);
      SameCells(ah, bh, ch);
      SameCells(al, bl, cl);
      SameCells(ac, bc, cc);
    case (ScalarPayload(x), ScalarPayload(y), ScalarPayload(z)) =>
      SameCells(x, y, z);
  }

  /** Fetching equal rows again, whenever, stages no change. */
  lemma RefetchStagesNothing(existing: Bronze, incoming: Fetched, again: Fetched)
    requires Prepare(existing, incoming).Ok? && RowsAgree(incoming, again)
    ensures var after := Prepare(existing, incoming).value.frame;
            Prepare(after, again).Ok? && Prepare(after, again).value.diff.Changed() == []
            && Prepare(after, again).value.frame == after && Prepare(after, again).value.months == {}
  {
    hide MergeFrames, SameMeaning, Stays;
    var after := Prepare(existing, incoming).value.frame;
    PrepareRefuses(existing, incoming);
    PrepareRefuses(after, again);
    StableDates(after, again);
    var stable := StableIncoming(after, again);
    forall i | 0 <= i < |again| ensures Stays(SAME_ROW, after, stable[i]) {
      var o := incoming[i];
      assert o in incoming;
      PrepareAt(existing, incoming, o.date);
      if Known(existing, o.date, o.row) {
        SameMeanings(existing[o.date], o.row, again[i].row);
      }
      StableStays(after, again[i]);
    }
    NothingChanged(SAME_ROW, after, stable);
  }

  /**
   Rewriting only the changed months makes the files hold exactly the prepared frame, month by
   month, and leaves every other file untouched.
   */
  lemma PartitionExact(files: Files<Row>, incoming: Fetched)
    requires Monthly(files) && Prepare(ReadMonthly(files), incoming).Ok?
    ensures var p := Prepare(ReadMonthly(files), incoming).value;
            var after := WriteMonths(files, p.frame, p.months);
            && Monthly(after)
            && ReadMonthly(after) == p.frame
            && forall m :: m !in p.months ==> At(after, m) == At(files, m)
  {
    MergePartition(SAME_ROW, files, StableIncoming(ReadMonthly(files), incoming));
  }

  /* ---------- fetch times over many runs ---------- */

  /** Bronze after a sequence of runs; a refused run changes nothing. */
  function AfterRuns(existing: Bronze, runs: seq<Fetched>): Bronze {
    if runs == [] then existing
    else
      var before := AfterRuns(existing, runs[..|runs| - 1]);
      var p := Prepare(before, runs[|runs| - 1]);
      if p.Ok? then p.value.frame else before
  }

  /** Run k brought d with a row that says something else than what was stored just before it. */
  predicate ChangedBy(existing: Bronze, runs: seq<Fetched>, k: nat, d: Date)
    requires k < |runs|
  {
    && UniqueDates(runs[k])
    && d in Dates(runs[k])
    && !(exists o :: o in runs[k] && o.date == d && Known(AfterRuns(existing, runs[..k]), d, o.row))
  }

  /** A stored row is the one brought by the last run that changed what it says. */
  lemma {:induction false} FetchTimeIsLastChange(existing: Bronze, runs: seq<Fetched>, k: nat, o: Observation<Row>)
    requires k < |runs| && o in runs[k] && ChangedBy(existing, runs, k, o.date)
    requires forall j :: k < j < |runs| ==> !ChangedBy(existing, runs, j, o.date)
    ensures At(AfterRuns(existing, runs), o.date) == Some(o.row)
  {
    hide Prepare, Known;
    var n := |runs| - 1;
    var before := AfterRuns(existing, runs[..n]);
    PrepareRefuses(before, runs[n]);
    if k == n {
      PrepareAt(before, runs[n], o.date);
    } else {
      forall j | k < j < n ensures !ChangedBy(existing, runs[..n], j, o.date) {
        assert runs[..n][..j] == runs[..j];
        assert !ChangedBy(existing, runs, j, o.date);
      }
      assert runs[..n][..k] == runs[..k] && ChangedBy(existing, runs[..n], k, o.date);
      FetchTimeIsLastChange(existing, runs[..n], k, o);
      assert !ChangedBy(existing, runs, n, o.date);
      if Prepare(before, runs[n]).Ok? {
        PrepareAt(before, runs[n], o.date);
      }
    }
  }
}
