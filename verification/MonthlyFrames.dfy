/**
 Upserting observations into a retained series by date, and the monthly files that hold it.
 Rows are any type with equality.
 */
module MonthlyFrames {
  import opened Common

  /* ---------- dates ---------- */

  datatype Date = Date(year: int, month: int, day: int)

  datatype Month = Month(year: int, month: int)

  function MonthOf(d: Date): Month {
    Month(d.year, d.month)
  }

  predicate Leap(year: int) {
    year % 4 == 0 && (year % 100 != 0 || year % 400 == 0)
  }

  function DaysBeforeMonth(year: int, month: int): int {
    var leap := if Leap(year) && month > 2 then 1 else 0;
    leap + (if month <= 1 then 0 else if month == 2 then 31 else if month == 3 then 59 else if month == 4 then 90
            else if month == 5 then 120 else if month == 6 then 151 else if month == 7 then 181
            else if month == 8 then 212 else if month == 9 then 243 else if month == 10 then 273
            else if month == 11 then 304 else 334)
  }

  function DaysBeforeYear(year: int): int {
    var y := year - 1;
    365 * y + y / 4 - y / 100 + y / 400
  }

  /** date.toordinal(). */
  function Ordinal(d: Date): int {
    DaysBeforeYear(d.year) + DaysBeforeMonth(d.year, d.month) + d.day
  }

  function MonthLength(year: int, month: int): int {
    if month == 2 then (if Leap(year) then 29 else 28)
    else if month == 4 || month == 6 || month == 9 || month == 11 then 30
    else 31
  }

  predicate ValidDate(d: Date) {
    1 <= d.month <= 12 && 1 <= d.day <= MonthLength(d.year, d.month)
  }

  predicate DateBefore(a: Date, b: Date) {
    a.year < b.year || (a.year == b.year && (a.month < b.month || (a.month == b.month && a.day < b.day)))
  }

  lemma Quotients(y: int)
    ensures y / 4 == (y - 1) / 4 + (if y % 4 == 0 then 1 else 0)
    ensures y / 100 == (y - 1) / 100 + (if y % 100 == 0 then 1 else 0)
    ensures y / 400 == (y - 1) / 400 + (if y % 400 == 0 then 1 else 0)
    ensures y % 400 == 0 ==> y % 100 == 0
    ensures y % 100 == 0 ==> y % 4 == 0
  {
  }

  lemma YearLength(year: int)
    ensures DaysBeforeYear(year + 1) == DaysBeforeYear(year) + 365 + (if Leap(year) then 1 else 0)
  {
    Quotients(year);
  }

  lemma {:induction false} YearsGrow(a: int, b: int)
    requires a < b
    ensures DaysBeforeYear(a) + 365 + (if Leap(a) then 1 else 0) <= DaysBeforeYear(b)
    decreases b - a
  {
    YearLength(b - 1);
    if a < b - 1 {
      YearsGrow(a, b - 1);
    }
  }

  lemma DayOfYear(d: Date)
    requires ValidDate(d)
    ensures 1 <= DaysBeforeMonth(d.year, d.month) + d.day <= 365 + (if Leap(d.year) then 1 else 0)
  {
  }

  /** The next day of the month, the first of the next month, or the first of the next year. */
  function Following(d: Date): Date {
    if d.day < MonthLength(d.year, d.month) then Date(d.year, d.month, d.day + 1)
    else if d.month < 12 then Date(d.year, d.month + 1, 1)
    else Date(d.year + 1, 1, 1)
  }

  /** The calendar: each valid date is followed by a valid date one day number later. */
  lemma NextDay(d: Date)
    requires ValidDate(d)
    ensures ValidDate(Following(d)) && Ordinal(Following(d)) == Ordinal(d) + 1
  {
    hide DaysBeforeYear, DaysBeforeMonth, Leap, MonthLength;
    MonthStep(d.year, d.month);
    if d.day < MonthLength(d.year, d.month) {
    } else if d.month < 12 {
      MonthsHaveDays(d.year, d.month + 1);
    } else {
      MonthsHaveDays(d.year + 1, 1);
      YearLength(d.year);
      FirstMonth(d.year + 1);
    }
  }

  lemma MonthsHaveDays(year: int, month: int)
    ensures MonthLength(year, month) >= 1
  {
  }

  /** The Gregorian month lengths. */
  lemma MonthLengths(year: int, month: int)
    ensures MonthLength(year, month)
            == (if month == 2 then if year % 4 == 0 && (year % 100 != 0 || year % 400 == 0) then 29 else 28
                else if month in {4, 6, 9, 11} then 30 else 31)
  {
  }

  lemma FirstDay()
    ensures ValidDate(Date(1, 1, 1)) && Ordinal(Date(1, 1, 1)) == 1
  {
  }

  lemma FirstMonth(year: int)
    ensures DaysBeforeMonth(year, 1) == 0
  {
  }

  lemma MonthStep(year: int, month: int)
    requires 1 <= month <= 12
    ensures DaysBeforeMonth(year, month) + MonthLength(year, month)
            == if month < 12 then DaysBeforeMonth(year, month + 1) else 365 + (if Leap(year) then 1 else 0)
  {
    hide Leap;
  }

  /** Ordinals order and distinguish calendar dates. */
  lemma OrdinalOrders(a: Date, b: Date)
    requires ValidDate(a) && ValidDate(b)
    ensures Ordinal(a) < Ordinal(b) <==> DateBefore(a, b)
    ensures Ordinal(a) == Ordinal(b) <==> a == b
  {
    if DateBefore(a, b) {
      OrdinalGrows(a, b);
    } else if a != b {
      OrdinalGrows(b, a);
    }
  }

  lemma OrdinalGrows(a: Date, b: Date)
    requires ValidDate(a) && ValidDate(b) && DateBefore(a, b)
    ensures Ordinal(a) < Ordinal(b)
  {
    hide Leap;
    DayOfYear(a);
    DayOfYear(b);
    assert Ordinal(a) == DaysBeforeYear(a.year) + DaysBeforeMonth(a.year, a.month) + a.day;
    assert Ordinal(b) == DaysBeforeYear(b.year) + DaysBeforeMonth(b.year, b.month) + b.day;
    if a.year < b.year {
      YearsGrow(a.year, b.year);
    }
  }

  /* ---------- frames ---------- */

  /** The stored rows of one series, by observation date. */
  type Frame<R> = map<Date, R>

  /** An incoming row; an incoming frame may repeat a date. */
  datatype Observation<R> = Observation(date: Date, row: R)

  datatype FrameDiff<R> = FrameDiff(inserts: seq<Observation<R>>, kept: seq<Observation<R>>, revisions: seq<Observation<R>>) {
    function Changed(): seq<Observation<R>> { inserts + revisions }
  }

  datatype FrameError = DuplicateKeys

  predicate UniqueDates<R>(rows: seq<Observation<R>>) {
    forall i, j :: 0 <= i < j < |rows| ==> rows[i].date != rows[j].date
  }

  function Dates<R(==)>(rows: seq<Observation<R>>): set<Date> {
    set o | o in rows :: o.date
  }

  datatype Kind = Insert | Keep | Revise

  /** How the rows of two frames are compared. */
  type Equality<!R> = (R, R) -> bool

  function Classify<R>(same: Equality<R>, existing: Frame<R>, o: Observation<R>): Kind {
    if o.date !in existing then Insert else if same(existing[o.date], o.row) then Keep else Revise
  }

  /** The stored row of that date is kept. */
  predicate Stays<R>(same: Equality<R>, existing: Frame<R>, o: Observation<R>) {
    o.date in existing && same(existing[o.date], o.row)
  }

  function OfKind<R>(same: Equality<R>, existing: Frame<R>, incoming: seq<Observation<R>>, kind: Kind): seq<Observation<R>> {
    if incoming == [] then []
    else
      var last := incoming[|incoming| - 1];
      OfKind(same, existing, incoming[..|incoming| - 1], kind)
      + (if Classify(same, existing, last) == kind then [last] else [])
  }

  function DiffFrames<R>(same: Equality<R>, existing: Frame<R>, incoming: seq<Observation<R>>)
    : Result<FrameDiff<R>, FrameError>
  {
    if !UniqueDates(incoming) then Err(DuplicateKeys)
    else Ok(FrameDiff(OfKind(same, existing, incoming, Insert), OfKind(same, existing, incoming, Keep),
                      OfKind(same, existing, incoming, Revise)))
  }

  /** The rows by date, later rows winning. */
  function FrameOf<R>(rows: seq<Observation<R>>): Frame<R> {
    if rows == [] then map[]
    else FrameOf(rows[..|rows| - 1])[rows[|rows| - 1].date := rows[|rows| - 1].row]
  }

  datatype Merged<R> = Merged(frame: Frame<R>, diff: FrameDiff<R>)

  /** Retained rows and changed rows; the existing frame itself when nothing changed. */
  function MergeFrames<R(==)>(same: Equality<R>, existing: Frame<R>, incoming: seq<Observation<R>>)
    : Result<Merged<R>, FrameError>
  {
    match DiffFrames(same, existing, incoming)
    case Err(e) => Err(e)
    case Ok(diff) =>
      if diff.Changed() == [] then Ok(Merged(existing, diff))
      else if existing == map[] then Ok(Merged(FrameOf(incoming), diff))
      else Ok(Merged((existing - Dates(diff.Changed())) + FrameOf(diff.Changed()), diff))
  }

  function Months<R(==)>(rows: seq<Observation<R>>): set<Month> {
    set o | o in rows :: MonthOf(o.date)
  }

  /* ---------- what a merge means ---------- */

  lemma {:induction false} OfKindExact<R>(same: Equality<R>, existing: Frame<R>, incoming: seq<Observation<R>>, kind: Kind)
    ensures forall o :: o in OfKind(same, existing, incoming, kind) <==> o in incoming && Classify(same, existing, o) == kind
  {
    if incoming != [] {
      var n := |incoming| - 1;
      OfKindExact(same, existing, incoming[..n], kind);
      assert incoming == incoming[..n] + [incoming[n]];
    }
  }

  /** One row per date: equal dates mean equal observations. */
  ghost predicate Consistent<R>(rows: seq<Observation<R>>) {
    forall a, b :: a in rows && b in rows && a.date == b.date ==> a == b
  }

  lemma UniqueIsConsistent<R>(rows: seq<Observation<R>>)
    requires UniqueDates(rows)
    ensures Consistent(rows)
  {
  }

  lemma {:induction false} FrameOfAt<R>(rows: seq<Observation<R>>, d: Date)
    ensures d in FrameOf(rows) <==> d in Dates(rows)
    ensures d in FrameOf(rows) ==> Observation(d, FrameOf(rows)[d]) in rows
  {
    if rows != [] {
      var n := |rows| - 1;
      FrameOfAt(rows[..n], d);
      assert rows == rows[..n] + [rows[n]];
    }
  }

  lemma FrameOfRow<R>(rows: seq<Observation<R>>, o: Observation<R>)
    requires Consistent(rows) && o in rows
    ensures At(FrameOf(rows), o.date) == Some(o.row)
  {
    FrameOfAt(rows, o.date);
  }

  lemma ChangedExact<R>(same: Equality<R>, existing: Frame<R>, incoming: seq<Observation<R>>, o: Observation<R>)
    requires UniqueDates(incoming)
    ensures o in DiffFrames(same, existing, incoming).value.Changed()
            <==> o in incoming && !Stays(same, existing, o)
  {
    OfKindExact(same, existing, incoming, Insert);
    OfKindExact(same, existing, incoming, Revise);
    var diff := DiffFrames(same, existing, incoming).value;
    assert o in diff.Changed() <==> o in diff.inserts || o in diff.revisions;
  }

  lemma ChangedConsistent<R>(same: Equality<R>, existing: Frame<R>, incoming: seq<Observation<R>>)
    requires UniqueDates(incoming)
    ensures Consistent(DiffFrames(same, existing, incoming).value.Changed())
  {
    hide OfKind;
    UniqueIsConsistent(incoming);
    var changed := DiffFrames(same, existing, incoming).value.Changed();
    forall a, b | a in changed && b in changed && a.date == b.date ensures a == b {
      ChangedExact(same, existing, incoming, a);
      ChangedExact(same, existing, incoming, b);
    }
  }

  /** A merge is the existing frame overridden by the incoming rows that are not equal to it. */
  lemma MergeAt<R>(same: Equality<R>, existing: Frame<R>, incoming: seq<Observation<R>>, d: Date)
    requires MergeFrames(same, existing, incoming).Ok?
    ensures var merged := MergeFrames(same, existing, incoming).value.frame;
            && (forall o :: o in incoming && o.date == d ==>
                  At(merged, d) == if Stays(same, existing, o) then At(existing, d) else Some(o.row))
            && (d !in Dates(incoming) ==> At(merged, d) == At(existing, d))
  {
    hide OfKind, FrameOf;
    var changed := DiffFrames(same, existing, incoming).value.Changed();
    var merged := MergeFrames(same, existing, incoming).value.frame;
    UniqueIsConsistent(incoming);
    ChangedConsistent(same, existing, incoming);
    FrameOfAt(changed, d);
    FrameOfAt(incoming, d);
    forall o | o in incoming && o.date == d
      ensures At(merged, d) == if Stays(same, existing, o) then At(existing, d) else Some(o.row)
    {
      ChangedExact(same, existing, incoming, o);
      FrameOfRow(incoming, o);
      if o in changed {
        FrameOfRow(changed, o);
      } else if d in Dates(changed) {
        var c :| c in changed && c.date == d;
        ChangedExact(same, existing, incoming, c);
      }
    }
    if d !in Dates(incoming) {
      forall c | c in changed ensures c.date != d {
        ChangedExact(same, existing, incoming, c);
      }
    }
  }

  lemma NothingChanged<R>(same: Equality<R>, existing: Frame<R>, incoming: seq<Observation<R>>)
    requires UniqueDates(incoming)
    requires forall i :: 0 <= i < |incoming| ==> Stays(same, existing, incoming[i])
    ensures MergeFrames(same, existing, incoming).Ok?
    ensures MergeFrames(same, existing, incoming).value.frame == existing
    ensures MergeFrames(same, existing, incoming).value.diff.Changed() == []
  {
    hide OfKind;
    var changed := DiffFrames(same, existing, incoming).value.Changed();
    assert changed != [] ==> changed[0] in changed;
    forall o ensures o !in changed {
      ChangedExact(same, existing, incoming, o);
    }
  }

  /* ---------- monthly files ---------- */

  type Files<R> = map<Month, Frame<R>>

  /** Every file holds rows of its own month only. */
  predicate Monthly<R>(files: Files<R>) {
    forall m, d :: m in files && d in files[m] ==> MonthOf(d) == m
  }

  /** All files together. */
  function ReadMonthly<R>(files: Files<R>): Frame<R> {
    map m, d | m in files && d in files[m] && MonthOf(d) == m :: d := files[m][d]
  }

  function MonthFrame<R>(frame: Frame<R>, m: Month): Frame<R> {
    map d | d in frame && MonthOf(d) == m :: frame[d]
  }

  /** The files after the given months have been rewritten from a frame. */
  function WriteMonths<R>(files: Files<R>, frame: Frame<R>, months: set<Month>): Files<R> {
    map m | m in files.Keys + months :: if m in months then MonthFrame(frame, m) else files[m]
  }

  /** A list of months as a set. */
  function MonthSet(months: seq<Month>): set<Month> {
    set m | m in months
  }

  /** The changed months as a list; the order of writes does not matter. */
  method ListMonths(months: set<Month>) returns (list: seq<Month>)
    ensures months == MonthSet(list)
  {
    list := [];
    var todo := months;
    while todo != {}
      invariant todo <= months
      invariant months - todo == MonthSet(list)
      decreases |todo|
    {
      var m :| m in todo;
      assert MonthSet(list + [m]) == MonthSet(list) + {m};
      list := list + [m];
      todo := todo - {m};
    }
  }

  lemma ReadAt<R>(files: Files<R>, d: Date)
    ensures At(ReadMonthly(files), d) == if Month(d.year, d.month) in files then At(files[Month(d.year, d.month)], d) else None
  {
  }

  lemma MergeDiff<R>(same: Equality<R>, existing: Frame<R>, incoming: seq<Observation<R>>)
    requires MergeFrames(same, existing, incoming).Ok?
    ensures UniqueDates(incoming) && MergeFrames(same, existing, incoming).value.diff == DiffFrames(same, existing, incoming).value
  {
  }

  /** A month without changed rows has the same rows before and after. */
  lemma QuietMerge<R>(same: Equality<R>, existing: Frame<R>, incoming: seq<Observation<R>>, d: Date)
    requires MergeFrames(same, existing, incoming).Ok?
    requires MonthOf(d) !in Months(MergeFrames(same, existing, incoming).value.diff.Changed())
    ensures At(MergeFrames(same, existing, incoming).value.frame, d) == At(existing, d)
  {
    hide MergeFrames, DiffFrames;
    MergeAt(same, existing, incoming, d);
    if d in Dates(incoming) {
      var o :| o in incoming && o.date == d;
      MergeDiff(same, existing, incoming);
      ChangedExact(same, existing, incoming, o);
    }
  }

  lemma SameRows<R>(a: Frame<R>, b: Frame<R>)
    requires forall d :: At(a, d) == At(b, d)
    ensures a == b
  {
    assert forall d :: d in a <==> At(a, d).Some?;
    assert forall d :: d in b <==> At(b, d).Some?;
    assert forall d :: d in a ==> Some(a[d]) == At(a, d) == At(b, d);
  }

  /**
   Rewriting only the changed months makes the files hold exactly the merged frame, month by
   month, and leaves every other file untouched.
   */
  lemma MergePartition<R>(same: Equality<R>, files: Files<R>, incoming: seq<Observation<R>>)
    requires Monthly(files) && MergeFrames(same, ReadMonthly(files), incoming).Ok?
    ensures var m := MergeFrames(same, ReadMonthly(files), incoming).value;
            var after := WriteMonths(files, m.frame, Months(m.diff.Changed()));
            && Monthly(after)
            && ReadMonthly(after) == m.frame
            && forall k :: k !in Months(m.diff.Changed()) ==> At(after, k) == At(files, k)
  {
    hide MergeFrames, ReadMonthly, Months;
    var m := MergeFrames(same, ReadMonthly(files), incoming).value;
    var months := Months(m.diff.Changed());
    var after := WriteMonths(files, m.frame, months);
    forall d ensures At(ReadMonthly(after), d) == At(m.frame, d) {
      ReadAt(after, d);
      ReadAt(files, d);
      if MonthOf(d) !in months {
        QuietMerge(same, ReadMonthly(files), incoming, d);
      }
    }
    SameRows(ReadMonthly(after), m.frame);
  }

  /** The rewritten months are exactly those whose content changes. */
  lemma ChangedMonthsExact<R(!new)>(same: Equality<R>, existing: Frame<R>, incoming: seq<Observation<R>>, k: Month)
    requires MergeFrames(same, existing, incoming).Ok?
    requires forall r :: same(r, r)
    ensures var m := MergeFrames(same, existing, incoming).value;
            k in Months(m.diff.Changed()) <==> MonthFrame(m.frame, k) != MonthFrame(existing, k)
  {
    hide MergeFrames, DiffFrames;
    var m := MergeFrames(same, existing, incoming).value;
    MergeDiff(same, existing, incoming);
    if k in Months(m.diff.Changed()) {
      var o :| o in m.diff.Changed() && MonthOf(o.date) == k;
      ChangedExact(same, existing, incoming, o);
      MergeAt(same, existing, incoming, o.date);
      assert same(o.row, o.row);
      assert At(MonthFrame(m.frame, k), o.date) == Some(o.row) != At(MonthFrame(existing, k), o.date);
    } else {
      forall d ensures At(MonthFrame(m.frame, k), d) == At(MonthFrame(existing, k), d) {
        if MonthOf(d) == k {
          QuietMerge(same, existing, incoming, d);
        }
      }
      SameRows(MonthFrame(m.frame, k), MonthFrame(existing, k));
    }
  }
}
