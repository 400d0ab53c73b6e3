/**
 What one run of a series leaves in the audit and in its state, told from the run's inputs and
 from the Bronze it saw.
 */
module BronzeAudit {
  import opened Common
  import opened SilverRows
  import opened MonthlyFrames
  import opened BronzeFrames
  import opened Planner
  import opened BronzeThreads
  import opened BronzeInterleaving

  /* ---------- counting rows and months ---------- */

  lemma {:induction false} UniqueCount<R>(rows: seq<Observation<R>>)
    requires UniqueDates(rows)
    ensures |rows| == |Dates(rows)|
  {
    if rows != [] {
      var n := |rows| - 1;
      UniqueCount(rows[..n]);
      assert rows == rows[..n] + [rows[n]];
      assert Dates(rows) == Dates(rows[..n]) + {rows[n].date};
    }
  }

  lemma KindIsIncoming<R>(same: Equality<R>, existing: Frame<R>, incoming: seq<Observation<R>>, kind: Kind, o: Observation<R>)
    requires o in OfKind(same, existing, incoming, kind)
    ensures o in incoming
  {
    OfKindExact(same, existing, incoming, kind);
  }

  lemma {:induction false} OfKindUnique<R>(same: Equality<R>, existing: Frame<R>, incoming: seq<Observation<R>>, kind: Kind)
    requires UniqueDates(incoming)
    ensures UniqueDates(OfKind(same, existing, incoming, kind))
  {
    if incoming != [] {
      var n := |incoming| - 1;
      OfKindUnique(same, existing, incoming[..n], kind);
      var front := OfKind(same, existing, incoming[..n], kind);
      forall i | 0 <= i < |front| ensures front[i].date != incoming[n].date {
        KindIsIncoming(same, existing, incoming[..n], kind, front[i]);
        var k :| 0 <= k < n && incoming[..n][k] == front[i];
      }
    }
  }

  /** By rising year, and within a year by rising month. */
  predicate MonthsRise(list: seq<Month>) {
    forall i, j :: 0 <= i < j < |list| ==>
      list[i].year < list[j].year || (list[i].year == list[j].year && list[i].month < list[j].month)
  }

  lemma {:induction false} InsertMonthMember(list: seq<Month>, m: Month, x: Month)
    ensures x in InsertMonth(list, m) <==> x in list || x == m
  {
    if m !in list && list != [] && !Earlier(list[|list| - 1], m) {
      InsertMonthMember(list[..|list| - 1], m, x);
      assert list == list[..|list| - 1] + [list[|list| - 1]];
    }
  }

  lemma {:induction false} InsertMonthRises(list: seq<Month>, m: Month)
    requires MonthsRise(list)
    ensures MonthsRise(InsertMonth(list, m))
  {
    if m !in list && list != [] {
      var n := |list| - 1;
      if Earlier(list[n], m) {
        forall i | 0 <= i <= n ensures Earlier(list[i], m) {
          assert i < n ==> Earlier(list[i], list[n]);
        }
      } else {
        InsertMonthRises(list[..n], m);
        var front := InsertMonth(list[..n], m);
        forall i | 0 <= i < |front| ensures Earlier(front[i], list[n]) {
          InsertMonthMember(list[..n], m, front[i]);
          assert front[i] in front;
          if front[i] != m {
            var k :| 0 <= k < n && list[..n][k] == front[i];
          }
        }
      }
    }
  }

  /** The changed months are written in the order of the calendar, each once. */
  lemma {:induction false} MonthListRises(rows: Fetched)
    ensures MonthsRise(MonthList(rows))
  {
    if rows != [] {
      MonthListRises(rows[..|rows| - 1]);
      InsertMonthRises(MonthList(rows[..|rows| - 1]), MonthOf(rows[|rows| - 1].date));
    }
  }

  lemma {:induction false} DistinctMonthCount(list: seq<Month>)
    requires MonthsRise(list)
    ensures |list| == |MonthSet(list)|
  {
    if list != [] {
      var n := |list| - 1;
      DistinctMonthCount(list[..n]);
      assert list == list[..n] + [list[n]];
      assert MonthSet(list) == MonthSet(list[..n]) + {list[n]};
    }
  }

  /* ---------- what a preparation changes ---------- */

  /** Incoming dates that Bronze does not hold. */
  function NewDates(stored: Bronze, rows: Fetched): set<Date> {
    set o | o in rows && o.date !in stored :: o.date
  }

  /** Stored dates for which the incoming row says something else. */
  function RevisedDates(stored: Bronze, rows: Fetched): set<Date> {
    set o | o in rows && o.date in stored && !SameMeaning(stored[o.date], o.row) :: o.date
  }

  /** Months whose content differs between two frames, among those of the incoming rows. */
  function ChangedMonths(stored: Bronze, after: Bronze, rows: Fetched): set<Month> {
    set o | o in rows && MonthFrame(after, MonthOf(o.date)) != MonthFrame(stored, MonthOf(o.date)) :: MonthOf(o.date)
  }

  lemma InsertedDate(stored: Bronze, rows: Fetched, d: Date)
    ensures d in Dates(OfKind(SAME_ROW, stored, StableIncoming(stored, rows), Insert)) <==> d in NewDates(stored, rows)
  {
    var stable := StableIncoming(stored, rows);
    var inserts := OfKind(SAME_ROW, stored, stable, Insert);
    hide OfKind, SameMeaning;
    OfKindExact(SAME_ROW, stored, stable, Insert);
    if d in NewDates(stored, rows) {
      var i :| 0 <= i < |rows| && rows[i].date == d;
      assert stable[i] in stable && stable[i] in inserts;
    }
    if d in Dates(inserts) {
      var i :| 0 <= i < |stable| && stable[i].date == d && stable[i] in inserts;
      assert rows[i] in rows;
    }
  }

  lemma InsertsCounted(stored: Bronze, rows: Fetched)
    requires Prepare(stored, rows).Ok?
    ensures |Prepare(stored, rows).value.diff.inserts| == |NewDates(stored, rows)|
  {
    var stable := StableIncoming(stored, rows);
    StableDates(stored, rows);
    PrepareRefuses(stored, rows);
    var inserts := OfKind(SAME_ROW, stored, stable, Insert);
    assert Prepare(stored, rows).value.diff.inserts == inserts;
    hide OfKind, NewDates, Dates, StableIncoming, Prepare;
    OfKindUnique(SAME_ROW, stored, stable, Insert);
    UniqueCount(inserts);
    forall d ensures d in Dates(inserts) <==> d in NewDates(stored, rows) {
      InsertedDate(stored, rows, d);
    }
    assert Dates(inserts) == NewDates(stored, rows);
  }

  lemma RevisedDate(stored: Bronze, rows: Fetched, d: Date)
    ensures d in Dates(OfKind(SAME_ROW, stored, StableIncoming(stored, rows), Revise)) <==> d in RevisedDates(stored, rows)
  {
    var stable := StableIncoming(stored, rows);
    var revisions := OfKind(SAME_ROW, stored, stable, Revise);
    hide OfKind, SameMeaning;
    OfKindExact(SAME_ROW, stored, stable, Revise);
    if d in RevisedDates(stored, rows) {
      var o :| o in rows && o.date == d && d in stored && !SameMeaning(stored[d], o.row);
      var i :| 0 <= i < |rows| && rows[i] == o;
      StableStays(stored, o);
      assert stable[i] in stable && stable[i] in revisions;
    }
    if d in Dates(revisions) {
      var i :| 0 <= i < |stable| && stable[i].date == d && stable[i] in revisions;
      StableStays(stored, rows[i]);
      assert rows[i] in rows;
    }
  }

  lemma RevisionsCounted(stored: Bronze, rows: Fetched)
    requires Prepare(stored, rows).Ok?
    ensures |Prepare(stored, rows).value.diff.revisions| == |RevisedDates(stored, rows)|
  {
    var stable := StableIncoming(stored, rows);
    StableDates(stored, rows);
    PrepareRefuses(stored, rows);
    var revisions := OfKind(SAME_ROW, stored, stable, Revise);
    assert Prepare(stored, rows).value.diff.revisions == revisions;
    hide OfKind, RevisedDates, Dates, StableIncoming, Prepare;
    OfKindUnique(SAME_ROW, stored, stable, Revise);
    UniqueCount(revisions);
    forall d ensures d in Dates(revisions) <==> d in RevisedDates(stored, rows) {
      RevisedDate(stored, rows, d);
    }
    assert Dates(revisions) == RevisedDates(stored, rows);
  }

  lemma MonthsCounted(stored: Bronze, rows: Fetched)
    requires Prepare(stored, rows).Ok?
    ensures var p := Prepare(stored, rows).value;
            && |MonthList(p.diff.Changed())| == |ChangedMonths(stored, p.frame, rows)|
            && forall m :: MonthFrame(p.frame, m) != MonthFrame(stored, m) ==> m in ChangedMonths(stored, p.frame, rows)
  {
    var stable := StableIncoming(stored, rows);
    var p := Prepare(stored, rows).value;
    var changed := p.diff.Changed();
    StableDates(stored, rows);
    MonthListRises(changed);
    MonthListSet(changed);
    DistinctMonthCount(MonthList(changed));
    RowItself();
    hide MonthList, OfKind, MonthFrame;
    forall m ensures m in Months(changed) <==> MonthFrame(p.frame, m) != MonthFrame(stored, m) {
      ChangedMonthsExact(SAME_ROW, stored, stable, m);
    }
    forall m | m in Months(changed) ensures m in ChangedMonths(stored, p.frame, rows) {
      var o :| o in changed && MonthOf(o.date) == m;
      MergeDiff(SAME_ROW, stored, stable);
      ChangedExact(SAME_ROW, stored, stable, o);
      assert o.date in Dates(rows);
      var x :| x in rows && x.date == o.date;
    }
    assert Months(changed) == ChangedMonths(stored, p.frame, rows);
  }

  lemma RowItself()
    ensures forall r :: SAME_ROW(r, r)
  {
  }

  /* ---------- when a run fails ---------- */

  /** The write at which a complete commit of n months raises, if any: its months, the audit, the state. */
  predicate RaisesWithin(s: Script, months: nat) {
    s.fault.Some? && s.fault.value.at < months + 2
  }

  /** The answer lies in the window of a bounded update; other plans take any answer. */
  predicate InPlannedWindow(plan: Instruction, rows: Fetched) {
    plan.mode == Update ==> forall o :: o in rows ==> InWindow(plan, Ordinal(o.date))
  }

  lemma WindowExact(s: Script, v: View, rows: Fetched)
    requires PlanOf(s, v.files).Ok?
    ensures EnforceWindow(PlanOf(s, v.files).value, rows)
            == if InPlannedWindow(PlanOf(s, v.files).value, rows) then Ok(rows) else Err(OutsideWindow)
  {
    hide BoundsOf, Ordinal;
  }

  lemma OutcomeEnds(s: Script, v: View)
    ensures var plan, end := PlanOf(s, v.files), Outcome(s, v).phase;
            && (end == Refused <==> plan.Err?)
            && (end == Succeeded <==>
                  && plan.Ok? && s.answer.Some? && EnforceWindow(plan.value, s.answer.value).Ok?
                  && Prepare(ReadMonthly(v.files), EnforceWindow(plan.value, s.answer.value).value).Ok?
                  && !RaisesWithin(s, |MonthList(Prepare(ReadMonthly(v.files), EnforceWindow(plan.value, s.answer.value).value).value.diff.Changed())|))
            && (end == Failed <==> end != Refused && end != Succeeded)
  {
    hide PlanOf, EnforceWindow, Prepare, ReadMonthly, FailedRun, ChangeOf, MonthList, WriteMonths, MonthSet, StateOf;
  }

  /** The three ends of a run: refused by its plan, successful, or failed. */
  lemma RunEnds(s: Script, v: View)
    ensures var stored := ReadMonthly(v.files);
            var plan := PlanRun(s.capability, s.overlap, BoundsOf(stored), s.today, s.operation);
            var end := Finish(s, Start, v).phase;
            && (end == Refused <==> plan.Err?)
            && (end == Succeeded <==>
                  && plan.Ok? && s.answer.Some? && InPlannedWindow(plan.value, s.answer.value)
                  && (forall i, j :: 0 <= i < j < |s.answer.value| ==> s.answer.value[i].date != s.answer.value[j].date)
                  && !RaisesWithin(s, |ChangedMonths(stored, Prepare(stored, s.answer.value).value.frame, s.answer.value)|))
            && (end == Failed <==> end != Refused && end != Succeeded)
  {
    FinishIsOutcome(s, v);
    OutcomeEnds(s, v);
    var stored := ReadMonthly(v.files);
    if s.answer.Some? {
      PrepareRefuses(stored, s.answer.value);
      if Prepare(stored, s.answer.value).Ok? {
        MonthsCounted(stored, s.answer.value);
      }
      if PlanOf(s, v.files).Ok? {
        WindowExact(s, v, s.answer.value);
      }
    }
    hide Finish, Prepare, ReadMonthly, MonthList, ChangedMonths, BoundsOf, PlanRun, InPlannedWindow, RaisesWithin;
    hide EnforceWindow, Outcome;
  }

  /* ---------- what a run records ---------- */

  /** Where the requested window begins: the filter if there is one, the request otherwise. */
  predicate StartsAt(plan: Instruction, start: Option<int>) {
    start == if plan.filterStart.Some? then plan.filterStart else plan.requestStart
  }

  /**
   A failed run leaves Bronze and states alone and adds one audit record, unless that write raised
   first: not a success, nothing inserted, revised or written, the plan's mode and window, and the
   rows counted as far as the run came.
   */
  lemma FailureRecord(s: Script, v: View)
    requires Finish(s, Start, v).phase == Failed
    ensures var plan := PlanRun(s.capability, s.overlap, BoundsOf(ReadMonthly(v.files)), s.today, s.operation);
            var after := Finish(s, Start, v).view;
            && plan.Ok?
            && after.files == v.files && after.states == v.states
            && if s.auditFault == Some(false) then after.runs == v.runs
               else
                 && s.runId in after.runs
                 && after.runs == v.runs[s.runId := after.runs[s.runId]]
                 && var run := after.runs[s.runId];
                    && run.series == s.series
                    && run.mode == plan.value.mode
                    && StartsAt(plan.value, run.requestedStart)
                    && run.requestedEnd == plan.value.requestEnd
                    && run.fetched == (if s.answer.Some? then |s.answer.value| else 0)
                    && run.accepted == (if s.answer.Some? && InPlannedWindow(plan.value, s.answer.value)
                                        then |s.answer.value| else 0)
                    && run.inserted == 0 && run.revised == 0 && run.partitions == 0
                    && !run.success
                    && run.started == s.started && run.completed == s.failedAt
  {
    FinishIsOutcome(s, v);
    hide Finish, Prepare, ReadMonthly, ChangeOf, MonthList, BoundsOf, Ordinal;
  }

  /**
   A successful run stores the merged series, adds one audit record and replaces one state.  The
   record counts the dates that were not stored, the stored dates that now say something else, and
   the months whose content changed.
   */
  lemma SuccessRecord(s: Script, v: View)
    requires Monthly(v.files) && Finish(s, Start, v).phase == Succeeded
    ensures s.answer.Some?
    ensures var rows, stored, after := s.answer.value, ReadMonthly(v.files), Finish(s, Start, v).view;
            var plan := PlanRun(s.capability, s.overlap, BoundsOf(stored), s.today, s.operation);
            && plan.Ok?
            && s.runId in after.runs
            && after.runs == v.runs[s.runId := after.runs[s.runId]]
            && var run := after.runs[s.runId];
               && run.series == s.series
               && run.mode == plan.value.mode
               && StartsAt(plan.value, run.requestedStart)
               && run.requestedEnd == plan.value.requestEnd
               && run.fetched == run.accepted == |rows|
               && run.inserted == |NewDates(stored, rows)|
               && run.revised == |RevisedDates(stored, rows)|
               && run.partitions == |ChangedMonths(stored, ReadMonthly(after.files), rows)|
               && run.success
               && run.started == s.started && run.completed == s.completed
  {
    SuccessParts(s, v);
    var rows, stored := s.answer.value, ReadMonthly(v.files);
    InsertsCounted(stored, rows);
    RevisionsCounted(stored, rows);
    MonthsCounted(stored, rows);
    hide Finish, Prepare, ReadMonthly, MonthList, BoundsOf, NewDates, RevisedDates, ChangedMonths, NextState;
  }

  /**
   The state of a successful run: its commit time, window, mode and counts and the last stored
   observation; the time of the last reconciliation moves only for a reconciliation.
   */
  lemma SuccessState(s: Script, v: View)
    requires Monthly(v.files) && Finish(s, Start, v).phase == Succeeded
    ensures s.answer.Some?
    ensures var rows, stored, after := s.answer.value, ReadMonthly(v.files), Finish(s, Start, v).view;
            var plan := PlanRun(s.capability, s.overlap, BoundsOf(stored), s.today, s.operation);
            && plan.Ok?
            && s.series in after.states
            && after.states == v.states[s.series := after.states[s.series]]
            && var state := after.states[s.series];
               && state.lastSuccess == Some(s.completed)
               && state.lastObserved == BoundsOf(ReadMonthly(after.files)).maximum
               && StartsAt(plan.value, state.lastRequestedStart)
               && state.lastRequestedEnd == Some(plan.value.requestEnd)
               && state.mode == Some(plan.value.mode)
               && state.fetched == state.accepted == |rows|
               && state.changed == |NewDates(stored, rows)| + |RevisedDates(stored, rows)|
               && state.lastReconcile == if plan.value.mode == Reconcile then Some(s.completed)
                                         else if s.series in v.states then v.states[s.series].lastReconcile
                                         else None
  {
    SuccessParts(s, v);
    var rows, stored := s.answer.value, ReadMonthly(v.files);
    InsertsCounted(stored, rows);
    RevisionsCounted(stored, rows);
    hide Finish, Prepare, ReadMonthly, MonthList, BoundsOf, NewDates, RevisedDates, SuccessRun;
  }

  /** The pieces of a successful run. */
  lemma SuccessParts(s: Script, v: View)
    requires Monthly(v.files) && Finish(s, Start, v).phase == Succeeded
    ensures s.answer.Some? && PlanOf(s, v.files).Ok? && Prepare(ReadMonthly(v.files), s.answer.value).Ok?
    ensures var rows, plan := s.answer.value, PlanOf(s, v.files).value;
            var p, after := Prepare(ReadMonthly(v.files), rows).value, Finish(s, Start, v).view;
            && ReadMonthly(after.files) == p.frame
            && after.runs == v.runs[s.runId := SuccessRun(s, plan, rows, p)]
            && after.states == v.states[s.series := NextState(s, StateOf(v.states, s.series), plan, rows, p)]
  {
    FinishIsOutcome(s, v);
    SuccessStores(s, v);
    hide Finish, Prepare, ReadMonthly, FailedRun, MonthList, PlanOf, SuccessRun, NextState, WriteMonths, StateOf, Monthly;
    hide EnforceWindow, PlanRun, BoundsOf, MonthSet;
    OutcomeEnds(s, v);
    WindowExact(s, v, s.answer.value);
  }
}
