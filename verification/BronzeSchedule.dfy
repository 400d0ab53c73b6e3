/** One series over any schedule of days, against a source that grows and is revised. */
module BronzeSchedule {
  import opened Common
  import opened SilverRows
  import opened MonthlyFrames
  import opened BronzeFrames
  import opened Planner

  /** What the provider knows on a given day. */
  type Source = map<Date, Payload>

  /** The provider answers a plan with its rows in the requested window, in any order. */
  ghost predicate Answers(incoming: Fetched, source: Source, plan: Instruction) {
    && UniqueDates(incoming)
    && (forall o :: o in incoming ==> At(source, o.date) == Some(o.row.payload))
    && (forall d :: d in source && Requested(plan, d) ==> d in Dates(incoming))
    && (forall o :: o in incoming ==> Requested(plan, o.date))
  }

  /** Inside the requested window; a maximum-history request has no start. */
  predicate Requested(plan: Instruction, d: Date) {
    Ordinal(d) <= plan.requestEnd && (LogicalStart(plan).Some? ==> LogicalStart(plan).value <= Ordinal(d))
  }

  /** Equal numbers, or no observation in either. */
  predicate SameAt(a: Option<Payload>, b: Option<Payload>) {
    if a.Some? && b.Some? then SamePayload(a.value, b.value) else a.None? && b.None?
  }

  /** Bronze and the source have equal numbers under d. */
  predicate Agree(frame: Bronze, source: Source, d: Date) {
    SameAt(if d in frame then Some(frame[d].payload) else None, At(source, d))
  }

  /** Bronze shows the source, observation by observation. */
  ghost predicate Synced(frame: Bronze, source: Source) {
    forall d :: Agree(frame, source, d)
  }

  /** One successful run. */
  ghost predicate Runs(capability: Capability, overlap: nat, frame: Bronze, operation: Mode, today: int, source: Source,
                       after: Bronze)
  {
    var plan := PlanRun(capability, overlap, BoundsOf(frame), today, operation);
    plan.Ok? && exists incoming :: Answers(incoming, source, plan.value) && Commits(frame, plan.value, incoming, after)
  }

  predicate Commits(frame: Bronze, plan: Instruction, incoming: Fetched, after: Bronze) {
    var accepted := EnforceWindow(plan, incoming);
    accepted.Ok? && Prepare(frame, accepted.value).Ok? && after == Prepare(frame, accepted.value).value.frame
  }

  /** Stored keys are never lost and the last observation never moves back. */
  lemma RunGrows(capability: Capability, overlap: nat, frame: Bronze, operation: Mode, today: int, source: Source,
                 after: Bronze)
    requires Runs(capability, overlap, frame, operation, today, source, after)
    ensures frame.Keys <= after.Keys
    ensures BoundsOf(frame).maximum.Some? ==>
              BoundsOf(after).maximum.Some? && BoundsOf(frame).maximum.value <= BoundsOf(after).maximum.value
  {
    hide PlanRun, Prepare, Answers;
    var plan := PlanRun(capability, overlap, BoundsOf(frame), today, operation).value;
    var incoming :| Answers(incoming, source, plan) && Commits(frame, plan, incoming, after);
    KeysGrow(frame, incoming);
    assert Ordinals(frame) <= Ordinals(after);
  }

  /** A run makes Bronze agree with the source on the requested dates it has, and changes no other date. */
  lemma RunStores(frame: Bronze, plan: Instruction, source: Source, incoming: Fetched, after: Bronze, d: Date)
    requires Answers(incoming, source, plan) && Commits(frame, plan, incoming, after)
    ensures if d in source && Requested(plan, d) then Agree(after, source, d) else At(after, d) == At(frame, d)
  {
    hide Prepare, SameCell;
    PrepareAt(frame, incoming, d);
    if d in Dates(incoming) {
      var o :| o in incoming && o.date == d;
      PayloadItself(o.row.payload);
    }
  }

  lemma PayloadItself(p: Payload)
    ensures SamePayload(p, p)
  {
  }

  /** What one run leaves on which Bronze and source disagree: the dates it could not ask for. */
  lemma RunSyncsExactly(frame: Bronze, plan: Instruction, source: Source, incoming: Fetched, after: Bronze)
    requires Answers(incoming, source, plan) && Commits(frame, plan, incoming, after)
    ensures Synced(after, source)
            <==> forall d :: !Agree(frame, source, d) ==> d in source && Requested(plan, d)
  {
    hide Answers, Commits, Requested, SameAt;
    forall d ensures Agree(after, source, d) <==> (d in source && Requested(plan, d)) || Agree(frame, source, d) {
      RunStores(frame, plan, source, incoming, after, d);
      if !(d in source && Requested(plan, d)) {
        assert At(after, d) == At(frame, d);
      }
    }
  }

  /**
   A run without a start - the first one, or a reconciliation - synchronises Bronze exactly when
   every date on which they disagree is in the source and not after today.
   */
  lemma FullRunSyncsExactly(capability: Capability, overlap: nat, frame: Bronze, operation: Mode, today: int,
                            source: Source, after: Bronze)
    requires frame == map[] || operation == Reconcile
    requires Runs(capability, overlap, frame, operation, today, source, after)
    ensures Synced(after, source)
            <==> forall d :: !Agree(frame, source, d) ==> d in source && Ordinal(d) <= today
  {
    hide Answers, Commits, Agree, Synced, Ordinal;
    assert frame == map[] ==> Ordinals(frame) == {};
    var plan := PlanRun(capability, overlap, BoundsOf(frame), today, operation).value;
    var incoming :| Answers(incoming, source, plan) && Commits(frame, plan, incoming, after);
    RunSyncsExactly(frame, plan, source, incoming, after);
  }

  lemma HasBounds(frame: Bronze)
    requires frame != map[]
    ensures BoundsOf(frame).maximum.Some?
  {
    var d :| d in frame;
    assert Ordinal(d) in Ordinals(frame);
  }

  /**
   A bounded update synchronises Bronze with the source exactly when every date on which they
   disagree is in the source and inside [last observation - overlap, today].
   */
  lemma UpdateSyncsExactly(capability: Capability, overlap: nat, frame: Bronze, today: int, source: Source, after: Bronze)
    requires frame != map[] && Runs(capability, overlap, frame, Update, today, source, after)
    ensures BoundsOf(frame).maximum.Some?
    ensures Synced(after, source)
            <==> forall d :: !Agree(frame, source, d) ==>
                   d in source && BoundsOf(frame).maximum.value - overlap <= Ordinal(d) <= today
  {
    hide Answers, Commits, PlanRun, Agree, Synced, Ordinal, BoundsOf;
    HasBounds(frame);
    PlanRunOutcome(capability, overlap, BoundsOf(frame), today, Update);
    UpdateStart(capability, overlap, BoundsOf(frame), today);
    var plan := PlanRun(capability, overlap, BoundsOf(frame), today, Update).value;
    var incoming :| Answers(incoming, source, plan) && Commits(frame, plan, incoming, after);
    RunSyncsExactly(frame, plan, source, incoming, after);
  }

  lemma UpdateStart(capability: Capability, overlap: nat, bounds: Bounds, today: int)
    requires bounds.maximum.Some? && bounds.maximum.value <= today
    ensures PlanRun(capability, overlap, bounds, today, Update).Ok?
    ensures var plan := PlanRun(capability, overlap, bounds, today, Update).value;
            LogicalStart(plan) == Some(bounds.maximum.value - overlap) && plan.requestEnd == today
  {
  }

  /* ---------- any schedule ---------- */

  /** One scheduled run: its clock, the provider's knowledge, what was asked for, and whether it succeeds. */
  datatype Day = Day(today: int, source: Source, operation: Mode, succeeds: bool)

  /** The source that the last successful day showed; empty before the first. */
  function LastShown(days: seq<Day>): Source {
    if days == [] then map[]
    else if days[|days| - 1].succeeds then days[|days| - 1].source
    else LastShown(days[..|days| - 1])
  }

  /**
   Since the last successful day the source keeps its dates; before a bounded update its changes
   also lie within the overlap of the last stored observation.
   */
  ghost predicate Gradual(shown: Source, frame: Bronze, day: Day, overlap: nat) {
    && (forall d :: d in day.source ==> Ordinal(d) <= day.today)
    && (forall d :: d in shown ==> d in day.source)
    && (day.operation == Update && frame != map[] ==>
          forall d :: !SameAt(At(shown, d), At(day.source, d)) ==>
            BoundsOf(frame).maximum.Some? && BoundsOf(frame).maximum.value - overlap <= Ordinal(d))
  }

  /** Bronze before day k. */
  function Before(frames: seq<Bronze>, k: nat): Bronze
    requires k <= |frames|
  {
    if k == 0 then map[] else frames[k - 1]
  }

  /** frames[k] is Bronze after day k; a day that fails leaves it as it was. */
  ghost predicate Scheduled(capability: Capability, overlap: nat, days: seq<Day>, frames: seq<Bronze>) {
    && |frames| == |days|
    && forall k :: 0 <= k < |days| ==>
         if days[k].succeeds then
           && Gradual(LastShown(days[..k]), Before(frames, k), days[k], overlap)
           && Runs(capability, overlap, Before(frames, k), days[k].operation, days[k].today, days[k].source, frames[k])
         else frames[k] == Before(frames, k)
  }

  lemma SamePayloads(a: Payload, b: Payload, c: Payload)
    requires SamePayload(a, b) && SamePayload(b, c)
    ensures SamePayload(a, c)
  {
    SameMeanings(Row(a, "", 0), Row(b, "", 0), Row(c, "", 0));
  }

  /** A date on which Bronze differs from the new source has changed in the source. */
  lemma DisagreementIsChange(frame: Bronze, shown: Source, source: Source, d: Date)
    requires Agree(frame, shown, d) && !Agree(frame, source, d)
    ensures !SameAt(At(shown, d), At(source, d))
  {
    hide SamePayload;
    if d in frame && d in shown && d in source && SamePayload(shown[d], source[d]) {
      SamePayloads(frame[d].payload, shown[d], source[d]);
    }
  }

  lemma GradualRun(capability: Capability, overlap: nat, frame: Bronze, shown: Source, day: Day, after: Bronze)
    requires Synced(frame, shown) && Gradual(shown, frame, day, overlap)
    requires Runs(capability, overlap, frame, day.operation, day.today, day.source, after)
    ensures Synced(after, day.source)
  {
    hide Runs, PlanRun, SameAt, Agree, Ordinal, BoundsOf;
    forall d | !Agree(frame, day.source, d) ensures d in day.source && !SameAt(At(shown, d), At(day.source, d)) {
      assert Agree(frame, shown, d);
      DisagreementIsChange(frame, shown, day.source, d);
      MissingInBoth(frame, shown, day.source, d);
    }
    if day.operation == Update && frame != map[] {
      UpdateSyncsExactly(capability, overlap, frame, day.today, day.source, after);
    } else {
      BootstrapNeedsEmpty(capability, overlap, frame, day, after);
      FullRunSyncsExactly(capability, overlap, frame, day.operation, day.today, day.source, after);
    }
  }

  lemma MissingInBoth(frame: Bronze, shown: Source, source: Source, d: Date)
    requires Agree(frame, shown, d) && !Agree(frame, source, d)
    requires d in shown ==> d in source
    ensures d in source
  {
  }

  lemma BootstrapNeedsEmpty(capability: Capability, overlap: nat, frame: Bronze, day: Day, after: Bronze)
    requires Runs(capability, overlap, frame, day.operation, day.today, day.source, after)
    ensures day.operation == Bootstrap ==> frame == map[]
  {
    hide BoundsOf, PlanRun, Answers, Commits;
    if frame != map[] {
      HasBounds(frame);
      PlanRunOutcome(capability, overlap, BoundsOf(frame), day.today, day.operation);
    }
  }

  /** No source date is ever skipped: after each day Bronze shows the source of the last day that succeeded. */
  lemma {:induction false} ScheduleSyncs(capability: Capability, overlap: nat, days: seq<Day>, frames: seq<Bronze>, k: nat)
    requires Scheduled(capability, overlap, days, frames) && k <= |days|
    ensures Synced(Before(frames, k), LastShown(days[..k]))
  {
    hide Runs, PlanRun, Gradual;
    if k > 0 {
      ScheduleSyncs(capability, overlap, days, frames, k - 1);
      assert days[..k][..k - 1] == days[..k - 1];
      if days[k - 1].succeeds {
        GradualRun(capability, overlap, Before(frames, k - 1), LastShown(days[..k - 1]), days[k - 1], frames[k - 1]);
      }
    }
  }
}
