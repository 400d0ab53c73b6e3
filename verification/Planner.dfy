/**
 Fetch planning from authoritative Bronze bounds, the window a provider answer must respect,
 and the ingestion state that a commit records.
 */
module Planner {
  import opened Common
  import opened MonthlyFrames
  import opened BronzeFrames
  import opened IntSets

  datatype Mode = Bootstrap | Update | Reconcile

  datatype Capability = DateRange | FullFile

  /** Ordinals of the first and last stored observation. */
  datatype Bounds = Bounds(minimum: Option<int>, maximum: Option<int>)

  datatype Instruction = Instruction(mode: Mode, requestStart: Option<int>, requestEnd: int, maximumHistory: bool,
                                     filterStart: Option<int>, filterEnd: Option<int>)

  datatype PlanError =
    | NothingToReconcile | TodayTooEarly
    | BootstrapNotEmpty | BootstrapUnresolved | UpdateUnbounded
    | OutsideWindow | NoLogicalStart

  /* ---------- bounds ---------- */

  function Ordinals(frame: Bronze): set<int> {
    set d | d in frame :: Ordinal(d)
  }

  function BoundsOf(frame: Bronze): Bounds {
    Bounds(Least(Ordinals(frame)), Greatest(Ordinals(frame)))
  }

  /** The bounds are the least and the greatest stored day, and absent exactly without rows. */
  lemma BoundsExact(frame: Bronze)
    ensures var b := BoundsOf(frame);
            && (frame == map[] <==> b.minimum.None?) && (frame == map[] <==> b.maximum.None?)
            && (frame != map[] ==>
                  && (exists d :: d in frame && Ordinal(d) == b.minimum.value)
                  && (exists d :: d in frame && Ordinal(d) == b.maximum.value)
                  && forall d :: d in frame ==> b.minimum.value <= Ordinal(d) <= b.maximum.value)
  {
    hide Ordinal;
    forall d | d in frame ensures Ordinal(d) in Ordinals(frame) {
    }
    if frame != map[] {
      var d :| d in frame;
      assert Ordinal(d) in Ordinals(frame);
    }
  }

  /* ---------- planning ---------- */

  function ChooseMode(bounds: Bounds, reconcile: bool): Result<Mode, PlanError> {
    if bounds.maximum.None? then
      if reconcile then Err(NothingToReconcile) else Ok(Bootstrap)
    else if reconcile then Ok(Reconcile)
    else Ok(Update)
  }

  function BuildPlan(capability: Capability, overlap: nat, bounds: Bounds, today: int, reconcile: bool)
    : Result<Instruction, PlanError>
  {
    var mode := ChooseMode(bounds, reconcile);
    if mode.Err? then Err(mode.error)
    else if mode.value == Bootstrap then Ok(Instruction(Bootstrap, None, today, true, None, None))
    else if bounds.maximum.Some? && today < bounds.maximum.value then Err(TodayTooEarly)
    else if mode.value == Reconcile then Ok(Instruction(Reconcile, None, today, true, None, None))
    else
      var start := if bounds.maximum.Some? then bounds.maximum.value - overlap else today;
      match capability
      case DateRange => Ok(Instruction(Update, Some(start), today, false, Some(start), Some(today)))
      case FullFile => Ok(Instruction(Update, None, today, false, Some(start), Some(today)))
  }

  /** filter_start or request_start. */
  function LogicalStart(plan: Instruction): Option<int> {
    if plan.filterStart.Some? then plan.filterStart else plan.requestStart
  }

  /** The plan of one requested operation, with the guards around it. */
  function PlanRun(capability: Capability, overlap: nat, bounds: Bounds, today: int, operation: Mode)
    : Result<Instruction, PlanError>
  {
    if operation == Bootstrap && bounds.maximum.Some? then Err(BootstrapNotEmpty)
    else
      var plan := BuildPlan(capability, overlap, bounds, today, operation == Reconcile);
      if plan.Err? then plan
      else if operation == Bootstrap && plan.value.mode != Bootstrap then Err(BootstrapUnresolved)
      else if operation == Update && bounds.maximum.Some? && (plan.value.mode != Update || plan.value.maximumHistory)
      then Err(UpdateUnbounded)
      else plan
  }

  predicate InWindow(plan: Instruction, day: int) {
    LogicalStart(plan).Some? && LogicalStart(plan).value <= day <= plan.requestEnd
  }

  /** A bounded update refuses any row outside its window. */
  function EnforceWindow(plan: Instruction, incoming: Fetched): Result<Fetched, PlanError> {
    if plan.mode != Update || incoming == [] then Ok(incoming)
    else if LogicalStart(plan).None? then Err(NoLogicalStart)
    else if exists o :: o in incoming && !InWindow(plan, Ordinal(o.date)) then Err(OutsideWindow)
    else Ok(incoming)
  }

  /**
   The guards after planning never fire; a run is refused exactly for an explicit bootstrap of
   a non-empty series, a reconciliation of an empty one, or a clock before the last observation.
   */
  lemma PlanRunOutcome(capability: Capability, overlap: nat, bounds: Bounds, today: int, operation: Mode)
    ensures var r := PlanRun(capability, overlap, bounds, today, operation);
            && (r == Err(BootstrapNotEmpty) <==> operation == Bootstrap && bounds.maximum.Some?)
            && (r == Err(NothingToReconcile) <==> operation == Reconcile && bounds.maximum.None?)
            && (r == Err(TodayTooEarly) <==> operation != Bootstrap && bounds.maximum.Some? && today < bounds.maximum.value)
            && (r.Err? ==> r.error in {BootstrapNotEmpty, NothingToReconcile, TodayTooEarly})
            && (r.Ok? && bounds.maximum.None? ==> r.value == Instruction(Bootstrap, None, today, true, None, None))
            && (r.Ok? && operation == Reconcile ==> r.value == Instruction(Reconcile, None, today, true, None, None))
  {
  }

  /** After bootstrap, every update window is exactly [maximum - overlap, today]. */
  lemma UpdateWindow(capability: Capability, overlap: nat, bounds: Bounds, today: int)
    requires bounds.maximum.Some? && bounds.maximum.value <= today
    ensures var r := PlanRun(capability, overlap, bounds, today, Update);
            && r.Ok? && r.value.mode == Update && !r.value.maximumHistory
            && r.value.requestEnd == today
            && r.value.requestStart == (if capability == DateRange then Some(bounds.maximum.value - overlap) else None)
            && r.value.filterStart == Some(bounds.maximum.value - overlap) && r.value.filterEnd == Some(today)
            && forall day :: InWindow(r.value, day) <==> bounds.maximum.value - overlap <= day <= today
  {
  }

  /** A bounded update accepts an answer exactly when every row lies in that window. */
  lemma WindowEnforced(capability: Capability, overlap: nat, bounds: Bounds, today: int, incoming: Fetched)
    requires bounds.maximum.Some? && bounds.maximum.value <= today
    ensures PlanRun(capability, overlap, bounds, today, Update).Ok?
    ensures var plan := PlanRun(capability, overlap, bounds, today, Update).value;
            if (forall o :: o in incoming ==> bounds.maximum.value - overlap <= Ordinal(o.date) <= today)
            then EnforceWindow(plan, incoming) == Ok(incoming)
            else EnforceWindow(plan, incoming) == Err(OutsideWindow)
  {
    hide Ordinal;
    UpdateWindow(capability, overlap, bounds, today);
  }

  /* ---------- state ---------- */

  datatype State = State(lastSuccess: Option<int>, lastObserved: Option<int>, lastRequestedStart: Option<int>,
                         lastRequestedEnd: Option<int>, mode: Option<Mode>, fetched: nat, accepted: nat, changed: nat,
                         lastReconcile: Option<int>)

  const NEVER := State(None, None, None, None, None, 0, 0, 0, None)

  function AdvanceState(prior: State, plan: Instruction, committedAt: int, bounds: Bounds,
                        fetched: nat, accepted: nat, changed: nat): State
  {
    prior.(lastSuccess := Some(committedAt),
           lastObserved := bounds.maximum,
           lastRequestedStart := LogicalStart(plan),
           lastRequestedEnd := Some(plan.requestEnd),
           mode := Some(plan.mode),
           fetched := fetched,
           accepted := accepted,
           changed := changed,
           lastReconcile := if plan.mode == Reconcile then Some(committedAt) else prior.lastReconcile)
  }

  /** One record of the run audit. */
  datatype Run = Run(series: int, mode: Mode, requestedStart: Option<int>, requestedEnd: int,
                     fetched: nat, accepted: nat, inserted: nat, revised: nat, partitions: nat,
                     success: bool, started: int, completed: int)

  datatype LatestError = StateWithoutBronze

  /** Bronze wins over a stale state; only a claim on empty Bronze is an error. */
  function AuthoritativeLatest(state: State, bounds: Bounds): Result<Option<int>, LatestError> {
    if state.lastObserved.None? then Ok(bounds.maximum)
    else if bounds.maximum.None? then Err(StateWithoutBronze)
    else if state.lastObserved != bounds.maximum then Ok(bounds.maximum)
    else Ok(state.lastObserved)
  }

  /** A state advanced with the committed bounds agrees with Bronze. */
  lemma AdvancedStateIsAuthoritative(prior: State, plan: Instruction, at: int, frame: Bronze, fetched: nat, accepted: nat,
                                     changed: nat, later: Bronze)
    requires later.Keys >= frame.Keys
    ensures AuthoritativeLatest(AdvanceState(prior, plan, at, BoundsOf(frame), fetched, accepted, changed), BoundsOf(later))
            == Ok(BoundsOf(later).maximum)
  {
    if frame != map[] {
      var d :| d in frame;
      assert Ordinal(d) in Ordinals(later);
    }
  }
}
