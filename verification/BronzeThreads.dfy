/**
 One worker thread of a batch, step by step: unlocked reads, the locked multi-file commit with
 its compensation, and the locked failure audit.
 */
module BronzeThreads {
  import opened Common
  import opened MonthlyFrames
  import opened BronzeFrames
  import opened Planner

  /** The commit's k-th write raises, before or after it took effect. */
  datatype Fault = Fault(at: nat, applied: bool)

  /** Everything one thread is given: its series, the provider's answer, its clocks and its faults. */
  datatype Script = Script(series: int, runId: int, capability: Capability, overlap: nat, today: int, operation: Mode,
                           answer: Option<Fetched>, started: int, completed: int, failedAt: int,
                           fault: Option<Fault>, auditFault: Option<bool>)

  type Runs = map<int, Run>

  type States = map<int, State>

  /** What a thread can see: its own monthly files and the two shared snapshots. */
  datatype View = View(files: Files<Row>, runs: Runs, states: States)

  datatype Change = Change(frame: Bronze, months: seq<Month>, run: Run, state: State, failure: Run)

  datatype Backups = Backups(files: Files<Row>, runs: Runs, states: States)

  datatype Phase =
    | Start
    | Planned(plan: Instruction)
    | Accepted(plan: Instruction, rows: Fetched)
    | Staged(plan: Instruction, rows: Fetched, prepared: Prepared)
    | Ready(c: Change)
    | Locked(c: Change)
    | FilesBacked(c: Change, files: Files<Row>)
    | RunsBacked(c: Change, files: Files<Row>, runs: Runs)
    | Writing(c: Change, b: Backups, k: nat)
    | RunsRead(c: Change, b: Backups, runsSeen: Runs)
    | StatesNext(c: Change, b: Backups)
    | StatesRead(c: Change, b: Backups, statesSeen: States)
    | Committed(c: Change)
    | Restoring(c: Change, b: Backups, j: nat)
    | Failing(failure: Run)
    | AuditLocked(failure: Run)
    | AuditRead(failure: Run, runsSeen: Runs)
    | AuditDone
    | Refused
    | Succeeded
    | Failed

  predicate Terminal(p: Phase) {
    p.Refused? || p.Succeeded? || p.Failed?
  }

  /** The phases between taking and releasing the write lock. */
  predicate Holds(p: Phase) {
    || p.Locked? || p.FilesBacked? || p.RunsBacked? || p.Writing? || p.RunsRead? || p.StatesNext? || p.StatesRead?
    || p.Committed? || p.Restoring? || p.AuditLocked? || p.AuditRead? || p.AuditDone?
  }

  /** The next step takes the lock. */
  predicate Acquires(p: Phase) {
    p.Ready? || p.Failing?
  }

  /* ---------- the months to write, sorted ---------- */

  predicate Earlier(a: Month, b: Month) {
    a.year < b.year || (a.year == b.year && a.month < b.month)
  }

  function InsertMonth(list: seq<Month>, m: Month): seq<Month> {
    if m in list then list
    else if list == [] then [m]
    else if Earlier(list[|list| - 1], m) then list + [m]
    else InsertMonth(list[..|list| - 1], m) + [list[|list| - 1]]
  }

  function MonthList(rows: Fetched): seq<Month> {
    if rows == [] then [] else InsertMonth(MonthList(rows[..|rows| - 1]), MonthOf(rows[|rows| - 1].date))
  }

  lemma {:induction false} InsertMonthSet(list: seq<Month>, m: Month)
    ensures MonthSet(InsertMonth(list, m)) == MonthSet(list) + {m}
  {
    if m !in list && list != [] && !Earlier(list[|list| - 1], m) {
      var n := |list| - 1;
      InsertMonthSet(list[..n], m);
      assert list == list[..n] + [list[n]];
      assert MonthSet(list) == MonthSet(list[..n]) + {list[n]};
      var front := InsertMonth(list[..n], m);
      assert MonthSet(front + [list[n]]) == MonthSet(front) + {list[n]};
    }
  }

  lemma {:induction false} MonthListSet(rows: Fetched)
    ensures MonthSet(MonthList(rows)) == Months(rows)
  {
    if rows != [] {
      var n := |rows| - 1;
      MonthListSet(rows[..n]);
      InsertMonthSet(MonthList(rows[..n]), MonthOf(rows[n].date));
      assert rows == rows[..n] + [rows[n]];
      assert Months(rows) == Months(rows[..n]) + {MonthOf(rows[n].date)};
    }
  }

  /* ---------- records ---------- */

  function FailedRun(s: Script, plan: Instruction, fetched: nat, accepted: nat): Run {
    Run(s.series, plan.mode, LogicalStart(plan), plan.requestEnd, fetched, accepted, 0, 0, 0, false, s.started, s.failedAt)
  }

  function SuccessRun(s: Script, plan: Instruction, rows: Fetched, p: Prepared): Run {
    Run(s.series, plan.mode, LogicalStart(plan), plan.requestEnd, |rows|, |rows|, |p.diff.inserts|, |p.diff.revisions|,
        |MonthList(p.diff.Changed())|, true, s.started, s.completed)
  }

  function StateOf(states: States, series: int): State {
    if series in states then states[series] else NEVER
  }

  function NextState(s: Script, prior: State, plan: Instruction, rows: Fetched, p: Prepared): State {
    AdvanceState(prior, plan, s.completed, BoundsOf(p.frame), |rows|, |rows|, |p.diff.inserts| + |p.diff.revisions|)
  }

  function ChangeOf(s: Script, prior: State, plan: Instruction, rows: Fetched, p: Prepared): Change {
    Change(p.frame, MonthList(p.diff.Changed()), SuccessRun(s, plan, rows, p), NextState(s, prior, plan, rows, p),
           FailedRun(s, plan, |rows|, |rows|))
  }

  function PlanOf(s: Script, files: Files<Row>): Result<Instruction, PlanError> {
    PlanRun(s.capability, s.overlap, BoundsOf(ReadMonthly(files)), s.today, s.operation)
  }

  /* ---------- one step ---------- */

  predicate RaisesAt(s: Script, k: nat) {
    s.fault.Some? && s.fault.value.at == k
  }

  /** Whether write k takes effect. */
  predicate Takes(s: Script, k: nat) {
    RaisesAt(s, k) ==> s.fault.value.applied
  }

  function WrittenMonth(files: Files<Row>, c: Change, k: nat): Files<Row>
    requires k < |c.months|
  {
    files[c.months[k] := MonthFrame(c.frame, c.months[k])]
  }

  function RestoredMonth(files: Files<Row>, backup: Files<Row>, m: Month): Files<Row> {
    if m in backup then files[m := backup[m]] else files - {m}
  }

  datatype Stepped = Stepped(phase: Phase, view: View)

  /** The unlocked part: plan, fetch, enforce the window, prepare, read the prior state. */
  function StepUnlocked(s: Script, p: Phase, v: View): Stepped
    requires p.Start? || p.Planned? || p.Accepted? || p.Staged?
  {
    match p
    case Start =>
      var plan := PlanOf(s, v.files);
      Stepped(if plan.Err? then Refused else Planned(plan.value), v)
    case Planned(plan) =>
      if s.answer.None? then Stepped(Failing(FailedRun(s, plan, 0, 0)), v)
      else
        var accepted := EnforceWindow(plan, s.answer.value);
        Stepped(if accepted.Err? then Failing(FailedRun(s, plan, |s.answer.value|, 0)) else Accepted(plan, accepted.value), v)
    case Accepted(plan, rows) =>
      var prepared := Prepare(ReadMonthly(v.files), rows);
      Stepped(if prepared.Err? then Failing(FailedRun(s, plan, |rows|, |rows|)) else Staged(plan, rows, prepared.value), v)
    case Staged(plan, rows, prepared) =>
      Stepped(Ready(ChangeOf(s, StateOf(v.states, s.series), plan, rows, prepared)), v)
  }

  /** The commit under the lock: backups, month writes, run audit, state, release. */
  function StepCommit(s: Script, p: Phase, v: View): Stepped
    requires p.Locked? || p.FilesBacked? || p.RunsBacked? || p.Writing? || p.RunsRead? || p.StatesNext? || p.StatesRead?
             || p.Committed?
  {
    match p
    case Locked(c) => Stepped(FilesBacked(c, v.files), v)
    case FilesBacked(c, files) => Stepped(RunsBacked(c, files, v.runs), v)
    case RunsBacked(c, files, runs) => Stepped(Writing(c, Backups(files, runs, v.states), 0), v)
    case Writing(c, b, k) =>
      if k >= |c.months| then Stepped(RunsRead(c, b, v.runs), v)
      else
        var after := if Takes(s, k) then v.(files := WrittenMonth(v.files, c, k)) else v;
        Stepped(if RaisesAt(s, k) then Restoring(c, b, 0) else Writing(c, b, k + 1), after)
    case RunsRead(c, b, seen) =>
      var n := |c.months|;
      var after := if Takes(s, n) then v.(runs := seen[s.runId := c.run]) else v;
      Stepped(if RaisesAt(s, n) then Restoring(c, b, 0) else StatesNext(c, b), after)
    case StatesNext(c, b) => Stepped(StatesRead(c, b, v.states), v)
    case StatesRead(c, b, seen) =>
      var n := |c.months| + 1;
      var after := if Takes(s, n) then v.(states := seen[s.series := c.state]) else v;
      Stepped(if RaisesAt(s, n) then Restoring(c, b, 0) else Committed(c), after)
    case Committed(c) => Stepped(Succeeded, v)
  }

  /** Restoring from the backups in reverse order, then the failure audit under its own lock. */
  function StepFailure(s: Script, p: Phase, v: View): Stepped
    requires p.Restoring? || p.AuditLocked? || p.AuditRead? || p.AuditDone?
  {
    match p
    case Restoring(c, b, j) =>
      var n := |c.months|;
      if j == 0 then Stepped(Restoring(c, b, 1), v.(states := b.states))
      else if j == 1 then Stepped(Restoring(c, b, 2), v.(runs := b.runs))
      else if j < n + 2 then Stepped(Restoring(c, b, j + 1), v.(files := RestoredMonth(v.files, b.files, c.months[n + 1 - j])))
      else Stepped(Failing(c.failure), v)
    case AuditLocked(failure) => Stepped(AuditRead(failure, v.runs), v)
    case AuditRead(failure, seen) =>
      Stepped(AuditDone, if s.auditFault == Some(false) then v else v.(runs := seen[s.runId := failure]))
    case AuditDone => Stepped(Failed, v)
  }

  function Step(s: Script, p: Phase, v: View): Stepped {
    if Terminal(p) then Stepped(p, v)
    else if p.Ready? then Stepped(Locked(p.c), v)
    else if p.Failing? then Stepped(AuditLocked(p.failure), v)
    else if p.Start? || p.Planned? || p.Accepted? || p.Staged? then StepUnlocked(s, p, v)
    else if p.Restoring? || p.AuditLocked? || p.AuditRead? || p.AuditDone? then StepFailure(s, p, v)
    else StepCommit(s, p, v)
  }

  /* ---------- running alone ---------- */

  function Stage(p: Phase): nat {
    match p
    case Start => 6
    case Planned(_) => 5
    case Accepted(_, _) => 4
    case Staged(_, _, _) => 3
    case Refused => 0
    case Succeeded => 0
    case Failed => 0
    case Failing(_) => 1
    case AuditLocked(_) => 1
    case AuditRead(_, _) => 1
    case AuditDone => 1
    case _ => 2
  }

  function Remaining(p: Phase): int {
    match p
    case Ready(c) => 2 * |c.months| + 20
    case Locked(c) => 2 * |c.months| + 19
    case FilesBacked(c, _) => 2 * |c.months| + 18
    case RunsBacked(c, _, _) => 2 * |c.months| + 17
    case Writing(c, _, k) => (if k <= |c.months| then |c.months| - k else 0) + |c.months| + 10
    case RunsRead(c, _, _) => |c.months| + 9
    case StatesNext(c, _) => |c.months| + 8
    case StatesRead(c, _, _) => |c.months| + 7
    case Committed(_) => 1
    case Restoring(c, _, j) => if j <= |c.months| + 3 then |c.months| + 3 - j else 0
    case Failing(_) => 4
    case AuditLocked(_) => 3
    case AuditRead(_, _) => 2
    case AuditDone => 1
    case _ => 0
  }

  lemma StepDecreases(s: Script, p: Phase, v: View)
    requires !Terminal(p)
    ensures var q := Step(s, p, v).phase;
            Stage(q) < Stage(p) || (Stage(q) == Stage(p) && 0 <= Remaining(q) < Remaining(p))
  {
    hide PlanOf, EnforceWindow, Prepare, ChangeOf, FailedRun, WrittenMonth, RestoredMonth;
  }

  /** Where a thread ends when nobody else runs. */
  function Finish(s: Script, p: Phase, v: View): Stepped
    decreases Stage(p), Remaining(p)
  {
    if Terminal(p) then Stepped(p, v)
    else
      StepDecreases(s, p, v);
      var next := Step(s, p, v);
      Finish(s, next.phase, next.view)
  }
}
