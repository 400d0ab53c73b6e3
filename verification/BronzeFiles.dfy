/**
 The threads of a batch on the files themselves: the audit and states that the threads update by
 id are sorted snapshot files, so equal records mean equal files.
 */
module BronzeFiles {
  import opened Common
  import opened MonthlyFrames
  import opened BronzeFrames
  import opened Planner
  import opened Snapshots
  import opened BronzeThreads
  import opened BronzeInterleaving
  import Store = BronzeStore

  /* ---------- files and records ---------- */

  /** A record's place in its file, before its id. */
  type Major<!R> = (int, R) -> int

  /** Runs are sorted by start; states by their series' provider, which `rank` orders. */
  const BY_START: Major<Run> := (id: int, run: Run) => run.started

  function ByRank(rank: int -> int): Major<State> {
    (id: int, state: State) => rank(id)
  }

  function Entries<R>(m: map<int, R>, major: Major<R>): map<int, Entry<R>> {
    map id | id in m :: Entry(major(id, m[id]), id, m[id])
  }

  /** The disk holds exactly these records; a snapshot file appears with its first record. */
  ghost predicate Represents(rank: int -> int, disk: Store.Disk, sh: Shared) {
    && Store.ValidDisk(disk)
    && ShowsMonths(disk, sh)
    && ShowsRuns(disk, sh.runs)
    && ShowsStates(rank, disk, sh.states)
  }

  ghost predicate ShowsMonths(disk: Store.Disk, sh: Shared) {
    forall k, m :: At(disk, Store.MonthFile(k, m)) == MonthContent(SeriesOf(sh, k), m)
  }

  function MonthContent(files: Files<Row>, m: Month): Option<Store.Content> {
    if m in files then Some(Store.MonthRows(files[m])) else None
  }

  ghost predicate ShowsRuns(disk: Store.Disk, runs: Runs)
    requires Store.ValidDisk(disk)
  {
    && (Store.RunsFile in disk <==> runs != map[])
    && ById(Store.RunsOn(disk)) == Entries(runs, BY_START)
  }

  ghost predicate ShowsStates(rank: int -> int, disk: Store.Disk, states: States)
    requires Store.ValidDisk(disk)
  {
    && (Store.StatesFile in disk <==> states != map[])
    && ById(Store.StatesOn(disk)) == Entries(states, ByRank(rank))
  }

  /** Equal records, equal files. */
  lemma RecordsDetermineDisk(rank: int -> int, a: Store.Disk, b: Store.Disk, sh: Shared)
    requires Represents(rank, a, sh) && Represents(rank, b, sh)
    ensures a == b
  {
    hide ById, Canonical, Entries;
    MapDeterminesFile(Store.RunsOn(a), Store.RunsOn(b));
    MapDeterminesFile(Store.StatesOn(a), Store.StatesOn(b));
    forall p ensures At(a, p) == At(b, p) {
      if p.MonthFile? {
        assert At(a, Store.MonthFile(p.series, p.month)) == At(b, Store.MonthFile(p.series, p.month));
      }
    }
    SameEntries(a, b);
  }

  lemma SharedDetermines(rank: int -> int, disk: Store.Disk, a: Shared, b: Shared)
    requires Represents(rank, disk, a) && SameShared(a, b)
    ensures Represents(rank, disk, b)
  {
    hide Store.ValidDisk, ById, Entries;
    forall k, m ensures At(disk, Store.MonthFile(k, m)) == MonthContent(SeriesOf(b, k), m) {
      assert SeriesOf(a, k) == SeriesOf(b, k);
    }
  }

  /* ---------- one run on the files ---------- */

  function RunEntry(s: Script, run: Run): Entry<Run> {
    Entry(run.started, s.runId, run)
  }

  function StateEntry(rank: int -> int, s: Script, state: State): Entry<State> {
    Entry(rank(s.series), s.series, state)
  }

  function FileState(disk: Store.Disk, series: int): State
    requires Store.ValidDisk(disk)
  {
    var states := ById(Store.StatesOn(disk));
    if series in states then states[series].record else NEVER
  }

  function FileAudit(disk: Store.Disk, s: Script, failure: Run): (after: Store.Disk)
    requires Store.ValidDisk(disk)
    ensures Store.ValidDisk(after)
  {
    Store.WithRunValid(disk, RunEntry(s, failure));
    if s.auditFault == Some(false) then disk else Store.WithRun(disk, RunEntry(s, failure))
  }

  /** A run of one series by the unit of work: its complete commit, its audit record alone, or nothing. */
  function FileRun(rank: int -> int, disk: Store.Disk, s: Script): (after: Store.Disk)
    requires Store.ValidDisk(disk)
    ensures Store.ValidDisk(after)
  {
    var files := Store.SeriesFiles(disk, s.series);
    var plan := PlanOf(s, files);
    if plan.Err? then disk
    else if s.answer.None? then FileAudit(disk, s, FailedRun(s, plan.value, 0, 0))
    else
      var accepted := EnforceWindow(plan.value, s.answer.value);
      if accepted.Err? then FileAudit(disk, s, FailedRun(s, plan.value, |s.answer.value|, 0))
      else
        var rows := accepted.value;
        var p := Prepare(ReadMonthly(files), rows);
        if p.Err? || (s.fault.Some? && s.fault.value.at <= |MonthList(p.value.diff.Changed())| + 1)
        then FileAudit(disk, s, FailedRun(s, plan.value, |rows|, |rows|))
        else
          Store.Committed(disk, s.series, p.value, RunEntry(s, SuccessRun(s, plan.value, rows, p.value)),
                          StateEntry(rank, s, NextState(s, FileState(disk, s.series), plan.value, rows, p.value)))
  }

  /** All series of an order, one after another, on the files. */
  function FileSequential(rank: int -> int, disk: Store.Disk, scripts: seq<Script>, order: seq<nat>): (after: Store.Disk)
    requires Store.ValidDisk(disk) && Indices(order, |scripts|)
    ensures Store.ValidDisk(after)
    decreases |order|
  {
    if order == [] then disk
    else FileRun(rank, FileSequential(rank, disk, scripts, order[..|order| - 1]), scripts[order[|order| - 1]])
  }

  /* ---------- it is the run on the records ---------- */

  lemma EntriesUpdate<R>(m: map<int, R>, major: Major<R>, id: int, r: R)
    ensures m[id := r] != map[]
    ensures Entries(m[id := r], major) == Entries(m, major)[id := Entry(major(id, r), id, r)]
  {
    assert id in m[id := r];
  }

  lemma SeriesFilesAre(rank: int -> int, disk: Store.Disk, sh: Shared, k: int)
    requires Represents(rank, disk, sh)
    ensures Store.SeriesFiles(disk, k) == SeriesOf(sh, k)
  {
    hide ById, Entries, Store.SeriesFiles;
    forall m ensures At(Store.SeriesFiles(disk, k), m) == At(SeriesOf(sh, k), m) {
      Store.SeriesFileAt(disk, k, m);
      assert At(disk, Store.MonthFile(k, m)) == MonthContent(SeriesOf(sh, k), m);
    }
    SameEntries(Store.SeriesFiles(disk, k), SeriesOf(sh, k));
  }

  lemma FileStateIs(rank: int -> int, disk: Store.Disk, sh: Shared, k: int)
    requires Represents(rank, disk, sh)
    ensures FileState(disk, k) == StateOf(sh.states, k)
  {
    hide ById, Store.ValidDisk;
  }

  /** The audit file after one upsert, and nothing else. */
  lemma RunUpserted(disk: Store.Disk, run: Entry<Run>)
    requires Store.ValidDisk(disk)
    ensures var after := Store.WithRun(disk, run);
            && Store.ValidDisk(after)
            && (forall p :: p != Store.RunsFile ==> At(after, p) == At(disk, p))
            && Store.RunsFile in after
            && ById(Store.RunsOn(after)) == ById(Store.RunsOn(disk))[run.id := run]
  {
    hide ById, Upsert, Canonical;
    Store.WithRunValid(disk, run);
    UpsertIsMapUpdate(Store.RunsOn(disk), run);
  }

  lemma AuditOnFiles(rank: int -> int, disk: Store.Disk, sh: Shared, s: Script, failure: Run)
    requires Represents(rank, disk, sh)
    ensures Represents(rank, FileAudit(disk, s, failure),
                       sh.(runs := Audited(s, SharedView(sh, s), failure).view.runs))
  {
    hide ById, Store.ValidDisk, Store.WithRun, Entries;
    if s.auditFault != Some(false) {
      var after := Store.WithRun(disk, RunEntry(s, failure));
      RunUpserted(disk, RunEntry(s, failure));
      EntriesUpdate(sh.runs, BY_START, s.runId, failure);
      assert At(after, Store.StatesFile) == At(disk, Store.StatesFile);
      assert ShowsStates(rank, after, sh.states);
      assert ShowsRuns(after, sh.runs[s.runId := failure]);
      assert ShowsMonths(after, sh);
    }
  }

  lemma CommittedFiles(disk: Store.Disk, series: int, p: Prepared, run: Entry<Run>, state: Entry<State>)
    requires Store.ValidDisk(disk)
    ensures Store.RunsFile in Store.Committed(disk, series, p, run, state)
    ensures Store.StatesFile in Store.Committed(disk, series, p, run, state)
  {
    hide Upsert, Store.ValidDisk, MonthFrame;
  }

  lemma CommitOnFiles(rank: int -> int, disk: Store.Disk, sh: Shared, s: Script, p: Prepared, run: Run, state: State)
    requires Represents(rank, disk, sh)
    ensures Represents(rank, Store.Committed(disk, s.series, p, RunEntry(s, run), StateEntry(rank, s, state)),
                       Shared(sh.bronze[s.series := WriteMonths(SeriesOf(sh, s.series), p.frame, p.months)],
                              sh.runs[s.runId := run], sh.states[s.series := state]))
  {
    var next := Shared(sh.bronze[s.series := WriteMonths(SeriesOf(sh, s.series), p.frame, p.months)],
                       sh.runs[s.runId := run], sh.states[s.series := state]);
    hide ById, Entries, Store.ValidDisk, Store.Committed, MonthFrame;
    var after := Store.Committed(disk, s.series, p, RunEntry(s, run), StateEntry(rank, s, state));
    Store.CommitParts(disk, s.series, p, RunEntry(s, run), StateEntry(rank, s, state));
    CommittedFiles(disk, s.series, p, RunEntry(s, run), StateEntry(rank, s, state));
    EntriesUpdate(sh.runs, BY_START, s.runId, run);
    EntriesUpdate(sh.states, ByRank(rank), s.series, state);
    forall k, m ensures At(after, Store.MonthFile(k, m)) == MonthContent(SeriesOf(next, k), m) {
      assert At(disk, Store.MonthFile(k, m)) == MonthContent(SeriesOf(sh, k), m);
      Store.CommittedMonth(disk, s.series, p, RunEntry(s, run), StateEntry(rank, s, state), m);
    }
    assert ShowsStates(rank, after, next.states);
    assert ShowsRuns(after, next.runs);
    assert ShowsMonths(after, next);
  }

  /** Running a series on the files and running it on the records give the same disk. */
  lemma RunOnFiles(rank: int -> int, disk: Store.Disk, sh: Shared, s: Script)
    requires Represents(rank, disk, sh)
    ensures Represents(rank, FileRun(rank, disk, s), RunSeries(sh, s))
  {
    hide Represents, PlanOf, EnforceWindow, Prepare, FailedRun, SuccessRun, NextState, FileAudit, Store.Committed;
    hide MonthList, Store.SeriesFiles, ReadMonthly, WriteMonths, MonthSet, FileState, StateOf, RunEntry, StateEntry;
    hide Store.ValidDisk, Finish;
    DiskIsValid(rank, disk, sh);
    SeriesFilesAre(rank, disk, sh, s.series);
    FileStateIs(rank, disk, sh, s.series);
    FinishIsOutcome(s, SharedView(sh, s));
    var files := SeriesOf(sh, s.series);
    var plan := PlanOf(s, files);
    if plan.Err? {
      SharedDetermines(rank, disk, sh, RunSeries(sh, s));
    } else if s.answer.None? {
      AuditOnFiles(rank, disk, sh, s, FailedRun(s, plan.value, 0, 0));
      SharedDetermines(rank, FileRun(rank, disk, s),
                       sh.(runs := Audited(s, SharedView(sh, s), FailedRun(s, plan.value, 0, 0)).view.runs), RunSeries(sh, s));
    } else {
      AnswerOnFiles(rank, disk, sh, s, plan.value);
    }
  }

  lemma DiskIsValid(rank: int -> int, disk: Store.Disk, sh: Shared)
    requires Represents(rank, disk, sh)
    ensures Store.ValidDisk(disk)
  {
  }

  lemma AnswerOnFiles(rank: int -> int, disk: Store.Disk, sh: Shared, s: Script, plan: Instruction)
    requires Represents(rank, disk, sh)
    requires PlanOf(s, SeriesOf(sh, s.series)) == Ok(plan) && s.answer.Some?
    requires Finish(s, Start, SharedView(sh, s)) == Outcome(s, SharedView(sh, s))
    ensures Represents(rank, FileRun(rank, disk, s), RunSeries(sh, s))
  {
    hide Represents, PlanOf, EnforceWindow, Prepare, FailedRun, SuccessRun, NextState, FileAudit, Store.Committed;
    hide MonthList, Store.SeriesFiles, ReadMonthly, WriteMonths, MonthSet, FileState, StateOf, RunEntry, StateEntry;
    hide Store.ValidDisk, Finish;
    DiskIsValid(rank, disk, sh);
    SeriesFilesAre(rank, disk, sh, s.series);
    FileStateIs(rank, disk, sh, s.series);
    var files := SeriesOf(sh, s.series);
    var accepted := EnforceWindow(plan, s.answer.value);
    if accepted.Err? {
      var failure := FailedRun(s, plan, |s.answer.value|, 0);
      AuditOnFiles(rank, disk, sh, s, failure);
      SharedDetermines(rank, FileRun(rank, disk, s),
                       sh.(runs := Audited(s, SharedView(sh, s), failure).view.runs), RunSeries(sh, s));
    } else {
      var rows := accepted.value;
      var p := Prepare(ReadMonthly(files), rows);
      if p.Err? || (s.fault.Some? && s.fault.value.at <= |MonthList(p.value.diff.Changed())| + 1) {
        var failure := FailedRun(s, plan, |rows|, |rows|);
        AuditOnFiles(rank, disk, sh, s, failure);
        SharedDetermines(rank, FileRun(rank, disk, s),
                         sh.(runs := Audited(s, SharedView(sh, s), failure).view.runs), RunSeries(sh, s));
      } else {
        PreparedMonths(ReadMonthly(files), rows);
        MonthListSet(p.value.diff.Changed());
        CommitOnFiles(rank, disk, sh, s, p.value, SuccessRun(s, plan, rows, p.value),
                      NextState(s, StateOf(sh.states, s.series), plan, rows, p.value));
      }
    }
  }

  lemma {:induction false} SequentialOnFiles(rank: int -> int, disk: Store.Disk, sh: Shared, scripts: seq<Script>,
                                             order: seq<nat>)
    requires Represents(rank, disk, sh) && Indices(order, |scripts|)
    ensures Store.ValidDisk(disk)
    ensures Represents(rank, FileSequential(rank, disk, scripts, order), Sequential(sh, scripts, order))
    decreases |order|
  {
    hide Represents, RunSeries, FileRun, Store.ValidDisk;
    DiskIsValid(rank, disk, sh);
    if order != [] {
      var n := |order| - 1;
      SequentialOnFiles(rank, disk, sh, scripts, order[..n]);
      RunOnFiles(rank, FileSequential(rank, disk, scripts, order[..n]), Sequential(sh, scripts, order[..n]),
                 scripts[order[n]]);
    }
  }

  /**
   Every complete interleaving of distinct series, with any provider answers and faults, leaves
   exactly one disk: the files of every sequential order of unit-of-work runs.
   */
  lemma SerializableFiles(rank: int -> int, bronze: map<int, Files<Row>>, runs: Runs, states: States,
                          scripts: seq<Script>, schedule: seq<nat>, order: seq<nat>, before: Store.Disk,
                          after: Store.Disk)
    requires Distinct(scripts) && Permutation(order, |scripts|)
    requires Legal(Initial(bronze, runs, states, |scripts|), scripts, schedule)
    requires AllDone(Execute(Initial(bronze, runs, states, |scripts|), scripts, schedule))
    requires Represents(rank, before, Shared(bronze, runs, states))
    ensures Store.ValidDisk(before)
    ensures Represents(rank, after, SharedOf(Execute(Initial(bronze, runs, states, |scripts|), scripts, schedule)))
            <==> after == FileSequential(rank, before, scripts, order)
  {
    var sh0 := Shared(bronze, runs, states);
    var w := Execute(Initial(bronze, runs, states, |scripts|), scripts, schedule);
    var sh := Sequential(sh0, scripts, order);
    DiskIsValid(rank, before, sh0);
    var disk := FileSequential(rank, before, scripts, order);
    hide Represents, Execute, Legal, AllDone, Distinct, Sequential, FileSequential, Store.ValidDisk;
    Serializable(bronze, runs, states, scripts, schedule, order);
    SequentialOnFiles(rank, before, sh0, scripts, order);
    SharedDetermines(rank, disk, sh, SharedOf(w));
    if Represents(rank, after, SharedOf(w)) {
      RecordsDetermineDisk(rank, after, disk, SharedOf(w));
    }
  }
}
