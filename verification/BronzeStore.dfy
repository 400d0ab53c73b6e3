/**
 The one-series unit of work: monthly files, the run audit and the ingestion state are
 replaced one file at a time and compensated from backups when anything raises.
 */
module BronzeStore {
  import opened Common
  import opened MonthlyFrames
  import opened BronzeFrames
  import opened Planner
  import opened Snapshots

  /* ---------- files ---------- */

  datatype Path = MonthFile(series: int, month: Month) | RunsFile | StatesFile

  datatype Content =
    | MonthRows(rows: Bronze)
    | RunRows(runs: Snapshot<Run>)
    | StateRows(states: Snapshot<State>)

  type Disk = map<Path, Content>

  /** Every file has its own kind of content, and the shared snapshots are canonical. */
  predicate ValidDisk(files: Disk) {
    forall p :: p in files ==>
      match p
      case MonthFile(_, m) => files[p].MonthRows? && forall d :: d in files[p].rows ==> MonthOf(d) == m
      case RunsFile => files[p].RunRows? && Canonical(files[p].runs)
      case StatesFile => files[p].StateRows? && Canonical(files[p].states)
  }

  /** A missing snapshot file reads as empty. */
  function RunsOn(files: Disk): Snapshot<Run>
    requires ValidDisk(files)
  {
    if RunsFile in files then files[RunsFile].runs else []
  }

  function StatesOn(files: Disk): Snapshot<State>
    requires ValidDisk(files)
  {
    if StatesFile in files then files[StatesFile].states else []
  }

  /** The monthly files of one series. */
  function SeriesFiles(files: Disk, series: int): (months: Files<Row>)
    requires ValidDisk(files)
    ensures Monthly(months)
  {
    map p | p in files && p.MonthFile? && p.series == series :: p.month := files[p].rows
  }

  /* ---------- a commit ---------- */

  function MonthWrites(files: Disk, series: int, frame: Bronze, months: set<Month>): Disk {
    files + map m | m in months :: MonthFile(series, m) := MonthRows(MonthFrame(frame, m))
  }

  function WithRun(files: Disk, run: Entry<Run>): Disk
    requires ValidDisk(files)
  {
    UpsertIsMapUpdate(RunsOn(files), run);
    files[RunsFile := RunRows(Upsert(RunsOn(files), run).value)]
  }

  function WithState(files: Disk, state: Entry<State>): Disk
    requires ValidDisk(files)
  {
    UpsertIsMapUpdate(StatesOn(files), state);
    files[StatesFile := StateRows(Upsert(StatesOn(files), state).value)]
  }

  lemma MonthWritesValid(files: Disk, series: int, frame: Bronze, months: set<Month>)
    requires ValidDisk(files)
    ensures ValidDisk(MonthWrites(files, series, frame, months))
  {
    hide Canonical;
  }

  lemma WithRunValid(files: Disk, run: Entry<Run>)
    requires ValidDisk(files)
    ensures ValidDisk(WithRun(files, run))
  {
    hide Canonical, Upsert;
    UpsertIsMapUpdate(RunsOn(files), run);
  }

  lemma WithStateValid(files: Disk, state: Entry<State>)
    requires ValidDisk(files)
    ensures ValidDisk(WithState(files, state))
  {
    hide Canonical, Upsert;
    UpsertIsMapUpdate(StatesOn(files), state);
  }

  /** All the files after a committed ingestion. */
  function Committed(files: Disk, series: int, p: Prepared, run: Entry<Run>, state: Entry<State>): (after: Disk)
    requires ValidDisk(files)
    ensures ValidDisk(after)
  {
    MonthWritesValid(files, series, p.frame, p.months);
    var written := MonthWrites(files, series, p.frame, p.months);
    WithRunValid(written, run);
    WithStateValid(WithRun(written, run), state);
    WithState(WithRun(written, run), state)
  }

  /**
   A commit makes the series' files hold exactly the prepared frame, adds its one run and its
   one state, and changes no file of any other series.
   */
  lemma CommitStores(files: Disk, series: int, incoming: Fetched, run: Entry<Run>, state: Entry<State>)
    requires ValidDisk(files) && Prepare(ReadMonthly(SeriesFiles(files, series)), incoming).Ok?
    ensures var p := Prepare(ReadMonthly(SeriesFiles(files, series)), incoming).value;
            var after := Committed(files, series, p, run, state);
            && ReadMonthly(SeriesFiles(after, series)) == p.frame
            && (forall other, m :: other != series ==> At(after, MonthFile(other, m)) == At(files, MonthFile(other, m)))
            && (forall m :: m !in p.months ==> At(after, MonthFile(series, m)) == At(files, MonthFile(series, m)))
            && ById(RunsOn(after)) == ById(RunsOn(files))[run.id := run]
            && ById(StatesOn(after)) == ById(StatesOn(files))[state.id := state]
  {
    hide Prepare, Upsert, ById, ReadMonthly, ValidDisk;
    var months := SeriesFiles(files, series);
    var p := Prepare(ReadMonthly(months), incoming).value;
    PartitionExact(months, incoming);
    CommitParts(files, series, p, run, state);
    var after := SeriesFiles(Committed(files, series, p, run, state), series);
    var written := WriteMonths(months, p.frame, p.months);
    forall m ensures At(after, m) == At(written, m) {
      SeriesFileAt(files, series, m);
      SeriesFileAt(Committed(files, series, p, run, state), series, m);
      CommittedMonth(files, series, p, run, state, m);
    }
    SameEntries(after, written);
  }

  lemma SeriesFileAt(files: Disk, series: int, m: Month)
    requires ValidDisk(files)
    ensures MonthFile(series, m) in files ==> files[MonthFile(series, m)].MonthRows?
    ensures At(SeriesFiles(files, series), m)
            == if MonthFile(series, m) in files then Some(files[MonthFile(series, m)].rows) else None
  {
  }

  lemma CommittedMonth(files: Disk, series: int, p: Prepared, run: Entry<Run>, state: Entry<State>, m: Month)
    requires ValidDisk(files)
    ensures At(Committed(files, series, p, run, state), MonthFile(series, m))
            == if m in p.months then Some(MonthRows(MonthFrame(p.frame, m))) else At(files, MonthFile(series, m))
  {
    hide Upsert, ValidDisk, MonthFrame;
  }

  lemma CommitParts(files: Disk, series: int, p: Prepared, run: Entry<Run>, state: Entry<State>)
    requires ValidDisk(files)
    ensures var after := Committed(files, series, p, run, state);
            && (forall other, m :: other != series ==> At(after, MonthFile(other, m)) == At(files, MonthFile(other, m)))
            && (forall m :: m !in p.months ==> At(after, MonthFile(series, m)) == At(files, MonthFile(series, m)))
            && ById(RunsOn(after)) == ById(RunsOn(files))[run.id := run]
            && ById(StatesOn(after)) == ById(StatesOn(files))[state.id := state]
  {
    hide Upsert, ById, Canonical, MonthFrame;
    UpsertIsMapUpdate(RunsOn(files), run);
    UpsertIsMapUpdate(StatesOn(files), state);
  }

  /* ---------- the unit of work ---------- */

  datatype Backup = Backup(path: Path, content: Option<Content>)

  function Restored(files: Disk, b: Backup): Disk {
    if b.content.None? then files - {b.path} else files[b.path := b.content.value]
  }

  /** The paths a commit may replace. */
  predicate Touches(series: int, months: seq<Month>, p: Path) {
    p == RunsFile || p == StatesFile || (p.MonthFile? && p.series == series && p.month in months)
  }

  predicate Untracked(backups: seq<Backup>, p: Path) {
    forall i :: 0 <= i < |backups| ==> backups[i].path != p
  }

  /** One more month written. */
  lemma MonthWritesNext(files: Disk, series: int, frame: Bronze, months: seq<Month>, i: nat)
    requires i < |months|
    ensures MonthWrites(files, series, frame, MonthSet(months[..i + 1]))
            == MonthWrites(files, series, frame, MonthSet(months[..i]))
                 [MonthFile(series, months[i]) := MonthRows(MonthFrame(frame, months[i]))]
  {
    hide MonthFrame;
    assert months[..i + 1] == months[..i] + [months[i]];
    assert MonthSet(months[..i + 1]) == MonthSet(months[..i]) + {months[i]};
  }

  lemma MonthWritesElsewhere(files: Disk, series: int, frame: Bronze, months: seq<Month>, i: nat, p: Path)
    requires i <= |months| && !Touches(series, months, p)
    ensures At(MonthWrites(files, series, frame, MonthSet(months[..i])), p) == At(files, p)
  {
    hide MonthFrame;
  }

  class UnitOfWork {
    var files: Disk

    /** One atomic replacement; an exception may come before or after it took effect. */
    method WriteFile(path: Path, content: Content, calm: bool) returns (raised: bool)
      modifies this
      ensures calm ==> !raised
      ensures files == old(files)[path := content] || (raised && files == old(files))
    {
      raised := Fault(calm);
      if raised { return; }
      files := files[path := content];
      raised := Fault(calm);
    }

    method WriteMonth(series: int, frame: Bronze, month: Month, calm: bool) returns (raised: bool)
      modifies this
      ensures calm ==> !raised
      ensures files == old(files)[MonthFile(series, month) := MonthRows(MonthFrame(frame, month))]
              || (raised && files == old(files))
    {
      raised := WriteFile(MonthFile(series, month), MonthRows(MonthFrame(frame, month)), calm);
    }

    method WriteMonthFiles(series: int, frame: Bronze, months: seq<Month>, calm: bool) returns (raised: bool)
      modifies this
      ensures calm ==> !raised
      ensures forall p :: !Touches(series, months, p) ==> At(files, p) == At(old(files), p)
      ensures !raised ==> files == MonthWrites(old(files), series, frame, MonthSet(months))
    {
      hide MonthFrame, MonthWrites, MonthSet;
      NothingWritten(files, series, frame);
      raised := false;
      assert months[..0] == [];
      for i := 0 to |months|
        invariant files == MonthWrites(old(files), series, frame, MonthSet(months[..i]))
      {
        MonthWritesNext(old(files), series, frame, months, i);
        raised := WriteMonth(series, frame, months[i], calm);
        if raised {
          forall p | !Touches(series, months, p) ensures At(files, p) == At(old(files), p) {
            MonthWritesElsewhere(old(files), series, frame, months, i, p);
          }
          return;
        }
      }
      assert months[..|months|] == months;
      forall p | !Touches(series, months, p) ensures At(files, p) == At(old(files), p) {
        MonthWritesElsewhere(old(files), series, frame, months, |months|, p);
      }
    }

    /** Read, filter, extend, sort and rewrite the run audit. */
    method UpsertRun(run: Entry<Run>, calm: bool) returns (raised: bool)
      requires ValidDisk(files)
      modifies this
      ensures calm ==> !raised
      ensures files == WithRun(old(files), run) || (raised && files == old(files))
    {
      hide Upsert, Canonical;
      UpsertIsMapUpdate(RunsOn(files), run);
      raised := WriteFile(RunsFile, RunRows(Upsert(RunsOn(files), run).value), calm);
    }

    method UpsertState(state: Entry<State>, calm: bool) returns (raised: bool)
      requires ValidDisk(files)
      modifies this
      ensures calm ==> !raised
      ensures files == WithState(old(files), state) || (raised && files == old(files))
    {
      hide Upsert, Canonical;
      UpsertIsMapUpdate(StatesOn(files), state);
      raised := WriteFile(StatesFile, StateRows(Upsert(StatesOn(files), state).value), calm);
    }

    method TakeBackups(tracked: seq<Path>) returns (backups: seq<Backup>)
      ensures |backups| == |tracked|
      ensures forall i :: 0 <= i < |tracked| ==> backups[i] == Backup(tracked[i], At(files, tracked[i]))
    {
      backups := [];
      for i := 0 to |tracked|
        invariant |backups| == i
        invariant forall k :: 0 <= k < i ==> backups[k] == Backup(tracked[k], At(files, tracked[k]))
      {
        backups := backups + [Backup(tracked[i], At(files, tracked[i]))];
      }
    }

    /** Restoring in reverse order gives back exactly the files the backups were taken from. */
    method RestoreAll(backups: seq<Backup>, ghost before: Disk)
      requires forall i :: 0 <= i < |backups| ==> backups[i].content == At(before, backups[i].path)
      requires forall p :: Untracked(backups, p) ==> At(files, p) == At(before, p)
      modifies this
      ensures files == before
    {
      var n := |backups|;
      assert backups[..n] == backups;
      while n > 0
        invariant 0 <= n <= |backups|
        invariant forall p :: Untracked(backups[..n], p) ==> At(files, p) == At(before, p)
      {
        n := n - 1;
        files := Restored(files, backups[n]);
        forall p | Untracked(backups[..n], p) ensures At(files, p) == At(before, p) {
          assert p != backups[n].path ==> Untracked(backups[..n + 1], p);
        }
      }
      forall p ensures At(files, p) == At(before, p) {
        assert Untracked(backups[..0], p);
      }
      SameEntries(files, before);
    }

    /** The attempted writes of a commit, in order. */
    method Attempt(series: int, p: Prepared, months: seq<Month>, run: Entry<Run>, state: Entry<State>, calm: bool)
      returns (raised: bool)
      requires ValidDisk(files) && p.months == MonthSet(months)
      modifies this
      ensures forall q :: !Touches(series, months, q) ==> At(files, q) == At(old(files), q)
      ensures !raised ==> files == Committed(old(files), series, p, run, state)
      ensures calm ==> !raised
    {
      hide MonthWrites, ValidDisk, Upsert;
      raised := WriteMonthFiles(series, p.frame, months, calm);
      if raised { return; }
      MonthWritesValid(old(files), series, p.frame, p.months);
      raised := UpsertRun(run, calm);
      if raised { return; }
      WithRunValid(MonthWrites(old(files), series, p.frame, p.months), run);
      raised := UpsertState(state, calm);
    }

    /**
     Commit or compensate: either every file is as after the complete commit, or every file,
     of this series and of all others, is exactly as before the call.
     */
    method CommitSuccess(series: int, p: Prepared, run: Entry<Run>, state: Entry<State>, calm: bool) returns (raised: bool)
      requires ValidDisk(files)
      modifies this
      ensures calm ==> !raised
      ensures files == if raised then old(files) else Committed(old(files), series, p, run, state)
      ensures ValidDisk(files)
    {
      hide ValidDisk, Committed;
      ghost var before := files;
      var months := ListMonths(p.months);
      var tracked := MonthPaths(series, months) + [RunsFile, StatesFile];
      var backups := TakeBackups(tracked);
      raised := Attempt(series, p, months, run, state, calm);
      if raised {
        forall q | Untracked(backups, q) ensures At(files, q) == At(before, q) {
          TrackedCover(series, months, backups, q);
        }
        RestoreAll(backups, before);
      }
    }

    /** A failed run only touches the audit; it too may raise around its single write. */
    method RecordFailure(run: Entry<Run>, calm: bool) returns (raised: bool)
      requires ValidDisk(files)
      modifies this
      ensures calm ==> !raised
      ensures files == WithRun(old(files), run) || (raised && files == old(files))
      ensures ValidDisk(files)
    {
      hide ValidDisk;
      WithRunValid(files, run);
      raised := UpsertRun(run, calm);
    }
  }

  function MonthPaths(series: int, months: seq<Month>): (paths: seq<Path>)
    ensures |paths| == |months|
    ensures forall i :: 0 <= i < |months| ==> paths[i] == MonthFile(series, months[i])
  {
    if months == [] then [] else MonthPaths(series, months[..|months| - 1]) + [MonthFile(series, months[|months| - 1])]
  }

  /** Whatever a commit may replace is backed up. */
  lemma TrackedCover(series: int, months: seq<Month>, backups: seq<Backup>, p: Path)
    requires var tracked := MonthPaths(series, months) + [RunsFile, StatesFile];
             |backups| == |tracked| && forall i :: 0 <= i < |tracked| ==> backups[i].path == tracked[i]
    requires Untracked(backups, p)
    ensures !Touches(series, months, p)
  {
    var tracked := MonthPaths(series, months) + [RunsFile, StatesFile];
    assert backups[|months|].path == tracked[|months|] == RunsFile;
    assert backups[|months| + 1].path == tracked[|months| + 1] == StatesFile;
    forall k | 0 <= k < |months| ensures backups[k].path == MonthFile(series, months[k]) {
      assert backups[k].path == tracked[k];
    }
  }

  lemma NothingWritten(files: Disk, series: int, frame: Bronze)
    ensures MonthWrites(files, series, frame, MonthSet([])) == files
  {
  }
}
