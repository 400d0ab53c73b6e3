/**
 Any interleaving of worker threads over distinct series ends like running them one after
 another, in every order.
 */
module BronzeInterleaving {
  import opened Common
  import opened MonthlyFrames
  import opened BronzeFrames
  import opened Planner
  import opened BronzeThreads

  /* ---------- a thread's own part ---------- */

  function Only<V>(m: map<int, V>, k: int): map<int, V> {
    if k in m then map[k := m[k]] else map[]
  }

  /** The view without other threads' records. */
  function Own(s: Script, v: View): View {
    View(v.files, Only(v.runs, s.runId), Only(v.states, s.series))
  }

  function OwnBackups(s: Script, b: Backups): Backups {
    Backups(b.files, Only(b.runs, s.runId), Only(b.states, s.series))
  }

  /** A phase with its snapshots reduced to the thread's own records. */
  function OwnPhase(s: Script, p: Phase): Phase {
    match p
    case RunsBacked(c, files, runs) => RunsBacked(c, files, Only(runs, s.runId))
    case Writing(c, b, k) => Writing(c, OwnBackups(s, b), k)
    case RunsRead(c, b, seen) => RunsRead(c, OwnBackups(s, b), Only(seen, s.runId))
    case StatesNext(c, b) => StatesNext(c, OwnBackups(s, b))
    case StatesRead(c, b, seen) => StatesRead(c, OwnBackups(s, b), Only(seen, s.series))
    case Restoring(c, b, j) => Restoring(c, OwnBackups(s, b), j)
    case AuditRead(f, seen) => AuditRead(f, Only(seen, s.runId))
    case _ => p
  }

  function OwnStepped(s: Script, r: Stepped): Stepped {
    Stepped(OwnPhase(s, r.phase), Own(s, r.view))
  }

  lemma OnlyUpdate<V>(m: map<int, V>, k: int, x: V)
    ensures Only(m[k := x], k) == Only(m, k)[k := x]
  {
  }

  lemma OwnUnlockedStep(s: Script, p: Phase, v: View)
    requires p.Start? || p.Planned? || p.Accepted? || p.Staged?
    ensures StepUnlocked(s, OwnPhase(s, p), Own(s, v)) == OwnStepped(s, StepUnlocked(s, p, v))
  {
    hide PlanOf, EnforceWindow, Prepare, ChangeOf, FailedRun;
    assert StateOf(Only(v.states, s.series), s.series) == StateOf(v.states, s.series);
  }

  lemma OwnCommitStep(s: Script, p: Phase, v: View)
    requires p.Locked? || p.FilesBacked? || p.RunsBacked? || p.Writing? || p.RunsRead? || p.StatesNext? || p.StatesRead?
             || p.Committed?
    ensures StepCommit(s, OwnPhase(s, p), Own(s, v)) == OwnStepped(s, StepCommit(s, p, v))
  {
    hide WrittenMonth, Takes, RaisesAt, Only;
    match p
    case RunsRead(c, b, seen) => OnlyUpdate(seen, s.runId, c.run);
    case StatesRead(c, b, seen) => OnlyUpdate(seen, s.series, c.state);
    case _ =>
  }

  lemma OwnFailureStep(s: Script, p: Phase, v: View)
    requires p.Restoring? || p.AuditLocked? || p.AuditRead? || p.AuditDone?
    ensures StepFailure(s, OwnPhase(s, p), Own(s, v)) == OwnStepped(s, StepFailure(s, p, v))
  {
    hide RestoredMonth, Only;
    match p
    case AuditRead(failure, seen) => OnlyUpdate(seen, s.runId, failure);
    case _ =>
  }

  /** A thread's step depends on, and shows in, its own part exactly as if it were alone. */
  lemma OwnStep(s: Script, p: Phase, v: View)
    ensures Step(s, OwnPhase(s, p), Own(s, v)) == OwnStepped(s, Step(s, p, v))
    ensures Terminal(OwnPhase(s, p)) <==> Terminal(p)
  {
    hide StepUnlocked, StepCommit, StepFailure, Only;
    if p.Start? || p.Planned? || p.Accepted? || p.Staged? {
      OwnUnlockedStep(s, p, v);
    } else if p.Restoring? || p.AuditLocked? || p.AuditRead? || p.AuditDone? {
      OwnFailureStep(s, p, v);
    } else if !Terminal(p) && !p.Ready? && !p.Failing? {
      OwnCommitStep(s, p, v);
    }
  }

  /* ---------- what a step leaves alone ---------- */

  /** Agreement on every record but the thread's own. */
  ghost predicate SameElsewhere<V(!new)>(a: map<int, V>, b: map<int, V>, k: int) {
    forall i :: i != k ==> At(a, i) == At(b, i)
  }

  ghost predicate BackupsAgree(s: Script, b: Backups, v: View) {
    SameElsewhere(b.runs, v.runs, s.runId) && SameElsewhere(b.states, v.states, s.series)
  }

  /** The snapshots a lock holder carries agree with the files outside its own records. */
  ghost predicate Fresh(s: Script, p: Phase, v: View) {
    match p
    case RunsBacked(_, _, runs) => SameElsewhere(runs, v.runs, s.runId)
    case Writing(_, b, _) => BackupsAgree(s, b, v)
    case RunsRead(_, b, seen) => BackupsAgree(s, b, v) && SameElsewhere(seen, v.runs, s.runId)
    case StatesNext(_, b) => BackupsAgree(s, b, v)
    case StatesRead(_, b, seen) => BackupsAgree(s, b, v) && SameElsewhere(seen, v.states, s.series)
    case Restoring(_, b, _) => BackupsAgree(s, b, v)
    case AuditRead(_, seen) => SameElsewhere(seen, v.runs, s.runId)
    case _ => true
  }

  ghost predicate TouchesOwnOnly(s: Script, v: View, after: View) {
    SameElsewhere(after.runs, v.runs, s.runId) && SameElsewhere(after.states, v.states, s.series)
  }

  /** Under fresh snapshots a step changes only the thread's own records and keeps them fresh. */
  lemma StepTouchesOwn(s: Script, p: Phase, v: View)
    requires Fresh(s, p, v)
    ensures TouchesOwnOnly(s, v, Step(s, p, v).view)
    ensures Fresh(s, Step(s, p, v).phase, Step(s, p, v).view)
  {
    hide PlanOf, EnforceWindow, Prepare, ChangeOf, FailedRun, WrittenMonth, RestoredMonth, Takes, RaisesAt;
  }

  /** Only a lock holder writes. */
  lemma OnlyHoldersWrite(s: Script, p: Phase, v: View)
    requires !Holds(p)
    ensures Step(s, p, v).view == v
    ensures Holds(Step(s, p, v).phase) ==> Acquires(p)
  {
    hide PlanOf, EnforceWindow, Prepare, ChangeOf, FailedRun;
  }

  /** Without the lock a thread carries no snapshot. */
  lemma FreshWithoutLock(s: Script, p: Phase, v: View)
    requires !Holds(p)
    ensures Fresh(s, p, v)
  {
  }

  /** Other threads' steps keep a holder's view. */
  lemma FreshKept(s: Script, p: Phase, v: View, after: View)
    requires Fresh(s, p, v) && after.runs == v.runs && after.states == v.states
    ensures Fresh(s, p, after)
  {
  }

  /* ---------- the world ---------- */

  /** All series' files, the two shared snapshots, and every thread's phase. */
  datatype World = World(bronze: map<int, Files<Row>>, runs: Runs, states: States, phases: seq<Phase>)

  predicate Distinct(scripts: seq<Script>) {
    forall i, j :: 0 <= i < j < |scripts| ==> scripts[i].series != scripts[j].series && scripts[i].runId != scripts[j].runId
  }

  /** The batch check: the series are distinct exactly when there are as many of them as threads. */
  lemma DistinctSeries(scripts: seq<Script>)
    ensures (forall i, j :: 0 <= i < j < |scripts| ==> scripts[i].series != scripts[j].series)
            <==> |set s | s in scripts :: s.series| == |scripts|
    ensures Distinct(scripts)
            <==> |set s | s in scripts :: s.series| == |scripts| && |set s | s in scripts :: s.runId| == |scripts|
  {
    var series, runId := (s: Script) => s.series, (s: Script) => s.runId;
    CountedBy(scripts, series);
    CountedBy(scripts, runId);
    assert (set s | s in scripts :: s.series) == set s | s in scripts :: series(s);
    assert (set s | s in scripts :: s.runId) == set s | s in scripts :: runId(s);
  }

  lemma CountedBy(scripts: seq<Script>, key: Script -> int)
    ensures (forall i, j :: 0 <= i < j < |scripts| ==> key(scripts[i]) != key(scripts[j]))
            <==> |set s | s in scripts :: key(s)| == |scripts|
  {
    var xs := seq(|scripts|, i requires 0 <= i < |scripts| => key(scripts[i]));
    assert forall i {:trigger xs[i]} {:trigger scripts[i]} :: 0 <= i < |scripts| ==> xs[i] == key(scripts[i]);
    CountedOnce(xs);
    assert (set s | s in scripts :: key(s)) == set x | x in xs;
  }

  predicate NoRepeat(xs: seq<int>) {
    forall i, j :: 0 <= i < j < |xs| ==> xs[i] != xs[j]
  }

  lemma {:induction false} CountedOnce(xs: seq<int>)
    ensures |set x | x in xs| <= |xs|
    ensures NoRepeat(xs) <==> |set x | x in xs| == |xs|
  {
    if xs != [] {
      var front, last := xs[..|xs| - 1], xs[|xs| - 1];
      CountedOnce(front);
      assert xs == front + [last];
      assert (set x | x in xs) == (set x | x in front) + {last};
      if last in front {
        var i :| 0 <= i < |front| && front[i] == last;
        assert xs[i] == xs[|xs| - 1];
      } else {
        assert NoRepeat(xs) <==> NoRepeat(front);
      }
    }
  }

  function FilesOf(w: World, series: int): Files<Row> {
    if series in w.bronze then w.bronze[series] else map[]
  }

  function ViewOf(w: World, s: Script): View {
    View(FilesOf(w, s.series), w.runs, w.states)
  }

  /** A thread may step unless it is done or waits for a lock that is taken. */
  predicate Enabled(w: World, i: nat)
    requires i < |w.phases|
  {
    !Terminal(w.phases[i]) && (Acquires(w.phases[i]) ==> forall j :: 0 <= j < |w.phases| ==> !Holds(w.phases[j]))
  }

  function StepWorld(w: World, scripts: seq<Script>, i: nat): World
    requires i < |scripts| == |w.phases|
  {
    var r := Step(scripts[i], w.phases[i], ViewOf(w, scripts[i]));
    World(w.bronze[scripts[i].series := r.view.files], r.view.runs, r.view.states, w.phases[i := r.phase])
  }

  predicate OneHolder(w: World) {
    forall i, j :: 0 <= i < j < |w.phases| ==> !(Holds(w.phases[i]) && Holds(w.phases[j]))
  }

  /** The end a thread has from here, on its own part. */
  function OwnEnd(s: Script, p: Phase, v: View): Stepped {
    Finish(s, OwnPhase(s, p), Own(s, v))
  }

  /** What every reachable world keeps. */
  ghost predicate Inv(w: World, w0: World, scripts: seq<Script>) {
    && |w.phases| == |scripts|
    && OneHolder(w)
    && (forall i :: 0 <= i < |scripts| ==> Fresh(scripts[i], w.phases[i], ViewOf(w, scripts[i])))
    && (forall i :: 0 <= i < |scripts| ==>
          OwnEnd(scripts[i], w.phases[i], ViewOf(w, scripts[i])) == OwnEnd(scripts[i], Start, ViewOf(w0, scripts[i])))
    && (forall k :: (forall i :: 0 <= i < |scripts| ==> scripts[i].series != k) ==> FilesOf(w, k) == FilesOf(w0, k) && At(w.states, k) == At(w0.states, k))
    && (forall k :: (forall i :: 0 <= i < |scripts| ==> scripts[i].runId != k) ==> At(w.runs, k) == At(w0.runs, k))
  }

  /* ---------- every step keeps it ---------- */

  lemma OnlySame<V(!new)>(a: map<int, V>, b: map<int, V>, k: int, other: int)
    requires SameElsewhere(a, b, other) && k != other
    ensures Only(a, k) == Only(b, k)
  {
    assert At(a, k) == At(b, k);
  }

  /** A thread's own part does not see another thread's step. */
  lemma OthersPart(w: World, scripts: seq<Script>, i: nat, j: nat)
    requires Distinct(scripts) && i < |scripts| == |w.phases| && j < |scripts| && i != j
    requires Fresh(scripts[i], w.phases[i], ViewOf(w, scripts[i]))
    ensures var after := StepWorld(w, scripts, i);
            after.phases[j] == w.phases[j] && Own(scripts[j], ViewOf(after, scripts[j])) == Own(scripts[j], ViewOf(w, scripts[j]))
  {
    hide Step, Fresh;
    var s, t := scripts[i], scripts[j];
    assert s.series != t.series && s.runId != t.runId;
    StepTouchesOwn(s, w.phases[i], ViewOf(w, s));
    var after := StepWorld(w, scripts, i);
    OnlySame(after.runs, w.runs, t.runId, s.runId);
    OnlySame(after.states, w.states, t.series, s.series);
  }

  /** The stepping thread's end on its own part does not change. */
  lemma StepperEnd(w: World, scripts: seq<Script>, i: nat)
    requires i < |scripts| == |w.phases| && !Terminal(w.phases[i])
    ensures var after := StepWorld(w, scripts, i);
            OwnEnd(scripts[i], after.phases[i], ViewOf(after, scripts[i]))
            == OwnEnd(scripts[i], w.phases[i], ViewOf(w, scripts[i]))
  {
    hide Step, OwnPhase, Own;
    OwnStep(scripts[i], w.phases[i], ViewOf(w, scripts[i]));
  }

  lemma StepKeepsFresh(w: World, scripts: seq<Script>, i: nat, j: nat)
    requires i < |scripts| == |w.phases| && j < |scripts| && OneHolder(w)
    requires forall k :: 0 <= k < |scripts| ==> Fresh(scripts[k], w.phases[k], ViewOf(w, scripts[k]))
    ensures var after := StepWorld(w, scripts, i);
            Fresh(scripts[j], after.phases[j], ViewOf(after, scripts[j]))
  {
    hide Step, Fresh;
    var s := scripts[i];
    var after := StepWorld(w, scripts, i);
    if i == j {
      StepTouchesOwn(s, w.phases[i], ViewOf(w, s));
    } else if Holds(w.phases[j]) {
      OnlyHoldersWrite(s, w.phases[i], ViewOf(w, s));
      FreshKept(scripts[j], w.phases[j], ViewOf(w, scripts[j]), ViewOf(after, scripts[j]));
    } else {
      FreshWithoutLock(scripts[j], w.phases[j], ViewOf(after, scripts[j]));
    }
  }

  lemma StepKeepsOneHolder(w: World, scripts: seq<Script>, i: nat)
    requires i < |scripts| == |w.phases| && OneHolder(w) && Enabled(w, i)
    ensures OneHolder(StepWorld(w, scripts, i))
  {
    hide Step;
    if !Holds(w.phases[i]) {
      OnlyHoldersWrite(scripts[i], w.phases[i], ViewOf(w, scripts[i]));
    }
  }

  lemma StepKeepsInv(w: World, w0: World, scripts: seq<Script>, i: nat)
    requires Inv(w, w0, scripts) && Distinct(scripts) && i < |scripts| && Enabled(w, i)
    ensures Inv(StepWorld(w, scripts, i), w0, scripts)
  {
    hide Step, Fresh, OwnPhase, Own, Holds, Terminal, Acquires;
    var after := StepWorld(w, scripts, i);
    StepKeepsOneHolder(w, scripts, i);
    forall j | 0 <= j < |scripts|
      ensures Fresh(scripts[j], after.phases[j], ViewOf(after, scripts[j]))
      ensures OwnEnd(scripts[j], after.phases[j], ViewOf(after, scripts[j])) == OwnEnd(scripts[j], Start, ViewOf(w0, scripts[j]))
    {
      StepKeepsFresh(w, scripts, i, j);
      if i == j {
        StepperEnd(w, scripts, i);
      } else {
        OthersPart(w, scripts, i, j);
      }
    }
    StepTouchesOwn(scripts[i], w.phases[i], ViewOf(w, scripts[i]));
  }

  /* ---------- schedules ---------- */

  function Initial(bronze: map<int, Files<Row>>, runs: Runs, states: States, n: nat): World {
    World(bronze, runs, states, seq(n, i => Start))
  }

  /** A schedule names, step by step, an enabled thread. */
  predicate Legal(w: World, scripts: seq<Script>, schedule: seq<nat>)
    requires |w.phases| == |scripts|
    decreases |schedule|
  {
    schedule == []
    || (schedule[0] < |scripts| && Enabled(w, schedule[0]) && Legal(StepWorld(w, scripts, schedule[0]), scripts, schedule[1..]))
  }

  function Execute(w: World, scripts: seq<Script>, schedule: seq<nat>): World
    requires |w.phases| == |scripts| && Legal(w, scripts, schedule)
    decreases |schedule|
  {
    if schedule == [] then w else Execute(StepWorld(w, scripts, schedule[0]), scripts, schedule[1..])
  }

  lemma InitialInv(bronze: map<int, Files<Row>>, runs: Runs, states: States, scripts: seq<Script>)
    ensures var w := Initial(bronze, runs, states, |scripts|); Inv(w, w, scripts)
  {
  }

  lemma {:induction false} ExecuteKeepsInv(w: World, w0: World, scripts: seq<Script>, schedule: seq<nat>)
    requires Inv(w, w0, scripts) && Distinct(scripts) && Legal(w, scripts, schedule)
    ensures Inv(Execute(w, scripts, schedule), w0, scripts)
    decreases |schedule|
  {
    hide Inv, StepWorld, Enabled;
    if schedule != [] {
      InvPhases(w, w0, scripts);
      StepKeepsInv(w, w0, scripts, schedule[0]);
      InvPhases(StepWorld(w, scripts, schedule[0]), w0, scripts);
      ExecuteKeepsInv(StepWorld(w, scripts, schedule[0]), w0, scripts, schedule[1..]);
    }
  }

  lemma InvPhases(w: World, w0: World, scripts: seq<Script>)
    requires Inv(w, w0, scripts)
    ensures |w.phases| == |scripts|
  {
  }

  predicate AllDone(w: World) {
    forall i :: 0 <= i < |w.phases| ==> Terminal(w.phases[i])
  }

  /** While some thread is not done, some thread can step. */
  lemma NoDeadlock(w: World)
    requires !AllDone(w)
    ensures exists i :: 0 <= i < |w.phases| && Enabled(w, i)
  {
    var i :| 0 <= i < |w.phases| && !Terminal(w.phases[i]);
    if j :| 0 <= j < |w.phases| && Holds(w.phases[j]) {
      assert Enabled(w, j);
    } else {
      assert Enabled(w, i);
    }
  }

  /* ---------- one after another ---------- */

  datatype Shared = Shared(bronze: map<int, Files<Row>>, runs: Runs, states: States)

  function SeriesOf(sh: Shared, k: int): Files<Row> {
    if k in sh.bronze then sh.bronze[k] else map[]
  }

  function SharedView(sh: Shared, s: Script): View {
    View(SeriesOf(sh, s.series), sh.runs, sh.states)
  }

  /** One whole series run, nobody else running. */
  function RunSeries(sh: Shared, s: Script): Shared {
    var r := Finish(s, Start, SharedView(sh, s)).view;
    Shared(sh.bronze[s.series := r.files], r.runs, r.states)
  }

  predicate Indices(order: seq<nat>, n: nat) {
    forall i :: 0 <= i < |order| ==> order[i] < n
  }

  function Sequential(sh: Shared, scripts: seq<Script>, order: seq<nat>): Shared
    requires Indices(order, |scripts|)
    decreases |order|
  {
    if order == [] then sh
    else
      RunSeries(Sequential(sh, scripts, order[..|order| - 1]), scripts[order[|order| - 1]])
  }

  /** Equal files for every series, equal run audit, equal states. */
  ghost predicate SameShared(a: Shared, b: Shared) {
    && (forall k :: SeriesOf(a, k) == SeriesOf(b, k))
    && a.runs == b.runs
    && a.states == b.states
  }

  lemma {:induction false} FinishOwn(s: Script, p: Phase, v: View)
    ensures Finish(s, OwnPhase(s, p), Own(s, v)) == OwnStepped(s, Finish(s, p, v))
    decreases Stage(p), Remaining(p)
  {
    hide Step, OwnPhase, Own;
    OwnStep(s, p, v);
    if !Terminal(p) {
      StepDecreases(s, p, v);
      FinishOwn(s, Step(s, p, v).phase, Step(s, p, v).view);
    }
  }

  lemma {:induction false} FinishTouchesOwn(s: Script, p: Phase, v: View)
    requires Fresh(s, p, v)
    ensures TouchesOwnOnly(s, v, Finish(s, p, v).view)
    decreases Stage(p), Remaining(p)
  {
    hide Step, Fresh;
    if !Terminal(p) {
      StepDecreases(s, p, v);
      StepTouchesOwn(s, p, v);
      FinishTouchesOwn(s, Step(s, p, v).phase, Step(s, p, v).view);
    }
  }

  lemma {:induction false} FinishEnds(s: Script, p: Phase, v: View)
    ensures Terminal(Finish(s, p, v).phase)
    decreases Stage(p), Remaining(p)
  {
    hide Step;
    if !Terminal(p) {
      StepDecreases(s, p, v);
      FinishEnds(s, Step(s, p, v).phase, Step(s, p, v).view);
    }
  }

  /** After some of the threads ran one after another. */
  ghost predicate Partly(sh: Shared, sh0: Shared, scripts: seq<Script>, order: seq<nat>) {
    && (forall j :: 0 <= j < |scripts| && j in order ==>
          Own(scripts[j], SharedView(sh, scripts[j])) == OwnEnd(scripts[j], Start, SharedView(sh0, scripts[j])).view)
    && (forall j :: 0 <= j < |scripts| && j !in order ==>
          Own(scripts[j], SharedView(sh, scripts[j])) == Own(scripts[j], SharedView(sh0, scripts[j])))
    && (forall k :: (forall i :: 0 <= i < |scripts| ==> scripts[i].series != k) ==>
          SeriesOf(sh, k) == SeriesOf(sh0, k) && At(sh.states, k) == At(sh0.states, k))
    && (forall k :: (forall i :: 0 <= i < |scripts| ==> scripts[i].runId != k) ==> At(sh.runs, k) == At(sh0.runs, k))
  }

  /** Running one more thread alone ends its own part and keeps everybody else's. */
  lemma RunSeriesParts(sh: Shared, scripts: seq<Script>, i: nat, j: nat)
    requires Distinct(scripts) && i < |scripts| && j < |scripts|
    ensures var after := RunSeries(sh, scripts[i]);
            Own(scripts[j], SharedView(after, scripts[j]))
            == if i == j then OwnEnd(scripts[i], Start, SharedView(sh, scripts[i])).view
               else Own(scripts[j], SharedView(sh, scripts[j]))
  {
    hide Finish;
    var s, t := scripts[i], scripts[j];
    var v := SharedView(sh, s);
    FinishOwn(s, Start, v);
    FinishTouchesOwn(s, Start, v);
    if i != j {
      assert s.series != t.series && s.runId != t.runId;
      var r := Finish(s, Start, v).view;
      OnlySame(r.runs, v.runs, t.runId, s.runId);
      OnlySame(r.states, v.states, t.series, s.series);
    }
  }

  /** The own end depends on the own part only. */
  lemma OwnEndFromPart(s: Script, v: View, u: View)
    requires Own(s, v) == Own(s, u)
    ensures OwnEnd(s, Start, v) == OwnEnd(s, Start, u)
  {
  }

  lemma PartlyNext(sh: Shared, sh0: Shared, scripts: seq<Script>, order: seq<nat>, i: nat)
    requires Distinct(scripts) && Partly(sh, sh0, scripts, order) && i < |scripts| && i !in order
    ensures Partly(RunSeries(sh, scripts[i]), sh0, scripts, order + [i])
  {
    hide Finish, Own, OwnEnd, RunSeries;
    var after := RunSeries(sh, scripts[i]);
    forall j | 0 <= j < |scripts|
      ensures j in order + [i] ==>
                Own(scripts[j], SharedView(after, scripts[j])) == OwnEnd(scripts[j], Start, SharedView(sh0, scripts[j])).view
      ensures j !in order + [i] ==>
                Own(scripts[j], SharedView(after, scripts[j])) == Own(scripts[j], SharedView(sh0, scripts[j]))
    {
      RunSeriesParts(sh, scripts, i, j);
      if i == j {
        OwnEndFromPart(scripts[i], SharedView(sh, scripts[i]), SharedView(sh0, scripts[i]));
      }
    }
    RunSeriesElsewhere(sh, scripts[i]);
  }

  lemma RunSeriesElsewhere(sh: Shared, s: Script)
    ensures var after := RunSeries(sh, s);
            && (forall k :: k != s.series ==> SeriesOf(after, k) == SeriesOf(sh, k) && At(after.states, k) == At(sh.states, k))
            && (forall k :: k != s.runId ==> At(after.runs, k) == At(sh.runs, k))
  {
    hide Finish;
    FinishTouchesOwn(s, Start, SharedView(sh, s));
  }

  predicate Permutation(order: seq<nat>, n: nat) {
    && Indices(order, n)
    && (forall i, j :: 0 <= i < j < |order| ==> order[i] != order[j])
    && (forall i :: 0 <= i < n ==> i in order)
  }

  /** The order of the batch itself is one of the orders. */
  lemma BatchOrder(n: nat)
    ensures Permutation(seq(n, i => i), n)
  {
    var order: seq<nat> := seq(n, i => i);
    forall i | 0 <= i < n ensures i in order {
      assert order[i] == i;
    }
  }

  lemma {:induction false} SequentialPartly(sh0: Shared, scripts: seq<Script>, order: seq<nat>)
    requires Distinct(scripts) && Indices(order, |scripts|)
    requires forall i, j :: 0 <= i < j < |order| ==> order[i] != order[j]
    ensures Partly(Sequential(sh0, scripts, order), sh0, scripts, order)
    decreases |order|
  {
    hide Partly, RunSeries;
    if order == [] {
      NobodyYet(sh0, scripts);
    } else {
      var n := |order| - 1;
      SequentialPartly(sh0, scripts, order[..n]);
      assert order == order[..n] + [order[n]];
      PartlyNext(Sequential(sh0, scripts, order[..n]), sh0, scripts, order[..n], order[n]);
    }
  }

  lemma NobodyYet(sh0: Shared, scripts: seq<Script>)
    ensures Partly(sh0, sh0, scripts, [])
  {
  }

  /* ---------- serializability ---------- */

  function SharedOf(w: World): Shared {
    Shared(w.bronze, w.runs, w.states)
  }

  /** Two records agree where both own parts do. */
  lemma OnlyAt<V>(a: map<int, V>, b: map<int, V>, k: int)
    requires Only(a, k) == Only(b, k)
    ensures At(a, k) == At(b, k)
  {
    assert k in Only(a, k) <==> k in a;
    assert k in Only(b, k) <==> k in b;
  }

  /** When every thread is done, its own part of the world is its own end. */
  lemma DonePart(w: World, w0: World, scripts: seq<Script>, i: nat)
    requires Inv(w, w0, scripts) && AllDone(w) && i < |scripts|
    ensures Own(scripts[i], ViewOf(w, scripts[i])) == OwnEnd(scripts[i], Start, ViewOf(w0, scripts[i])).view
    ensures w.phases[i] == Finish(scripts[i], Start, ViewOf(w0, scripts[i])).phase
  {
    hide Step, Own, Fresh;
    FinishOwn(scripts[i], Start, ViewOf(w0, scripts[i]));
    FinishEnds(scripts[i], Start, ViewOf(w0, scripts[i]));
    assert OwnPhase(scripts[i], Start) == Start;
  }

  /**
   Every complete interleaving of distinct series, with any provider answers and faults, ends
   with the Bronze files, run audit and states of every sequential order, and each thread ends
   as it would alone.
   */
  lemma Serializable(bronze: map<int, Files<Row>>, runs: Runs, states: States, scripts: seq<Script>,
                     schedule: seq<nat>, order: seq<nat>)
    requires Distinct(scripts) && Permutation(order, |scripts|)
    requires Legal(Initial(bronze, runs, states, |scripts|), scripts, schedule)
    requires AllDone(Execute(Initial(bronze, runs, states, |scripts|), scripts, schedule))
    ensures var w := Execute(Initial(bronze, runs, states, |scripts|), scripts, schedule);
            && SameShared(SharedOf(w), Sequential(Shared(bronze, runs, states), scripts, order))
            && |w.phases| == |scripts|
            && forall i :: 0 <= i < |scripts| ==>
                 w.phases[i] == Finish(scripts[i], Start, SharedView(Shared(bronze, runs, states), scripts[i])).phase
  {
    hide Finish, Fresh, Own, OwnEnd, Execute, Legal, Sequential;
    var w0 := Initial(bronze, runs, states, |scripts|);
    var sh0 := Shared(bronze, runs, states);
    var w := Execute(w0, scripts, schedule);
    InitialInv(bronze, runs, states, scripts);
    ExecuteKeepsInv(w0, w0, scripts, schedule);
    SequentialPartly(sh0, scripts, order);
    var sh := Sequential(sh0, scripts, order);
    forall i | 0 <= i < |scripts|
      ensures Own(scripts[i], ViewOf(w, scripts[i])) == Own(scripts[i], SharedView(sh, scripts[i]))
      ensures w.phases[i] == Finish(scripts[i], Start, SharedView(sh0, scripts[i])).phase
    {
      DonePart(w, w0, scripts, i);
      assert ViewOf(w0, scripts[i]) == SharedView(sh0, scripts[i]);
    }
    SamePartsSameWorld(w, w0, sh, sh0, scripts, order);
  }

  lemma SameSeries(w: World, w0: World, sh: Shared, sh0: Shared, scripts: seq<Script>, order: seq<nat>, k: int)
    requires Inv(w, w0, scripts) && sh0 == SharedOf(w0) && Partly(sh, sh0, scripts, order)
    requires forall i :: 0 <= i < |scripts| ==>
               Own(scripts[i], ViewOf(w, scripts[i])) == Own(scripts[i], SharedView(sh, scripts[i]))
    ensures SeriesOf(SharedOf(w), k) == SeriesOf(sh, k) && At(w.states, k) == At(sh.states, k)
  {
    hide Inv, Partly, Only;
    if i :| 0 <= i < |scripts| && scripts[i].series == k {
      OnlyAt(w.states, sh.states, k);
    } else {
      UnownedSeries(w, w0, sh, sh0, scripts, order, k);
    }
  }

  /** A series that belongs to no thread is as it was, both ways. */
  lemma UnownedSeries(w: World, w0: World, sh: Shared, sh0: Shared, scripts: seq<Script>, order: seq<nat>, k: int)
    requires Inv(w, w0, scripts) && sh0 == SharedOf(w0) && Partly(sh, sh0, scripts, order)
    requires forall i :: 0 <= i < |scripts| ==> scripts[i].series != k
    ensures SeriesOf(SharedOf(w), k) == SeriesOf(sh, k) && At(w.states, k) == At(sh.states, k)
  {
    hide Fresh, OwnEnd, Own, OneHolder;
    assert SeriesOf(SharedOf(w), k) == FilesOf(w, k) == FilesOf(w0, k) == SeriesOf(sh0, k);
  }

  lemma SameRun(w: World, w0: World, sh: Shared, sh0: Shared, scripts: seq<Script>, order: seq<nat>, k: int)
    requires Inv(w, w0, scripts) && sh0 == SharedOf(w0) && Partly(sh, sh0, scripts, order)
    requires forall i :: 0 <= i < |scripts| ==>
               Own(scripts[i], ViewOf(w, scripts[i])) == Own(scripts[i], SharedView(sh, scripts[i]))
    ensures At(w.runs, k) == At(sh.runs, k)
  {
    hide Fresh, OwnEnd, Only;
    if i :| 0 <= i < |scripts| && scripts[i].runId == k {
      OnlyAt(w.runs, sh.runs, k);
    } else {
      assert At(w.runs, k) == At(w0.runs, k);
    }
  }

  lemma SamePartsSameWorld(w: World, w0: World, sh: Shared, sh0: Shared, scripts: seq<Script>, order: seq<nat>)
    requires Inv(w, w0, scripts) && sh0 == SharedOf(w0) && Partly(sh, sh0, scripts, order)
    requires forall i :: 0 <= i < |scripts| ==>
               Own(scripts[i], ViewOf(w, scripts[i])) == Own(scripts[i], SharedView(sh, scripts[i]))
    ensures SameShared(SharedOf(w), sh)
  {
    hide Inv, Partly, Own;
    forall k ensures SeriesOf(SharedOf(w), k) == SeriesOf(sh, k) {
      SameSeries(w, w0, sh, sh0, scripts, order, k);
    }
    forall k ensures At(w.states, k) == At(sh.states, k) {
      SameSeries(w, w0, sh, sh0, scripts, order, k);
    }
    forall k ensures At(w.runs, k) == At(sh.runs, k) {
      SameRun(w, w0, sh, sh0, scripts, order, k);
    }
    SameEntries(w.states, sh.states);
    SameEntries(w.runs, sh.runs);
  }

  /* ---------- what one run does ---------- */

  /** The outcome of one series run in one expression. */
  function Outcome(s: Script, v: View): Stepped {
    var plan := PlanOf(s, v.files);
    if plan.Err? then Stepped(Refused, v)
    else if s.answer.None? then Audited(s, v, FailedRun(s, plan.value, 0, 0))
    else
      var accepted := EnforceWindow(plan.value, s.answer.value);
      if accepted.Err? then Audited(s, v, FailedRun(s, plan.value, |s.answer.value|, 0))
      else
        var rows := accepted.value;
        var p := Prepare(ReadMonthly(v.files), rows);
        if p.Err? || (s.fault.Some? && s.fault.value.at <= |MonthList(p.value.diff.Changed())| + 1)
        then Audited(s, v, FailedRun(s, plan.value, |rows|, |rows|))
        else
          var c := ChangeOf(s, StateOf(v.states, s.series), plan.value, rows, p.value);
          Stepped(Succeeded, View(WriteMonths(v.files, c.frame, MonthSet(c.months)), v.runs[s.runId := c.run],
                                  v.states[s.series := c.state]))
  }

  /** A failure leaves Bronze and state alone and adds its audit record, unless that write raised first. */
  function Audited(s: Script, v: View, failure: Run): Stepped {
    Stepped(Failed, if s.auditFault == Some(false) then v else v.(runs := v.runs[s.runId := failure]))
  }

  function BackedView(b: Backups): View {
    View(b.files, b.runs, b.states)
  }

  lemma FinishFailing(s: Script, failure: Run, v: View)
    ensures Finish(s, Failing(failure), v) == Audited(s, v, failure)
  {
    var seen := AuditRead(failure, v.runs);
    assert Step(s, Failing(failure), v) == Stepped(AuditLocked(failure), v);
    assert Step(s, AuditLocked(failure), v) == Stepped(seen, v);
    assert Finish(s, AuditLocked(failure), v) == Finish(s, seen, v);
    var after := Step(s, seen, v).view;
    assert Finish(s, seen, v) == Finish(s, AuditDone, after);
    assert Finish(s, AuditDone, after) == Finish(s, Failed, after);
  }

  /** Files differ from the backup only in the months not yet restored. */
  ghost predicate DamagedOnly(files: Files<Row>, backup: Files<Row>, months: seq<Month>) {
    forall m :: m !in months ==> At(files, m) == At(backup, m)
  }

  lemma RestoreOne(files: Files<Row>, backup: Files<Row>, months: seq<Month>)
    requires months != [] && DamagedOnly(files, backup, months)
    ensures DamagedOnly(RestoredMonth(files, backup, months[|months| - 1]), backup, months[..|months| - 1])
  {
    var n := |months| - 1;
    assert months == months[..n] + [months[n]];
  }

  /** Restoring undoes whatever the attempt wrote. */
  lemma {:induction false} FinishRestoring(s: Script, c: Change, b: Backups, j: nat, v: View)
    requires j <= |c.months| + 2
    requires j >= 1 ==> v.states == b.states
    requires j >= 2 ==> v.runs == b.runs
    requires DamagedOnly(v.files, b.files, if j <= 2 then c.months else c.months[..|c.months| + 2 - j])
    ensures Finish(s, Restoring(c, b, j), v) == Audited(s, BackedView(b), c.failure)
    decreases |c.months| + 2 - j
  {
    hide RestoredMonth, Audited;
    var next := Step(s, Restoring(c, b, j), v);
    assert Finish(s, Restoring(c, b, j), v) == Finish(s, next.phase, next.view);
    if j < |c.months| + 2 {
      assert c.months[..|c.months|] == c.months;
      if j >= 2 {
        var left := c.months[..|c.months| + 2 - j];
        RestoreOne(v.files, b.files, left);
        assert left[..|left| - 1] == c.months[..|c.months| + 1 - j];
      }
      FinishRestoring(s, c, b, j + 1, next.view);
    } else {
      assert forall m :: m !in c.months[..0];
      SameEntries(v.files, b.files);
      FinishFailing(s, c.failure, v);
    }
  }

  /** No write before k raised. */
  predicate QuietUntil(s: Script, k: nat) {
    s.fault.Some? ==> s.fault.value.at >= k
  }

  lemma FinishStates(s: Script, c: Change, b: Backups, v: View)
    requires QuietUntil(s, |c.months| + 1)
    requires v == View(WriteMonths(b.files, c.frame, MonthSet(c.months)), b.runs[s.runId := c.run], b.states)
    ensures Finish(s, StatesNext(c, b), v)
            == if RaisesAt(s, |c.months| + 1) then Audited(s, BackedView(b), c.failure)
               else Stepped(Succeeded, v.(states := b.states[s.series := c.state]))
  {
    hide WriteMonths, Audited;
    var read := StatesRead(c, b, v.states);
    assert Step(s, StatesNext(c, b), v) == Stepped(read, v);
    var next := Step(s, read, v);
    assert Finish(s, read, v) == Finish(s, next.phase, next.view);
    if RaisesAt(s, |c.months| + 1) {
      WrittenDamage(b.files, c.frame, c.months);
      FinishRestoring(s, c, b, 0, next.view);
    } else {
      assert Finish(s, Committed(c), next.view) == Finish(s, Succeeded, next.view);
    }
  }

  lemma WrittenDamage(files: Files<Row>, frame: Bronze, months: seq<Month>)
    ensures DamagedOnly(WriteMonths(files, frame, MonthSet(months)), files, months)
  {
  }

  lemma FinishRuns(s: Script, c: Change, b: Backups, v: View)
    requires QuietUntil(s, |c.months|)
    requires v == View(WriteMonths(b.files, c.frame, MonthSet(c.months)), b.runs, b.states)
    ensures Finish(s, Writing(c, b, |c.months|), v)
            == if s.fault.Some? && s.fault.value.at <= |c.months| + 1 then Audited(s, BackedView(b), c.failure)
               else Stepped(Succeeded, v.(runs := b.runs[s.runId := c.run], states := b.states[s.series := c.state]))
  {
    hide WriteMonths, Audited;
    var read := RunsRead(c, b, v.runs);
    assert Step(s, Writing(c, b, |c.months|), v) == Stepped(read, v);
    var next := Step(s, read, v);
    assert Finish(s, read, v) == Finish(s, next.phase, next.view);
    if RaisesAt(s, |c.months|) {
      WrittenDamage(b.files, c.frame, c.months);
      FinishRestoring(s, c, b, 0, next.view);
    } else {
      FinishStates(s, c, b, next.view);
    }
  }

  lemma WriteNext(files: Files<Row>, frame: Bronze, months: seq<Month>, k: nat)
    requires k < |months|
    ensures WriteMonths(files, frame, MonthSet(months[..k + 1]))
            == WriteMonths(files, frame, MonthSet(months[..k]))[months[k] := MonthFrame(frame, months[k])]
  {
    hide MonthFrame;
    assert months[..k + 1] == months[..k] + [months[k]];
    assert MonthSet(months[..k + 1]) == MonthSet(months[..k]) + {months[k]};
  }

  lemma PrefixDamage(files: Files<Row>, frame: Bronze, months: seq<Month>, k: nat)
    requires k <= |months|
    ensures DamagedOnly(WriteMonths(files, frame, MonthSet(months[..k])), files, months)
  {
  }

  /** The month writes, from k on, and everything after them. */
  lemma {:induction false} FinishWriting(s: Script, c: Change, b: Backups, k: nat, v: View)
    requires k <= |c.months| && QuietUntil(s, k)
    requires v == View(WriteMonths(b.files, c.frame, MonthSet(c.months[..k])), b.runs, b.states)
    ensures Finish(s, Writing(c, b, k), v)
            == if s.fault.Some? && s.fault.value.at <= |c.months| + 1 then Audited(s, BackedView(b), c.failure)
               else Stepped(Succeeded, View(WriteMonths(b.files, c.frame, MonthSet(c.months)),
                                            b.runs[s.runId := c.run], b.states[s.series := c.state]))
    decreases |c.months| - k
  {
    hide WriteMonths, Audited, MonthFrame, MonthSet;
    if k == |c.months| {
      assert c.months[..k] == c.months;
      FinishRuns(s, c, b, v);
    } else {
      var next := Step(s, Writing(c, b, k), v);
      assert Finish(s, Writing(c, b, k), v) == Finish(s, next.phase, next.view);
      WriteNext(b.files, c.frame, c.months, k);
      if RaisesAt(s, k) {
        PrefixDamage(b.files, c.frame, c.months, k);
        PrefixDamage(b.files, c.frame, c.months, k + 1);
        FinishRestoring(s, c, b, 0, next.view);
      } else {
        FinishWriting(s, c, b, k + 1, next.view);
      }
    }
  }

  /** The commit from the lock on. */
  lemma FinishReady(s: Script, c: Change, v: View)
    ensures Finish(s, Ready(c), v)
            == if s.fault.Some? && s.fault.value.at <= |c.months| + 1 then Audited(s, v, c.failure)
               else Stepped(Succeeded, View(WriteMonths(v.files, c.frame, MonthSet(c.months)),
                                            v.runs[s.runId := c.run], v.states[s.series := c.state]))
  {
    hide WriteMonths, Audited;
    var b := Backups(v.files, v.runs, v.states);
    assert Step(s, Ready(c), v) == Stepped(Locked(c), v);
    assert Step(s, Locked(c), v) == Stepped(FilesBacked(c, v.files), v);
    assert Finish(s, Locked(c), v) == Finish(s, FilesBacked(c, v.files), v);
    assert Step(s, FilesBacked(c, v.files), v) == Stepped(RunsBacked(c, v.files, v.runs), v);
    assert Finish(s, FilesBacked(c, v.files), v) == Finish(s, RunsBacked(c, v.files, v.runs), v);
    assert Step(s, RunsBacked(c, v.files, v.runs), v) == Stepped(Writing(c, b, 0), v);
    assert Finish(s, RunsBacked(c, v.files, v.runs), v) == Finish(s, Writing(c, b, 0), v);
    NothingYet(v.files, c.frame, c.months);
    FinishWriting(s, c, b, 0, v);
  }

  lemma NothingYet(files: Files<Row>, frame: Bronze, months: seq<Month>)
    ensures WriteMonths(files, frame, MonthSet(months[..0])) == files
  {
    assert MonthSet(months[..0]) == {};
  }

  /**
   The step machine of one thread computes exactly its outcome: complete success, an untouched
   Bronze and state with one failed audit record, or an untouched world.
   */
  lemma FinishIsOutcome(s: Script, v: View)
    ensures Finish(s, Start, v) == Outcome(s, v)
  {
    hide PlanOf, EnforceWindow, Prepare, ChangeOf, FailedRun, Audited, WriteMonths, MonthSet, MonthList;
    var first := Step(s, Start, v);
    assert Finish(s, Start, v) == Finish(s, first.phase, v);
    if first.phase.Planned? {
      var plan := first.phase.plan;
      var second := Step(s, Planned(plan), v);
      assert Finish(s, Planned(plan), v) == Finish(s, second.phase, v);
      if second.phase.Failing? {
        FinishFailing(s, second.phase.failure, v);
      } else {
        FinishAccepted(s, plan, second.phase.rows, v);
      }
    }
  }

  lemma FinishAccepted(s: Script, plan: Instruction, rows: Fetched, v: View)
    ensures Finish(s, Accepted(plan, rows), v)
            == var p := Prepare(ReadMonthly(v.files), rows);
               if p.Err? || (s.fault.Some? && s.fault.value.at <= |MonthList(p.value.diff.Changed())| + 1)
               then Audited(s, v, FailedRun(s, plan, |rows|, |rows|))
               else
                 var c := ChangeOf(s, StateOf(v.states, s.series), plan, rows, p.value);
                 Stepped(Succeeded, View(WriteMonths(v.files, c.frame, MonthSet(c.months)), v.runs[s.runId := c.run],
                                         v.states[s.series := c.state]))
  {
    hide Prepare, Audited, WriteMonths, MonthSet, MonthList, FailedRun, SuccessRun, NextState, StateOf;
    var third := Step(s, Accepted(plan, rows), v);
    assert Finish(s, Accepted(plan, rows), v) == Finish(s, third.phase, v);
    if third.phase.Failing? {
      FinishFailing(s, third.phase.failure, v);
    } else {
      var prepared := third.phase.prepared;
      var c := ChangeOf(s, StateOf(v.states, s.series), plan, rows, prepared);
      assert Step(s, Staged(plan, rows, prepared), v) == Stepped(Ready(c), v);
      assert Finish(s, Staged(plan, rows, prepared), v) == Finish(s, Ready(c), v);
      FinishReady(s, c, v);
    }
  }

  /** A successful run's files hold exactly the merged series, and its state records the Bronze maximum. */
  lemma SuccessStores(s: Script, v: View)
    requires Monthly(v.files) && Outcome(s, v).phase == Succeeded
    ensures var after := Outcome(s, v).view;
            && s.answer.Some?
            && Monthly(after.files)
            && Prepare(ReadMonthly(v.files), s.answer.value).Ok?
            && ReadMonthly(after.files) == Prepare(ReadMonthly(v.files), s.answer.value).value.frame
            && s.series in after.states
            && after.states[s.series].lastObserved == BoundsOf(ReadMonthly(after.files)).maximum
  {
    hide PlanRun, Prepare, ReadMonthly, BoundsOf;
    var p := Prepare(ReadMonthly(v.files), s.answer.value).value;
    PartitionExact(v.files, s.answer.value);
    MonthListSet(p.diff.Changed());
    PreparedMonths(ReadMonthly(v.files), s.answer.value);
  }

  lemma PreparedMonths(existing: Bronze, incoming: Fetched)
    requires Prepare(existing, incoming).Ok?
    ensures Prepare(existing, incoming).value.months == Months(Prepare(existing, incoming).value.diff.Changed())
  {
  }
}
