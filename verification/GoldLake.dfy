/**
 Publication, reconciliation and retention against one catalog and one disk.  Every effect may
 raise before or after it takes place, and the process may stop between any two effects.
 */
module GoldLake {
  import opened Common
  import opened GoldCatalog
  import opened GoldRetention
  import opened GoldRecords

  /** How a call ends: normally, with an exception, or by the process stopping. */
  datatype Outcome = Fine | Raised | Stopped

  /** The root materialized views: the current row as JSON and its profile picture. */
  datatype Views = Views(json: Option<Record>, profile: Option<nat>)

  /** The root views show exactly the current build, or nothing. */
  predicate Show(v: Views, records: Catalog, disk: Disk) {
    var current := CurrentRows(records);
    if current == [] then v == Views(None, None)
    else |current| == 1 && v.json == Some(current[0]) && current[0].build in disk && v.profile == disk[current[0].build].plot
  }

  /** The current build is selectable, under its own paths, and whole on disk. */
  predicate CurrentInPlace(records: Catalog, disk: Disk) {
    forall r :: r in records && r.current ==> r.Selectable() && CanonicalPaths(r) && r.build in disk && disk[r.build].Whole()
  }

  predicate NoBuilding(records: Catalog) {
    forall i :: 0 <= i < |records| ==> records[i].status != Building
  }

  /** The attempt is in the catalog as a complete build. */
  predicate Committed(records: Catalog, build: int) {
    exists i :: 0 <= i < |records| && records[i].build == build && records[i].status == Complete
  }

  /** Building rows that one clock reading may finalize. */
  predicate ClockCovers(records: Catalog, at: int) {
    forall i :: 0 <= i < |records| && records[i].status == Building ==> records[i].started <= at
  }

  /** What a publication needs besides the absence of faults. */
  predicate Publishable(records: Catalog, build: int, started: int, c: Candidate, reconcileAt: int, schema: int, feature: int) {
    && ClockCovers(records, reconcileAt)
    && !HasBuild(records, build)
    && started <= c.completed
    && (c.minTime.Some? && c.maxTime.Some? ==> c.minTime.value <= c.maxTime.value)
    && c.schema == schema && c.feature == feature
  }

  /** The catalog of a successful publication. */
  function Published(records: Catalog, build: int, started: int, c: Candidate, reconcileAt: int, schema: int, feature: int): Catalog {
    PromoteRows(Reconciled(records, reconcileAt) + [BuildingRow(build, started, schema, feature)], c)
  }

  /** A row that was building and is now failed: its identity and start stay, everything a build has is gone. */
  predicate FailedFrom(before: Record, after: Record, at: int) {
    && after.build == before.build && after.started == before.started
    && after.schema == before.schema && after.feature == before.feature
    && after.status == Failed && !after.current && after.completed == Some(at)
    && after.minTime == after.maxTime == after.rowCount == after.pruned == None
    && after.data == after.manifest == after.plot == None
  }

  /** Building rows are failed at that time, all others are as before. */
  predicate ClearedAttempts(before: Catalog, after: Catalog, at: int) {
    |after| == |before|
    && forall i :: 0 <= i < |before| ==>
         if before[i].status == Building then FailedFrom(before[i], after[i], at) else after[i] == before[i]
  }

  /** The row of a published build says what the call and its candidate said. */
  predicate PublishedRow(r: Record, build: int, started: int, c: Candidate, schema: int, feature: int) {
    && r.build == build && r.status == Complete && r.current && r.pruned.None?
    && r.started == started && r.completed == Some(c.completed)
    && r.schema == schema && r.feature == feature
    && r.minTime == c.minTime && r.maxTime == c.maxTime && r.rowCount == Some(c.rowCount)
    && r.data == Some(DataPath(build)) && r.manifest == Some(ManifestPath(build)) && r.plot == Some(PlotPath(build))
  }

  /** The row that a publication adds, however it ends. */
  predicate OwnAttempt(r: Record, build: int, started: int, schema: int, feature: int) {
    r.build == build && r.started == started && r.schema == schema && r.feature == feature
  }

  /** Every earlier row is as before, but not current, or a building one that is failed. */
  predicate Superseded(before: Record, after: Record, at: int) {
    if before.status == Building then FailedFrom(before, after, at) else after == before.(current := false)
  }

  /** A marked row keeps all but its paths and is pruned at that time. */
  predicate MarkedFrom(before: Record, after: Record, at: int) {
    && after.build == before.build && after.status == before.status && after.current == before.current
    && after.started == before.started && after.completed == before.completed
    && after.schema == before.schema && after.feature == before.feature
    && after.minTime == before.minTime && after.maxTime == before.maxTime && after.rowCount == before.rowCount
    && after.data == after.manifest == after.plot == None && after.pruned == Some(at)
  }

  /** The log lists each validated build once. */
  ghost predicate LoggedOnce(log: seq<int>, validated: Disk) {
    && (forall i, j :: 0 <= i < j < |log| ==> log[i] != log[j])
    && (forall b :: b in log <==> b in validated)
  }

  /** A point where an exception or the end of the process may strike, unless the run is calm. */
  method Strike(calm: bool) returns (o: Outcome)
    ensures calm ==> o == Fine
  {
    if calm { return Fine; }
    o := *;
  }

  class Lake {
    const schema: int
    const feature: int
    const keep: nat
    var catalog: Catalog
    var disk: Disk
    var views: Views
    ghost var validated: Disk
    ghost var validations: seq<int>

    ghost predicate Inv()
      reads this
    {
      keep >= 1 && Sound(catalog, disk, validated) && LoggedOnce(validations, validated)
    }

    constructor (schema: int, feature: int, keep: nat)
      requires keep >= 1
      ensures Inv() && catalog == [] && disk == map[]
    {
      this.schema, this.feature, this.keep := schema, feature, keep;
      catalog, disk, views, validated, validations := [], map[], Views(None, None), map[], [];
    }

    /** The atomic catalog replacement, validated first. */
    method ReplaceCatalog(records: Catalog, calm: bool) returns (o: Outcome)
      modifies this`catalog
      ensures (catalog == records && ValidCatalog(records)) || (catalog == old(catalog) && o != Fine)
      ensures calm ==> o == if ValidCatalog(records) then Fine else Raised
      ensures calm && o != Fine ==> catalog == old(catalog)
    {
      hide ValidCatalog, Refusal;
      if Refusal(records).Some? { return Raised; }
      o := Strike(calm);
      if o != Fine { return; }
      catalog := records;
      o := Strike(calm);
    }

    /** Clear the root views, or replace JSON then profile from the current bundle. */
    method RefreshViews(records: Catalog, calm: bool) returns (o: Outcome)
      modifies this`views
      ensures o == Fine ==> Show(views, records, disk)
      ensures o == Fine ==> CurrentInPlace(records, disk)
      ensures calm && Sound(records, disk, validated) ==> o == Fine
    {
      hide Sound, CanonicalPaths;
      var current := CurrentRows(records);
      CurrentMembers(records);
      if Sound(records, disk, validated) {
        CurrentIsWhole(records, disk, validated);
      }
      if |current| > 1 { return Raised; }
      if current == [] {
        views := views.(json := None);
        o := Strike(calm);
        if o != Fine { return; }
        views := views.(profile := None);
        o := Strike(calm);
        return;
      }
      var r := current[0];
      if !r.Selectable() || !CanonicalPaths(r) { return Raised; }
      if r.build !in disk || !disk[r.build].Whole() { return Raised; }
      o := Strike(calm);
      if o != Fine { return; }
      views := views.(json := Some(r));
      o := Strike(calm);
      if o != Fine { return; }
      views := views.(profile := disk[r.build].plot);
      o := Strike(calm);
    }

    /** The data file of a new build: mkdir refuses an existing id, a failure cleans up if it can. */
    method CreateData(build: int, data: nat, calm: bool) returns (o: Outcome)
      modifies this`disk
      ensures forall b :: b != build ==> At(disk, b) == At(old(disk), b)
      ensures build in old(disk) ==> o == Raised && disk == old(disk)
      ensures o == Fine ==> build in disk && disk[build] == Bundle(Some(data), None, None)
      ensures calm && build !in old(disk) ==> o == Fine
    {
      if build in disk { return Raised; }
      o := Strike(calm);
      if o != Fine { return; }
      disk := disk[build := Bundle(None, None, None)];
      o := Strike(calm);
      if o == Fine {
        disk := disk[build := Bundle(Some(data), None, None)];
        o := Strike(calm);
      }
      if o == Raised {
        if * { disk := disk - {build}; }
      }
    }

    /** The whole bundle: data, manifest, profile, then physical validation. */
    method CreateAndValidate(build: int, content: Bundle, calm: bool) returns (o: Outcome)
      requires content.Whole()
      modifies this`disk, this`validated, this`validations
      ensures forall b :: b != build ==> At(disk, b) == At(old(disk), b)
      ensures build in old(disk) ==> o == Raised && disk == old(disk)
      ensures validated == if o == Fine then old(validated)[build := content] else old(validated)
      ensures validations == if o == Fine then old(validations) + [build] else old(validations)
      ensures o == Fine ==> build in disk && disk[build] == content
      ensures calm ==> o == if build in old(disk) then Raised else Fine
    {
      o := CreateData(build, content.data.value, calm);
      if o != Fine { return; }
      o := Strike(calm);
      if o != Fine { return; }
      disk := disk[build := disk[build].(manifest := content.manifest)];
      o := Strike(calm);
      if o != Fine { return; }
      disk := disk[build := disk[build].(plot := content.plot)];
      o := Strike(calm);
      if o != Fine { return; }
      validated := validated[build := content];
      validations := validations + [build];
    }

    /** Finalize stale attempts and rebuild the views. */
    method Reconcile(at: int, calm: bool) returns (o: Outcome, records: Catalog)
      requires Inv()
      modifies this`catalog, this`views
      ensures Inv()
      ensures Advanced(old(catalog), catalog)
      ensures CurrentBuild(catalog) == old(CurrentBuild(catalog))
      ensures |catalog| == |old(catalog)|
      ensures o == Fine ==> records == catalog == Reconciled(old(catalog), at) && ClockCovers(old(catalog), at)
      ensures o == Fine ==> ClearedAttempts(old(catalog), catalog, at)
      ensures o == Fine ==> NoBuilding(catalog) && Show(views, catalog, disk)
      ensures calm ==> o == if ClockCovers(old(catalog), at) then Fine else Raised
      ensures calm && o != Fine ==> catalog == old(catalog)
    {
      hide ValidCatalog, BytesPresent, IdsKnown, CurrentBuild, LoggedOnce, Show, SameCurrent, ClearedAttempts;
      records := catalog;
      SoundValid(catalog, disk, validated);
      ReconcileEffect(catalog, at);
      ReconcileAccepted(catalog, at);
      NobodyCurrentlyBuilds(records);
      AttemptsCleared(records, at);
      if Stale(records) {
        records := Reconciled(records, at);
        o := ReplaceCatalog(records, calm);
        if catalog == records {
          ReplaceReconciled(old(catalog), catalog, disk, validated, at);
        }
        if o != Fine { return; }
      } else {
        NothingStale(records);
        NothingToReconcile(records, at);
      }
      o := RefreshViews(records, calm);
    }

    /** After a failure before the commit point: fail the attempt only if it is still building. */
    method FinalizeFailed(build: int, at: int, calm: bool) returns (o: Outcome)
      requires Inv()
      modifies this`catalog, this`views
      ensures Inv()
      ensures Advanced(old(catalog), catalog)
      ensures CurrentBuild(catalog) == old(CurrentBuild(catalog))
      ensures Committed(catalog, build) == Committed(old(catalog), build)
      ensures SameAttempts(old(catalog), catalog)
      ensures o == Fine ==> !StillBuilding(catalog, build)
      ensures o == Fine ==> catalog == if StillBuilding(old(catalog), build) then FailAttempt(old(catalog), build, at) else old(catalog)
      ensures o == Fine ==> |catalog| == |old(catalog)|
      ensures o == Fine ==> forall i :: 0 <= i < |catalog| ==>
                if old(catalog)[i].build == build && old(catalog)[i].status == Building then FailedFrom(old(catalog)[i], catalog[i], at)
                else catalog[i] == old(catalog)[i]
      ensures calm ==> (o == Fine <==> (StillBuilding(old(catalog), build) ==> StartedBy(old(catalog), build, at)))
      ensures calm ==> o != Stopped
      ensures o == Raised ==> views == old(views)
    {
      hide ValidCatalog, BytesPresent, IdsKnown, CurrentBuild, LoggedOnce, Show;
      var records := catalog;
      if !StillBuilding(records, build) { return Fine; }
      SoundValid(catalog, disk, validated);
      FailAccepted(records, build, at);
      AttemptFailed(records, build, at);
      var replaced := FailAttempt(records, build, at);
      o := ReplaceCatalog(replaced, calm);
      if catalog == replaced {
        ReplaceFailed(records, disk, validated, build, at);
      }
      if o != Fine { return; }
      o := RefreshViews(replaced, calm);
      if o == Raised { o := Fine; }
    }

    /**
     Build, validate, promote, refresh; the promotion replace is the only commit point.  Without
     faults it succeeds exactly for a publishable candidate.
     */
    method Publish(build: int, started: int, content: Bundle, c: Candidate, failedAt: int, reconcileAt: int, calm: bool)
      returns (o: Outcome)
      requires Inv() && content.Whole() && c.build == build && CandidatePaths(c)
      modifies this
      ensures Inv()
      ensures Advanced(old(catalog), catalog)
      ensures o == Fine ==> Publishable(old(catalog), build, started, c, reconcileAt, schema, feature)
      ensures o == Fine ==> catalog == Published(old(catalog), build, started, c, reconcileAt, schema, feature)
      ensures o == Fine ==> |catalog| == |old(catalog)| + 1
                            && PublishedRow(catalog[|old(catalog)|], build, started, c, schema, feature)
                            && StrictCurrent(catalog, Compatibility(schema, feature)) == Found(catalog[|old(catalog)|])
      ensures o == Fine ==> forall i :: 0 <= i < |old(catalog)| ==> Superseded(old(catalog)[i], catalog[i], reconcileAt)
      ensures o == Fine ==> CurrentBuild(catalog) == Some(build) && At(disk, build) == Some(content) && Show(views, catalog, disk)
      ensures calm ==> o == if Publishable(old(catalog), build, started, c, reconcileAt, schema, feature) then Fine else Raised
      ensures calm && started <= failedAt && !HasBuild(old(catalog), build) ==> !StillBuilding(catalog, build)
      ensures |catalog| <= |old(catalog)| + 1
      ensures |catalog| > |old(catalog)| ==> OwnAttempt(catalog[|old(catalog)|], build, started, schema, feature)
      ensures forall b :: b in old(validated) ==> At(validated, b) == At(old(validated), b)
      ensures old(validations) <= validations
      ensures HasBuild(old(catalog), build) ==> validations == old(validations) && disk == old(disk)
      ensures forall b :: b != build ==> At(disk, b) == At(old(disk), b)
      ensures CurrentBuild(catalog)
              == if !HasBuild(old(catalog), build) && Committed(catalog, build) then Some(build) else old(CurrentBuild(catalog))
    {
      hide ValidCatalog, BytesPresent, IdsKnown, CurrentBuild, CandidatePaths, Sound, HasBuild, Show, Advanced, Committed;
      hide ClockCovers, LoggedOnce, StillBuilding, NoBuilding, PromoteRows, Reconciled, ClearedAttempts, PublishedRow, Superseded;
      hide StrictCurrent, CurrentInPlace;
      ghost var first := catalog;
      var records: Catalog;
      o, records := Reconcile(reconcileAt, calm);
      SameBuilds(first, catalog, build);
      NotYetBuilding(catalog, build);
      if o != Fine { return; }
      ghost var reconciled := catalog;
      var building := BuildingRow(build, started, schema, feature);
      var registered := records + [building];
      RegistrationAccepted(reconciled, disk, validated, building, schema, feature);
      o := ReplaceCatalog(registered, calm);
      if catalog == registered {
        Registration(reconciled, disk, validated, building, schema, feature);
        AdvancedThrough(first, reconciled, catalog);
      }
      if o != Fine { return; }
      assert Open(catalog, disk, validated, build);
      o := Attempt(registered, build, started, content, c, calm);
      if o == Raised {
        ghost var tried := catalog;
        o := FinalizeFailed(build, failedAt, calm);
        StartedOnce(reconciled, building, failedAt);
        AdvancedThrough(first, registered, tried);
        AdvancedThrough(first, tried, catalog);
        if o == Fine { o := Raised; }
        return;
      }
      AdvancedThrough(first, registered, catalog);
      if o != Fine { return; }
      CommittedIsNotBuilding(catalog, disk, validated, build);
      PublishedRows(first, reconciled, catalog, disk, validated, started, c, reconcileAt, schema, feature);
      o := RefreshViews(catalog, calm);
      if o != Fine { return; }
      o := Strike(calm);   // mirror
    }

    /** The guarded part of a publication, up to and including the promotion. */
    method Attempt(registered: Catalog, build: int, started: int, content: Bundle, c: Candidate, calm: bool) returns (o: Outcome)
      requires Inv() && catalog == registered && Open(catalog, disk, validated, build)
      requires Attempted(registered, build, started, schema, feature)
      requires content.Whole() && c.build == build && CandidatePaths(c)
      modifies this
      ensures Inv()
      ensures Advanced(old(catalog), catalog)
      ensures o == Fine ==> Committed(catalog, build) && At(disk, build) == Some(content)
      ensures o == Fine ==> catalog == PromoteRows(registered, c)
      ensures calm ==> o == if Promotable(c, started, schema, feature) then Fine else Raised
      ensures o == Fine ==> Promotable(c, started, schema, feature)
      ensures catalog == registered || catalog == PromoteRows(registered, c)
      ensures SameAttempts(registered, catalog)
      ensures calm && o != Fine ==> catalog == registered
      ensures forall b :: b in old(validated) ==> At(validated, b) == At(old(validated), b)
      ensures old(validations) <= validations
      ensures forall b :: b != build ==> At(disk, b) == At(old(disk), b)
      ensures CurrentBuild(catalog) == if Committed(catalog, build) then Some(build) else old(CurrentBuild(catalog))
    {
      hide ValidCatalog, BytesPresent, IdsKnown, CurrentBuild, CandidatePaths, HasBuild, Committed, Sound, LoggedOnce, PromoteRows;
      hide SameAttempts, Attempted, StillBuilding, Promoted, Promotable, Show, Advanced;
      AdvancedRefl(registered);
      SameAttemptsRefl(registered);
      OpenNotCommitted(catalog, disk, validated, build);
      o := RefreshViews(registered, calm);
      if o != Fine { return; }
      ghost var before, seen, log := disk, validated, validations;
      o := CreateAndValidate(build, content, calm);
      OpenCreate(catalog, before, seen, build, disk, validated);
      LogGrows(log, seen, validations, validated, build);
      if o != Fine { return; }
      PromotionAccepted(registered, disk, validated, c, started, schema, feature);
      if Promotable(c, started, schema, feature) {
        PromotionKeepsAttempts(registered, disk, validated, c, started, schema, feature);
      }
      var promoted := Promoted(registered, c, schema, feature);
      if promoted.Err? { return Raised; }
      o := ReplaceCatalog(promoted.value, calm);
      if catalog == promoted.value {
        ReplacePromoted(registered, disk, validated, c, schema, feature);
      }
    }

    /** Delete one tombstoned bundle: three files, then the directory; missing files are fine. */
    method Sweep(build: int, calm: bool) returns (o: Outcome)
      requires Inv() && Tombstoned(catalog, build)
      modifies this`disk
      ensures Inv()
      ensures forall b :: b != build ==> At(disk, b) == At(old(disk), b)
      ensures o == Fine ==> build !in disk
      ensures calm ==> o == Fine
    {
      hide Sound, LoggedOnce;
      ghost var before := disk;
      SweepSound(catalog, before, validated, build, disk);
      if build in disk {
        disk := disk[build := disk[build].(data := None)];
        SweepSound(catalog, before, validated, build, disk);
      }
      o := Strike(calm);
      if o != Fine { return; }
      if build in disk {
        disk := disk[build := disk[build].(manifest := None)];
        SweepSound(catalog, before, validated, build, disk);
      }
      o := Strike(calm);
      if o != Fine { return; }
      if build in disk {
        disk := disk[build := disk[build].(plot := None)];
        SweepSound(catalog, before, validated, build, disk);
      }
      o := Strike(calm);
      if o != Fine { return; }
      disk := disk - {build};
      SweepSound(catalog, before, validated, build, disk);
      o := Strike(calm);
    }

    /** Sweep every tombstone again, whether marked now or by an earlier run. */
    method SweepAll(calm: bool) returns (o: Outcome)
      requires Inv()
      modifies this`disk
      ensures Inv()
      ensures o == Fine ==> forall i :: 0 <= i < |catalog| && Tombstone(catalog[i]) ==> catalog[i].build !in disk
      ensures forall b :: !Tombstoned(catalog, b) ==> At(disk, b) == At(old(disk), b)
      ensures calm ==> o == Fine
    {
      hide Sound, LoggedOnce;
      for i := 0 to |catalog|
        invariant Inv()
        invariant forall k :: 0 <= k < i && Tombstone(catalog[k]) ==> catalog[k].build !in disk
        invariant forall b :: !Tombstoned(catalog, b) ==> At(disk, b) == At(old(disk), b)
      {
        if Tombstone(catalog[i]) {
          ghost var before := disk;
          assert Tombstoned(catalog, catalog[i].build);
          o := Sweep(catalog[i].build, calm);
          if o != Fine { return; }
          forall k | 0 <= k < i && Tombstone(catalog[k]) ensures catalog[k].build !in disk {
            if catalog[k].build != catalog[i].build {
              assert At(disk, catalog[k].build) == At(before, catalog[k].build);
            }
          }
        }
      }
      o := Fine;
    }

    /** Mark, then sweep; answers to both resolutions never change. */
    method RunRetention(at: int, calm: bool) returns (o: Outcome)
      requires Inv()
      modifies this`catalog, this`views, this`disk
      ensures Inv()
      ensures Advanced(old(catalog), catalog)
      ensures CurrentBuild(catalog) == old(CurrentBuild(catalog))
      ensures forall c :: StrictCurrent(catalog, c) == StrictCurrent(old(catalog), c)
                          && LatestCompatible(catalog, c) == LatestCompatible(old(catalog), c)
      ensures SelectForMark(old(catalog), keep).Ok?
      ensures o == Fine ==> catalog == MarkAll(old(catalog), SelectForMark(old(catalog), keep).value, at)
      ensures |catalog| == |old(catalog)|
              && forall i :: 0 <= i < |catalog| ==> catalog[i] == old(catalog)[i] || MarkedFrom(old(catalog)[i], catalog[i], at)
      ensures o == Fine ==> forall i :: 0 <= i < |catalog| && Tombstone(catalog[i]) ==> catalog[i].build !in disk
      ensures forall b :: !Tombstoned(catalog, b) ==> At(disk, b) == At(old(disk), b)
      ensures o == Fine ==> forall key :: |Group(catalog, key)| <= keep
      ensures o == Fine ==> if AnyTombstone(catalog) then Show(views, catalog, disk) else views == old(views)
      ensures calm ==> o == Fine
    {
      hide Sound, CurrentBuild, StrictCurrent, LatestCompatible, Group, SelectForMark, ValidCatalog, LoggedOnce, Show, Advanced;
      hide Tombstoned;
      var records := catalog;
      AdvancedRefl(records);
      SoundValid(catalog, disk, validated);
      MarkedIsValid(records, keep, at);
      var ids := SelectForMarkLoop(records, keep);
      RetentionCounts(records, keep, at);
      MarksOnly(records, ids.value, at);
      MarksAreTombstones(records, keep, at);
      if ids.value != [] {
        var marked := MarkAll(records, ids.value, at);
        o := ReplaceCatalog(marked, calm);
        if catalog == marked {
          ReplaceMarked(records, disk, validated, keep, at);
        }
        if o != Fine { return; }
        SoundValid(catalog, disk, validated);
        o := RefreshViews(marked, calm);
        if o != Fine { return; }
      } else {
        MarkNothing(records, at);
        if exists i :: 0 <= i < |records| && Tombstone(records[i]) {
          o := RefreshViews(records, calm);
          if o != Fine { return; }
        }
      }
      ghost var shown := disk;
      o := SweepAll(calm);
      SweepKeepsViews(views, catalog, shown, disk);
    }

    /**
     Any history of publications, reconciliations and retention runs, each ending normally, by
     exception or by the process stopping anywhere inside it: every selectable build keeps the
     bytes it was validated with, no row is dropped or moves back, and no build is validated twice.
     */
    method Live(ops: seq<Operation>)
      requires Inv()
      requires forall i :: 0 <= i < |ops| ==> Proper(ops[i])
      modifies this
      ensures Inv()
      ensures Advanced(old(catalog), catalog)
      ensures forall b :: b in old(validated) ==> At(validated, b) == At(old(validated), b)
      ensures old(validations) <= validations && forall i, j :: 0 <= i < j < |validations| ==> validations[i] != validations[j]
    {
      hide Sound, Committed, HasBuild, CurrentBuild, CandidatePaths, Show, Publishable, Published;
      AdvancedRefl(catalog);
      for i := 0 to |ops|
        invariant Inv()
        invariant Advanced(old(catalog), catalog)
        invariant forall b :: b in old(validated) ==> At(validated, b) == At(old(validated), b)
        invariant old(validations) <= validations
      {
        ghost var before, seen := catalog, validated;
        var o: Outcome;
        match ops[i]
        case DoReconcile(at, calm) =>
          var records: Catalog;
          o, records := Reconcile(at, calm);
        case DoPublish(build, started, content, c, failedAt, reconcileAt, calm) =>
          o := Publish(build, started, content, c, failedAt, reconcileAt, calm);
        case DoRetention(at, calm) =>
          o := RunRetention(at, calm);
        AdvancedThrough(old(catalog), before, catalog);
        forall b | b in old(validated) ensures At(validated, b) == At(old(validated), b) {
          assert At(seen, b) == At(old(validated), b);
        }
      }
    }
  }

  datatype Operation =
    | DoReconcile(at: int, calm: bool)
    | DoPublish(build: int, started: int, content: Bundle, c: Candidate, failedAt: int, reconcileAt: int, calm: bool)
    | DoRetention(at: int, calm: bool)

  /** The bundle step hands the publisher a whole bundle under the id it was asked for. */
  predicate Proper(op: Operation) {
    op.DoPublish? ==> op.content.Whole() && op.c.build == op.build && CandidatePaths(op.c)
  }

  lemma AdvancedRefl(records: Catalog)
    ensures Advanced(records, records)
  {
  }

  lemma SameAttemptsRefl(records: Catalog)
    ensures SameAttempts(records, records)
  {
  }

  /* ---------- glue between rewrites and the lake ---------- */

  /** A registered attempt that has left nothing on disk yet. */
  ghost predicate Open(records: Catalog, disk: Disk, validated: Disk, build: int) {
    StillBuilding(records, build) && build !in disk && build !in validated
  }

  /** The row of a registered attempt. */
  predicate Attempted(records: Catalog, build: int, started: int, schema: int, feature: int) {
    exists i :: 0 <= i < |records| && records[i].status == Building && OwnAttempt(records[i], build, started, schema, feature)
  }

  /** The same attempts, whatever became of them. */
  predicate SameAttempts(a: Catalog, b: Catalog) {
    |a| == |b| && forall i :: 0 <= i < |a| ==> OwnAttempt(b[i], a[i].build, a[i].started, a[i].schema, a[i].feature)
  }

  /** What a validated candidate still needs to be promoted. */
  predicate Promotable(c: Candidate, started: int, schema: int, feature: int) {
    && started <= c.completed
    && (c.minTime.Some? && c.maxTime.Some? ==> c.minTime.value <= c.maxTime.value)
    && c.schema == schema && c.feature == feature
  }

  /** The attempt started no later than `at`. */
  predicate StartedBy(records: Catalog, build: int, at: int) {
    forall i :: 0 <= i < |records| && records[i].build == build ==> records[i].started <= at
  }

  predicate Tombstoned(records: Catalog, build: int) {
    exists i :: 0 <= i < |records| && records[i].build == build && Tombstone(records[i])
  }

  lemma NothingStale(records: Catalog)
    requires ValidCatalog(records) && !Stale(records)
    ensures NoBuilding(records)
  {
    forall i | 0 <= i < |records| ensures records[i].status != Building {
      assert ValidRecord(records[i]);
    }
  }

  predicate AnyTombstone(records: Catalog) {
    exists i :: 0 <= i < |records| && Tombstone(records[i])
  }

  /** Marking something leaves a tombstone. */
  lemma MarksAreTombstones(records: Catalog, keep: nat, at: int)
    requires ValidCatalog(records) && keep >= 1
    ensures SelectForMark(records, keep).Ok?
    ensures SelectForMark(records, keep).value != [] ==> AnyTombstone(MarkAll(records, SelectForMark(records, keep).value, at))
  {
    hide SelectForMark, ValidRecord;
    MarkedIsValid(records, keep, at);
    var ids := SelectForMark(records, keep).value;
    if ids != [] {
      MarkedIsRow(records, keep, ids[0]);
      var i :| 0 <= i < |records| && records[i].build == ids[0];
      assert Tombstone(MarkAll(records, ids, at)[i]);
    }
  }

  /** Sweeping tombstones does not change what the views have to show. */
  lemma SweepKeepsViews(views: Views, records: Catalog, before: Disk, after: Disk)
    requires forall b :: !Tombstoned(records, b) ==> At(after, b) == At(before, b)
    requires UniqueBuilds(records) && OneCurrent(records)
    ensures Show(views, records, before) ==> Show(views, records, after)
  {
    CurrentRowsCount(records);
    if CurrentRows(records) != [] {
      var r := CurrentRows(records)[0];
      CurrentRowsMember(records, r);
      var i :| 0 <= i < |records| && records[i] == r;
      forall j | 0 <= j < |records| && records[j].build == r.build ensures j == i {
      }
      assert At(after, r.build) == At(before, r.build);
    }
  }

  lemma AttemptsCleared(records: Catalog, at: int)
    requires ValidCatalog(records)
    ensures ClearedAttempts(records, Reconciled(records, at), at)
  {
    NobodyCurrentlyBuilds(records);
  }

  lemma AttemptFailed(records: Catalog, build: int, at: int)
    requires ValidCatalog(records) && StillBuilding(records, build)
    ensures forall i :: 0 <= i < |records| ==>
              if records[i].build == build && records[i].status == Building then FailedFrom(records[i], FailAttempt(records, build, at)[i], at)
              else FailAttempt(records, build, at)[i] == records[i]
  {
    hide ValidRecord;
    var k :| 0 <= k < |records| && records[k].build == build && records[k].status == Building;
    forall i | 0 <= i < |records| && records[i].build == build ensures i == k {
    }
  }

  lemma MarksOnly(records: Catalog, ids: seq<int>, at: int)
    requires forall i :: 0 <= i < |records| && records[i].build in ids ==> CanMark(records[i])
    ensures forall i :: 0 <= i < |records| ==>
              MarkAll(records, ids, at)[i] == records[i] || MarkedFrom(records[i], MarkAll(records, ids, at)[i], at)
  {
  }

  /** What a publication left in the catalog, row by row, and that strict resolution finds it. */
  lemma PublishedRows(records: Catalog, reconciled: Catalog, after: Catalog, disk: Disk, validated: Disk, started: int,
                      c: Candidate, at: int, schema: int, feature: int)
    requires ClearedAttempts(records, reconciled, at) && !HasBuild(reconciled, c.build) && CandidatePaths(c)
    requires c.schema == schema && c.feature == feature
    requires after == PromoteRows(reconciled + [BuildingRow(c.build, started, schema, feature)], c)
    requires Sound(after, disk, validated)
    ensures |after| == |records| + 1
    ensures PublishedRow(after[|records|], c.build, started, c, schema, feature)
    ensures StrictCurrent(after, Compatibility(schema, feature)) == Found(after[|records|])
    ensures forall i :: 0 <= i < |records| ==> Superseded(records[i], after[i], at)
  {
    hide StrictCurrent, DataPath, ManifestPath, PlotPath, BytesPresent, IdsKnown, ValidCatalog;
    SoundValid(after, disk, validated);
    var n := |records|;
    NamedPaths(c);
    assert PublishedRow(after[n], c.build, started, c, schema, feature);
    assert after[n] in after;
    StrictCurrentExact(after, Compatibility(schema, feature), after[n]);
    forall i | 0 <= i < n ensures Superseded(records[i], after[i], at) {
      assert reconciled[i].build != c.build;
    }
  }

  lemma CurrentMembers(records: Catalog)
    ensures forall r :: r in CurrentRows(records) <==> r in records && r.current
  {
    forall r ensures r in CurrentRows(records) <==> r in records && r.current {
      CurrentRowsMember(records, r);
    }
  }

  /** The one current row has its whole bundle on disk. */
  lemma CurrentIsWhole(records: Catalog, disk: Disk, validated: Disk)
    requires Sound(records, disk, validated)
    ensures |CurrentRows(records)| <= 1
    ensures CurrentRows(records) != [] ==>
              var r := CurrentRows(records)[0];
              r.Selectable() && CanonicalPaths(r) && r.build in disk && disk[r.build].Whole()
  {
    hide CanonicalPaths;
    CurrentRowsCount(records);
    if CurrentRows(records) != [] {
      CurrentRowsMember(records, CurrentRows(records)[0]);
      var i :| 0 <= i < |records| && records[i] == CurrentRows(records)[0];
      assert ValidRecord(records[i]);
    }
  }

  lemma NobodyCurrentlyBuilds(records: Catalog)
    requires ValidCatalog(records)
    ensures forall i :: 0 <= i < |records| && records[i].status == Building ==> !records[i].current
  {
    forall i | 0 <= i < |records| && records[i].status == Building ensures !records[i].current {
      assert ValidRecord(records[i]);
    }
  }

  lemma ReplaceReconciled(records: Catalog, after: Catalog, disk: Disk, validated: Disk, at: int)
    requires Sound(records, disk, validated) && after == Reconciled(records, at) && ValidCatalog(after)
    ensures Sound(after, disk, validated) && Advanced(records, after) && NoBuilding(after)
    ensures CurrentBuild(after) == CurrentBuild(records)
  {
    hide BytesPresent, IdsKnown, CurrentBuild;
    ReconcileSound(records, disk, validated, at);
    ReconcileEffect(records, at);
    SameCurrentBuild(records, after);
  }

  lemma ReplaceFailed(records: Catalog, disk: Disk, validated: Disk, build: int, at: int)
    requires Sound(records, disk, validated) && StillBuilding(records, build)
    ensures var after := FailAttempt(records, build, at);
            ValidCatalog(after) ==>
              && Sound(after, disk, validated) && Advanced(records, after)
              && CurrentBuild(after) == CurrentBuild(records)
              && !StillBuilding(after, build)
              && Committed(after, build) == Committed(records, build)
  {
    hide BytesPresent, IdsKnown, CurrentBuild;
    var after := FailAttempt(records, build, at);
    if ValidCatalog(after) {
      FailSound(records, disk, validated, build, at);
      FailEffect(records, build, at);
      SameCurrentBuild(records, after);
      var k :| 0 <= k < |records| && records[k].build == build && records[k].status == Building;
      forall i | 0 <= i < |records| && records[i].build == build ensures i == k {
      }
    }
  }

  lemma NotYetBuilding(records: Catalog, build: int)
    ensures !HasBuild(records, build) ==> !StillBuilding(records, build)
  {
  }

  /** A registration is accepted exactly for a new id, and leaves the one attempt it added. */
  lemma RegistrationAccepted(records: Catalog, disk: Disk, validated: Disk, row: Record, schema: int, feature: int)
    requires Sound(records, disk, validated) && row == BuildingRow(row.build, row.started, schema, feature)
    ensures ValidCatalog(records + [row]) <==> !HasBuild(records, row.build)
    ensures Attempted(records + [row], row.build, row.started, schema, feature)
  {
    hide BytesPresent, IdsKnown, HasBuild, ValidRecord;
    RegisterAccepted(records, row.build, row.started, schema, feature);
    assert (records + [row])[|records|] == row;
  }

  lemma StartedOnce(records: Catalog, row: Record, at: int)
    requires !HasBuild(records, row.build)
    ensures row.started <= at ==> StartedBy(records + [row], row.build, at)
  {
  }

  lemma CommittedIsNotBuilding(records: Catalog, disk: Disk, validated: Disk, build: int)
    requires Sound(records, disk, validated) && Committed(records, build)
    ensures !StillBuilding(records, build)
  {
    hide BytesPresent, IdsKnown, ValidRecord;
    var k :| 0 <= k < |records| && records[k].build == build && records[k].status == Complete;
    forall i | 0 <= i < |records| && records[i].build == build ensures i == k {
    }
  }

  /** The promotion of a validated candidate passes every check exactly when it is promotable. */
  lemma PromotionAccepted(records: Catalog, disk: Disk, validated: Disk, c: Candidate, started: int, schema: int, feature: int)
    requires Sound(records, disk, validated) && Attempted(records, c.build, started, schema, feature) && CandidatePaths(c)
    ensures Promotable(c, started, schema, feature)
            <==> Promoted(records, c, schema, feature).Ok? && ValidCatalog(Promoted(records, c, schema, feature).value)
    ensures Promoted(records, c, schema, feature).Ok? ==> Promoted(records, c, schema, feature).value == PromoteRows(records, c)
  {
    hide BytesPresent, IdsKnown, CandidatePaths, ValidRecord;
    SoundValid(records, disk, validated);
    PromoteAccepted(records, c, started);
    var k :| 0 <= k < |records| && records[k].build == c.build && records[k].status == Building && records[k].started == started;
    CountOnce(records, k);
    NobodyCurrentlyBuilds(records);
    forall i | 0 <= i < |records| && records[i].build == c.build ensures i == k {
    }
  }

  lemma PromotionKeepsAttempts(records: Catalog, disk: Disk, validated: Disk, c: Candidate, started: int, schema: int,
                               feature: int)
    requires Sound(records, disk, validated) && Attempted(records, c.build, started, schema, feature)
    requires Promotable(c, started, schema, feature)
    ensures SameAttempts(records, PromoteRows(records, c))
  {
    hide BytesPresent, IdsKnown, ValidRecord;
    var k :| 0 <= k < |records| && records[k].status == Building && OwnAttempt(records[k], c.build, started, schema, feature);
    forall i | 0 <= i < |records| && records[i].build == c.build ensures i == k {
    }
  }

  lemma {:induction false} CountOnce(records: Catalog, k: nat)
    requires UniqueBuilds(records) && k < |records|
    ensures CountBuild(records, records[k].build) == 1
  {
    var n := |records| - 1;
    if k < n {
      CountOnce(records[..n], k);
    } else {
      CountNone(records[..n], records[k].build);
    }
  }

  lemma {:induction false} CountNone(records: Catalog, build: int)
    requires !HasBuild(records, build)
    ensures CountBuild(records, build) == 0
  {
    if records != [] {
      assert forall i :: 0 <= i < |records| - 1 ==> records[..|records| - 1][i] == records[i];
      CountNone(records[..|records| - 1], build);
    }
  }

  lemma LogGrows(log: seq<int>, validated: Disk, longer: seq<int>, after: Disk, build: int)
    requires LoggedOnce(log, validated) && build !in validated
    requires (longer == log && after == validated)
             || (longer == log + [build] && build in after && after == validated[build := after[build]])
    ensures LoggedOnce(longer, after)
  {
  }

  lemma Registration(records: Catalog, disk: Disk, validated: Disk, row: Record, schema: int, feature: int)
    requires Sound(records, disk, validated) && row == BuildingRow(row.build, row.started, schema, feature)
    requires ValidCatalog(records + [row])
    ensures Sound(records + [row], disk, validated) && Advanced(records, records + [row])
    ensures Open(records + [row], disk, validated, row.build)
    ensures !HasBuild(records, row.build) && !Committed(records + [row], row.build)
    ensures CurrentBuild(records + [row]) == CurrentBuild(records)
  {
    hide BytesPresent, IdsKnown, CurrentBuild;
    RegisterSound(records, disk, validated, row.build, row.started, schema, feature);
    RegisterAccepted(records, row.build, row.started, schema, feature);
    SameCurrentBuild(records, records + [row]);
  }

  lemma OpenNotCommitted(records: Catalog, disk: Disk, validated: Disk, build: int)
    requires Sound(records, disk, validated) && StillBuilding(records, build)
    ensures !Committed(records, build) && HasBuild(records, build)
  {
    hide BytesPresent, IdsKnown;
    var k :| 0 <= k < |records| && records[k].build == build && records[k].status == Building;
    forall i | 0 <= i < |records| && records[i].build == build ensures i == k {
    }
  }

  lemma OpenCreate(records: Catalog, disk: Disk, validated: Disk, build: int, after: Disk, recorded: Disk)
    requires Sound(records, disk, validated) && Open(records, disk, validated, build)
    requires forall b :: b != build ==> At(after, b) == At(disk, b)
    requires recorded == validated || (build in recorded && recorded == validated[build := recorded[build]])
    ensures Sound(records, after, recorded)
  {
    hide Sound;
    OpenNotCommitted(records, disk, validated, build);
    CreateSound(records, disk, validated, build, after, recorded);
  }

  lemma ReplacePromoted(records: Catalog, disk: Disk, validated: Disk, c: Candidate, schema: int, feature: int)
    requires Sound(records, disk, validated) && Promoted(records, c, schema, feature).Ok? && StillBuilding(records, c.build)
    requires c.build in disk && disk[c.build].Whole() && At(validated, c.build) == Some(disk[c.build]) && CandidatePaths(c)
    ensures var after := Promoted(records, c, schema, feature).value;
            ValidCatalog(after) ==>
              && Sound(after, disk, validated) && Advanced(records, after)
              && Committed(after, c.build) && CurrentBuild(after) == Some(c.build)
  {
    hide BytesPresent, IdsKnown, CurrentBuild, CandidatePaths, CountBuild;
    var after := PromoteRows(records, c);
    if ValidCatalog(after) {
      PromoteSound(records, disk, validated, c);
      PromoteEffect(records, c);
      var k :| 0 <= k < |records| && records[k].build == c.build && records[k].status == Building;
      assert after[k].build == c.build && after[k].status == Complete;
    }
  }

  lemma ReplaceMarked(records: Catalog, disk: Disk, validated: Disk, keep: nat, at: int)
    requires Sound(records, disk, validated) && keep >= 1
    ensures SelectForMark(records, keep).Ok?
    ensures var after := MarkAll(records, SelectForMark(records, keep).value, at);
            && Sound(after, disk, validated) && Advanced(records, after)
            && CurrentBuild(after) == CurrentBuild(records)
            && forall c :: StrictCurrent(after, c) == StrictCurrent(records, c) && LatestCompatible(after, c) == LatestCompatible(records, c)
  {
    hide BytesPresent, IdsKnown, CurrentBuild, SelectForMark, StrictCurrent, LatestCompatible;
    MarkedIsValid(records, keep, at);
    var ids := SelectForMark(records, keep).value;
    MarkSound(records, disk, validated, ids, at);
    SameCurrentBuild(records, MarkAll(records, ids, at));
    forall c
      ensures StrictCurrent(MarkAll(records, ids, at), c) == StrictCurrent(records, c)
      ensures LatestCompatible(MarkAll(records, ids, at), c) == LatestCompatible(records, c)
    {
      MarkingChangesNoAnswer(records, keep, at, c);
    }
  }

  lemma RetentionCounts(records: Catalog, keep: nat, at: int)
    requires ValidCatalog(records) && keep >= 1
    ensures SelectForMark(records, keep).Ok?
    ensures forall key :: |Group(MarkAll(records, SelectForMark(records, keep).value, at), key)| <= keep
    ensures SelectForMark(records, keep).value == [] ==> forall key :: |Group(records, key)| <= keep
  {
    hide SelectForMark, Group, ValidCatalog, MarkAll;
    SelectionRuns(records, keep);
    forall key ensures |Group(MarkAll(records, SelectForMark(records, keep).value, at), key)| <= keep {
      MarkKeepsCount(records, keep, at, key);
    }
    if SelectForMark(records, keep).value == [] {
      MarkNothing(records, at);
    }
  }

  lemma {:induction false} MarkNothing(records: Catalog, at: int)
    ensures MarkAll(records, [], at) == records
  {
    if records != [] {
      MarkNothing(records[..|records| - 1], at);
    }
  }

  lemma SameBuilds(a: Catalog, b: Catalog, build: int)
    requires Advanced(a, b) && |a| == |b|
    ensures HasBuild(a, build) == HasBuild(b, build)
    ensures Committed(b, build) ==> HasBuild(b, build)
  {
    if i :| 0 <= i < |b| && b[i].build == build {
      assert a[i].build == build;
    }
    if i :| 0 <= i < |a| && a[i].build == build {
      assert b[i].build == build;
    }
  }
}
