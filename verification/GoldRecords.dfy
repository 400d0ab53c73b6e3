/**
 The catalog rewrites of publication, and what "every selectable build has its bytes" means for
 a catalog and a disk.
 */
module GoldRecords {
  import opened Common
  import opened GoldCatalog
  import opened GoldRetention

  /* ---------- bundles ---------- */

  /** The three artifacts of one build directory, by content. */
  datatype Bundle = Bundle(data: Option<nat>, manifest: Option<nat>, plot: Option<nat>) {
    predicate Whole() { data.Some? && manifest.Some? && plot.Some? }
  }

  type Disk = map<int, Bundle>

  /** What a validated bundle reports to the publisher. */
  datatype Candidate = Candidate(build: int, completed: int, schema: int, feature: int, rowCount: nat,
                                 minTime: Option<int>, maxTime: Option<int>,
                                 data: string, manifest: string, plot: string)

  function Digits(n: nat): string {
    if n < 10 then ["0123456789"[n]] else Digits(n / 10) + ["0123456789"[n % 10]]
  }

  function BuildRoot(build: int): string {
    "versions/build_id=" + (if build < 0 then "-" + Digits(-build) else Digits(build))
  }

  function DataPath(build: int): string { BuildRoot(build) + "/data.parquet" }

  function ManifestPath(build: int): string { BuildRoot(build) + "/manifest.json" }

  function PlotPath(build: int): string { BuildRoot(build) + "/feature_profile.png" }

  function FromDigits(s: string): int {
    if s == [] then 0 else 10 * FromDigits(s[..|s| - 1]) + (s[|s| - 1] as int - '0' as int)
  }

  lemma {:induction false} DigitsRoundTrip(n: nat)
    ensures FromDigits(Digits(n)) == n && Digits(n) != [] && Digits(n)[0] != '-'
  {
    if n >= 10 {
      DigitsRoundTrip(n / 10);
      assert Digits(n)[..|Digits(n)| - 1] == Digits(n / 10);
    } else {
      assert Digits(n)[..0] == [];
    }
  }

  /** Two builds never share a file path. */
  lemma PathsAreDistinct(a: int, b: int)
    requires DataPath(a) == DataPath(b) || ManifestPath(a) == ManifestPath(b) || PlotPath(a) == PlotPath(b)
    ensures a == b
  {
    hide FromDigits, Digits;
    DigitsRoundTrip(if a < 0 then -a else a);
    DigitsRoundTrip(if b < 0 then -b else b);
    SameRoot(a, b);
    var prefix := "versions/build_id=";
    assert BuildRoot(a)[|prefix|..] == if a < 0 then "-" + Digits(-a) else Digits(a);
    assert BuildRoot(b)[|prefix|..] == if b < 0 then "-" + Digits(-b) else Digits(b);
    assert a < 0 ==> BuildRoot(a)[|prefix|..][1..] == Digits(-a);
    assert b < 0 ==> BuildRoot(b)[|prefix|..][1..] == Digits(-b);
  }

  lemma SameRoot(a: int, b: int)
    requires DataPath(a) == DataPath(b) || ManifestPath(a) == ManifestPath(b) || PlotPath(a) == PlotPath(b)
    ensures BuildRoot(a) == BuildRoot(b)
  {
    hide BuildRoot;
    var x, y := BuildRoot(a), BuildRoot(b);
    forall suffix: string | x + suffix == y + suffix ensures x == y {
      assert |x| == |y|;
      assert (x + suffix)[..|x|] == x && (y + suffix)[..|y|] == y;
    }
  }

  predicate CanonicalPaths(r: Record) {
    r.data == Some(DataPath(r.build)) && r.manifest == Some(ManifestPath(r.build)) && r.plot == Some(PlotPath(r.build))
  }

  /* ---------- rewrites ---------- */

  /** A building row finalized as failed. */
  function Fail(r: Record, at: int): Record {
    r.(status := Failed, current := false, completed := Some(at), minTime := None, maxTime := None, rowCount := None,
       data := None, manifest := None, plot := None, pruned := None)
  }

  function ReconcileRow(r: Record, at: int): Record {
    if r.status == Building && !r.current then Fail(r, at) else r
  }

  /** Every stale building row becomes failed. */
  function Reconciled(records: Catalog, at: int): (after: Catalog)
    ensures |after| == |records| && forall i :: 0 <= i < |records| ==> after[i] == ReconcileRow(records[i], at)
  {
    if records == [] then []
    else Reconciled(records[..|records| - 1], at) + [ReconcileRow(records[|records| - 1], at)]
  }

  function Stale(records: Catalog): bool {
    exists i :: 0 <= i < |records| && records[i].status == Building && !records[i].current
  }

  function BuildingRow(build: int, started: int, schema: int, feature: int): Record {
    Record(build, Building, false, started, None, schema, feature, None, None, None, None, None, None, None)
  }

  function CompleteRow(attempt: Record, c: Candidate): Record {
    attempt.(status := Complete, current := true, completed := Some(c.completed), schema := c.schema, feature := c.feature,
             minTime := c.minTime, maxTime := c.maxTime, rowCount := Some(c.rowCount),
             data := Some(c.data), manifest := Some(c.manifest), plot := Some(c.plot), pruned := None)
  }

  function PromoteRow(r: Record, c: Candidate): Record {
    if r.build == c.build then CompleteRow(r, c) else if r.current then r.(current := false) else r
  }

  function PromoteRows(records: Catalog, c: Candidate): (after: Catalog)
    ensures |after| == |records| && forall i :: 0 <= i < |records| ==> after[i] == PromoteRow(records[i], c)
  {
    if records == [] then []
    else PromoteRows(records[..|records| - 1], c) + [PromoteRow(records[|records| - 1], c)]
  }

  datatype PromotionError = VersionMismatch | NoSingleAttempt | NotBuilding

  function CountBuild(records: Catalog, build: int): nat {
    if records == [] then 0
    else CountBuild(records[..|records| - 1], build) + (if records[|records| - 1].build == build then 1 else 0)
  }

  /** The promoted catalog, or why the candidate is refused. */
  function Promoted(records: Catalog, c: Candidate, schema: int, feature: int): Result<Catalog, PromotionError> {
    if c.schema != schema || c.feature != feature then Err(VersionMismatch)
    else if CountBuild(records, c.build) != 1 then Err(NoSingleAttempt)
    else if exists i :: 0 <= i < |records| && records[i].build == c.build && (records[i].status != Building || records[i].current)
    then Err(NotBuilding)
    else Ok(PromoteRows(records, c))
  }

  function FailRow(r: Record, build: int, at: int): Record {
    if r.build == build then Fail(r, at) else r
  }

  function FailAttempt(records: Catalog, build: int, at: int): (after: Catalog)
    ensures |after| == |records| && forall i :: 0 <= i < |records| ==> after[i] == FailRow(records[i], build, at)
  {
    if records == [] then []
    else FailAttempt(records[..|records| - 1], build, at) + [FailRow(records[|records| - 1], build, at)]
  }

  /** The catalog still says this attempt is building. */
  predicate StillBuilding(records: Catalog, build: int) {
    exists i :: 0 <= i < |records| && records[i].build == build && records[i].status == Building
  }

  predicate HasBuild(records: Catalog, build: int) {
    exists i :: 0 <= i < |records| && records[i].build == build
  }

  /* ---------- soundness of a lake ---------- */

  /** Every selectable build is on disk, whole, under its own paths, and as it was validated. */
  predicate BytesPresent(records: Catalog, disk: Disk, validated: Disk) {
    forall i :: 0 <= i < |records| && records[i].Selectable() ==>
      && CanonicalPaths(records[i])
      && records[i].build in disk
      && disk[records[i].build].Whole()
      && At(validated, records[i].build) == Some(disk[records[i].build])
  }

  /** Build ids on disk or ever validated belong to a catalog row, so the catalog can refuse them. */
  predicate IdsKnown(records: Catalog, disk: Disk, validated: Disk) {
    (forall b :: b in disk ==> HasBuild(records, b)) && (forall b :: b in validated ==> HasBuild(records, b))
  }

  predicate Sound(records: Catalog, disk: Disk, validated: Disk) {
    ValidCatalog(records) && BytesPresent(records, disk, validated) && IdsKnown(records, disk, validated)
  }

  /* ---------- histories of rows ---------- */

  predicate Advances(a: Status, b: Status) {
    a == b || a == Building
  }

  /** Rows are never dropped, and each only moves from building to complete or failed. */
  predicate Advanced(a: Catalog, b: Catalog) {
    |a| <= |b| && forall i :: 0 <= i < |a| ==> b[i].build == a[i].build && Advances(a[i].status, b[i].status)
  }

  lemma AdvancedThrough(a: Catalog, b: Catalog, c: Catalog)
    requires Advanced(a, b) && Advanced(b, c)
    ensures Advanced(a, c)
  {
  }

  lemma AdvancedKeepsBuilds(a: Catalog, b: Catalog, build: int)
    requires Advanced(a, b) && HasBuild(a, build)
    ensures HasBuild(b, build)
  {
    var i :| 0 <= i < |a| && a[i].build == build;
    assert b[i].build == build;
  }

  lemma IdsStayKnown(a: Catalog, b: Catalog, disk: Disk, validated: Disk)
    requires Advanced(a, b) && IdsKnown(a, disk, validated)
    ensures IdsKnown(b, disk, validated)
  {
    hide HasBuild, Advanced;
    forall build | build in disk ensures HasBuild(b, build) {
      AdvancedKeepsBuilds(a, b, build);
    }
    forall build | build in validated ensures HasBuild(b, build) {
      AdvancedKeepsBuilds(a, b, build);
    }
  }

  /** The build that consumers see, if any. */
  function CurrentBuild(records: Catalog): Option<int> {
    if records == [] then None
    else if records[|records| - 1].current then Some(records[|records| - 1].build)
    else CurrentBuild(records[..|records| - 1])
  }

  lemma {:induction false} CurrentBuildSome(records: Catalog)
    ensures CurrentBuild(records).Some?
            ==> exists i :: 0 <= i < |records| && records[i].current && records[i].build == CurrentBuild(records).value
    ensures (exists i :: 0 <= i < |records| && records[i].current) ==> CurrentBuild(records).Some?
  {
    if records != [] && !records[|records| - 1].current {
      var front := records[..|records| - 1];
      CurrentBuildSome(front);
      if i :| 0 <= i < |records| && records[i].current {
        assert front[i].current;
      }
      if CurrentBuild(front).Some? {
        var i :| 0 <= i < |front| && front[i].current && front[i].build == CurrentBuild(front).value;
        assert records[i].current && records[i].build == CurrentBuild(records).value;
      }
    } else if records != [] {
      assert records[|records| - 1].current;
    }
  }

  lemma CurrentBuildExact(records: Catalog, build: int)
    requires OneCurrent(records)
    ensures CurrentBuild(records) == Some(build) <==> exists i :: 0 <= i < |records| && records[i].current && records[i].build == build
  {
    CurrentBuildSome(records);
  }

  /** The same rows are current. */
  predicate SameCurrent(a: Catalog, b: Catalog) {
    && |a| <= |b|
    && (forall i :: 0 <= i < |a| ==> b[i].build == a[i].build && b[i].current == a[i].current)
    && (forall i :: |a| <= i < |b| ==> !b[i].current)
  }

  lemma SameCurrentBuild(a: Catalog, b: Catalog)
    requires SameCurrent(a, b) && OneCurrent(a) && OneCurrent(b)
    ensures CurrentBuild(a) == CurrentBuild(b)
  {
    if i :| 0 <= i < |a| && a[i].current {
      assert b[i].current;
      CurrentBuildExact(a, a[i].build);
      CurrentBuildExact(b, a[i].build);
    } else {
      CurrentBuildSome(a);
      CurrentBuildSome(b);
    }
  }

  /* ---------- reconciliation ---------- */

  lemma ReconcileEffect(records: Catalog, at: int)
    ensures Advanced(records, Reconciled(records, at)) && SameCurrent(records, Reconciled(records, at))
    ensures ValidCatalog(records) ==> !(exists i :: 0 <= i < |records| && Reconciled(records, at)[i].status == Building)
  {
    if ValidCatalog(records) {
      forall i | 0 <= i < |records| ensures Reconciled(records, at)[i].status != Building {
        assert ValidRecord(records[i]);
      }
    }
  }

  /** A reconciliation is accepted exactly when no stale attempt started after the clock. */
  lemma ReconcileAccepted(records: Catalog, at: int)
    requires ValidCatalog(records)
    ensures ValidCatalog(Reconciled(records, at))
            <==> forall i :: 0 <= i < |records| && records[i].status == Building ==> records[i].started <= at
  {
    var after := Reconciled(records, at);
    forall i | 0 <= i < |records|
      ensures ValidRecord(after[i]) <==> (records[i].status == Building ==> records[i].started <= at)
    {
      assert ValidRecord(records[i]);
    }
    if ValidCatalog(after) {
      forall i | 0 <= i < |records| && records[i].status == Building ensures records[i].started <= at {
        assert ValidRecord(after[i]);
      }
    }
  }

  /** Witness: an attempt that started at 10 cannot be finalized by a clock that reads 5. */
  lemma EarlyClockIsRefused(schema: int, feature: int)
    ensures var records := [BuildingRow(1, 10, schema, feature)];
            ValidCatalog(records) && Refusal(Reconciled(records, 5)) == Some(InvalidRow)
  {
    var records := [BuildingRow(1, 10, schema, feature)];
    assert Reconciled(records, 5)[0] == Fail(records[0], 5);
    assert !ValidRecord(Reconciled(records, 5)[0]);
  }

  lemma NothingToReconcile(records: Catalog, at: int)
    requires !Stale(records)
    ensures Reconciled(records, at) == records
  {
  }

  lemma ReconcileSound(records: Catalog, disk: Disk, validated: Disk, at: int)
    requires Sound(records, disk, validated) && ValidCatalog(Reconciled(records, at))
    ensures Sound(Reconciled(records, at), disk, validated)
  {
    hide ValidCatalog, CanonicalPaths;
    ReconcileEffect(records, at);
    IdsStayKnown(records, Reconciled(records, at), disk, validated);
    forall i | 0 <= i < |records| && Reconciled(records, at)[i].Selectable() ensures Reconciled(records, at)[i] == records[i] {
    }
  }

  /* ---------- registration ---------- */

  /** Only a build id that no row has ever had can be registered. */
  lemma RegisterAccepted(records: Catalog, build: int, started: int, schema: int, feature: int)
    requires ValidCatalog(records)
    ensures ValidCatalog(records + [BuildingRow(build, started, schema, feature)]) <==> !HasBuild(records, build)
  {
    var row := BuildingRow(build, started, schema, feature);
    var after := records + [row];
    if HasBuild(records, build) {
      var i :| 0 <= i < |records| && records[i].build == build;
      assert after[i].build == after[|records|].build;
    } else {
      forall i | 0 <= i < |after| ensures ValidRecord(after[i]) {
        if i < |records| {
          assert ValidRecord(records[i]);
        }
      }
    }
  }

  lemma RegisterSound(records: Catalog, disk: Disk, validated: Disk, build: int, started: int, schema: int, feature: int)
    requires Sound(records, disk, validated) && ValidCatalog(records + [BuildingRow(build, started, schema, feature)])
    ensures var after := records + [BuildingRow(build, started, schema, feature)];
            && Sound(after, disk, validated) && Advanced(records, after) && SameCurrent(records, after)
            && build !in disk && build !in validated && StillBuilding(after, build)
  {
    hide ValidCatalog, CanonicalPaths;
    RegisterAccepted(records, build, started, schema, feature) by { SoundValid(records, disk, validated); }
    var after := records + [BuildingRow(build, started, schema, feature)];
    assert after[|records|].build == build && after[|records|].status == Building;
    assert Advanced(records, after);
    IdsStayKnown(records, after, disk, validated);
  }

  lemma SoundValid(records: Catalog, disk: Disk, validated: Disk)
    requires Sound(records, disk, validated)
    ensures ValidCatalog(records) && OneCurrent(records) && UniqueBuilds(records)
  {
  }

  /* ---------- promotion ---------- */

  predicate CandidatePaths(c: Candidate) {
    c.data == DataPath(c.build) && c.manifest == ManifestPath(c.build) && c.plot == PlotPath(c.build)
  }

  lemma PromoteEffect(records: Catalog, c: Candidate)
    requires ValidCatalog(records) && StillBuilding(records, c.build)
    ensures var after := PromoteRows(records, c);
            && Advanced(records, after)
            && OneCurrent(after) && CurrentBuild(after) == Some(c.build)
  {
    var after := PromoteRows(records, c);
    var k :| 0 <= k < |records| && records[k].build == c.build && records[k].status == Building;
    forall i | 0 <= i < |records| && i != k ensures after[i].build != c.build && !after[i].current {
      if i < k { assert records[i].build != records[k].build; } else { assert records[k].build != records[i].build; }
    }
    assert after[k].current && after[k].build == c.build;
    CurrentBuildExact(after, c.build);
  }

  /** A promotion is accepted exactly when the attempt's times and the candidate's range are in order. */
  lemma PromoteAccepted(records: Catalog, c: Candidate, started: int)
    requires ValidCatalog(records) && CandidatePaths(c)
    requires exists i :: 0 <= i < |records| && records[i].build == c.build && records[i].status == Building && records[i].started == started
    ensures ValidCatalog(PromoteRows(records, c))
            <==> started <= c.completed && (c.minTime.Some? && c.maxTime.Some? ==> c.minTime.value <= c.maxTime.value)
  {
    var k :| 0 <= k < |records| && records[k].build == c.build && records[k].status == Building && records[k].started == started;
    var after := PromoteRows(records, c);
    PromoteEffect(records, c);
    CompletedRow(records[k], c);
    assert after[k] == PromoteRow(records[k], c);
    hide CandidatePaths, ValidRecord, PromoteRow, PromoteRows;
    forall i | 0 <= i < |records| && i != k ensures ValidRecord(after[i]) {
      assert records[i].build != records[k].build by {
        if i < k { assert records[i].build != records[k].build; } else { assert records[k].build != records[i].build; }
      }
      SupersededRow(records[i], c);
    }
    if ValidRecord(after[k]) {
      forall i, j | 0 <= i < j < |after| ensures after[i].build != after[j].build {
        PromoteKeepsId(records[i], c);
        PromoteKeepsId(records[j], c);
        assert records[i].build != records[j].build;
      }
    }
  }

  lemma CompletedRow(r: Record, c: Candidate)
    requires ValidRecord(r) && r.build == c.build && CandidatePaths(c)
    ensures ValidRecord(PromoteRow(r, c))
            <==> r.started <= c.completed && (c.minTime.Some? && c.maxTime.Some? ==> c.minTime.value <= c.maxTime.value)
  {
    NamedPaths(c);
  }

  lemma SupersededRow(r: Record, c: Candidate)
    requires ValidRecord(r) && r.build != c.build
    ensures ValidRecord(PromoteRow(r, c))
  {
  }

  lemma PromoteKeepsId(r: Record, c: Candidate)
    ensures PromoteRow(r, c).build == r.build
  {
  }

  lemma NamedPaths(c: Candidate)
    requires CandidatePaths(c)
    ensures c.data != "" && c.manifest != "" && c.plot != ""
  {
    var root := BuildRoot(c.build);
    assert c.data == root + "/data.parquet" && c.manifest == root + "/manifest.json" && c.plot == root + "/feature_profile.png";
  }

  lemma PromoteSound(records: Catalog, disk: Disk, validated: Disk, c: Candidate)
    requires Sound(records, disk, validated) && ValidCatalog(PromoteRows(records, c)) && StillBuilding(records, c.build)
    requires c.build in disk && disk[c.build].Whole() && At(validated, c.build) == Some(disk[c.build]) && CandidatePaths(c)
    ensures Sound(PromoteRows(records, c), disk, validated)
  {
    hide ValidCatalog, DataPath, ManifestPath, PlotPath;
    var after := PromoteRows(records, c);
    PromoteEffect(records, c) by { SoundValid(records, disk, validated); }
    IdsStayKnown(records, after, disk, validated);
    forall i | 0 <= i < |after| && after[i].Selectable()
      ensures CanonicalPaths(after[i]) && after[i].build in disk && disk[after[i].build].Whole()
      ensures At(validated, after[i].build) == Some(disk[after[i].build])
    {
      if records[i].build != c.build {
        assert records[i].Selectable();
      }
    }
  }

  /* ---------- failure and retention ---------- */

  lemma FailEffect(records: Catalog, build: int, at: int)
    requires ValidCatalog(records) && StillBuilding(records, build)
    ensures Advanced(records, FailAttempt(records, build, at)) && SameCurrent(records, FailAttempt(records, build, at))
    ensures !StillBuilding(FailAttempt(records, build, at), build)
  {
    var after := FailAttempt(records, build, at);
    var k :| 0 <= k < |records| && records[k].build == build && records[k].status == Building;
    assert ValidRecord(records[k]);
    forall i | 0 <= i < |records| && i != k ensures records[i].build != build {
      if i < k { assert records[i].build != records[k].build; } else { assert records[k].build != records[i].build; }
    }
  }

  /** A failed attempt is recorded exactly when its clock reads no earlier than its start. */
  lemma FailAccepted(records: Catalog, build: int, at: int)
    requires ValidCatalog(records) && StillBuilding(records, build)
    ensures ValidCatalog(FailAttempt(records, build, at))
            <==> forall i :: 0 <= i < |records| && records[i].build == build ==> records[i].started <= at
  {
    var after := FailAttempt(records, build, at);
    FailEffect(records, build, at);
    forall i | 0 <= i < |records|
      ensures ValidRecord(after[i]) <==> (records[i].build == build ==> records[i].started <= at)
    {
      assert ValidRecord(records[i]);
      var k :| 0 <= k < |records| && records[k].build == build && records[k].status == Building;
      if i < k { assert records[i].build != records[k].build; }
      if k < i { assert records[k].build != records[i].build; }
    }
  }

  lemma FailSound(records: Catalog, disk: Disk, validated: Disk, build: int, at: int)
    requires Sound(records, disk, validated) && StillBuilding(records, build)
    requires ValidCatalog(FailAttempt(records, build, at))
    ensures Sound(FailAttempt(records, build, at), disk, validated)
  {
    hide ValidCatalog, CanonicalPaths;
    FailEffect(records, build, at) by { SoundValid(records, disk, validated); }
    IdsStayKnown(records, FailAttempt(records, build, at), disk, validated);
    forall i | 0 <= i < |records| && FailAttempt(records, build, at)[i].Selectable()
      ensures FailAttempt(records, build, at)[i] == records[i]
    {
    }
  }

  lemma MarkSound(records: Catalog, disk: Disk, validated: Disk, ids: seq<int>, at: int)
    requires Sound(records, disk, validated) && ValidCatalog(MarkAll(records, ids, at))
    requires forall i :: 0 <= i < |records| && records[i].build in ids ==> CanMark(records[i])
    ensures Sound(MarkAll(records, ids, at), disk, validated)
    ensures Advanced(records, MarkAll(records, ids, at)) && SameCurrent(records, MarkAll(records, ids, at))
  {
    hide ValidCatalog, CanonicalPaths;
    var after := MarkAll(records, ids, at);
    assert Advanced(records, after);
    IdsStayKnown(records, after, disk, validated);
    forall i | 0 <= i < |records| && after[i].Selectable() ensures after[i] == records[i] {
    }
  }

  /** A tombstone: marked, without paths, swept on every run. */
  predicate Tombstone(r: Record) {
    r.status == Complete && !r.current && r.pruned.Some? && r.data.None? && r.manifest.None? && r.plot.None?
  }

  /** Deleting files of a tombstoned build never touches a selectable one. */
  lemma SweepSound(records: Catalog, disk: Disk, validated: Disk, build: int, after: Disk)
    requires Sound(records, disk, validated)
    requires exists i :: 0 <= i < |records| && records[i].build == build && Tombstone(records[i])
    requires (forall b :: b != build ==> At(after, b) == At(disk, b)) && (build in after ==> build in disk)
    ensures Sound(records, after, validated)
  {
    hide CanonicalPaths, ValidRecord;
    var k :| 0 <= k < |records| && records[k].build == build && Tombstone(records[k]);
    forall b | b in after ensures b in disk {
      assert At(after, b) == At(disk, b) || b == build;
    }
    forall i | 0 <= i < |records| && records[i].Selectable() ensures At(after, records[i].build) == At(disk, records[i].build) {
      if i < k { assert records[i].build != records[k].build; }
      if k < i { assert records[k].build != records[i].build; }
    }
  }

  /** A new bundle under an id that was never on disk or validated leaves every selectable build alone. */
  lemma CreateSound(records: Catalog, disk: Disk, validated: Disk, build: int, after: Disk, recorded: Disk)
    requires Sound(records, disk, validated) && HasBuild(records, build) && build !in disk
    requires (forall b :: b != build ==> At(after, b) == At(disk, b))
    requires (forall b :: b != build ==> At(recorded, b) == At(validated, b))
    ensures Sound(records, after, recorded)
  {
    hide CanonicalPaths, ValidRecord, HasBuild;
    forall b | b in after ensures HasBuild(records, b) {
      assert At(after, b) == At(disk, b) || b == build;
    }
    forall b | b in recorded ensures HasBuild(records, b) {
      assert At(recorded, b) == At(validated, b) || b == build;
    }
    forall i | 0 <= i < |records| && records[i].Selectable()
      ensures At(after, records[i].build) == At(disk, records[i].build) && At(recorded, records[i].build) == At(validated, records[i].build)
    {
      assert records[i].build in disk;
    }
  }
}
