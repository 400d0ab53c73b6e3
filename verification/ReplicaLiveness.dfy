/**
 Exactly when a well-formed Gold frame is accepted by a target that represents an earlier one.
 */
module ReplicaLiveness {
  import opened Common
  import opened RowDigest
  import opened SparseTables
  import opened DeltaPlan
  import opened RowWrites
  import opened Replica
  import opened ReplicaRuns

  /* ---------- the written tables ---------- */

  /** The rows and keys an earlier commit left, or nothing. */
  function WriterOf(code: Code, last: Option<Commit>): Code {
    if last.None? then code else last.value.code
  }

  function RowsLeft(code: Code, last: Option<Commit>): (rows: seq<GoldRow>)
    requires last.Some? ==> WellFormed(last.value.code, last.value.src)
    ensures Wide(WriterOf(code, last).reg, rows) && DistinctKeys(rows)
  {
    if last.None? then [] else Rows(last.value)
  }

  lemma Left(target: Target, code: Code, last: Option<Commit>)
    requires Represents(target, code, last)
    ensures ValidRegistry(code.reg) && ValidRegistry(WriterOf(code, last).reg) && Older(WriterOf(code, last), code)
    ensures Holding(target.tables, code, WriterOf(code, last), RowsLeft(code, last))
    ensures target.hashes == SourceHashes(RawNames(WriterOf(code, last).reg), RowsLeft(code, last))
  {
    hide Showable, MetadataError, SourceError, Holds, Absent;
  }

  /** A key whose digest agrees already has its row in the tables. */
  lemma KeptIsHeld(target: Target, code: Code, last: Option<Commit>, rows: seq<GoldRow>, i: nat)
    requires Represents(target, code, last) && Wide(code.reg, rows) && i < |rows|
    requires At(target.hashes, rows[i].timestamp) == Some(RowSha256(RawNames(code.reg), rows[i]))
    ensures HoldsRow(target.tables, code.reg, rows[i])
  {
    hide WellFormed, RowSha256, SourceHashes, Rows, HoldsRow, Absent, CellsOf;
    var c := last.value;
    KeptIsSame(code, rows, i, c);
    var before := Rows(c);
    var j :| 0 <= j < |before| && before[j] == rows[i];
  }

  /** A key that neither index nor source mentions has no row in any table. */
  lemma UnmentionedIsAbsent(target: Target, code: Code, last: Option<Commit>, t: Timestamp)
    requires Represents(target, code, last) && t !in target.hashes
    ensures Absent(target.tables, code.reg, t)
  {
    hide WellFormed, RowSha256, SourceHashes, HoldsRow, Absent, Times;
    Left(target, code, last);
    SourceHashesKeys(RawNames(WriterOf(code, last).reg), RowsLeft(code, last));
  }

  lemma MutationsOnePerKey(names: seq<Name>, rows: seq<GoldRow>, index: Hashes)
    requires Sized(rows, |names|) && DistinctKeys(rows)
    ensures var p := PlanOf(names, rows, index);
            OneRowPerKey(p.inserts + p.updates) && forall r :: r in p.inserts + p.updates ==> r in rows
  {
    hide Select, Classify, SourceHashes;
    var p := PlanOf(names, rows, index);
    SelectExact(names, rows, index, Insert);
    SelectExact(names, rows, index, Update);
    var all := p.inserts + p.updates;
    forall r | r in all ensures r in rows {
      assert r in p.inserts || r in p.updates;
    }
    forall i, j | 0 <= i < j < |all| && all[i].timestamp == all[j].timestamp ensures all[i] == all[j] {
      assert all[i] in rows && all[j] in rows;
    }
  }

  /** The plan for these rows, and its rows that must be written. */
  function PlanFor(target: Target, code: Code, rows: seq<GoldRow>): Plan
    requires Wide(code.reg, rows)
  {
    PlanOf(RawNames(code.reg), rows, target.hashes)
  }

  function Mutations(target: Target, code: Code, rows: seq<GoldRow>): (muts: seq<GoldRow>)
    requires Wide(code.reg, rows)
    ensures Wide(code.reg, muts)
  {
    PlanWide(code.reg, rows, target.hashes);
    PlanFor(target, code, rows).inserts + PlanFor(target, code, rows).updates
  }

  /** The rows can be written: the tables are sound and no written row is refused. */
  predicate Applicable(target: Target, code: Code, rows: seq<GoldRow>) {
    && ValidRegistry(code.reg)
    && Wide(code.reg, rows)
    && DistinctKeys(rows)
    && WellStored(target.tables, code.reg)
    && Tabled(target.tables, code.reg)
    && ApplyRows(target.tables, code.reg, Mutations(target, code, rows)).Some?
  }

  /** The tables after the writes and the deletes. */
  function AppliedTables(target: Target, code: Code, rows: seq<GoldRow>): (after: Tables)
    requires Applicable(target, code, rows)
    ensures WellStored(after, code.reg) && Tabled(after, code.reg)
  {
    var muts := Mutations(target, code, rows);
    AppliedStored(target.tables, code.reg, muts, PlanFor(target, code, rows).deletes);
    ClearAll(ApplyRows(target.tables, code.reg, muts).value, code.reg, PlanFor(target, code, rows).deletes)
  }

  lemma RepresentsStored(target: Target, code: Code, last: Option<Commit>)
    requires Represents(target, code, last)
    ensures ValidRegistry(code.reg) && WellStored(target.tables, code.reg) && Tabled(target.tables, code.reg)
  {
    hide WellFormed, AnyValue, HoldsRow, Absent;
  }

  lemma PlanApplies(target: Target, code: Code, last: Option<Commit>, rows: seq<GoldRow>)
    requires Represents(target, code, last) && Wide(code.reg, rows) && DistinctKeys(rows)
    requires forall i :: 0 <= i < |rows| ==> LevelsMatch(code.reg, rows[i])
    ensures Applicable(target, code, rows)
  {
    hide PlanOf, LevelsMatch, Represents, WellStored, ApplyRows, PlanFor, Mutations, RawNames, Columns;
    RepresentsStored(target, code, last);
    var muts := Mutations(target, code, rows);
    forall i | 0 <= i < |muts| ensures LevelsMatch(code.reg, muts[i]) {
      MutationFromRows(target, code, rows, i);
      var k :| 0 <= k < |rows| && rows[k] == muts[i];
    }
    ApplyRowsRefuses(target.tables, code.reg, muts);
  }

  /** What the writes do to one key. */
  lemma AppliedAt(target: Target, code: Code, rows: seq<GoldRow>, t: Timestamp)
    requires Applicable(target, code, rows)
    ensures var p := PlanFor(target, code, rows);
            t in p.deletes ==> Absent(AppliedTables(target, code, rows), code.reg, t)
    ensures var p := PlanFor(target, code, rows);
            t !in p.deletes && t !in Times(Mutations(target, code, rows))
            ==> SameAt(AppliedTables(target, code, rows), target.tables, code.reg, t)
  {
    hide WellStored, PlanOf, Absent, SameAt;
    var muts := Mutations(target, code, rows);
    var written := ApplyRows(target.tables, code.reg, muts).value;
    ApplyRowsStored(target.tables, code.reg, muts);
    ClearAllEffect(written, code.reg, PlanFor(target, code, rows).deletes);
    if t !in PlanFor(target, code, rows).deletes && t !in Times(muts) {
      ApplyRowsElsewhere(target.tables, code.reg, muts, t);
      SameThrough(AppliedTables(target, code, rows), written, target.tables, code.reg, t);
    }
  }

  /** A written row that is not deleted afterwards is held. */
  lemma MutatedHolds(target: Target, code: Code, rows: seq<GoldRow>, k: nat)
    requires Applicable(target, code, rows) && k < |Mutations(target, code, rows)|
    requires Mutations(target, code, rows)[k].timestamp !in PlanFor(target, code, rows).deletes
    ensures HoldsRow(AppliedTables(target, code, rows), code.reg, Mutations(target, code, rows)[k])
  {
    hide WellStored, PlanOf, Absent, SameAt, CellsOf, Holds;
    var muts := Mutations(target, code, rows);
    var written := ApplyRows(target.tables, code.reg, muts).value;
    MutationsOnePerKey(RawNames(code.reg), rows, target.hashes);
    ApplyRowsStored(target.tables, code.reg, muts);
    ApplyRowsHold(target.tables, code.reg, muts, k);
    ClearAllEffect(written, code.reg, PlanFor(target, code, rows).deletes);
    HeldElsewhere(AppliedTables(target, code, rows), written, code.reg, muts[k]);
  }

  /** Which keys a plan writes and deletes. */
  lemma PlanKeys(target: Target, code: Code, rows: seq<GoldRow>)
    requires Wide(code.reg, rows) && DistinctKeys(rows)
    ensures var p, muts := PlanFor(target, code, rows), Mutations(target, code, rows);
            && p.deletes == target.hashes.Keys - Times(rows)
            && Times(muts) <= Times(rows)
            && (forall i :: 0 <= i < |rows| ==>
                  (rows[i].timestamp in Times(muts)
                   <==> At(target.hashes, rows[i].timestamp) != Some(RowSha256(RawNames(code.reg), rows[i]))))
  {
    hide PlanOf, RowSha256, SourceHashes;
    PlanSource(RawNames(code.reg), rows, target.hashes);
    PlanPartition(RawNames(code.reg), rows, target.hashes);
    PlanExact(RawNames(code.reg), rows, target.hashes);
    SourceHashesKeys(RawNames(code.reg), rows);
    assert Times(Mutations(target, code, rows)) <= Times(rows);
    forall i | 0 <= i < |rows|
      ensures rows[i].timestamp in Times(Mutations(target, code, rows))
              <==> At(target.hashes, rows[i].timestamp) != Some(RowSha256(RawNames(code.reg), rows[i]))
    {
      SourceHashesAt(RawNames(code.reg), rows, i);
    }
  }

  /** The writes leave the tables carrying exactly the source rows. */
  lemma AppliedPlanCarries(target: Target, code: Code, last: Option<Commit>, rows: seq<GoldRow>)
    requires Represents(target, code, last) && Applicable(target, code, rows)
    ensures Carry(AppliedTables(target, code, rows), code.reg, rows)
  {
    hide Represents, ApplyRows, Mutations, Columns, WellStored, AppliedTables, HoldsRow, Absent;
    forall i | 0 <= i < |rows| ensures HoldsRow(AppliedTables(target, code, rows), code.reg, rows[i]) {
      AppliedRowHolds(target, code, last, rows, i);
    }
    forall t | t !in Times(rows) ensures Absent(AppliedTables(target, code, rows), code.reg, t) {
      AppliedKeyAbsent(target, code, last, rows, t);
    }
  }

  lemma MutatedKey(rows: seq<GoldRow>, t: Timestamp) returns (k: nat)
    requires t in Times(rows)
    ensures k < |rows| && rows[k].timestamp == t
  {
    var r :| r in rows && r.timestamp == t;
    k :| 0 <= k < |rows| && rows[k] == r;
  }

  lemma AppliedRowHolds(target: Target, code: Code, last: Option<Commit>, rows: seq<GoldRow>, i: nat)
    requires Represents(target, code, last) && Applicable(target, code, rows) && i < |rows|
    ensures HoldsRow(AppliedTables(target, code, rows), code.reg, rows[i])
  {
    hide Represents, AppliedTables, HoldsRow, WellStored, PlanOf, SameAt, Absent, RowSha256, Mutations, PlanFor;
    var t, muts := rows[i].timestamp, Mutations(target, code, rows);
    PlanKeys(target, code, rows);
    if t in Times(muts) {
      var k := MutatedKey(muts, t);
      MutationFromRows(target, code, rows, k);
      RowOfKey(rows, i, muts[k]);
      MutatedHolds(target, code, rows, k);
    } else {
      KeptIsHeld(target, code, last, rows, i);
      AppliedAt(target, code, rows, t);
      HeldElsewhere(AppliedTables(target, code, rows), target.tables, code.reg, rows[i]);
    }
  }

  lemma MutationFromRows(target: Target, code: Code, rows: seq<GoldRow>, k: nat)
    requires Wide(code.reg, rows) && DistinctKeys(rows) && k < |Mutations(target, code, rows)|
    ensures Mutations(target, code, rows)[k] in rows
  {
    hide PlanOf;
    MutationsOnePerKey(RawNames(code.reg), rows, target.hashes);
  }

  lemma RowOfKey(rows: seq<GoldRow>, i: nat, r: GoldRow)
    requires DistinctKeys(rows) && i < |rows| && r in rows && r.timestamp == rows[i].timestamp
    ensures r == rows[i]
  {
  }

  lemma AppliedKeyAbsent(target: Target, code: Code, last: Option<Commit>, rows: seq<GoldRow>, t: Timestamp)
    requires Represents(target, code, last) && Applicable(target, code, rows) && t !in Times(rows)
    ensures Absent(AppliedTables(target, code, rows), code.reg, t)
  {
    hide Represents, AppliedTables, WellStored, PlanOf, RowSha256, Mutations, PlanFor;
    PlanKeys(target, code, rows);
    AppliedAt(target, code, rows, t);
    if t !in target.hashes {
      UnmentionedIsAbsent(target, code, last, t);
      AbsentThrough(AppliedTables(target, code, rows), target.tables, code.reg, t);
    }
  }

  lemma AbsentThrough(a: Tables, b: Tables, reg: Registry, t: Timestamp)
    requires Tabled(a, reg) && Tabled(b, reg) && SameAt(a, b, reg, t) && Absent(b, reg, t)
    ensures Absent(a, reg, t)
  {
    forall i | 0 <= i < |reg| ensures t !in a[reg[i].id] {
      assert At(a[reg[i].id], t) == At(b[reg[i].id], t) == None;
    }
  }

  /* ---------- the checks before and after ---------- */

  lemma {:induction false} TimesCount(rows: seq<GoldRow>)
    requires DistinctKeys(rows)
    ensures |Times(rows)| == |rows|
  {
    if rows != [] {
      var n := |rows| - 1;
      TimesCount(rows[..n]);
      TimesSplit(rows, n);
      if rows[n].timestamp in Times(rows[..n]) {
        var k := MutatedKey(rows[..n], rows[n].timestamp);
        assert false;
      }
    }
  }

  lemma RawTimesAreTimes(raw: seq<RawRow>)
    requires CanonicalRows(raw).Some?
    ensures RawTimes(raw) == Times(CanonicalRows(raw).value)
  {
    var rows := CanonicalRows(raw).value;
    forall i | 0 <= i < |rows| ensures rows[i].timestamp == raw[i].timestamp {
      CanonicalRowAt(raw, i);
    }
    forall t | t in RawTimes(raw) ensures t in Times(rows) {
      var i :| 0 <= i < |raw| && raw[i].timestamp == t;
      assert rows[i] in rows && rows[i].timestamp == t;
    }
    forall t | t in Times(rows) ensures t in RawTimes(raw) {
      var i :| 0 <= i < |rows| && rows[i].timestamp == t;
      assert raw[i] in raw && raw[i].timestamp == t;
    }
  }

  /** Matching metadata states the count and bounds of the canonical rows. */
  lemma MetadataSummarizes(c: Commit)
    requires WellFormed(c.code, c.src)
    ensures c.src.record.rowCount.Some? && Expected(c.src.record) == Summarize(Times(Rows(c)))
  {
    hide Showable, RawNames;
    TimesCount(Rows(c));
    RawTimesAreTimes(c.src.file.frame.rows);
  }

  /** The digest index has as many entries as the checkpoint says. */
  lemma IndexCount(target: Target, code: Code, c: Commit)
    requires Represents(target, code, Some(c))
    ensures |target.hashes| == target.state.value.checkpoint.summary.count
  {
    hide WellFormed, Rows, SourceHashes, Holding;
    SourceHashesKeys(NamesOf(c), Rows(c));
    MetadataSummarizes(c);
    assert |target.hashes.Keys| == |target.hashes|;
  }

  /** With an unchanged registry, the consumer rows agree with the digest index. */
  lemma ConsumerAgrees(target: Target, code: Code, last: Option<Commit>)
    requires Represents(target, code, last) && WriterOf(code, last).reg == code.reg
    ensures Tabled(target.tables, code.reg) && ConsumerHashes(target.tables, code.reg) == target.hashes
  {
    hide SourceHashes, ConsumerHashes, HoldsRow, Absent, Showable, MetadataError, SourceError;
    RepresentsStored(target, code, last);
    Left(target, code, last);
    CarryShows(target.tables, code.reg, RowsLeft(code, last));
  }

  /** With equal versions, "same data" means the same file. */
  lemma SameDataIsSameFile(target: Target, code: Code, c: Commit, src: Source, now: int)
    requires Represents(target, code, Some(c)) && WellFormed(code, src)
    requires c.code.schema == code.schema && c.code.feature == code.feature
    ensures SameData(target.state.value, SyncState(CheckpointOf(src), now)) <==> src.file == c.src.file
    ensures src.file == c.src.file ==> Rows(Commit(code, src)) == Rows(c)
  {
    hide Holding, Showable, SourceHashes, RawNames;
  }

  predicate SameRows(a: seq<GoldRow>, b: seq<GoldRow>) {
    (forall r :: r in a ==> r in b) && (forall r :: r in b ==> r in a)
  }

  /** Under one column list, equal digest maps mean the same rows. */
  lemma HashesDetermineRows(names: seq<Name>, a: seq<GoldRow>, b: seq<GoldRow>)
    requires Sized(a, |names|) && Sized(b, |names|) && DistinctKeys(a) && DistinctKeys(b)
    ensures SourceHashes(names, a) == SourceHashes(names, b) <==> SameRows(a, b)
  {
    hide SourceHashes, RowSha256;
    if SourceHashes(names, a) == SourceHashes(names, b) {
      forall r | r in a ensures r in b { HashedRow(names, a, b, r); }
      forall r | r in b ensures r in a { HashedRow(names, b, a, r); }
    }
    if SameRows(a, b) {
      SourceHashesKeys(names, a);
      SourceHashesKeys(names, b);
      forall t ensures At(SourceHashes(names, a), t) == At(SourceHashes(names, b), t) {
        if t in Times(a) {
          var i := MutatedKey(a, t);
          var j :| 0 <= j < |b| && b[j] == a[i];
          SourceHashesAt(names, a, i);
          SourceHashesAt(names, b, j);
        }
      }
      SameEntries(SourceHashes(names, a), SourceHashes(names, b));
    }
  }

  lemma HashedRow(names: seq<Name>, a: seq<GoldRow>, b: seq<GoldRow>, r: GoldRow)
    requires Sized(a, |names|) && Sized(b, |names|) && DistinctKeys(a) && DistinctKeys(b)
    requires SourceHashes(names, a) == SourceHashes(names, b) && r in a
    ensures r in b
  {
    hide SourceHashes, RowSha256;
    SourceHashesKeys(names, a);
    SourceHashesKeys(names, b);
    var i :| 0 <= i < |a| && a[i] == r;
    SourceHashesAt(names, a, i);
    assert r.timestamp in Times(b);
    var j := MutatedKey(b, r.timestamp);
    SourceHashesAt(names, b, j);
    DigestDeterminesRow(names, r, names, b[j]);
  }

  /* ---------- acceptance ---------- */

  /** The desired state for a well-formed source. */
  function Desired(src: Source, now: int): SyncState
    requires src.record.rowCount.Some?
  {
    SyncState(CheckpointOf(src), now)
  }

  /** The data file differs although its canonical rows are the ones already committed. */
  predicate OnlyBytesDiffer(code: Code, src: Source, c: Commit)
    requires WellFormed(code, src) && WellFormed(c.code, c.src)
  {
    src.file != c.src.file && SameRows(Rows(Commit(code, src)), Rows(c))
  }

  predicate VersionsReachable(c: Commit) {
    c.code.feature == FEATURE_VERSION && 7 <= c.code.schema <= SCHEMA_VERSION
  }

  lemma PlannedIs(names: seq<Name>, f: Frame, index: Hashes, hasState: bool)
    requires SourceRows(names, f).Ok? && (hasState || index == map[])
    ensures Planned(names, f, index, hasState) == Ok(PlanOf(names, SourceRows(names, f).value, index))
  {
  }

  /** The plan of a well-formed source: no refusal, its digests, and empty exactly when the index has them. */
  lemma PlanFacts(code: Code, src: Source, index: Hashes, hasState: bool)
    requires WellFormed(code, src) && (hasState || index == map[])
    ensures MetadataError(code, src).None?
    ensures SourceRows(RawNames(code.reg), src.file.frame).Ok?
    ensures var plan := Planned(RawNames(code.reg), src.file.frame, index, hasState);
            && plan.Ok?
            && plan.value.source == SourceHashes(RawNames(code.reg), Rows(Commit(code, src)))
            && (plan.value.Empty() <==> plan.value.source == index)
  {
    hide Rows, SourceHashes, PlanOf, RawNames, MetadataError, WellFormed, Plan.Empty, SourceRows, Planned, Columns;
    WellFormedRows(code, src);
    PlannedIs(RawNames(code.reg), src.file.frame, index, hasState);
    EmptyPlanIff(RawNames(code.reg), Rows(Commit(code, src)), index);
    PlanSource(RawNames(code.reg), Rows(Commit(code, src)), index);
  }

  /** The locked planning, once the stored target is known to be consistent. */
  lemma PlanGiven(code: Code, target: Target, src: Source, now: int)
    requires WellFormed(code, src) && Tabled(target.tables, code.reg) && src.record.rowCount.Some?
    requires var prior, desired := target.state, Desired(src, now);
             && (prior.None? ==> target.hashes == map[] && ConsumerHashes(target.tables, code.reg) == map[])
             && (prior.Some? ==> |target.hashes| == prior.value.checkpoint.summary.count)
             && (StateCompatible(prior, code.schema, code.feature, code)
                 && !SchemaUpgrade(prior, code.schema, code.feature, code)
                 ==> target.hashes == ConsumerHashes(target.tables, code.reg))
             && (prior.Some? && SameData(prior.value, desired)
                 ==> SourceHashes(RawNames(code.reg), Rows(Commit(code, src))) == target.hashes)
    ensures var prior, desired := target.state, Desired(src, now);
            var r := PlanLocked(code, target, src, desired);
            if !StateCompatible(prior, code.schema, code.feature, code) then r == Err(SemanticVersions)
            else if prior.Some? && SourceHashes(RawNames(code.reg), Rows(Commit(code, src))) == target.hashes
                    && !SameData(prior.value, desired) && !SchemaUpgrade(prior, code.schema, code.feature, code)
            then r == Err(StateMismatch)
            else r.Ok?
  {
    hide Rows, SourceHashes, PlanOf, ConsumerHashes, RawNames, MetadataError, WellFormed, SameData, Plan.Empty;
    hide StateCompatible, SchemaUpgrade, CheckpointOf, SourceRows, Planned, Columns;
    var prior, desired := target.state, Desired(src, now);
    WellFormedRows(code, src);
    assert desired.checkpoint.schema == code.schema && desired.checkpoint.feature == code.feature;
    if StateCompatible(prior, code.schema, code.feature, code) {
      PlanFacts(code, src, target.hashes, prior.Some?);
      var plan := Planned(RawNames(code.reg), src.file.frame, target.hashes, prior.Some?).value;
      if prior.Some? && plan.source == target.hashes {
        assert plan.Empty();
      } else {
        assert prior.Some? ==> !plan.Empty();
      }
    }
  }

  /** What the locked planning answers for a well-formed source. */
  lemma PlanOutcome(code: Code, target: Target, last: Option<Commit>, src: Source, now: int)
    requires Represents(target, code, last) && WellFormed(code, src)
    requires code.schema == SCHEMA_VERSION && code.feature == FEATURE_VERSION
    ensures src.record.rowCount.Some? && Tabled(target.tables, code.reg)
    ensures var r := PlanLocked(code, target, src, Desired(src, now));
            if last.Some? && !VersionsReachable(last.value) then r == Err(SemanticVersions)
            else if last.Some? && last.value.code.schema == SCHEMA_VERSION && OnlyBytesDiffer(code, src, last.value)
            then r == Err(StateMismatch)
            else r.Ok?
  {
    hide Holding, Rows, SourceHashes, PlanLocked, ConsumerHashes, SameRows, RawNames, MetadataError, Showable, SameData;
    RepresentsStored(target, code, last);
    WellFormedRows(code, src);
    if last.None? {
      ConsumerAgrees(target, code, last);
      PlanGiven(code, target, src, now);
    } else {
      PlanOutcomeAfter(code, target, last.value, src, now);
    }
  }

  lemma PlanOutcomeAfter(code: Code, target: Target, c: Commit, src: Source, now: int)
    requires Represents(target, code, Some(c)) && WellFormed(code, src) && src.record.rowCount.Some?
    requires code.schema == SCHEMA_VERSION && code.feature == FEATURE_VERSION && Tabled(target.tables, code.reg)
    ensures var r := PlanLocked(code, target, src, Desired(src, now));
            if !VersionsReachable(c) then r == Err(SemanticVersions)
            else if c.code.schema == SCHEMA_VERSION && OnlyBytesDiffer(code, src, c) then r == Err(StateMismatch)
            else r.Ok?
  {
    hide WellFormed, Holding, Rows, SourceHashes, PlanLocked, ConsumerHashes, SameRows, RawNames, SameData;
    hide StateCompatible, SchemaUpgrade, CheckpointOf;
    CommitVersions(target, code, c);
    CompatibleAtCurrentVersions(target.state.value, code);
    IndexCount(target, code, c);
    if c.code.schema == code.schema && c.code.feature == code.feature {
      ConsumerAgrees(target, code, Some(c));
      SameDataIsSameFile(target, code, c, src, now);
      WellFormedRows(code, src);
      HashesDetermineRows(RawNames(code.reg), Rows(Commit(code, src)), Rows(c));
    } else {
      DifferentVersionsDiffer(target.state.value, Desired(src, now));
      CommitVersions2(code, src, now);
    }
    PlanGiven(code, target, src, now);
  }

  lemma WellFormedRows(code: Code, src: Source)
    requires WellFormed(code, src)
    ensures src.record.rowCount.Some? && MetadataError(code, src).None?
    ensures SourceRows(RawNames(code.reg), src.file.frame) == Ok(Rows(Commit(code, src)))
    ensures CheckpointOf(src).schema == code.schema && CheckpointOf(src).feature == code.feature
  {
  }

  lemma CommitVersions(target: Target, code: Code, c: Commit)
    requires Represents(target, code, Some(c))
    ensures target.state.value.checkpoint.schema == c.code.schema
    ensures target.state.value.checkpoint.feature == c.code.feature
  {
    hide Holding, Showable;
  }

  lemma CommitVersions2(code: Code, src: Source, now: int)
    requires WellFormed(code, src)
    ensures Desired(src, now).checkpoint.schema == code.schema && Desired(src, now).checkpoint.feature == code.feature
  {
    hide Showable;
  }

  lemma DifferentVersionsDiffer(prior: SyncState, desired: SyncState)
    ensures prior.checkpoint.schema != desired.checkpoint.schema || prior.checkpoint.feature != desired.checkpoint.feature
            ==> !SameData(prior, desired)
  {
  }

  /** The writes and post-write checks of an accepted plan always succeed. */
  lemma DeltaSucceeds(code: Code, target: Target, last: Option<Commit>, src: Source, now: int)
    requires Represents(target, code, last) && WellFormed(code, src)
    ensures var rows := Rows(Commit(code, src));
            && Applicable(target, code, rows) && src.record.rowCount.Some?
            && ApplyDelta(code, target, PlanFor(target, code, rows), Desired(src, now))
               == Ok(Target(AppliedTables(target, code, rows), SourceHashes(RawNames(code.reg), rows), Some(Desired(src, now))))
  {
    hide Represents, Rows, SourceHashes, PlanOf, ConsumerHashes, RawNames, MetadataError, Carry, Rebuild, Summarize;
    hide Columns, LevelsMatch, AnyValue, ClearAll, AppliedIndex, WellStored;
    var c := Commit(code, src);
    var rows := Rows(c);
    WellFormedRows(code, src);
    PlanApplies(target, code, last, rows);
    AppliedPlanCarries(target, code, last, rows);
    CarryShows(AppliedTables(target, code, rows), code.reg, rows);
    PlanExact(RawNames(code.reg), rows, target.hashes);
    PlanSource(RawNames(code.reg), rows, target.hashes);
    SourceHashesKeys(RawNames(code.reg), rows);
    MetadataSummarizes(c);
  }

  /**
   A well-formed frame is accepted unless the stored versions are out of reach, or the stored
   checkpoint has the current versions and the new file has the same canonical rows in
   different bytes.
   */
  lemma AcceptedExactly(code: Code, target: Target, last: Option<Commit>, src: Source, now: int)
    requires Represents(target, code, last) && WellFormed(code, src)
    requires code.schema == SCHEMA_VERSION && code.feature == FEATURE_VERSION
    ensures Tabled(target.tables, code.reg)
    ensures Sync(code, target, src, now).Err?
            <==> last.Some? && (!VersionsReachable(last.value)
                                || (last.value.code.schema == SCHEMA_VERSION && OnlyBytesDiffer(code, src, last.value)))
  {
    hide Represents, Rows, SourceHashes, PlanLocked, ApplyDelta, RawNames, MetadataError, PlanFor, AppliedTables;
    hide SameRows, Showable, Applicable;
    PlanOutcome(code, target, last, src, now);
    DeltaSucceeds(code, target, last, src, now);
    WellFormedRows(code, src);
    LockedPlan(code, target, src, now);
  }

  lemma LockedPlan(code: Code, target: Target, src: Source, now: int)
    requires WellFormed(code, src) && Tabled(target.tables, code.reg) && src.record.rowCount.Some?
    ensures Wide(code.reg, Rows(Commit(code, src)))
    ensures PlanLocked(code, target, src, Desired(src, now)).Ok? ==>
              PlanLocked(code, target, src, Desired(src, now)).value == PlanFor(target, code, Rows(Commit(code, src)))
  {
    hide PlanOf, ConsumerHashes, Showable, MetadataError;
  }
}
