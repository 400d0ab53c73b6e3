/**
 The complete-state comparison behind one synchronisation: source rows against the stored
 digest index, never a time watermark.
 */
module DeltaPlan {
  import opened Common
  import opened RowDigest

  /** A row as the data file holds it: doubles are not canonical yet. */
  datatype RawRow = RawRow(timestamp: Timestamp, values: seq<Option<Double>>)

  datatype RawFrame = RawFrame(columns: seq<Name>, rows: seq<RawRow>) {
    predicate Rectangular() { forall r :: r in rows ==> |r.values| == |columns| }
  }

  /** Every row of a data frame has one value per feature column. */
  type Frame = f: RawFrame | f.Rectangular() witness RawFrame([], [])

  type Hashes = map<Timestamp, Digest>

  datatype DeltaError = WrongColumns | DuplicateTimestamp | NotFinite | DigestsWithoutState

  /* ---------- source rows ---------- */

  function CanonicalValues(values: seq<Option<Double>>): (r: Option<seq<Option<Number>>>)
    ensures r.Some? ==> |r.value| == |values|
  {
    if values == [] then Some([])
    else
      var before := CanonicalValues(values[..|values| - 1]);
      var last := values[|values| - 1];
      if before.None? then None
      else if last.None? then Some(before.value + [None])
      else match CanonicalFloat(last.value)
        case None => None
        case Some(d) => Some(before.value + [Some(d)])
  }

  predicate Sized(rows: seq<GoldRow>, width: nat) {
    forall r :: r in rows ==> |r.values| == width
  }

  function CanonicalRows(rows: seq<RawRow>): (r: Option<seq<GoldRow>>)
    ensures r.Some? ==> |r.value| == |rows|
  {
    if rows == [] then Some([])
    else
      var before := CanonicalRows(rows[..|rows| - 1]);
      var last := CanonicalValues(rows[|rows| - 1].values);
      if before.None? || last.None? then None
      else Some(before.value + [GoldRow(rows[|rows| - 1].timestamp, last.value)])
  }

  predicate DistinctTimes(rows: seq<RawRow>) {
    forall i, j :: 0 <= i < j < |rows| ==> rows[i].timestamp != rows[j].timestamp
  }

  predicate DistinctKeys(rows: seq<GoldRow>) {
    forall i, j :: 0 <= i < j < |rows| ==> rows[i].timestamp != rows[j].timestamp
  }

  /** Each canonical row keeps its timestamp and has its canonical values. */
  lemma {:induction false} CanonicalRowAt(rows: seq<RawRow>, i: nat)
    requires CanonicalRows(rows).Some? && i < |rows|
    ensures CanonicalRows(rows).value[i].timestamp == rows[i].timestamp
    ensures CanonicalValues(rows[i].values) == Some(CanonicalRows(rows).value[i].values)
  {
    if i < |rows| - 1 {
      CanonicalRowAt(rows[..|rows| - 1], i);
    }
  }

  lemma CanonicalShape(f: Frame)
    requires CanonicalRows(f.rows).Some?
    ensures Sized(CanonicalRows(f.rows).value, |f.columns|)
    ensures DistinctTimes(f.rows) ==> DistinctKeys(CanonicalRows(f.rows).value)
  {
    var rows := CanonicalRows(f.rows).value;
    forall i | 0 <= i < |rows|
      ensures rows[i].timestamp == f.rows[i].timestamp && |rows[i].values| == |f.columns|
    {
      CanonicalRowAt(f.rows, i);
      assert f.rows[i] in f.rows;
    }
  }

  function SourceHashes(names: seq<Name>, rows: seq<GoldRow>): Hashes
    requires Sized(rows, |names|)
  {
    if rows == [] then map[]
    else
      var last := rows[|rows| - 1];
      SourceHashes(names, rows[..|rows| - 1])[last.timestamp := RowSha256(names, last)]
  }

  lemma {:induction false} SourceHashesKeys(names: seq<Name>, rows: seq<GoldRow>)
    requires Sized(rows, |names|)
    ensures SourceHashes(names, rows).Keys == Times(rows)
  {
    hide RowSha256;
    if rows != [] {
      var n := |rows| - 1;
      SourceHashesKeys(names, rows[..n]);
      TimesSplit(rows, n);
    }
  }

  lemma {:induction false} SourceHashesAt(names: seq<Name>, rows: seq<GoldRow>, i: nat)
    requires Sized(rows, |names|) && DistinctKeys(rows) && i < |rows|
    ensures At(SourceHashes(names, rows), rows[i].timestamp) == Some(RowSha256(names, rows[i]))
  {
    hide RowSha256;
    if i < |rows| - 1 {
      SourceHashesAt(names, rows[..|rows| - 1], i);
    }
  }

  function Times(rows: seq<GoldRow>): set<Timestamp> {
    set r | r in rows :: r.timestamp
  }

  lemma TimesSplit(rows: seq<GoldRow>, n: nat)
    requires n < |rows|
    ensures Times(rows[..n + 1]) == Times(rows[..n]) + {rows[n].timestamp}
    ensures n == |rows| - 1 ==> Times(rows) == Times(rows[..n]) + {rows[n].timestamp}
  {
    assert rows[..n + 1] == rows[..n] + [rows[n]];
    if n == |rows| - 1 {
      assert rows[..n + 1] == rows;
    }
  }

  /** The rows that would be digested, or why the frame is refused. */
  function SourceRows(names: seq<Name>, f: Frame): (r: Result<seq<GoldRow>, DeltaError>)
    ensures r.Ok? ==> Sized(r.value, |names|) && DistinctKeys(r.value)
  {
    if f.columns != names then Err(WrongColumns)
    else if !DistinctTimes(f.rows) then Err(DuplicateTimestamp)
    else if CanonicalRows(f.rows).None? then Err(NotFinite)
    else
      CanonicalShape(f);
      Ok(CanonicalRows(f.rows).value)
  }

  /** The row conversion loop with its digests. */
  method SourceRowsAndDigests(names: seq<Name>, f: Frame) returns (r: Result<(seq<GoldRow>, Hashes), DeltaError>)
    ensures r.Err? ==> SourceRows(names, f) == Err(r.error)
    ensures r.Ok? ==> SourceRows(names, f) == Ok(r.value.0) && r.value.1 == SourceHashes(names, r.value.0)
  {
    if f.columns != names { return Err(WrongColumns); }
    if !DistinctTimes(f.rows) { return Err(DuplicateTimestamp); }
    var converted := Convert(names, f.rows);
    match converted
    case None => r := Err(NotFinite);
    case Some(both) => r := Ok(both);
  }

  method Convert(names: seq<Name>, raw: seq<RawRow>) returns (r: Option<(seq<GoldRow>, Hashes)>)
    requires forall i :: 0 <= i < |raw| ==> |raw[i].values| == |names|
    ensures r.None? ==> CanonicalRows(raw).None?
    ensures r.Some? ==>
              && CanonicalRows(raw) == Some(r.value.0)
              && Sized(r.value.0, |names|)
              && r.value.1 == SourceHashes(names, r.value.0)
  {
    hide RowSha256, CanonicalValues, CanonicalRows, SourceHashes;
    var rows: seq<GoldRow> := [];
    var hashes: Hashes := map[];
    NothingConverted(names, raw);
    for i := 0 to |raw|
      invariant CanonicalRows(raw[..i]) == Some(rows)
      invariant Sized(rows, |names|)
      invariant hashes == SourceHashes(names, rows)
    {
      OneMoreConverted(raw, i);
      var values := CanonicalValues(raw[i].values);
      if values.None? {
        RefusedPrefix(raw, i + 1);
        return None;
      }
      var row := GoldRow(raw[i].timestamp, values.value);
      var digest := GoldRowSha256(names, row);
      OneMoreHashed(names, rows, row);
      rows := rows + [row];
      hashes := hashes[row.timestamp := digest];
    }
    assert raw[..|raw|] == raw;
    r := Some((rows, hashes));
  }

  lemma NothingConverted(names: seq<Name>, raw: seq<RawRow>)
    ensures CanonicalRows(raw[..0]) == Some([]) && SourceHashes(names, []) == map[]
  {
  }

  /** The next row extends the converted prefix, or refuses it. */
  lemma OneMoreConverted(raw: seq<RawRow>, i: nat)
    requires i < |raw| && CanonicalRows(raw[..i]).Some?
    ensures CanonicalRows(raw[..i + 1])
            == match CanonicalValues(raw[i].values)
               case None => None
               case Some(values) => Some(CanonicalRows(raw[..i]).value + [GoldRow(raw[i].timestamp, values)])
  {
    hide CanonicalValues;
    assert raw[..i + 1][..i] == raw[..i];
  }

  lemma OneMoreHashed(names: seq<Name>, rows: seq<GoldRow>, row: GoldRow)
    requires Sized(rows, |names|) && |row.values| == |names|
    ensures SourceHashes(names, rows + [row]) == SourceHashes(names, rows)[row.timestamp := RowSha256(names, row)]
  {
    hide RowSha256;
    assert (rows + [row])[..|rows|] == rows;
  }

  lemma {:induction false} RefusedPrefix(rows: seq<RawRow>, i: nat)
    requires i <= |rows| && CanonicalRows(rows[..i]).None?
    ensures CanonicalRows(rows).None?
  {
    if i < |rows| {
      assert rows[..|rows| - 1][..i] == rows[..i];
      RefusedPrefix(rows[..|rows| - 1], i);
    } else {
      assert rows[..i] == rows;
    }
  }

  /* ---------- the plan ---------- */

  datatype Kind = Insert | Update | Keep

  function Classify(names: seq<Name>, row: GoldRow, target: Hashes): Kind
    requires |row.values| == |names|
  {
    if row.timestamp !in target then Insert
    else if target[row.timestamp] != RowSha256(names, row) then Update
    else Keep
  }

  function Select(names: seq<Name>, rows: seq<GoldRow>, target: Hashes, kind: Kind): (picked: seq<GoldRow>)
    requires Sized(rows, |names|)
  {
    if rows == [] then []
    else
      var last := rows[|rows| - 1];
      Select(names, rows[..|rows| - 1], target, kind) + (if Classify(names, last, target) == kind then [last] else [])
  }

  lemma {:induction false} SelectExact(names: seq<Name>, rows: seq<GoldRow>, target: Hashes, kind: Kind)
    requires Sized(rows, |names|)
    ensures forall r :: r in Select(names, rows, target, kind) <==> r in rows && Classify(names, r, target) == kind
  {
    hide Classify;
    if rows != [] {
      var n := |rows| - 1;
      SelectExact(names, rows[..n], target, kind);
      assert rows == rows[..n] + [rows[n]];
    }
  }

  lemma SelectNext(names: seq<Name>, rows: seq<GoldRow>, target: Hashes, i: nat)
    requires Sized(rows, |names|) && i < |rows|
    ensures forall kind :: Select(names, rows[..i + 1], target, kind)
                        == Select(names, rows[..i], target, kind)
                           + (if Classify(names, rows[i], target) == kind then [rows[i]] else [])
  {
    hide Classify;
    assert rows[..i + 1][..i] == rows[..i] && rows[..i + 1][i] == rows[i];
  }

  datatype Plan = Plan(inserts: seq<GoldRow>, updates: seq<GoldRow>, deletes: set<Timestamp>,
                       kept: set<Timestamp>, source: Hashes) {
    predicate Empty() { inserts == [] && updates == [] && deletes == {} }
  }

  function PlanOf(names: seq<Name>, rows: seq<GoldRow>, target: Hashes): Plan
    requires Sized(rows, |names|)
  {
    Plan(Select(names, rows, target, Insert), Select(names, rows, target, Update),
         target.Keys - SourceHashes(names, rows).Keys, Times(Select(names, rows, target, Keep)),
         SourceHashes(names, rows))
  }

  function Planned(names: seq<Name>, f: Frame, target: Hashes, hasState: bool): Result<Plan, DeltaError> {
    var rows := SourceRows(names, f);
    if rows.Err? then Err(rows.error)
    else if !hasState && target != map[] then Err(DigestsWithoutState)
    else Ok(PlanOf(names, rows.value, target))
  }

  /** The planning loop: one pass over the source rows, then the set difference. */
  method PlanGoldDelta(names: seq<Name>, f: Frame, target: Hashes, hasState: bool)
    returns (r: Result<Plan, DeltaError>)
    ensures r == Planned(names, f, target, hasState)
  {
    var source := SourceRowsAndDigests(names, f);
    if source.Err? { return Err(source.error); }
    var (rows, hashes) := source.value;
    if !hasState && target != map[] { return Err(DigestsWithoutState); }
    var plan := Compare(names, rows, hashes, target);
    r := Ok(plan);
  }

  method Compare(names: seq<Name>, rows: seq<GoldRow>, hashes: Hashes, target: Hashes) returns (plan: Plan)
    requires Sized(rows, |names|) && DistinctKeys(rows) && hashes == SourceHashes(names, rows)
    ensures plan == PlanOf(names, rows, target)
  {
    hide RowSha256, SourceHashes;
    var inserts: seq<GoldRow>, updates: seq<GoldRow>, kept: set<Timestamp> := [], [], {};
    ghost var keptRows: seq<GoldRow> := [];
    for i := 0 to |rows|
      invariant inserts == Select(names, rows[..i], target, Insert)
      invariant updates == Select(names, rows[..i], target, Update)
      invariant keptRows == Select(names, rows[..i], target, Keep) && kept == Times(keptRows)
    {
      SourceHashesAt(names, rows, i);
      SelectNext(names, rows, target, i);
      var t := rows[i].timestamp;
      if t !in target {
        inserts := inserts + [rows[i]];
      } else if target[t] != hashes[t] {
        updates := updates + [rows[i]];
      } else {
        kept := kept + {t};
        keptRows := keptRows + [rows[i]];
      }
    }
    assert rows[..|rows|] == rows;
    plan := Plan(inserts, updates, target.Keys - hashes.Keys, kept, hashes);
  }

  /** The key of row i is selected under a kind exactly when its row is of that kind. */
  lemma SelectedKey(names: seq<Name>, rows: seq<GoldRow>, target: Hashes, kind: Kind, i: nat)
    requires Sized(rows, |names|) && DistinctKeys(rows) && i < |rows|
    ensures rows[i].timestamp in Times(Select(names, rows, target, kind)) <==> Classify(names, rows[i], target) == kind
  {
    hide Select, Classify;
    SelectExact(names, rows, target, kind);
    forall r | r in rows && r.timestamp == rows[i].timestamp ensures r == rows[i] {
      var j :| 0 <= j < |rows| && rows[j] == r;
    }
    assert rows[i] in rows;
  }

  /** The keys selected under a kind, told from the two digest maps alone. */
  lemma SelectedKeys(names: seq<Name>, rows: seq<GoldRow>, target: Hashes, kind: Kind, t: Timestamp)
    requires Sized(rows, |names|) && DistinctKeys(rows)
    ensures var source := SourceHashes(names, rows);
            t in Times(Select(names, rows, target, kind))
            <==> t in source && kind == (if t !in target then Insert else if target[t] != source[t] then Update else Keep)
  {
    hide Select, RowSha256, SourceHashes;
    SourceHashesKeys(names, rows);
    SelectExact(names, rows, target, kind);
    if t in Times(rows) {
      var i :| 0 <= i < |rows| && rows[i].timestamp == t;
      SourceHashesAt(names, rows, i);
      SelectedKey(names, rows, target, kind, i);
    }
  }

  /** The four key sets are disjoint, and say exactly what must happen to every key. */
  lemma PlanPartition(names: seq<Name>, rows: seq<GoldRow>, target: Hashes)
    requires Sized(rows, |names|) && DistinctKeys(rows)
    ensures var p := PlanOf(names, rows, target);
            && p.source.Keys == Times(p.inserts) + Times(p.updates) + p.kept
            && p.deletes == target.Keys - p.source.Keys
            && Times(p.inserts) == p.source.Keys - target.Keys
            && p.kept == (set t | t in target && t in p.source && target[t] == p.source[t])
            && Times(p.inserts) !! Times(p.updates) !! p.deletes !! p.kept
  {
    hide RowSha256, Select, SourceHashes, Times;
    forall t, kind
      ensures t in Times(Select(names, rows, target, kind))
              <==> t in SourceHashes(names, rows)
                   && kind == (if t !in target then Insert
                               else if target[t] != SourceHashes(names, rows)[t] then Update else Keep)
    {
      SelectedKeys(names, rows, target, kind, t);
    }
  }

  /* ---------- applying the plan to the digest index ---------- */

  function Upserted(index: Hashes, rows: seq<GoldRow>, source: Hashes): Hashes
    requires Times(rows) <= source.Keys
  {
    if rows == [] then index
    else
      var t := rows[|rows| - 1].timestamp;
      assert rows[|rows| - 1] in rows && Times(rows[..|rows| - 1]) <= Times(rows);
      Upserted(index, rows[..|rows| - 1], source)[t := source[t]]
  }

  lemma {:induction false} UpsertedAt(index: Hashes, rows: seq<GoldRow>, source: Hashes, t: Timestamp)
    requires Times(rows) <= source.Keys
    ensures At(Upserted(index, rows, source), t) == if t in Times(rows) then Some(source[t]) else At(index, t)
  {
    if rows != [] {
      var n := |rows| - 1;
      TimesSplit(rows, n);
      UpsertedAt(index, rows[..n], source, t);
    }
  }

  function AppliedIndex(index: Hashes, plan: Plan): Hashes
    requires Times(plan.inserts + plan.updates) <= plan.source.Keys
  {
    Upserted(index, plan.inserts + plan.updates, plan.source) - plan.deletes
  }

  /** Every mutation has a source digest, so applying a plan never lacks one. */
  lemma PlanHasDigests(names: seq<Name>, rows: seq<GoldRow>, target: Hashes)
    requires Sized(rows, |names|) && DistinctKeys(rows)
    ensures var p := PlanOf(names, rows, target); Times(p.inserts + p.updates) <= p.source.Keys
  {
    hide Select, RowSha256;
    PlanPartition(names, rows, target);
  }

  /**
   Applying the plan in the code's order gives exactly the source digests, and the mutated
   keys are exactly those whose digest did not already agree.
   */
  lemma PlanExact(names: seq<Name>, rows: seq<GoldRow>, target: Hashes)
    requires Sized(rows, |names|) && DistinctKeys(rows)
    ensures var p := PlanOf(names, rows, target);
            && Times(p.inserts + p.updates) <= p.source.Keys
            && AppliedIndex(target, p) == SourceHashes(names, rows)
            && forall t :: t in Times(p.inserts + p.updates) + p.deletes <==> At(target, t) != At(p.source, t)
  {
    hide Select, RowSha256, SourceHashes;
    var p := PlanOf(names, rows, target);
    PlanPartition(names, rows, target);
    PlanHasDigests(names, rows, target);
    assert Times(p.inserts + p.updates) == Times(p.inserts) + Times(p.updates);
    forall t ensures At(AppliedIndex(target, p), t) == At(p.source, t)
      ensures t in Times(p.inserts + p.updates) + p.deletes <==> At(target, t) != At(p.source, t)
    {
      UpsertedAt(target, p.inserts + p.updates, p.source, t);
    }
    SameEntries(AppliedIndex(target, p), p.source);
  }

  /** Planning against an index that already equals the source changes nothing, and only then. */
  lemma EmptyPlanIff(names: seq<Name>, rows: seq<GoldRow>, target: Hashes)
    requires Sized(rows, |names|) && DistinctKeys(rows)
    ensures PlanOf(names, rows, target).Empty() <==> target == SourceHashes(names, rows)
  {
    hide Select, RowSha256, SourceHashes;
    var p := PlanOf(names, rows, target);
    PlanExact(names, rows, target);
    if target == p.source {
      forall t ensures t !in Times(p.inserts + p.updates) && t !in p.deletes {
        assert At(target, t) == At(p.source, t);
      }
      assert p.deletes == {};
      NoTimes(p.inserts + p.updates);
    }
  }

  lemma NoTimes(rows: seq<GoldRow>)
    ensures Times(rows) == {} <==> rows == []
  {
    if rows != [] {
      assert rows[0].timestamp in Times(rows);
    }
  }
}
