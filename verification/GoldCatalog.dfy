/** Gold catalog rows, the validation every read and replace performs, and the two resolutions. */
module GoldCatalog {
  import opened Common

  datatype Status = Building | Complete | Failed

  /** One catalog row; build ids and times are their order. */
  datatype Record = Record(build: int, status: Status, current: bool, started: int, completed: Option<int>,
                           schema: int, feature: int, minTime: Option<int>, maxTime: Option<int>, rowCount: Option<int>,
                           data: Option<string>, manifest: Option<string>, plot: Option<string>, pruned: Option<int>)
  {
    predicate PathsComplete() {
      && data.Some? && data.value != ""
      && manifest.Some? && manifest.value != ""
      && plot.Some? && plot.value != ""
    }

    predicate Selectable() {
      status == Complete && completed.Some? && pruned.None? && PathsComplete()
    }
  }

  type Catalog = seq<Record>

  datatype CatalogError = InvalidRow | DuplicateBuild | TwoCurrent

  predicate ValidRecord(r: Record) {
    && (r.rowCount.Some? ==> r.rowCount.value >= 0)
    && (r.completed.Some? ==> r.started <= r.completed.value)
    && (r.minTime.Some? && r.maxTime.Some? ==> r.minTime.value <= r.maxTime.value)
    && (r.data.Some? == r.manifest.Some? == r.plot.Some?)
    && (r.current ==> r.status == Complete && r.pruned.None?)
    && (r.status == Complete && r.pruned.None? ==> r.completed.Some? && r.rowCount.Some? && r.PathsComplete())
  }

  predicate UniqueBuilds(records: Catalog) {
    forall i, j :: 0 <= i < j < |records| ==> records[i].build != records[j].build
  }

  predicate OneCurrent(records: Catalog) {
    forall i, j :: 0 <= i < j < |records| ==> !(records[i].current && records[j].current)
  }

  predicate ValidCatalog(records: Catalog) {
    && (forall i :: 0 <= i < |records| ==> ValidRecord(records[i]))
    && UniqueBuilds(records)
    && OneCurrent(records)
  }

  /** What replacing the catalog refuses. */
  function Refusal(records: Catalog): (e: Option<CatalogError>)
    ensures e.None? <==> ValidCatalog(records)
  {
    if exists i :: 0 <= i < |records| && !ValidRecord(records[i]) then Some(InvalidRow)
    else if !UniqueBuilds(records) then Some(DuplicateBuild)
    else if !OneCurrent(records) then Some(TwoCurrent)
    else None
  }

  /**
   What a row may say, status by status: an attempt or a failure is never current; a complete build
   is current or not while it has its count, completion and files, and never once it is pruned.
   */
  lemma RecordByStatus(r: Record)
    ensures ValidRecord(r)
            <==> && (r.completed.Some? ==> r.started <= r.completed.value)
                 && (r.rowCount.Some? ==> 0 <= r.rowCount.value)
                 && (r.minTime.Some? && r.maxTime.Some? ==> r.minTime.value <= r.maxTime.value)
                 && (if r.status == Complete && r.pruned.None?
                     then && r.completed.Some? && r.rowCount.Some?
                          && r.data.Some? && r.manifest.Some? && r.plot.Some?
                          && r.data.value != "" && r.manifest.value != "" && r.plot.value != ""
                     else !r.current && (r.data.Some? <==> r.manifest.Some?) && (r.data.Some? <==> r.plot.Some?))
  {
  }

  /** A catalog is accepted exactly when each row may say what it says, no id repeats, and at most one row is current. */
  lemma AcceptedExactly(records: Catalog)
    ensures Refusal(records).None?
            <==> && (forall r :: r in records ==> ValidRecord(r))
                 && (forall i, j :: 0 <= i < j < |records| ==> records[i].build != records[j].build)
                 && |CurrentRows(records)| <= 1
  {
    if |CurrentRows(records)| <= 1 {
      OneCurrentRow(records);
    } else if OneCurrent(records) {
      CurrentRowsCount(records);
    }
  }

  lemma {:induction false} OneCurrentRow(records: Catalog)
    requires |CurrentRows(records)| <= 1
    ensures OneCurrent(records)
  {
    if records != [] {
      var n := |records| - 1;
      OneCurrentRow(records[..n]);
      if records[n].current {
        assert CurrentRows(records[..n]) == [];
        forall i | 0 <= i < n ensures !records[i].current {
          CurrentRowsMember(records[..n], records[i]);
          assert records[..n][i] in records[..n];
        }
      }
      forall i, j | 0 <= i < j < |records| ensures !(records[i].current && records[j].current) {
        assert j < n ==> records[..n][i] == records[i] && records[..n][j] == records[j];
      }
    }
  }

  /* ---------- resolution ---------- */

  datatype Compatibility = Compatibility(schema: int, feature: int)

  predicate Matches(c: Compatibility, r: Record) {
    r.schema == c.schema && r.feature == c.feature
  }

  datatype Lookup = Found(record: Record) | NoCurrent | NotSelectable | NotCompatible | NothingCompatible | ManyCurrent

  function CurrentRows(records: Catalog): Catalog {
    if records == [] then []
    else CurrentRows(records[..|records| - 1]) + (if records[|records| - 1].current then [records[|records| - 1]] else [])
  }

  function StrictCurrent(records: Catalog, c: Compatibility): Lookup {
    var current := CurrentRows(records);
    if |current| > 1 then ManyCurrent
    else if current == [] then NoCurrent
    else if !current[0].Selectable() then NotSelectable
    else if !Matches(c, current[0]) then NotCompatible
    else Found(current[0])
  }

  /** Newer by completion time, then by build id. */
  predicate Older(a: Record, b: Record) {
    a.completed.Some? && b.completed.Some?
    && (a.completed.value < b.completed.value || (a.completed.value == b.completed.value && a.build < b.build))
  }

  /** The newest compatible selectable row, scanning from the front. */
  function Newest(records: Catalog, c: Compatibility): Option<Record> {
    if records == [] then None
    else
      var before := Newest(records[..|records| - 1], c);
      var r := records[|records| - 1];
      if !(r.Selectable() && Matches(c, r)) then before
      else if before.None? || Older(before.value, r) then Some(r)
      else before
  }

  function LatestCompatible(records: Catalog, c: Compatibility): Lookup {
    var current := CurrentRows(records);
    if |current| > 1 then ManyCurrent
    else if current != [] && current[0].Selectable() && Matches(c, current[0]) then Found(current[0])
    else
      match Newest(records, c)
      case None => NothingCompatible
      case Some(r) => Found(r)
  }

  /* ---------- what the resolutions mean ---------- */

  lemma SplitLast(records: Catalog, r: Record)
    requires records != []
    ensures r in records <==> r in records[..|records| - 1] || r == records[|records| - 1]
  {
    assert records == records[..|records| - 1] + [records[|records| - 1]];
  }

  lemma {:induction false} CurrentRowsMember(records: Catalog, r: Record)
    ensures r in CurrentRows(records) <==> r in records && r.current
  {
    if records != [] {
      SplitLast(records, r);
      CurrentRowsMember(records[..|records| - 1], r);
    }
  }

  lemma {:induction false} CurrentRowsCount(records: Catalog)
    requires OneCurrent(records)
    ensures |CurrentRows(records)| <= 1
  {
    if records != [] {
      var n := |records| - 1;
      CurrentRowsCount(records[..n]);
      if records[n].current && CurrentRows(records[..n]) != [] {
        var r := CurrentRows(records[..n])[0];
        CurrentRowsMember(records[..n], r);
      }
    }
  }

  /** The current rows of a valid catalog: none, or exactly the one current row. */
  lemma CurrentIs(records: Catalog, r: Record)
    requires OneCurrent(records) && r in records && r.current
    ensures CurrentRows(records) == [r]
  {
    CurrentRowsCount(records);
    CurrentRowsMember(records, r);
  }

  /** Strict resolution finds a row exactly when it is the current, selectable, compatible row. */
  lemma StrictCurrentExact(records: Catalog, c: Compatibility, r: Record)
    requires ValidCatalog(records)
    ensures StrictCurrent(records, c) == Found(r)
            <==> && r in records && r.current && r.status == Complete && r.completed.Some? && r.pruned.None?
                 && r.schema == c.schema && r.feature == c.feature
  {
    CurrentRowsCount(records);
    CurrentRowsMember(records, r);
    if CurrentRows(records) != [] {
      CurrentRowsMember(records, CurrentRows(records)[0]);
    }
  }

  predicate Candidate(records: Catalog, c: Compatibility, r: Record) {
    r in records && r.Selectable() && Matches(c, r)
  }

  lemma {:induction false} NewestCandidate(records: Catalog, c: Compatibility)
    ensures Newest(records, c).Some? ==> Candidate(records, c, Newest(records, c).value)
  {
    if records != [] {
      NewestCandidate(records[..|records| - 1], c);
      if Newest(records, c).Some? {
        SplitLast(records, Newest(records, c).value);
      }
    }
  }

  lemma {:induction false} NewestBounds(records: Catalog, c: Compatibility, r: Record)
    requires UniqueBuilds(records) && Candidate(records, c, r)
    ensures Newest(records, c).Some? && (Newest(records, c).value == r || Older(r, Newest(records, c).value))
  {
    var n := |records| - 1;
    SplitLast(records, r);
    NewestCandidate(records[..n], c);
    if r in records[..n] {
      NewestBounds(records[..n], c, r);
    }
    var before := Newest(records[..n], c);
    if before.Some? {
      DifferentBuild(records, before.value);
    }
  }

  lemma DifferentBuild(records: Catalog, r: Record)
    requires UniqueBuilds(records) && records != [] && r in records[..|records| - 1]
    ensures r.build != records[|records| - 1].build
  {
    var k :| 0 <= k < |records| - 1 && records[..|records| - 1][k] == r;
  }

  /** Newest is exactly the greatest candidate. */
  lemma NewestExact(records: Catalog, c: Compatibility, r: Record)
    requires UniqueBuilds(records) && Candidate(records, c, r)
    requires forall x :: Candidate(records, c, x) && x != r ==> Older(x, r)
    ensures Newest(records, c) == Some(r)
  {
    NewestCandidate(records, c);
    NewestBounds(records, c, r);
  }

  lemma NoNewest(records: Catalog, c: Compatibility)
    requires forall x :: !Candidate(records, c, x)
    ensures Newest(records, c) == None
  {
    NewestCandidate(records, c);
  }

  /** A complete, unpruned build of these versions. */
  predicate Offers(r: Record, c: Compatibility) {
    r.status == Complete && r.pruned.None? && r.schema == c.schema && r.feature == c.feature
  }

  lemma OffersIsCandidate(records: Catalog, c: Compatibility, r: Record)
    requires ValidCatalog(records) && r in records
    ensures Offers(r, c) <==> Candidate(records, c, r)
    ensures Offers(r, c) ==> r.completed.Some?
  {
    var i :| 0 <= i < |records| && records[i] == r;
    assert ValidRecord(records[i]);
  }

  /**
   The resilient resolution of a valid catalog: the current build if it has these versions,
   otherwise the one that completed last, the greatest id among equals; nothing exactly when no
   build has them.
   */
  lemma LatestExact(records: Catalog, c: Compatibility, r: Record)
    requires ValidCatalog(records)
    ensures LatestCompatible(records, c) == Found(r)
            <==> && r in records && Offers(r, c) && r.completed.Some?
                 && (r.current
                     || forall x :: x in records && Offers(x, c) && x != r ==>
                          && !x.current && x.completed.Some?
                          && (x.completed.value < r.completed.value
                              || (x.completed.value == r.completed.value && x.build < r.build)))
    ensures LatestCompatible(records, c) == NothingCompatible <==> forall x :: x in records ==> !Offers(x, c)
  {
    hide ValidRecord, Offers, Newest;
    CurrentRowsCount(records);
    NewestCandidate(records, c);
    forall x | x in records
      ensures Offers(x, c) <==> Candidate(records, c, x)
      ensures Offers(x, c) ==> x.completed.Some?
      ensures Offers(x, c) ==> Newest(records, c).Some? && (Newest(records, c).value == x || Older(x, Newest(records, c).value))
      ensures x.current ==> CurrentRows(records) == [x]
    {
      OffersIsCandidate(records, c, x);
      if Offers(x, c) {
        NewestBounds(records, c, x);
      }
      if x.current {
        CurrentIs(records, x);
      }
    }
    if CurrentRows(records) != [] {
      CurrentRowsMember(records, CurrentRows(records)[0]);
    }
  }

  /** The other answers of the strict resolution of a valid catalog. */
  lemma StrictRefusals(records: Catalog, c: Compatibility)
    requires ValidCatalog(records)
    ensures StrictCurrent(records, c) == NoCurrent <==> forall x :: x in records ==> !x.current
    ensures StrictCurrent(records, c) == NotCompatible
            <==> exists x :: x in records && x.current && (x.schema != c.schema || x.feature != c.feature)
    ensures StrictCurrent(records, c).Found? || StrictCurrent(records, c) in {NoCurrent, NotCompatible}
  {
    hide ValidRecord;
    CurrentRowsCount(records);
    forall x | x in records && x.current ensures CurrentRows(records) == [x] && x.Selectable() {
      CurrentIs(records, x);
      var i :| 0 <= i < |records| && records[i] == x;
      CurrentIsSelectable(records[i]);
    }
    if CurrentRows(records) != [] {
      CurrentRowsMember(records, CurrentRows(records)[0]);
    }
  }

  lemma CurrentIsSelectable(r: Record)
    requires ValidRecord(r) && r.current
    ensures r.Selectable()
  {
  }
}
