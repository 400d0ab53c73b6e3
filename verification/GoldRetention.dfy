/**
 Selecting the builds to tombstone per version pair, and why marking them changes no answer.
 */
module GoldRetention {
  import opened Common
  import opened GoldCatalog

  type Key = (int, int)

  function KeyOf(r: Record): Key {
    (r.schema, r.feature)
  }

  /** A row that occupies a place in its group. */
  predicate Retained(r: Record) {
    r.status == Complete && r.pruned.None? && r.PathsComplete()
  }

  function Group(records: Catalog, key: Key): Catalog {
    if records == [] then []
    else
      var last := records[|records| - 1];
      Group(records[..|records| - 1], key) + (if Retained(last) && KeyOf(last) == key then [last] else [])
  }

  function NonCurrent(group: Catalog): Catalog {
    if group == [] then []
    else NonCurrent(group[..|group| - 1]) + (if group[|group| - 1].current then [] else [group[|group| - 1]])
  }

  /** Sorting by completion time and build id. */
  function InsertByCompletion(sorted: Catalog, r: Record): Catalog {
    if sorted == [] || !Older(r, sorted[|sorted| - 1]) then sorted + [r]
    else InsertByCompletion(sorted[..|sorted| - 1], r) + [sorted[|sorted| - 1]]
  }

  function SortByCompletion(rows: Catalog): Catalog {
    if rows == [] then [] else InsertByCompletion(SortByCompletion(rows[..|rows| - 1]), rows[|rows| - 1])
  }

  function Excess(group: Catalog, keep: nat): nat {
    if |group| > keep then |group| - keep else 0
  }

  datatype RetentionError = WouldPruneCurrent | MissingCompletion

  /** The rows of one group to mark. */
  function Chosen(group: Catalog, keep: nat): Result<Catalog, RetentionError> {
    var excess := Excess(group, keep);
    if excess == 0 then Ok([])
    else
      var candidates := NonCurrent(group);
      if exists r :: r in candidates && r.completed.None? then Err(MissingCompletion)
      else if |candidates| < excess then Err(WouldPruneCurrent)
      else Ok(Prefix(SortByCompletion(candidates), excess))
  }

  function Prefix(rows: Catalog, n: nat): Catalog {
    if n <= |rows| then rows[..n] else rows
  }

  function Builds(rows: Catalog): seq<int> {
    if rows == [] then [] else Builds(rows[..|rows| - 1]) + [rows[|rows| - 1].build]
  }

  predicate KeyBefore(a: Key, b: Key) {
    a.0 < b.0 || (a.0 == b.0 && a.1 < b.1)
  }

  function InsertKey(keys: seq<Key>, key: Key): seq<Key> {
    if key in keys then keys
    else if keys == [] || KeyBefore(keys[|keys| - 1], key) then keys + [key]
    else InsertKey(keys[..|keys| - 1], key) + [keys[|keys| - 1]]
  }

  /** The version pairs that have retained builds, sorted. */
  function Keys(records: Catalog): seq<Key> {
    if records == [] then []
    else
      var last := records[|records| - 1];
      var before := Keys(records[..|records| - 1]);
      if Retained(last) then InsertKey(before, KeyOf(last)) else before
  }

  function SelectFor(records: Catalog, keep: nat, keys: seq<Key>): Result<seq<int>, RetentionError> {
    if keys == [] then Ok([])
    else
      var before := SelectFor(records, keep, keys[..|keys| - 1]);
      if before.Err? then before
      else
        match Chosen(Group(records, keys[|keys| - 1]), keep)
        case Err(e) => Err(e)
        case Ok(rows) => Ok(before.value + Builds(rows))
  }

  /** All build ids to mark, group by group. */
  function SelectForMark(records: Catalog, keep: nat): Result<seq<int>, RetentionError> {
    SelectFor(records, keep, Keys(records))
  }

  type Groups = map<Key, Catalog>

  function InGroup(groups: Groups, key: Key): Catalog {
    if key in groups then groups[key] else []
  }

  /** The grouping loop over a default dictionary. */
  method GroupRecords(records: Catalog) returns (groups: Groups, keys: seq<Key>)
    ensures keys == Keys(records)
    ensures forall k :: InGroup(groups, k) == Group(records, k)
  {
    groups, keys := map[], [];
    for i := 0 to |records|
      invariant keys == Keys(records[..i])
      invariant forall k :: InGroup(groups, k) == Group(records[..i], k)
    {
      hide Retained, InsertKey;
      assert records[..i + 1][..i] == records[..i] && records[..i + 1][i] == records[i];
      var record := records[i];
      if Retained(record) {
        var key := KeyOf(record);
        groups := groups[key := InGroup(groups, key) + [record]];
        keys := InsertKey(keys, key);
      }
    }
    assert records[..|records|] == records;
  }

  /** The selection loop over the sorted version pairs. */
  method SelectForMarkLoop(records: Catalog, keep: nat) returns (r: Result<seq<int>, RetentionError>)
    ensures r == SelectForMark(records, keep)
  {
    hide Chosen, Group, Keys;
    var groups, keys := GroupRecords(records);
    var selected: seq<int> := [];
    for i := 0 to |keys|
      invariant SelectFor(records, keep, keys[..i]) == Ok(selected)
    {
      assert keys[..i + 1][..i] == keys[..i] && keys[..i + 1][i] == keys[i];
      assert InGroup(groups, keys[i]) == Group(records, keys[i]);
      var chosen := Chosen(InGroup(groups, keys[i]), keep);
      if chosen.Err? {
        SelectStops(records, keep, keys, i + 1);
        return Err(chosen.error);
      }
      selected := selected + Builds(chosen.value);
    }
    assert keys[..|keys|] == keys;
    r := Ok(selected);
  }

  lemma {:induction false} SelectStops(records: Catalog, keep: nat, keys: seq<Key>, i: nat)
    requires i <= |keys| && SelectFor(records, keep, keys[..i]).Err?
    ensures SelectFor(records, keep, keys) == SelectFor(records, keep, keys[..i])
  {
    if i < |keys| {
      assert keys[..|keys| - 1][..i] == keys[..i];
      SelectStops(records, keep, keys[..|keys| - 1], i);
    } else {
      assert keys[..i] == keys;
    }
  }

  /* ---------- groups ---------- */

  lemma {:induction false} GroupMember(records: Catalog, key: Key, r: Record)
    ensures r in Group(records, key) <==> r in records && Retained(r) && KeyOf(r) == key
  {
    if records != [] {
      SplitLast(records, r);
      GroupMember(records[..|records| - 1], key, r);
    }
  }

  lemma {:induction false} GroupUnique(records: Catalog, key: Key)
    requires UniqueBuilds(records)
    ensures UniqueBuilds(Group(records, key))
  {
    if records != [] {
      var n := |records| - 1;
      var front := Group(records[..n], key);
      GroupUnique(records[..n], key);
      forall i | 0 <= i < |front| ensures front[i].build != records[n].build {
        GroupMember(records[..n], key, front[i]);
        assert front[i] in front;
        DifferentBuild(records, front[i]);
      }
    }
  }

  lemma {:induction false} NonCurrentMember(group: Catalog, r: Record)
    ensures r in NonCurrent(group) <==> r in group && !r.current
  {
    if group != [] {
      SplitLast(group, r);
      NonCurrentMember(group[..|group| - 1], r);
    }
  }

  lemma {:induction false} NonCurrentUnique(group: Catalog)
    requires UniqueBuilds(group)
    ensures UniqueBuilds(NonCurrent(group))
  {
    if group != [] {
      var n := |group| - 1;
      var front := NonCurrent(group[..n]);
      NonCurrentUnique(group[..n]);
      forall i | 0 <= i < |front| ensures front[i].build != group[n].build {
        NonCurrentMember(group[..n], front[i]);
        assert front[i] in front;
        DifferentBuild(group, front[i]);
      }
    }
  }

  /** At most the one current row is missing from the candidates. */
  lemma {:induction false} NonCurrentCount(group: Catalog)
    requires OneCurrent(group)
    ensures |NonCurrent(group)| >= |group| - 1
    ensures (forall r :: r in group ==> !r.current) ==> |NonCurrent(group)| == |group|
  {
    if group != [] {
      var n := |group| - 1;
      NonCurrentCount(group[..n]);
      assert group[n] in group;
      if group[n].current {
        forall r | r in group[..n] ensures !r.current {
          var k :| 0 <= k < n && group[..n][k] == r;
          assert group[k] == r;
        }
      } else {
        forall r | r in group[..n] && (forall x :: x in group ==> !x.current) ensures !r.current {
          SplitLast(group, r);
        }
      }
    }
  }

  lemma {:induction false} GroupOneCurrent(records: Catalog, key: Key)
    requires OneCurrent(records)
    ensures OneCurrent(Group(records, key))
  {
    if records != [] {
      var n := |records| - 1;
      var front := Group(records[..n], key);
      GroupOneCurrent(records[..n], key);
      forall i | 0 <= i < |front| ensures !(front[i].current && records[n].current) {
        GroupMember(records[..n], key, front[i]);
        assert front[i] in front;
        var k :| 0 <= k < n && records[..n][k] == front[i];
        assert !(records[k].current && records[n].current);
      }
    }
  }

  /* ---------- sorting ---------- */

  predicate ByCompletion(rows: Catalog) {
    forall i, j :: 0 <= i < j < |rows| ==> Older(rows[i], rows[j])
  }

  predicate AllCompleted(rows: Catalog) {
    forall i :: 0 <= i < |rows| ==> rows[i].completed.Some?
  }

  lemma {:induction false} InsertMember(sorted: Catalog, r: Record, x: Record)
    ensures x in InsertByCompletion(sorted, r) <==> x in sorted || x == r
    ensures |InsertByCompletion(sorted, r)| == |sorted| + 1
  {
    if sorted != [] {
      SplitLast(sorted, x);
      InsertMember(sorted[..|sorted| - 1], r, x);
    }
  }

  lemma {:induction false} InsertOrdered(sorted: Catalog, r: Record)
    requires ByCompletion(sorted) && AllCompleted(sorted) && r.completed.Some?
    requires forall i :: 0 <= i < |sorted| ==> sorted[i].build != r.build
    ensures ByCompletion(InsertByCompletion(sorted, r)) && AllCompleted(InsertByCompletion(sorted, r))
  {
    if sorted != [] && Older(r, sorted[|sorted| - 1]) {
      var n := |sorted| - 1;
      var front := InsertByCompletion(sorted[..n], r);
      InsertOrdered(sorted[..n], r);
      forall i | 0 <= i < |front| ensures Older(front[i], sorted[n]) {
        InsertMember(sorted[..n], r, front[i]);
        assert front[i] in front;
        if front[i] != r {
          var k :| 0 <= k < n && sorted[..n][k] == front[i];
        }
      }
    } else if sorted != [] {
      forall i | 0 <= i < |sorted| ensures Older(sorted[i], r) {
        assert i < |sorted| - 1 ==> Older(sorted[i], sorted[|sorted| - 1]);
      }
    }
  }

  lemma {:induction false} SortMember(rows: Catalog, x: Record)
    ensures x in SortByCompletion(rows) <==> x in rows
    ensures |SortByCompletion(rows)| == |rows|
  {
    if rows != [] {
      SplitLast(rows, x);
      SortMember(rows[..|rows| - 1], x);
      InsertMember(SortByCompletion(rows[..|rows| - 1]), rows[|rows| - 1], x);
    }
  }

  lemma {:induction false} SortOrdered(rows: Catalog)
    requires UniqueBuilds(rows) && AllCompleted(rows)
    ensures ByCompletion(SortByCompletion(rows)) && AllCompleted(SortByCompletion(rows))
  {
    if rows != [] {
      var n := |rows| - 1;
      var front := SortByCompletion(rows[..n]);
      SortOrdered(rows[..n]);
      forall i | 0 <= i < |front| ensures front[i].build != rows[n].build {
        SortMember(rows[..n], front[i]);
        assert front[i] in front;
        DifferentBuild(rows, front[i]);
      }
      InsertOrdered(front, rows[n]);
    }
  }

  /* ---------- what is chosen ---------- */

  lemma GroupCompleted(records: Catalog, key: Key)
    requires ValidCatalog(records)
    ensures AllCompleted(Group(records, key))
  {
    var group := Group(records, key);
    forall i | 0 <= i < |group| ensures group[i].completed.Some? {
      GroupMember(records, key, group[i]);
      var k :| 0 <= k < |records| && records[k] == group[i];
      assert ValidRecord(records[k]);
    }
  }

  lemma NonCurrentCompleted(group: Catalog)
    requires AllCompleted(group)
    ensures AllCompleted(NonCurrent(group))
  {
    var rows := NonCurrent(group);
    forall i | 0 <= i < |rows| ensures rows[i].completed.Some? {
      NonCurrentMember(group, rows[i]);
      var k :| 0 <= k < |group| && group[k] == rows[i];
    }
  }

  lemma ValidParts(records: Catalog)
    requires ValidCatalog(records)
    ensures OneCurrent(records) && UniqueBuilds(records)
  {
  }

  /** The group of a valid catalog always has enough rows besides the current one. */
  lemma ChosenSucceeds(records: Catalog, key: Key, keep: nat)
    requires ValidCatalog(records) && keep >= 1
    ensures Chosen(Group(records, key), keep).Ok?
    ensures |Chosen(Group(records, key), keep).value| == Excess(Group(records, key), keep)
  {
    hide ValidCatalog, Group, NonCurrent, SortByCompletion, OneCurrent;
    var group := Group(records, key);
    ValidParts(records);
    GroupOneCurrent(records, key);
    NonCurrentCount(group);
    GroupCompleted(records, key);
    NonCurrentCompleted(group);
    SortLength(NonCurrent(group));
    forall r | r in NonCurrent(group) ensures r.completed.Some? {
      var k :| 0 <= k < |NonCurrent(group)| && NonCurrent(group)[k] == r;
    }
  }

  lemma {:induction false} SortLength(rows: Catalog)
    ensures |SortByCompletion(rows)| == |rows|
  {
    if rows != [] {
      SortLength(rows[..|rows| - 1]);
      InsertMember(SortByCompletion(rows[..|rows| - 1]), rows[|rows| - 1], rows[0]);
    }
  }

  /** Chosen rows are retained, not current, and older than every non-current row that stays. */
  lemma ChosenOldest(records: Catalog, key: Key, keep: nat, r: Record, other: Record)
    requires ValidCatalog(records) && keep >= 1
    requires Chosen(Group(records, key), keep).Ok? && r in Chosen(Group(records, key), keep).value
    ensures r in Group(records, key) && !r.current
    ensures other in Group(records, key) && !other.current && other !in Chosen(Group(records, key), keep).value
            ==> Older(r, other)
  {
    hide Group, NonCurrent, SortByCompletion;
    var group := Group(records, key);
    var candidates := NonCurrent(group);
    var sorted := SortByCompletion(candidates);
    var chosen := Chosen(group, keep).value;
    GroupUnique(records, key);
    NonCurrentUnique(group);
    GroupCompleted(records, key);
    NonCurrentCompleted(group);
    SortOrdered(candidates);
    SortLength(candidates);
    var i :| 0 <= i < |chosen| && chosen[i] == r;
    assert sorted[i] == r;
    SortMember(candidates, r);
    NonCurrentMember(group, r);
    if other in group && !other.current && other !in chosen {
      NonCurrentMember(group, other);
      SortMember(candidates, other);
      var j :| 0 <= j < |sorted| && sorted[j] == other;
    }
  }

  /* ---------- all groups together ---------- */

  lemma {:induction false} InsertKeyMember(keys: seq<Key>, key: Key, k: Key)
    ensures k in InsertKey(keys, key) <==> k in keys || k == key
  {
    if key !in keys && keys != [] && !KeyBefore(keys[|keys| - 1], key) {
      InsertKeyMember(keys[..|keys| - 1], key, k);
      assert keys == keys[..|keys| - 1] + [keys[|keys| - 1]];
    }
  }

  lemma {:induction false} KeysMember(records: Catalog, r: Record)
    requires r in records && Retained(r)
    ensures KeyOf(r) in Keys(records)
  {
    var n := |records| - 1;
    SplitLast(records, r);
    if r in records[..n] {
      KeysMember(records[..n], r);
    }
    if Retained(records[n]) {
      InsertKeyMember(Keys(records[..n]), KeyOf(records[n]), KeyOf(r));
    }
  }

  /** The rows chosen in the group of key. */
  function ChosenIn(records: Catalog, key: Key, keep: nat): Catalog
    requires ValidCatalog(records) && keep >= 1
  {
    ChosenSucceeds(records, key, keep);
    Chosen(Group(records, key), keep).value
  }

  lemma {:induction false} BuildsMember(rows: Catalog, build: int)
    ensures build in Builds(rows) <==> exists r :: r in rows && r.build == build
  {
    if rows != [] {
      var n := |rows| - 1;
      BuildsMember(rows[..n], build);
      assert rows == rows[..n] + [rows[n]];
      if r :| r in rows && r.build == build {
        SplitLast(rows, r);
      }
      if r :| r in rows[..n] && r.build == build {
        SplitLast(rows, r);
      }
    }
  }

  lemma {:induction false} SelectForMember(records: Catalog, keep: nat, keys: seq<Key>, build: int)
    requires ValidCatalog(records) && keep >= 1
    ensures SelectFor(records, keep, keys).Ok?
    ensures build in SelectFor(records, keep, keys).value
            <==> exists key :: key in keys && build in Builds(ChosenIn(records, key, keep))
  {
    hide Chosen, Group, Builds, ValidCatalog;
    if keys != [] {
      var n := |keys| - 1;
      SelectForMember(records, keep, keys[..n], build);
      ChosenSucceeds(records, keys[n], keep);
      assert keys == keys[..n] + [keys[n]];
      assert Builds(ChosenIn(records, keys[n], keep)) == Builds(Chosen(Group(records, keys[n]), keep).value);
    }
  }

  /** Selection never fails on a valid catalog, and picks exactly the chosen rows of every group. */
  lemma SelectionExact(records: Catalog, keep: nat, r: Record)
    requires ValidCatalog(records) && keep >= 1 && r in records
    ensures SelectForMark(records, keep).Ok?
    ensures r.build in SelectForMark(records, keep).value <==> Retained(r) && r in ChosenIn(records, KeyOf(r), keep)
  {
    hide SelectFor, Chosen, Group, Builds, Keys, ChosenIn;
    SelectForMember(records, keep, Keys(records), r.build);
    if r.build in SelectForMark(records, keep).value {
      var key :| key in Keys(records) && r.build in Builds(ChosenIn(records, key, keep));
      BuildsMember(ChosenIn(records, key, keep), r.build);
      var x :| x in ChosenIn(records, key, keep) && x.build == r.build;
      ChosenFrom(records, key, keep, x);
      SameBuildSameRow(records, x, r);
    }
    if Retained(r) && r in ChosenIn(records, KeyOf(r), keep) {
      KeysMember(records, r);
      BuildsMember(ChosenIn(records, KeyOf(r), keep), r.build);
    }
  }

  lemma ChosenFrom(records: Catalog, key: Key, keep: nat, x: Record)
    requires ValidCatalog(records) && keep >= 1 && x in ChosenIn(records, key, keep)
    ensures x in records && Retained(x) && KeyOf(x) == key && !x.current
  {
    hide Chosen, Group;
    ChosenSucceeds(records, key, keep);
    ChosenOldest(records, key, keep, x, x);
    GroupMember(records, key, x);
  }

  lemma SameBuildSameRow(records: Catalog, a: Record, b: Record)
    requires UniqueBuilds(records) && a in records && b in records && a.build == b.build
    ensures a == b
  {
    var i :| 0 <= i < |records| && records[i] == a;
    var j :| 0 <= j < |records| && records[j] == b;
  }

  /* ---------- the order of the selection ---------- */

  predicate KeysRise(keys: seq<Key>) {
    forall i, j :: 0 <= i < j < |keys| ==> keys[i].0 < keys[j].0 || (keys[i].0 == keys[j].0 && keys[i].1 < keys[j].1)
  }

  lemma {:induction false} InsertKeyRises(keys: seq<Key>, key: Key)
    requires KeysRise(keys)
    ensures KeysRise(InsertKey(keys, key))
  {
    if key !in keys && keys != [] && !KeyBefore(keys[|keys| - 1], key) {
      var n := |keys| - 1;
      InsertKeyRises(keys[..n], key);
      var front := InsertKey(keys[..n], key);
      forall i | 0 <= i < |front| ensures KeyBefore(front[i], keys[n]) {
        InsertKeyMember(keys[..n], key, front[i]);
        assert front[i] in front;
        if front[i] != key {
          var k :| 0 <= k < n && keys[..n][k] == front[i];
        }
      }
    } else if key !in keys && keys != [] {
      forall i | 0 <= i < |keys| ensures KeyBefore(keys[i], key) {
        assert i < |keys| - 1 ==> KeyBefore(keys[i], keys[|keys| - 1]);
      }
    }
  }

  lemma {:induction false} KeysSorted(records: Catalog)
    ensures KeysRise(Keys(records))
  {
    if records != [] {
      KeysSorted(records[..|records| - 1]);
      InsertKeyRises(Keys(records[..|records| - 1]), KeyOf(records[|records| - 1]));
    }
  }

  /** Listed by version pair, and within a pair by completion and id. */
  predicate ListedBefore(a: Record, b: Record) {
    || a.schema < b.schema
    || (a.schema == b.schema && a.feature < b.feature)
    || (a.schema == b.schema && a.feature == b.feature && a.completed.Some? && b.completed.Some?
        && (a.completed.value < b.completed.value || (a.completed.value == b.completed.value && a.build < b.build)))
  }

  lemma {:induction false} BuildsAt(rows: Catalog, i: nat)
    requires i < |rows|
    ensures |Builds(rows)| == |rows| && Builds(rows)[i] == rows[i].build
  {
    if i < |rows| - 1 {
      BuildsAt(rows[..|rows| - 1], i);
    } else if i > 0 {
      BuildsAt(rows[..|rows| - 1], 0);
    }
  }

  lemma ChosenListed(records: Catalog, key: Key, keep: nat, i: nat, j: nat)
    requires ValidCatalog(records) && keep >= 1 && i < j < |ChosenIn(records, key, keep)|
    ensures ListedBefore(ChosenIn(records, key, keep)[i], ChosenIn(records, key, keep)[j])
  {
    hide Group, NonCurrent, SortByCompletion, ValidCatalog;
    var group := Group(records, key);
    ChosenSucceeds(records, key, keep);
    ValidParts(records);
    GroupUnique(records, key);
    NonCurrentUnique(group);
    GroupCompleted(records, key);
    NonCurrentCompleted(group);
    SortOrdered(NonCurrent(group));
    var chosen := ChosenIn(records, key, keep);
    assert Older(chosen[i], chosen[j]);
    assert chosen[i] in chosen && chosen[j] in chosen;
    ChosenFrom(records, key, keep, chosen[i]);
    ChosenFrom(records, key, keep, chosen[j]);
  }

  lemma SelectedKey(records: Catalog, keep: nat, keys: seq<Key>, a: Record)
    requires ValidCatalog(records) && keep >= 1 && a in records
    ensures SelectFor(records, keep, keys).Ok?
    ensures a.build in SelectFor(records, keep, keys).value ==>
              KeyOf(a) in keys && a in ChosenIn(records, KeyOf(a), keep)
  {
    hide SelectFor, Chosen, Group, Builds, ChosenIn;
    SelectForMember(records, keep, keys, a.build);
    if a.build in SelectFor(records, keep, keys).value {
      var key :| key in keys && a.build in Builds(ChosenIn(records, key, keep));
      BuildsMember(ChosenIn(records, key, keep), a.build);
      var x :| x in ChosenIn(records, key, keep) && x.build == a.build;
      ChosenFrom(records, key, keep, x);
      SameBuildSameRow(records, x, a);
    }
  }

  lemma {:induction false} SelectForOrder(records: Catalog, keep: nat, keys: seq<Key>, i: nat, j: nat, a: Record, b: Record)
    requires ValidCatalog(records) && keep >= 1 && KeysRise(keys) && a in records && b in records
    requires SelectFor(records, keep, keys).Ok? && i < j < |SelectFor(records, keep, keys).value|
    requires a.build == SelectFor(records, keep, keys).value[i] && b.build == SelectFor(records, keep, keys).value[j]
    ensures ListedBefore(a, b)
  {
    hide Chosen, Group, Builds, ValidCatalog, ListedBefore;
    if keys != [] {
      var n := |keys| - 1;
      var front := SelectFor(records, keep, keys[..n]).value;
      ChosenSucceeds(records, keys[n], keep);
      var rows := ChosenIn(records, keys[n], keep);
      assert SelectFor(records, keep, keys).value == front + Builds(rows);
      if j < |front| {
        SelectForOrder(records, keep, keys[..n], i, j, a, b);
      } else {
        LastGroupRow(records, keep, keys[n], j - |front|, b);
        if i < |front| {
          assert a.build in front;
          SelectedKey(records, keep, keys[..n], a);
          GroupsRise(keys, a, b);
        } else {
          LastGroupRow(records, keep, keys[n], i - |front|, a);
          ChosenListed(records, keys[n], keep, i - |front|, j - |front|);
        }
      }
    }
  }

  lemma GroupsRise(keys: seq<Key>, a: Record, b: Record)
    requires KeysRise(keys) && keys != [] && KeyOf(a) in keys[..|keys| - 1] && KeyOf(b) == keys[|keys| - 1]
    ensures ListedBefore(a, b)
  {
    var k :| 0 <= k < |keys| - 1 && keys[k] == KeyOf(a);
  }

  lemma LastGroupRow(records: Catalog, keep: nat, key: Key, i: nat, a: Record)
    requires ValidCatalog(records) && keep >= 1 && a in records
    requires i < |Builds(ChosenIn(records, key, keep))| && Builds(ChosenIn(records, key, keep))[i] == a.build
    ensures i < |ChosenIn(records, key, keep)| && ChosenIn(records, key, keep)[i] == a && KeyOf(a) == key
  {
    hide Chosen, Group, ChosenIn, ValidCatalog;
    var rows := ChosenIn(records, key, keep);
    assert rows != [];
    BuildsAt(rows, 0);
    BuildsAt(rows, i);
    ChosenFrom(records, key, keep, rows[i]);
    ValidParts(records);
    SameBuildSameRow(records, rows[i], a);
  }

  /** The ids come in the order of their version pairs, and within a pair oldest first. */
  lemma SelectionOrder(records: Catalog, keep: nat, i: nat, j: nat, a: Record, b: Record)
    requires ValidCatalog(records) && keep >= 1 && a in records && b in records
    ensures SelectForMark(records, keep).Ok?
    ensures i < j < |SelectForMark(records, keep).value|
            && a.build == SelectForMark(records, keep).value[i] && b.build == SelectForMark(records, keep).value[j]
            ==> ListedBefore(a, b)
  {
    hide SelectFor, Keys, ListedBefore, ValidCatalog;
    SelectionRuns(records, keep);
    KeysSorted(records);
    if i < j < |SelectForMark(records, keep).value|
       && a.build == SelectForMark(records, keep).value[i] && b.build == SelectForMark(records, keep).value[j] {
      SelectForOrder(records, keep, Keys(records), i, j, a, b);
    }
  }

  /** Every selected id is that of a row. */
  lemma MarkedIsRow(records: Catalog, keep: nat, build: int)
    requires ValidCatalog(records) && keep >= 1
    ensures SelectForMark(records, keep).Ok?
    ensures build in SelectForMark(records, keep).value ==> exists r :: r in records && r.build == build
  {
    hide SelectFor, Chosen, Group, Builds, Keys, ChosenIn;
    SelectForMember(records, keep, Keys(records), build);
    if build in SelectForMark(records, keep).value {
      var key :| key in Keys(records) && build in Builds(ChosenIn(records, key, keep));
      BuildsMember(ChosenIn(records, key, keep), build);
      var x :| x in ChosenIn(records, key, keep) && x.build == build;
      ChosenFrom(records, key, keep, x);
    }
  }

  /* ---------- marking ---------- */

  predicate CanMark(r: Record) {
    r.status == Complete && !r.current && r.pruned.None? && r.PathsComplete()
  }

  /** The tombstone of a row. */
  function Mark(r: Record, now: int): Record {
    r.(current := false, data := None, manifest := None, plot := None, pruned := Some(now))
  }

  function MarkAll(records: Catalog, ids: seq<int>, now: int): (after: Catalog)
    ensures |after| == |records|
    ensures forall i :: 0 <= i < |records| ==> after[i] == if records[i].build in ids then Mark(records[i], now) else records[i]
  {
    if records == [] then []
    else
      var last := records[|records| - 1];
      MarkAll(records[..|records| - 1], ids, now) + [if last.build in ids then Mark(last, now) else last]
  }

  /** Every selected row can be marked, and the marked catalog is accepted by the next replace. */
  lemma MarkedIsValid(records: Catalog, keep: nat, now: int)
    requires ValidCatalog(records) && keep >= 1
    ensures SelectForMark(records, keep).Ok?
    ensures var ids := SelectForMark(records, keep).value;
            && (forall i :: 0 <= i < |records| && records[i].build in ids ==> CanMark(records[i]))
            && ValidCatalog(MarkAll(records, ids, now))
  {
    hide SelectForMark;
    SelectionRuns(records, keep);
    var ids := SelectForMark(records, keep).value;
    forall i | 0 <= i < |records| && records[i].build in ids ensures CanMark(records[i]) {
      SelectionExact(records, keep, records[i]);
      ChosenFrom(records, KeyOf(records[i]), keep, records[i]);
    }
  }

  lemma SelectionRuns(records: Catalog, keep: nat)
    requires ValidCatalog(records) && keep >= 1
    ensures SelectForMark(records, keep).Ok?
  {
    SelectForMember(records, keep, Keys(records), 0);
  }

  /* ---------- counts after marking ---------- */

  function Remove(rows: Catalog, ids: seq<int>): Catalog {
    if rows == [] then []
    else Remove(rows[..|rows| - 1], ids) + (if rows[|rows| - 1].build in ids then [] else [rows[|rows| - 1]])
  }

  lemma {:induction false} GroupAfterMark(records: Catalog, ids: seq<int>, now: int, key: Key)
    ensures Group(MarkAll(records, ids, now), key) == Remove(Group(records, key), ids)
  {
    if records != [] {
      var n := |records| - 1;
      GroupAfterMark(records[..n], ids, now, key);
      var after := MarkAll(records, ids, now);
      assert after[..n] == MarkAll(records[..n], ids, now);
      assert after[n] == if records[n].build in ids then Mark(records[n], now) else records[n];
      var front := Group(records[..n], key);
      if Retained(records[n]) && KeyOf(records[n]) == key {
        var grown := front + [records[n]];
        assert grown[..|grown| - 1] == front && grown[|grown| - 1] == records[n];
        assert Remove(grown, ids) == Remove(front, ids) + (if records[n].build in ids then [] else [records[n]]);
        assert Group(records, key) == grown;
      } else {
        assert Group(records, key) == front;
      }
      assert Group(after, key)
             == Group(after[..n], key) + (if Retained(after[n]) && KeyOf(after[n]) == key then [after[n]] else []);
    }
  }

  lemma {:induction false} RemoveMember(rows: Catalog, ids: seq<int>, r: Record)
    ensures r in Remove(rows, ids) <==> r in rows && r.build !in ids
  {
    if rows != [] {
      SplitLast(rows, r);
      RemoveMember(rows[..|rows| - 1], ids, r);
    }
  }

  lemma {:induction false} RemoveUnique(rows: Catalog, ids: seq<int>)
    requires UniqueBuilds(rows)
    ensures UniqueBuilds(Remove(rows, ids))
  {
    if rows != [] {
      var n := |rows| - 1;
      var front := Remove(rows[..n], ids);
      RemoveUnique(rows[..n], ids);
      forall i | 0 <= i < |front| ensures front[i].build != rows[n].build {
        RemoveMember(rows[..n], ids, front[i]);
        assert front[i] in front;
        DifferentBuild(rows, front[i]);
      }
    }
  }

  function BuildSet(rows: Catalog): set<int> {
    set r | r in rows :: r.build
  }

  lemma {:induction false} BuildSetSize(rows: Catalog)
    requires UniqueBuilds(rows)
    ensures |BuildSet(rows)| == |rows|
  {
    if rows != [] {
      var n := |rows| - 1;
      BuildSetSize(rows[..n]);
      assert rows == rows[..n] + [rows[n]];
      assert BuildSet(rows) == BuildSet(rows[..n]) + {rows[n].build};
      forall r | r in rows[..n] ensures r.build != rows[n].build {
        DifferentBuild(rows, r);
      }
    }
  }

  lemma ChosenUnique(records: Catalog, key: Key, keep: nat)
    requires ValidCatalog(records) && keep >= 1
    ensures UniqueBuilds(ChosenIn(records, key, keep))
  {
    hide Group, NonCurrent, SortByCompletion, ValidCatalog;
    var group := Group(records, key);
    ChosenSucceeds(records, key, keep);
    ValidParts(records);
    GroupUnique(records, key);
    NonCurrentUnique(group);
    GroupCompleted(records, key);
    NonCurrentCompleted(group);
    SortOrdered(NonCurrent(group));
    var chosen := ChosenIn(records, key, keep);
    forall i, j | 0 <= i < j < |chosen| ensures chosen[i].build != chosen[j].build {
      assert chosen[i] in chosen && chosen[j] in chosen;
      assert Older(chosen[i], chosen[j]);
      ChosenOldest(records, key, keep, chosen[i], chosen[i]);
      ChosenOldest(records, key, keep, chosen[j], chosen[j]);
      if chosen[i].build == chosen[j].build {
        SameBuildSameRow(group, chosen[i], chosen[j]);
      }
    }
  }

  /** After marking, every version pair keeps min(count, keep) builds. */
  lemma MarkKeepsCount(records: Catalog, keep: nat, now: int, key: Key)
    requires ValidCatalog(records) && keep >= 1
    ensures SelectForMark(records, keep).Ok?
    ensures var after := MarkAll(records, SelectForMark(records, keep).value, now);
            |Group(after, key)| == if |Group(records, key)| < keep then |Group(records, key)| else keep
  {
    hide ValidCatalog, SelectForMark, ChosenIn;
    SelectionRuns(records, keep);
    ValidParts(records);
    var ids := SelectForMark(records, keep).value;
    var group, chosen := Group(records, key), ChosenIn(records, key, keep);
    GroupAfterMark(records, ids, now, key);
    GroupUnique(records, key);
    RemoveUnique(group, ids);
    BuildSetSize(group);
    BuildSetSize(Remove(group, ids));
    ChosenUnique(records, key, keep);
    BuildSetSize(chosen);
    ChosenCount(records, key, keep);
    LeftIds(records, keep, key, ids);
  }

  lemma ChosenCount(records: Catalog, key: Key, keep: nat)
    requires ValidCatalog(records) && keep >= 1
    ensures |ChosenIn(records, key, keep)| == Excess(Group(records, key), keep)
  {
    ChosenSucceeds(records, key, keep);
  }

  lemma LeftIds(records: Catalog, keep: nat, key: Key, ids: seq<int>)
    requires ValidCatalog(records) && keep >= 1 && SelectForMark(records, keep) == Ok(ids)
    ensures BuildSet(Remove(Group(records, key), ids)) == BuildSet(Group(records, key)) - BuildSet(ChosenIn(records, key, keep))
    ensures BuildSet(ChosenIn(records, key, keep)) <= BuildSet(Group(records, key))
  {
    hide ValidCatalog, SelectForMark, ChosenIn, Group, Remove;
    ValidParts(records);
    var group, chosen := Group(records, key), ChosenIn(records, key, keep);
    forall r | r in chosen ensures r in group {
      ChosenFrom(records, key, keep, r);
      GroupMember(records, key, r);
    }
    forall r | r in group ensures r.build in ids <==> r in chosen {
      GroupMember(records, key, r);
      SelectionExact(records, keep, r);
    }
    forall b ensures b in BuildSet(Remove(group, ids)) <==> b in BuildSet(group) && b !in BuildSet(chosen) {
      if b in BuildSet(Remove(group, ids)) {
        var r :| r in Remove(group, ids) && r.build == b;
        RemoveMember(group, ids, r);
        if x :| x in chosen && x.build == b {
          GroupMember(records, key, x);
          GroupMember(records, key, r);
          SameBuildSameRow(records, x, r);
        }
      }
      if b in BuildSet(group) && b !in BuildSet(chosen) {
        var r :| r in group && r.build == b;
        RemoveMember(group, ids, r);
      }
    }
  }

  /** What is marked is older than every non-current build of its version pair that stays. */
  lemma MarkedAreOldest(records: Catalog, keep: nat, marked: Record, stays: Record)
    requires ValidCatalog(records) && keep >= 1 && marked in records && stays in records
    ensures SelectForMark(records, keep).Ok?
    ensures var ids := SelectForMark(records, keep).value;
            marked.build in ids ==>
              !marked.current
              && (stays.build !in ids && Retained(stays) && KeyOf(stays) == KeyOf(marked) && !stays.current ==> Older(marked, stays))
  {
    hide SelectForMark, ChosenIn, Group, ValidCatalog;
    SelectionExact(records, keep, marked);
    SelectionExact(records, keep, stays);
    if marked.build in SelectForMark(records, keep).value {
      ChosenFrom(records, KeyOf(marked), keep, marked);
      ChosenIsChosen(records, KeyOf(marked), keep);
      ChosenOldest(records, KeyOf(marked), keep, marked, stays);
      GroupMember(records, KeyOf(marked), stays);
    }
  }

  lemma ChosenIsChosen(records: Catalog, key: Key, keep: nat)
    requires ValidCatalog(records) && keep >= 1
    ensures Chosen(Group(records, key), keep) == Ok(ChosenIn(records, key, keep))
  {
    ChosenSucceeds(records, key, keep);
  }

  /* ---------- marking changes no answer ---------- */

  /** A complete build that still has its files. */
  predicate InPlace(r: Record, schema: int, feature: int) {
    r.status == Complete && r.pruned.None? && r.schema == schema && r.feature == feature
  }

  /** The builds that outlast r: of its version pair, and current, or completed later, or at the same time with a later id. */
  function Ahead(records: Catalog, r: Record): set<int> {
    set x | x in records && InPlace(x, r.schema, r.feature)
            && (x.current
                || (x.completed.Some? && r.completed.Some?
                    && (r.completed.value < x.completed.value
                        || (r.completed.value == x.completed.value && r.build < x.build)))) :: x.build
  }

  lemma InPlaceIsRetained(records: Catalog, r: Record)
    requires ValidCatalog(records) && r in records
    ensures InPlace(r, r.schema, r.feature) <==> Retained(r)
  {
    var i :| 0 <= i < |records| && records[i] == r;
    assert ValidRecord(records[i]);
  }

  lemma AheadInGroup(records: Catalog, r: Record, build: int)
    requires ValidCatalog(records) && build in Ahead(records, r)
    ensures exists x :: x in Group(records, KeyOf(r)) && x.build == build && (x.current || Older(r, x))
  {
    hide ValidCatalog, Group;
    var x :| x in records && x.build == build && InPlace(x, r.schema, r.feature) && (x.current || Older(r, x));
    InPlaceIsRetained(records, x);
    GroupMember(records, KeyOf(r), x);
  }

  /** A marked build has at least `keep` builds ahead of it: all that its group keeps. */
  lemma MarkedHasEnoughAhead(records: Catalog, keep: nat, r: Record)
    requires ValidCatalog(records) && keep >= 1 && r in ChosenIn(records, KeyOf(r), keep)
    ensures |Ahead(records, r)| >= keep
  {
    hide ValidCatalog, ChosenIn, Group, Older, Chosen;
    var key := KeyOf(r);
    var group, chosen := Group(records, key), ChosenIn(records, key, keep);
    ValidParts(records);
    GroupUnique(records, key);
    BuildSetSize(group);
    ChosenUnique(records, key, keep);
    BuildSetSize(chosen);
    ChosenCount(records, key, keep);
    forall b | b in BuildSet(group) - BuildSet(chosen) ensures b in Ahead(records, r) {
      var y :| y in group && y.build == b;
      GroupMember(records, key, y);
      ChosenIsChosen(records, key, keep);
      ChosenOldest(records, key, keep, r, y);
      LaterIsAhead(records, r, y);
    }
    forall b | b in BuildSet(chosen) ensures b in BuildSet(group) {
      var y :| y in chosen && y.build == b;
      ChosenFrom(records, key, keep, y);
      GroupMember(records, key, y);
    }
    SubsetSize(BuildSet(group) - BuildSet(chosen), Ahead(records, r));
    assert chosen != [];
  }

  lemma LaterIsAhead(records: Catalog, r: Record, y: Record)
    requires y in records && Retained(y) && KeyOf(y) == KeyOf(r) && (y.current || Older(r, y))
    ensures y.build in Ahead(records, r)
  {
  }

  /** A build that is kept has fewer than `keep` builds ahead of it. */
  lemma KeptHasFewAhead(records: Catalog, keep: nat, r: Record)
    requires ValidCatalog(records) && keep >= 1 && r in Group(records, KeyOf(r)) && !r.current
    requires r !in ChosenIn(records, KeyOf(r), keep)
    ensures |Ahead(records, r)| < keep
  {
    hide ValidCatalog, ChosenIn, Group, Chosen, Ahead;
    var key := KeyOf(r);
    var group, chosen := Group(records, key), ChosenIn(records, key, keep);
    ValidParts(records);
    GroupUnique(records, key);
    BuildSetSize(group);
    ChosenUnique(records, key, keep);
    BuildSetSize(chosen);
    ChosenCount(records, key, keep);
    forall x | x in chosen ensures x in group && !x.current && Older(x, r) && x.build != r.build {
      ChosenIsChosen(records, key, keep);
      ChosenOldest(records, key, keep, x, r);
      if x.build == r.build {
        SameBuildSameRow(group, x, r);
      }
    }
    var others := BuildSet(group) - BuildSet(chosen) - {r.build};
    forall b | b in Ahead(records, r) ensures b in others {
      AheadInGroup(records, r, b);
      var x :| x in group && x.build == b && (x.current || Older(r, x));
      if y :| y in chosen && y.build == b {
        SameBuildSameRow(group, x, y);
      }
    }
    assert BuildSet(chosen) <= BuildSet(group);
    assert r.build in BuildSet(group) - BuildSet(chosen);
    SubsetSize(Ahead(records, r), others);
  }

  /**
   The whole policy in one line: a build is marked exactly when it is complete with its files, not
   current, and at least `keep` builds of its version pair are current or newer.
   */
  lemma MarkedExactly(records: Catalog, keep: nat, r: Record)
    requires ValidCatalog(records) && keep >= 1 && r in records
    ensures SelectForMark(records, keep).Ok?
    ensures r.build in SelectForMark(records, keep).value
            <==> InPlace(r, r.schema, r.feature) && !r.current && |Ahead(records, r)| >= keep
  {
    hide ValidCatalog, ChosenIn, Group, Chosen, SelectForMark, Ahead;
    SelectionExact(records, keep, r);
    InPlaceIsRetained(records, r);
    GroupMember(records, KeyOf(r), r);
    if r in ChosenIn(records, KeyOf(r), keep) {
      ChosenFrom(records, KeyOf(r), keep, r);
      MarkedHasEnoughAhead(records, keep, r);
    } else if Retained(r) && !r.current {
      KeptHasFewAhead(records, keep, r);
    }
  }

  lemma {:induction false} MarkKeepsCurrentRows(records: Catalog, ids: seq<int>, now: int)
    requires forall i :: 0 <= i < |records| && records[i].build in ids ==> !records[i].current
    ensures CurrentRows(MarkAll(records, ids, now)) == CurrentRows(records)
  {
    if records != [] {
      var n := |records| - 1;
      assert forall i :: 0 <= i < n ==> records[..n][i] == records[i];
      MarkKeepsCurrentRows(records[..n], ids, now);
      assert MarkAll(records, ids, now)[..n] == MarkAll(records[..n], ids, now);
    }
  }

  lemma MarkedCandidate(records: Catalog, ids: seq<int>, now: int, c: Compatibility, r: Record)
    ensures Candidate(MarkAll(records, ids, now), c, r) <==> Candidate(records, c, r) && r.build !in ids
  {
    var after := MarkAll(records, ids, now);
    if Candidate(after, c, r) {
      var i :| 0 <= i < |after| && after[i] == r;
    }
    if Candidate(records, c, r) && r.build !in ids {
      var i :| 0 <= i < |records| && records[i] == r;
      assert after[i] == r;
    }
  }

  /** With no current row in its version pair, the newest build is never marked. */
  lemma NewestStays(records: Catalog, keep: nat, c: Compatibility)
    requires ValidCatalog(records) && keep >= 1 && Newest(records, c).Some?
    requires forall r :: r in records && r.current ==> !Matches(c, r)
    ensures SelectForMark(records, keep).Ok?
    ensures Newest(records, c).value.build !in SelectForMark(records, keep).value
  {
    hide SelectForMark, ChosenIn, Group, ValidCatalog, Newest, NonCurrent, SortByCompletion;
    var m := Newest(records, c).value;
    var key := (c.schema, c.feature);
    ValidParts(records);
    NewestCandidate(records, c);
    SelectionExact(records, keep, m);
    ChosenIsChosen(records, key, keep);
    if m in ChosenIn(records, key, keep) {
      forall r | r in Group(records, key) ensures !r.current {
        GroupMember(records, key, r);
      }
      GroupMember(records, key, m);
      var other := SomeoneStays(records, key, keep);
      GroupMember(records, key, other);
      CandidateFromGroup(records, c, other);
      NewestBounds(records, c, other);
      ChosenOldest(records, key, keep, m, other);
      assert false;
    }
  }

  lemma CandidateFromGroup(records: Catalog, c: Compatibility, r: Record)
    requires ValidCatalog(records) && r in records && Retained(r) && KeyOf(r) == (c.schema, c.feature)
    ensures Candidate(records, c, r)
  {
    var k :| 0 <= k < |records| && records[k] == r;
    assert ValidRecord(records[k]);
  }

  /** As many rows as the policy keeps are left, so some row of the group is not chosen. */
  lemma SomeoneStays(records: Catalog, key: Key, keep: nat) returns (other: Record)
    requires ValidCatalog(records) && keep >= 1 && Group(records, key) != []
    requires forall r :: r in Group(records, key) ==> !r.current
    ensures other in Group(records, key) && !other.current && other !in ChosenIn(records, key, keep)
  {
    hide Group, ValidCatalog, ChosenIn;
    var group, chosen := Group(records, key), ChosenIn(records, key, keep);
    ValidParts(records);
    GroupUnique(records, key);
    BuildSetSize(group);
    ChosenUnique(records, key, keep);
    BuildSetSize(chosen);
    ChosenCount(records, key, keep);
    if forall r :: r in group ==> r in chosen {
      assert BuildSet(group) <= BuildSet(chosen);
      SubsetSize(BuildSet(group), BuildSet(chosen));
      assert false;
    }
    other :| other in group && other !in chosen;
  }

  lemma SubsetSize(a: set<int>, b: set<int>)
    requires a <= b
    ensures |a| <= |b|
  {
    assert b == a + (b - a);
  }

  /**
   Marking leaves both resolutions, for every pair of versions, with exactly the same answer.
   */
  lemma MarkingChangesNoAnswer(records: Catalog, keep: nat, now: int, c: Compatibility)
    requires ValidCatalog(records) && keep >= 1
    ensures SelectForMark(records, keep).Ok?
    ensures var after := MarkAll(records, SelectForMark(records, keep).value, now);
            && StrictCurrent(after, c) == StrictCurrent(records, c)
            && LatestCompatible(after, c) == LatestCompatible(records, c)
  {
    hide SelectForMark, ValidCatalog, Newest, CurrentRows, MarkAll;
    MarkedIsValid(records, keep, now);
    var ids := SelectForMark(records, keep).value;
    var after := MarkAll(records, ids, now);
    MarkKeepsCurrentRows(records, ids, now);
    var current := CurrentRows(records);
    if !(current != [] && current[0].Selectable() && Matches(c, current[0])) {
      forall r | r in records && r.current ensures !Matches(c, r) {
        CurrentMatches(records, c, r);
      }
      SameNewest(records, keep, now, c);
    }
  }

  lemma CurrentMatches(records: Catalog, c: Compatibility, r: Record)
    requires ValidCatalog(records) && r in records && r.current
    ensures CurrentRows(records) == [r] && r.Selectable()
  {
    CurrentIs(records, r);
    var k :| 0 <= k < |records| && records[k] == r;
    assert ValidRecord(records[k]);
  }

  lemma SameNewest(records: Catalog, keep: nat, now: int, c: Compatibility)
    requires ValidCatalog(records) && keep >= 1
    requires forall r :: r in records && r.current ==> !Matches(c, r)
    ensures SelectForMark(records, keep).Ok?
    ensures Newest(MarkAll(records, SelectForMark(records, keep).value, now), c) == Newest(records, c)
  {
    hide SelectForMark, ValidCatalog, Newest, MarkAll, Candidate;
    MarkedIsValid(records, keep, now);
    var ids := SelectForMark(records, keep).value;
    var after := MarkAll(records, ids, now);
    ValidParts(records);
    ValidParts(after);
    if Newest(records, c).Some? {
      var m := Newest(records, c).value;
      NewestStays(records, keep, c);
      NewestCandidate(records, c);
      MarkedCandidate(records, ids, now, c, m);
      forall x | Candidate(after, c, x) && x != m ensures Older(x, m) {
        MarkedCandidate(records, ids, now, c, x);
        NewestBounds(records, c, x);
      }
      NewestExact(after, c, m);
    } else {
      forall x ensures !Candidate(after, c, x) {
        MarkedCandidate(records, ids, now, c, x);
        if Candidate(records, c, x) {
          NewestBounds(records, c, x);
        }
      }
      NoNewest(after, c);
    }
  }
}
