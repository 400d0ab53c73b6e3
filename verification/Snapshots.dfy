/**
 The run-audit and state files: sorted snapshots that are read, filtered by key, extended by
 one record, sorted and rewritten as a whole.
 */
module Snapshots {
  import opened Common

  /** A record under its unique id, ordered by (major, id). */
  datatype Entry<R> = Entry(major: int, id: int, record: R)

  type Snapshot<R> = seq<Entry<R>>

  predicate Before<R>(a: Entry<R>, b: Entry<R>) {
    a.major < b.major || (a.major == b.major && a.id <= b.id)
  }

  predicate UniqueIds<R>(s: Snapshot<R>) {
    forall i, j :: 0 <= i < j < |s| ==> s[i].id != s[j].id
  }

  predicate Sorted<R>(s: Snapshot<R>) {
    forall i, j :: 0 <= i < j < |s| ==> Before(s[i], s[j])
  }

  function InsertSorted<R>(s: Snapshot<R>, e: Entry<R>): Snapshot<R> {
    if s == [] then [e]
    else if Before(s[|s| - 1], e) then s + [e]
    else InsertSorted(s[..|s| - 1], e) + [s[|s| - 1]]
  }

  function Sort<R>(s: Snapshot<R>): Snapshot<R> {
    if s == [] then [] else InsertSorted(Sort(s[..|s| - 1]), s[|s| - 1])
  }

  function Without<R>(s: Snapshot<R>, id: int): Snapshot<R> {
    if s == [] then []
    else Without(s[..|s| - 1], id) + (if s[|s| - 1].id != id then [s[|s| - 1]] else [])
  }

  datatype SnapshotError = DuplicateId

  /** Writing refuses duplicate ids and sorts. */
  function Write<R>(s: Snapshot<R>): Result<Snapshot<R>, SnapshotError> {
    if !UniqueIds(s) then Err(DuplicateId) else Ok(Sort(s))
  }

  function Upsert<R>(s: Snapshot<R>, e: Entry<R>): Result<Snapshot<R>, SnapshotError> {
    Write(Without(s, e.id) + [e])
  }

  /* ---------- sorting ---------- */

  predicate HasId<R>(s: Snapshot<R>, id: int) {
    exists i :: 0 <= i < |s| && s[i].id == id
  }

  lemma SplitLast<R>(s: Snapshot<R>, x: Entry<R>)
    requires s != []
    ensures x in s <==> x in s[..|s| - 1] || x == s[|s| - 1]
  {
    assert s == s[..|s| - 1] + [s[|s| - 1]];
  }

  lemma {:induction false} InsertMember<R>(s: Snapshot<R>, e: Entry<R>, x: Entry<R>)
    ensures x in InsertSorted(s, e) <==> x in s || x == e
  {
    if s != [] {
      SplitLast(s, x);
      InsertMember(s[..|s| - 1], e, x);
    }
  }

  lemma {:induction false} InsertKeepsOrder<R>(s: Snapshot<R>, e: Entry<R>)
    requires Sorted(s) && UniqueIds(s) && !HasId(s, e.id)
    ensures Sorted(InsertSorted(s, e)) && UniqueIds(InsertSorted(s, e))
  {
    if s != [] && !Before(s[|s| - 1], e) {
      var n := |s| - 1;
      var front := InsertSorted(s[..n], e);
      InsertKeepsOrder(s[..n], e);
      forall i | 0 <= i < |front| ensures Before(front[i], s[n]) && front[i].id != s[n].id {
        InsertMember(s[..n], e, front[i]);
        assert front[i] in front;
        if front[i] != e {
          var k :| 0 <= k < n && s[..n][k] == front[i];
        }
      }
    } else if s != [] {
      forall i | 0 <= i < |s| ensures Before(s[i], e) {
        assert i < |s| - 1 ==> Before(s[i], s[|s| - 1]);
      }
    }
  }

  lemma {:induction false} SortMember<R>(s: Snapshot<R>, x: Entry<R>)
    ensures x in Sort(s) <==> x in s
  {
    if s != [] {
      SplitLast(s, x);
      SortMember(s[..|s| - 1], x);
      InsertMember(Sort(s[..|s| - 1]), s[|s| - 1], x);
    }
  }

  lemma {:induction false} SortCanonical<R>(s: Snapshot<R>)
    requires UniqueIds(s)
    ensures Canonical(Sort(s))
  {
    if s != [] {
      var n := |s| - 1;
      var front := Sort(s[..n]);
      SortCanonical(s[..n]);
      forall i | 0 <= i < |front| ensures front[i].id != s[n].id {
        SortMember(s[..n], front[i]);
        assert front[i] in front;
        var k :| 0 <= k < n && s[..n][k] == front[i];
      }
      InsertKeepsOrder(front, s[n]);
    }
  }

  predicate Canonical<R>(s: Snapshot<R>) {
    UniqueIds(s) && Sorted(s)
  }

  /** A canonical file lists each id once, by rising major part and then by rising id. */
  lemma CanonicalOrder<R>(s: Snapshot<R>, i: nat, j: nat)
    requires Canonical(s) && i < j < |s|
    ensures s[i].id != s[j].id
    ensures s[i].major < s[j].major || (s[i].major == s[j].major && s[i].id < s[j].id)
  {
  }

  /* ---------- a snapshot is a map ---------- */

  function ById<R>(s: Snapshot<R>): map<int, Entry<R>> {
    if s == [] then map[] else ById(s[..|s| - 1])[s[|s| - 1].id := s[|s| - 1]]
  }

  lemma {:induction false} ByIdMember<R>(s: Snapshot<R>, e: Entry<R>)
    requires UniqueIds(s)
    ensures At(ById(s), e.id) == Some(e) <==> e in s
  {
    if s != [] {
      var n := |s| - 1;
      ByIdMember(s[..n], e);
      SplitLast(s, e);
    }
  }

  lemma {:induction false} ByIdKeys<R>(s: Snapshot<R>, id: int)
    ensures id in ById(s) ==> ById(s)[id].id == id
  {
    if s != [] {
      ByIdKeys(s[..|s| - 1], id);
    }
  }

  /** Two canonical files with the same records are the same file. */
  lemma {:induction false} MapDeterminesFile<R>(a: Snapshot<R>, b: Snapshot<R>)
    requires Canonical(a) && Canonical(b) && ById(a) == ById(b)
    ensures a == b
  {
    forall e ensures e in a <==> e in b {
      ByIdMember(a, e);
      ByIdMember(b, e);
    }
    MembersDetermineFile(a, b);
  }

  lemma {:induction false} MembersDetermineFile<R>(a: Snapshot<R>, b: Snapshot<R>)
    requires Canonical(a) && Canonical(b)
    requires forall e :: e in a <==> e in b
    ensures a == b
    decreases |a| + |b|
  {
    assert a != [] ==> a[0] in a;
    assert b != [] ==> b[0] in b;
    if a != [] {
      assert b != [];
      LastIsGreatest(a, b[|b| - 1]);
      LastIsGreatest(b, a[|a| - 1]);
      var x, y := a[..|a| - 1], b[..|b| - 1];
      forall e ensures e in x <==> e in y {
        FrontMember(a, e);
        FrontMember(b, e);
      }
      assert a == x + [a[|a| - 1]] && b == y + [b[|b| - 1]];
      MembersDetermineFile(x, y);
    }
  }

  lemma FrontMember<R>(s: Snapshot<R>, e: Entry<R>)
    requires UniqueIds(s) && s != []
    ensures e in s[..|s| - 1] <==> e in s && e != s[|s| - 1]
  {
    SplitLast(s, e);
  }

  lemma LastIsGreatest<R>(s: Snapshot<R>, e: Entry<R>)
    requires Canonical(s) && s != [] && e in s
    ensures e == s[|s| - 1] || (Before(e, s[|s| - 1]) && e.id != s[|s| - 1].id)
  {
    var i :| 0 <= i < |s| && s[i] == e;
  }

  /* ---------- upserting ---------- */

  lemma {:induction false} WithoutMember<R>(s: Snapshot<R>, id: int, x: Entry<R>)
    ensures x in Without(s, id) <==> x in s && x.id != id
  {
    if s != [] {
      SplitLast(s, x);
      WithoutMember(s[..|s| - 1], id, x);
    }
  }

  lemma {:induction false} WithoutUnique<R>(s: Snapshot<R>, id: int)
    requires UniqueIds(s)
    ensures UniqueIds(Without(s, id)) && !HasId(Without(s, id), id)
  {
    if s != [] {
      var n := |s| - 1;
      var kept := Without(s[..n], id);
      WithoutUnique(s[..n], id);
      forall i | 0 <= i < |kept| ensures kept[i].id != s[n].id {
        WithoutMember(s[..n], id, kept[i]);
        assert kept[i] in kept;
        var k :| 0 <= k < n && s[..n][k] == kept[i];
      }
    }
  }

  /**
   An upsert into a canonical file is never refused, yields a canonical file, and changes the
   record of its own id only.
   */
  lemma UpsertIsMapUpdate<R>(s: Snapshot<R>, e: Entry<R>)
    requires Canonical(s)
    ensures Upsert(s, e).Ok? && Canonical(Upsert(s, e).value)
    ensures ById(Upsert(s, e).value) == ById(s)[e.id := e]
  {
    var unsorted := Without(s, e.id) + [e];
    WithoutUnique(s, e.id);
    SortCanonical(unsorted);
    forall id ensures At(ById(Sort(unsorted)), id) == At(ById(s)[e.id := e], id) {
      UpsertedRecord(s, e, id);
    }
    SameEntries(ById(Sort(unsorted)), ById(s)[e.id := e]);
  }

  lemma UpsertedMember<R>(s: Snapshot<R>, e: Entry<R>, x: Entry<R>)
    ensures x in Sort(Without(s, e.id) + [e]) <==> x == e || (x in s && x.id != e.id)
  {
    SortMember(Without(s, e.id) + [e], x);
    WithoutMember(s, e.id, x);
  }

  lemma UpsertedRecord<R>(s: Snapshot<R>, e: Entry<R>, id: int)
    requires UniqueIds(s) && UniqueIds(Sort(Without(s, e.id) + [e]))
    ensures At(ById(Sort(Without(s, e.id) + [e])), id) == At(ById(s)[e.id := e], id)
  {
    var after := Sort(Without(s, e.id) + [e]);
    ByIdKeys(after, id);
    ByIdKeys(s, id);
    if id in ById(after) {
      var x := ById(after)[id];
      ByIdMember(after, x);
      UpsertedMember(s, e, x);
      ByIdMember(s, x);
    }
    if id == e.id {
      ByIdMember(after, e);
      UpsertedMember(s, e, e);
    } else if id in ById(s) {
      var x := ById(s)[id];
      ByIdMember(s, x);
      UpsertedMember(s, e, x);
      ByIdMember(after, x);
    }
  }

  /** Upserts of different records commute, down to the bytes of the file. */
  lemma UpsertsCommute<R>(s: Snapshot<R>, a: Entry<R>, b: Entry<R>)
    requires Canonical(s) && a.id != b.id
    ensures Upsert(s, a).Ok? && Upsert(s, b).Ok?
    ensures Upsert(Upsert(s, a).value, b) == Upsert(Upsert(s, b).value, a)
  {
    hide Upsert, ById;
    UpsertIsMapUpdate(s, a);
    UpsertIsMapUpdate(s, b);
    UpsertIsMapUpdate(Upsert(s, a).value, b);
    UpsertIsMapUpdate(Upsert(s, b).value, a);
    var m := ById(s);
    assert m[a.id := a][b.id := b] == m[b.id := b][a.id := a];
    MapDeterminesFile(Upsert(Upsert(s, a).value, b).value, Upsert(Upsert(s, b).value, a).value);
  }
}
