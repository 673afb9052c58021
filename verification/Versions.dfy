/** Version rows and retention (blobstore/versioning.go), as values. */
module Versions {
  import opened Bytes
  import opened Objects

  /** UNIQUE(obj, version_no) makes this pair the identity of a version row. */
  datatype VerKey = Ver(obj: int, no: int)
  datatype VerRow = VerRow(createdAt: int, snapshot: int)

  type VersionTable = map<VerKey, VerRow>

  /** The hidden objects: those that version rows point at. */
  function Hidden(versions: VersionTable): set<int> {
    set v | v in versions :: versions[v].snapshot
  }

  /** Every row names a present object and a present, distinct, hidden snapshot. */
  ghost predicate VersionInv(objs: map<int, Obj>, versions: VersionTable) {
    && (forall v :: v in versions ==> v.no >= 1 && v.obj in objs && versions[v].snapshot in objs)
    && (forall v, w :: v in versions && w in versions && versions[v].snapshot == versions[w].snapshot ==> v == w)
    && (forall v, w :: v in versions && w in versions ==> versions[v].snapshot != w.obj)
  }

  function VersionsOf(keys: set<VerKey>, obj: int): set<VerKey> {
    set v | v in keys && v.obj == obj
  }

  function Newer(keys: set<VerKey>, v: VerKey): set<VerKey> {
    set w | w in keys && w.obj == v.obj && w.no > v.no
  }

  /** When each version was taken. */
  function Stamps(versions: VersionTable): map<VerKey, int> {
    map v | v in versions :: versions[v].createdAt
  }

  /** The oldest time stamp a policy admits, computed in int64. */
  function Cutoff(now: int, maxAge: int): int {
    Wrap64(now - maxAge)
  }

  /** Over clock readings from 1970 on it does not wrap. */
  lemma CutoffIs(now: int, maxAge: int)
    requires 0 <= now <= MAX_INT64 && 0 < maxAge <= MAX_INT64
    ensures Cutoff(now, maxAge) == now - maxAge
  {
  }

  /** A version is kept iff it is among the newest `keep` and not older than the
      cutoff; a bound at or below zero is no bound. */
  predicate Kept(stamps: map<VerKey, int>, v: VerKey, keep: int, maxAge: int, now: int)
    requires v in stamps
  {
    && (keep > 0 ==> |Newer(stamps.Keys, v)| < keep)
    && (maxAge > 0 ==> stamps[v] >= Cutoff(now, maxAge))
  }

  /** What a prune of `obj` removes. */
  function Doomed(stamps: map<VerKey, int>, obj: int, keep: int, maxAge: int, now: int): set<VerKey> {
    set v | v in stamps && v.obj == obj && !Kept(stamps, v, keep, maxAge, now)
  }

  lemma DoomedOwn(versions: VersionTable, obj: int, keep: int, maxAge: int, now: int)
    ensures var gone := Doomed(Stamps(versions), obj, keep, maxAge, now);
      gone <= versions.Keys && forall v :: v in gone ==> v.obj == obj
  {
  }

  function Snapshots(versions: VersionTable, keys: set<VerKey>): set<int>
    requires keys <= versions.Keys
  {
    set v | v in keys :: versions[v].snapshot
  }

  /** `no` is one more than the highest number present for `obj`, or 1. */
  ghost predicate IsNextNo(keys: set<VerKey>, obj: int, no: int) {
    && no >= 1
    && (forall v :: v in keys && v.obj == obj ==> v.no < no)
    && (no > 1 ==> Ver(obj, no - 1) in keys)
  }

  /** The rows of one object in the order the prune query returns them. */
  ghost predicate Descending(rows: seq<VerKey>) {
    forall i, j :: 0 <= i < j < |rows| ==> rows[i].no > rows[j].no
  }

  ghost predicate ListsVersions(rows: seq<VerKey>, keys: set<VerKey>, obj: int) {
    && Descending(rows)
    && (forall i :: 0 <= i < |rows| ==> rows[i] in keys && rows[i].obj == obj)
    && (forall v :: v in keys && v.obj == obj ==> v in rows)
  }

  /** A newest-first listing under way: `rows` are listed, all newer than `rest`. */
  ghost predicate Listing(keys: set<VerKey>, obj: int, rows: seq<VerKey>, rest: set<VerKey>) {
    && Descending(rows)
    && (forall i :: 0 <= i < |rows| ==> rows[i] in keys && rows[i].obj == obj)
    && (forall v :: v in VersionsOf(keys, obj) ==> v in rest || v in rows)
    && (forall i, v :: 0 <= i < |rows| && v in rest ==> rows[i].no > v.no)
  }

  lemma StartListing(keys: set<VerKey>, obj: int)
    ensures Listing(keys, obj, [], VersionsOf(keys, obj))
  {
  }

  lemma NextListed(keys: set<VerKey>, obj: int, rows: seq<VerKey>, rest: set<VerKey>, top: VerKey)
    requires Listing(keys, obj, rows, rest) && rest <= VersionsOf(keys, obj)
    requires top in rest && forall v :: v in rest && v != top ==> v.no < top.no
    ensures Listing(keys, obj, rows + [top], rest - {top})
  {
    var more, less := rows + [top], rest - {top};
    forall i, j | 0 <= i < j < |more| ensures more[i].no > more[j].no { }
    forall v | v in VersionsOf(keys, obj) ensures v in less || v in more {
      if v in rows { var i :| 0 <= i < |rows| && rows[i] == v; assert more[i] == v; }
      assert more[|rows|] == top;
    }
    forall i, v | 0 <= i < |more| && v in less ensures more[i].no > v.no { }
  }

  lemma DoneListing(keys: set<VerKey>, obj: int, rows: seq<VerKey>)
    requires Listing(keys, obj, rows, {})
    ensures ListsVersions(rows, keys, obj)
  {
    forall v | v in keys && v.obj == obj ensures v in rows { assert v in VersionsOf(keys, obj); }
  }

  /** The position in the newest-first list is the number of newer versions. */
  lemma RankIsPosition(rows: seq<VerKey>, keys: set<VerKey>, obj: int, i: int)
    requires ListsVersions(rows, keys, obj) && 0 <= i < |rows|
    ensures |Newer(keys, rows[i])| == i
  {
    var front := set j | 0 <= j < i :: rows[j];
    forall v | v in Newer(keys, rows[i])
      ensures v in front
    {
      var j :| 0 <= j < |rows| && rows[j] == v;
      assert j < i;
    }
    assert Newer(keys, rows[i]) == front;
    FrontSize(rows, i);
  }

  /** The first `i` rows have been looked at, and `doomed` lists those of them that are in `gone`. */
  ghost predicate Sifted(rows: seq<VerKey>, i: int, gone: set<VerKey>, doomed: seq<VerKey>)
    requires 0 <= i <= |rows|
  {
    && (forall v :: v in doomed <==> v in rows[..i] && v in gone)
    && (forall a, b :: 0 <= a < b < |doomed| ==> doomed[a] != doomed[b])
  }

  lemma NothingSifted(rows: seq<VerKey>, gone: set<VerKey>)
    ensures Sifted(rows, 0, gone, [])
  {
  }

  lemma SiftNext(rows: seq<VerKey>, keys: set<VerKey>, obj: int, i: int, gone: set<VerKey>, doomed: seq<VerKey>,
                 drop: bool)
    requires ListsVersions(rows, keys, obj) && 0 <= i < |rows|
    requires Sifted(rows, i, gone, doomed) && (drop <==> rows[i] in gone)
    ensures Sifted(rows, i + 1, gone, if drop then doomed + [rows[i]] else doomed)
  {
    assert rows[..i + 1] == rows[..i] + [rows[i]];
    assert rows[i] !in rows[..i];
  }

  /** The row at position `i` is doomed exactly by the test on its rank and its time stamp. */
  lemma DoomedIff(versions: VersionTable, rows: seq<VerKey>, obj: int, keep: int, maxAge: int, now: int, i: int)
    requires ListsVersions(rows, versions.Keys, obj) && 0 <= i < |rows|
    ensures rows[i] in versions
    ensures rows[i] in Doomed(Stamps(versions), obj, keep, maxAge, now) <==>
      (keep > 0 && i + 1 > keep) || (maxAge > 0 && versions[rows[i]].createdAt < Cutoff(now, maxAge))
  {
    RankIsPosition(rows, versions.Keys, obj, i);
    assert Stamps(versions).Keys == versions.Keys;
  }

  lemma AllSifted(versions: VersionTable, rows: seq<VerKey>, obj: int, keep: int, maxAge: int, now: int,
                  doomed: seq<VerKey>)
    requires ListsVersions(rows, versions.Keys, obj)
    requires Sifted(rows, |rows|, Doomed(Stamps(versions), obj, keep, maxAge, now), doomed)
    ensures forall v :: v in doomed <==> v in Doomed(Stamps(versions), obj, keep, maxAge, now)
    ensures forall i, j :: 0 <= i < j < |doomed| ==> doomed[i] != doomed[j]
  {
    assert rows[..|rows|] == rows;
    forall v | v in Doomed(Stamps(versions), obj, keep, maxAge, now) ensures v in rows {
      assert v in versions.Keys && v.obj == obj;
    }
  }

  lemma {:induction false} FrontSize(rows: seq<VerKey>, i: int)
    requires Descending(rows) && 0 <= i <= |rows|
    ensures |set j | 0 <= j < i :: rows[j]| == i
    decreases i
  {
    var front := set j | 0 <= j < i :: rows[j];
    if i > 0 {
      var less := set j | 0 <= j < i - 1 :: rows[j];
      FrontSize(rows, i - 1);
      assert rows[i - 1] !in less;
      assert front == less + {rows[i - 1]};
    } else {
      assert front == {};
    }
  }

  lemma DropVersionsInv(objs: map<int, Obj>, versions: VersionTable, gone: set<VerKey>)
    requires VersionInv(objs, versions) && gone <= versions.Keys
    ensures VersionInv(objs - Snapshots(versions, gone), versions - gone)
    ensures Hidden(versions - gone) == Hidden(versions) - Snapshots(versions, gone)
    ensures forall v :: v in versions ==> v.obj !in Snapshots(versions, gone)
  {
    var rest := versions - gone;
    assert forall v :: v in rest ==> rest[v].snapshot !in Snapshots(versions, gone);
  }

  /** Removing one more version and its snapshot. */
  lemma OneMore<T>(m: map<int, T>, versions: VersionTable, gone: set<VerKey>, v: VerKey)
    requires gone <= versions.Keys && v in versions
    ensures Snapshots(versions, gone + {v}) == Snapshots(versions, gone) + {versions[v].snapshot}
    ensures (m - Snapshots(versions, gone)) - {versions[v].snapshot} == m - Snapshots(versions, gone + {v})
    ensures (versions - gone) - {v} == versions - (gone + {v})
  {
  }

  lemma NoneYet<T>(m: map<int, T>, versions: VersionTable)
    ensures Snapshots(versions, {}) == {}
    ensures m - Snapshots(versions, {}) == m && versions - {} == versions
  {
  }

  lemma AddVersionInv(objs: map<int, Obj>, versions: VersionTable, v: VerKey, row: VerRow, o: Obj)
    requires VersionInv(objs, versions)
    requires v.obj in objs && v.no >= 1 && v !in versions && v.obj !in Hidden(versions)
    requires row.snapshot !in objs
    ensures VersionInv(objs[row.snapshot := o], versions[v := row])
    ensures Hidden(versions[v := row]) == Hidden(versions) + {row.snapshot}
  {
    var vs := versions[v := row];
    assert forall w :: w in versions ==> vs[w] == versions[w];
    assert v in vs && vs[v].snapshot == row.snapshot;
    forall w | w in versions
      ensures w.obj != row.snapshot && versions[w].snapshot != v.obj && versions[w].snapshot != row.snapshot
    {
      assert versions[w].snapshot in Hidden(versions);
    }
  }

  /** Recording a version of a hidden snapshot breaks the rows unless it is swept at once. */
  lemma VersionOfHidden(objs: map<int, Obj>, versions: VersionTable, obj: int, no: int, row: VerRow, o: Obj,
                        gone: set<VerKey>)
    requires VersionInv(objs, versions) && obj in Hidden(versions) && row.snapshot !in objs && no >= 1
    requires gone <= versions.Keys + {Ver(obj, no)} && forall v :: v in gone ==> v.obj == obj
    ensures var recorded := versions[Ver(obj, no) := row];
      VersionInv(objs[row.snapshot := o] - Snapshots(recorded, gone), recorded - gone) <==> Ver(obj, no) in gone
  {
    var recorded := versions[Ver(obj, no) := row];
    var w :| w in versions && versions[w].snapshot == obj;
    assert w.obj != obj;
    assert forall v :: v in versions ==> v.obj != obj;
    if Ver(obj, no) in gone {
      assert gone == {Ver(obj, no)};
      assert Snapshots(recorded, gone) == {row.snapshot};
      assert recorded - gone == versions;
      assert objs[row.snapshot := o] - {row.snapshot} == objs;
    } else {
      var rest := recorded - gone;
      assert w in rest && rest[w].snapshot == obj && Ver(obj, no) in rest;
    }
  }

  /** Deleting an object with all its versions keeps the rows sound iff it is not hidden. */
  lemma DeleteKeepsVersionsIff(objs: map<int, Obj>, versions: VersionTable, id: int)
    requires VersionInv(objs, versions)
    ensures var gone := VersionsOf(versions.Keys, id);
      VersionInv((objs - {id}) - Snapshots(versions, gone), versions - gone) <==> id !in Hidden(versions)
  {
    var gone := VersionsOf(versions.Keys, id);
    DropVersionsInv(objs, versions, gone);
    if id in Hidden(versions) {
      var w :| w in versions && versions[w].snapshot == id;
      assert w in versions - gone;
    } else {
      forall v | v in versions - gone
        ensures versions[v].snapshot != id
      {
        assert versions[v].snapshot in Hidden(versions);
      }
    }
  }
}
