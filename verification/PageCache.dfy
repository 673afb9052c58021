/** The bounded LRU page cache (pcache/pcache.go), as values: which page is cached
    under which key, and the unpinned pages in eviction order. A page is named by
    the address of its C block. */
module PageCache {
  import opened Bytes

  /** index: key -> block; lru: the unpinned blocks, least recently unpinned first. */
  datatype Cache = Cache(index: map<int, int>, lru: seq<int>, max: int)

  function BlocksIn(index: map<int, int>): set<int> {
    set k | k in index :: index[k]
  }

  function Blocks(c: Cache): set<int> {
    BlocksIn(c.index)
  }

  ghost function Pinned(c: Cache): set<int> {
    Blocks(c) - (set b | b in c.lru)
  }

  // ---- the callbacks ----

  function Remove(s: seq<int>, b: int): (r: seq<int>)
    ensures b !in r
    ensures forall x :: x != b ==> (x in r <==> x in s)
    ensures b !in s ==> r == s
    ensures |r| <= |s|
  {
    if s == [] then []
    else if s[0] == b then Remove(s[1..], b)
    else
      assert s == [s[0]] + s[1..];
      [s[0]] + Remove(s[1..], b)
  }

  /** freePage: out of the index and out of the list. */
  function Drop(c: Cache, b: int): Cache {
    c.(index := map k | k in c.index && c.index[k] != b :: c.index[k], lru := Remove(c.lru, b))
  }

  function EvictLRU(c: Cache): Cache
    requires c.lru != []
  {
    Drop(c, c.lru[0])
  }

  /** Make room for one more page, as xFetch does at the bound. */
  function MakeRoom(c: Cache): Cache {
    if |c.index| >= c.max && c.lru != [] then EvictLRU(c) else c
  }

  /** xFetch: the new cache and the block handed out, if any. `mem` is what calloc
      would return. */
  function Fetch(c: Cache, key: int, create: int, mem: Option<int>): (Cache, Option<int>) {
    if key in c.index then (c.(lru := Remove(c.lru, c.index[key])), Some(c.index[key]))
    else if create == 0 then (c, None)
    else if |c.index| >= c.max && c.lru == [] && create == 1 then (c, None)
    else
      var room := MakeRoom(c);
      match mem
      case None => (room, None)
      case Some(a) => (room.(index := room.index[key := a]), Some(a))
  }

  function EvictWhileOver(c: Cache): Cache
    decreases |c.lru|
  {
    if |c.index| > c.max && c.lru != [] then
      assert |Drop(c, c.lru[0]).lru| < |c.lru| by { RemoveHead(c.lru); }
      EvictWhileOver(EvictLRU(c))
    else c
  }

  function Unpin(c: Cache, b: int, discard: bool): Cache {
    if b !in Blocks(c) then c
    else if discard then Drop(c, b)
    else EvictWhileOver(c.(lru := c.lru + [b]))
  }

  function Rekey(c: Cache, b: int, oldKey: int, newKey: int): Cache {
    if b !in Blocks(c) then c
    else
      var d := if newKey in c.index && c.index[newKey] != b then Drop(c, c.index[newKey]) else c;
      d.(index := (d.index - {oldKey})[newKey := b])
  }

  function KeepIn(s: seq<int>, keep: set<int>): (r: seq<int>)
    ensures forall x :: x in r <==> x in s && x in keep
  {
    if s == [] then [] else if s[0] in keep then [s[0]] + KeepIn(s[1..], keep) else KeepIn(s[1..], keep)
  }

  function Truncate(c: Cache, limit: int): Cache {
    var index := map k | k in c.index && k < limit :: c.index[k];
    c.(index := index, lru := KeepIn(c.lru, BlocksIn(index)))
  }

  function Shrink(c: Cache): Cache {
    c.(index := map k | k in c.index && c.index[k] !in c.lru :: c.index[k], lru := [])
  }

  lemma {:induction false} RemoveHead(s: seq<int>)
    requires s != []
    ensures |Remove(s, s[0])| < |s|
  {
  }

  // ---- the invariant ----

  ghost predicate NoDup(s: seq<int>) {
    forall i, j :: 0 <= i < j < |s| ==> s[i] != s[j]
  }

  /** One page per key and per block; the list holds pages of the cache, once each. */
  ghost predicate Core(c: Cache) {
    && (forall j, k :: j in c.index && k in c.index && c.index[j] == c.index[k] ==> j == k)
    && (forall b :: b in c.lru ==> b in Blocks(c))
    && NoDup(c.lru)
  }

  /** And the bound is exceeded only while every page is pinned. */
  ghost predicate Inv(c: Cache) {
    && Core(c)
    && (|c.index| > c.max ==> c.lru == [])
  }

  lemma {:induction false} RemoveNoDup(s: seq<int>, b: int)
    requires NoDup(s)
    ensures NoDup(Remove(s, b))
    ensures s != [] && s[0] == b ==> Remove(s, b) == s[1..]
    decreases |s|
  {
    if s != [] {
      RemoveNoDup(s[1..], b);
      if s[0] == b {
        assert b !in s[1..];
      } else {
        var rest := Remove(s[1..], b);
        assert s[0] !in rest;
      }
    }
  }

  lemma {:induction false} KeepInNoDup(s: seq<int>, keep: set<int>)
    requires NoDup(s)
    ensures NoDup(KeepIn(s, keep))
    decreases |s|
  {
    if s != [] {
      KeepInNoDup(s[1..], keep);
      assert s[0] !in s[1..];
      assert s[0] !in KeepIn(s[1..], keep);
    }
  }

  /** Dropping a cached page shortens the index by one. */
  lemma DropIs(c: Cache, b: int)
    requires Core(c) && b in Blocks(c)
    ensures |Drop(c, b).index| == |c.index| - 1
    ensures Blocks(Drop(c, b)) == Blocks(c) - {b}
    ensures Core(Drop(c, b))
    ensures c.lru != [] && c.lru[0] == b ==> Drop(c, b).lru == c.lru[1..]
  {
    var d := Drop(c, b);
    var k :| k in c.index && c.index[k] == b;
    SameMap(d.index, c.index - {k});
    assert (c.index - {k}).Keys == c.index.Keys - {k};
    forall x | x in Blocks(c) && x != b
      ensures x in Blocks(d)
    {
      var j :| j in c.index && c.index[j] == x;
      assert d.index[j] == x;
    }
    assert Blocks(d) == Blocks(c) - {b};
    RemoveNoDup(c.lru, b);
  }

  lemma DropKeepsInv(c: Cache, b: int)
    requires Inv(c) && b in Blocks(c)
    ensures Inv(Drop(c, b))
  {
    DropIs(c, b);
  }

  lemma MakeRoomIs(c: Cache)
    requires Inv(c)
    ensures Inv(MakeRoom(c))
    ensures |MakeRoom(c).index| < c.max || MakeRoom(c).lru == [] || |MakeRoom(c).index| < |c.index|
    ensures |c.index| >= c.max && c.lru != [] ==> |c.index| == c.max && |MakeRoom(c).index| == c.max - 1
    ensures Blocks(MakeRoom(c)) <= Blocks(c)
    ensures Pinned(MakeRoom(c)) == Pinned(c)
  {
    if |c.index| >= c.max && c.lru != [] {
      assert c.lru[0] in c.lru;
      DropIs(c, c.lru[0]);
    }
  }

  /** What SQLite guarantees: memory from calloc is not in use. */
  lemma FetchKeepsInv(c: Cache, key: int, create: int, mem: Option<int>)
    requires Inv(c) && (mem.Some? ==> mem.value !in Blocks(c))
    ensures Inv(Fetch(c, key, create, mem).0)
  {
    var (d, got) := Fetch(c, key, create, mem);
    if key in c.index {
      RemoveNoDup(c.lru, c.index[key]);
      assert Blocks(d) == Blocks(c);
    } else if got.Some? {
      var room := MakeRoom(c);
      MakeRoomIs(c);
      assert forall k :: k in room.index ==> room.index[k] in Blocks(room);
      AddedBlock(room, key, got.value);
    } else if create != 0 {
      MakeRoomIs(c);
    }
  }

  lemma AddedBlock(c: Cache, key: int, a: int)
    requires key !in c.index
    ensures Blocks(c.(index := c.index[key := a])) == Blocks(c) + {a}
    ensures |c.index[key := a]| == |c.index| + 1
  {
    var d := c.(index := c.index[key := a]);
    forall x | x in Blocks(c)
      ensures x in Blocks(d)
    {
      var k :| k in c.index && c.index[k] == x;
      assert d.index[k] == x;
    }
    assert d.index[key] == a;
    assert Blocks(d) == Blocks(c) + {a};
  }

  /** Evicting until the bound holds drops a prefix of the list and nothing pinned. */
  lemma {:induction false} EvictWhileOverIs(c: Cache)
    requires Core(c)
    ensures Inv(EvictWhileOver(c))
    ensures Pinned(EvictWhileOver(c)) == Pinned(c)
    ensures |EvictWhileOver(c).lru| <= |c.lru| && EvictWhileOver(c).lru == c.lru[|c.lru| - |EvictWhileOver(c).lru|..]
    ensures Blocks(EvictWhileOver(c)) <= Blocks(c)
    ensures forall b :: b in Blocks(c) && b !in Blocks(EvictWhileOver(c)) ==> b in c.lru
    decreases |c.lru|
  {
    if |c.index| > c.max && c.lru != [] {
      assert c.lru[0] in c.lru;
      DropIs(c, c.lru[0]);
      var d := EvictLRU(c);
      EvictWhileOverIs(d);
      assert d.lru == c.lru[1..];
      assert forall b :: b in d.lru ==> b in c.lru;
    }
  }

  lemma UnpinKeepsInv(c: Cache, b: int, discard: bool)
    requires Inv(c) && b !in c.lru
    ensures Inv(Unpin(c, b, discard))
  {
    if b in Blocks(c) {
      if discard {
        DropKeepsInv(c, b);
      } else {
        var d := c.(lru := c.lru + [b]);
        assert Core(d);
        EvictWhileOverIs(d);
      }
    }
  }

  lemma RekeyKeepsInv(c: Cache, b: int, oldKey: int, newKey: int)
    requires Inv(c)
    requires b in Blocks(c) ==> oldKey in c.index && c.index[oldKey] == b
    ensures Inv(Rekey(c, b, oldKey, newKey))
  {
    if b in Blocks(c) {
      var d := c;
      if newKey in c.index && c.index[newKey] != b {
        assert c.index[newKey] in Blocks(c);
        DropIs(c, c.index[newKey]);
        d := Drop(c, c.index[newKey]);
      }
      assert d.index[oldKey] == b;
      var e := Rekey(c, b, oldKey, newKey);
      assert e.index == (d.index - {oldKey})[newKey := b];
      assert newKey in d.index ==> newKey == oldKey;
      RekeyBlocks(d, b, oldKey, newKey);
    }
  }

  lemma RekeyBlocks(d: Cache, b: int, oldKey: int, newKey: int)
    requires Core(d) && oldKey in d.index && d.index[oldKey] == b
    requires newKey in d.index ==> newKey == oldKey
    ensures var e := d.(index := (d.index - {oldKey})[newKey := b]);
      Core(e) && Blocks(e) == Blocks(d) && |e.index| == |d.index|
  {
    var e := d.(index := (d.index - {oldKey})[newKey := b]);
    forall x | x in Blocks(d)
      ensures x in Blocks(e)
    {
      var k :| k in d.index && d.index[k] == x;
      if k == oldKey { assert e.index[newKey] == x; } else { assert e.index[k] == x; }
    }
    assert Blocks(e) == Blocks(d);
    assert e.index.Keys == (d.index.Keys - {oldKey}) + {newKey};
  }

  lemma TruncateKeepsInv(c: Cache, limit: int)
    requires Inv(c)
    ensures Inv(Truncate(c, limit))
    ensures |Truncate(c, limit).index| <= |c.index|
  {
    KeepInNoDup(c.lru, Blocks(Truncate(c, limit)));
    var d := Truncate(c, limit);
    SubMapSize(d.index, c.index);
    assert c.lru == [] ==> d.lru == [];
  }

  lemma SubMapSize(a: map<int, int>, b: map<int, int>)
    requires a.Keys <= b.Keys
    ensures |a| <= |b|
  {
    assert b.Keys == a.Keys + (b.Keys - a.Keys);
  }

  lemma ShrinkKeepsInv(c: Cache)
    requires Inv(c)
    ensures Inv(Shrink(c))
    ensures Pinned(Shrink(c)) == Pinned(c)
  {
    var d := Shrink(c);
    forall b | b in Pinned(c)
      ensures b in Blocks(d)
    {
      var k :| k in c.index && c.index[k] == b;
      assert d.index[k] == b;
    }
  }

  lemma {:induction false} KeepAll(s: seq<int>, keep: set<int>)
    requires forall b :: b in s ==> b in keep
    ensures KeepIn(s, keep) == s
    decreases |s|
  {
    if s != [] {
      var first := s[0];
      assert first in s;
      assert first in keep;
      forall b | b in s[1..] ensures b in keep { assert b in s; }
      KeepAll(s[1..], keep);
      assert s == [s[0]] + s[1..];
    }
  }

  lemma {:induction false} RemoveFromKept(s: seq<int>, keep: set<int>, b: int)
    ensures Remove(KeepIn(s, keep), b) == KeepIn(s, keep - {b})
    decreases |s|
  {
    if s != [] {
      RemoveFromKept(s[1..], keep, b);
      if s[0] in keep {
        var kept := KeepIn(s, keep);
        assert kept[0] == s[0] && kept[1..] == KeepIn(s[1..], keep);
      }
    }
  }

  /** Evicting one page first does not change what shrinking leaves. */
  lemma ShrinkAfterEvict(c: Cache)
    requires Core(c) && c.lru != []
    ensures Core(EvictLRU(c)) && Shrink(EvictLRU(c)) == Shrink(c)
  {
    assert c.lru[0] in c.lru;
    DropIs(c, c.lru[0]);
    var d := EvictLRU(c);
    assert forall b :: b in d.lru <==> b in c.lru && b != c.lru[0];
    assert Shrink(d).index == Shrink(c).index;
  }

  lemma TruncatedIndex(c: Cache, limit: int, dropped: set<int>)
    requires dropped == set k | k in c.index && k >= limit
    ensures Truncate(c, limit).index == c.index - dropped
    ensures Truncate(c, limit).lru == KeepIn(c.lru, BlocksIn(c.index - dropped))
  {
    assert Truncate(c, limit).index == c.index - dropped;
  }
}
