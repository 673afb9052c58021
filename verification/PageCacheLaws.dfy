/** Whole-run laws of one page cache, over every legal call sequence. */
module PageCacheLaws {
  import opened Bytes
  import opened PageCache

  datatype Op =
    | Fetching(key: int, create: int, mem: Option<int>)
    | Unpinning(b: int, discard: bool)
    | Rekeying(b: int, oldKey: int, newKey: int)
    | Truncating(limit: int)
    | Shrinking

  function Apply(c: Cache, op: Op): Cache {
    match op
    case Fetching(key, create, mem) => Fetch(c, key, create, mem).0
    case Unpinning(b, discard) => Unpin(c, b, discard)
    case Rekeying(b, o, n) => Rekey(c, b, o, n)
    case Truncating(limit) => Truncate(c, limit)
    case Shrinking => Shrink(c)
  }

  /** What SQLite guarantees: calloc hands out unused memory, only pinned pages are
      unpinned or rekeyed, and a page in the way of a rekey is unpinned. */
  ghost predicate Legal(c: Cache, op: Op) {
    match op
    case Fetching(_, _, mem) => mem.Some? ==> mem.value !in Blocks(c)
    case Unpinning(b, _) => b in Pinned(c)
    case Rekeying(b, o, n) =>
      && b in Pinned(c) && o in c.index && c.index[o] == b
      && (n in c.index && c.index[n] != b ==> c.index[n] in c.lru)
    case _ => true
  }

  lemma ApplyKeepsInv(c: Cache, op: Op)
    requires Inv(c) && Legal(c, op)
    ensures Inv(Apply(c, op))
  {
    match op
    case Fetching(key, create, mem) => FetchKeepsInv(c, key, create, mem);
    case Unpinning(b, discard) => UnpinKeepsInv(c, b, discard);
    case Rekeying(b, o, n) => RekeyKeepsInv(c, b, o, n);
    case Truncating(limit) => TruncateKeepsInv(c, limit);
    case Shrinking => ShrinkKeepsInv(c);
  }

  ghost predicate IsRun(cs: seq<Cache>, ops: seq<Op>) {
    && |cs| == |ops| + 1
    && cs[0].index == map[] && cs[0].lru == []
    && (forall i {:trigger ops[i]} :: 0 <= i < |ops| ==> Legal(cs[i], ops[i]) && cs[i + 1] == Apply(cs[i], ops[i]))
  }

  lemma {:induction false} RunsKeepInv(cs: seq<Cache>, ops: seq<Op>, i: nat)
    requires IsRun(cs, ops) && i < |cs|
    ensures Inv(cs[i])
    decreases i
  {
    if i > 0 {
      RunsKeepInv(cs, ops, i - 1);
      var op := ops[i - 1];
      ApplyKeepsInv(cs[i - 1], op);
    }
  }

  // ---- which key leads to which page ----

  /** A fetch finds the page under its key whatever the flag says. Else flag 0 yields nothing,
      and any other flag yields the new memory, if there is some - except flag 1 at the bound
      with every page pinned. The key then leads to the page, off the list; every other key
      keeps its page, except the one whose page was evicted for it. */
  lemma FetchYields(c: Cache, key: int, create: int, mem: Option<int>)
    requires Inv(c) && (mem.Some? ==> mem.value !in Blocks(c))
    ensures var (d, got) := Fetch(c, key, create, mem);
      var crowded := |c.index| >= c.max;
      var evicts := key !in c.index && create != 0 && crowded && c.lru != [];
      && got == (if key in c.index then Some(c.index[key])
                 else if create == 0 || (create == 1 && crowded && Pinned(c) == Blocks(c)) then None
                 else mem)
      && (got.Some? ==> key in d.index && d.index[key] == got.value && got.value in Pinned(d))
      && (got.None? ==> key !in d.index)
      && (forall k :: k != key ==>
            (k in d.index <==> k in c.index && !(evicts && c.index[k] == c.lru[0])))
      && (forall k :: k != key && k in d.index ==> d.index[k] == c.index[k])
  {
    if c.lru != [] {
      assert c.lru[0] in c.lru;
      ListedIsCached(c, c.lru[0]);
    }
    FetchKeepsInv(c, key, create, mem);
    var (d, got) := Fetch(c, key, create, mem);
    if got.Some? { assert d.index[key] in Blocks(d); }
  }

  lemma ListedIsCached(c: Cache, b: int)
    requires Core(c) && b in c.lru
    ensures b in Blocks(c) && b !in Pinned(c)
  {
  }

  /** Unpinning with discard removes that page alone. Otherwise the page joins the end of the
      list, and pages leave from the front, as many as the cache is over its bound and the list
      has; every other key keeps its page. */
  lemma UnpinLeaves(c: Cache, b: int, discard: bool)
    requires Inv(c) && b in Pinned(c)
    ensures var d := Unpin(c, b, discard);
      var list := c.lru + [b];
      var over := Min(Max(|c.index| - c.max, 0), |list|);
      && d.lru == (if discard then c.lru else list[over..])
      && (forall k :: k in d.index <==>
            k in c.index && (if discard then c.index[k] != b else c.index[k] !in list[..over]))
      && (forall k :: k in d.index ==> d.index[k] == c.index[k])
  {
    if discard {
      DropIs(c, b);
    } else {
      var e := c.(lru := c.lru + [b]);
      assert Core(e);
      EvictsExcess(e);
    }
  }

  lemma PrefixSplits(s: seq<int>, n: int)
    requires 0 < n <= |s|
    ensures s[1..][n - 1..] == s[n..]
    ensures forall x :: x in s[..n] <==> x == s[0] || x in s[1..][..n - 1]
  {
    assert s[..n] == [s[0]] + s[1..][..n - 1];
  }

  lemma EvictsOne(c: Cache)
    requires Core(c) && c.lru != []
    ensures var d := EvictLRU(c);
      && Core(d) && d.max == c.max && d.lru == c.lru[1..] && |d.index| == |c.index| - 1
      && (forall k :: k in d.index <==> k in c.index && c.index[k] != c.lru[0])
      && (forall k :: k in d.index ==> d.index[k] == c.index[k])
  {
    assert c.lru[0] in c.lru;
    DropIs(c, c.lru[0]);
  }

  lemma {:induction false} EvictsExcess(c: Cache)
    requires Core(c)
    ensures var d := EvictWhileOver(c);
      var over := Min(Max(|c.index| - c.max, 0), |c.lru|);
      && d.lru == c.lru[over..]
      && (forall k :: k in d.index <==> k in c.index && c.index[k] !in c.lru[..over])
      && (forall k :: k in d.index ==> d.index[k] == c.index[k])
    decreases |c.lru|
  {
    hide Core, Blocks, Pinned, EvictLRU;
    if |c.index| > c.max && c.lru != [] {
      EvictsOne(c);
      var e := EvictLRU(c);
      EvictsExcess(e);
      PrefixSplits(c.lru, Min(|c.index| - c.max, |c.lru|));
    } else {
      assert c.lru[0..] == c.lru;
    }
  }

  /** After a rekey the new key leads to the page and the old one, if different, nowhere; the
      page that was under the new key is gone, and every other key keeps its page. */
  lemma RekeyMoves(c: Cache, b: int, oldKey: int, newKey: int)
    requires Inv(c) && Legal(c, Rekeying(b, oldKey, newKey))
    ensures var d := Rekey(c, b, oldKey, newKey);
      && newKey in d.index && d.index[newKey] == b && b in Pinned(d)
      && (oldKey != newKey ==> oldKey !in d.index)
      && (forall k :: k != oldKey && k != newKey ==> (k in d.index <==> k in c.index))
      && (forall k :: k != oldKey && k != newKey && k in d.index ==> d.index[k] == c.index[k])
      && Blocks(d) == (if newKey in c.index && newKey != oldKey then Blocks(c) - {c.index[newKey]} else Blocks(c))
  {
    var d := if newKey in c.index && c.index[newKey] != b then Drop(c, c.index[newKey]) else c;
    if d != c {
      assert c.index[newKey] in Blocks(c);
      DropIs(c, c.index[newKey]);
    }
    RekeyBlocks(d, b, oldKey, newKey);
  }

  /** A truncation keeps exactly the keys below the limit, and a shrink exactly the pinned pages. */
  lemma TruncateAndShrinkKeep(c: Cache, limit: int)
    requires Inv(c)
    ensures forall k :: k in Truncate(c, limit).index <==> k in c.index && k < limit
    ensures forall k :: k in Truncate(c, limit).index ==> Truncate(c, limit).index[k] == c.index[k]
    ensures forall k :: k in Shrink(c).index <==> k in c.index && c.index[k] in Pinned(c)
    ensures forall k :: k in Shrink(c).index ==> Shrink(c).index[k] == c.index[k]
    ensures Shrink(c).lru == []
  {
    forall k | k in c.index ensures c.index[k] in Pinned(c) <==> c.index[k] !in c.lru {
      assert c.index[k] in Blocks(c);
    }
  }

  // ---- pinned pages are safe ----

  /** A pinned page keeps its block and its key through every call, except its own
      unpinning or rekeying and a truncation below its key. */
  lemma PinnedSurvive(c: Cache, op: Op, k: int)
    requires Inv(c) && Legal(c, op) && k in c.index && c.index[k] in Pinned(c)
    requires !(op.Unpinning? && op.b == c.index[k]) && !(op.Rekeying? && op.b == c.index[k])
    requires op.Truncating? ==> k < op.limit
    ensures k in Apply(c, op).index && Apply(c, op).index[k] == c.index[k]
    ensures c.index[k] in Pinned(Apply(c, op))
  {
    var b := c.index[k];
    match op
    case Fetching(key, create, mem) =>
      MakeRoomIs(c);
      var d := Apply(c, op);
      assert k in d.index && d.index[k] == b;
    case Unpinning(x, discard) =>
      if !discard {
        var d := c.(lru := c.lru + [x]);
        UnpinKeepsPinned(c, d, x, k);
      }
    case Rekeying(x, o, n) =>
      var d := Apply(c, op);
      assert n != k;
      assert d.index[k] == b;
    case Truncating(limit) =>
      var d := Apply(c, op);
      assert d.index[k] == b;
    case Shrinking =>
      var d := Apply(c, op);
      assert d.index[k] == b;
  }

  lemma {:induction false} UnpinKeepsPinned(c: Cache, d: Cache, x: int, k: int)
    requires Inv(c) && x in Pinned(c) && d == c.(lru := c.lru + [x])
    requires k in c.index && c.index[k] in Pinned(c) && c.index[k] != x
    ensures var e := EvictWhileOver(d);
      k in e.index && e.index[k] == c.index[k] && c.index[k] in Pinned(e)
  {
    assert Core(d);
    EvictWhileOverIs(d);
    var e := EvictWhileOver(d);
    assert c.index[k] in Pinned(d);
    EvictKeepsKeys(d);
    var j :| j in e.index && e.index[j] == c.index[k];
  }

  lemma {:induction false} EvictKeepsKeys(c: Cache)
    requires Core(c)
    ensures forall j :: j in EvictWhileOver(c).index ==> j in c.index && EvictWhileOver(c).index[j] == c.index[j]
    decreases |c.lru|
  {
    if |c.index| > c.max && c.lru != [] {
      assert c.lru[0] in c.lru;
      DropIs(c, c.lru[0]);
      EvictKeepsKeys(EvictLRU(c));
    }
  }

  /** At the bound, a fetch that allocates evicts exactly the page at the front of the
      list; below it, or with every page pinned, it evicts nothing. */
  lemma FetchEvictsFront(c: Cache, key: int, create: int, a: int)
    requires Inv(c) && key !in c.index && create != 0 && a !in Blocks(c)
    requires Fetch(c, key, create, Some(a)).1.Some?
    ensures var d := Fetch(c, key, create, Some(a)).0;
      Blocks(d) == (if |c.index| >= c.max && c.lru != [] then Blocks(c) - {c.lru[0]} else Blocks(c)) + {a}
  {
    MakeRoomIs(c);
    var room := MakeRoom(c);
    if |c.index| >= c.max && c.lru != [] {
      assert c.lru[0] in c.lru;
      DropIs(c, c.lru[0]);
    }
    AddedBlock(room, key, a);
  }

  // ---- the list is in unpin order ----

  /** When block `b` was last unpinned, counting calls; -1 if never. */
  function LastUnpin(ops: seq<Op>, b: int, i: nat): int
    requires i <= |ops|
  {
    if i == 0 then -1
    else if ops[i - 1] == Unpinning(b, false) then i - 1
    else LastUnpin(ops, b, i - 1)
  }

  ghost predicate Ordered(s: seq<int>, rank: int -> int) {
    forall p, q :: 0 <= p < q < |s| ==> rank(s[p]) < rank(s[q])
  }

  lemma {:induction false} RemoveOrdered(s: seq<int>, b: int, rank: int -> int)
    requires Ordered(s, rank)
    ensures Ordered(Remove(s, b), rank)
    decreases |s|
  {
    if s != [] {
      RemoveOrdered(s[1..], b, rank);
      var rest := Remove(s[1..], b);
      forall x | x in rest
        ensures rank(s[0]) < rank(x)
      {
        assert x in s[1..];
      }
    }
  }

  lemma {:induction false} KeepInOrdered(s: seq<int>, keep: set<int>, rank: int -> int)
    requires Ordered(s, rank)
    ensures Ordered(KeepIn(s, keep), rank)
    decreases |s|
  {
    if s != [] {
      KeepInOrdered(s[1..], keep, rank);
      var rest := KeepIn(s[1..], keep);
      forall x | x in rest
        ensures rank(s[0]) < rank(x)
      {
        assert x in s[1..];
      }
    }
  }

  lemma UnpinOrdered(c: Cache, b: int, rank: int -> int)
    requires Inv(c) && Legal(c, Unpinning(b, false)) && Ordered(c.lru, rank)
    requires forall x :: x in c.lru ==> rank(x) < rank(b)
    ensures Ordered(Unpin(c, b, false).lru, rank)
  {
    var d := c.(lru := c.lru + [b]);
    assert Core(d);
    EvictWhileOverIs(d);
    assert Ordered(d.lru, rank);
  }

  lemma ApplyOrdered(c: Cache, op: Op, rank: int -> int, rank': int -> int)
    requires Inv(c) && Legal(c, op) && Ordered(c.lru, rank)
    requires forall b :: b in c.lru ==> rank'(b) == rank(b)
    requires op.Unpinning? && !op.discard ==> forall b :: b in c.lru ==> rank(b) < rank'(op.b)
    ensures Ordered(Apply(c, op).lru, rank')
  {
    assert Ordered(c.lru, rank');
    match op
    case Fetching(key, create, mem) =>
      if key in c.index { RemoveOrdered(c.lru, c.index[key], rank'); }
      else if c.lru != [] { RemoveOrdered(c.lru, c.lru[0], rank'); }
    case Unpinning(b, discard) =>
      if discard { RemoveOrdered(c.lru, b, rank'); } else { UnpinOrdered(c, b, rank'); }
    case Rekeying(b, o, n) =>
      if n in c.index { RemoveOrdered(c.lru, c.index[n], rank'); }
    case Truncating(limit) => KeepInOrdered(c.lru, Blocks(Truncate(c, limit)), rank');
    case Shrinking =>
  }

  /** In every run the list holds the unpinned pages in the order of their last
      unpinning, so the page evicted first is the least recently unpinned one. */
  lemma {:induction false} ListIsUnpinOrder(cs: seq<Cache>, ops: seq<Op>, i: nat)
    requires IsRun(cs, ops) && i < |cs|
    ensures forall p, q :: 0 <= p < q < |cs[i].lru| ==>
      LastUnpin(ops, cs[i].lru[p], i) < LastUnpin(ops, cs[i].lru[q], i)
    decreases i
  {
    hide Inv, Apply;
    if i > 0 {
      ListIsUnpinOrder(cs, ops, i - 1);
      RunsKeepInv(cs, ops, i - 1);
      var c, op := cs[i - 1], ops[i - 1];
      var rank := (b: int) => LastUnpin(ops, b, i - 1);
      var rank' := (b: int) => LastUnpin(ops, b, i);
      var before := i - 1;
      forall b
        ensures LastUnpin(ops, b, before) < before
      {
        LastUnpinBefore(ops, b, before);
      }
      assert Ordered(c.lru, rank);
      ApplyOrdered(c, op, rank, rank');
      assert Ordered(cs[i].lru, rank');
      forall p, q | 0 <= p < q < |cs[i].lru|
        ensures LastUnpin(ops, cs[i].lru[p], i) < LastUnpin(ops, cs[i].lru[q], i)
      {
        assert rank'(cs[i].lru[p]) < rank'(cs[i].lru[q]);
      }
    }
  }

  // ---- and holds exactly the pages unpinned since they were last fetched ----

  /** The block a call hands out. */
  function Fetched(c: Cache, op: Op): Option<int> {
    if op.Fetching? then Fetch(c, op.key, op.create, op.mem).1 else None
  }

  /** When block `b` was last handed out, counting calls; -1 if never. */
  function LastFetch(cs: seq<Cache>, ops: seq<Op>, b: int, i: nat): int
    requires i <= |ops| < |cs|
  {
    if i == 0 then -1
    else if Fetched(cs[i - 1], ops[i - 1]) == Some(b) then i - 1
    else LastFetch(cs, ops, b, i - 1)
  }

  /** One call: who is on the list afterwards, and which pages can be new. */
  lemma ListedAfter(c: Cache, op: Op, b: int)
    requires Inv(c) && Legal(c, op)
    ensures var d := Apply(c, op);
      && (b in d.lru <==>
            b in Blocks(d) && (op == Unpinning(b, false) || (b in c.lru && Fetched(c, op) != Some(b))))
      && (b in Blocks(d) && b !in Blocks(c) ==> Fetched(c, op) == Some(b))
  {
    ApplyKeepsInv(c, op);
    match op
    case Fetching(key, create, mem) => FetchedListed(c, key, create, mem, b);
    case Unpinning(x, discard) => UnpinnedListed(c, x, discard, b);
    case Rekeying(x, o, n) => RekeyedListed(c, x, o, n, b);
    case Truncating(limit) =>
    case Shrinking =>
  }

  lemma FetchedListed(c: Cache, key: int, create: int, mem: Option<int>, b: int)
    requires Inv(c) && (mem.Some? ==> mem.value !in Blocks(c))
    ensures var (d, got) := Fetch(c, key, create, mem);
      && (b in d.lru <==> b in Blocks(d) && b in c.lru && got != Some(b))
      && (b in Blocks(d) && b !in Blocks(c) ==> got == Some(b))
  {
    if key !in c.index && create != 0 {
      MakeRoomIs(c);
      var room := MakeRoom(c);
      if room != c {
        assert c.lru[0] in c.lru;
        DropIs(c, c.lru[0]);
      }
      if mem.Some? { AddedBlock(room, key, mem.value); }
    }
  }

  lemma UnpinnedListed(c: Cache, x: int, discard: bool, b: int)
    requires Inv(c) && x in Pinned(c)
    ensures var d := Unpin(c, x, discard);
      && (b in d.lru <==> b in Blocks(d) && ((b == x && !discard) || b in c.lru))
      && (b in Blocks(d) ==> b in Blocks(c))
  {
    if discard {
      DropIs(c, x);
    } else {
      var e := c.(lru := c.lru + [x]);
      assert Core(e);
      EvictKeepsListed(e, b);
    }
  }

  lemma {:induction false} EvictKeepsListed(c: Cache, b: int)
    requires Core(c)
    ensures var d := EvictWhileOver(c);
      (b in d.lru <==> b in Blocks(d) && b in c.lru) && (b in Blocks(d) ==> b in Blocks(c))
    decreases |c.lru|
  {
    if |c.index| > c.max && c.lru != [] {
      assert c.lru[0] in c.lru;
      DropIs(c, c.lru[0]);
      EvictKeepsListed(EvictLRU(c), b);
    }
  }

  lemma RekeyedListed(c: Cache, x: int, oldKey: int, newKey: int, b: int)
    requires Inv(c) && Legal(c, Rekeying(x, oldKey, newKey))
    ensures var d := Rekey(c, x, oldKey, newKey);
      (b in d.lru <==> b in Blocks(d) && b in c.lru) && (b in Blocks(d) ==> b in Blocks(c))
  {
    var d := if newKey in c.index && c.index[newKey] != x then Drop(c, c.index[newKey]) else c;
    if d != c { DropIs(c, c.index[newKey]); }
    RekeyBlocks(d, x, oldKey, newKey);
  }

  /** In every run the list holds exactly the cached pages that were unpinned after they
      were last fetched; so a listed page has been unpinned at some time. */
  lemma {:induction false} ListIsUnpinned(cs: seq<Cache>, ops: seq<Op>, i: nat, b: int)
    requires IsRun(cs, ops) && i < |cs|
    ensures b in cs[i].lru <==> b in Blocks(cs[i]) && LastUnpin(ops, b, i) > LastFetch(cs, ops, b, i)
    ensures b in cs[i].lru ==> 0 <= LastUnpin(ops, b, i) < i
    decreases i
  {
    LastUnpinBefore(ops, b, i);
    LastFetchBefore(cs, ops, b, i);
    if i > 0 {
      ListIsUnpinned(cs, ops, i - 1, b);
      RunsKeepInv(cs, ops, i - 1);
      LastUnpinBefore(ops, b, i - 1);
      LastFetchBefore(cs, ops, b, i - 1);
      var op := ops[i - 1];
      ListedAfter(cs[i - 1], op, b);
    }
  }

  lemma {:induction false} LastFetchBefore(cs: seq<Cache>, ops: seq<Op>, b: int, i: nat)
    requires i <= |ops| < |cs|
    ensures -1 <= LastFetch(cs, ops, b, i) < i
    decreases i
  {
    if i > 0 { LastFetchBefore(cs, ops, b, i - 1); }
  }

  lemma {:induction false} LastUnpinBefore(ops: seq<Op>, b: int, i: nat)
    requires i <= |ops|
    ensures LastUnpin(ops, b, i) < i
    decreases i
  {
    if i > 0 { LastUnpinBefore(ops, b, i - 1); }
  }
}
