/** The page cache object (lruCache in pcache/pcache.go). A page object is named by
    the address of its C block: byKey leads to that name, byPtr to the record. */
module LruCaches {
  import opened Bytes
  import PC = PageCache

  /** `onList` is the page's list element being set. */
  datatype PcPage = PcPage(key: int, pinned: bool, onList: bool)

  datatype Stats = Stats(hits: int, misses: int, evictions: int, pages: int)

  /** The process-wide counters (gStats), one object shared by every cache. */
  class Counters {
    var now: Stats

    constructor ()
      ensures now == Stats(0, 0, 0, 0)
    {
      now := Stats(0, 0, 0, 0);
    }
  }

  class LruCache {
    var byKey: map<int, int>
    var byPtr: map<int, PcPage>
    var lru: seq<int>
    const counters: Counters
    const maxPages: int

    /** The two maps index the same pages. */
    ghost predicate Indexed()
      reads this`byKey, this`byPtr
    {
      Index(byKey, byPtr)
    }

    static ghost predicate Index(byKey: map<int, int>, byPtr: map<int, PcPage>) {
      && (forall k :: k in byKey ==> byKey[k] in byPtr && byPtr[byKey[k]].key == k)
      && (forall b :: b in byPtr ==> byPtr[b].key in byKey && byKey[byPtr[b].key] == b)
    }

    static lemma RekeyIndexed(byKey: map<int, int>, byPtr: map<int, PcPage>, b: int, oldKey: int, newKey: int)
      requires Index(byKey, byPtr) && b in byPtr && byPtr[b].key == oldKey && (newKey in byKey ==> newKey == oldKey)
      ensures oldKey in byKey && Index((byKey - {oldKey})[newKey := b], byPtr[b := byPtr[b].(key := newKey)])
    {
    }

    /** The list holds exactly the unpinned pages; the page `but` may be on its way out. */
    ghost predicate Listed(but: Option<int>)
      reads this`byPtr, this`lru
    {
      && (forall b :: b in lru ==> b in byPtr)
      && (forall b :: b in byPtr ==> (byPtr[b].onList <==> b in lru))
      && (forall b :: b in byPtr && Some(b) != but ==> (byPtr[b].pinned <==> b !in lru))
    }

    ghost function View(): PC.Cache
      reads this
    {
      PC.Cache(byKey, lru, maxPages)
    }

    ghost predicate Valid()
      reads this
    {
      Indexed() && Listed(None) && PC.Inv(View())
    }

    constructor (maxPages: int, counters: Counters)
      ensures Valid() && View() == PC.Cache(map[], [], maxPages) && byKey == map[] && this.counters == counters
    {
      this.maxPages, this.counters := maxPages, counters;
      byKey, byPtr, lru := map[], map[], [];
    }

    lemma SameBlocks()
      requires Indexed()
      ensures PC.Blocks(View()) == byPtr.Keys
    {
      forall b | b in byPtr
        ensures b in PC.Blocks(View())
      {
        assert View().index[byPtr[b].key] == b;
      }
    }

    /** freePage: out of the list and both maps; one page fewer on the gauge. */
    method FreePage(b: int)
      requires Indexed() && Listed(Some(b)) && b in byPtr
      modifies this, counters
      ensures Indexed() && Listed(None)
      ensures View() == PC.Drop(old(View()), b)
      ensures counters.now == old(counters.now).(pages := old(counters.now.pages) - 1)
      ensures byPtr == old(byPtr) - {b} && |byKey| == |old(byKey)| - 1
      ensures byKey == old(byKey) - {old(byPtr)[b].key}
    {
      if byPtr[b].onList {
        lru := PC.Remove(lru, b);
      }
      byKey := byKey - {byPtr[b].key};
      byPtr := byPtr - {b};
      counters.now := counters.now.(pages := counters.now.pages - 1);
      assert byKey.Keys == old(byKey).Keys - {old(byPtr)[b].key};
      SameMap(byKey, PC.Drop(old(View()), b).index);
    }

    /** evictLRU: drop the front of the list, if there is one. */
    method EvictLRU() returns (evicted: bool)
      requires Indexed() && Listed(None)
      modifies this, counters
      ensures Indexed() && Listed(None)
      ensures evicted == (old(lru) != [])
      ensures evicted ==> View() == PC.EvictLRU(old(View())) && |byKey| == |old(byKey)| - 1
      ensures evicted ==>
        counters.now == old(counters.now).(
          evictions := old(counters.now.evictions) + 1, pages := old(counters.now.pages) - 1)
      ensures !evicted ==> View() == old(View()) && counters.now == old(counters.now) && byPtr == old(byPtr)
    {
      if lru == [] {
        return false;
      }
      assert lru[0] in lru;
      FreePage(lru[0]);
      counters.now := counters.now.(evictions := counters.now.evictions + 1);
      evicted := true;
    }

    /** allocPage: a pinned page in both maps; nothing if calloc failed. */
    method AllocPage(key: int, mem: Option<int>) returns (p: Option<int>)
      requires Indexed() && Listed(None) && key !in byKey && (mem.Some? ==> mem.value !in byPtr)
      modifies this, counters
      ensures Indexed() && Listed(None) && p == mem
      ensures p.None? ==> View() == old(View()) && counters.now == old(counters.now) && byPtr == old(byPtr)
      ensures p.Some? ==>
        && View() == old(View()).(index := old(View()).index[key := p.value])
        && byPtr == old(byPtr)[p.value := PcPage(key, true, false)]
        && counters.now == old(counters.now).(pages := old(counters.now.pages) + 1)
        && |byKey| == |old(byKey)| + 1
    {
      if mem.None? {
        return None;
      }
      byKey := byKey[key := mem.value];
      byPtr := byPtr[mem.value := PcPage(key, true, false)];
      counters.now := counters.now.(pages := counters.now.pages + 1);
      return mem;
    }

    /** Take a page off the list, if it is there. */
    method Pin(b: int)
      requires Indexed() && Listed(None) && b in byPtr
      modifies this`lru, this`byPtr
      ensures Indexed() && Listed(None)
      ensures lru == PC.Remove(old(lru), b)
      ensures byPtr == old(byPtr)[b := old(byPtr)[b].(pinned := true, onList := false)]
    {
      if !byPtr[b].pinned {
        if byPtr[b].onList {
          lru := PC.Remove(lru, b);
        }
        byPtr := byPtr[b := byPtr[b].(onList := false, pinned := true)];
      }
    }

    /** xFetch. `mem` is what calloc returns if it is called. */
    method Fetch(key: int, create: int, mem: Option<int>) returns (block: Option<int>)
      requires Valid() && (mem.Some? ==> mem.value !in byPtr)
      modifies this, counters
      ensures Valid()
      ensures (View(), block) == PC.Fetch(old(View()), key, create, mem)
      ensures counters.now.pages - old(counters.now.pages) == |byKey| - |old(byKey)|
      ensures counters.now.evictions == old(counters.now.evictions) +
        if key !in old(byKey) && create != 0 && |old(byKey)| >= maxPages && old(lru) != [] then 1 else 0
      ensures key in old(byKey) ==>
        counters.now.hits == old(counters.now.hits) + 1 && counters.now.misses == old(counters.now.misses)
      ensures key !in old(byKey) ==>
        counters.now.misses == old(counters.now.misses) + 1 && counters.now.hits == old(counters.now.hits)
      ensures block.Some? ==> block.value in byPtr && byPtr[block.value].pinned && byPtr[block.value].key == key
    {
      hide PC.Inv, PC.Blocks, Listed;
      SameBlocks();
      PC.FetchKeepsInv(View(), key, create, mem);
      if key in byKey {
        Pin(byKey[key]);
        counters.now := counters.now.(hits := counters.now.hits + 1);
        return Some(byKey[key]);
      }
      counters.now := counters.now.(misses := counters.now.misses + 1);
      if create == 0 {
        return None;
      }
      if |byKey| >= maxPages {
        var evicted := EvictLRU();
        if !evicted && create == 1 {
          return None;
        }
      }
      assert View() == PC.MakeRoom(old(View()));
      block := AllocPage(key, mem);
    }

    lemma OffList(b: int)
      requires Listed(None) && (b in byPtr ==> byPtr[b].pinned)
      ensures b !in lru
    {
    }

    /** An unpinned page that is freed at once. */
    method Discard(b: int)
      requires Indexed() && Listed(None) && b in byPtr && byPtr[b].pinned
      modifies this, counters
      ensures Indexed() && Listed(None)
      ensures View() == PC.Drop(old(View()), b)
      ensures counters.now == old(counters.now).(pages := old(counters.now.pages) - 1) && |byKey| == |old(byKey)| - 1
    {
      byPtr := byPtr[b := byPtr[b].(pinned := false)];
      FreePage(b);
    }

    /** An unpinned page goes to the back of the list. */
    method PushBack(b: int)
      requires Indexed() && Listed(None) && b in byPtr && byPtr[b].pinned
      modifies this`byPtr, this`lru
      ensures Indexed() && Listed(None) && lru == old(lru) + [b]
    {
      byPtr := byPtr[b := byPtr[b].(pinned := false)];
      lru := lru + [b];
      byPtr := byPtr[b := byPtr[b].(onList := true)];
    }

    /** xUnpin: discard the page, or put it at the back of the list and evict from the
        front while the bound is exceeded. An unknown page is ignored. */
    method Unpin(b: int, discard: bool)
      requires Valid() && (b in byPtr ==> byPtr[b].pinned)
      modifies this, counters
      ensures Valid()
      ensures View() == PC.Unpin(old(View()), b, discard)
      ensures counters.now.pages - old(counters.now.pages) == |byKey| - |old(byKey)|
      ensures counters.now == old(counters.now).(pages := counters.now.pages, evictions := counters.now.evictions)
      ensures counters.now.evictions == old(counters.now.evictions) + if discard then 0 else |old(byKey)| - |byKey|
    {
      hide PC.Inv, PC.Blocks, Listed;
      SameBlocks();
      OffList(b);
      PC.UnpinKeepsInv(View(), b, discard);
      if b !in byPtr {
        return;
      }
      if discard {
        Discard(b);
        return;
      }
      PushBack(b);
      ghost var pushed := View();
      while |byKey| > maxPages
        invariant Indexed() && Listed(None)
        invariant PC.EvictWhileOver(View()) == PC.EvictWhileOver(pushed)
        invariant counters.now.pages - old(counters.now.pages) == |byKey| - |old(byKey)|
        invariant counters.now == old(counters.now).(pages := counters.now.pages, evictions := counters.now.evictions)
        invariant counters.now.evictions == old(counters.now.evictions) + |old(byKey)| - |byKey|
        decreases |byKey|
      {
        var evicted := EvictLRU();
        if !evicted {
          break;
        }
      }
    }

    /** xRekey: move a page to a new key, discarding an unpinned page in the way. */
    method Rekey(b: int, oldKey: int, newKey: int)
      requires Valid() && (b in byPtr ==> byPtr[b].key == oldKey)
      modifies this, counters
      ensures Valid()
      ensures View() == PC.Rekey(old(View()), b, oldKey, newKey)
      ensures counters.now.pages - old(counters.now.pages) == |byKey| - |old(byKey)|
      ensures counters.now == old(counters.now).(pages := counters.now.pages)
    {
      hide PC.Inv, PC.Blocks;
      SameBlocks();
      PC.RekeyKeepsInv(View(), b, oldKey, newKey);
      if b !in byPtr {
        return;
      }
      if newKey in byKey && byKey[newKey] != b {
        FreePage(byKey[newKey]);
      }
      MoveKey(b, oldKey, newKey);
    }

    method MoveKey(b: int, oldKey: int, newKey: int)
      requires Indexed() && Listed(None)
      requires b in byPtr && byPtr[b].key == oldKey && (newKey in byKey ==> newKey == oldKey)
      modifies this`byKey, this`byPtr
      ensures Indexed() && Listed(None)
      ensures byKey == (old(byKey) - {oldKey})[newKey := b] && |byKey| == |old(byKey)|
    {
      hide Index;
      RekeyIndexed(byKey, byPtr, b, oldKey, newKey);
      RekeySize(byKey, b, oldKey, newKey);
      byKey := byKey - {oldKey};
      byPtr := byPtr[b := byPtr[b].(key := newKey)];
      byKey := byKey[newKey := b];
    }

    static lemma RekeySize(m: map<int, int>, b: int, oldKey: int, newKey: int)
      requires oldKey in m && (newKey in m ==> newKey == oldKey)
      ensures |(m - {oldKey})[newKey := b]| == |m|
    {
      assert ((m - {oldKey})[newKey := b]).Keys == (m.Keys - {oldKey}) + {newKey};
    }

    lemma ListInBlocks()
      requires Indexed() && Listed(None)
      ensures forall b :: b in lru ==> b in PC.BlocksIn(byKey)
    {
      SameBlocks();
    }

    method FreeKey(k: int, ghost list: seq<int>)
      requires Indexed() && Listed(None) && k in byKey && lru == PC.KeepIn(list, PC.BlocksIn(byKey))
      modifies this, counters
      ensures Indexed() && Listed(None)
      ensures byKey == old(byKey) - {k} && |byKey| == |old(byKey)| - 1
      ensures lru == PC.KeepIn(list, PC.BlocksIn(byKey))
      ensures counters.now == old(counters.now).(pages := old(counters.now.pages) - 1)
    {
      hide PC.KeepIn;
      SameBlocks();
      var b := byKey[k];
      FreePage(b);
      SameBlocks();
      PC.RemoveFromKept(list, PC.BlocksIn(old(byKey)), b);
    }

    /** xTruncate: drop every page whose key is at or past the limit, pinned or not. */
    method Truncate(limit: int)
      requires Valid()
      modifies this, counters
      ensures Valid()
      ensures View() == PC.Truncate(old(View()), limit)
      ensures counters.now.pages - old(counters.now.pages) == |byKey| - |old(byKey)|
      ensures counters.now == old(counters.now).(pages := counters.now.pages)
    {
      hide PC.Inv, PC.KeepIn, PC.BlocksIn, Indexed, Listed;
      PC.TruncateKeepsInv(View(), limit);
      ListInBlocks();
      var rest := byKey.Keys;
      ghost var dropped: set<int> := {};
      PC.KeepAll(lru, PC.BlocksIn(byKey));
      assert byKey - {} == byKey;
      while rest != {}
        invariant Indexed() && Listed(None) && rest <= old(byKey).Keys
        invariant dropped == set k | k in old(byKey) && k !in rest && k >= limit
        invariant byKey == old(byKey) - dropped
        invariant lru == PC.KeepIn(old(lru), PC.BlocksIn(byKey))
        invariant counters.now.pages - old(counters.now.pages) == |byKey| - |old(byKey)|
        invariant counters.now == old(counters.now).(pages := counters.now.pages)
        decreases rest
      {
        SomeMember(rest);
        var k :| k in rest;
        rest := rest - {k};
        if k >= limit {
          FreeKey(k, old(lru));
          dropped := dropped + {k};
          assert byKey == old(byKey) - dropped;
        }
      }
      PC.TruncatedIndex(old(View()), limit, dropped);
    }

    /** xShrink: evict every unpinned page. */
    method Shrink()
      requires Valid()
      modifies this, counters
      ensures Valid()
      ensures View() == PC.Shrink(old(View()))
      ensures counters.now.pages - old(counters.now.pages) == |byKey| - |old(byKey)|
      ensures counters.now == old(counters.now).(pages := counters.now.pages, evictions := counters.now.evictions)
      ensures counters.now.evictions == old(counters.now.evictions) + |old(byKey)| - |byKey|
    {
      PC.ShrinkKeepsInv(View());
      var going := true;
      while going
        invariant Indexed() && Listed(None) && PC.Core(View())
        invariant PC.Shrink(View()) == PC.Shrink(old(View()))
        invariant counters.now.pages - old(counters.now.pages) == |byKey| - |old(byKey)|
        invariant counters.now == old(counters.now).(pages := counters.now.pages, evictions := counters.now.evictions)
        invariant counters.now.evictions == old(counters.now.evictions) + |old(byKey)| - |byKey|
        invariant !going ==> lru == []
        decreases |byKey|, going
      {
        ghost var c := View();
        if lru != [] { PC.ShrinkAfterEvict(c); }
        going := EvictLRU();
      }
      assert View() == PC.Shrink(View());
    }

    /** xDestroy: every page is freed and leaves the gauge. */
    method Destroy()
      requires Valid()
      modifies this, counters
      ensures View() == PC.Cache(map[], [], maxPages) && Valid()
      ensures counters.now == old(counters.now).(pages := old(counters.now.pages) - |old(byKey)|)
    {
      var rest := byKey.Keys;
      while rest != {}
        invariant byKey == old(byKey)
        invariant |rest| <= |byKey|
        invariant counters.now == old(counters.now).(pages := old(counters.now.pages) - (|byKey| - |rest|))
        decreases rest
      {
        SomeMember(rest);
        var k :| k in rest;
        counters.now := counters.now.(pages := counters.now.pages - 1);
        rest := rest - {k};
      }
      byKey, byPtr, lru := map[], map[], [];
    }
  }
}
