/** Every page cache of one process (the handle registry and gStats in pcache/pcache.go):
    caches come and go, and all of them move the same counters. */
module CacheProcess {
  import opened Bytes
  import opened LruCaches
  import opened PageCache
  import Laws = PageCacheLaws

  // ---- adding up ----

  ghost function Total(sizes: map<int, int>): int
    decreases |sizes|
  {
    if sizes == map[] then 0
    else
      SomeKey(sizes);
      var id :| id in sizes;
      assert |sizes - {id}| < |sizes| by { assert (sizes - {id}).Keys == sizes.Keys - {id}; }
      sizes[id] + Total(sizes - {id})
  }

  lemma {:induction false} TotalAnyOrder(sizes: map<int, int>, id: int)
    requires id in sizes
    ensures Total(sizes) == sizes[id] + Total(sizes - {id})
    decreases |sizes|
  {
    var j :| j in sizes && Total(sizes) == sizes[j] + Total(sizes - {j});
    if j != id {
      assert (sizes - {j}).Keys == sizes.Keys - {j} && (sizes - {id}).Keys == sizes.Keys - {id};
      TotalAnyOrder(sizes - {j}, id);
      TotalAnyOrder(sizes - {id}, j);
      assert sizes - {j} - {id} == sizes - {id} - {j};
    }
  }

  lemma TotalSet(sizes: map<int, int>, id: int, n: int)
    ensures Total(sizes[id := n]) == Total(sizes) + n - (if id in sizes then sizes[id] else 0)
  {
    hide Total;
    var after := sizes[id := n];
    TotalAnyOrder(after, id);
    SameMap(after - {id}, sizes - {id});
    if id in sizes { TotalAnyOrder(sizes, id); } else { SameMap(sizes - {id}, sizes); }
  }

  // ---- the process ----

  datatype Event = Create | Call(id: int, op: Laws.Op) | Destroy(id: int)

  /** How many pages each cache holds. */
  ghost function SizesOf(w: map<int, Cache>): map<int, int> {
    map id | id in w :: |w[id].index|
  }

  /** What one event does to the caches of a process. A callback that SQLite would not make may
      also be without effect. */
  ghost predicate Moves(max: int, w: map<int, Cache>, e: Event, x: map<int, Cache>) {
    match e
    case Create => exists id :: id !in w && x == w[id := Cache(map[], [], max)]
    case Call(id, op) =>
      if id in w then x == w[id := Laws.Apply(w[id], op)] || (x == w && !Laws.Legal(w[id], op)) else x == w
    case Destroy(id) => x == w - {id}
  }

  class Process {
    const counters: Counters
    const maxPages: int
    var caches: map<int, LruCache>

    /** The caches as values. */
    ghost function Views(): map<int, Cache>
      reads this, caches.Values
    {
      map id | id in caches :: caches[id].View()
    }

    /** Different handles are different caches, all on the process's counters. */
    ghost predicate Registered()
      reads this
    {
      && (forall id :: id in caches ==> caches[id].counters == counters)
      && (forall i, j :: i in caches && j in caches && caches[i] == caches[j] ==> i == j)
    }

    ghost predicate Valid()
      reads this, counters, caches.Values
    {
      && Registered()
      && (forall id :: id in caches ==> caches[id].Valid())
      && counters.now.pages == Total(SizesOf(Views()))
    }

    constructor (maxPages: int)
      ensures Valid() && caches == map[] && fresh(counters) && this.maxPages == maxPages
    {
      this.maxPages := maxPages;
      caches := map[];
      counters := new Counters();
    }

    /** xCreate: a handle no live cache has. */
    method Create() returns (id: int)
      requires Valid()
      modifies this`caches
      ensures Valid() && id !in old(caches) && id in caches && fresh(caches[id])
      ensures caches == old(caches)[id := caches[id]]
      ensures Views() == old(Views())[id := Cache(map[], [], maxPages)]
    {
      hide Total, LruCache.Valid, SizesOf;
      id := Unused(caches.Keys);
      var c := new LruCache(maxPages, counters);
      Register(id, c);
    }

    method Register(id: int, c: LruCache)
      requires Valid() && id !in caches && c.Valid() && c.counters == counters
      requires c.View() == Cache(map[], [], maxPages)
      requires forall j :: j in caches ==> caches[j] != c
      modifies this`caches
      ensures Valid() && caches == old(caches)[id := c]
      ensures Views() == old(Views())[id := Cache(map[], [], maxPages)]
    {
      hide Total, LruCache.Valid, LruCache.View, SizesOf;
      ghost var before := Views();
      caches := caches[id := c];
      SameMap(Views(), before[id := Cache(map[], [], maxPages)]);
      SizeSet(before, id, Cache(map[], [], maxPages));
    }

    static method Unused(used: set<int>) returns (x: int)
      ensures x !in used
    {
      x := 1;
      ghost var rest := used;
      while x in used
        invariant rest <= used && forall y :: y in used && y >= x ==> y in rest
        decreases rest
      {
        rest := rest - {x};
        x := x + 1;
      }
    }

    /** What one call on one cache leaves of the rest. */
    twostate lemma OthersStand(id: int)
      requires old(Valid()) && id in caches && caches == old(caches) && Registered()
      requires caches[id].Valid()
      requires forall j :: j in caches && j != id ==> unchanged(caches[j])
      requires counters.now.pages - old(counters.now.pages) == |caches[id].byKey| - old(|caches[id].byKey|)
      ensures Valid() && Views() == old(Views())[id := caches[id].View()]
    {
      hide Total, SizesOf;
      SameMap(Views(), old(Views())[id := caches[id].View()]);
      SizeSet(old(Views()), id, caches[id].View());
    }

    /** One callback on one cache. SQLite unpins only pinned pages and rekeys a page from
        its own key, and calloc returns no block in use; any other call does nothing here. */
    method Call(id: int, op: Laws.Op)
      requires Valid() && id in caches
      modifies caches[id], counters
      ensures Valid() && caches == old(caches)
      ensures Moves(maxPages, old(Views()), Event.Call(id, op), Views())
    {
      hide Total, LruCache.Valid, SizesOf, Laws.Legal;
      var c := caches[id];
      match op {
        case Fetching(key, create, mem) =>
          if mem.None? || mem.value !in c.byPtr {
            var _ := c.Fetch(key, create, mem);
          } else {
            BlockInUse(c, key, create, mem.value);
          }
        case Unpinning(b, discard) =>
          if b in c.byPtr ==> c.byPtr[b].pinned { c.Unpin(b, discard); } else { NotPinned(c, b, discard); }
        case Rekeying(b, o, n) =>
          if b in c.byPtr ==> c.byPtr[b].key == o { c.Rekey(b, o, n); } else { NotItsKey(c, b, o, n); }
        case Truncating(limit) => c.Truncate(limit);
        case Shrinking => c.Shrink();
      }
      OthersStand(id);
      assert old(Views())[id := old(Views())[id]] == old(Views());
    }

    /** xDestroy: the pages leave the gauge and the handle leaves the registry. */
    method Destroy(id: int)
      requires Valid() && id in caches
      modifies this`caches, caches[id], counters
      ensures Valid() && caches == old(caches) - {id} && Views() == old(Views()) - {id}
    {
      hide Total, LruCache.Valid, SizesOf;
      ghost var before := Views();
      SizeDropped(before, id);
      caches[id].Destroy();
      Forget(id, before);
    }

    /** The emptied cache leaves the registry. */
    method Forget(id: int, ghost before: map<int, Cache>)
      requires Registered() && id in caches && before.Keys == caches.Keys
      requires forall j :: j in caches && j != id ==> caches[j].Valid() && caches[j].View() == before[j]
      requires counters.now.pages == Total(SizesOf(before - {id}))
      modifies this`caches
      ensures Valid() && caches == old(caches) - {id} && Views() == before - {id}
    {
      hide Total, LruCache.Valid, LruCache.View, SizesOf;
      caches := caches - {id};
      SameMap(Views(), before - {id});
    }
  }

  // A call that the source would carry out blindly and that SQLite never makes.

  lemma BlockInUse(c: LruCache, key: int, create: int, b: int)
    requires c.Valid() && b in c.byPtr
    ensures !Laws.Legal(c.View(), Laws.Fetching(key, create, Some(b)))
  {
    c.SameBlocks();
  }

  lemma NotPinned(c: LruCache, b: int, discard: bool)
    requires c.Valid() && b in c.byPtr && !c.byPtr[b].pinned
    ensures !Laws.Legal(c.View(), Laws.Unpinning(b, discard))
  {
  }

  lemma NotItsKey(c: LruCache, b: int, o: int, n: int)
    requires c.Valid() && b in c.byPtr && c.byPtr[b].key != o
    ensures !Laws.Legal(c.View(), Laws.Rekeying(b, o, n))
  {
  }

  lemma SizeSet(w: map<int, Cache>, id: int, c: Cache)
    ensures Total(SizesOf(w[id := c])) == Total(SizesOf(w)) + |c.index| - (if id in w then |w[id].index| else 0)
  {
    hide Total;
    TotalSet(SizesOf(w), id, |c.index|);
    SameMap(SizesOf(w[id := c]), SizesOf(w)[id := |c.index|]);
  }

  lemma SizeDropped(w: map<int, Cache>, id: int)
    requires id in w
    ensures Total(SizesOf(w - {id})) == Total(SizesOf(w)) - |w[id].index|
  {
    hide Total;
    TotalAnyOrder(SizesOf(w), id);
    SameMap(SizesOf(w - {id}), SizesOf(w) - {id});
  }

  /** Over any interleaving of creations, callbacks and destructions on any number of cache objects
      the caches move as their values do, and the shared gauge is the number of pages they hold. */
  method GaugeIsExact(maxPages: int, events: seq<Event>)
      returns (p: Process, log: seq<int>, ghost held: seq<map<int, Cache>>)
    ensures |log| == |held| == |events| + 1 && held[0] == map[]
    ensures forall i {:trigger events[i]} :: 0 <= i < |events| ==> Moves(maxPages, held[i], events[i], held[i + 1])
    ensures forall i :: 0 <= i <= |events| ==> log[i] == Total(SizesOf(held[i]))
    ensures p.Valid() && p.Views() == held[|events|] && p.counters.now.pages == log[|events|]
  {
    hide Total, LruCache.Valid, SizesOf, Moves;
    p := new Process(maxPages);
    log, held := [p.counters.now.pages], [p.Views()];
    for i := 0 to |events|
      invariant fresh(p) && fresh(p.counters) && p.Valid() && p.maxPages == maxPages
      invariant forall id :: id in p.caches ==> fresh(p.caches[id])
      invariant |log| == |held| == i + 1 && held[0] == map[]
      invariant held[i] == p.Views() && log[i] == p.counters.now.pages
      invariant forall j {:trigger events[j]} :: 0 <= j < i ==> Moves(maxPages, held[j], events[j], held[j + 1])
      invariant forall j :: 0 <= j <= i ==> log[j] == Total(SizesOf(held[j]))
    {
      ghost var before := p.Views();
      Still(maxPages, before, events[i]);
      match events[i] {
        case Create =>
          var id := p.Create();
          Created(maxPages, before, id);
        case Call(id, op) => if id in p.caches { p.Call(id, op); }
        case Destroy(id) =>
          if id in p.caches { p.Destroy(id); }
          Destroyed(maxPages, before, id);
      }
      log, held := log + [p.counters.now.pages], held + [p.Views()];
    }
  }

  lemma Created(max: int, w: map<int, Cache>, id: int)
    requires id !in w
    ensures Moves(max, w, Create, w[id := Cache(map[], [], max)])
  {
  }

  lemma Destroyed(max: int, w: map<int, Cache>, id: int)
    ensures Moves(max, w, Destroy(id), w - {id})
  {
  }

  /** An event on a handle no cache has. */
  lemma Still(max: int, w: map<int, Cache>, e: Event)
    ensures !e.Create? && e.id !in w ==> Moves(max, w, e, w)
  {
    if e.Destroy? && e.id !in w { assert w - {e.id} == w; }
  }

  // ---- each cache by itself ----

  /** The calls on cache `id` among events `from` to `upto`, and its values around them. */
  function OpsOf(events: seq<Event>, id: int, from: nat, upto: nat): seq<Laws.Op>
    requires from <= upto <= |events|
  {
    if upto == from then []
    else
      var ops := OpsOf(events, id, from, upto - 1);
      if events[upto - 1].Call? && events[upto - 1].id == id then ops + [events[upto - 1].op] else ops
  }

  ghost function RunOf(held: seq<map<int, Cache>>, events: seq<Event>, id: int, from: nat, upto: nat): seq<Cache>
    requires from <= upto <= |events| < |held| && forall n :: from <= n <= upto ==> id in held[n]
  {
    if upto == from then [held[from][id]]
    else
      var cs := RunOf(held, events, id, from, upto - 1);
      if events[upto - 1].Call? && events[upto - 1].id == id then cs + [held[upto][id]] else cs
  }

  /** In every such history of a process, what happens upto one cache object from its creation on is a
      run of the cache, so every law of runs holds of it. */
  lemma {:induction false} EachCacheRuns(max: int, held: seq<map<int, Cache>>, events: seq<Event>, id: int, from: nat,
                                         upto: nat)
    requires from <= upto <= |events| && |held| == |events| + 1 && forall n :: from <= n <= upto ==> id in held[n]
    requires forall i {:trigger events[i]} :: 0 <= i < |events| ==> Moves(max, held[i], events[i], held[i + 1])
    requires held[from][id] == Cache(map[], [], max)
    requires forall n {:trigger events[n]} :: from <= n < upto && events[n].Call? && events[n].id == id ==>
      Laws.Legal(held[n][id], events[n].op)
    ensures var cs := RunOf(held, events, id, from, upto);
      Laws.IsRun(cs, OpsOf(events, id, from, upto)) && cs[|cs| - 1] == held[upto][id]
    decreases upto
  {
    hide Laws.Apply, Laws.Legal;
    if upto > from {
      EachCacheRuns(max, held, events, id, from, upto - 1);
      var e := events[upto - 1];
      Untouched(max, held[upto - 1], e, held[upto], id);
      if e.Call? && e.id == id {
        RunGoesOn(RunOf(held, events, id, from, upto - 1), OpsOf(events, id, from, upto - 1), e.op, held[upto][id]);
      }
    }
  }

  lemma Untouched(max: int, w: map<int, Cache>, e: Event, x: map<int, Cache>, id: int)
    requires Moves(max, w, e, x) && id in w && id in x
    ensures !(e.Call? && e.id == id) ==> x[id] == w[id]
    ensures e.Call? && e.id == id && Laws.Legal(w[id], e.op) ==> x[id] == Laws.Apply(w[id], e.op)
  {
  }

  lemma RunGoesOn(cs: seq<Cache>, ops: seq<Laws.Op>, op: Laws.Op, c: Cache)
    requires Laws.IsRun(cs, ops) && Laws.Legal(cs[|cs| - 1], op) && c == Laws.Apply(cs[|cs| - 1], op)
    ensures Laws.IsRun(cs + [c], ops + [op])
  {
    hide Laws.Apply, Laws.Legal;
    var ds, os := cs + [c], ops + [op];
    forall i | 0 <= i < |os| ensures Laws.Legal(ds[i], os[i]) && ds[i + 1] == Laws.Apply(ds[i], os[i]) {
      if i < |ops| { assert os[i] == ops[i]; }
    }
  }
}
