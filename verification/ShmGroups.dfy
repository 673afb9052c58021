/** Lifetime of WAL shared-memory groups (attachShm, detachShm and xShmMap in
    vfs/shm.go). A group is found by key, counted by attached files, and its C
    regions are freed after the last file leaves - in a critical section of their
    own, so a new group may already exist under the same key. */
module ShmGroups {
  import opened Bytes

  type Key = string

  datatype Group = Group(key: Key, refs: int, regions: seq<int>)

  /** Groups are pointers; `heap` is the set of live C allocations. `dying` holds the
      groups between their last detach and the freeing of their regions. */
  datatype Shm = Shm(
    registry: map<Key, int>, groups: map<int, Group>, attached: map<int, int>, dying: set<int>, heap: set<int>)

  const EMPTY: Shm := Shm(map[], map[], map[], {}, {})

  // ---- the critical sections ----

  datatype Event =
    | Attach(f: int, k: Key, g: int)
    | Grow(f: int, addrs: seq<int>)
    | Detach(f: int)
    | Free(g: int)

  ghost predicate Fresh(heap: set<int>, addrs: seq<int>) {
    && (forall i :: 0 <= i < |addrs| ==> addrs[i] !in heap)
    && (forall i, j :: 0 <= i < j < |addrs| ==> addrs[i] != addrs[j])
  }

  ghost predicate Enabled(s: Shm, e: Event) {
    match e
    case Attach(f, k, g) =>
      f !in s.attached && if k in s.registry then g == s.registry[k] && g in s.groups else g !in s.groups
    case Grow(f, addrs) => f in s.attached && s.attached[f] in s.groups && Fresh(s.heap, addrs)
    case Detach(f) => f in s.attached && s.attached[f] in s.groups
    case Free(g) => g in s.dying && g in s.groups
  }

  function Elems(a: seq<int>): set<int> {
    set x | x in a
  }

  function Next(s: Shm, e: Event): Shm
    requires Enabled(s, e)
  {
    match e
    case Attach(f, k, g) =>
      var grp := if k in s.registry then s.groups[g] else Group(k, 0, []);
      s.(registry := s.registry[k := g],
         groups := s.groups[g := grp.(refs := grp.refs + 1)],
         attached := s.attached[f := g])
    case Grow(f, addrs) =>
      var g := s.attached[f];
      s.(groups := s.groups[g := s.groups[g].(regions := s.groups[g].regions + addrs)],
         heap := s.heap + Elems(addrs))
    case Detach(f) =>
      var g := s.attached[f];
      var grp := s.groups[g].(refs := s.groups[g].refs - 1);
      Shm(if grp.refs == 0 then s.registry - {grp.key} else s.registry,
          s.groups[g := grp],
          s.attached - {f},
          if grp.refs == 0 then s.dying + {g} else s.dying,
          s.heap)
    case Free(g) =>
      s.(groups := s.groups[g := s.groups[g].(regions := [])],
         dying := s.dying - {g},
         heap := s.heap - Elems(s.groups[g].regions))
  }

  // ---- the invariant ----

  function Files(attached: map<int, int>, g: int): set<int> {
    set f | f in attached && attached[f] == g
  }

  /** refs is the number of attached files, and a group is registered under its key
      exactly while that number is positive. */
  ghost predicate Counted(s: Shm) {
    && (forall f :: f in s.attached ==> s.attached[f] in s.groups)
    && (forall g :: g in s.groups ==> s.groups[g].refs == |Files(s.attached, g)|)
    && (forall g :: g in s.groups && s.groups[g].refs > 0 ==>
          s.groups[g].key in s.registry && s.registry[s.groups[g].key] == g)
    && (forall k :: k in s.registry ==>
          s.registry[k] in s.groups && s.groups[s.registry[k]].refs > 0 && s.groups[s.registry[k]].key == k)
    && (forall g :: g in s.dying ==> g in s.groups && s.groups[g].refs == 0)
  }

  ghost predicate Apart(a: seq<int>, b: seq<int>) {
    forall i, j :: 0 <= i < |a| && 0 <= j < |b| ==> a[i] != b[j]
  }

  ghost predicate Alive(s: Shm, g: int) {
    g in s.groups && (s.groups[g].refs > 0 || g in s.dying)
  }

  ghost predicate NoDup(a: seq<int>) {
    forall i, j :: 0 <= i < j < |a| ==> a[i] != a[j]
  }

  /** A group owns live, distinct memory until it is freed, and none after. */
  ghost predicate Backed(s: Shm, g: int)
    requires g in s.groups
  {
    var a := s.groups[g].regions;
    (a != [] ==> Alive(s, g)) && Elems(a) <= s.heap && NoDup(a)
  }

  /** And no two groups share any. */
  ghost predicate Owned(s: Shm) {
    && (forall g :: g in s.groups ==> Backed(s, g))
    && (forall g, h :: g in s.groups && h in s.groups && g != h ==> Apart(s.groups[g].regions, s.groups[h].regions))
  }

  ghost predicate Inv(s: Shm) {
    Counted(s) && Owned(s)
  }

  function Change(s: Shm, e: Event, g: int): int
    requires Enabled(s, e)
  {
    if e.Attach? && g == e.g then 1 else if e.Detach? && g == s.attached[e.f] then -1 else 0
  }

  lemma FilesAfter(s: Shm, e: Event, g: int)
    requires Enabled(s, e)
    ensures |Files(Next(s, e).attached, g)| == |Files(s.attached, g)| + Change(s, e, g)
  {
    match e
    case Attach(f, _, h) => FilesAdded(s.attached, f, h, g);
    case Detach(f) => FilesRemoved(s.attached, f, g);
    case _ =>
  }

  lemma FilesAdded(attached: map<int, int>, f: int, h: int, g: int)
    requires f !in attached
    ensures |Files(attached[f := h], g)| == |Files(attached, g)| + if g == h then 1 else 0
  {
    assert Files(attached[f := h], g) == if g == h then Files(attached, g) + {f} else Files(attached, g);
  }

  lemma FilesRemoved(attached: map<int, int>, f: int, g: int)
    requires f in attached
    ensures |Files(attached - {f}, g)| == |Files(attached, g)| - if g == attached[f] then 1 else 0
  {
    assert Files(attached - {f}, g) == Files(attached, g) - {f};
  }

  lemma NoFilesYet(s: Shm, g: int)
    requires Counted(s) && g !in s.groups
    ensures Files(s.attached, g) == {}
  {
    SameSet(Files(s.attached, g), {});
  }

  lemma NextKeepsCounted(s: Shm, e: Event)
    requires Counted(s) && Enabled(s, e)
    ensures Counted(Next(s, e))
  {
    hide Files, Counted;
    match e
    case Attach(f, k, g) => CountedAfterAttach(s, f, k, g);
    case Grow(f, addrs) => SameCounts(s, Next(s, e));
    case Detach(f) => CountedAfterDetach(s, f);
    case Free(g) => SameCounts(s, Next(s, e));
  }

  lemma SameCounts(s: Shm, t: Shm)
    requires Counted(s) && t.attached == s.attached && t.registry == s.registry && t.dying <= s.dying
    requires t.groups.Keys == s.groups.Keys
    requires forall g :: g in s.groups ==> t.groups[g].refs == s.groups[g].refs && t.groups[g].key == s.groups[g].key
    ensures Counted(t)
  {
    hide Files;
    forall g | g in t.groups
      ensures t.groups[g].refs == s.groups[g].refs && t.groups[g].key == s.groups[g].key && g in s.groups
    {
    }
    assert forall g :: g in t.groups <==> g in s.groups;
  }

  lemma CountedAfterAttach(s: Shm, f: int, k: Key, g: int)
    requires Counted(s) && Enabled(s, Attach(f, k, g))
    ensures Counted(Next(s, Attach(f, k, g)))
  {
    hide Files;
    forall x { FilesAfter(s, Attach(f, k, g), x); }
    if g !in s.groups { NoFilesYet(s, g); }
  }

  lemma CountedAfterDetach(s: Shm, f: int)
    requires Counted(s) && Enabled(s, Detach(f))
    ensures Counted(Next(s, Detach(f)))
  {
    hide Files;
    forall x { FilesAfter(s, Detach(f), x); }
    SomeFile(s, f);
  }

  lemma SomeFile(s: Shm, f: int)
    requires Counted(s) && f in s.attached
    ensures s.attached[f] in s.groups && s.groups[s.attached[f]].refs >= 1
  {
    assert f in Files(s.attached, s.attached[f]);
  }

  lemma NextKeepsOwned(s: Shm, e: Event)
    requires Inv(s) && Enabled(s, e)
    ensures Owned(Next(s, e))
  {
    hide Files, Owned;
    match e
    case Attach(_, _, _) => SameRegions(s, Next(s, e));
    case Grow(f, addrs) =>
      SomeFile(s, f);
      AfterGrow(s, Next(s, e), s.attached[f], addrs);
    case Detach(f) =>
      SomeFile(s, f);
      SameRegions(s, Next(s, e));
    case Free(g) => AfterFree(s, Next(s, e), g);
  }

  /** Attaching and detaching leave every region where it is. */
  lemma SameRegions(s: Shm, t: Shm)
    requires Owned(s) && t.heap == s.heap && s.groups.Keys <= t.groups.Keys
    requires forall g :: g in t.groups && g !in s.groups ==> t.groups[g].regions == []
    requires forall g :: g in s.groups ==> t.groups[g].regions == s.groups[g].regions
    requires forall g :: Alive(s, g) ==> Alive(t, g)
    ensures Owned(t)
  {
    forall g | g in t.groups ensures Backed(t, g) { KeptBacked(s, t, g); }
    forall g, h | g in t.groups && h in t.groups && g != h
      ensures Apart(t.groups[g].regions, t.groups[h].regions)
    {
      if g in s.groups && h in s.groups { assert Apart(s.groups[g].regions, s.groups[h].regions); }
    }
  }

  lemma KeptBacked(s: Shm, t: Shm, g: int)
    requires g in t.groups && s.heap <= t.heap && (Alive(s, g) ==> Alive(t, g))
    requires g in s.groups ==> Backed(s, g) && t.groups[g].regions == s.groups[g].regions
    requires g !in s.groups ==> t.groups[g].regions == []
    ensures Backed(t, g)
  {
  }

  lemma AfterGrow(s: Shm, t: Shm, g: int, addrs: seq<int>)
    requires Owned(s) && Alive(s, g) && Fresh(s.heap, addrs) && t.heap == s.heap + Elems(addrs)
    requires t.groups == s.groups[g := s.groups[g].(regions := s.groups[g].regions + addrs)] && t.dying == s.dying
    ensures Owned(t)
  {
    var was := s.groups[g].regions;
    assert Backed(s, g);
    Appended(s.heap, was, addrs);
    forall h | h in t.groups ensures Backed(t, h) {
      if h != g { KeptBacked(s, t, h); }
    }
    forall h, k | h in t.groups && k in t.groups && h != k
      ensures Apart(t.groups[h].regions, t.groups[k].regions)
    {
      assert Backed(s, h) && Backed(s, k) && Apart(s.groups[h].regions, s.groups[k].regions);
      if h == g { StillApart(s.heap, was, addrs, s.groups[k].regions); }
      if k == g { StillApart(s.heap, was, addrs, s.groups[h].regions); }
    }
  }

  lemma Appended(heap: set<int>, a: seq<int>, addrs: seq<int>)
    requires Elems(a) <= heap && NoDup(a) && Fresh(heap, addrs)
    ensures NoDup(a + addrs) && Elems(a + addrs) <= heap + Elems(addrs)
  {
    var more := a + addrs;
    forall i, j | 0 <= i < j < |more| ensures more[i] != more[j] {
      if i < |a| { assert a[i] in Elems(a); }
    }
  }

  lemma StillApart(heap: set<int>, a: seq<int>, addrs: seq<int>, b: seq<int>)
    requires Fresh(heap, addrs) && Elems(b) <= heap && Apart(a, b)
    ensures Apart(a + addrs, b) && Apart(b, a + addrs)
  {
    forall i, j | 0 <= i < |a + addrs| && 0 <= j < |b| ensures (a + addrs)[i] != b[j] {
      assert b[j] in Elems(b);
    }
  }

  lemma AfterFree(s: Shm, t: Shm, g: int)
    requires Owned(s) && g in s.groups && t.groups.Keys == s.groups.Keys
    requires t.groups[g].regions == [] && forall h :: h in s.groups && h != g ==> t.groups[h] == s.groups[h]
    requires t.dying == s.dying - {g} && t.heap == s.heap - Elems(s.groups[g].regions)
    ensures Owned(t)
  {
    forall h | h in t.groups ensures Backed(t, h) {
      if h != g {
        assert Backed(s, h) && Apart(s.groups[h].regions, s.groups[g].regions);
      }
    }
    forall h, k | h in t.groups && k in t.groups && h != k
      ensures Apart(t.groups[h].regions, t.groups[k].regions)
    {
      if h != g && k != g { assert Apart(s.groups[h].regions, s.groups[k].regions); }
    }
  }

  // ---- runs ----

  ghost predicate IsRun(run: seq<Shm>, es: seq<Event>) {
    && |run| == |es| + 1 && run[0] == EMPTY
    && (forall i {:trigger es[i]} :: 0 <= i < |es| ==> Enabled(run[i], es[i]) && run[i + 1] == Next(run[i], es[i]))
  }

  /** Whatever the interleaving, refs counts the attached files, a group is in the map
      iff refs > 0, and every region belongs to one group and is live memory. */
  lemma {:induction false} RunsKeepInv(run: seq<Shm>, es: seq<Event>, i: nat)
    requires IsRun(run, es) && i < |run|
    ensures Inv(run[i])
    decreases i
  {
    if i > 0 {
      RunsKeepInv(run, es, i - 1);
      var e := es[i - 1];
      NextKeepsCounted(run[i - 1], e);
      NextKeepsOwned(run[i - 1], e);
    }
  }

  // ---- nothing leaks ----

  /** Every live allocation is a region of some group. */
  ghost predicate Accounted(s: Shm) {
    forall a :: a in s.heap ==> exists g :: g in s.groups && a in s.groups[g].regions
  }

  lemma NextKeepsAccounted(s: Shm, e: Event)
    requires Accounted(s) && Enabled(s, e)
    ensures Accounted(Next(s, e))
  {
    var t := Next(s, e);
    forall a | a in t.heap
      ensures exists g :: g in t.groups && a in t.groups[g].regions
    {
      if a in s.heap {
        var g :| g in s.groups && a in s.groups[g].regions;
        assert g in t.groups && a in t.groups[g].regions;
      } else {
        var g := s.attached[e.f];
        assert g in t.groups && a in t.groups[g].regions;
      }
    }
  }

  /** In every run each live allocation is a region of a group that has files attached or is about to
      be freed; so once every file has left and every group was freed, no memory is left. */
  lemma {:induction false} NoLeak(run: seq<Shm>, es: seq<Event>, i: nat)
    requires IsRun(run, es) && i < |run|
    ensures Accounted(run[i])
    ensures forall a :: a in run[i].heap ==> exists g :: Alive(run[i], g) && a in run[i].groups[g].regions
    ensures run[i].attached == map[] && run[i].dying == {} ==> run[i].heap == {}
    decreases i
  {
    if i > 0 {
      NoLeak(run, es, i - 1);
      var e := es[i - 1];
      NextKeepsAccounted(run[i - 1], e);
    }
    RunsKeepInv(run, es, i);
    AccountedAlive(run[i]);
  }

  lemma AccountedAlive(s: Shm)
    requires Inv(s) && Accounted(s)
    ensures forall a :: a in s.heap ==> exists g :: Alive(s, g) && a in s.groups[g].regions
    ensures s.attached == map[] && s.dying == {} ==> s.heap == {}
  {
    forall a | a in s.heap
      ensures exists g :: Alive(s, g) && a in s.groups[g].regions
      ensures s.attached == map[] && s.dying == {} ==> false
    {
      var g :| g in s.groups && a in s.groups[g].regions;
      assert Backed(s, g);
      if s.attached == map[] { assert Files(s.attached, g) == {}; }
    }
  }

  /** Freeing touches only live memory, and only when no file is attached. */
  lemma FreeIsSafe(s: Shm, g: int)
    requires Inv(s) && Enabled(s, Free(g))
    ensures Elems(s.groups[g].regions) <= s.heap
    ensures forall f :: f in s.attached ==> s.attached[f] != g
  {
    forall f | f in s.attached
      ensures s.attached[f] != g
    {
      SomeFile(s, f);
    }
  }

  /** A group that lost its last file never gets another, so it is freed at most once. */
  lemma DeadStaysDead(s: Shm, e: Event, g: int)
    requires Inv(s) && Enabled(s, e) && g in s.groups && s.groups[g].refs == 0
    ensures g in Next(s, e).groups && Next(s, e).groups[g].refs == 0
    ensures g !in s.dying ==> g !in Next(s, e).dying
  {
    hide Files;
    if e.Grow? || e.Detach? { SomeFile(s, e.f); }
  }

  lemma {:induction false} FreedOnce(run: seq<Shm>, es: seq<Event>, g: int, i: nat, j: nat)
    requires IsRun(run, es) && i < j < |es| && es[i] == Free(g)
    ensures es[j] != Free(g)
  {
    StaysFreed(run, es, g, i, j);
    var e := es[j];
    assert Enabled(run[j], e);
  }

  lemma {:induction false} StaysFreed(run: seq<Shm>, es: seq<Event>, g: int, i: nat, j: nat)
    requires IsRun(run, es) && i < j < |run| && es[i] == Free(g)
    ensures g in run[j].groups && run[j].groups[g].refs == 0 && g !in run[j].dying
    decreases j
  {
    var e := es[j - 1];
    RunsKeepInv(run, es, j - 1);
    if j - 1 > i {
      StaysFreed(run, es, g, i, j - 1);
      DeadStaysDead(run[j - 1], e, g);
    }
  }

  /** Regions of an attached group only grow at the end. */
  lemma NextKeepsAddresses(s: Shm, e: Event, f: int)
    requires Inv(s) && Enabled(s, e) && f in s.attached && f in Next(s, e).attached
    ensures Next(s, e).attached[f] == s.attached[f]
    ensures var g := s.attached[f];
      g in s.groups && g in Next(s, e).groups && s.groups[g].regions <= Next(s, e).groups[g].regions
  {
    hide Files;
    SomeFile(s, f);
  }

  /** Two attached files whose groups have the same key are in the same group, hence see
      every region at the same address. */
  lemma SameKeySameRegions(run: seq<Shm>, es: seq<Event>, i: nat, f: int, h: int)
    requires IsRun(run, es) && i < |run| && f in run[i].attached && h in run[i].attached
    ensures var s := run[i];
      && s.attached[f] in s.groups && s.attached[h] in s.groups
      && (s.groups[s.attached[f]].key == s.groups[s.attached[h]].key ==> s.attached[f] == s.attached[h])
  {
    RunsKeepInv(run, es, i);
    SomeFile(run[i], f);
    SomeFile(run[i], h);
  }

  /** Region i keeps one address for a file as long as it stays attached, also across the
      death and re-creation of a group under the same key. */
  lemma {:induction false} AddressesAreStable(run: seq<Shm>, es: seq<Event>, f: int, i: nat, j: nat)
    requires IsRun(run, es) && i <= j < |run|
    requires forall k :: i <= k <= j ==> f in run[k].attached
    ensures run[j].attached[f] == run[i].attached[f]
    ensures var g := run[i].attached[f];
      g in run[i].groups && g in run[j].groups && run[i].groups[g].regions <= run[j].groups[g].regions
    decreases j
  {
    RunsKeepInv(run, es, j);
    if i < j {
      AddressesAreStable(run, es, f, i, j - 1);
      RunsKeepInv(run, es, j - 1);
      var e := es[j - 1];
      NextKeepsAddresses(run[j - 1], e, f);
    } else {
      SomeFile(run[j], f);
    }
  }

  lemma Present(s: Shm)
    requires Inv(s)
    ensures forall f :: f in s.attached ==> s.attached[f] in s.groups
    ensures forall k :: k in s.registry ==> s.registry[k] in s.groups
  {
  }

  /** The regions a file already sees, or will see once it attaches under `k`. */
  ghost function RegionsFor(s: Shm, f: int, k: Key): seq<int> {
    var g := if f in s.attached then Some(s.attached[f]) else if k in s.registry then Some(s.registry[k]) else None;
    if g.Some? && g.value in s.groups then s.groups[g.value].regions else []
  }

  lemma RegionsAre(s: Shm, f: int, k: Key)
    requires Inv(s)
    ensures f in s.attached ==> s.attached[f] in s.groups && RegionsFor(s, f, k) == s.groups[s.attached[f]].regions
    ensures f !in s.attached ==> forall g {:trigger Attach(f, k, g)} :: Enabled(s, Attach(f, k, g)) ==>
      g in Next(s, Attach(f, k, g)).groups && Next(s, Attach(f, k, g)).groups[g].regions == RegionsFor(s, f, k)
  {
  }

  // ---- the methods ----

  datatype MapResult = NotYet | NoMem | Mapped(addr: int)

  class Dispatcher {
    var registry: map<Key, int>
    var groups: map<int, Group>
    var attached: map<int, int>
    var dying: set<int>
    var heap: set<int>

    ghost function View(): Shm
      reads this
    {
      Shm(registry, groups, attached, dying, heap)
    }

    constructor ()
      ensures View() == EMPTY && Inv(View())
    {
      registry, groups, attached, dying, heap := map[], map[], map[], {}, {};
    }

    /** calloc: some address not in use, or nothing when memory is out. */
    method Calloc(out: bool) returns (mem: Option<int>)
      modifies this`heap
      ensures mem.None? <==> out
      ensures mem.Some? ==> mem.value !in old(heap) && heap == old(heap) + {mem.value}
      ensures mem.None? ==> heap == old(heap)
    {
      if out {
        return None;
      }
      var a := Unused(heap);
      heap := heap + {a};
      mem := Some(a);
    }

    /** free: the block must be live. */
    method Xfree(a: int)
      requires a in heap
      modifies this`heap
      ensures heap == old(heap) - {a}
    {
      heap := heap - {a};
    }

    static method Unused(used: set<int>) returns (a: int)
      ensures a !in used
    {
      a := 1;
      ghost var rest := used;
      while a in used
        invariant rest <= used && forall x :: x in used && x >= a ==> x in rest
        decreases rest
      {
        rest := rest - {a};
        a := a + 1;
      }
    }

    /** Find or create the file's group and count the file, once. */
    method AttachShm(f: int, k: Key) returns (g: int)
      requires Inv(View())
      modifies this`registry, this`groups, this`attached
      ensures Inv(View()) && f in attached && attached[f] == g && g in groups
      ensures f in old(attached) ==> View() == old(View())
      ensures f !in old(attached) ==>
        Enabled(old(View()), Attach(f, k, g)) && View() == Next(old(View()), Attach(f, k, g))
    {
      hide Counted, Owned;
      Present(View());
      if f in attached {
        return attached[f];
      }
      if k in registry {
        g := registry[k];
      } else {
        g := Unused(groups.Keys);
      }
      NextKeepsCounted(View(), Attach(f, k, g));
      NextKeepsOwned(View(), Attach(f, k, g));
      if k !in registry {
        groups := groups[g := Group(k, 0, [])];
        registry := registry[k := g];
      }
      groups := groups[g := groups[g].(refs := groups[g].refs + 1)];
      attached := attached[f := g];
      assert View() == Next(old(View()), Attach(f, k, g));
    }

    /** xShmMap: the region's address, allocating every missing region up to it when
        asked to extend. `room` is how many allocations will succeed; what was
        allocated before a failure stays. */
    method MapRegion(f: int, k: Key, region: nat, extend: bool, room: nat) returns (r: MapResult, g: int)
      requires Inv(View())
      modifies this
      ensures Inv(View()) && f in attached && attached[f] == g && g in groups
      ensures var before := old(RegionsFor(View(), f, k));
        var missing := Max(0, region + 1 - |before|);
        && before <= groups[g].regions
        && |groups[g].regions| == |before| + (if extend then Min(missing, room) else 0)
        && (r.NotYet? <==> missing > 0 && !extend)
        && (r.NoMem? <==> extend && missing > room)
        && (r.Mapped? ==> region < |groups[g].regions| && r.addr == groups[g].regions[region])
    {
      hide Inv, Owned, Counted;
      RegionsAre(View(), f, k);
      g := AttachShm(f, k);
      ghost var before := groups[g].regions;
      if region >= |groups[g].regions| {
        if !extend {
          return NotYet, g;
        }
        var left := room;
        while region >= |groups[g].regions|
          invariant Inv(View()) && f in attached && attached[f] == g && g in groups
          invariant before <= groups[g].regions && |groups[g].regions| <= region + 1
          invariant 0 <= left == room - (|groups[g].regions| - |before|)
          decreases region - |groups[g].regions|
        {
          var grown := Extend(f, g, left == 0);
          if !grown {
            return NoMem, g;
          }
          left := left - 1;
        }
      }
      return Mapped(groups[g].regions[region]), g;
    }

    method Extend(f: int, g: int, out: bool) returns (grown: bool)
      requires Inv(View()) && f in attached && attached[f] == g && g in groups
      modifies this`heap, this`groups
      ensures Inv(View()) && g in groups && grown == !out
      ensures grown ==> |groups[g].regions| == |old(groups)[g].regions| + 1
      ensures old(groups)[g].regions <= groups[g].regions
      ensures !grown ==> View() == old(View())
    {
      var mem := Calloc(out);
      if mem.None? {
        return false;
      }
      NextKeepsCounted(old(View()), Grow(f, [mem.value]));
      NextKeepsOwned(old(View()), Grow(f, [mem.value]));
      groups := groups[g := groups[g].(regions := groups[g].regions + [mem.value])];
      assert Elems([mem.value]) == {mem.value};
      assert View() == Next(old(View()), Grow(f, [mem.value]));
      grown := true;
    }

    /** First critical section of a detach; `last` names the group to free, if any. */
    method DetachShm(f: int) returns (last: Option<int>)
      requires Inv(View())
      modifies this`registry, this`groups, this`attached, this`dying
      ensures Inv(View())
      ensures f !in old(attached) ==> View() == old(View()) && last == None
      ensures f in old(attached) ==>
        && Enabled(old(View()), Detach(f)) && View() == Next(old(View()), Detach(f))
        && last == if old(groups)[old(attached)[f]].refs == 1 then Some(old(attached)[f]) else None
      ensures last.Some? ==> last.value in dying
    {
      if f !in attached {
        return None;
      }
      var g := attached[f];
      NextKeepsCounted(View(), Detach(f));
      NextKeepsOwned(View(), Detach(f));
      attached := attached - {f};
      groups := groups[g := groups[g].(refs := groups[g].refs - 1)];
      last := None;
      if groups[g].refs == 0 {
        registry := registry - {groups[g].key};
        dying := dying + {g};
        last := Some(g);
      }
      assert View() == Next(old(View()), Detach(f));
    }

    /** Second critical section: free every region of a group nobody is attached to. */
    method FreeRegions(g: int)
      requires Inv(View()) && g in dying
      modifies this`groups, this`dying, this`heap
      ensures Inv(View())
      ensures Enabled(old(View()), Free(g)) && View() == Next(old(View()), Free(g))
    {
      hide Files;
      NextKeepsCounted(View(), Free(g));
      NextKeepsOwned(View(), Free(g));
      var regions := groups[g].regions;
      for i := 0 to |regions|
        invariant groups == old(groups) && dying == old(dying)
        invariant heap == old(heap) - Elems(regions[..i])
      {
        assert regions[i] in old(heap) && regions[i] !in regions[..i];
        Xfree(regions[i]);
        assert regions[..i + 1] == regions[..i] + [regions[i]];
      }
      assert regions[..|regions|] == regions;
      groups := groups[g := groups[g].(regions := [])];
      dying := dying - {g};
    }
  }
}
