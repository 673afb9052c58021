/** Process-global callback registries shared by every connection
    (callback_table.go, and the id minting of compat_register.go and hooks.go). */
module Callbacks {
  import opened Bytes
  import opened Ids

  class CallbackTable<T> {
    var m: map<int, T>
    const ids: IdGen

    ghost predicate Valid()
      reads this, ids
    {
      ids.Valid() && m.Keys == Live(ids.bitset)
    }

    constructor ()
      ensures Valid() && m == map[] && fresh(ids)
    {
      ids := new IdGen();
      m := map[];
    }

    method Register(v: T) returns (id: int)
      requires Valid()
      modifies this, ids
      ensures Valid()
      ensures LeastFree(old(m.Keys), id) && id <= |old(m)| + 1
      ensures m == old(m)[id := v]
    {
      hide Live, LeastFree;
      id := ids.Next();
      MintBound(m, id);
      m := m[id := v];
    }

    method Lookup(id: int) returns (v: Option<T>)
      ensures v == if id in m then Some(m[id]) else None
    {
      v := if id in m then Some(m[id]) else None;
    }

    method Drop(id: nat)
      requires Valid()
      modifies this, ids
      ensures Valid()
      ensures m == old(m) - {id}
    {
      m := m - {id};
      ids.Reclaim(id);
    }
  }

  lemma MintBound<T>(m: map<int, T>, id: int)
    requires LeastFree(m.Keys, id)
    ensures id <= |m| + 1
  {
    LeastFreeBound(m.Keys, id);
  }

  /** What a connection remembers: the ids it minted and handed to SQLite. */
  class Conn {
    var ids: seq<nat>

    constructor ()
      ensures ids == []
    {
      ids := [];
    }

    /** Mint an id, hand it to SQLite, and undo the minting if SQLite refuses. */
    method RegisterOn<T>(t: CallbackTable<T>, v: T, created: bool) returns (ok: bool, ghost id: int)
      requires t.Valid()
      modifies this, t, t.ids
      ensures t.Valid() && ok == created
      ensures LeastFree(old(t.m.Keys), id)
      ensures ok ==> t.m == old(t.m)[id := v] && ids == old(ids) + [id]
      ensures !ok ==> t.m == old(t.m) && ids == old(ids)
    {
      var fresh' := t.Register(v);
      id := fresh';
      if !created {
        t.Drop(fresh');
        assert t.m == old(t.m);
        return false, id;
      }
      ids := ids + [fresh'];
      ok := true;
    }

    /** Closing the connection drops every id it minted. */
    method DropAll<T>(t: CallbackTable<T>)
      requires t.Valid()
      modifies this, t, t.ids
      ensures t.Valid() && ids == []
      ensures t.m == old(t.m) - (set i | i in old(ids))
    {
      ghost var gone := {};
      for i := 0 to |ids|
        invariant ids == old(ids) && t.Valid()
        invariant gone == set j | j in ids[..i]
        invariant t.m == old(t.m) - gone
      {
        t.Drop(ids[i]);
        assert ids[..i + 1] == ids[..i] + [ids[i]];
        gone := gone + {ids[i]};
      }
      assert ids[..|ids|] == ids;
      ids := [];
    }
  }

  // ---- many connections, interleaved ----

  /** One registry and the connections using it. Minting and undoing are separate
      critical sections, so a connection may have one id pending while others act. */
  datatype World<T> = World(m: map<int, T>, owned: map<int, seq<int>>, pending: map<int, int>)

  datatype Step<T> =
    | Open(c: int)
    | Mint(c: int, v: T, id: int)
    | Undo(c: int)
    | Commit(c: int)
    | Close(c: int)

  ghost predicate Enabled<T>(w: World<T>, s: Step<T>) {
    match s
    case Open(c) => c !in w.owned && c !in w.pending
    case Mint(c, _, id) => c in w.owned && c !in w.pending && LeastFree(w.m.Keys, id)
    case Undo(c) => c in w.owned && c in w.pending
    case Commit(c) => c in w.owned && c in w.pending
    case Close(c) => c in w.owned && c !in w.pending
  }

  ghost function Next<T>(w: World<T>, s: Step<T>): World<T>
    requires Enabled(w, s)
  {
    match s
    case Open(c) => w.(owned := w.owned[c := []])
    case Mint(c, v, id) => w.(m := w.m[id := v], pending := w.pending[c := id])
    case Undo(c) => w.(m := w.m - {w.pending[c]}, pending := w.pending - {c})
    case Commit(c) => w.(owned := w.owned[c := w.owned[c] + [w.pending[c]]], pending := w.pending - {c})
    case Close(c) => World(w.m - (set id | id in w.owned[c]), w.owned - {c}, w.pending)
  }

  /** Connection `c` is the one answering for `id`. */
  ghost predicate Holds<T>(w: World<T>, c: int, id: int) {
    || (c in w.owned && id in w.owned[c])
    || (c in w.pending && w.pending[c] == id)
  }

  /** Every live id has exactly one holder, and holds it once. */
  ghost predicate Sound<T>(w: World<T>) {
    && w.pending.Keys <= w.owned.Keys
    && (forall c, id :: Holds(w, c, id) ==> id in w.m && id >= 1)
    && (forall id :: id in w.m ==> exists c :: Holds(w, c, id))
    && (forall c, d, id :: Holds(w, c, id) && Holds(w, d, id) ==> c == d)
    && (forall c :: c in w.owned && c in w.pending ==> w.pending[c] !in w.owned[c])
    && (forall c, i, j :: c in w.owned && 0 <= i < j < |w.owned[c]| ==> w.owned[c][i] != w.owned[c][j])
  }

  /** What each step does to who holds what. */
  lemma HoldsAfter<T>(w: World<T>, s: Step<T>, c: int, id: int)
    requires Sound(w) && Enabled(w, s)
    ensures Holds(Next(w, s), c, id) <==>
      match s
      case Mint(d, _, fresh') => Holds(w, c, id) || (c == d && id == fresh')
      case Undo(d) => Holds(w, c, id) && !(c == d && id == w.pending[d])
      case Close(d) => Holds(w, c, id) && c != d
      case _ => Holds(w, c, id)
  {
  }

  lemma NextKeepsSound<T>(w: World<T>, s: Step<T>)
    requires Sound(w) && Enabled(w, s)
    ensures Sound(Next(w, s))
  {
    var x := Next(w, s);
    forall c, id { HoldsAfter(w, s, c, id); }
    assert s.Mint? ==> forall c :: !Holds(w, c, s.id);
    assert s.Mint? ==> !Holds(w, s.c, s.id);
    assert s.Undo? || s.Commit? ==> Holds(w, s.c, w.pending[s.c]);
    assert s.Close? ==> forall id :: id in w.owned[s.c] ==> Holds(w, s.c, id);
    assert forall c, id :: Holds(x, c, id) ==> id in x.m && id >= 1;
    forall id | id in x.m
      ensures exists c :: Holds(x, c, id)
    {
      if s.Mint? && id == s.id {
        assert Holds(x, s.c, id);
      } else {
        var c :| Holds(w, c, id);
        assert Holds(x, c, id);
      }
    }
  }

  /** Closing a connection removes exactly the ids it holds; every other id keeps its
      holder and its closure. */
  lemma CloseRemovesOwn<T>(w: World<T>, c: int)
    requires Sound(w) && Enabled(w, Close(c))
    ensures var x := Next(w, Close(c));
      && (forall id :: id in w.m ==> (id !in x.m <==> Holds(w, c, id)))
      && (forall id :: id in x.m ==> id in w.m && x.m[id] == w.m[id])
      && (forall d, id :: d != c ==> (Holds(x, d, id) <==> Holds(w, d, id)))
  {
    forall d, id { HoldsAfter(w, Close(c), d, id); }
  }

  ghost predicate IsRun<T>(run: seq<World<T>>, ss: seq<Step<T>>) {
    && |run| == |ss| + 1
    && (forall i {:trigger ss[i]} :: 0 <= i < |ss| ==> Enabled(run[i], ss[i]) && run[i + 1] == Next(run[i], ss[i]))
  }

  lemma {:induction false} RunsAreSound<T>(run: seq<World<T>>, ss: seq<Step<T>>, i: nat)
    requires IsRun(run, ss) && run[0] == World(map[], map[], map[]) && i < |run|
    ensures Sound(run[i])
    decreases i
  {
    if i > 0 {
      RunsAreSound(run, ss, i - 1);
      var s := ss[i - 1];
      NextKeepsSound(run[i - 1], s);
    }
  }

  /** From the step that mints `id` until its connection undoes it or closes, whatever
      the other connections do, `id` resolves to the closure it was minted for. */
  lemma {:induction false} LiveIdsResolve<T>(run: seq<World<T>>, ss: seq<Step<T>>, c: int, v: T, id: int, i: nat,
                                             j: nat)
    requires IsRun(run, ss) && run[0] == World(map[], map[], map[])
    requires i < j < |run| && ss[i] == Mint(c, v, id)
    requires forall k :: i < k < j ==> ss[k] != Close(c) && ss[k] != Undo(c)
    ensures Holds(run[j], c, id) && id in run[j].m && run[j].m[id] == v
    decreases j
  {
    var s := ss[j - 1];
    RunsAreSound(run, ss, j - 1);
    if j - 1 > i {
      LiveIdsResolve(run, ss, c, v, id, i, j - 1);
      HoldsAfter(run[j - 1], s, c, id);
      KeepsOthers(run[j - 1], s, c, id);
    }
  }

  lemma KeepsOthers<T>(w: World<T>, s: Step<T>, c: int, id: int)
    requires Sound(w) && Enabled(w, s) && Holds(w, c, id)
    requires s != Close(c) && s != Undo(c)
    ensures id in Next(w, s).m && Next(w, s).m[id] == w.m[id]
  {
    match s
    case Undo(d) => assert Holds(w, d, w.pending[d]);
    case Close(d) => assert id in w.owned[d] ==> Holds(w, d, id);
    case _ =>
  }

  // ---- the objects together ----

  /** A process: one registry and its open connections. Each method is the steps of one call. */
  class Process<T> {
    const table: CallbackTable<T>
    var conns: map<int, Conn>

    ghost function View(): World<T>
      reads this, table, conns.Values
    {
      World(table.m, map c | c in conns :: conns[c].ids, map[])
    }

    ghost predicate Valid()
      reads this, table, table.ids, conns.Values
    {
      && table.Valid() && Sound(View())
      && forall c, d :: c in conns && d in conns && conns[c] == conns[d] ==> c == d
    }

    constructor ()
      ensures Valid() && conns == map[] && View() == World(map[], map[], map[]) && fresh(table) && fresh(table.ids)
    {
      table := new CallbackTable<T>();
      conns := map[];
    }

    method OpenConn(c: int)
      requires Valid() && c !in conns
      modifies this`conns
      ensures Valid() && View() == Next(old(View()), Open(c))
      ensures c in conns && fresh(conns[c]) && conns == old(conns)[c := conns[c]]
    {
      NextKeepsSound(View(), Open(c));
      var conn := new Conn();
      conns := conns[c := conn];
      SameMap(View().owned, old(View()).owned[c := []]);
    }

    /** RegisterFunc and its like: mint, then commit or undo. */
    method Register(c: int, v: T, created: bool) returns (ok: bool, ghost id: int)
      requires Valid() && c in conns
      modifies table, table.ids, conns[c]
      ensures Valid() && conns == old(conns) && ok == created
      ensures Enabled(old(View()), Mint(c, v, id))
      ensures View() == Next(Next(old(View()), Mint(c, v, id)), if created then Commit(c) else Undo(c))
    {
      hide Sound;
      ghost var w := View();
      ok, id := conns[c].RegisterOn(table, v, created);
      MintedSound(w, c, v, id, created);
      SameMap(View().owned, if created then w.owned[c := w.owned[c] + [id]] else w.owned);
    }

    /** conn.Close: every id of the connection goes. */
    method CloseConn(c: int)
      requires Valid() && c in conns
      modifies this`conns, table, table.ids, conns[c]
      ensures Valid() && conns == old(conns) - {c} && View() == Next(old(View()), Close(c))
    {
      hide Sound;
      ghost var w := View();
      NextKeepsSound(w, Close(c));
      conns[c].DropAll(table);
      conns := conns - {c};
      SameMap(View().owned, w.owned - {c});
    }
  }

  /** Minting and then committing or undoing, on the values. */
  lemma MintedSound<T>(w: World<T>, c: int, v: T, id: int, created: bool)
    requires Sound(w) && c in w.owned && w.pending == map[] && LeastFree(w.m.Keys, id)
    ensures var x := Next(Next(w, Mint(c, v, id)), if created then Commit(c) else Undo(c));
      && Sound(x) && x.pending == map[]
      && x == if created then World(w.m[id := v], w.owned[c := w.owned[c] + [id]], map[]) else w
  {
    hide Sound;
    var y := Next(w, Mint(c, v, id));
    NextKeepsSound(w, Mint(c, v, id));
    NextKeepsSound(y, if created then Commit(c) else Undo(c));
    assert y.m - {id} == w.m && y.pending - {c} == map[];
  }
}
