/** The WAL lock table of a shared-memory group (xShmLock in vfs/shm.go): eight
    slots, each SHARED by any number of files or EXCLUSIVE to one. */
module WalLocks {

  const SLOTS := 8

  datatype Rc = OK | BUSY | IOERR

  /** The two Go arrays. */
  datatype Table = Table(shared: seq<int>, excl: seq<bool>)

  ghost predicate Formed(t: Table) {
    |t.shared| == SLOTS && |t.excl| == SLOTS
  }

  predicate InRange(lo: int, hi: int) {
    0 <= lo < hi <= SLOTS
  }

  predicate Conflict(t: Table, lo: int, hi: int, shared: bool)
    requires |t.shared| == |t.excl| == SLOTS && InRange(lo, hi)
  {
    exists i :: lo <= i < hi && (t.excl[i] || (!shared && t.shared[i] > 0))
  }

  /** One slot after a granted request. */
  function SharedAfter(n: int, unlock: bool, shared: bool): int {
    if !shared then n else if !unlock then n + 1 else if n > 0 then n - 1 else n
  }

  function ExclAfter(e: bool, unlock: bool, shared: bool): bool {
    if shared then e else !unlock
  }

  function Apply(t: Table, lo: int, hi: int, unlock: bool, shared: bool): (r: Table)
    requires |t.shared| == |t.excl| == SLOTS && InRange(lo, hi)
    ensures |r.shared| == |r.excl| == SLOTS
    ensures forall i :: 0 <= i < SLOTS ==>
      r.shared[i] == if lo <= i < hi then SharedAfter(t.shared[i], unlock, shared) else t.shared[i]
    ensures forall i :: 0 <= i < SLOTS ==>
      r.excl[i] == if lo <= i < hi then ExclAfter(t.excl[i], unlock, shared) else t.excl[i]
  {
    Table(
      seq(SLOTS, i requires 0 <= i < SLOTS =>
        if lo <= i < hi then SharedAfter(t.shared[i], unlock, shared) else t.shared[i]),
      seq(SLOTS, i requires 0 <= i < SLOTS => if lo <= i < hi then ExclAfter(t.excl[i], unlock, shared) else t.excl[i]))
  }

  /** A whole request: refused as ill-formed, refused as busy, or granted on every slot. */
  function Request(t: Table, offset: int, n: int, unlock: bool, shared: bool): (Table, Rc)
    requires |t.shared| == |t.excl| == SLOTS
  {
    var lo, hi := offset, offset + n;
    if !InRange(lo, hi) then (t, IOERR)
    else if !unlock && Conflict(t, lo, hi, shared) then (t, BUSY)
    else (Apply(t, lo, hi, unlock, shared), OK)
  }

  /** The source adds offset and n in 32 bits; a wrap-around never turns a refused range
      into an accepted one, or the reverse. */
  lemma WrapHarmless(offset: int, n: int)
    requires -0x8000_0000 <= offset < 0x8000_0000 && -0x8000_0000 <= n < 0x8000_0000
    ensures InRange(offset, (offset + n + 0x8000_0000) % 0x1_0000_0000 - 0x8000_0000) <==> InRange(offset, offset + n)
  {
  }

  /** A range is accepted if and only if it is one of slots 0 to 7 on its own, or runs from one of
      them up to another: 36 ranges, the last slot and the whole table included. */
  lemma AcceptedRanges(t: Table, offset: int, n: int, unlock: bool, shared: bool)
    requires Formed(t)
    ensures Request(t, offset, n, unlock, shared).1 != IOERR <==> offset >= 0 && n >= 1 && offset + n <= 8
    ensures Request(t, offset, n, unlock, shared).1 == IOERR ==> Request(t, offset, n, unlock, shared).0 == t
    ensures unlock ==> Request(t, 7, 1, unlock, shared).1 == Request(t, 0, 8, unlock, shared).1 == OK
  {
  }

  class LockTable {
    const shared: array<int>
    const excl: array<bool>

    ghost predicate Valid()
      reads this
    {
      shared.Length == SLOTS && excl.Length == SLOTS && shared as object != excl
    }

    ghost function View(): Table
      reads this, shared, excl
    {
      Table(shared[..], excl[..])
    }

    constructor ()
      ensures Valid() && fresh(shared) && fresh(excl)
      ensures View() == Table(seq(SLOTS, _ => 0), seq(SLOTS, _ => false))
    {
      shared := new int[SLOTS](_ => 0);
      excl := new bool[SLOTS](_ => false);
    }

    /** xShmLock: first every slot is checked, then every slot is changed. */
    method Lock(offset: int, n: int, unlock: bool, share: bool) returns (rc: Rc)
      requires Valid()
      modifies shared, excl
      ensures (View(), rc) == Request(old(View()), offset, n, unlock, share)
    {
      var lo, hi := offset, offset + n;
      if lo < 0 || hi > SLOTS || lo >= hi {
        return IOERR;
      }
      if !unlock {
        for i := lo to hi
          invariant forall j :: lo <= j < i ==> !(excl[j] || (!share && shared[j] > 0))
          invariant View() == old(View())
        {
          if excl[i] || (!share && shared[i] > 0) {
            assert View().excl[i] == excl[i] && View().shared[i] == shared[i];
            return BUSY;
          }
        }
      }
      for i := lo to hi
        invariant forall j :: 0 <= j < SLOTS ==>
          shared[j] == if lo <= j < i then SharedAfter(old(shared[j]), unlock, share) else old(shared[j])
        invariant forall j :: 0 <= j < SLOTS ==>
          excl[j] == if lo <= j < i then ExclAfter(old(excl[j]), unlock, share) else old(excl[j])
      {
        if share {
          if unlock {
            if shared[i] > 0 { shared[i] := shared[i] - 1; }
          } else {
            shared[i] := shared[i] + 1;
          }
        } else {
          excl[i] := !unlock;
        }
      }
      rc := OK;
      ghost var want := Apply(old(View()), lo, hi, unlock, share);
      assert View().shared == want.shared && View().excl == want.excl;
    }
  }

  // ---- who holds what ----

  /** The table together with its true holders, slot by slot: the files that took it
      SHARED and did not give it back (a file may share repeatedly), and those that took
      it EXCLUSIVE and did not give it back. */
  datatype World<F(==)> = World(t: Table, sharers: seq<multiset<F>>, owners: seq<set<F>>)

  ghost predicate Sized<F>(w: World<F>) {
    Formed(w.t) && |w.sharers| == SLOTS && |w.owners| == SLOTS
  }

  /** A slot's count is its number of true SHARED holders, its bit tells whether someone
      holds it EXCLUSIVE, and then nobody else holds it at all. */
  ghost predicate SlotExact<F>(w: World<F>, i: int)
    requires Sized(w) && 0 <= i < SLOTS
  {
    Holds(w.t.shared[i], w.t.excl[i], w.sharers[i], w.owners[i])
  }

  ghost predicate Holds<F>(n: int, excl: bool, sharers: multiset<F>, owners: set<F>) {
    && n == |sharers|
    && (excl <==> owners != {})
    && |owners| <= 1
    && (owners != {} ==> sharers == multiset{})
  }

  ghost predicate Exact<F>(w: World<F>) {
    Sized(w) && forall i :: 0 <= i < SLOTS ==> SlotExact(w, i)
  }

  /** A request through xShmLock, or a file detaching from the group. */
  datatype Event<F> = Ask(f: F, offset: int, n: int, unlock: bool, shared: bool) | Leave(f: F)

  /** Detaching touches the lock table not at all, but the file holds nothing any more. */
  ghost function Next<F>(w: World<F>, e: Event<F>): (World<F>, Rc)
    requires Sized(w)
  {
    match e
    case Leave(f) =>
      (w.(sharers := seq(SLOTS, i requires 0 <= i < SLOTS => w.sharers[i][f := 0]),
          owners := seq(SLOTS, i requires 0 <= i < SLOTS => w.owners[i] - {f})), OK)
    case Ask(f, offset, n, unlock, shared) =>
      var (t, rc) := Request(w.t, offset, n, unlock, shared);
      if rc != OK then (w, rc)
      else
        (World(t,
          seq(SLOTS, i requires 0 <= i < SLOTS =>
            if offset <= i < offset + n && shared then SharersAfter(w.sharers[i], f, unlock) else w.sharers[i]),
          seq(SLOTS, i requires 0 <= i < SLOTS =>
            if offset <= i < offset + n && !shared then OwnersAfter(w.owners[i], f, unlock) else w.owners[i])), OK)
  }

  ghost function SharersAfter<F>(m: multiset<F>, f: F, unlock: bool): multiset<F> {
    if unlock then m - multiset{f} else m + multiset{f}
  }

  ghost function OwnersAfter<F>(s: set<F>, f: F, unlock: bool): set<F> {
    if unlock then s - {f} else s + {f}
  }

  /** The caller's discipline: a file gives back only what it or nobody holds, and detaches
      holding nothing. */
  ghost predicate Harmless<F>(w: World<F>, e: Event<F>)
    requires Sized(w)
  {
    match e
    case Leave(f) => forall i :: 0 <= i < SLOTS ==> f !in w.sharers[i] && f !in w.owners[i]
    case Ask(f, offset, n, unlock, shared) =>
      unlock && InRange(offset, offset + n) ==>
        forall i :: offset <= i < offset + n ==>
          if shared then f in w.sharers[i] || w.sharers[i] == multiset{} else f in w.owners[i] || w.owners[i] == {}
  }

  lemma SlotAfterAsk<F>(w: World<F>, f: F, offset: int, n: int, unlock: bool, shared: bool, i: int)
    requires Exact(w) && InRange(offset, offset + n) && 0 <= i < SLOTS
    requires unlock || !Conflict(w.t, offset, offset + n, shared)
    ensures var x := Next(w, Ask(f, offset, n, unlock, shared)).0;
      SlotExact(x, i) <==>
        (offset <= i < offset + n && unlock ==>
          if shared then f in w.sharers[i] || w.sharers[i] == multiset{} else f in w.owners[i] || w.owners[i] == {})
  {
    hide Holds, SharedAfter, ExclAfter, SharersAfter, OwnersAfter;
    var x := Next(w, Ask(f, offset, n, unlock, shared)).0;
    assert SlotExact(w, i);
    if offset <= i < offset + n {
      if shared {
        SharedSlot(w.t.shared[i], w.t.excl[i], w.sharers[i], w.owners[i], f, unlock);
      } else {
        ExclSlot(w.t.shared[i], w.t.excl[i], w.sharers[i], w.owners[i], f, unlock);
      }
    }
  }

  lemma SharedSlot<F>(n: int, excl: bool, sharers: multiset<F>, owners: set<F>, f: F, unlock: bool)
    requires Holds(n, excl, sharers, owners) && (unlock || !excl)
    ensures
      Holds(SharedAfter(n, unlock, true), ExclAfter(excl, unlock, true), SharersAfter(sharers, f, unlock), owners) <==>
      (unlock ==> f in sharers || sharers == multiset{})
  {
  }

  lemma ExclSlot<F>(n: int, excl: bool, sharers: multiset<F>, owners: set<F>, f: F, unlock: bool)
    requires Holds(n, excl, sharers, owners) && (unlock || (!excl && n <= 0))
    ensures
      Holds(SharedAfter(n, unlock, false), ExclAfter(excl, unlock, false), sharers, OwnersAfter(owners, f, unlock)) <==>
      (unlock ==> f in owners || owners == {})
  {
    if unlock && f in owners { OnlyOne(owners, f); }
    if !unlock { assert OwnersAfter(owners, f, unlock) == {f}; }
  }

  lemma OnlyOne<F>(s: set<F>, f: F)
    requires f in s && |s| <= 1
    ensures s == {f}
  {
    assert s == (s - {f}) + {f};
    assert |s - {f}| == 0;
  }

  lemma SlotAfterLeave<F>(w: World<F>, f: F, i: int)
    requires Exact(w) && 0 <= i < SLOTS
    ensures SlotExact(Next(w, Leave(f)).0, i) <==> f !in w.sharers[i] && f !in w.owners[i]
  {
    var x := Next(w, Leave(f)).0;
    assert SlotExact(w, i);
    if f in w.owners[i] { OnlyOne(w.owners[i], f); }
    assert w.sharers[i] == w.sharers[i][f := 0][f := w.sharers[i][f]];
  }

  /** An event keeps the table exact if and only if it is harmless: the discipline is
      exactly what the table needs, no more. */
  lemma ExactIffHarmless<F>(w: World<F>, e: Event<F>)
    requires Exact(w)
    ensures Exact(Next(w, e).0) <==> Harmless(w, e)
  {
    hide SlotExact;
    match e
    case Leave(f) =>
      forall i | 0 <= i < SLOTS { SlotAfterLeave(w, f, i); }
    case Ask(f, offset, n, unlock, shared) =>
      if Next(w, e).1 == OK {
        forall i | 0 <= i < SLOTS { SlotAfterAsk(w, f, offset, n, unlock, shared, i); }
      }
  }

  ghost predicate Free<F>(w: World<F>, i: int, shared: bool)
    requires Sized(w) && 0 <= i < SLOTS
  {
    w.owners[i] == {} && (shared || w.sharers[i] == multiset{})
  }

  /** A lock request is granted if and only if no slot it names conflicts, and then on
      every slot; a refused request changes nothing. SHARED conflicts with an exclusive
      owner; EXCLUSIVE conflicts with any holder at all, the requester included. */
  lemma GrantedIff<F>(w: World<F>, f: F, offset: int, n: int, shared: bool)
    requires Exact(w) && InRange(offset, offset + n)
    ensures var (x, rc) := Next(w, Ask(f, offset, n, false, shared));
      && (rc == OK <==> forall i :: offset <= i < offset + n ==> Free(w, i, shared))
      && (rc != OK ==> x == w)
      && (rc == OK ==> forall i :: offset <= i < offset + n ==>
            if shared then x.sharers[i] == w.sharers[i] + multiset{f} else x.owners[i] == {f})
  {
    forall i | 0 <= i < SLOTS
      ensures Free(w, i, shared) <==> !(w.t.excl[i] || (!shared && w.t.shared[i] > 0))
    {
      assert SlotExact(w, i);
    }
    var (x, rc) := Next(w, Ask(f, offset, n, false, shared));
    if rc == OK && !shared {
      forall i | offset <= i < offset + n ensures x.owners[i] == {f} {
        assert Free(w, i, shared);
        assert x.owners[i] == {} + {f};
      }
    }
  }

  lemma SlotRestored<F>(w: World<F>, f: F, offset: int, n: int, shared: bool, i: int)
    requires Exact(w) && Next(w, Ask(f, offset, n, false, shared)).1 == OK && 0 <= i < SLOTS
    ensures var x := Next(w, Ask(f, offset, n, false, shared)).0;
      Sized(x) && var (y, rc) := Next(x, Ask(f, offset, n, true, shared));
      && Sized(y) && rc == OK
      && y.t.shared[i] == w.t.shared[i] && y.t.excl[i] == w.t.excl[i]
      && y.sharers[i] == w.sharers[i] && y.owners[i] == w.owners[i]
  {
    assert SlotExact(w, i);
  }

  /** Giving back exactly what a granted request took restores the table and its holders. */
  lemma UnlockUndoesLock<F>(w: World<F>, f: F, offset: int, n: int, shared: bool)
    requires Exact(w) && Next(w, Ask(f, offset, n, false, shared)).1 == OK
    ensures var x := Next(w, Ask(f, offset, n, false, shared)).0;
      Sized(x) && Next(x, Ask(f, offset, n, true, shared)) == (w, OK)
  {
    hide Next, SlotExact;
    forall i | 0 <= i < SLOTS { SlotRestored(w, f, offset, n, shared, i); }
    SlotRestored(w, f, offset, n, shared, 0);
    var x := Next(w, Ask(f, offset, n, false, shared)).0;
    var y := Next(x, Ask(f, offset, n, true, shared)).0;
    assert y.t.shared == w.t.shared && y.t.excl == w.t.excl && y.sharers == w.sharers && y.owners == w.owners;
  }

  ghost predicate IsRun<F>(run: seq<World<F>>, es: seq<Event<F>>) {
    && |run| == |es| + 1
    && (forall i {:trigger es[i]} :: 0 <= i < |es| ==> Sized(run[i]) && run[i + 1] == Next(run[i], es[i]).0)
  }

  const FREE: Table := Table(seq(SLOTS, _ => 0), seq(SLOTS, _ => false))

  ghost function Idle<F>(): World<F> {
    World(FREE, seq(SLOTS, _ => multiset{}), seq(SLOTS, _ => {}))
  }

  /** In every run of requests and detachings that are harmless, each slot's count is its
      number of true SHARED holders, and EXCLUSIVE never coexists with any other holder. */
  lemma {:induction false} RunsAreExact<F>(run: seq<World<F>>, es: seq<Event<F>>, i: nat)
    requires IsRun(run, es) && i < |run| && run[0] == Idle()
    requires forall k {:trigger es[k]} :: 0 <= k < |es| ==> Harmless(run[k], es[k])
    ensures Exact(run[i])
    decreases i
  {
    if i > 0 {
      RunsAreExact(run, es, i - 1);
      var e := es[i - 1];
      ExactIffHarmless(run[i - 1], e);
    } else {
      IdleIsExact<F>();
    }
  }

  lemma IdleIsExact<F>()
    ensures Exact(Idle<F>())
  {
  }

  /** Without that discipline it fails: file 1 takes slot 0 EXCLUSIVE, file 2 unlocks it,
      and file 3 is granted EXCLUSIVE beside file 1. */
  lemma StrangerUnlockBreaks()
    ensures
      var a := Next(Idle<int>(), Ask(1, 0, 1, false, false)).0;
      Sized(a) && var b := Next(a, Ask(2, 0, 1, true, false)).0;
      Sized(b) && var (c, rc) := Next(b, Ask(3, 0, 1, false, false));
      && Exact(a) && !Harmless(a, Ask(2, 0, 1, true, false)) && !Exact(b)
      && rc == OK && Sized(c) && c.owners[0] == {1, 3} && !Exact(c)
  {
    var a := Next(Idle<int>(), Ask(1, 0, 1, false, false)).0;
    IdleIsExact<int>();
    ExactIffHarmless(Idle<int>(), Ask(1, 0, 1, false, false));
    assert a.t.excl[0] && a.owners[0] == {1};
    var b := Next(a, Ask(2, 0, 1, true, false)).0;
    ExactIffHarmless(a, Ask(2, 0, 1, true, false));
    assert !b.t.excl[0] && b.t.shared[0] == 0 && b.owners[0] == {1};
    var c := Next(b, Ask(3, 0, 1, false, false)).0;
    assert 1 in c.owners[0] && 3 in c.owners[0];
    assert c.owners[0] == {1, 3} && |c.owners[0]| == 2;
    assert !SlotExact(c, 0);
  }
}
