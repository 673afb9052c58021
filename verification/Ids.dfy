/** The id generator behind every callback registry (idGen in sqlite.go): a growing
    slice of 64-bit words, one bit per id, ids counted from 1. */
module Ids {

  // ---- 64-bit words as numbers ----

  function Pow2(w: nat): (p: nat)
    ensures p >= 1
  {
    if w == 0 then 1 else 2 * Pow2(w - 1)
  }

  const FULL: nat := 0xFFFF_FFFF_FFFF_FFFF

  /** Bit `n` of a word. */
  predicate Bit(b: nat, n: nat) {
    if n == 0 then b % 2 == 1 else Bit(b / 2, n - 1)
  }

  /** b | 1<<n */
  function SetBit(b: nat, n: nat): nat {
    if n == 0 then b / 2 * 2 + 1 else SetBit(b / 2, n - 1) * 2 + b % 2
  }

  /** b &^ 1<<n */
  function ClearBit(b: nat, n: nat): nat {
    if n == 0 then b / 2 * 2 else ClearBit(b / 2, n - 1) * 2 + b % 2
  }

  /** The number of trailing zeros of ^b, for a word that has a clear bit. */
  function LowestClear(b: nat, w: nat): (n: nat)
    requires b < Pow2(w) - 1
    ensures n < w && !Bit(b, n) && forall m: nat :: m < n ==> Bit(b, m)
    decreases w
  {
    if b % 2 == 0 then 0
    else
      var n := LowestClear(b / 2, w - 1);
      assert forall m: nat :: m < n + 1 ==> Bit(b, m) by {
        forall m: nat | m < n + 1
          ensures Bit(b, m)
        {
          if m > 0 { assert Bit(b / 2, m - 1); }
        }
      }
      n + 1
  }

  lemma Halves(q: nat, r: nat)
    requires r < 2
    ensures (q * 2 + r) / 2 == q && (q * 2 + r) % 2 == r
  {
  }

  lemma {:induction false} BitOfSet(b: nat, n: nat, m: nat)
    ensures Bit(SetBit(b, n), m) <==> m == n || Bit(b, m)
    decreases n
  {
    if n == 0 {
      Halves(b / 2, 1);
    } else {
      Halves(SetBit(b / 2, n - 1), b % 2);
      if m > 0 { BitOfSet(b / 2, n - 1, m - 1); }
    }
  }

  lemma {:induction false} BitOfClear(b: nat, n: nat, m: nat)
    ensures Bit(ClearBit(b, n), m) <==> m != n && Bit(b, m)
    decreases n
  {
    if n == 0 {
      Halves(b / 2, 0);
    } else {
      Halves(ClearBit(b / 2, n - 1), b % 2);
      if m > 0 { BitOfClear(b / 2, n - 1, m - 1); }
    }
  }

  lemma HalfFits(b: nat, p: nat)
    requires b < 2 * p
    ensures b / 2 < p
  {
  }

  lemma DoubleFits(x: nat, r: nat, p: nat)
    requires x < p && r < 2
    ensures x * 2 + r < 2 * p
  {
  }

  lemma {:induction false} SetStaysAWord(b: nat, n: nat, w: nat)
    requires b < Pow2(w) && n < w
    ensures SetBit(b, n) < Pow2(w)
    decreases w
  {
    var p := Pow2(w - 1);
    HalfFits(b, p);
    if n == 0 {
      DoubleFits(b / 2, 1, p);
    } else {
      SetStaysAWord(b / 2, n - 1, w - 1);
      DoubleFits(SetBit(b / 2, n - 1), b % 2, p);
    }
  }

  lemma {:induction false} ClearStaysAWord(b: nat, n: nat, w: nat)
    requires b < Pow2(w) && n < w
    ensures ClearBit(b, n) < Pow2(w)
    decreases w
  {
    var p := Pow2(w - 1);
    HalfFits(b, p);
    if n == 0 {
      DoubleFits(b / 2, 0, p);
    } else {
      ClearStaysAWord(b / 2, n - 1, w - 1);
      DoubleFits(ClearBit(b / 2, n - 1), b % 2, p);
    }
  }

  lemma {:induction false} AllBits(w: nat, n: nat)
    requires n < w
    ensures Bit(Pow2(w) - 1, n)
    decreases w
  {
    assert (Pow2(w) - 1) / 2 == Pow2(w - 1) - 1 && (Pow2(w) - 1) % 2 == 1;
    if n > 0 {
      AllBits(w - 1, n - 1);
    }
  }

  lemma WordSize()
    ensures Pow2(64) - 1 == FULL
  {
    assert Pow2(4) == 16;
    Pow2Add(4, 4);
    Doubled(8, 0x100);
    Doubled(16, 0x1_0000);
    Doubled(32, 0x1_0000_0000);
  }

  lemma {:induction false} Doubled(w: nat, p: nat)
    requires Pow2(w) == p
    ensures Pow2(2 * w) == p * p
  {
    Pow2Add(w, w);
  }

  lemma {:induction false} Pow2Add(a: nat, b: nat)
    ensures Pow2(a + b) == Pow2(a) * Pow2(b)
    decreases a
  {
    if a > 0 {
      Pow2Add(a - 1, b);
      assert Pow2(a + b) == 2 * Pow2(a - 1 + b);
    }
  }

  // ---- the live ids ----

  predicate IsLive(bitset: seq<nat>, id: int) {
    1 <= id <= 64 * |bitset| && Bit(bitset[(id - 1) / 64], (id - 1) % 64)
  }

  function Live(bitset: seq<nat>): set<int> {
    set id | 1 <= id <= 64 * |bitset| && IsLive(bitset, id)
  }

  ghost predicate Words(bitset: seq<nat>) {
    forall i :: 0 <= i < |bitset| ==> bitset[i] <= FULL
  }

  /** `id` is the least id not in use. */
  ghost predicate LeastFree(live: set<int>, id: int) {
    && id >= 1 && id !in live
    && forall j :: 1 <= j < id ==> j in live
  }

  /** The least free id is at most one more than the number of live ones. */
  lemma {:induction false} LeastFreeBound(live: set<int>, id: int)
    requires id >= 1 && forall j :: 1 <= j < id ==> j in live
    ensures id <= |live| + 1
    decreases id
  {
    if id > 1 {
      LeastFreeBound(live - {id - 1}, id - 1);
      assert id - 1 in live;
    }
  }

  lemma ChangedWord(bitset: seq<nat>, i: nat, n: nat, b: nat, live: bool)
    requires i < |bitset| && n < 64
    requires forall m: nat :: m < 64 ==> (Bit(b, m) <==> if m == n then live else Bit(bitset[i], m))
    ensures var id := 1 + 64 * i + n;
      Live(bitset[i := b]) == if live then Live(bitset) + {id} else Live(bitset) - {id}
  {
    var id := 1 + 64 * i + n;
    assert (id - 1) / 64 == i && (id - 1) % 64 == n;
    forall x | 1 <= x <= 64 * |bitset|
      ensures IsLive(bitset[i := b], x) <==> if x == id then live else IsLive(bitset, x)
    {
      var m := (x - 1) % 64;
      assert m < 64;
      if (x - 1) / 64 == i {
        assert Bit(b, m) <==> if m == n then live else Bit(bitset[i], m);
      }
    }
  }

  class IdGen {
    var bitset: seq<nat>

    ghost predicate Valid()
      reads this
    {
      Words(bitset)
    }

    constructor ()
      ensures Valid() && Live(bitset) == {}
    {
      bitset := [];
    }

    /** The least free id, now live. */
    method Next() returns (id: int)
      requires Valid()
      modifies this
      ensures Valid()
      ensures LeastFree(old(Live(bitset)), id)
      ensures Live(bitset) == old(Live(bitset)) + {id}
    {
      hide Bit, SetBit, IsLive, Pow2;
      WordSize();
      for i := 0 to |bitset|
        invariant bitset == old(bitset)
        invariant forall j :: 0 <= j < i ==> bitset[j] == FULL
      {
        var b := bitset[i];
        if b != FULL {
          var n := LowestClear(b, 64);
          SetStaysAWord(b, n, 64);
          forall m: nat | m < 64 { BitOfSet(b, n, m); }
          ChangedWord(bitset, i, n, SetBit(b, n), true);
          id := 1 + 64 * i + n;
          AllBelowLive(bitset, i, n);
          NotLive(bitset, i, n);
          bitset := bitset[i := SetBit(b, n)];
          return;
        }
      }
      id := 1 + 64 * |bitset|;
      AllBelowLive(bitset, |bitset|, 0);
      NotLive(bitset, |bitset|, 0);
      FreshWord(bitset);
      bitset := bitset + [1];
    }

    /** Free one id; zero and ids this generator never covered are ignored. */
    method Reclaim(id: nat)
      requires Valid()
      modifies this
      ensures Valid()
      ensures Live(bitset) == old(Live(bitset)) - {id}
    {
      if id == 0 {
        return;
      }
      var bit := id - 1;
      var word := bit / 64;
      if word >= |bitset| {
        return;
      }
      WordSize();
      ClearStaysAWord(bitset[word], bit % 64, 64);
      forall m: nat | m < 64 { BitOfClear(bitset[word], bit % 64, m); }
      ChangedWord(bitset, word, bit % 64, ClearBit(bitset[word], bit % 64), false);
      assert 1 + 64 * word + bit % 64 == id;
      bitset := bitset[word := ClearBit(bitset[word], bit % 64)];
    }
  }

  lemma AllBelowLive(bitset: seq<nat>, i: nat, n: nat)
    requires i <= |bitset| && n < 64
    requires forall j :: 0 <= j < i ==> bitset[j] == FULL
    requires i < |bitset| ==> forall m: nat :: m < n ==> Bit(bitset[i], m)
    requires i == |bitset| ==> n == 0
    ensures forall x :: 1 <= x < 1 + 64 * i + n ==> x in Live(bitset)
  {
    WordSize();
    forall x | 1 <= x < 1 + 64 * i + n
      ensures IsLive(bitset, x)
    {
      if (x - 1) / 64 < i {
        AllBits(64, (x - 1) % 64);
      }
    }
  }

  lemma {:induction false} NotLive(bitset: seq<nat>, i: nat, n: nat)
    requires i <= |bitset| && n < 64
    requires i < |bitset| ==> !Bit(bitset[i], n)
    ensures 1 + 64 * i + n !in Live(bitset)
  {
  }

  lemma FreshWord(bitset: seq<nat>)
    ensures Live(bitset + [1]) == Live(bitset) + {1 + 64 * |bitset|}
  {
    var more := bitset + [1];
    forall x | 1 <= x <= 64 * |more|
      ensures IsLive(more, x) <==> x == 1 + 64 * |bitset| || IsLive(bitset, x)
    {
      if (x - 1) / 64 == |bitset| {
        OnlyBitZero((x - 1) % 64);
      }
    }
  }

  lemma {:induction false} OnlyBitZero(n: nat)
    ensures Bit(1, n) <==> n == 0
    ensures !Bit(0, n)
    decreases n
  {
    if n > 0 { OnlyBitZero(n - 1); }
  }
}
