/** Laws of whole sessions on one connection, read off the log of `Statements.Session`. */
module StatementLaws {
  import opened Bytes
  import opened Statements

  /** A session as seen from outside: any calls, each doing what it says. */
  ghost predicate IsSession(log: seq<Snap>, calls: seq<Call>) {
    && |log| == |calls| + 1 && log[0].ord == []
    && (forall i :: 0 <= i < |log| ==> Exact(log[i]))
    && (forall i {:trigger calls[i]} :: 0 <= i < |calls| ==> Did(log[i], calls[i], log[i + 1]))
  }

  /** The key a call donates a pair under, if it does: a closed statement's, or that of a one-shot
      query which failed after its statement was there. */
  ghost function DonatedKey(x: Snap, c: Call): Option<string> {
    match c
    case CloseStmt(s) =>
      if s in x.stmts && Unlent(x.stmts, x.rows, s) && DonatesIn(x, s) then Some(Normalize(x.stmts[s].cacheKey))
      else None
    case QueryOnce(sql, o, single, ps) =>
      if FailsOnce(HitIn(x, sql), o, single, ps) && (HitIn(x, sql) || o.Handle?) && x.cap > 0 && Normalize(sql) != ""
      then Some(Normalize(sql))
      else None
    case _ => None
  }

  /** The last of the first `i` calls that donated under `key`; -1 if none did. */
  ghost function LastDonation(log: seq<Snap>, calls: seq<Call>, key: string, i: nat): int
    requires i <= |calls| < |log|
  {
    if i == 0 then -1
    else if DonatedKey(log[i - 1], calls[i - 1]) == Some(key) then i - 1
    else LastDonation(log, calls, key, i - 1)
  }

  lemma {:induction false} LastDonationBefore(log: seq<Snap>, calls: seq<Call>, key: string, i: nat)
    requires i <= |calls| < |log|
    ensures -1 <= LastDonation(log, calls, key, i) < i
    decreases i
  {
    if i > 0 { LastDonationBefore(log, calls, key, i - 1); }
  }

  // ---- the cache is in donation order ----

  /** Highest rank first. */
  ghost predicate Descending(s: seq<string>, rank: string -> int) {
    forall p, q :: 0 <= p < q < |s| ==> rank(s[p]) > rank(s[q])
  }

  lemma {:induction false} WithoutDescending(s: seq<string>, k: string, rank: string -> int)
    requires Descending(s, rank)
    ensures Descending(Without(s, k), rank)
    decreases |s|
  {
    if s != [] {
      WithoutDescending(s[1..], k, rank);
      var rest := Without(s[1..], k);
      forall x | x in rest
        ensures rank(s[0]) > rank(x)
      {
        assert x in s[1..];
      }
    }
  }

  /** What one call does to the order: some keys leave, and a donated one goes in front. */
  ghost predicate Thinned(before: seq<string>, after: seq<string>) {
    && (forall x :: x in after ==> x in before)
    && (forall rank: string -> int :: Descending(before, rank) ==> Descending(after, rank))
  }

  lemma ThinnedSame(s: seq<string>)
    ensures Thinned(s, s)
  {
  }

  lemma {:induction false} ThinnedWithout(s: seq<string>, k: string)
    ensures Thinned(s, Without(s, k))
  {
    forall rank: string -> int | Descending(s, rank)
      ensures Descending(Without(s, k), rank)
    {
      WithoutDescending(s, k, rank);
    }
  }

  lemma ThinnedTwice(a: seq<string>, b: seq<string>, c: seq<string>)
    requires Thinned(a, b) && Thinned(b, c)
    ensures Thinned(a, c)
  {
  }

  lemma DonatedOrder(cap: int, was: map<string, Entry>, order: seq<string>, key: string, p: int, h: int,
                     m: map<string, Entry>, ord: seq<string>)
    requires DonatedTo(cap, was, order, key, p, h, m, ord) && forall k :: k in was <==> k in order
    ensures ord != [] && ord[0] == key && Thinned(order, ord[1..]) && key !in ord[1..]
  {
    hide Thinned;
    ThinnedSame(order);
    if key in was {
      ThinnedWithout(order, key);
    } else if |order| >= cap && order != [] {
      ThinnedWithout(order, order[|order| - 1]);
    }
  }

  lemma NextOrder(x: Snap, c: Call, y: Snap)
    requires Did(x, c, y) && Exact(x)
    ensures var key := DonatedKey(x, c);
      if key.None? then Thinned(x.ord, y.ord)
      else y.ord != [] && y.ord[0] == key.value && key.value !in y.ord[1..] && Thinned(x.ord, y.ord[1..])
  {
    hide Thinned, Normalize, Ran, HandlesOk, StringsOk, OriginsOk, Out, Distinct, RowsIn, OnceIn, NewIn;
    ThinnedSame(x.ord);
    match c
    case Prepare(sql, o) =>
      ThinnedWithout(x.ord, Normalize(sql));
    case CloseStmt(s) =>
      if DonatedKey(x, c).Some? {
        var st := x.stmts[s];
        DonatedOrder(x.cap, x.m, x.ord, Normalize(st.cacheKey), st.psql, st.pstmt, y.m, y.ord);
      }
    case QueryOnce(sql, o, single, ps) =>
      ThinnedWithout(x.ord, Normalize(sql));
      if FailsOnce(HitIn(x, sql), o, single, ps) {
        FailedOrder(x, Normalize(sql), HitIn(x, sql), o, y);
      }
    case _ =>
  }

  lemma FailedOrder(x: Snap, key: string, hit: bool, o: Prepared, y: Snap)
    requires FailedOnce(x.cap, x.m, x.ord, key, hit, o, y.m, y.ord)
    requires forall k :: k in x.m <==> k in x.ord
    ensures if (hit || o.Handle?) && x.cap > 0 && key != "" then
        y.ord != [] && y.ord[0] == key && key !in y.ord[1..] && Thinned(x.ord, y.ord[1..])
      else Thinned(x.ord, y.ord)
  {
    hide Thinned, Out;
    ThinnedSame(x.ord);
    ThinnedWithout(x.ord, key);
    var m, ord := if hit then x.m - {key} else x.m, if hit then Without(x.ord, key) else x.ord;
    if (hit || o.Handle?) && x.cap > 0 && key != "" {
      DonatedOrder(x.cap, m, ord, key, y.m[key].psql, y.m[key].pstmt, y.m, y.ord);
      ThinnedTwice(x.ord, ord, y.ord[1..]);
    }
  }

  /** Ranks by last donation stay descending over one call. */
  lemma RankedNext(before: seq<string>, after: seq<string>, key: Option<string>, rank: string -> int,
                   rank': string -> int, n: int)
    requires Descending(before, rank) && forall k :: k in before ==> 0 <= rank(k) < n
    requires if key.None? then Thinned(before, after)
             else after != [] && after[0] == key.value && key.value !in after[1..] && Thinned(before, after[1..])
    requires n >= 0 && forall k :: rank'(k) == if key == Some(k) then n else rank(k)
    ensures Descending(after, rank') && forall k :: k in after ==> 0 <= rank'(k)
  {
    var rest := if key.Some? then after[1..] else after;
    assert Descending(rest, rank) && forall k :: k in rest ==> k in before;
    forall p, q | 0 <= p < q < |after| ensures rank'(after[p]) > rank'(after[q]) {
      var d := if key.Some? then 1 else 0;
      assert after[q] == rest[q - d];
      if p >= d { assert after[p] == rest[p - d]; }
    }
    forall k | k in after ensures 0 <= rank'(k) {
      if key != Some(k) { assert k in rest; }
    }
  }

  ghost function Rank(log: seq<Snap>, calls: seq<Call>, i: nat): string -> int
    requires i <= |calls| < |log|
  {
    k => LastDonation(log, calls, k, i)
  }

  lemma RankNext(log: seq<Snap>, calls: seq<Call>, i: nat)
    requires i < |calls| < |log|
    ensures var key, was, now := DonatedKey(log[i], calls[i]), Rank(log, calls, i), Rank(log, calls, i + 1);
      forall k :: now(k) == if key == Some(k) then i else was(k)
    ensures forall k :: Rank(log, calls, i)(k) < i
  {
    hide DonatedKey;
    forall k ensures Rank(log, calls, i)(k) < i { LastDonationBefore(log, calls, k, i); }
  }

  lemma {:induction false} Ranked(log: seq<Snap>, calls: seq<Call>, i: nat)
    requires IsSession(log, calls) && i < |log|
    ensures Descending(log[i].ord, Rank(log, calls, i))
    ensures forall k :: k in log[i].ord ==> 0 <= Rank(log, calls, i)(k)
    decreases i
  {
    hide Exact, Did, DonatedKey, Descending, Thinned, LastDonation, Rank;
    if i > 0 {
      var n, x, y, c := i - 1, log[i - 1], log[i], calls[i - 1];
      Ranked(log, calls, n);
      assert Exact(x) && Did(x, c, y);
      NextOrder(x, c, y);
      RankNext(log, calls, n);
      RankedNext(x.ord, y.ord, DonatedKey(x, c), Rank(log, calls, n), Rank(log, calls, i), n);
    } else {
      NothingRanked(Rank(log, calls, i));
    }
  }

  lemma NothingRanked(rank: string -> int)
    ensures Descending([], rank)
  {
  }

  /** In every session the cache lists its keys by their last donation, the latest first, and every
      key it lists was donated at some time. */
  lemma {:induction false} CacheIsDonationOrder(log: seq<Snap>, calls: seq<Call>, i: nat)
    requires IsSession(log, calls) && i < |log|
    ensures var ord := log[i].ord;
      && (forall p, q :: 0 <= p < q < |ord| ==>
            LastDonation(log, calls, ord[p], i) > LastDonation(log, calls, ord[q], i))
      && (forall p :: 0 <= p < |ord| ==> LastDonation(log, calls, ord[p], i) >= 0)
  {
    hide Exact, Did, LastDonation;
    Ranked(log, calls, i);
    var ord, rank := log[i].ord, Rank(log, calls, i);
    forall p, q | 0 <= p < q < |ord|
      ensures LastDonation(log, calls, ord[p], i) > LastDonation(log, calls, ord[q], i)
    {
      assert rank(ord[p]) > rank(ord[q]);
    }
    forall p | 0 <= p < |ord| ensures LastDonation(log, calls, ord[p], i) >= 0 { assert 0 <= rank(ord[p]); }
  }

  /** A closed statement's donation to a full cache that lacks its key evicts exactly the key whose
      last donation is the longest ago; any other donation evicts no key. */
  lemma EvictsOldest(log: seq<Snap>, calls: seq<Call>, i: nat, s: int, key: string)
    requires IsSession(log, calls) && i < |calls| && calls[i] == CloseStmt(s)
    requires DonatedKey(log[i], calls[i]) == Some(key)
    ensures var x, y := log[i], log[i + 1];
      && y.m.Keys - {key} <= x.m.Keys && key in y.m
      && (key in x.m || |x.ord| < x.cap ==> x.m.Keys <= y.m.Keys)
      && (key !in x.m && |x.ord| >= x.cap ==>
            exists k :: Oldest(log, calls, i, k) && x.m.Keys - y.m.Keys == {k})
  {
    hide Exact, Did, DonatedTo, Unlent, Normalize, LastDonation;
    var x, y := log[i], log[i + 1];
    assert Exact(x) && Did(x, calls[i], y);
    CacheKeys(x);
    var st := x.stmts[s];
    ClosedDonates(x, s, y);
    DonatedKeys(x.cap, x.m, x.ord, key, st.psql, st.pstmt, y.m, y.ord);
    if key !in x.m && |x.ord| >= x.cap { LastIsOldest(log, calls, i); }
  }

  lemma ClosedDonates(x: Snap, s: int, y: Snap)
    requires Did(x, Call.CloseStmt(s), y) && DonatedKey(x, Call.CloseStmt(s)).Some?
    ensures var st := x.stmts[s];
      x.cap > 0 && DonatedTo(x.cap, x.m, x.ord, Normalize(st.cacheKey), st.psql, st.pstmt, y.m, y.ord)
  {
    hide Normalize, DonatedTo, Ran;
  }

  lemma DonatedKeys(cap: int, was: map<string, Entry>, order: seq<string>, key: string, p: int, h: int,
                    m: map<string, Entry>, ord: seq<string>)
    requires DonatedTo(cap, was, order, key, p, h, m, ord) && cap > 0 && forall k :: k in was <==> k in order
    ensures key in m && m.Keys - {key} <= was.Keys
    ensures key in was || |order| < cap ==> was.Keys <= m.Keys
    ensures key !in was && |order| >= cap ==> order[|order| - 1] in was && was.Keys - m.Keys == {order[|order| - 1]}
  {
    hide Without;
    if key !in was && |order| >= cap {
      var k := order[|order| - 1];
      assert k in order && m.Keys == was.Keys - {k} + {key};
    }
  }

  lemma LastIsOldest(log: seq<Snap>, calls: seq<Call>, i: nat)
    requires IsSession(log, calls) && i < |calls| && log[i].ord != []
    ensures Oldest(log, calls, i, log[i].ord[|log[i].ord| - 1])
  {
    hide Exact, Did, LastDonation;
    var ord := log[i].ord;
    CacheKeys(log[i]);
    CacheIsDonationOrder(log, calls, i);
    forall j | j in log[i].m && j != ord[|ord| - 1]
      ensures LastDonation(log, calls, ord[|ord| - 1], i) < LastDonation(log, calls, j, i)
    {
      var p :| 0 <= p < |ord| && ord[p] == j;
    }
  }

  lemma CacheKeys(x: Snap)
    requires Exact(x)
    ensures forall k :: k in x.m <==> k in x.ord
  {
  }

  /** Of all cached keys, `k` is the one donated the longest ago. */
  ghost predicate Oldest(log: seq<Snap>, calls: seq<Call>, i: nat, k: string)
    requires i < |calls| < |log|
  {
    && k in log[i].m
    && forall j :: j in log[i].m && j != k ==> LastDonation(log, calls, k, i) < LastDonation(log, calls, j, i)
  }
}
