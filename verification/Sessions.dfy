/** One database opened in session after session (Open in blobstore/blobstore.go), each
    with its own dedup flag and default compression: when the refinement survives, and
    how it fails when dedup is switched on, off and on again. */
module Sessions {
  import opened Bytes
  import opened Codec
  import opened Blocks
  import opened Objects
  import opened Versions
  import opened BlobStore
  import opened History

  datatype Session = Session(dedup: bool, compression: int, chunkSize: int, ops: seq<Op>)

  /** The calls of all sessions, one after the other. */
  function AllOps(ss: seq<Session>): seq<Op> {
    if ss == [] then [] else AllOps(ss[..|ss| - 1]) + Calls(ss[|ss| - 1])
  }

  function Calls(s: Session): seq<Op> {
    On(s.chunkSize, s.ops)
  }

  /** Dedup is never turned on again once it has been on and then off. */
  ghost predicate Unbroken(ss: seq<Session>) {
    forall i, j, k :: 0 <= i < j < k < |ss| && ss[i].dedup && !ss[j].dedup ==> !ss[k].dedup
  }

  /** Every session opens the store with a chunk size that Open accepts. */
  ghost predicate Sized(ss: seq<Session>) {
    forall n :: 0 <= n < |ss| ==> 0 < ss[n].chunkSize <= MAX_CHUNK
  }

  ghost predicate EverOn(ss: seq<Session>) {
    exists i :: 0 <= i < |ss| && ss[i].dedup
  }

  /** Who keeps the hash column during session `n`. */
  ghost function IndexingAt(ss: seq<Session>, n: int): Indexing
    requires 0 <= n < |ss|
  {
    if ss[n].dedup then Indexed else if EverOn(ss[..n]) then Lapsed else Unhashed
  }

  /** What one session leaves is what the next one needs. */
  lemma NextIndexing(env: Env, ss: seq<Session>, n: int, blocks: BlockTable)
    requires Unbroken(ss) && 0 < n < |ss| && HashInv(env, IndexingAt(ss, n - 1), blocks)
    ensures HashInv(env, IndexingAt(ss, n), blocks)
  {
    var last := ss[n - 1];
    if EverOn(ss[..n - 1]) {
      var i :| 0 <= i < n - 1 && ss[..n - 1][i].dedup;
      assert ss[i].dedup && ss[..n][i].dedup;
      assert !last.dedup ==> !ss[n].dedup;
    } else {
      assert last.dedup ==> ss[..n][n - 1].dedup;
      assert EverOn(ss[..n]) ==> last.dedup;
    }
  }

  lemma FirstIndexing(env: Env, ss: seq<Session>, blocks: BlockTable)
    requires ss != [] && NoHashes(blocks)
    ensures HashInv(env, IndexingAt(ss, 0), blocks)
  {
  }

  // ---- putting runs end to end ----

  lemma Joined(t: seq<Abs>, ops: seq<Op>, outs: seq<Out>, u: seq<Abs>, ops': seq<Op>, outs': seq<Out>)
    requires IsTrace(t, ops, outs) && IsTrace(u, ops', outs') && u[0] == t[|ops|]
    ensures IsTrace(t + u[1..], ops + ops', outs + outs')
    ensures (t + u[1..])[0] == t[0] && (t + u[1..])[|ops + ops'|] == u[|ops'|]
  {
    hide Step, Legal;
    var tt, oo, xx := t + u[1..], ops + ops', outs + outs';
    forall i | 0 <= i < |oo|
      ensures Legal(tt[i], oo[i]) && Step(tt[i], oo[i], xx[i], tt[i + 1])
    {
      if i < |ops| {
        assert oo[i] == ops[i];
      } else {
        var j := i - |ops|;
        assert oo[i] == ops'[j] && xx[i] == outs'[j] && tt[i] == u[j] && tt[i + 1] == u[j + 1];
      }
    }
  }

  lemma {:induction false} AllOpsPrefix(ss: seq<Session>, n: int)
    requires 0 <= n <= |ss|
    ensures AllOps(ss[..n]) <= AllOps(ss)
    decreases |ss|
  {
    if n < |ss| {
      var front := ss[..|ss| - 1];
      assert front[..n] == ss[..n];
      AllOpsPrefix(front, n);
    } else {
      assert ss[..n] == ss;
    }
  }

  lemma {:induction false} AllOpsNext(ss: seq<Session>, n: int)
    requires 0 <= n < |ss|
    ensures AllOps(ss[..n + 1]) == AllOps(ss[..n]) + Calls(ss[n])
    ensures AllOps(ss[..n + 1]) <= AllOps(ss)
  {
    assert ss[..n + 1][..n] == ss[..n];
    AllOpsPrefix(ss, n + 1);
  }

  /** A run that stopped inside session `n`. */
  lemma {:induction false} Stopped(ss: seq<Session>, n: int, t: seq<Abs>, outs: seq<Out>, u: seq<Abs>, outs': seq<Out>)
    requires 0 <= n < |ss| && |outs'| < |Calls(ss[n])|
    requires IsTrace(t, AllOps(ss[..n]), outs) && Follows(u, Calls(ss[n]), outs')
    requires u[0] == t[|outs|]
    ensures Follows(t + u[1..], AllOps(ss), outs + outs')
    ensures (t + u[1..])[0] == t[0]
  {
    hide Step, Legal, AllOps, Calls, IsTrace;
    TraceLengths(t, AllOps(ss[..n]), outs);
    TraceLengths(u, Calls(ss[n])[..|outs'|], outs');
    AllOpsNext(ss, n);
    var before, now, all, k := AllOps(ss[..n]), Calls(ss[n]), AllOps(ss), |outs'|;
    Joined(t, before, outs, u, now[..k], outs');
    assert all[..|before| + |now|] == before + now;
    assert all[..|before| + k] == before + now[..k];
    assert all[|before| + k] == now[k];
  }

  lemma SameTables(s: Store, t: Store)
    requires s.env == t.env && s.objs == t.objs && s.chunks == t.chunks && s.blocks == t.blocks
    requires s.versions == t.versions
    ensures A(s) == A(t)
  {
  }

  lemma HashesOf(s: Store)
    requires s.Inv()
    ensures HashInv(s.env, s.ix, s.blocks)
  {
  }

  /** Refinement over sessions: whatever the dedup flag, default mode and chunk size of each, a
      database whose dedup flag goes off, on and off at most once answers every call of every
      session as one run of the specification machine. */
  method RunSessions(env: Env, ss: seq<Session>) returns (outs: seq<Out>)
    requires env.Sound() && Unbroken(ss) && Sized(ss)
    ensures Answers(AllOps(ss), outs)
  {
    hide Store.Inv, A, IsTrace, Follows, HashInv, IndexingAt, NoHashes, Unbroken, AllOps, Legal, Calls;
    var s := new Store(env, false, COMPRESSION_NONE, false, 1);
    EmptyAbs(s);
    HashesOf(s);
    ghost var trace := [EMPTY];
    outs := [];
    NoSteps(trace);
    NothingYet(ss);
    for n := 0 to |ss|
      invariant fresh(s) && Good(s) && s.env == env
      invariant IsTrace(trace, AllOps(ss[..n]), outs) && |trace| == |outs| + 1 && |outs| == |AllOps(ss[..n])|
      invariant trace[0] == EMPTY && trace[|outs|] == A(s)
      invariant if n == 0 then HashInv(env, Unhashed, s.blocks) else HashInv(env, IndexingAt(ss, n - 1), s.blocks)
    {
      ghost var ix := IndexingAt(ss, n);
      if n == 0 {
        NoneHashed(env, s.blocks);
        FirstIndexing(env, ss, s.blocks);
      } else {
        NextIndexing(env, ss, n, s.blocks);
      }
      IndexedIff(ss, n);
      var next := new Store.Reopen(s, ss[n].dedup, ss[n].compression, false, ss[n].chunkSize, ix);
      SameTables(s, next);
      s := next;
      var more; ghost var u;
      more, u := RunOn(s, ss[n].ops);
      ghost var now := Calls(ss[n]);
      CallsAre(ss[n]);
      Complete(u, now, more);
      if |more| < |ss[n].ops| {
        Stopped(ss, n, trace, outs, u, more);
        outs := outs + more;
        return;
      }
      AllOpsNext(ss, n);
      assert now[..|more|] == now;
      Joined(trace, AllOps(ss[..n]), outs, u, now, more);
      TraceLengths(trace, AllOps(ss[..n]), outs);
      trace, outs := trace + u[1..], outs + more;
      HashesOf(s);
    }
    assert ss[..|ss|] == ss;
    Finished(trace, AllOps(ss), outs);
  }

  lemma CallsAre(s: Session)
    ensures Calls(s) == On(s.chunkSize, s.ops) && |Calls(s)| == |s.ops|
  {
  }

  lemma NothingYet(ss: seq<Session>)
    ensures AllOps(ss[..0]) == []
  {
  }

  lemma NoneHashed(env: Env, blocks: BlockTable)
    requires HashInv(env, Unhashed, blocks)
    ensures NoHashes(blocks)
  {
  }

  lemma IndexedIff(ss: seq<Session>, n: int)
    requires 0 <= n < |ss|
    ensures ss[n].dedup <==> IndexingAt(ss, n).Indexed?
  {
  }

  lemma Complete(u: seq<Abs>, ops: seq<Op>, outs: seq<Out>)
    requires Follows(u, ops, outs)
    ensures |outs| <= |ops| && |u| == |outs| + 1 && IsTrace(u, ops[..|outs|], outs)
  {
  }

  lemma TraceLengths(t: seq<Abs>, ops: seq<Op>, outs: seq<Out>)
    requires IsTrace(t, ops, outs)
    ensures |t| == |ops| + 1 && |outs| == |ops|
  {
  }

  lemma Finished(t: seq<Abs>, ops: seq<Op>, outs: seq<Out>)
    requires IsTrace(t, ops, outs) && t[0] == EMPTY
    ensures Answers(ops, outs)
  {
    assert ops[..|outs|] == ops;
    assert Follows(t, ops, outs);
  }

  // ---- on, off and on again ----

  /** A store with a single chunk row has a single block, and the row owns it. */
  lemma SoleRow(chunks: ChunkTable, blocks: BlockTable, k: ChunkKey)
    requires Counted(chunks, blocks) && chunks.Keys == {k}
    ensures blocks.Keys == {chunks[k]} && blocks[chunks[k]].refs == 1
  {
    forall b | b in blocks ensures b == chunks[k] {
      assert |Refs(chunks, b)| >= 1;
      var j :| j in Refs(chunks, b);
    }
    assert Refs(chunks, chunks[k]) == {k};
    SameSet(blocks.Keys, {chunks[k]});
  }

  /** An object whose content fills exactly one chunk stores it in chunk 0. */
  lemma OneChunk(s: Store, id: int, p: seq<byte>)
    requires s.Loose() && id in s.objs && s.objs[id].chunk == |p| && At(id, 0) in s.chunks
    requires id in s.Meaning() && s.Meaning()[id] == p
    ensures At(id, 0) in s.V() && |p| > 0 && s.objs[id].size == |p| && ChunkPlain(s.env, |p|, s.V(), id, 0) == p
    ensures s.objs[id].codec == CODEC_RAW ==> s.V()[At(id, 0)] == Stored(p, ENC_VERBATIM)
  {
    var v, k, chunk := s.V(), At(id, 0), |p|;
    RowValue(s.chunks, s.blocks, k);
    assert RowOk(s.env, s.objs, k, v[k]);
    ContentsAt(s.env, s.objs, v, id);
    ContentLength(s.env, s.objs[id].size, chunk, v, id);
    SliceOfContent(s.env, s.objs[id].size, chunk, v, id, 0, chunk);
    SliceOfChunk(s.env, chunk, v, id, 0, 0, 0, chunk);
    var c := ChunkPlain(s.env, chunk, v, id, 0);
    assert p[0..chunk] == p && c[0..chunk] == c;
  }

  /** Object `id`, raw and one chunk long, is all the store has; its block holds `data`
      and carries the hash of `named`. */
  ghost predicate Holds(s: Store, id: int, data: seq<byte>, named: seq<byte>)
    reads s
  {
    var k := At(id, 0);
    && s.objs.Keys == {id} && s.objs[id].codec == CODEC_RAW && s.objs[id].chunk == |data|
    && id in s.Meaning() && s.Meaning()[id] == data
    && s.chunks.Keys == {k} && s.blocks.Keys == {s.chunks[k]}
    && s.blocks[s.chunks[k]] == Block(data, ENC_VERBATIM, 1, Some(s.env.digest(named, ENC_VERBATIM)))
  }

  /** Nothing stored yet. */
  ghost predicate Vacant(s: Store)
    reads s
  {
    s.objs == map[] && s.chunks == map[] && s.blocks == map[] && s.versions == map[]
  }

  /** With dedup on, a compressed object is written and turned raw. */
  method FirstOn(on: Store, p: Buffer) returns (id: int)
    requires on.Inv() && on.dedup && !on.readOnly && Vacant(on) && |p| == on.chunkSize
    modifies on
    ensures on.Inv() && Holds(on, id, p, p) && HashesCurrent(on.env, on.blocks) && on.versions == map[]
  {
    hide Store.Inv0, Store.Loose, Store.Meaning, Store.V, VersionInv, Hashed, TookAllAnchors, OthersSame, Holds,
      HashesCurrent;
    id := OneWritten(on, p);
    on.InvIsLoose();
    var err := on.SetCompression(id, COMPRESSION_NONE);
    NoVersions(on.objs, on.versions);
    RawHolds(on, id, p);
  }

  lemma RawHolds(s: Store, id: int, p: seq<byte>)
    requires s.Inv() && s.dedup && s.objs.Keys == {id} && s.objs[id].codec == CODEC_RAW && s.objs[id].chunk == |p|
    requires id in s.Meaning() && s.Meaning()[id] == p && s.chunks.Keys == {At(id, 0)}
    requires forall k :: k in s.chunks && k.obj == id ==> Hashed(s.chunks, s.blocks, k)
    ensures Holds(s, id, p, p) && HashesCurrent(s.env, s.blocks)
  {
    hide Store.Inv0, Store.Loose, Store.Meaning, Hashed;
    s.InvIsLoose();
    OneChunk(s, id, p);
    assert At(id, 0) in s.chunks;
    HashedHolds(s, id, p);
    HashesOf(s);
  }

  method OneWritten(on: Store, p: Buffer) returns (id: int)
    requires on.Inv() && !on.readOnly && Vacant(on) && |p| == on.chunkSize
    modifies on`objs, on`chunks, on`blocks
    ensures on.Inv() && on.objs.Keys == {id} && on.objs[id].codec == CODEC_AZ && on.objs[id].chunk == |p|
    ensures id in on.Meaning() && on.Meaning()[id] == p && on.chunks.Keys == {At(id, 0)}
  {
    hide Store.Inv0, Store.Meaning, VersionInv, Store.Touched, PrivateStay;
    ChunkIs(on);
    var err, n;
    id, err := on.Create(Some(AZ_LEVEL3), 0, 0);
    n, err := on.WriteAt(id, p, 0);
    OnlyChunkZero(id, |p|);
    assert Splice([], 0, p) == p;
    NoVersions(on.objs, on.versions);
  }

  lemma VacantIsCurrent(s: Store)
    requires Vacant(s)
    ensures forall ix :: HashInv(s.env, ix, s.blocks)
  {
  }

  lemma ChunkIs(s: Store)
    requires s.Inv()
    ensures 0 < s.chunkSize <= MAX_CHUNK
  {
  }

  lemma SameMeaning(s: Store, t: Store)
    requires s.env == t.env && s.objs == t.objs && s.chunks == t.chunks && s.blocks == t.blocks
    ensures s.Meaning() == t.Meaning()
  {
  }

  lemma NoVersions(objs: map<int, Obj>, versions: VersionTable)
    requires versions == map[]
    ensures VersionInv(objs, versions)
  {
  }

  lemma HashedHolds(s: Store, id: int, p: seq<byte>)
    requires s.Inv0() && s.dedup && s.chunks.Keys == {At(id, 0)} && Hashed(s.chunks, s.blocks, At(id, 0))
    requires s.V()[At(id, 0)] == Stored(p, ENC_VERBATIM)
    ensures var k := At(id, 0);
      && s.blocks.Keys == {s.chunks[k]}
      && s.blocks[s.chunks[k]] == Block(p, ENC_VERBATIM, 1, Some(s.env.digest(p, ENC_VERBATIM)))
  {
    var k := At(id, 0);
    SoleRow(s.chunks, s.blocks, k);
    assert s.V()[k] == s.blocks[s.chunks[k]].Value();
    HashIs(s.env, s.blocks, s.chunks[k]);
  }

  /** Objects `x` and `y` are all the store has, one chunk each: `x` is raw and holds `q` in a block
      that alone carries the hash of `p`; `y` is compressed and holds `p`. */
  ghost predicate HoldsBoth(s: Store, x: int, y: int, p: seq<byte>, q: seq<byte>)
    reads s
  {
    var k := At(x, 0);
    && x != y && s.objs.Keys == {x, y} && s.Loose() && s.Meaning().Keys >= {x, y}
    && s.objs[x].codec == CODEC_RAW && s.objs[x].chunk == |q| && s.Meaning()[x] == q
    && s.objs[y].codec == CODEC_AZ && s.objs[y].chunk == |p| && s.Meaning()[y] == p
    && s.chunks.Keys == {k, At(y, 0)} && s.V()[k] == Stored(q, ENC_VERBATIM)
    && Sole(s.blocks, s.chunks[k]) && s.blocks[s.chunks[k]].hash == Some(s.env.digest(p, ENC_VERBATIM))
  }

  /** With dedup off, a write changes the bytes under the hash, and the bytes it names are stored
      again, compressed, in a second object. */
  method ThenOff(off: Store, x: int, p: Buffer, q: Buffer) returns (y: int)
    requires off.Inv() && !off.dedup && !off.readOnly && off.versions == map[]
    requires Holds(off, x, p, p) && |q| == |p| == off.chunkSize
    modifies off
    ensures HoldsBoth(off, x, y, p, q)
  {
    hide Store.Inv0, Store.Loose, Store.Meaning, VersionInv, Store.Touched, PrivateStay;
    ChunkIs(off);
    var err, n;
    ghost var c0, b0 := off.chunks, off.blocks;
    n, err := off.WriteAt(x, q, 0);
    OnlyChunkZero(x, |q|);
    assert Splice(p, 0, q) == q;
    off.InvIsLoose();
    OneChunk(off, x, q);
    StillNamed(off, c0, b0, x, q, p);
    y, err := off.Create(Some(AZ_LEVEL3), 0, 0);
    ghost var c1, b1 := off.chunks, off.blocks;
    n, err := off.WriteAt(y, p, 0);
    OnlyChunkZero(y, |p|);
    assert Splice([], 0, p) == p;
    off.InvIsLoose();
    OneChunk(off, x, q);
    SoleCarrier(c1, b1, off.chunks, off.blocks, x, y);
  }

  lemma StillNamed(s: Store, c0: ChunkTable, b0: BlockTable, id: int, q: seq<byte>, p: seq<byte>)
    requires s.Loose() && s.chunks.Keys == {At(id, 0)} && s.V()[At(id, 0)] == Stored(q, ENC_VERBATIM)
    requires PrivateStay(c0, b0, s.chunks, s.blocks, None) && At(id, 0) in c0 && c0[At(id, 0)] in b0
    requires b0[c0[At(id, 0)]] == Block(p, ENC_VERBATIM, 1, Some(s.env.digest(p, ENC_VERBATIM)))
    ensures var k := At(id, 0);
      && s.blocks.Keys == {s.chunks[k]}
      && s.blocks[s.chunks[k]] == Block(q, ENC_VERBATIM, 1, Some(s.env.digest(p, ENC_VERBATIM)))
  {
    var k := At(id, 0);
    assert Private(c0, b0, k);
    SoleRow(s.chunks, s.blocks, k);
    assert s.V()[k] == s.blocks[s.chunks[k]].Value();
  }

  lemma SoleCarrier(c0: ChunkTable, b0: BlockTable, c1: ChunkTable, b1: BlockTable, x: int, y: int)
    requires x != y && At(x, 0) in c0 && b0.Keys == {c0[At(x, 0)]} && b0[c0[At(x, 0)]].refs == 1
    requires b0[c0[At(x, 0)]].hash.Some? && PrivateStay(c0, b0, c1, b1, Some(y))
    ensures At(x, 0) in c1 && c1[At(x, 0)] == c0[At(x, 0)] && Sole(b1, c1[At(x, 0)])
    ensures b1[c1[At(x, 0)]].hash == b0[c0[At(x, 0)]].hash
  {
    assert Private(c0, b0, At(x, 0));
  }

  /** With dedup on again, turning the second object raw looks its bytes up by their hash, finds the
      first object's block, and so makes it read `q`. */
  method OnAgain(on: Store, x: int, y: int, p: Buffer, q: Buffer) returns (n: int, got: seq<byte>, err: Option<Err>)
    requires on.dedup && !on.readOnly && HoldsBoth(on, x, y, p, q) && |p| == |q| > 0
    modifies on
    ensures n == |q| && got == q && err == Some(EOF)
  {
    hide Store.Loose, Store.Meaning, OthersSame, TookAllAnchors;
    ghost var c0, b0, v0 := on.chunks, on.blocks, on.V();
    ghost var o := on.objs;
    SizesAre(on, x, y, p, q);
    OneChunk(on, y, p);
    var failed := on.SetCompression(y, COMPRESSION_NONE);
    ViewKeys(on.chunks, on.blocks);
    TakesOther(on.env, c0, b0, v0, on.V(), x, y, p, q);
    RawNow(on, o, x, y, q);
    var buf := new byte[|q|];
    n, err := on.ReadAt(y, buf, 0);
    got := buf[..n];
    assert q[0..|q|] == q;
  }

  lemma SizesAre(s: Store, x: int, y: int, p: seq<byte>, q: seq<byte>)
    requires HoldsBoth(s, x, y, p, q) && |p| == |q|
    ensures s.objs[x].size == |q| && s.objs[y].size == |p| && MetaOk(s.objs[x]) && MetaOk(s.objs[y]) && s.Config()
  {
    OneChunk(s, x, q);
    OneChunk(s, y, p);
    ContentsAt(s.env, s.objs, s.V(), x);
    ContentsAt(s.env, s.objs, s.V(), y);
  }

  lemma TakesOther(env: Env, c0: ChunkTable, b0: BlockTable, v0: Image, v: Image, x: int, y: int,
                   p: seq<byte>, q: seq<byte>)
    requires |p| > 0 && x != y && TookAllAnchors(env, |p|, c0, b0, v0, v, y) && ChunkPlain(env, |p|, v0, y, 0) == p
    requires At(x, 0) in c0 && Sole(b0, c0[At(x, 0)]) && b0[c0[At(x, 0)]].hash == Some(env.digest(p, ENC_VERBATIM))
    requires At(x, 0) in v0 && v0[At(x, 0)] == b0[c0[At(x, 0)]].Value() == Stored(q, ENC_VERBATIM)
    requires OthersSame(v0, v, y) && At(y, 0) in v
    ensures v[At(y, 0)] == Stored(q, ENC_VERBATIM) && At(x, 0) in v && v[At(x, 0)] == Stored(q, ENC_VERBATIM)
  {
    var b := c0[At(x, 0)];
    assert Anchor(c0, b0, y, b);
    assert TookAnchor(env, c0, b0, ChunkPlain(env, |p|, v0, y, At(y, 0).no), v[At(y, 0)], y);
  }

  /** Both objects now store `q` verbatim, and mean it. */
  lemma RawNow(s: Store, o: map<int, Obj>, x: int, y: int, q: seq<byte>)
    requires s.Config() && Counted(s.chunks, s.blocks) && |q| > 0 && x != y && o.Keys == {x, y}
    requires s.objs == o[y := Recoded(o[y], COMPRESSION_NONE)] && MetaOk(o[x]) && MetaOk(o[y])
    requires o[x].codec == CODEC_RAW && o[x].chunk == |q| == o[x].size && o[y].chunk == |q| == o[y].size
    requires s.chunks.Keys == {At(x, 0), At(y, 0)}
    requires s.V().Keys == s.chunks.Keys && forall k :: k in s.V() ==> s.V()[k] == Stored(q, ENC_VERBATIM)
    ensures s.Loose() && y in s.Meaning() && s.Meaning()[y] == q
  {
    var v, chunk := s.V(), |q|;
    forall id | id in s.objs
      ensures MetaOk(s.objs[id]) && s.objs[id].chunk == chunk && s.objs[id].size == chunk
      ensures TailZero(s.env, chunk, chunk, v, id)
    {
      FullChunk(s.env, v, id, q);
    }
    FullChunk(s.env, v, y, q);
  }

  lemma FullChunk(env: Env, v: Image, id: int, q: seq<byte>)
    requires |q| > 0 && At(id, 0) in v && v[At(id, 0)] == Stored(q, ENC_VERBATIM)
    requires forall k :: k in v && k.obj == id ==> k.no == 0
    ensures TailZero(env, |q|, |q|, v, id) && Content(env, |q|, |q|, v, id) == q
  {
    forall i | i >= 0 ensures ByteAt(env, |q|, v, id, i) == if i < |q| then q[i] else 0 {
      BelowBoundary(i, |q|, 1, |q|);
      DivModBounds(i, |q|);
      assert i >= |q| ==> At(id, i / |q|) !in v;
    }
  }

  lemma OnlyChunkZero(id: int, chunkSize: int)
    requires chunkSize > 0
    ensures Store.Touched(id, chunkSize, 0, chunkSize) == {At(id, 0)}
  {
  }

  // ---- the calls and what the specification says of them ----

  function FirstOps(chunk: int, x: int, p: Buffer): seq<Op> {
    [Create(chunk, Some(AZ_LEVEL3), 0, 0), Write(x, p, 0), SetCompression(x, COMPRESSION_NONE)]
  }

  function ThenOps(chunk: int, x: int, y: int, p: Buffer, q: Buffer): seq<Op> {
    [Write(x, q, 0), Create(chunk, Some(AZ_LEVEL3), 0, 0), Write(y, p, 0)]
  }

  function LastOps(y: int, p: Buffer): seq<Op> {
    [SetCompression(y, COMPRESSION_NONE), Read(y, |p|, 0)]
  }

  function Script(chunk: int, x: int, y: int, p: Buffer, q: Buffer): (r: seq<Op>)
    ensures |r| == 8
  {
    FirstOps(chunk, x, p) + ThenOps(chunk, x, y, p, q) + LastOps(y, p)
  }

  function Before(x: int, y: int): (r: seq<Out>)
    ensures |r| == 7
  {
    [Made(x), Done(None), Done(None), Done(None), Made(y), Done(None), Done(None)]
  }

  function Objects1(chunk: int, x: int, c: seq<byte>): Abs {
    Abs(map[x := AObj(c, chunk, 0, 0)], map[])
  }

  function Objects2(chunk: int, x: int, c: seq<byte>, y: int, d: seq<byte>): Abs {
    Abs(map[x := AObj(c, chunk, 0, 0), y := AObj(d, chunk, 0, 0)], map[])
  }

  /** Every answer before the last is as specified. */
  lemma RightSoFar(chunk: int, x: int, y: int, p: Buffer, q: Buffer)
    requires x != y && |p| == |q| > 0
    ensures Explained(Script(chunk, x, y, p, q)[..7], Before(x, y))
  {
    hide Step;
    var ops, outs := Script(chunk, x, y, p, q)[..7], Before(x, y);
    var a, b, c := Objects1(chunk, x, []), Objects1(chunk, x, p), Objects1(chunk, x, q);
    var d, e := Objects2(chunk, x, q, y, []), Objects2(chunk, x, q, y, p);
    FirstSteps(chunk, x, p);
    ThenSteps(chunk, x, y, p, q);
    assert ops == [Create(chunk, Some(AZ_LEVEL3), 0, 0), Write(x, p, 0), SetCompression(x, COMPRESSION_NONE),
                   Write(x, q, 0), Create(chunk, Some(AZ_LEVEL3), 0, 0), Write(y, p, 0),
                   SetCompression(y, COMPRESSION_NONE)];
    assert IsTrace([EMPTY, a, b, b, c, d, e, e], ops, outs);
  }

  lemma FirstSteps(chunk: int, x: int, p: Buffer)
    requires p != []
    ensures Step(EMPTY, Create(chunk, Some(AZ_LEVEL3), 0, 0), Made(x), Objects1(chunk, x, []))
    ensures Step(Objects1(chunk, x, []), Write(x, p, 0), Done(None), Objects1(chunk, x, p))
    ensures Step(Objects1(chunk, x, p), SetCompression(x, COMPRESSION_NONE), Done(None), Objects1(chunk, x, p))
  {
    assert Splice([], 0, p) == p;
    assert Unused(EMPTY, x);
  }

  lemma ThenSteps(chunk: int, x: int, y: int, p: Buffer, q: Buffer)
    requires x != y && |p| == |q| > 0
    ensures Step(Objects1(chunk, x, p), Write(x, q, 0), Done(None), Objects1(chunk, x, q))
    ensures Step(Objects1(chunk, x, q), Create(chunk, Some(AZ_LEVEL3), 0, 0), Made(y), Objects2(chunk, x, q, y, []))
    ensures Step(Objects2(chunk, x, q, y, []), Write(y, p, 0), Done(None), Objects2(chunk, x, q, y, p))
    ensures var both := Objects2(chunk, x, q, y, p); Step(both, SetCompression(y, COMPRESSION_NONE), Done(None), both)
  {
    assert Splice(p, 0, q) == q && Splice([], 0, p) == p;
    assert Unused(Objects1(chunk, x, q), y);
  }

  /** And for the last the specification allows nothing but `p`. */
  lemma OnlyAnswer(chunk: int, x: int, y: int, p: Buffer, q: Buffer, trace: seq<Abs>, out: Out)
    requires |p| > 0 && IsTrace(trace, Script(chunk, x, y, p, q), Before(x, y) + [out])
    ensures out == Data(|p|, p, Some(EOF))
  {
    hide Step;
    var ops, outs := Script(chunk, x, y, p, q), Before(x, y) + [out];
    assert ops[4] == Create(chunk, Some(AZ_LEVEL3), 0, 0) && outs[4] == Made(y);
    assert ops[5] == Write(y, p, 0) && outs[5] == Done(None);
    assert ops[6] == SetCompression(y, COMPRESSION_NONE) && outs[6] == Done(None);
    assert ops[7] == Read(y, |p|, 0) && outs[7] == out;
    Written(chunk, trace[4], trace[5], trace[6], trace[7], trace[8], y, p, out);
  }

  lemma Written(chunk: int, a: Abs, b: Abs, c: Abs, d: Abs, e: Abs, y: int, p: Buffer, out: Out)
    requires |p| > 0 && Step(a, Create(chunk, Some(AZ_LEVEL3), 0, 0), Made(y), b)
    requires Step(b, Write(y, p, 0), Done(None), c)
    requires Step(c, SetCompression(y, COMPRESSION_NONE), Done(None), d) && Step(d, Read(y, |p|, 0), out, e)
    ensures out == Data(|p|, p, Some(EOF))
  {
    assert Splice([], 0, p) == p;
    assert p[0..|p|] == p;
  }

  // ---- the run ----

  /** Sessions with the given flags: calls in the three named, none in the others. */
  function Plan(flags: seq<bool>, chunk: int, i: int, j: int, k: int, a: seq<Op>, b: seq<Op>, c: seq<Op>)
    : (r: seq<Session>)
    ensures |r| == |flags|
    ensures forall n :: 0 <= n < |flags| ==> r[n] == Session(flags[n], COMPRESSION_NONE, chunk,
      if n == i then a else if n == j then b else if n == k then c else [])
  {
    seq(|flags|, n requires 0 <= n < |flags| => Session(flags[n], COMPRESSION_NONE, chunk,
      if n == i then a else if n == j then b else if n == k then c else []))
  }

  lemma {:induction false} PlanOps(ss: seq<Session>, n: int, i: int, j: int, k: int,
                                   a: seq<Op>, b: seq<Op>, c: seq<Op>)
    requires 0 <= n <= |ss| && 0 <= i < j < k < |ss|
    requires forall m :: 0 <= m < |ss| ==>
      Calls(ss[m]) == if m == i then a else if m == j then b else if m == k then c else []
    ensures AllOps(ss[..n]) == (if i < n then a else []) + (if j < n then b else []) + (if k < n then c else [])
    decreases n
  {
    hide AllOps, Calls;
    if n > 0 {
      PlanOps(ss, n - 1, i, j, k, a, b, c);
      AllOpsNext(ss, n - 1);
      var now := Calls(ss[n - 1]);
      assert now == if n - 1 == i then a else if n - 1 == j then b else if n - 1 == k then c else [];
    } else {
      NothingYet(ss);
    }
  }

  lemma PlanIs(flags: seq<bool>, chunk: int, i: int, j: int, k: int, x: int, y: int, p: Buffer, q: Buffer)
    requires 0 <= i < j < k < |flags|
    ensures var ss := Plan(flags, chunk, i, j, k, FirstOps(chunk, x, p), ThenOps(chunk, x, y, p, q), LastOps(y, p));
      AllOps(ss) == Script(chunk, x, y, p, q)
  {
    var a, b, c := FirstOps(chunk, x, p), ThenOps(chunk, x, y, p, q), LastOps(y, p);
    var ss := Plan(flags, chunk, i, j, k, a, b, c);
    assert On(chunk, a) == a && On(chunk, b) == b && On(chunk, c) == c && On(chunk, []) == [];
    PlanOps(ss, |ss|, i, j, k, a, b, c);
    assert ss[..|ss|] == ss;
  }

  /** A session without calls changes nothing. */
  lemma StillHolds(s: Store, t: Store, id: int, data: seq<byte>, named: seq<byte>)
    requires Holds(s, id, data, named)
    requires s.env == t.env && s.objs == t.objs && s.chunks == t.chunks && s.blocks == t.blocks
    ensures Holds(t, id, data, named)
  {
    SameMeaning(s, t);
  }

  lemma StillHoldsBoth(s: Store, t: Store, x: int, y: int, p: seq<byte>, q: seq<byte>)
    requires HoldsBoth(s, x, y, p, q) && t.Loose()
    requires s.env == t.env && s.objs == t.objs && s.chunks == t.chunks && s.blocks == t.blocks
    ensures HoldsBoth(t, x, y, p, q)
  {
    SameMeaning(s, t);
  }

  lemma CurrentIs(env: Env, ix: Indexing, blocks: BlockTable)
    requires HashesCurrent(env, blocks) && !ix.Unhashed?
    ensures HashInv(env, ix, blocks)
  {
  }

  /** The converse of `RunSessions`: for every flag history in which dedup is on, later off and
      later on again, every environment, every chunk size and any two different chunks, there are
      sessions with those flags whose calls the code does not answer as the specification does.
      All answers are right up to the last, a read, for which the specification allows only `p`;
      the code answers `q`. */
  method StaleHashCorrupts(env: Env, chunkSize: int, p: Buffer, q: Buffer, flags: seq<bool>, i: nat, j: nat, k: nat)
      returns (ss: seq<Session>, outs: seq<Out>)
    requires env.Sound() && 0 < chunkSize <= MAX_CHUNK && |p| == |q| == chunkSize && p != q
    requires i < j < k < |flags| && flags[i] && !flags[j] && flags[k]
    ensures |ss| == |flags| && forall n :: 0 <= n < |flags| ==> ss[n].dedup == flags[n] && ss[n].chunkSize == chunkSize
    ensures |AllOps(ss)| == |outs| == 8 && Explained(AllOps(ss)[..7], outs[..7])
    ensures outs[7] == Data(chunkSize, q, Some(EOF))
    ensures forall out :: Explained(AllOps(ss), outs[..7] + [out]) ==> out == Data(chunkSize, p, Some(EOF))
    ensures !Answers(AllOps(ss), outs)
  {
    hide Store.Inv, Store.Loose, Store.Meaning, HashInv, Holds, HoldsBoth, Explained, Answers, Script, Before, AllOps,
      FirstOps, ThenOps, LastOps;
    var s := new Store(env, false, COMPRESSION_NONE, false, chunkSize);
    for n := 0 to i + 1
      invariant fresh(s) && s.Inv() && Vacant(s) && s.env == env && s.chunkSize == chunkSize && !s.readOnly
      invariant n > 0 ==> s.dedup == flags[n - 1]
    {
      VacantIsCurrent(s);
      s := new Store.Reopen(s, flags[n], COMPRESSION_NONE, false, chunkSize, if flags[n] then Indexed else Unhashed);
    }
    var x := FirstOn(s, p);
    for n := i + 1 to j + 1
      invariant fresh(s) && s.Inv() && Holds(s, x, p, p) && HashesCurrent(env, s.blocks) && s.versions == map[]
      invariant s.env == env && s.chunkSize == chunkSize && !s.readOnly && s.dedup == flags[n - 1]
    {
      ghost var ix := if flags[n] then Indexed else Lapsed;
      CurrentIs(env, ix, s.blocks);
      var next := new Store.Reopen(s, flags[n], COMPRESSION_NONE, false, chunkSize, ix);
      StillHolds(s, next, x, p, p);
      s := next;
    }
    var y := ThenOff(s, x, p, q);
    for n := j + 1 to k + 1
      invariant fresh(s) && HoldsBoth(s, x, y, p, q) && s.env == env && !s.readOnly && s.dedup == flags[n - 1]
    {
      BothAreLoose(s, x, y, p, q);
      var next := new Store.Reopen(s, flags[n], COMPRESSION_NONE, false, chunkSize, Lapsed);
      StillHoldsBoth(s, next, x, y, p, q);
      s := next;
    }
    BothAreLoose(s, x, y, p, q);
    var n, got, err := OnAgain(s, x, y, p, q);
    ss := Plan(flags, chunkSize, i, j, k, FirstOps(chunkSize, x, p), ThenOps(chunkSize, x, y, p, q), LastOps(y, p));
    outs := Before(x, y) + [Data(n, got, err)];
    PlanIs(flags, chunkSize, i, j, k, x, y, p, q);
    RightSoFar(chunkSize, x, y, p, q);
    assert outs[..7] == Before(x, y);
    Convicted(chunkSize, x, y, p, q);
  }

  lemma BothAreLoose(s: Store, x: int, y: int, p: seq<byte>, q: seq<byte>)
    requires HoldsBoth(s, x, y, p, q)
    ensures s.Loose() && x != y
  {
  }

  lemma Convicted(chunk: int, x: int, y: int, p: Buffer, q: Buffer)
    requires |p| == |q| > 0 && p != q
    ensures forall out :: Explained(Script(chunk, x, y, p, q), Before(x, y) + [out]) ==> out == Data(|p|, p, Some(EOF))
    ensures !Answers(Script(chunk, x, y, p, q), Before(x, y) + [Data(|q|, q, Some(EOF))])
  {
    hide Script, Before, Step, Legal;
    var ops := Script(chunk, x, y, p, q);
    forall out | Explained(ops, Before(x, y) + [out]) ensures out == Data(|p|, p, Some(EOF)) {
      var trace :| IsTrace(trace, ops, Before(x, y) + [out]) && trace[0] == EMPTY;
      OnlyAnswer(chunk, x, y, p, q, trace, out);
    }
    var outs := Before(x, y) + [Data(|q|, q, Some(EOF))];
    if Answers(ops, outs) {
      var trace :| Follows(trace, ops, outs) && trace[0] == EMPTY;
      assert ops[..|outs|] == ops;
      OnlyAnswer(chunk, x, y, p, q, trace, Data(|q|, q, Some(EOF)));
    }
  }
}
