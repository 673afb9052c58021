/** What Stat reports after other calls (blobstore/blobstore.go), for every store and input. */
module StatLaws {
  import opened Bytes
  import opened Codec
  import opened Blocks
  import opened Objects
  import opened Accounting
  import opened BlobStore

  /** A clone costs no storage: source and copy report the same stored bytes as the source before,
      all of them shared. */
  method StatAfterClone(s: Store, id: int) returns (before: ObjectInfo, dst: int, after: ObjectInfo, copy: ObjectInfo)
    requires s.Inv0() && !s.readOnly && id in s.objs
    modifies s`objs, s`chunks, s`blocks
    ensures s.Inv0() && dst !in old(s.objs) && TotalBytes(s.blocks) == old(TotalBytes(s.blocks))
    ensures before.storedBytes == before.uniqueBytes + before.sharedBytes
    ensures after.uniqueBytes == copy.uniqueBytes == 0
    ensures after.sharedBytes == after.storedBytes == before.storedBytes
    ensures copy.sharedBytes == copy.storedBytes == before.storedBytes
    ensures after.size == copy.size == before.size && copy.level == before.level && copy.compressed == before.compressed
  {
    hide OwnBlocks, BlocksOf, ClonedRows, Bumped, Store.Inv0, Store.Meaning, SumBytes, TotalBytes, Counted, RatioOf;
    s.CountsHold();
    var got := s.Stat(id);
    before := got.value;
    SplitsBytes(s.chunks, s.blocks, id);
    ghost var cs, bs := s.chunks, s.blocks;
    var err;
    dst, err := s.Clone(id);
    CloneSharesAll(cs, bs, id, dst);
    got := s.Stat(id);
    after := got.value;
    got := s.Stat(dst);
    copy := got.value;
    NoBytes(s.blocks, BlocksOf(cs, id));
  }

  lemma {:induction false} SplitsBytes(chunks: ChunkTable, blocks: BlockTable, id: int)
    requires Counted(chunks, blocks)
    ensures OwnBlocks(chunks, id) <= BlocksOf(chunks, id) <= blocks.Keys
    ensures SumBytes(blocks, BlocksOf(chunks, id))
         == SumBytes(blocks, OwnBlocks(chunks, id)) + SumBytes(blocks, BlocksOf(chunks, id) - OwnBlocks(chunks, id))
  {
    hide OwnBlocks, BlocksOf;
    DeleteFreesOwn(chunks, blocks, id);
    var own, all := OwnBlocks(chunks, id), BlocksOf(chunks, id);
    SumSplits(blocks, own, all - own);
    assert own + (all - own) == all;
  }

  lemma {:induction false} NoBytes(blocks: BlockTable, bs: set<int>)
    ensures SumBytes(blocks, {}) == 0 && bs - {} == bs
  {
  }

  /** The only object of a store accounts for every stored byte, alone. */
  method StatAlone(s: Store, id: int) returns (info: ObjectInfo)
    requires s.Inv0() && s.objs.Keys == {id}
    ensures info.storedBytes == info.uniqueBytes == TotalBytes(s.blocks) && info.sharedBytes == 0
    ensures id in s.Meaning() && info.size == |s.Meaning()[id]| && RatioOf(info.ratio, info.storedBytes, info.size)
    ensures (info.compressed <==> s.objs[id].codec == CODEC_AZ) && info.level == s.objs[id].level
  {
    hide OwnBlocks, BlocksOf;
    s.CountsHold();
    AloneIsAll(s.chunks, s.blocks, id);
    var got := s.Stat(id);
    assert BlocksOf(s.chunks, id) - OwnBlocks(s.chunks, id) == {};
    return got.value;
  }

  /** Deleting an object without versions frees exactly the bytes Stat called unique. */
  method DeleteFreesUnique(s: Store, id: int) returns (info: ObjectInfo)
    requires s.Inv() && !s.readOnly && id in s.objs && forall v :: v in s.versions ==> v.obj != id
    modifies s
    ensures TotalBytes(s.blocks) == old(TotalBytes(s.blocks)) - info.uniqueBytes
  {
    hide OwnBlocks, BlocksOf;
    var got := s.Stat(id);
    info := got.value;
    assert Versions.VersionsOf(s.versions.Keys, id) == {};
    var err := s.Delete(id);
  }

  /** A new object is empty; it is compressed if and only if the level asked for - its own, or else
      the store's - is a real one, and only a real level of its own is kept with it. */
  method StatAfterCreate(s: Store, override: Option<int>, keep: int, maxAge: int) returns (id: int, info: ObjectInfo)
    requires s.Inv0() && !s.readOnly
    modifies s`objs
    ensures s.Inv0() && id !in old(s.objs) && id in s.objs
    ensures info.size == info.storedBytes == info.uniqueBytes == info.sharedBytes == 0 && info.ratio == 0.0
    ensures info.chunkSize == s.chunkSize
    ensures var asked := if override.Some? then override.value else s.compression;
      info.compressed <==> 1 <= asked <= 5
    ensures info.level == if override.Some? && 1 <= override.value <= 5 then override.value else 0
    ensures s.objs[id].keepVersions == keep && s.objs[id].maxAge == maxAge
  {
    hide OwnBlocks, BlocksOf;
    s.CountsHold();
    var err;
    id, err := s.Create(override, keep, maxAge);
    var got := s.Stat(id);
    info := got.value;
    NoRowsNoBlocks(s.chunks, id);
  }

  lemma NoRowsNoBlocks(chunks: ChunkTable, id: int)
    requires forall k :: k in chunks ==> k.obj != id
    ensures BlocksOf(chunks, id) == OwnBlocks(chunks, id) == {}
  {
    hide BlocksOf, OwnBlocks;
    forall b ensures b !in BlocksOf(chunks, id) && b !in OwnBlocks(chunks, id) { BlocksOfIs(chunks, id, b); }
  }

  /** SetCompression makes an object compressed if and only if the level is a real one, keeps such a
      level with it, and leaves its size and chunk size alone. */
  method StatAfterSetCompression(s: Store, id: int, c: int) returns (before: ObjectInfo, after: ObjectInfo)
    requires s.Inv0() && !s.readOnly && id in s.objs
    modifies s`objs, s`chunks, s`blocks
    ensures s.Inv0()
    ensures (after.compressed <==> 1 <= c <= 5) && after.level == (if 1 <= c <= 5 then c else 0)
    ensures after.size == before.size && after.chunkSize == before.chunkSize
  {
    hide OwnBlocks, BlocksOf;
    s.InvIsLoose();
    var got := s.Stat(id);
    before := got.value;
    var err := s.SetCompression(id, c);
    got := s.Stat(id);
    after := got.value;
  }

  /** One full chunk written to a new compressed object occupies the shorter of its frame and itself. */
  method FirstChunk(env: Env, dedup: bool, chunkSize: int, lvl: int, p: Buffer) returns (info: ObjectInfo)
    requires env.Sound() && 0 < chunkSize <= MAX_CHUNK && |p| == chunkSize && 1 <= lvl <= 5
    ensures info.storedBytes == info.uniqueBytes == Min(chunkSize, |env.compress(p, lvl)|)
    ensures info.size == chunkSize && info.compressed && info.level == lvl
    ensures info.ratio * chunkSize as real == info.storedBytes as real
  {
    hide Store.Inv0, Store.Meaning, TotalBytes;
    var s, id := OneChunkStore(env, dedup, chunkSize, lvl, p);
    info := StatAlone(s, id);
  }

  method OneChunkStore(env: Env, dedup: bool, chunkSize: int, lvl: int, p: Buffer) returns (s: Store, id: int)
    requires env.Sound() && 0 < chunkSize <= MAX_CHUNK && |p| == chunkSize && 1 <= lvl <= 5
    ensures s.Inv0() && s.objs.Keys == {id} && s.objs[id].codec == CODEC_AZ && s.objs[id].level == lvl
    ensures id in s.Meaning() && s.Meaning()[id] == p
    ensures TotalBytes(s.blocks) == Min(chunkSize, |env.compress(p, lvl)|)
  {
    hide Store.Inv0, Store.Meaning, PackedRows, Store.Touched, TotalBytes, Splice, PrivateStay;
    s, id := OneObjectStore(env, dedup, chunkSize, lvl);
    var n, err := s.WriteAt(id, p, 0);
    WholeSplice(p);
    assert s.chunks.Keys == Store.Touched(id, |p|, 0, |p|);
    assert s.objs.Keys == {id};
    OnlyChunk(s, id, p, lvl);
  }

  lemma WholeSplice(p: seq<byte>)
    ensures Splice([], 0, p) == p
  {
  }

  method OneObjectStore(env: Env, dedup: bool, chunkSize: int, lvl: int) returns (s: Store, id: int)
    requires env.Sound() && 0 < chunkSize <= MAX_CHUNK && 1 <= lvl <= 5
    ensures fresh(s) && s.Inv0() && s.env == env && !s.readOnly && s.objs.Keys == {id} && s.chunks == map[]
    ensures s.objs[id].chunk == chunkSize && s.objs[id].codec == CODEC_AZ && s.objs[id].level == lvl
    ensures id in s.Meaning() && s.Meaning()[id] == []
  {
    hide Store.Inv0, Store.Meaning;
    s := new Store(env, dedup, COMPRESSION_NONE, false, chunkSize);
    var err;
    id, err := s.Create(Some(lvl), 0, 0);
    assert s.objs.Keys == {id};
  }

  /** A store that holds one object of one chunk. */
  lemma OnlyChunk(s: Store, id: int, p: seq<byte>, lvl: int)
    requires s.Inv0() && s.objs.Keys == {id} && s.objs[id].chunk == |p| > 0 && 1 <= lvl <= 5
    requires id in s.Meaning() && s.Meaning()[id] == p
    requires s.chunks.Keys == Store.Touched(id, |p|, 0, |p|)
    requires PackedRows(s.env, |p|, s.V(), Store.Touched(id, |p|, 0, |p|), lvl, s.compression)
    ensures TotalBytes(s.blocks) == Min(|p|, |s.env.compress(p, lvl)|)
  {
    hide Counted, HashInv, Refs, BlocksOf, OwnBlocks, TotalBytes, View;
    s.CountsHold();
    OneChunk(|p|);
    var k := At(id, 0);
    assert s.chunks.Keys == {k};
    ContentsAt(s.env, s.objs, s.V(), id);
    assert RowOk(s.env, s.objs, k, s.V()[k]);
    WholeChunk(s.env, |p|, s.V(), id);
    OneBlock(s.chunks, s.blocks, id, k);
    RowValue(s.chunks, s.blocks, k);
  }

  lemma OneChunk(chunk: int)
    requires chunk > 0
    ensures Spans.Numbers(0, chunk, chunk) == {0}
  {
    DivModOf(chunk - 1, chunk, 0);
    assert Spans.Meets(0, 0, chunk, chunk);
  }

  lemma WholeChunk(env: Env, chunk: int, v: Image, id: int)
    requires chunk > 0 && |ChunkPlain(env, chunk, v, id, 0)| == chunk
    ensures Content(env, chunk, chunk, v, id) == ChunkPlain(env, chunk, v, id, 0)
  {
    forall i | 0 <= i < chunk
      ensures Content(env, chunk, chunk, v, id)[i] == ChunkPlain(env, chunk, v, id, 0)[i]
    {
      DivModOf(i, chunk, 0);
    }
  }

  lemma OneBlock(chunks: ChunkTable, blocks: BlockTable, id: int, k: ChunkKey)
    requires Counted(chunks, blocks) && chunks.Keys == {k} && k.obj == id
    ensures k in chunks && chunks[k] in blocks && TotalBytes(blocks) == |blocks[chunks[k]].data|
  {
    hide BlocksOf, OwnBlocks, Refs;
    AloneIsAll(chunks, blocks, id);
    var b := chunks[k];
    forall x | x in blocks ensures x == b { BlocksOfIs(chunks, id, x); }
    assert blocks.Keys == {b};
    SumAnyOrder(blocks, {b}, b);
    assert {b} - {b} == {};
  }
}
