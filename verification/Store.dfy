/** The blob store (package blobstore): four SQL tables as map fields. Each SQL
    statement is one map update; each transaction body is one method. */
module BlobStore {
  import opened Bytes
  import opened Codec
  import opened Blocks
  import opened Objects
  import opened Spans
  import opened Versions
  import opened Accounting
  import DedupFlag

  /** SQLite hands out some row id that no present row has; nothing more is known. */
  method NewRowId(used: set<int>) returns (id: int)
    ensures id !in used
  {
    id := 1;
    ghost var rest := used;
    while id in used
      invariant rest <= used
      invariant forall x :: x in used && x >= id ==> x in rest
      decreases rest
    {
      rest := rest - {id};
      id := id + 1;
    }
  }

  datatype Err = NotFound | ReadOnly | NegativeOffset | OffsetOverflow | NegativeSize | EOF | Callback

  /** What writeArgs makes of an offset and a buffer. */
  datatype Args = Bad(err: Err) | Nothing | Range(end: int)

  function WriteArgs(p: Buffer, off: Int64): Args {
    if off < 0 then Bad(NegativeOffset)
    else if |p| == 0 then Nothing
    else
      var end := Wrap64(off + |p|);
      if end < off then Bad(OffsetOverflow) else Range(end)
  }

  /** The wrapped comparison rejects exactly the writes that end past the last int64. */
  lemma WriteArgsExact(p: Buffer, off: Int64)
    requires off >= 0 && |p| > 0
    ensures WriteArgs(p, off) == if off + |p| <= MAX_INT64 then Range(off + |p|) else Bad(OffsetOverflow)
  {
  }

  lemma RangeIs(p: Buffer, off: Int64)
    requires WriteArgs(p, off).Range?
    ensures off >= 0 && WriteArgs(p, off).end == off + |p| <= MAX_INT64
  {
    WriteArgsExact(p, off);
  }

  /** One WriteAt of a batch callback, which may ignore the error it gets and go on. */
  datatype Patch = Patch(off: Int64, data: Buffer, ignore: bool)

  /** What the writes of a batch mean: the splices of the well-formed ones, in order. */
  function BatchMeaning(c: seq<byte>, patches: seq<Patch>): seq<byte> {
    if patches == [] then c
    else
      var last := patches[|patches| - 1];
      var before := BatchMeaning(c, patches[..|patches| - 1]);
      if WriteArgs(last.data, last.off).Range? then Splice(before, last.off, last.data) else before
  }

  /** The error the callback stops at: that of the first ill-formed write it does not ignore. */
  function BatchError(patches: seq<Patch>): Option<Err> {
    if patches == [] then None
    else
      var earlier := BatchError(patches[..|patches| - 1]);
      if earlier.Some? then earlier
      else
        var last := patches[|patches| - 1];
        match WriteArgs(last.data, last.off) case Bad(e) => (if last.ignore then None else Some(e)) case _ => None
  }

  /** What the callback returns: the error it stopped at, or an error of its own at the end. */
  function CallbackError(patches: seq<Patch>, giveUp: bool): Option<Err> {
    if BatchError(patches).Some? then BatchError(patches) else if giveUp then Some(Callback) else None
  }

  lemma {:induction false} BatchNothing(c: seq<byte>)
    ensures BatchError([]).None? && BatchMeaning(c, []) == c
  {
  }

  lemma {:induction false} BatchStep(c: seq<byte>, patches: seq<Patch>, j: int)
    requires 0 <= j < |patches| && BatchError(patches[..j]).None?
    ensures match WriteArgs(patches[j].data, patches[j].off)
      case Bad(e) =>
        if patches[j].ignore then
          BatchError(patches[..j + 1]).None? && BatchMeaning(c, patches[..j + 1]) == BatchMeaning(c, patches[..j])
        else BatchError(patches[..j + 1]) == Some(e)
      case Nothing =>
        BatchError(patches[..j + 1]).None? && BatchMeaning(c, patches[..j + 1]) == BatchMeaning(c, patches[..j])
      case Range(_) =>
        && BatchError(patches[..j + 1]).None?
        && BatchMeaning(c, patches[..j + 1]) == Splice(BatchMeaning(c, patches[..j]), patches[j].off, patches[j].data)
  {
    assert patches[..j + 1][..j] == patches[..j];
  }

  lemma {:induction false} BatchErrorStays(patches: seq<Patch>, j: int)
    requires 0 <= j <= |patches| && BatchError(patches[..j]).Some?
    ensures BatchError(patches) == BatchError(patches[..j])
    decreases |patches| - j
  {
    if j < |patches| {
      assert patches[..j + 1][..j] == patches[..j];
      BatchErrorStays(patches, j + 1);
    } else {
      assert patches[..j] == patches;
    }
  }

  /** A write that starts below zero or ends past the last int64. */
  predicate IllFormed(p: Patch) {
    p.off < 0 || (p.data != [] && p.off + |p.data| > MAX_INT64)
  }

  /** The callback hands the refusal of this write on. */
  predicate Fatal(p: Patch) {
    IllFormed(p) && !p.ignore
  }

  /** Write `i` is the first one that stops the callback. */
  predicate FirstFatal(patches: seq<Patch>, i: int) {
    0 <= i < |patches| && Fatal(patches[i]) && forall j :: 0 <= j < i ==> !Fatal(patches[j])
  }

  predicate AnyFatal(patches: seq<Patch>) {
    exists i :: 0 <= i < |patches| && Fatal(patches[i])
  }

  lemma PatchIs(p: Patch)
    ensures IllFormed(p) ==> WriteArgs(p.data, p.off) == Bad(if p.off < 0 then NegativeOffset else OffsetOverflow)
    ensures !IllFormed(p) ==> WriteArgs(p.data, p.off) == if p.data == [] then Nothing else Range(p.off + |p.data|)
  {
  }

  lemma {:induction false} BatchErrorIs(patches: seq<Patch>)
    ensures BatchError(patches).Some? <==> AnyFatal(patches)
    ensures forall i :: FirstFatal(patches, i) ==>
      BatchError(patches) == Some(if patches[i].off < 0 then NegativeOffset else OffsetOverflow)
    decreases |patches|
  {
    hide WriteArgs, Fatal;
    if patches != [] {
      var n := |patches| - 1;
      var front, last := patches[..n], patches[n];
      assert forall i :: 0 <= i < n ==> front[i] == patches[i];
      BatchErrorIs(front);
      PatchIs(last);
      FatalIs(last);
      assert forall i :: FirstFatal(patches, i) && i < n ==> FirstFatal(front, i);
    }
  }

  lemma FatalIs(p: Patch)
    ensures Fatal(p) <==> IllFormed(p) && !p.ignore
  {
  }

  /** The callback succeeds if and only if it does not give up and every ill-formed write is one
      whose refusal it ignores; it fails with the first refusal it does not ignore, else with its own
      error. */
  lemma CallbackErrorIs(patches: seq<Patch>, giveUp: bool)
    ensures CallbackError(patches, giveUp).None? <==> !giveUp && !AnyFatal(patches)
    ensures forall i :: FirstFatal(patches, i) ==>
      CallbackError(patches, giveUp) == Some(if patches[i].off < 0 then NegativeOffset else OffsetOverflow)
    ensures giveUp && !AnyFatal(patches) ==> CallbackError(patches, giveUp) == Some(Callback)
  {
    hide FirstFatal, BatchError;
    BatchErrorIs(patches);
    forall i | FirstFatal(patches, i) ensures AnyFatal(patches) { FirstIsFatal(patches, i); }
  }

  lemma FirstIsFatal(patches: seq<Patch>, i: int)
    requires FirstFatal(patches, i)
    ensures AnyFatal(patches)
  {
  }

  datatype ObjectInfo = ObjectInfo(
    size: int, storedBytes: int, uniqueBytes: int, sharedBytes: int, ratio: real,
    chunkSize: int, compressed: bool, level: int)

  /** The stored bytes are `ratio` times the size; an empty object has ratio zero. */
  ghost predicate RatioOf(ratio: real, stored: int, size: int) {
    if size == 0 then ratio == 0.0 else ratio * size as real == stored as real
  }

  lemma NoRatio(stored: int)
    ensures RatioOf(0.0, stored, 0)
  {
  }

  method Quotient(stored: int, size: int) returns (ratio: real)
    requires size > 0
    ensures RatioOf(ratio, stored, size)
  {
    ratio := stored as real / size as real;
  }

  /** What a read of `want` bytes at `off` delivers from content `c`: the clamped
      slice and, for a non-empty buffer, EOF exactly when it reaches the end. */
  ghost predicate ReadsAs(c: seq<byte>, want: int, off: int, n: int, err: Option<Err>, got: seq<byte>) {
    && n == (if off < 0 || off >= |c| then 0 else Min(want, |c| - off))
    && err == (
         if off < 0 then Some(NegativeOffset)
         else if want == 0 then None
         else if off + want >= |c| then Some(EOF)
         else None)
    && |got| == n
    && (n > 0 ==> 0 <= off && off + n <= |c| && got == c[off..off + n])
  }

  /** The mode and level columns SetCompression leaves on an object. */
  function Recoded(o: Obj, c: int): Obj {
    match AzLevel(c)
    case Some(_) => o.(codec := CODEC_AZ, level := c)
    case None => o.(codec := CODEC_RAW, level := 0)
  }

  /** The row createOn inserts: the mode comes from the per-object override or else
      the store, and only an override freezes a level. */
  function CreatedRow(chunkSize: int, store: int, override: Option<int>, keep: int, maxAge: int): Obj {
    var comp := match override case Some(c) => c case None => store;
    var level := if override.Some? && AzLevel(comp).Some? then comp else 0;
    Obj(0, chunkSize, if AzLevel(comp).Some? then CODEC_AZ else CODEC_RAW, level, keep, maxAge)
  }

  class Store {
    const env: Env
    const dedup: bool
    ghost const ix: Indexing
    const compression: int
    const readOnly: bool
    const chunkSize: int

    var objs: map<int, Obj>
    var chunks: ChunkTable
    var blocks: BlockTable
    var versions: VersionTable

    ghost function V(): Image
      reads this`chunks, this`blocks
    {
      View(chunks, blocks)
    }

    /** What Open validates, and what is assumed of the libraries. */
    ghost predicate Config() {
      env.Sound() && 0 < chunkSize <= MAX_CHUNK
    }

    /** An empty store. Open validates the chunk size. */
    constructor (env: Env, dedup: bool, compression: int, readOnly: bool, chunkSize: int)
      requires env.Sound() && 0 < chunkSize <= MAX_CHUNK
      ensures Inv() && objs == map[] && versions == map[] && chunks == map[] && blocks == map[]
      ensures this.env == env && this.readOnly == readOnly && this.dedup == dedup && this.chunkSize == chunkSize
      ensures ix == if dedup then Indexed else Unhashed
    {
      this.env, this.dedup, this.compression := env, dedup, compression;
      this.readOnly, this.chunkSize := readOnly, chunkSize;
      ix := if dedup then Indexed else Unhashed;
      objs, chunks, blocks, versions := map[], map[], map[], map[];
    }

    /** A later session on the same tables, with options of its own. */
    constructor Reopen(last: Store, dedup: bool, compression: int, readOnly: bool, chunkSize: int, ghost ix: Indexing)
      ensures env == last.env && this.chunkSize == chunkSize && this.dedup == dedup && this.readOnly == readOnly
      ensures this.compression == compression && this.ix == ix
      ensures objs == last.objs && chunks == last.chunks && blocks == last.blocks && versions == last.versions
      ensures last.Loose() && 0 < chunkSize <= MAX_CHUNK ==> Loose()
      ensures last.Inv() && 0 < chunkSize <= MAX_CHUNK && (dedup <==> ix.Indexed?) && HashInv(env, ix, blocks) ==> Inv()
    {
      this.env, this.dedup, this.compression := last.env, dedup, compression;
      this.readOnly, this.chunkSize, this.ix := readOnly, chunkSize, ix;
      objs, chunks, blocks, versions := last.objs, last.chunks, last.blocks, last.versions;
    }

    /** What stands also when no one vouches for the hash column. */
    ghost predicate Loose()
      reads this
    {
      Config() && Counted(chunks, blocks) && ObjInv(env, objs, V())
    }

    lemma InvIsLoose()
      requires Inv0()
      ensures Loose()
    {
    }

    ghost predicate BlockInv()
      reads this`chunks, this`blocks
    {
      (dedup <==> ix.Indexed?) && Blocks.BlockInv(env, ix, chunks, blocks)
    }

    // ---- whole-block writes (putBlock, putBlockDedup) ----

    /** Insert a block with one reference and point `k` at it, releasing nothing. */
    method MapToNewBlock(k: ChunkKey, s: Stored, hash: Option<Digest>) returns (block: int)
      modifies this`chunks, this`blocks
      ensures block !in old(blocks)
      ensures blocks == old(blocks)[block := Block(s.data, s.enc, 1, hash)]
      ensures chunks == old(chunks)[k := block]
    {
      block := NewRowId(blocks.Keys);
      blocks := blocks[block := Block(s.data, s.enc, 1, hash)];
      chunks := chunks[k := block];
    }

    /** Drop one reference without freeing; the caller knows the block is shared. */
    method DecBlockRef(block: int)
      requires block in blocks
      modifies this`blocks
      ensures blocks == old(blocks)[block := old(blocks)[block].(refs := old(blocks)[block].refs - 1)]
    {
      var b := blocks[block];
      blocks := blocks[block := b.(refs := b.refs - 1)];
    }

    /** Drop one reference and free the block if that was the last. */
    method ReleaseBlock(block: int)
      requires block in blocks
      modifies this`blocks
      ensures old(blocks)[block].refs > 1 ==>
        blocks == old(blocks)[block := old(blocks)[block].(refs := old(blocks)[block].refs - 1)]
      ensures old(blocks)[block].refs <= 1 ==> blocks == old(blocks) - {block}
    {
      var b := blocks[block];
      blocks := blocks[block := b.(refs := b.refs - 1)];
      if blocks[block].refs <= 0 {
        blocks := blocks - {block};
      }
    }

    /** Replace the whole content of chunk `k`, copy-on-write. */
    method PutBlock(k: ChunkKey, s: Stored)
      requires Config() && Counted(chunks, blocks)
      modifies this`chunks, this`blocks
      ensures Counted(chunks, blocks)
      ensures k in chunks && chunks == old(chunks)[k := chunks[k]]
      ensures View(chunks, blocks) == old(View(chunks, blocks))[k := blocks[chunks[k]].Value()]
      ensures dedup ==> Landed(env, old(blocks), blocks, chunks[k], s)
      ensures dedup ==> AnchorsStay(old(chunks), old(blocks), chunks, blocks, k.obj)
      ensures !dedup ==> blocks[chunks[k]].Value() == s
      ensures !dedup ==> PrivateStay(old(chunks), old(blocks), chunks, blocks, Some(k.obj))
      ensures old(BlockInv()) ==> BlockInv() && View(chunks, blocks) == old(View(chunks, blocks))[k := s]
      ensures old(BlockInv()) && dedup ==>
        Hashed(chunks, blocks, k) && HashesStay(old(chunks), old(blocks), chunks, blocks, k)
    {
      hide View, Refs, HashInv, HashesStay, PrivateStay, AnchorsStay, Landed;
      if dedup {
        PutBlockDedup(k, s);
        if old(BlockInv()) { LandedIsHashed(env, old(blocks), chunks, blocks, k, s); }
      } else if k !in chunks {
        ghost var good := BlockInv();
        var block := MapToNewBlock(k, s, None);
        RepointKeepsCounts(old(chunks), old(blocks), k, block, blocks[block]);
        NewBlockStays(old(chunks), old(blocks), k, block, blocks[block], Some(k.obj));
        if good { RepointKeepsInv(env, ix, old(chunks), old(blocks), k, block, blocks[block]); }
      } else if blocks[chunks[k]].refs <= 1 {
        OverwriteBlock(k, s);
      } else {
        ReplaceSharedBlock(k, s);
      }
    }

    /** The block is private: its row is updated in place and loses its hash. */
    method OverwriteBlock(k: ChunkKey, s: Stored)
      requires Counted(chunks, blocks) && k in chunks && blocks[chunks[k]].refs <= 1
      modifies this`blocks
      ensures Counted(chunks, blocks) && blocks[chunks[k]].Value() == s
      ensures View(chunks, blocks) == old(View(chunks, blocks))[k := s]
      ensures PrivateStay(chunks, old(blocks), chunks, blocks, Some(k.obj))
      ensures old(BlockInv()) ==> BlockInv()
    {
      hide View, Refs, HashInv, PrivateStay;
      ghost var good := BlockInv();
      var cur := chunks[k];
      blocks := blocks[cur := blocks[cur].(data := s.data, enc := s.enc, hash := None)];
      InPlaceKeepsCounts(chunks, old(blocks), k, blocks[cur]);
      OverwriteStays(chunks, old(blocks), k, blocks[cur]);
      if good { InPlaceKeepsInv(env, ix, chunks, old(blocks), k, blocks[cur]); }
    }

    /** The block is shared: the chunk gets a new one and leaves one reference. */
    method ReplaceSharedBlock(k: ChunkKey, s: Stored)
      requires Counted(chunks, blocks) && k in chunks && blocks[chunks[k]].refs > 1
      modifies this`chunks, this`blocks
      ensures Counted(chunks, blocks) && k in chunks && chunks == old(chunks)[k := chunks[k]]
      ensures blocks[chunks[k]].Value() == s
      ensures View(chunks, blocks) == old(View(chunks, blocks))[k := s]
      ensures PrivateStay(old(chunks), old(blocks), chunks, blocks, Some(k.obj))
      ensures old(BlockInv()) ==> BlockInv()
    {
      hide View, Refs, HashInv, PrivateStay;
      ghost var good := BlockInv();
      var cur := chunks[k];
      var block := MapToNewBlock(k, s, None);
      RepointKeepsCounts(old(chunks), old(blocks), k, block, blocks[block]);
      CopyStays(old(chunks), old(blocks), k, block, blocks[block], Some(k.obj));
      if good { RepointKeepsInv(env, ix, old(chunks), old(blocks), k, block, blocks[block]); }
      DecBlockRef(cur);
      assert blocks == Repointed(old(chunks), old(blocks), k, block, Block(s.data, s.enc, 1, None));
    }

    /** The (unique) block carrying content hash `h`, if any. */
    method BlockByHash(h: Digest) returns (found: Option<int>)
      ensures found.Some? ==> found.value in blocks && blocks[found.value].hash == Some(h)
      ensures found.None? ==> forall b :: b in blocks ==> blocks[b].hash != Some(h)
    {
      if b :| b in blocks && blocks[b].hash == Some(h) {
        found := Some(b);
      } else {
        found := None;
      }
    }

    /** The content-addressed variant: reference an identical stored block instead
        of writing a copy, and free the previous block if that was its last use. What
        it stores is whatever carries the hash - the right bytes if the index is current. */
    method PutBlockDedup(k: ChunkKey, s: Stored)
      requires k in chunks ==> chunks[k] in blocks
      modifies this`chunks, this`blocks
      ensures k in chunks && chunks == old(chunks)[k := chunks[k]]
      ensures Landed(env, old(blocks), blocks, chunks[k], s)
      ensures old(Counted(chunks, blocks)) ==>
        && Counted(chunks, blocks) && View(chunks, blocks) == old(View(chunks, blocks))[k := blocks[chunks[k]].Value()]
        && AnchorsStay(old(chunks), old(blocks), chunks, blocks, k.obj)
      ensures old(Config() && BlockInv() && dedup) ==>
        && BlockInv() && View(chunks, blocks) == old(View(chunks, blocks))[k := s]
        && HashesStay(old(chunks), old(blocks), chunks, blocks, k)
    {
      hide View, Refs, HashesStay, Blocks.BlockInv, Counted, AnchorsStay;
      var h := env.digest(s.data, s.enc);
      var cur := if k in chunks then Some(chunks[k]) else None;
      ghost var good := Config() && BlockInv() && dedup;
      ghost var counted := Counted(chunks, blocks);
      var found := BlockByHash(h);
      if found.Some? {
        var existing := found.value;
        if cur == Some(existing) {
          if counted { SameRowAgain(chunks, blocks, k); }
          if good { SameBlockAgain(env, chunks, blocks, k, s); }
          return;
        }
        blocks := blocks[existing := blocks[existing].(refs := blocks[existing].refs + 1)];
        chunks := chunks[k := existing];
        if counted { RepointLoosely(old(chunks), old(blocks), k, existing, blocks[existing]); }
        if good { ReferenceKeepsInv(env, old(chunks), old(blocks), k, existing, s); }
      } else {
        var block := MapToNewBlock(k, s, Some(h));
        if counted { RepointLoosely(old(chunks), old(blocks), k, block, blocks[block]); }
        if good { InsertKeepsInv(env, old(chunks), old(blocks), k, block, s); }
      }
      if cur.Some? {
        ReleaseBlock(cur.value);
      }
    }

    // ---- in-place writes (privateRawBlock, blobWrite) ----

    /** A block that chunk `k` may be mutated in place through: fresh zeros for a
        hole, the block itself when private, a copy when shared. */
    method PrivateRawBlock(k: ChunkKey, chunk: nat) returns (block: int)
      requires BlockInv()
      modifies this`chunks, this`blocks
      ensures BlockInv()
      ensures k in chunks && chunks == old(chunks)[k := block]
      ensures block in blocks && blocks[block].refs == 1 && (ix.Lapsed? || blocks[block].hash == None)
      ensures View(chunks, blocks) ==
        if k in old(chunks) then old(View(chunks, blocks))
        else old(View(chunks, blocks))[k := Stored(Zeros(chunk), ENC_VERBATIM)]
      ensures k in old(chunks) && old(blocks[chunks[k]].refs) == 1 ==>
        && block == old(chunks[k])
        && blocks == if dedup then old(blocks)[block := old(blocks)[block].(hash := None)] else old(blocks)
      ensures !dedup ==> PrivateStay(old(chunks), old(blocks), chunks, blocks, None)
    {
      hide View, Refs, PrivateStay;
      if k !in chunks {
        block := MapToNewBlock(k, Stored(Zeros(chunk), ENC_VERBATIM), None);
        RepointKeepsInv(env, ix, old(chunks), old(blocks), k, block, blocks[block]);
        NewBlockStays(old(chunks), old(blocks), k, block, blocks[block], None);
        return;
      }
      var cur := chunks[k];
      if blocks[cur].refs <= 1 {
        if dedup {
          DropHashKeepsInv(env, ix, chunks, blocks, k);
          blocks := blocks[cur := blocks[cur].(hash := None)];
        } else {
          NothingStays(chunks, blocks, None);
          assert chunks == chunks[k := cur];
        }
        return cur;
      }
      block := CopySharedBlock(k);
    }

    /** Give chunk `k`, whose block is shared, a private copy of it. */
    method CopySharedBlock(k: ChunkKey) returns (block: int)
      requires BlockInv()
      requires k in chunks && blocks[chunks[k]].refs > 1
      modifies this`chunks, this`blocks
      ensures BlockInv()
      ensures block !in old(blocks)
      ensures chunks == old(chunks)[k := block]
      ensures block in blocks && blocks[block].refs == 1 && blocks[block].hash == None
      ensures View(chunks, blocks) == old(View(chunks, blocks))
      ensures PrivateStay(old(chunks), old(blocks), chunks, blocks, None)
    {
      hide View, Refs, PrivateStay, HashInv;
      var cur := chunks[k];
      block := MapToNewBlock(k, blocks[cur].Value(), None);
      CopyKeepsInv(env, ix, old(chunks), old(blocks), k, block);
      CopyStays(old(chunks), old(blocks), k, block, blocks[block], None);
      DecBlockRef(cur);
      assert blocks == Repointed(old(chunks), old(blocks), k, block, blocks[block]);
    }

    /** Mutate a privately owned block in place. */
    method BlobWrite(k: ChunkKey, block: int, src: seq<byte>, off: nat)
      requires BlockInv()
      requires k in chunks && chunks[k] == block
      requires blocks[block].refs == 1 && (ix.Lapsed? || blocks[block].hash == None)
      requires off + |src| <= |blocks[block].data|
      modifies this`blocks
      ensures BlockInv()
      ensures blocks == old(blocks)[block := old(blocks)[block].(data := Overlay(old(blocks)[block].data, off, src))]
      ensures var s := old(blocks)[block].Value();
        View(chunks, blocks) == old(View(chunks, blocks))[k := Stored(Overlay(s.data, off, src), s.enc)]
      ensures PrivateStay(chunks, old(blocks), chunks, blocks, None)
    {
      hide View, Refs, PrivateStay, HashInv;
      var data := Overlay(blocks[block].data, off, src);
      InPlaceStays(chunks, blocks, block, data);
      blocks := blocks[block := blocks[block].(data := data)];
      InPlaceKeepsInv(env, ix, chunks, old(blocks), k, blocks[block]);
    }

    // ---- bulk release and bulk copy (releaseChunks, cloneObjectTx) ----

    /** Drop object `id`'s mappings from sequence `from` on (all of them when not
        ranged) and free the blocks that lose their last reference. */
    method ReleaseChunks(id: int, from: int, ranged: bool)
      requires BlockInv()
      modifies this`chunks, this`blocks
      ensures BlockInv()
      ensures var gone := RowsOf(old(chunks), id, from, ranged);
        && chunks == old(chunks) - gone
        && View(chunks, blocks) == old(View(chunks, blocks)) - gone
        && blocks == Released(old(chunks), old(blocks), gone)
        && (forall b :: b in old(blocks) ==> (b in blocks <==> !(old(Refs(chunks, b)) <= gone)))
    {
      var gone := RowsOf(chunks, id, from, ranged);
      ReleaseKeepsInv(env, ix, chunks, blocks, gone);
      ReleaseStatements(chunks, blocks, gone);
      blocks := AddCounts(chunks, blocks, gone, -1);
      blocks := DeleteUnreferenced(chunks, blocks, gone);
      chunks := chunks - gone;
    }

    /** Copy every mapping of `src` to the new object `dst` and count the references. */
    method CloneChunks(src: int, dst: int)
      requires BlockInv()
      requires src != dst && forall k :: k in chunks ==> k.obj != dst
      modifies this`chunks, this`blocks
      ensures BlockInv()
      ensures chunks == old(chunks) + ClonedRows(old(chunks), src, dst)
      ensures Mapped(ClonedRows(old(chunks), src, dst), old(blocks))
      ensures View(chunks, blocks) == old(View(chunks, blocks)) + View(ClonedRows(old(chunks), src, dst), old(blocks))
      ensures blocks == Bumped(old(blocks), ClonedRows(old(chunks), src, dst))
      ensures blocks.Keys == old(blocks.Keys)
    {
      hide Blocks.BlockInv, View, ClonedRows, Bumped, Mapped, AddCounts, RowsOf;
      CloneKeepsInv(env, ix, chunks, blocks, src, dst);
      chunks := chunks + ClonedRows(chunks, src, dst);
      blocks := AddCounts(chunks, blocks, RowsOf(chunks, dst, 0, false), 1);
    }

    // ---- chunk reads and writes ----

    /** The full plaintext of a chunk in any mode; None for a hole. Decoding cannot
        fail: the invariant rules out both the oversized and the malformed chunk. */
    method ChunkGetCompressed(id: int, no: int, chunk: int) returns (plain: Option<seq<byte>>)
      requires Mapped(chunks, blocks) && chunk > 0
      requires At(id, no) in chunks ==> Fits(env, chunk, CODEC_AZ, V()[At(id, no)])
      ensures plain.Some? <==> At(id, no) in chunks
      ensures plain.Some? ==> plain.value == ChunkPlain(env, chunk, V(), id, no)
    {
      var k := At(id, no);
      if k !in chunks {
        return None;
      }
      var decoded := DecodeChunk(env, blocks[chunks[k]].Value(), chunk);
      assert decoded.Plain? && |decoded.bytes| == chunk;
      return Some(decoded.bytes);
    }

    method ChunkPutCompressed(id: int, no: int, plain: seq<byte>, objLevel: int)
      requires Config() && Counted(chunks, blocks)
      modifies this`chunks, this`blocks
      ensures Counted(chunks, blocks)
      ensures At(id, no) in chunks && chunks == old(chunks)[At(id, no) := chunks[At(id, no)]]
      ensures V() == old(V())[At(id, no) := V()[At(id, no)]]
      ensures dedup ==> AnchorsStay(old(chunks), old(blocks), chunks, blocks, id)
      ensures !dedup ==> PrivateStay(old(chunks), old(blocks), chunks, blocks, Some(id))
      ensures old(BlockInv()) ==>
        && BlockInv() && Fits(env, |plain|, CODEC_AZ, V()[At(id, no)])
        && DecodeChunk(env, V()[At(id, no)], |plain|) == Plain(plain)
      ensures old(BlockInv()) || !dedup ==> PackedFor(env, V()[At(id, no)], plain, objLevel, compression)
      ensures old(BlockInv()) && dedup ==>
        Hashed(chunks, blocks, At(id, no)) && HashesStay(old(chunks), old(blocks), chunks, blocks, At(id, no))
    {
      hide HashesStay, Hashed, HashInv, Refs, AnchorsStay, PrivateStay, Landed, PackedFor, PackedSomehow;
      EncodePacks(env, plain, objLevel, compression);
      var s := EncodeChunk(env, plain, WriteLevel(objLevel, compression));
      EncodeRoundTrip(env, plain, WriteLevel(objLevel, compression), |plain|);
      PutBlock(At(id, no), s);
    }

    method WriteChunkRaw(id: int, no: int, chunk: int, inOff: int, src: seq<byte>)
      requires BlockInv() && chunk > 0
      requires At(id, no) in chunks ==> Fits(env, chunk, CODEC_RAW, V()[At(id, no)])
      requires 0 <= inOff && inOff + |src| <= chunk
      modifies this`chunks, this`blocks
      ensures BlockInv()
      ensures At(id, no) in chunks && chunks == old(chunks)[At(id, no) := chunks[At(id, no)]]
      ensures ChunkWritten(env, chunk, old(V()), V(), id, no, inOff, src)
      ensures Fits(env, chunk, CODEC_RAW, V()[At(id, no)])
      ensures var k := At(id, no);
        k in old(chunks) && old(blocks[chunks[k]].refs) == 1 ==>
          && chunks == old(chunks)
          && inOff + |src| <= |old(blocks[chunks[k]].data)|
          && blocks == old(blocks)[chunks[k] := DedupFlag.InPlace(dedup, old(blocks[chunks[k]]), inOff, src)]
      ensures !dedup ==> PrivateStay(old(chunks), old(blocks), chunks, blocks, None)
    {
      hide Refs, PrivateStay, HashInv, View;
      var k := At(id, no);
      if k in chunks { RowValue(chunks, blocks, k); }
      ViewKeys(chunks, blocks);
      var block := PrivateRawBlock(k, chunk);
      ghost var c1, b1 := chunks, blocks;
      RowValue(chunks, blocks, k);
      assert blocks[block].data == old(ChunkPlain(env, chunk, V(), id, no)) && blocks[block].enc == ENC_VERBATIM;
      BlobWrite(k, block, src, inOff);
      if !dedup { PrivateStayTrans(old(chunks), old(blocks), c1, b1, chunks, blocks, None); }
    }

    method WriteChunkCompressed(id: int, no: int, chunk: int, inOff: int, src: seq<byte>, objLevel: int)
      requires Config() && BlockInv() && chunk > 0
      requires At(id, no) in chunks ==> Fits(env, chunk, CODEC_AZ, V()[At(id, no)])
      requires 0 <= inOff && inOff + |src| <= chunk
      modifies this`chunks, this`blocks
      ensures BlockInv()
      ensures At(id, no) in chunks && chunks == old(chunks)[At(id, no) := chunks[At(id, no)]]
      ensures ChunkWritten(env, chunk, old(V()), V(), id, no, inOff, src)
      ensures Fits(env, chunk, CODEC_AZ, V()[At(id, no)])
      ensures PackedFor(env, V()[At(id, no)], ChunkPlain(env, chunk, V(), id, no), objLevel, compression)
      ensures !dedup ==> PrivateStay(old(chunks), old(blocks), chunks, blocks, Some(id))
    {
      hide PrivateStay, AnchorsStay, HashInv, Refs, PackedFor, PackedSomehow;
      ghost var before := ChunkPlain(env, chunk, V(), id, no);
      if inOff == 0 && |src| == chunk {
        assert src == Overlay(before, 0, src);
        ChunkPutCompressed(id, no, src, objLevel);
        return;
      }
      var got := ChunkGetCompressed(id, no, chunk);
      var plain := if got.Some? then got.value else Zeros(chunk);
      ChunkPutCompressed(id, no, Overlay(plain, inOff, src), objLevel);
    }

    /** Write one span inside one chunk, raw (in place) or compressed (whole chunk). */
    method WriteSpan(id: int, chunk: int, codec: int, level: int, no: int, inOff: int, src: seq<byte>, ghost at: int)
      requires Config() && BlockInv() && RowsOk(env, objs, V())
      requires id in objs && chunk == objs[id].chunk && codec == objs[id].codec
      requires at == no * chunk + inOff
      requires no >= 0 && 0 <= inOff && inOff + |src| <= chunk
      modifies this`chunks, this`blocks
      ensures BlockInv() && RowsOk(env, objs, V())
      ensures Spliced(env, chunk, old(V()), V(), id, at, src)
      ensures OthersSame(old(V()), V(), id)
      ensures At(id, no) in V() && V() == old(V())[At(id, no) := V()[At(id, no)]]
      ensures codec == CODEC_AZ ==>
        PackedFor(env, V()[At(id, no)], ChunkPlain(env, chunk, V(), id, no), level, compression)
      ensures chunks.Keys == old(chunks.Keys) + {At(id, no)}
      ensures !dedup ==>
        PrivateStay(old(chunks), old(blocks), chunks, blocks, if codec == CODEC_AZ then Some(id) else None)
    {
      hide PrivateStay, HashInv, Refs, PackedFor, PackedSomehow;
      ghost var v := V();
      assert At(id, no) in v ==> RowOk(env, objs, At(id, no), v[At(id, no)]);
      if codec == CODEC_AZ {
        WriteChunkCompressed(id, no, chunk, inOff, src, level);
      } else {
        WriteChunkRaw(id, no, chunk, inOff, src);
      }
      ChunkWriteKeepsRows(env, objs, v, V(), At(id, no));
      ChunkWriteSplices(env, chunk, v, V(), id, no, inOff, src, at);
    }

    /** The rows of object `id` that a write of `n` bytes at `off` materialises. */
    static ghost function Touched(id: int, chunk: int, off: int, n: int): set<ChunkKey>
      requires chunk > 0
    {
      set no | no in Numbers(off, n, chunk) :: At(id, no)
    }

    /** The rows of the first `j` spans. */
    static ghost function SpanRows(id: int, spans: seq<Span>, j: int): set<ChunkKey>
      requires 0 <= j <= |spans|
    {
      set i | 0 <= i < j :: At(id, spans[i].no)
    }

    static lemma SpanRowsAre(id: int, spans: seq<Span>, off: int, n: int, chunk: int)
      requires off >= 0 && n >= 0 && chunk > 0 && Partition(spans, off, n, chunk)
      ensures SpanRows(id, spans, 0) == {} && SpanRows(id, spans, |spans|) == Touched(id, chunk, off, n)
      ensures forall j :: 0 <= j < |spans| ==>
        SpanRows(id, spans, j + 1) == SpanRows(id, spans, j) + {At(id, spans[j].no)}
    {
      SpanNumbers(spans, off, n, chunk);
      assert SpanRows(id, spans, |spans|) == set no | no in (set i | 0 <= i < |spans| :: spans[i].no) :: At(id, no);
    }

    /** Write `p` at object offset `off`, span by span, raw or compressed. */
    method WriteSpans(id: int, chunk: int, codec: int, level: int, off: int, p: seq<byte>)
      requires Config() && BlockInv() && RowsOk(env, objs, V())
      requires id in objs && chunk == objs[id].chunk && codec == objs[id].codec
      requires off >= 0
      modifies this`chunks, this`blocks
      ensures BlockInv() && RowsOk(env, objs, V())
      ensures Spliced(env, chunk, old(V()), V(), id, off, p)
      ensures OthersSame(old(V()), V(), id)
      ensures chunk > 0 && chunks.Keys == old(chunks.Keys) + Touched(id, chunk, off, |p|)
      ensures codec == CODEC_AZ ==> PackedRows(env, chunk, V(), Touched(id, chunk, off, |p|), level, compression)
      ensures !dedup ==>
        PrivateStay(old(chunks), old(blocks), chunks, blocks, if codec == CODEC_AZ then Some(id) else None)
    {
      hide Blocks.BlockInv, RowsOk, Spliced, OthersSame, View, PrivateStay, PackedRows, PackedFor, Touched, SpanRows;
      ghost var v0 := V();
      MetaAt(env, objs, v0, id);
      NonePacked(env, chunk, v0, level, compression);
      SpliceWhole(env, chunk, v0, id, off);
      ghost var but := if codec == CODEC_AZ then Some(id) else None;
      NothingStays(chunks, blocks, but);
      var spans := ChunkSpans(off, |p|, chunk);
      ghost var done := 0;
      SpanRowsAre(id, spans, off, |p|, chunk);
      for j := 0 to |spans|
        invariant BlockInv() && RowsOk(env, objs, V())
        invariant 0 <= done == Reach(spans[..j]) <= |p|
        invariant Spliced(env, chunk, v0, V(), id, off, p[..done]) && OthersSame(v0, V(), id)
        invariant chunks.Keys == old(chunks.Keys) + SpanRows(id, spans, j)
        invariant codec == CODEC_AZ ==> PackedRows(env, chunk, V(), SpanRows(id, spans, j), level, compression)
        invariant !dedup ==> PrivateStay(old(chunks), old(blocks), chunks, blocks, but)
      {
        var s := spans[j];
        NextSpan(spans, off, |p|, chunk, j);
        ghost var v, at, next := V(), off + done, done + s.len;
        ghost var c1, b1 := chunks, blocks;
        var src := p[s.bufOff..s.bufOff + s.len];
        assert src == p[done..next];
        WriteSpan(id, chunk, codec, level, s.no, s.inOff, src, at);
        if codec == CODEC_AZ {
          PackedNext(env, chunk, v, V(), SpanRows(id, spans, j), At(id, s.no), level, compression);
        }
        SplicePrefixExtends(env, chunk, v0, v, V(), id, off, p, done, at, next);
        if !dedup { PrivateStayTrans(old(chunks), old(blocks), c1, b1, chunks, blocks, but); }
        done := next;
      }
      assert spans[..|spans|] == spans && p[..|p|] == p;
    }

    // ---- object writes ----

    ghost predicate Inv0()
      reads this
    {
      && Config()
      && BlockInv()
      && ObjInv(env, objs, V())
    }

    lemma CountsHold()
      requires Inv0()
      ensures Counted(chunks, blocks) && forall k :: k in chunks ==> k.obj in objs
    {
      hide HashInv, Refs;
      forall k | k in chunks ensures k.obj in objs { assert RowOk(env, objs, k, V()[k]); }
    }

    /** The meaning of every object, hidden snapshots included. */
    ghost function Meaning(): map<int, seq<byte>>
      reads this
    {
      Contents(env, objs, V())
    }

    /** UPDATE objects SET size: completes a change whose chunks are already stored. */
    method SetSize(id: int, n: int, ghost v0: Image)
      requires Config() && BlockInv() && RowsOk(env, objs, V())
      requires ObjInv(env, objs, v0) && OthersSame(v0, V(), id)
      requires id in objs && 0 <= n <= MAX_INT64
      requires TailZero(env, n, objs[id].chunk, V(), id)
      modifies this`objs
      ensures Inv0()
      ensures objs == old(objs)[id := old(objs)[id].(size := n)]
      ensures Meaning() == Contents(env, old(objs), v0)[id := Content(env, n, old(objs)[id].chunk, V(), id)]
    {
      hide Blocks.BlockInv, ObjInv, RowsOk, TailZero, OthersSame, View, Contents;
      SizeSet(env, objs, v0, V(), id, n);
      objs := objs[id := objs[id].(size := n)];
    }

    /** The work of one WriteAt inside an open transaction. */
    method WriteOnConn(id: int, p: Buffer, off: int, end: int) returns (err: Option<Err>)
      requires Inv0()
      requires off >= 0 && end == off + |p| <= MAX_INT64
      modifies this`objs, this`chunks, this`blocks
      ensures Inv0()
      ensures err == if id in old(objs) then None else Some(NotFound)
      ensures err.Some? ==> objs == old(objs) && Meaning() == old(Meaning())
      ensures err.None? ==>
        && id in objs && objs == old(objs)[id := old(objs)[id].(size := objs[id].size)]
        && Meaning() == old(Meaning())[id := Splice(old(Meaning())[id], off, p)]
        && objs[id].chunk > 0 && chunks.Keys == old(chunks.Keys) + Touched(id, objs[id].chunk, off, |p|)
        && (objs[id].codec == CODEC_AZ ==>
              PackedRows(env, objs[id].chunk, V(), Touched(id, objs[id].chunk, off, |p|), objs[id].level, compression))
        && (!dedup ==> PrivateStay(old(chunks), old(blocks), chunks, blocks,
                         if objs[id].codec == CODEC_AZ then Some(id) else None))
    {
      hide PrivateStay, Touched, HashInv, Refs, PackedRows;
      if id !in objs {
        return Some(NotFound);
      }
      var o := objs[id];
      ghost var v0 := V();
      WriteSpans(id, o.chunk, o.codec, o.level, off, p);
      var n := Max(o.size, end);
      SplicedContent(env, o.size, o.chunk, v0, V(), id, off, p, n);
      SetSize(id, n, v0);
      return None;
    }

    /** WriteAt: one atomic transaction; a refused or failed write changes nothing. */
    method WriteAt(id: int, p: Buffer, off: Int64) returns (n: int, err: Option<Err>)
      requires Inv0()
      modifies this`objs, this`chunks, this`blocks
      ensures Inv0()
      ensures err ==
        if off < 0 then Some(NegativeOffset)
        else if p == [] then None
        else if off + |p| > MAX_INT64 then Some(OffsetOverflow)
        else if readOnly then Some(ReadOnly)
        else if id !in old(objs) then Some(NotFound)
        else None
      ensures n == if err.None? then |p| else 0
      ensures err.Some? || p == [] ==> objs == old(objs) && Meaning() == old(Meaning())
      ensures err.None? && p != [] ==>
        && id in objs && objs == old(objs)[id := old(objs)[id].(size := objs[id].size)]
        && Meaning() == old(Meaning())[id := Splice(old(Meaning())[id], off, p)]
        && objs[id].chunk > 0 && chunks.Keys == old(chunks.Keys) + Touched(id, objs[id].chunk, off, |p|)
        && (objs[id].codec == CODEC_AZ ==>
              PackedRows(env, objs[id].chunk, V(), Touched(id, objs[id].chunk, off, |p|), objs[id].level, compression))
        && (!dedup ==> PrivateStay(old(chunks), old(blocks), chunks, blocks,
                         if objs[id].codec == CODEC_AZ then Some(id) else None))
    {
      hide PrivateStay, Touched, Inv0, PackedRows;
      match WriteArgs(p, off)
      case Bad(e) => return 0, Some(e);
      case Nothing => return 0, None;
      case Range(end) =>
        WriteArgsExact(p, off);
        if readOnly {
          return 0, Some(ReadOnly);
        }
        err := WriteOnConn(id, p, off, end);
        return if err.None? then |p| else 0, err;
    }

    /** One well-formed write of a batch: spans stored, size update deferred. `n` is
        the size the object would have if the batch committed now. */
    method BatchWrite(id: int, o: Obj, p: Buffer, off: int, ghost v0: Image, ghost n: int, ghost m: int)
      requires Config() && BlockInv() && RowsOk(env, objs, V()) && OthersSame(v0, V(), id)
      requires id in objs && o == objs[id] && off >= 0 && n >= 0
      requires m == Max(n, off + |p|)
      requires TailZero(env, n, o.chunk, V(), id)
      modifies this`chunks, this`blocks
      ensures BlockInv() && RowsOk(env, objs, V()) && OthersSame(v0, V(), id)
      ensures TailZero(env, m, o.chunk, V(), id)
      ensures Content(env, m, o.chunk, V(), id) == Splice(old(Content(env, n, o.chunk, V(), id)), off, p)
    {
      ghost var v := V();
      WriteSpans(id, o.chunk, o.codec, o.level, off, p);
      SplicedContent(env, n, o.chunk, v, V(), id, off, p, m);
      OthersSameTrans(v0, v, V(), id);
    }

    /** The batch callback: write after write on one connection, tracking the
        high-water end offset, up to the first ill-formed one it does not ignore. */
    method BatchWrites(id: int, o: Obj, patches: seq<Patch>) returns (err: Option<Err>, maxEnd: int, ghost n: int)
      requires Inv0() && id in objs && o == objs[id]
      modifies this`chunks, this`blocks
      ensures err == BatchError(patches)
      ensures 0 <= maxEnd <= MAX_INT64 && n == Max(o.size, maxEnd)
      ensures BlockInv() && RowsOk(env, objs, V()) && OthersSame(old(V()), V(), id)
      ensures err.None? ==> TailZero(env, n, o.chunk, V(), id)
      ensures err.None? ==>
        Content(env, n, o.chunk, V(), id) == BatchMeaning(old(Content(env, o.size, o.chunk, V(), id)), patches)
    {
      hide Blocks.BlockInv, ObjInv, RowsOk, TailZero, OthersSame, View, Contents, Content,
        WriteArgs, BatchError, BatchMeaning;
      ContentsAt(env, objs, V(), id);
      SpliceWhole(env, o.chunk, V(), id, 0);
      BatchNothing(Content(env, o.size, o.chunk, V(), id));
      maxEnd := 0;
      ghost var v0, c0 := V(), Content(env, o.size, o.chunk, V(), id);
      n := o.size;
      for j := 0 to |patches|
        invariant BlockInv() && RowsOk(env, objs, V()) && OthersSame(v0, V(), id)
        invariant BatchError(patches[..j]).None?
        invariant 0 <= maxEnd <= MAX_INT64 && n == Max(o.size, maxEnd)
        invariant TailZero(env, n, o.chunk, V(), id)
        invariant Content(env, n, o.chunk, V(), id) == BatchMeaning(c0, patches[..j])
      {
        var patch := patches[j];
        BatchStep(c0, patches, j);
        match WriteArgs(patch.data, patch.off)
        case Bad(e) =>
          if !patch.ignore {
            BatchErrorStays(patches, j + 1);
            return Some(e), maxEnd, n;
          }
        case Nothing =>
        case Range(end) =>
          RangeIs(patch.data, patch.off);
          ghost var m := Max(n, end);
          BatchWrite(id, o, patch.data, patch.off, v0, n, m);
          maxEnd := Max(maxEnd, end);
          n := m;
      }
      assert patches[..|patches|] == patches;
      return None, maxEnd, n;
    }

    /** Batch: all writes commit together with one size update, or none does. */
    method Batch(id: int, patches: seq<Patch>, giveUp: bool) returns (err: Option<Err>)
      requires Inv0()
      modifies this`objs, this`chunks, this`blocks
      ensures Inv0()
      ensures err ==
        if readOnly then Some(ReadOnly)
        else if id !in old(objs) then Some(NotFound)
        else CallbackError(patches, giveUp)
      ensures err.None? <==> !readOnly && id in old(objs) && !giveUp && !AnyFatal(patches)
      ensures !readOnly && id in old(objs) ==>
        && (forall i :: FirstFatal(patches, i) ==>
              err == Some(if patches[i].off < 0 then NegativeOffset else OffsetOverflow))
        && (giveUp && !AnyFatal(patches) ==> err == Some(Callback))
      ensures err.Some? ==>
        objs == old(objs) && chunks == old(chunks) && blocks == old(blocks) && Meaning() == old(Meaning())
      ensures err.None? ==>
        && id in objs && objs == old(objs)[id := old(objs)[id].(size := objs[id].size)]
        && Meaning() == old(Meaning())[id := BatchMeaning(old(Meaning())[id], patches)]
    {
      hide Blocks.BlockInv, ObjInv, RowsOk, TailZero, OthersSame, View, Contents, Content, FirstFatal, AnyFatal,
        BatchError;
      CallbackErrorIs(patches, giveUp);
      if readOnly {
        return Some(ReadOnly);
      }
      if id !in objs {
        return Some(NotFound);
      }
      var before := (chunks, blocks);
      ghost var v0 := V();
      ContentsAt(env, objs, v0, id);
      var bad, maxEnd, n := BatchWrites(id, objs[id], patches);
      if bad.Some? || giveUp {
        chunks, blocks := before.0, before.1;
        return if bad.Some? then bad else Some(Callback);
      }
      SetSize(id, Max(objs[id].size, maxEnd), v0);
      return None;
    }

    // ---- object reads ----

    /** The bytes a chunk read delivers: a hole clears the destination, a raw chunk
        is read in place, a compressed one is decoded whole. */
    method ReadChunk(id: int, chunk: int, codec: int, no: int, inOff: int, len: int) returns (got: seq<byte>)
      requires Mapped(chunks, blocks) && RowsOk(env, objs, V())
      requires id in objs && chunk == objs[id].chunk && codec == objs[id].codec
      requires no >= 0 && 0 <= inOff && 0 <= len && inOff + len <= chunk
      ensures |ChunkPlain(env, chunk, V(), id, no)| == chunk
      ensures got == ChunkPlain(env, chunk, V(), id, no)[inOff..inOff + len]
    {
      var k := At(id, no);
      assert k in V() ==> RowOk(env, objs, k, V()[k]);
      if k !in chunks {
        return Zeros(len);
      }
      if codec == CODEC_AZ {
        var plain := ChunkGetCompressed(id, no, chunk);
        return plain.value[inOff..inOff + len];
      }
      return blocks[chunks[k]].data[inOff..inOff + len];
    }

    /** Fill the buffer from one span. */
    method ReadSpan(id: int, chunk: int, codec: int, s: Span, off: int, buf: array<byte>, ghost from: int)
      requires Mapped(chunks, blocks) && RowsOk(env, objs, V())
      requires id in objs && chunk == objs[id].chunk && codec == objs[id].codec
      requires InOneChunk(s, off, chunk) && s.bufOff + s.len <= buf.Length
      requires off >= 0 && from == off + s.bufOff
      modifies buf
      ensures buf[s.bufOff..s.bufOff + s.len] == Slice(env, chunk, V(), id, from, s.len)
      ensures buf[..s.bufOff] == old(buf[..s.bufOff])
      ensures buf[s.bufOff + s.len..] == old(buf[s.bufOff + s.len..])
    {
      var got := ReadChunk(id, chunk, codec, s.no, s.inOff, s.len);
      SliceOfChunk(env, chunk, V(), id, s.no, s.inOff, from, s.len);
      forall j | s.bufOff <= j < s.bufOff + s.len {
        buf[j] := got[j - s.bufOff];
      }
      assert buf[s.bufOff..s.bufOff + s.len] == got;
    }

    /** Fill buf[..n] with the object's bytes from `off` on, span by span. */
    method ReadSpans(id: int, chunk: int, codec: int, off: int, n: int, buf: array<byte>) returns (read: int)
      requires Mapped(chunks, blocks) && RowsOk(env, objs, V())
      requires id in objs && chunk == objs[id].chunk && codec == objs[id].codec
      requires off >= 0 && 0 <= n <= buf.Length
      modifies buf
      ensures read == n
      ensures buf[..n] == Slice(env, chunk, V(), id, off, n)
      ensures buf[n..] == old(buf[n..])
    {
      var spans := ChunkSpans(off, n, chunk);
      read := 0;
      for i := 0 to |spans|
        invariant 0 <= read == Reach(spans[..i]) <= n
        invariant buf[..read] == Slice(env, chunk, V(), id, off, read)
        invariant buf[n..] == old(buf[n..])
      {
        var s := spans[i];
        NextSpan(spans, off, n, chunk, i);
        ghost var from, done, rest := off + read, buf[..read], buf[n..];
        ReadSpan(id, chunk, codec, s, off, buf, from);
        SliceAppends(env, chunk, V(), id, off, read, from, s.len);
        assert buf[..read + s.len] == buf[..read] + buf[s.bufOff..s.bufOff + s.len];
        assert buf[n..] == buf[s.bufOff + s.len..][n - s.bufOff - s.len..];
        read := read + s.len;
      }
      assert spans[..|spans|] == spans;
    }

    /** ReadAt: exactly the clamped slice, its length, and EOF iff it reaches the size. */
    method ReadAt(id: int, buf: array<byte>, off: Int64) returns (n: int, err: Option<Err>)
      requires Loose()
      requires buf.Length <= MAX_INT64
      modifies buf
      ensures 0 <= n <= buf.Length && buf[n..] == old(buf[n..])
      ensures id in objs ==> id in Meaning() && ReadsAs(Meaning()[id], buf.Length, off, n, err, buf[..n])
      ensures id !in objs ==>
        n == 0 && err == if off < 0 then Some(NegativeOffset) else if buf.Length == 0 then None else Some(NotFound)
    {
      hide HashInv, Refs, ObjInv, RowsOk, TailZero, View, Contents, Content;
      if id in objs {
        ContentsAt(env, objs, V(), id);
        ContentLength(env, objs[id].size, objs[id].chunk, V(), id);
      }
      if off < 0 {
        return 0, Some(NegativeOffset);
      }
      if buf.Length == 0 {
        return 0, None;
      }
      if id !in objs {
        return 0, Some(NotFound);
      }
      var o := objs[id];
      if off >= o.size {
        return 0, Some(EOF);
      }
      n := Min(buf.Length, o.size - off);
      n := ReadSpans(id, o.chunk, o.codec, off, n, buf);
      SliceOfContent(env, o.size, o.chunk, V(), id, off, n);
      return n, if off + n >= o.size then Some(EOF) else None;
    }

    // ---- truncate ----

    /** Zero the bytes [from, chunk) of a chunk if it exists. */
    method ZeroChunkTail(id: int, no: int, from: int, chunk: int, codec: int, level: int, ghost size: int)
      requires Config() && BlockInv() && RowsOk(env, objs, V())
      requires id in objs && chunk == objs[id].chunk && codec == objs[id].codec
      requires no >= 0 && 0 <= from < chunk && size == no * chunk + from
      modifies this`chunks, this`blocks
      ensures BlockInv() && RowsOk(env, objs, V())
      ensures Spliced(env, chunk, old(V()), V(), id, size, Zeros(chunk - from))
      ensures OthersSame(old(V()), V(), id)
    {
      if At(id, no) !in chunks {
        HoleSplice(env, chunk, V(), id, no, size, chunk - from);
        return;
      }
      WriteSpan(id, chunk, codec, level, no, from, Zeros(chunk - from), size);
    }

    /** Drop the rows of an object from one sequence number on. */
    method DropRows(id: int, from: int)
      requires BlockInv() && RowsOk(env, objs, V())
      modifies this`chunks, this`blocks
      ensures BlockInv() && RowsOk(env, objs, V())
      ensures Dropped(old(V()), V(), id, from) && OthersSame(old(V()), V(), id)
    {
      hide Blocks.BlockInv, RowsOk, Dropped, RowsOf, OthersSame, View, Refs, Released;
      ghost var v0 := V();
      RowsDropped(env, ix, chunks, blocks, id, from);
      ReleaseChunks(id, from, true);
      DropKeepsRows(env, objs, v0, V(), id, from);
    }

    /** Drop the chunks from the first dead one on, then zero the boundary chunk's tail. */
    method Shrink(id: int, o: Obj, size: int)
      requires Inv0()
      requires id in objs && o == objs[id] && 0 <= size < o.size
      modifies this`chunks, this`blocks
      ensures BlockInv() && RowsOk(env, objs, V()) && OthersSame(old(V()), V(), id)
      ensures TailZero(env, size, o.chunk, V(), id)
      ensures Content(env, size, o.chunk, V(), id)
           == TruncateMeaning(old(Content(env, o.size, o.chunk, V(), id)), o.chunk, size)
    {
      hide Blocks.BlockInv, ObjInv, RowsOk, TailZero, OthersSame, View, Spliced, Dropped, Content;
      ContentsAt(env, objs, V(), id);
      ghost var v0 := V();
      DropRows(id, FirstDead(size, o.chunk));
      ghost var v1 := V();
      var rem := size % o.chunk;
      if rem != 0 {
        DivModBounds(size, o.chunk);
        ZeroChunkTail(id, size / o.chunk, rem, o.chunk, o.codec, o.level, size);
        OthersSameTrans(v0, v1, V(), id);
      }
      ShrinkMeaning(env, objs, o.chunk, v0, v1, V(), id, o.size, size, rem);
    }

    /** Truncate: exactly `size` bytes afterwards. */
    method Truncate(id: int, size: Int64) returns (err: Option<Err>)
      requires Inv0()
      modifies this`objs, this`chunks, this`blocks
      ensures Inv0()
      ensures err ==
        if size < 0 then Some(NegativeSize)
        else if readOnly then Some(ReadOnly)
        else if id !in old(objs) then Some(NotFound)
        else None
      ensures err.Some? ==> objs == old(objs) && Meaning() == old(Meaning())
      ensures err.None? ==>
        && objs == old(objs)[id := old(objs)[id].(size := size)]
        && Meaning() == old(Meaning())[id := TruncateMeaning(old(Meaning())[id], old(objs)[id].chunk, size)]
    {
      if size < 0 {
        return Some(NegativeSize);
      }
      if readOnly {
        return Some(ReadOnly);
      }
      if id !in objs {
        return Some(NotFound);
      }
      var o := objs[id];
      ghost var v0 := V();
      if size < o.size {
        Shrink(id, o, size);
      } else {
        GrownContent(env, o.size, size, o.chunk, V(), id);
      }
      SetSize(id, size, v0);
      return None;
    }

    // ---- SetCompression ----

    /** SELECT seq FROM chunks WHERE obj = ? AND seq > ? ORDER BY seq LIMIT 1. */
    method NextRow(id: int, after: int) returns (next: Option<int>)
      ensures next.None? ==> forall k :: k in chunks && k.obj == id ==> k.no <= after
      ensures next.Some? ==>
        && At(id, next.value) in chunks && next.value > after
        && forall k :: k in chunks && k.obj == id && k.no > after ==> k.no >= next.value
    {
      next := None;
      var rest := set k | k in chunks && k.obj == id && k.no > after;
      ghost var seen: set<ChunkKey> := {};
      while rest != {}
        invariant seen + rest == set k | k in chunks && k.obj == id && k.no > after
        invariant next.None? ==> seen == {}
        invariant next.Some? ==>
          && At(id, next.value) in chunks && next.value > after
          && forall k :: k in seen ==> k.no >= next.value
        decreases rest
      {
        var k :| k in rest;
        if next.None? || k.no < next.value {
          assert k == At(id, k.no);
          next := Some(k.no);
        }
        seen := seen + {k};
        rest := rest - {k};
      }
      assert forall k :: k in chunks && k.obj == id && k.no > after ==> k in seen + rest;
    }

    /** The plaintext of an existing chunk, read per the source mode. */
    method ReadChunkPlain(id: int, no: int, chunk: int, codec: int) returns (plain: seq<byte>)
      requires Mapped(chunks, blocks) && chunk > 0
      requires At(id, no) in chunks && Fits(env, chunk, codec, V()[At(id, no)])
      ensures DecodeChunk(env, V()[At(id, no)], chunk) == Plain(plain) && |plain| == chunk
    {
      if codec == CODEC_AZ {
        var got := ChunkGetCompressed(id, no, chunk);
        return got.value;
      }
      return blocks[chunks[At(id, no)]].data;
    }

    /** Rewrite one chunk into the target mode. */
    method ConvertChunk(id: int, no: int, chunk: int, from: int, to: int, lvl: int)
      requires Config() && Counted(chunks, blocks) && chunk > 0
      requires At(id, no) in chunks && Fits(env, chunk, from, V()[At(id, no)])
      modifies this`chunks, this`blocks
      ensures Counted(chunks, blocks)
      ensures At(id, no) in chunks && chunks.Keys == old(chunks.Keys)
      ensures V() == old(V())[At(id, no) := V()[At(id, no)]]
      ensures dedup ==> AnchorsStay(old(chunks), old(blocks), chunks, blocks, id)
      ensures dedup && to != CODEC_AZ ==>
        TookAnchor(env, old(chunks), old(blocks), ChunkPlain(env, chunk, old(V()), id, no), V()[At(id, no)], id)
      ensures old(BlockInv()) ==>
        && BlockInv() && Fits(env, chunk, to, V()[At(id, no)])
        && DecodeChunk(env, V()[At(id, no)], chunk) == old(DecodeChunk(env, V()[At(id, no)], chunk))
      ensures old(BlockInv()) && to == CODEC_AZ ==>
        PackedFor(env, V()[At(id, no)], ChunkPlain(env, chunk, V(), id, no), lvl, compression)
      ensures old(BlockInv()) && dedup ==>
        Hashed(chunks, blocks, At(id, no)) && HashesStay(old(chunks), old(blocks), chunks, blocks, At(id, no))
    {
      hide HashesStay, Hashed, HashInv, Refs, AnchorsStay, TookAnchor, PrivateStay, Landed, PackedFor, PackedSomehow;
      var plain := ReadChunkPlain(id, no, chunk, from);
      if to == CODEC_AZ {
        ChunkPutCompressed(id, no, plain, lvl);
      } else {
        PutBlock(At(id, no), Stored(plain, ENC_VERBATIM));
        if dedup { TakesAnchor(env, old(chunks), old(blocks), blocks, chunks[At(id, no)], plain, id); }
      }
    }

    /** Rewrite every existing chunk, in sequence order; holes stay holes. With dedup on and a hash
        column no one vouches for, a chunk takes what the sole carrier of its hash holds. */
    method ConvertChunks(id: int, chunk: int, from: int, to: int, lvl: int) returns (ghost seen: int)
      requires Config() && Counted(chunks, blocks) && RowsOk(env, objs, V())
      requires id in objs && objs[id].chunk == chunk && objs[id].codec == from
      modifies this`chunks, this`blocks
      ensures Counted(chunks, blocks) && chunks.Keys == old(chunks.Keys)
      ensures Unconverted(old(V()), V(), id, seen)
      ensures forall k :: k in V() && k.obj == id ==> k.no <= seen
      ensures chunk > 0 && (dedup && to != CODEC_AZ ==>
        TookAnchors(env, chunk, old(chunks), old(blocks), old(V()), V(), id, seen))
      ensures old(BlockInv()) ==> BlockInv() && Converting(env, chunk, to, old(V()), V(), id, seen)
      ensures old(BlockInv()) && to == CODEC_AZ ==>
        PackedRows(env, chunk, V(), RowsTo(V(), id, seen), lvl, compression)
      ensures old(BlockInv()) && dedup ==> forall k :: k in chunks && k.obj == id ==> Hashed(chunks, blocks, k)
    {
      hide Hashed, HashedTo, Blocks.BlockInv, Refs, Fits, AnchorsStay, TookAnchors, Converting, View, Counted,
        PackedRows, RowsTo;
      ghost var c0, b0, v0, good := chunks, blocks, V(), BlockInv();
      ViewKeys(chunks, blocks);
      ghost var pending := set k | k in v0 && k.obj == id;
      forall k | k in v0 ensures k.no > -1 { assert RowOk(env, objs, k, v0[k]); }
      MetaAt(env, objs, v0, id);
      var last := -1;
      HashedNone(chunks, blocks, id, -1);
      AnchorsAsTheyAre(chunks, blocks, id);
      StartConverting(env, chunk, to, v0, id, -1);
      PackedStart(env, chunk, v0, id, lvl, compression);
      NoneTaken(env, chunk, chunks, blocks, v0, id, -1);
      while true
        invariant Walking(c0, b0, v0, id, chunk, to, lvl, last, good)
        invariant pending == set k | k in v0 && k.obj == id && k.no > last
        decreases pending
      {
        ViewKeys(chunks, blocks);
        var next := NextRow(id, last);
        if next.None? {
          if good && dedup { HashedAll(chunks, blocks, id, last); }
          return last;
        }
        assert At(id, next.value) in pending;
        ConvertNext(id, last, next.value, chunk, from, to, lvl, c0, b0, v0, good);
        last := next.value;
        pending := set k | k in v0 && k.obj == id && k.no > last;
      }
    }

    /** A conversion of object `id` under way, `last` being the last chunk rewritten. `good` says that
        the hash column was current, or dedup off, when it began. */
    ghost predicate Walking(c0: ChunkTable, b0: BlockTable, v0: Image, id: int, chunk: int, to: int, lvl: int,
                            last: int, good: bool)
      reads this
    {
      && chunk > 0 && Counted(chunks, blocks) && chunks.Keys == c0.Keys
      && Unconverted(v0, V(), id, last)
      && (dedup ==> AnchorsStay(c0, b0, chunks, blocks, id))
      && (dedup && to != CODEC_AZ ==> TookAnchors(env, chunk, c0, b0, v0, V(), id, last))
      && (good ==> BlockInv() && Converting(env, chunk, to, v0, V(), id, last))
      && (good && to == CODEC_AZ ==> PackedRows(env, chunk, V(), RowsTo(V(), id, last), lvl, compression))
      && (good && dedup ==> HashedTo(chunks, blocks, id, last))
    }

    method ConvertNext(id: int, last: int, next: int, chunk: int, from: int, to: int, lvl: int,
                       ghost c0: ChunkTable, ghost b0: BlockTable, ghost v0: Image, ghost good: bool)
      requires Config() && Walking(c0, b0, v0, id, chunk, to, lvl, last, good) && last < next
      requires At(id, next) in chunks && forall k :: k in chunks && k.obj == id && k.no > last ==> k.no >= next
      requires At(id, next) in v0 && Fits(env, chunk, from, v0[At(id, next)])
      modifies this`chunks, this`blocks
      ensures Walking(c0, b0, v0, id, chunk, to, lvl, next, good)
    {
      hide Hashed, HashedTo, HashesStay, Blocks.BlockInv, Refs, Fits, AnchorsStay, TookAnchor, TookAnchors, Converting,
        View, Counted, PackedFor, PackedRows, RowsTo;
      ghost var v, c1, b1 := V(), chunks, blocks;
      ViewKeys(chunks, blocks);
      assert v[At(id, next)] == v0[At(id, next)];
      ConvertChunk(id, next, chunk, from, to, lvl);
      UnconvertedStep(v0, v, V(), id, last, next);
      if good { ConvertStep(env, chunk, to, v0, v, V(), id, last, next); }
      if good && to == CODEC_AZ { PackedStep(env, chunk, v, V(), id, last, next, lvl, compression); }
      if good && dedup { HashedStep(c1, b1, chunks, blocks, id, last, next); }
      if dedup {
        if to != CODEC_AZ {
          TookStep(env, chunk, c0, b0, c1, b1, v0, v, V(), id, last, next);
        }
        AnchorsStayTrans(c0, b0, c1, b1, chunks, blocks, id);
      }
    }

    method PutObj(id: int, o: Obj)
      modifies this`objs
      ensures objs == old(objs)[id := o]
    {
      objs := objs[id := o];
    }

    /** Mode change: rewrite every chunk, then flip the mode and level columns. */
    method Convert(id: int, o: Obj, c: int)
      requires Loose() && id in objs && MetaOk(o)
      requires o.size == objs[id].size && o.chunk == objs[id].chunk
      modifies this`objs, this`chunks, this`blocks
      ensures Counted(chunks, blocks)
      ensures objs == old(objs)[id := o]
      ensures chunks.Keys == old(chunks.Keys) && OthersSame(old(V()), V(), id)
      ensures o.chunk > 0 && (dedup && o.codec != CODEC_AZ ==>
        TookAllAnchors(env, o.chunk, old(chunks), old(blocks), old(V()), V(), id))
      ensures old(BlockInv()) ==> Inv0() && Meaning() == old(Meaning())
      ensures old(BlockInv()) && o.codec == CODEC_AZ ==>
        PackedRows(env, o.chunk, V(), AllRows(V(), id), c, compression)
      ensures old(BlockInv()) && dedup ==> forall k :: k in chunks && k.obj == id ==> Hashed(chunks, blocks, k)
    {
      hide Converting, TailZero, RowOk, HashInv, Refs, Hashed, TookAnchors, PackedRows;
      ghost var v0, good := V(), BlockInv();
      var seen := ConvertChunks(id, o.chunk, objs[id].codec, o.codec, c);
      if dedup && o.codec != CODEC_AZ { AllTaken(env, o.chunk, old(chunks), old(blocks), v0, V(), id, seen); }
      if good { ConvertedKeepsMeaning(env, objs, v0, V(), id, o, seen); }
      AllRowsTo(V(), id, seen);
      PutObj(id, o);
    }

    /** Change only columns that do not enter the meaning. */
    method SetColumns(id: int, o: Obj)
      requires Loose() && id in objs
      requires o.size == objs[id].size && o.chunk == objs[id].chunk && o.codec == objs[id].codec
      modifies this`objs
      ensures Loose() && (old(Inv0()) ==> Inv0())
      ensures objs == old(objs)[id := o]
      ensures Meaning() == old(Meaning())
    {
      hide Blocks.BlockInv, ObjInv, View, Contents;
      PolicyKeepsMeaning(env, objs, V(), id, o);
      objs := objs[id := o];
    }

    /** SetCompression: converts the storage mode when it must change; content, holes and size stay
        as they are either way - given a hash column that is current, or dedup off. */
    method SetCompression(id: int, c: int) returns (err: Option<Err>)
      requires Loose()
      modifies this`objs, this`chunks, this`blocks
      ensures Counted(chunks, blocks)
      ensures err == if readOnly then Some(ReadOnly) else if id !in old(objs) then Some(NotFound) else None
      ensures err.Some? ==> objs == old(objs)
      ensures err.None? ==> id in objs && objs == old(objs)[id := Recoded(old(objs)[id], c)]
      ensures chunks.Keys == old(chunks.Keys) && OthersSame(old(V()), V(), id)
      ensures old(Inv0()) ==> Inv0() && Meaning() == old(Meaning())
      ensures err.Some? || (old(objs)[id].codec == CODEC_AZ <==> 1 <= c <= 5) ==>
        chunks == old(chunks) && blocks == old(blocks)
      ensures err.None? && (old(objs)[id].codec == CODEC_AZ <==> !(1 <= c <= 5)) && dedup && old(Inv0()) ==>
        forall k :: k in chunks && k.obj == id ==> Hashed(chunks, blocks, k)
      ensures err.None? && old(objs)[id].codec != CODEC_AZ && 1 <= c <= 5 && old(Inv0()) ==>
        && objs[id].chunk > 0
        && PackedRows(env, objs[id].chunk, V(), AllRows(V(), id), c, compression)
      ensures err.None? && old(objs)[id].codec == CODEC_AZ && !(1 <= c <= 5) && dedup ==>
        && objs[id].chunk > 0
        && TookAllAnchors(env, objs[id].chunk, old(chunks), old(blocks), old(V()), V(), id)
    {
      hide Hashed, TookAllAnchors, Blocks.BlockInv, ObjInv, OthersSame, View, Contents, Counted, PackedRows;
      OthersAsTheyAre(V(), id);
      if readOnly {
        return Some(ReadOnly);
      }
      if id !in objs {
        return Some(NotFound);
      }
      ContentsAt(env, objs, V(), id);
      var o := Recoded(objs[id], c);
      if (objs[id].codec == CODEC_AZ) == AzLevel(c).Some? {
        SetColumns(id, o);
      } else {
        Convert(id, o, c);
      }
      return None;
    }

    // ---- create, clone, delete ----

    method Create(override: Option<int>, keep: int, maxAge: int) returns (id: int, err: Option<Err>)
      requires Inv0()
      modifies this`objs
      ensures Inv0()
      ensures err == if readOnly then Some(ReadOnly) else None
      ensures err.Some? ==> objs == old(objs)
      ensures err.None? ==>
        && id !in old(objs)
        && objs == old(objs)[id := CreatedRow(chunkSize, compression, override, keep, maxAge)]
        && Meaning() == old(Meaning())[id := []]
    {
      if readOnly {
        return 0, Some(ReadOnly);
      }
      id := NewRowId(objs.Keys);
      var o := CreatedRow(chunkSize, compression, override, keep, maxAge);
      CreatedMeaning(env, objs, V(), id, o);
      objs := objs[id := o];
      return id, None;
    }

    /** Copy the object row and every mapping; no bytes are copied. */
    method CloneObjectTx(src: int) returns (dst: int, existed: bool)
      requires Inv0()
      modifies this`objs, this`chunks, this`blocks
      ensures Inv0()
      ensures existed == (src in old(objs))
      ensures !existed ==> objs == old(objs) && chunks == old(chunks) && blocks == old(blocks)
      ensures existed ==>
        && dst !in old(objs)
        && objs == old(objs)[dst := old(objs)[src]]
        && Meaning() == old(Meaning())[dst := old(Meaning())[src]]
        && (forall k :: k in old(chunks) ==> k.obj != dst)
        && chunks == old(chunks) + ClonedRows(old(chunks), src, dst)
        && blocks == Bumped(old(blocks), ClonedRows(old(chunks), src, dst)) && blocks.Keys == old(blocks.Keys)
    {
      hide Blocks.BlockInv, ObjInv, View, Contents, ClonedRows, Bumped, Mapped;
      if src !in objs {
        return 0, false;
      }
      dst := NewRowId(objs.Keys);
      CloneTables(env, ix, objs, chunks, blocks, src, dst);
      CloneChunks(src, dst);
      objs := objs[dst := objs[src]];
      existed := true;
    }

    /** Remove an object row and release its chunks. */
    method DeleteObjectTx(id: int) returns (existed: bool)
      requires Inv0()
      modifies this`objs, this`chunks, this`blocks
      ensures Inv0()
      ensures existed == (id in old(objs))
      ensures objs == old(objs) - {id}
      ensures Meaning() == old(Meaning()) - {id}
      ensures existed ==>
        && chunks == old(chunks) - RowsOf(old(chunks), id, 0, false)
        && blocks == Released(old(chunks), old(blocks), RowsOf(old(chunks), id, 0, false))
      ensures !existed ==> chunks == old(chunks) && blocks == old(blocks)
    {
      hide Blocks.BlockInv, ObjInv, View, Contents, RowsOf, Released;
      if id !in objs {
        AbsentDelete(env, objs, V(), id);
        return false;
      }
      DeleteTables(env, ix, objs, chunks, blocks, id);
      ReleaseChunks(id, 0, false);
      objs := objs - {id};
      existed := true;
    }

    method Clone(src: int) returns (dst: int, err: Option<Err>)
      requires Inv0()
      modifies this`objs, this`chunks, this`blocks
      ensures Inv0()
      ensures err == if readOnly then Some(ReadOnly) else if src !in old(objs) then Some(NotFound) else None
      ensures err.Some? ==> objs == old(objs) && Meaning() == old(Meaning())
      ensures err.None? ==>
        && dst !in old(objs)
        && objs == old(objs)[dst := old(objs)[src]]
        && Meaning() == old(Meaning())[dst := old(Meaning())[src]]
        && (forall k :: k in old(chunks) ==> k.obj != dst)
        && chunks == old(chunks) + ClonedRows(old(chunks), src, dst)
        && blocks == Bumped(old(blocks), ClonedRows(old(chunks), src, dst)) && blocks.Keys == old(blocks.Keys)
    {
      if readOnly {
        return 0, Some(ReadOnly);
      }
      var existed;
      dst, existed := CloneObjectTx(src);
      if !existed {
        return 0, Some(NotFound);
      }
      return dst, None;
    }

    // ---- versions ----

    ghost predicate Inv()
      reads this
    {
      Inv0() && VersionInv(objs, versions)
    }

    /** SELECT ... FROM versions WHERE obj = ? ORDER BY version_no DESC. */
    method VersionsDesc(obj: int) returns (rows: seq<VerKey>)
      ensures ListsVersions(rows, versions.Keys, obj)
    {
      hide Listing;
      StartListing(versions.Keys, obj);
      rows := [];
      var rest := VersionsOf(versions.Keys, obj);
      while rest != {}
        invariant rest <= VersionsOf(versions.Keys, obj)
        invariant Listing(versions.Keys, obj, rows, rest)
        decreases rest
      {
        var top := Newest(rest, obj);
        NextListed(versions.Keys, obj, rows, rest, top);
        rows := rows + [top];
        rest := rest - {top};
      }
      DoneListing(versions.Keys, obj, rows);
    }

    static method Newest(keys: set<VerKey>, obj: int) returns (top: VerKey)
      requires keys != {} && forall v :: v in keys ==> v.obj == obj
      ensures top in keys && forall v :: v in keys && v != top ==> v.no < top.no
    {
      top :| top in keys;
      var rest := keys - {top};
      while rest != {}
        invariant rest <= keys && top in keys && top !in rest
        invariant forall v :: v in keys && v !in rest && v != top ==> v.no < top.no
        decreases rest
      {
        var v :| v in rest;
        rest := rest - {v};
        if v.no > top.no {
          top := v;
        } else {
          assert v.no != top.no || v == top;
        }
      }
    }

    /** SELECT coalesce(max(version_no), 0) + 1 FROM versions WHERE obj = ?. */
    method NextVersionNo(obj: int) returns (no: int)
      requires forall v :: v in versions ==> v.no >= 1
      ensures IsNextNo(versions.Keys, obj, no)
    {
      var keys := VersionsOf(versions.Keys, obj);
      if keys == {} {
        assert forall v :: v in versions.Keys && v.obj == obj ==> v in keys;
        return 1;
      }
      var top := Newest(keys, obj);
      assert forall v :: v in versions.Keys && v.obj == obj ==> v in keys;
      assert top == Ver(obj, top.no);
      return top.no + 1;
    }

    /** The rows a prune drops, found in one newest-first pass that counts ranks. */
    method DoomedVersions(obj: int, keep: int, maxAge: int, now: int) returns (doomed: seq<VerKey>)
      ensures forall v :: v in doomed <==> v in Doomed(Stamps(versions), obj, keep, maxAge, now)
      ensures forall i, j :: 0 <= i < j < |doomed| ==> doomed[i] != doomed[j]
    {
      hide Sifted, Doomed, ListsVersions;
      var rows := VersionsDesc(obj);
      var cutoff := Cutoff(now, maxAge);
      ghost var gone := Doomed(Stamps(versions), obj, keep, maxAge, now);
      doomed := [];
      var rank := 0;
      NothingSifted(rows, gone);
      for i := 0 to |rows|
        invariant rank == i && Sifted(rows, i, gone, doomed)
      {
        rank := rank + 1;
        DoomedIff(versions, rows, obj, keep, maxAge, now, i);
        var drop := (keep > 0 && rank > keep) || (maxAge > 0 && versions[rows[i]].createdAt < cutoff);
        SiftNext(rows, versions.Keys, obj, i, gone, doomed, drop);
        if drop {
          doomed := doomed + [rows[i]];
        }
      }
      AllSifted(versions, rows, obj, keep, maxAge, now, doomed);
    }

    /** What a prune leaves behind. */
    ghost function PruneSet(obj: int, now: int): set<VerKey>
      reads this
    {
      if obj in objs then Doomed(Stamps(versions), obj, objs[obj].keepVersions, objs[obj].maxAge, now) else {}
    }

    /** Delete the given versions and the hidden snapshot behind each. */
    method DropVersions(doomed: seq<VerKey>, ghost gone: set<VerKey>)
      requires Inv0()
      requires gone <= versions.Keys && forall v :: v in doomed <==> v in gone
      requires forall i, j :: 0 <= i < j < |doomed| ==> doomed[i] != doomed[j]
      modifies this`objs, this`chunks, this`blocks, this`versions
      ensures Inv0()
      ensures versions == old(versions) - gone
      ensures objs == old(objs) - Snapshots(old(versions), gone)
      ensures Meaning() == old(Meaning()) - Snapshots(old(versions), gone)
    {
      hide Blocks.BlockInv, ObjInv, View, Contents, VersionInv, Snapshots, Released, RowsOf;
      ghost var vs, os, m, done: set<VerKey> := versions, objs, Meaning(), {};
      NoneYet(os, vs);
      NoneYet(m, vs);
      for i := 0 to |doomed|
        invariant Inv0()
        invariant done == set j | 0 <= j < i :: doomed[j]
        invariant done <= gone
        invariant versions == vs - done
        invariant objs == os - Snapshots(vs, done)
        invariant Meaning() == m - Snapshots(vs, done)
      {
        var v := doomed[i];
        assert v in gone && v !in done;
        OneMore(os, vs, done, v);
        OneMore(m, vs, done, v);
        var existed := DeleteObjectTx(versions[v].snapshot);
        versions := versions - {v};
        done := done + {v};
      }
      assert done == gone;
    }

    /** Apply the object's retention policy. */
    method PruneTx(obj: int, now: int)
      requires Inv0()
      modifies this`objs, this`chunks, this`blocks, this`versions
      ensures Inv0() && (old(VersionInv(objs, versions)) ==> VersionInv(objs, versions))
      ensures versions == old(versions) - old(PruneSet(obj, now))
      ensures objs == old(objs) - Snapshots(old(versions), old(PruneSet(obj, now)))
      ensures Meaning() == old(Meaning()) - Snapshots(old(versions), old(PruneSet(obj, now)))
    {
      hide Blocks.BlockInv, ObjInv, View, Contents, VersionInv, Snapshots;
      NoneYet(objs, versions);
      NoneYet(Meaning(), versions);
      if obj !in objs {
        return;
      }
      var keep, maxAge := objs[obj].keepVersions, objs[obj].maxAge;
      if keep <= 0 && maxAge <= 0 {
        assert PruneSet(obj, now) == {};
        return;
      }
      ghost var gone := PruneSet(obj, now);
      if VersionInv(objs, versions) { DropVersionsInv(objs, versions, gone); }
      var doomed := DoomedVersions(obj, keep, maxAge, now);
      DropVersions(doomed, gone);
    }

    method Prune(obj: int, now: int) returns (err: Option<Err>)
      requires Inv()
      modifies this`objs, this`chunks, this`blocks, this`versions
      ensures Inv()
      ensures err == if readOnly then Some(ReadOnly) else None
      ensures err.Some? ==> objs == old(objs) && versions == old(versions) && Meaning() == old(Meaning())
      ensures err.None? ==>
        && versions == old(versions) - old(PruneSet(obj, now))
        && objs == old(objs) - Snapshots(old(versions), old(PruneSet(obj, now)))
        && Meaning() == old(Meaning()) - Snapshots(old(versions), old(PruneSet(obj, now)))
    {
      if readOnly {
        return Some(ReadOnly);
      }
      PruneTx(obj, now);
      return None;
    }

    method SetRetention(obj: int, keep: int, maxAge: int) returns (err: Option<Err>)
      requires Inv()
      modifies this`objs
      ensures Inv()
      ensures err == if readOnly then Some(ReadOnly) else if obj !in old(objs) then Some(NotFound) else None
      ensures err.Some? ==> objs == old(objs)
      ensures err.None? ==>
        objs == old(objs)[obj := old(objs)[obj].(keepVersions := keep, maxAge := maxAge)]
      ensures Meaning() == old(Meaning())
    {
      hide Blocks.BlockInv, ObjInv, View, Contents;
      if readOnly {
        return Some(ReadOnly);
      }
      if obj !in objs {
        return Some(NotFound);
      }
      InvIsLoose();
      SetColumns(obj, objs[obj].(keepVersions := keep, maxAge := maxAge));
      return None;
    }

    /** Clone, number, record: the snapshot half of NewVersion. */
    method RecordVersion(obj: int, now: int) returns (no: int, ghost snap: int)
      requires Inv() && obj in objs
      modifies this`objs, this`chunks, this`blocks, this`versions
      ensures Inv0() && (obj !in old(Hidden(versions)) ==> VersionInv(objs, versions))
      ensures IsNextNo(old(versions.Keys), obj, no)
      ensures snap !in old(objs)
      ensures versions == old(versions)[Ver(obj, no) := VerRow(now, snap)]
      ensures objs == old(objs)[snap := old(objs)[obj]]
      ensures Meaning() == old(Meaning())[snap := old(Meaning())[obj]]
    {
      hide Blocks.BlockInv, ObjInv, View, Contents;
      var dst, existed := CloneObjectTx(obj);
      snap := dst;
      no := NextVersionNo(obj);
      if obj !in Hidden(versions) {
        AddVersionInv(old(objs), versions, Ver(obj, no), VerRow(now, dst), old(objs)[obj]);
      }
      versions := versions[Ver(obj, no) := VerRow(now, dst)];
    }

    /** NewVersion: snapshot the object's current content under the next number, then
        apply the retention policy. `taken` and `swept` are the two clock readings. A
        version of a hidden snapshot is recorded too, and breaks the version rows
        exactly if the policy does not sweep it away at once. */
    method NewVersion(obj: int, taken: int, swept: int) returns (no: int, err: Option<Err>, ghost snap: int)
      requires Inv()
      modifies this`objs, this`chunks, this`blocks, this`versions
      ensures Inv0()
      ensures Inv() <==> err.Some? || obj !in old(Hidden(versions)) || Ver(obj, no) !in versions
      ensures err == if readOnly then Some(ReadOnly) else if obj !in old(objs) then Some(NotFound) else None
      ensures err.Some? ==> objs == old(objs) && versions == old(versions) && Meaning() == old(Meaning())
      ensures err.None? ==>
        && IsNextNo(old(versions.Keys), obj, no)
        && snap !in old(objs)
        && var o := old(objs)[obj];
           var recorded := old(versions)[Ver(obj, no) := VerRow(taken, snap)];
           var gone := Doomed(Stamps(recorded), obj, o.keepVersions, o.maxAge, swept);
           && versions == recorded - gone
           && objs == old(objs)[snap := o] - Snapshots(recorded, gone)
           && Meaning() == old(Meaning())[snap := old(Meaning())[obj]] - Snapshots(recorded, gone)
    {
      hide Blocks.BlockInv, ObjInv, View, Contents, Snapshots, Doomed, VersionInv, Hidden, Stamps;
      snap := 0;
      if readOnly {
        return 0, Some(ReadOnly), 0;
      }
      if obj !in objs {
        return 0, Some(NotFound), 0;
      }
      no, snap := RecordVersion(obj, taken);
      ghost var row, gone := VerRow(taken, snap), PruneSet(obj, swept);
      DoomedOwn(versions, obj, objs[obj].keepVersions, objs[obj].maxAge, swept);
      if obj in old(Hidden(versions)) {
        VersionOfHidden(old(objs), old(versions), obj, no, row, old(objs)[obj], gone);
      }
      PruneTx(obj, swept);
      return no, None, snap;
    }

    /** Delete: the object, then its versions and the snapshot behind each. Deleting a
        hidden snapshot directly leaves its version row dangling. */
    method Delete(id: int) returns (err: Option<Err>)
      requires Inv()
      modifies this`objs, this`chunks, this`blocks, this`versions
      ensures Inv0()
      ensures Inv() <==> err.Some? || id !in old(Hidden(versions))
      ensures err == if readOnly then Some(ReadOnly) else if id !in old(objs) then Some(NotFound) else None
      ensures err.Some? ==> objs == old(objs) && versions == old(versions) && Meaning() == old(Meaning())
      ensures err.None? ==>
        var gone := VersionsOf(old(versions.Keys), id);
        && versions == old(versions) - gone
        && objs == (old(objs) - {id}) - Snapshots(old(versions), gone)
        && Meaning() == (old(Meaning()) - {id}) - Snapshots(old(versions), gone)
      ensures err.None? && VersionsOf(old(versions.Keys), id) == {} ==>
        && OwnBlocks(old(chunks), id) <= old(blocks.Keys)
        && blocks.Keys == old(blocks.Keys) - OwnBlocks(old(chunks), id)
        && TotalBytes(blocks) == old(TotalBytes(blocks)) - SumBytes(old(blocks), OwnBlocks(old(chunks), id))
    {
      hide Blocks.BlockInv, ObjInv, View, Contents, VersionInv, Snapshots, VersionsOf, Released, RowsOf;
      if readOnly {
        return Some(ReadOnly);
      }
      if id !in objs {
        return Some(NotFound);
      }
      DeleteKeepsVersionsIff(objs, versions, id);
      FreedByDelete(env, ix, chunks, blocks, id);
      var existed := DeleteObjectTx(id);
      DeleteVersionsTx(id);
      return None;
    }

    /** Remove every version of an object and the snapshot behind each. */
    method DeleteVersionsTx(obj: int)
      requires Inv0()
      modifies this`objs, this`chunks, this`blocks, this`versions
      ensures Inv0()
      ensures var gone := VersionsOf(old(versions.Keys), obj);
        && versions == old(versions) - gone
        && objs == old(objs) - Snapshots(old(versions), gone)
        && Meaning() == old(Meaning()) - Snapshots(old(versions), gone)
        && (gone == {} ==> blocks == old(blocks))
    {
      hide Blocks.BlockInv, ObjInv, View, Contents, Snapshots, Released, RowsOf;
      ghost var vs, os, m, done: set<VerKey> := versions, objs, Meaning(), {};
      NoneYet(os, vs);
      NoneYet(m, vs);
      var rest := VersionsOf(versions.Keys, obj);
      while rest != {}
        invariant Inv0() && versions == vs
        invariant done + rest == VersionsOf(vs.Keys, obj) && done !! rest
        invariant objs == os - Snapshots(vs, done)
        invariant Meaning() == m - Snapshots(vs, done)
        invariant done == {} ==> blocks == old(blocks)
        decreases rest
      {
        var v :| v in rest;
        OneMore(os, vs, done, v);
        OneMore(m, vs, done, v);
        var existed := DeleteObjectTx(versions[v].snapshot);
        done := done + {v};
        rest := rest - {v};
      }
      assert done == VersionsOf(vs.Keys, obj);
      versions := versions - VersionsOf(versions.Keys, obj);
    }

    /** OpenVersion followed by a ReadAt of the returned reader. */
    method ReadVersion(obj: int, no: int, buf: array<byte>, off: Int64) returns (n: int, err: Option<Err>)
      requires Inv()
      requires buf.Length <= MAX_INT64
      modifies buf
      ensures Ver(obj, no) !in versions ==> n == 0 && err == Some(NotFound)
      ensures 0 <= n <= buf.Length && buf[n..] == old(buf[n..])
      ensures Ver(obj, no) in versions ==>
        var snap := versions[Ver(obj, no)].snapshot;
        && snap in Meaning()
        && ReadsAs(Meaning()[snap], buf.Length, off, n, err, buf[..n])
    {
      if Ver(obj, no) !in versions {
        return 0, Some(NotFound);
      }
      var snap := versions[Ver(obj, no)].snapshot;
      n, err := ReadAt(snap, buf, off);
    }

    // ---- accounting ----

    /** Stat: the object's blocks grouped by block, each counted once, split by
        whether the block's count exceeds the object's own use of it. */
    method Stat(id: int) returns (info: Option<ObjectInfo>)
      requires Inv0()
      ensures info.Some? <==> id in objs
      ensures info.Some? ==>
        && OwnBlocks(chunks, id) <= BlocksOf(chunks, id) <= blocks.Keys
        && id in Meaning() && info.value.size == |Meaning()[id]|
        && info.value.uniqueBytes == SumBytes(blocks, OwnBlocks(chunks, id))
        && info.value.sharedBytes == SumBytes(blocks, BlocksOf(chunks, id) - OwnBlocks(chunks, id))
        && info.value.storedBytes == SumBytes(blocks, BlocksOf(chunks, id))
        && RatioOf(info.value.ratio, info.value.storedBytes, info.value.size)
        && info.value.chunkSize == objs[id].chunk
        && info.value.compressed == (objs[id].codec == CODEC_AZ)
        && info.value.level == objs[id].level
    {
      hide HashInv, Refs, ObjInv, View, Contents, Content, OwnBlocks, BlocksOf, RatioOf;
      if id !in objs {
        return None;
      }
      var o := objs[id];
      var unique, shared := SumGroups(id);
      ContentsAt(env, objs, V(), id);
      ContentLength(env, o.size, o.chunk, V(), id);
      var ratio := 0.0;
      NoRatio(unique + shared);
      if o.size > 0 { ratio := Quotient(unique + shared, o.size); }
      return Some(ObjectInfo(o.size, unique + shared, unique, shared, ratio, o.chunk, o.codec == CODEC_AZ, o.level));
    }

    method SumGroups(id: int) returns (unique: int, shared: int)
      requires Counted(chunks, blocks)
      ensures OwnBlocks(chunks, id) <= BlocksOf(chunks, id) <= blocks.Keys
      ensures unique == SumBytes(blocks, OwnBlocks(chunks, id))
      ensures shared == SumBytes(blocks, BlocksOf(chunks, id) - OwnBlocks(chunks, id))
      ensures unique + shared == SumBytes(blocks, BlocksOf(chunks, id))
    {
      hide Counted, Refs, Released, Multiplicity, OwnBlocks, BlocksOf;
      DeleteFreesOwn(chunks, blocks, id);
      var rows := RowsOf(chunks, id, 0, false);
      var rest := BlocksOf(chunks, id);
      ghost var own, other: set<int>, all := {}, {}, BlocksOf(chunks, id);
      unique, shared := 0, 0;
      while rest != {}
        invariant rest <= all && own <= all && other <= all
        invariant own == (all - rest) * OwnBlocks(chunks, id)
        invariant other == (all - rest) - OwnBlocks(chunks, id)
        invariant unique == SumBytes(blocks, own)
        invariant shared == SumBytes(blocks, other)
        decreases rest
      {
        SomeMember(rest);
        var b :| b in rest;
        var cnt := Multiplicity(chunks, rows, b);
        OwnIffCountEqual(chunks, blocks, id, b);
        if blocks[b].refs == cnt {
          SumAnyOrder(blocks, own + {b}, b);
          assert own + {b} - {b} == own;
          own := own + {b};
          unique := unique + |blocks[b].data|;
        }
        if blocks[b].refs > cnt {
          SumAnyOrder(blocks, other + {b}, b);
          assert other + {b} - {b} == other;
          other := other + {b};
          shared := shared + |blocks[b].data|;
        }
        rest := rest - {b};
      }
      assert own == OwnBlocks(chunks, id);
      assert other == all - OwnBlocks(chunks, id);
      SumSplits(blocks, own, other);
      assert own + other == all;
    }

    // ---- enumeration ----

    /** List: the live ids, ascending; hidden snapshots never surface. */
    method List() returns (ids: seq<int>)
      ensures forall i, j :: 0 <= i < j < |ids| ==> ids[i] < ids[j]
      ensures forall id :: id in ids <==> id in objs && id !in Hidden(versions)
    {
      ids := [];
      var rest := objs.Keys - Hidden(versions);
      ghost var all := rest;
      while rest != {}
        invariant rest <= all
        invariant forall i, j :: 0 <= i < j < |ids| ==> ids[i] < ids[j]
        invariant forall i, x :: 0 <= i < |ids| && x in rest ==> ids[i] < x
        invariant forall id :: id in ids <==> id in all && id !in rest
        decreases rest
      {
        var low := Least(rest);
        ids := ids + [low];
        rest := rest - {low};
      }
    }

    static method Least(s: set<int>) returns (low: int)
      requires s != {}
      ensures low in s && forall x :: x in s ==> low <= x
    {
      SomeMember(s);
      low :| low in s;
      var rest := s - {low};
      while rest != {}
        invariant rest <= s && low in s
        invariant forall x :: x in s && x !in rest ==> low <= x
        decreases rest
      {
        SomeMember(rest);
        var x :| x in rest;
        rest := rest - {x};
        low := Min(low, x);
      }
    }
  }
}
