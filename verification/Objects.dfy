/** The object layer of the blob store: an object is a size, a chunk size and a
    sparse set of stored chunks; its meaning is a byte string. */
module Objects {
  import opened Bytes
  import opened Codec
  import opened Blocks

  const MAX_CHUNK := 0x4000_0000

  /** A row of the objects table. */
  datatype Obj = Obj(size: int, chunk: int, codec: int, level: int, keepVersions: int, maxAge: int)

  /** What every chunk stores, with sharing forgotten. */
  type Image = map<ChunkKey, Stored>

  /** A stored chunk is readable by an object of this mode and chunk size: it decodes
      to exactly one chunk, is never longer than the chunk, is verbatim when the
      object is raw, and else is what compression at some level makes of it. */
  ghost predicate Fits(env: Env, chunk: int, codec: int, s: Stored) {
    && DecodeChunk(env, s, chunk).Plain?
    && |DecodeChunk(env, s, chunk).bytes| == chunk
    && |s.data| <= chunk
    && (codec != CODEC_AZ ==> s.enc == ENC_VERBATIM)
    && (codec == CODEC_AZ ==> PackedSomehow(env, s, DecodeChunk(env, s, chunk).bytes))
  }

  ghost predicate MetaOk(o: Obj) {
    && 0 < o.chunk <= MAX_CHUNK
    && 0 <= o.size <= MAX_INT64
    && (o.codec == CODEC_RAW || o.codec == CODEC_AZ)
  }

  ghost predicate MetasOk(objs: map<int, Obj>) {
    forall id :: id in objs ==> MetaOk(objs[id])
  }

  ghost predicate RowOk(env: Env, objs: map<int, Obj>, k: ChunkKey, s: Stored) {
    && k.no >= 0
    && k.obj in objs
    && Fits(env, objs[k.obj].chunk, objs[k.obj].codec, s)
  }

  ghost predicate RowsOk(env: Env, objs: map<int, Obj>, view: Image) {
    && MetasOk(objs)
    && (forall k :: k in view ==> RowOk(env, objs, k, view[k]))
  }

  /** The plaintext of a chunk; a hole reads as zeros. */
  function ChunkPlain(env: Env, chunk: int, view: Image, id: int, no: int): seq<byte>
    requires chunk > 0
  {
    if At(id, no) in view then
      match DecodeChunk(env, view[At(id, no)], chunk) case Plain(p) => p case _ => []
    else Zeros(chunk)
  }

  /** The byte at any offset, also past the size. */
  function ByteAt(env: Env, chunk: int, view: Image, id: int, i: int): byte
    requires chunk > 0 && i >= 0
  {
    var p := ChunkPlain(env, chunk, view, id, i / chunk);
    if i % chunk < |p| then p[i % chunk] else 0
  }

  /** The meaning of an object. */
  function Content(env: Env, size: int, chunk: int, view: Image, id: int): (c: seq<byte>)
    requires chunk > 0 && size >= 0
    ensures |c| == size
  {
    seq(size, i requires 0 <= i => ByteAt(env, chunk, view, id, i))
  }

  /** Every stored byte at or past the logical size is zero. */
  ghost predicate TailZero(env: Env, size: int, chunk: int, view: Image, id: int)
    requires chunk > 0
  {
    forall i :: i >= size && i >= 0 ==> ByteAt(env, chunk, view, id, i) == 0
  }

  ghost predicate ObjInv(env: Env, objs: map<int, Obj>, view: Image) {
    && RowsOk(env, objs, view)
    && (forall id :: id in objs ==> TailZero(env, objs[id].size, objs[id].chunk, view, id))
  }

  /** The two views agree on every chunk that is not object `id`'s. */
  ghost predicate OthersSame(v: Image, w: Image, id: int) {
    && (forall k :: k in v && k.obj != id ==> k in w && w[k] == v[k])
    && (forall k :: k in w && k.obj != id ==> k in v)
  }

  lemma OthersRead(env: Env, chunk: int, v: Image, w: Image, id: int, other: int)
    requires OthersSame(v, w, id) && other != id && chunk > 0
    ensures forall i :: i >= 0 ==> ByteAt(env, chunk, v, other, i) == ByteAt(env, chunk, w, other, i)
    ensures forall size :: size >= 0 ==> Content(env, size, chunk, v, other) == Content(env, size, chunk, w, other)
    ensures forall size :: TailZero(env, size, chunk, v, other) <==> TailZero(env, size, chunk, w, other)
  {
    forall i | i >= 0
      ensures ByteAt(env, chunk, v, other, i) == ByteAt(env, chunk, w, other, i)
    {
      var k := At(other, i / chunk);
      assert k in v <==> k in w;
    }
    forall size | size >= 0
      ensures Content(env, size, chunk, v, other) == Content(env, size, chunk, w, other)
    {
      var a, b := Content(env, size, chunk, v, other), Content(env, size, chunk, w, other);
      assert forall i :: 0 <= i < size ==> a[i] == b[i];
    }
  }

  /** The meaning of the whole store: a byte string per object id. */
  ghost function Contents(env: Env, objs: map<int, Obj>, view: Image): map<int, seq<byte>> {
    map id | id in objs && MetaOk(objs[id]) :: Content(env, objs[id].size, objs[id].chunk, view, id)
  }

  lemma MetaAt(env: Env, objs: map<int, Obj>, v: Image, id: int)
    requires RowsOk(env, objs, v) && id in objs
    ensures MetaOk(objs[id])
  {
  }

  lemma ContentsAt(env: Env, objs: map<int, Obj>, v: Image, id: int)
    requires ObjInv(env, objs, v) && id in objs
    ensures MetaOk(objs[id]) && RowsOk(env, objs, v)
    ensures TailZero(env, objs[id].size, objs[id].chunk, v, id)
    ensures id in Contents(env, objs, v)
    ensures Contents(env, objs, v)[id] == Content(env, objs[id].size, objs[id].chunk, v, id)
  {
    assert forall x :: x in objs ==> MetaOk(objs[x]);
  }

  /** Changing one object's row and chunks changes the meaning of that object only. */
  lemma OneObjectChanged(env: Env, objs: map<int, Obj>, v: Image, id: int, o: Obj, w: Image)
    requires ObjInv(env, objs, v)
    requires OthersSame(v, w, id)
    requires MetaOk(o)
    requires forall k :: k in w && k.obj == id ==> k.no >= 0 && Fits(env, o.chunk, o.codec, w[k])
    requires TailZero(env, o.size, o.chunk, w, id)
    ensures ObjInv(env, objs[id := o], w)
    ensures Contents(env, objs[id := o], w) == Contents(env, objs, v)[id := Content(env, o.size, o.chunk, w, id)]
  {
    var objs' := objs[id := o];
    forall other | other in objs && other != id
      ensures TailZero(env, objs[other].size, objs[other].chunk, w, other)
      ensures Content(env, objs[other].size, objs[other].chunk, w, other)
           == Content(env, objs[other].size, objs[other].chunk, v, other)
    {
      OthersRead(env, objs[other].chunk, v, w, id, other);
    }
    forall k | k in w
      ensures RowOk(env, objs', k, w[k])
    {
      if k.obj != id { assert RowOk(env, objs, k, v[k]); }
    }
  }

  /** Storing new chunks for one object and then setting its size. */
  lemma SizeSet(env: Env, objs: map<int, Obj>, v: Image, w: Image, id: int, size: int)
    requires ObjInv(env, objs, v) && OthersSame(v, w, id) && RowsOk(env, objs, w)
    requires id in objs && 0 <= size <= MAX_INT64
    requires TailZero(env, size, objs[id].chunk, w, id)
    ensures ObjInv(env, objs[id := objs[id].(size := size)], w)
    ensures Contents(env, objs[id := objs[id].(size := size)], w)
         == Contents(env, objs, v)[id := Content(env, size, objs[id].chunk, w, id)]
  {
    assert forall k :: k in w && k.obj == id ==> RowOk(env, objs, k, w[k]);
    OneObjectChanged(env, objs, v, id, objs[id].(size := size), w);
  }

  /** Removing one object's row and chunks removes it from the meaning. */
  lemma OneObjectRemoved(env: Env, objs: map<int, Obj>, v: Image, id: int, w: Image)
    requires ObjInv(env, objs, v)
    requires OthersSame(v, w, id)
    requires forall k :: k in w ==> k.obj != id
    ensures ObjInv(env, objs - {id}, w)
    ensures Contents(env, objs - {id}, w) == Contents(env, objs, v) - {id}
  {
    var objs' := objs - {id};
    forall other | other in objs'
      ensures TailZero(env, objs[other].size, objs[other].chunk, w, other)
      ensures Content(env, objs[other].size, objs[other].chunk, w, other)
           == Content(env, objs[other].size, objs[other].chunk, v, other)
    {
      OthersRead(env, objs[other].chunk, v, w, id, other);
    }
    forall k | k in w
      ensures RowOk(env, objs', k, w[k])
    {
      assert RowOk(env, objs, k, v[k]);
    }
  }

  // ---- writing ----

  /** `w` is `v` with `p` written over object `id` at `off`, and nothing else. */
  ghost predicate Spliced(env: Env, chunk: int, v: Image, w: Image, id: int, off: int, p: seq<byte>)
    requires chunk > 0
  {
    forall i :: i >= 0 ==>
      ByteAt(env, chunk, w, id, i) == if off <= i < off + |p| then p[i - off] else ByteAt(env, chunk, v, id, i)
  }

  /** `w` is `v` with the plaintext of chunk (id, no) overlaid by `src` at `inOff`. */
  ghost predicate ChunkWritten(env: Env, chunk: int, v: Image, w: Image, id: int, no: int, inOff: int, src: seq<byte>)
    requires chunk > 0
  {
    var k := At(id, no);
    && k in w
    && w == v[k := w[k]]
    && 0 <= inOff && inOff + |src| <= |ChunkPlain(env, chunk, v, id, no)| == chunk
    && ChunkPlain(env, chunk, w, id, no) == Overlay(ChunkPlain(env, chunk, v, id, no), inOff, src)
  }

  /** These chunks are stored as compression at the given object or store level leaves them. */
  ghost predicate PackedRows(env: Env, chunk: int, v: Image, rows: set<ChunkKey>, objLevel: int, store: int)
    requires chunk > 0
  {
    forall k :: k in rows ==> k in v && PackedFor(env, v[k], ChunkPlain(env, chunk, v, k.obj, k.no), objLevel, store)
  }

  lemma NonePacked(env: Env, chunk: int, v: Image, objLevel: int, store: int)
    requires chunk > 0
    ensures PackedRows(env, chunk, v, {}, objLevel, store)
  {
  }

  lemma PackedNext(env: Env, chunk: int, v: Image, w: Image, rows: set<ChunkKey>, k: ChunkKey, objLevel: int,
                   store: int)
    requires chunk > 0 && PackedRows(env, chunk, v, rows, objLevel, store)
    requires k in w && w == v[k := w[k]]
    requires PackedFor(env, w[k], ChunkPlain(env, chunk, w, k.obj, k.no), objLevel, store)
    ensures PackedRows(env, chunk, w, rows + {k}, objLevel, store)
  {
    hide PackedFor;
    forall j | j in rows + {k}
      ensures j in w && PackedFor(env, w[j], ChunkPlain(env, chunk, w, j.obj, j.no), objLevel, store)
    {
      assert j == At(j.obj, j.no);
    }
  }

  /** The rows of object `id` up to a sequence number. */
  ghost function RowsTo(v: Image, id: int, last: int): set<ChunkKey> {
    set k | k in v && k.obj == id && k.no <= last
  }

  ghost function AllRows(v: Image, id: int): set<ChunkKey> {
    set k | k in v && k.obj == id
  }

  lemma AllRowsTo(v: Image, id: int, last: int)
    requires forall k :: k in v && k.obj == id ==> k.no <= last
    ensures RowsTo(v, id, last) == AllRows(v, id)
  {
  }

  lemma PackedStart(env: Env, chunk: int, v: Image, id: int, objLevel: int, store: int)
    requires chunk > 0 && forall k :: k in v ==> k.no > -1
    ensures PackedRows(env, chunk, v, RowsTo(v, id, -1), objLevel, store)
  {
  }

  lemma PackedStep(env: Env, chunk: int, v: Image, w: Image, id: int, last: int, next: int, objLevel: int, store: int)
    requires chunk > 0 && last < next && PackedRows(env, chunk, v, RowsTo(v, id, last), objLevel, store)
    requires At(id, next) in v && At(id, next) in w && w == v[At(id, next) := w[At(id, next)]]
    requires forall k :: k in v && k.obj == id && k.no > last ==> k.no >= next
    requires PackedFor(env, w[At(id, next)], ChunkPlain(env, chunk, w, id, next), objLevel, store)
    ensures PackedRows(env, chunk, w, RowsTo(w, id, next), objLevel, store)
  {
    hide PackedFor, PackedRows, ChunkPlain;
    PackedNext(env, chunk, v, w, RowsTo(v, id, last), At(id, next), objLevel, store);
    forall k | k in w && k.obj == id && last < k.no <= next ensures k == At(id, next) { assert k.no >= next; }
    assert RowsTo(w, id, next) == RowsTo(v, id, last) + {At(id, next)};
  }

  lemma ChunkWrittenByte(env: Env, chunk: int, v: Image, w: Image, id: int, no: int, inOff: int, src: seq<byte>,
                         i: int)
    requires chunk > 0 && i >= 0 && ChunkWritten(env, chunk, v, w, id, no, inOff, src)
    ensures ByteAt(env, chunk, w, id, i)
         == if i / chunk == no && inOff <= i % chunk < inOff + |src| then src[i % chunk - inOff]
            else ByteAt(env, chunk, v, id, i)
  {
    hide DecodeChunk;
    if i / chunk != no { assert At(id, i / chunk) in w <==> At(id, i / chunk) in v; }
  }

  /** Writing one span inside one chunk is a splice at that chunk's offset. */
  lemma ChunkWriteSplices(env: Env, chunk: int, v: Image, w: Image, id: int, no: int, inOff: int, src: seq<byte>,
                          off: int)
    requires chunk > 0 && no >= 0 && off == no * chunk + inOff
    requires ChunkWritten(env, chunk, v, w, id, no, inOff, src)
    ensures Spliced(env, chunk, v, w, id, off, src)
    ensures OthersSame(v, w, id)
  {
    hide ByteAt, DecodeChunk, ChunkPlain;
    forall i | i >= 0
      ensures ByteAt(env, chunk, w, id, i)
           == if off <= i < off + |src| then src[i - off] else ByteAt(env, chunk, v, id, i)
    {
      ChunkWrittenByte(env, chunk, v, w, id, no, inOff, src, i);
      InSpan(chunk, no, inOff, |src|, off, i);
    }
  }

  lemma InSpan(chunk: int, no: int, inOff: int, n: int, off: int, i: int)
    requires chunk > 0 && no >= 0 && i >= 0 && off == no * chunk + inOff && 0 <= inOff && n >= 0 && inOff + n <= chunk
    ensures i / chunk == no && inOff <= i % chunk < inOff + n <==> off <= i < off + n
    ensures off <= i < off + n ==> i % chunk - inOff == i - off
  {
    DivModBounds(i, chunk);
    if off <= i < off + n { DivModOf(i, chunk, no); }
  }

  lemma ChunkWriteKeepsRows(env: Env, objs: map<int, Obj>, v: Image, w: Image, k: ChunkKey)
    requires RowsOk(env, objs, v)
    requires k in w && w == v[k := w[k]] && RowOk(env, objs, k, w[k])
    ensures RowsOk(env, objs, w)
  {
    forall j | j in w
      ensures RowOk(env, objs, j, w[j])
    {
      if j != k { assert RowOk(env, objs, j, v[j]); }
    }
  }

  /** Consecutive splices make one splice. */
  lemma SpliceExtends(env: Env, chunk: int, u: Image, v: Image, w: Image, id: int, off: int, p: seq<byte>, next: int,
                      q: seq<byte>)
    requires chunk > 0 && next == off + |p|
    requires Spliced(env, chunk, u, v, id, off, p)
    requires Spliced(env, chunk, v, w, id, next, q)
    ensures Spliced(env, chunk, u, w, id, off, p + q)
  {
  }

  /** The same, stated for a prefix of one buffer. */
  lemma SplicePrefixExtends(env: Env, chunk: int, u: Image, v: Image, w: Image, id: int, off: int, p: seq<byte>,
                            a: int, next: int, b: int)
    requires chunk > 0 && 0 <= a <= b <= |p| && next == off + a
    requires Spliced(env, chunk, u, v, id, off, p[..a]) && OthersSame(u, v, id)
    requires Spliced(env, chunk, v, w, id, next, p[a..b]) && OthersSame(v, w, id)
    ensures Spliced(env, chunk, u, w, id, off, p[..b]) && OthersSame(u, w, id)
  {
    SpliceExtends(env, chunk, u, v, w, id, off, p[..a], next, p[a..b]);
    assert p[..a] + p[a..b] == p[..b];
  }

  lemma SpliceWhole(env: Env, chunk: int, v: Image, id: int, off: int)
    requires chunk > 0
    ensures Spliced(env, chunk, v, v, id, off, []) && OthersSame(v, v, id)
  {
  }

  lemma OthersSameTrans(u: Image, v: Image, w: Image, id: int)
    requires OthersSame(u, v, id) && OthersSame(v, w, id)
    ensures OthersSame(u, w, id)
  {
  }

  /** A splice of the stored bytes, with the size raised to its end, is the
      zero-extending splice of the object's content, and keeps the tail zero. */
  lemma SplicedContent(env: Env, size: int, chunk: int, v: Image, w: Image, id: int, off: int, p: seq<byte>, n: int)
    requires chunk > 0 && size >= 0 && off >= 0 && n == Max(size, off + |p|)
    requires TailZero(env, size, chunk, v, id)
    requires Spliced(env, chunk, v, w, id, off, p)
    ensures TailZero(env, n, chunk, w, id)
    ensures Content(env, n, chunk, w, id) == Splice(Content(env, size, chunk, v, id), off, p)
  {
    var a, b := Content(env, n, chunk, w, id), Splice(Content(env, size, chunk, v, id), off, p);
    forall i | 0 <= i < n
      ensures a[i] == b[i]
    {
    }
  }

  // ---- reading ----

  /** The stored bytes of [from, from + len), also past the size. */
  function Slice(env: Env, chunk: int, v: Image, id: int, from: int, len: int): (r: seq<byte>)
    requires chunk > 0 && from >= 0 && len >= 0
    ensures |r| == len
  {
    seq(len, i requires 0 <= i => ByteAt(env, chunk, v, id, from + i))
  }

  lemma SliceOfChunk(env: Env, chunk: int, v: Image, id: int, no: int, inOff: int, from: int, len: int)
    requires chunk > 0 && no >= 0 && inOff >= 0 && len >= 0 && inOff + len <= chunk
    requires from == no * chunk + inOff && from >= 0
    requires |ChunkPlain(env, chunk, v, id, no)| == chunk
    ensures Slice(env, chunk, v, id, from, len) == ChunkPlain(env, chunk, v, id, no)[inOff..inOff + len]
  {
    forall i | 0 <= i < len
      ensures Slice(env, chunk, v, id, from, len)[i] == ChunkPlain(env, chunk, v, id, no)[inOff + i]
    {
      var at := from + i;
      DivModOf(at, chunk, no);
      assert at / chunk == no && at % chunk == inOff + i;
      assert ByteAt(env, chunk, v, id, at) == ChunkPlain(env, chunk, v, id, no)[inOff + i];
    }
  }

  lemma SliceAppends(env: Env, chunk: int, v: Image, id: int, from: int, a: int, mid: int, b: int)
    requires chunk > 0 && from >= 0 && a >= 0 && b >= 0 && mid == from + a
    ensures Slice(env, chunk, v, id, from, a) + Slice(env, chunk, v, id, mid, b)
         == Slice(env, chunk, v, id, from, a + b)
  {
  }

  lemma ContentLength(env: Env, size: int, chunk: int, v: Image, id: int)
    requires chunk > 0 && size >= 0
    ensures |Content(env, size, chunk, v, id)| == size
  {
  }

  lemma SliceOfContent(env: Env, size: int, chunk: int, v: Image, id: int, from: int, len: int)
    requires chunk > 0 && from >= 0 && len >= 0 && from + len <= size
    ensures Slice(env, chunk, v, id, from, len) == Content(env, size, chunk, v, id)[from..from + len]
  {
  }

  // ---- truncating ----

  /** Dropping the chunks from ceil(size/chunk) on and zeroing the tail of the
      boundary chunk is exactly a cut: below `size` nothing changes, above it reads zero. */
  ghost predicate Cut(env: Env, chunk: int, v: Image, w: Image, id: int, size: int)
    requires chunk > 0
  {
    forall i :: i >= 0 ==> ByteAt(env, chunk, w, id, i) == if i < size then ByteAt(env, chunk, v, id, i) else 0
  }

  lemma CutContent(env: Env, cur: int, size: int, chunk: int, v: Image, w: Image, id: int)
    requires chunk > 0 && 0 <= size <= cur
    requires Cut(env, chunk, v, w, id, size)
    ensures TailZero(env, size, chunk, w, id)
    ensures Content(env, size, chunk, w, id) == Resize(Content(env, cur, chunk, v, id), size)
  {
    var a, b := Content(env, size, chunk, w, id), Resize(Content(env, cur, chunk, v, id), size);
    assert forall i :: 0 <= i < size ==> a[i] == b[i];
  }

  lemma GrownContent(env: Env, cur: int, size: int, chunk: int, v: Image, id: int)
    requires chunk > 0 && 0 <= cur <= size
    requires TailZero(env, cur, chunk, v, id)
    ensures TailZero(env, size, chunk, v, id)
    ensures Content(env, size, chunk, v, id) == Resize(Content(env, cur, chunk, v, id), size)
  {
    var a, b := Content(env, size, chunk, v, id), Resize(Content(env, cur, chunk, v, id), size);
    assert forall i :: 0 <= i < size ==> a[i] == b[i];
  }

  /** Dropping whole chunks from `firstDead` on cuts at `firstDead * chunk`. */
  lemma DropCuts(env: Env, chunk: int, v: Image, w: Image, id: int, firstDead: int)
    requires chunk > 0
    requires forall k :: k in w <==> k in v && !(k.obj == id && k.no >= firstDead)
    requires forall k :: k in w ==> w[k] == v[k]
    requires firstDead >= 0
    ensures Cut(env, chunk, v, w, id, firstDead * chunk)
    ensures OthersSame(v, w, id)
  {
    var end := firstDead * chunk;
    forall i | i >= 0
      ensures ByteAt(env, chunk, w, id, i) == if i < end then ByteAt(env, chunk, v, id, i) else 0
    {
      BelowBoundary(i, chunk, firstDead, end);
      var k := At(id, i / chunk);
      assert k in w <==> k in v && i / chunk < firstDead;
    }
  }

  /** A byte is below a chunk boundary iff its chunk is. */
  lemma BelowBoundary(i: int, chunk: int, n: int, end: int)
    requires chunk > 0 && i >= 0 && end == n * chunk
    ensures i < end <==> i / chunk < n
  {
    DivModBounds(i, chunk);
    if i / chunk < n { MulMono(i / chunk + 1, n, chunk); } else { MulMono(n, i / chunk, chunk); }
  }

  /** Overlaying zeros from `size` to the end of its chunk completes the cut. */
  lemma ZeroTailCuts(env: Env, chunk: int, u: Image, v: Image, w: Image, id: int, size: int, end: int)
    requires chunk > 0 && 0 <= size <= end
    requires Cut(env, chunk, u, v, id, end)
    requires Spliced(env, chunk, v, w, id, size, Zeros(end - size))
    ensures Cut(env, chunk, u, w, id, size)
  {
  }

  /** The first chunk past the end, as the code computes it in int64. */
  function FirstDead(size: int, chunk: int): int
    requires chunk > 0
  {
    TruncDiv(Wrap64(size + chunk - 1), chunk)
  }

  /** Without overflow it is ceil(size / chunk); with overflow it is at or below zero. */
  lemma FirstDeadIs(size: int, chunk: int)
    requires 0 <= size <= MAX_INT64 && 0 < chunk <= MAX_CHUNK
    ensures size + chunk - 1 > MAX_INT64 ==> FirstDead(size, chunk) <= 0
    ensures size + chunk - 1 <= MAX_INT64 ==>
      FirstDead(size, chunk) == if size % chunk == 0 then size / chunk else size / chunk + 1
  {
    if size + chunk - 1 <= MAX_INT64 {
      DivModBounds(size, chunk);
      var q := if size % chunk == 0 then size / chunk else size / chunk + 1;
      assert (size / chunk + 1) * chunk == (size / chunk) * chunk + chunk;
      DivModOf(size + chunk - 1, chunk, q);
    }
  }

  /** What Truncate does to an object's bytes: a cut or a zero-extension, except
      that a shrink whose rounding-up overflows int64 loses every stored byte. */
  function TruncateMeaning(c: seq<byte>, chunk: int, size: nat): seq<byte> {
    if size < |c| && size + chunk - 1 > MAX_INT64 then Zeros(size) else Resize(c, size)
  }

  /** Truncate keeps the prefix if and only if it does not shrink, the rounding-up
      stays inside int64, or there was nothing but zeros to keep. */
  lemma TruncateKeepsPrefixIff(c: seq<byte>, chunk: int, size: nat)
    ensures TruncateMeaning(c, chunk, size) == Resize(c, size) <==>
      size >= |c| || size + chunk - 1 <= MAX_INT64 || forall i :: 0 <= i < size ==> c[i] == 0
  {
    if size < |c| {
      var r, z := Resize(c, size), Zeros(size);
      if forall i :: 0 <= i < size ==> c[i] == 0 {
        assert r == z;
      } else {
        var i :| 0 <= i < size && c[i] != 0;
        assert r[i] != z[i];
      }
    }
  }

  lemma AllGone(env: Env, chunk: int, w: Image, id: int, size: int)
    requires chunk > 0 && size >= 0
    requires forall k :: k in w ==> k.obj != id
    ensures TailZero(env, size, chunk, w, id)
    ensures Content(env, size, chunk, w, id) == Zeros(size)
  {
    forall i | i >= 0
      ensures ByteAt(env, chunk, w, id, i) == 0
    {
      assert At(id, i / chunk) !in w;
    }
  }

  /** Overlaying zeros on a hole changes nothing. */
  lemma HoleSplice(env: Env, chunk: int, v: Image, id: int, no: int, off: int, n: int)
    requires chunk > 0 && no >= 0 && no * chunk <= off && 0 <= n && off + n <= no * chunk + chunk
    requires At(id, no) !in v
    ensures Spliced(env, chunk, v, v, id, off, Zeros(n)) && OthersSame(v, v, id)
  {
    forall i | off <= i < off + n
      ensures i >= 0 && ByteAt(env, chunk, v, id, i) == 0
    {
      DivModOf(i, chunk, no);
    }
  }

  /** `w` is `v` without object `id`'s rows from `from` on. */
  ghost predicate Dropped(v: Image, w: Image, id: int, from: int) {
    && (forall k :: k in w <==> k in v && !(k.obj == id && k.no >= from))
    && (forall k :: k in w ==> w[k] == v[k])
  }

  lemma RowsDropped(env: Env, ix: Indexing, chunks: ChunkTable, blocks: BlockTable, id: int, from: int)
    requires BlockInv(env, ix, chunks, blocks)
    ensures Dropped(View(chunks, blocks), View(chunks, blocks) - RowsOf(chunks, id, from, true), id, from)
  {
  }

  lemma DropKeepsRows(env: Env, objs: map<int, Obj>, v: Image, w: Image, id: int, from: int)
    requires RowsOk(env, objs, v) && Dropped(v, w, id, from)
    ensures RowsOk(env, objs, w) && OthersSame(v, w, id)
  {
    forall k | k in w
      ensures RowOk(env, objs, k, w[k])
    {
      assert RowOk(env, objs, k, v[k]);
    }
  }

  /** A shrink - drop the dead rows, then zero the boundary chunk's tail - means
      what TruncateMeaning says. */
  lemma ShrinkMeaning(env: Env, objs: map<int, Obj>, chunk: int, v0: Image, v1: Image, w: Image, id: int, cur: int,
                      size: int, rem: int)
    requires 0 < chunk <= MAX_CHUNK && rem == size % chunk && 0 <= size < cur <= MAX_INT64
    requires RowsOk(env, objs, v0)
    requires Dropped(v0, v1, id, FirstDead(size, chunk))
    requires if rem == 0 then w == v1 else Spliced(env, chunk, v1, w, id, size, Zeros(chunk - rem))
    ensures TailZero(env, size, chunk, w, id)
    ensures Content(env, size, chunk, w, id) == TruncateMeaning(Content(env, cur, chunk, v0, id), chunk, size)
  {
    FirstDeadIs(size, chunk);
    if size + chunk - 1 > MAX_INT64 {
      assert forall k :: k in v1 ==> RowOk(env, objs, k, v0[k]);
      AllGone(env, chunk, v1, id, size);
      AllGone(env, chunk, v1, id, 0);
      assert forall i :: i >= 0 ==> ByteAt(env, chunk, w, id, i) == 0;
      assert Content(env, size, chunk, w, id) == Zeros(size);
    } else {
      ShrinkCuts(env, chunk, v0, v1, w, id, size, rem, FirstDead(size, chunk));
      CutContent(env, cur, size, chunk, v0, w, id);
    }
  }

  lemma ShrinkCuts(env: Env, chunk: int, v0: Image, v1: Image, w: Image, id: int, size: int, rem: int, dead: int)
    requires 0 < chunk && rem == size % chunk && 0 <= size
    requires Dropped(v0, v1, id, dead) && dead == (if rem == 0 then size / chunk else size / chunk + 1)
    requires if rem == 0 then w == v1 else Spliced(env, chunk, v1, w, id, size, Zeros(chunk - rem))
    ensures Cut(env, chunk, v0, w, id, size)
  {
    hide Cut, Spliced;
    DropCuts(env, chunk, v0, v1, id, dead);
    DivModBounds(size, chunk);
    if rem != 0 {
      var end := dead * chunk;
      assert end == (size / chunk) * chunk + chunk;
      ZeroTailCuts(env, chunk, v0, v1, w, id, size, end);
    }
  }

  // ---- mode conversion ----

  /** Object `id` has been walked up to and including chunk `seen`: the same chunks exist, the ones
      not seen are as they were, and no other object is touched. */
  ghost predicate Unconverted(v0: Image, v: Image, id: int, seen: int) {
    && v.Keys == v0.Keys
    && (forall k :: k in v && k.obj != id ==> v[k] == v0[k])
    && (forall k :: k in v && k.obj == id && k.no > seen ==> v[k] == v0[k])
  }

  lemma UnconvertedStep(v0: Image, v: Image, w: Image, id: int, seen: int, next: int)
    requires Unconverted(v0, v, id, seen) && At(id, next) in v && At(id, next) in w
    requires w == v[At(id, next) := w[At(id, next)]] && seen < next
    ensures Unconverted(v0, w, id, next)
  {
  }

  /** And it is converted so far: every chunk reads the same, and those seen are stored in the new
      mode. */
  ghost predicate Converting(env: Env, chunk: int, to: int, v0: Image, v: Image, id: int, seen: int) {
    && Unconverted(v0, v, id, seen)
    && (forall k :: k in v && k.obj == id && k.no <= seen ==> Fits(env, chunk, to, v[k]))
    && (forall k :: k in v && k.obj == id ==> DecodeChunk(env, v[k], chunk) == DecodeChunk(env, v0[k], chunk))
  }

  lemma StartConverting(env: Env, chunk: int, to: int, v: Image, id: int, seen: int)
    requires forall k :: k in v && k.obj == id ==> k.no > seen
    ensures Converting(env, chunk, to, v, v, id, seen)
  {
  }

  lemma ConvertStep(env: Env, chunk: int, to: int, v0: Image, v: Image, w: Image, id: int, seen: int, next: int)
    requires Converting(env, chunk, to, v0, v, id, seen)
    requires At(id, next) in v && At(id, next) in w && w == v[At(id, next) := w[At(id, next)]] && seen < next
    requires forall k :: k in v && k.obj == id && k.no > seen ==> k.no >= next
    requires Fits(env, chunk, to, w[At(id, next)])
    requires DecodeChunk(env, w[At(id, next)], chunk) == DecodeChunk(env, v0[At(id, next)], chunk)
    ensures Converting(env, chunk, to, v0, w, id, next)
  {
    forall k | k in w && k.obj == id && k.no <= next
      ensures Fits(env, chunk, to, w[k])
    {
      if k.no == next { assert k == At(id, next); }
    }
  }

  // What a conversion to raw stores under dedup, whatever the hash column says.

  /** A chunk of plaintext `plain` now stores what the anchored carrier of its hash held, if one was. */
  ghost predicate TookAnchor(env: Env, c0: ChunkTable, b0: BlockTable, plain: seq<byte>, s: Stored, id: int) {
    forall b :: Anchor(c0, b0, id, b) && b0[b].hash == Some(env.digest(plain, ENC_VERBATIM)) ==> s == b0[b].Value()
  }

  lemma TakesAnchor(env: Env, c0: ChunkTable, b0: BlockTable, b1: BlockTable, b: int, plain: seq<byte>, id: int)
    requires Landed(env, b0, b1, b, Stored(plain, ENC_VERBATIM))
    ensures TookAnchor(env, c0, b0, plain, b1[b].Value(), id)
  {
    forall a | Anchor(c0, b0, id, a) && b0[a].hash == Some(env.digest(plain, ENC_VERBATIM))
      ensures b1[b].Value() == b0[a].Value()
    {
      LandsOnAnchor(env, c0, b0, b1, b, Stored(plain, ENC_VERBATIM), id, a);
    }
  }

  ghost predicate TookAnchors(env: Env, chunk: int, c0: ChunkTable, b0: BlockTable, v0: Image, v: Image, id: int,
                              seen: int)
    requires chunk > 0
  {
    forall k :: k in v && k.obj == id && k.no <= seen ==>
      TookAnchor(env, c0, b0, ChunkPlain(env, chunk, v0, id, k.no), v[k], id)
  }

  ghost predicate TookAllAnchors(env: Env, chunk: int, c0: ChunkTable, b0: BlockTable, v0: Image, v: Image, id: int)
    requires chunk > 0
  {
    forall k :: k in v && k.obj == id ==> TookAnchor(env, c0, b0, ChunkPlain(env, chunk, v0, id, k.no), v[k], id)
  }

  lemma NoneTaken(env: Env, chunk: int, c0: ChunkTable, b0: BlockTable, v: Image, id: int, seen: int)
    requires chunk > 0 && forall k :: k in v && k.obj == id ==> k.no > seen
    ensures TookAnchors(env, chunk, c0, b0, v, v, id, seen)
  {
  }

  lemma TookStep(env: Env, chunk: int, c0: ChunkTable, b0: BlockTable, c1: ChunkTable, b1: BlockTable,
                 v0: Image, v: Image, w: Image, id: int, seen: int, next: int)
    requires chunk > 0 && TookAnchors(env, chunk, c0, b0, v0, v, id, seen) && AnchorsStay(c0, b0, c1, b1, id)
    requires At(id, next) in v && At(id, next) in w && w == v[At(id, next) := w[At(id, next)]]
    requires At(id, next) in v0 && v[At(id, next)] == v0[At(id, next)]
    requires forall k :: k in v && k.obj == id && k.no > seen ==> k.no >= next
    requires TookAnchor(env, c1, b1, ChunkPlain(env, chunk, v, id, next), w[At(id, next)], id)
    ensures TookAnchors(env, chunk, c0, b0, v0, w, id, next)
  {
    forall k | k in w && k.obj == id && k.no <= next
      ensures TookAnchor(env, c0, b0, ChunkPlain(env, chunk, v0, id, k.no), w[k], id)
    {
      if k.no == next {
        assert k == At(id, next) && ChunkPlain(env, chunk, v, id, next) == ChunkPlain(env, chunk, v0, id, next);
        forall b | Anchor(c0, b0, id, b) ensures Anchor(c1, b1, id, b) && SameContent(b1[b], b0[b]) { }
      }
    }
  }

  lemma AllTaken(env: Env, chunk: int, c0: ChunkTable, b0: BlockTable, v0: Image, v: Image, id: int, seen: int)
    requires chunk > 0 && TookAnchors(env, chunk, c0, b0, v0, v, id, seen)
    requires forall k :: k in v && k.obj == id ==> k.no <= seen
    ensures TookAllAnchors(env, chunk, c0, b0, v0, v, id)
  {
    forall k | k in v && k.obj == id
      ensures TookAnchor(env, c0, b0, ChunkPlain(env, chunk, v0, id, k.no), v[k], id)
    {
    }
  }

  lemma OthersAsTheyAre(v: Image, id: int)
    ensures OthersSame(v, v, id)
  {
  }

  lemma SameBytes(env: Env, chunk: int, to: int, v0: Image, w: Image, id: int, seen: int)
    requires chunk > 0 && Converting(env, chunk, to, v0, w, id, seen)
    ensures forall i :: i >= 0 ==> ByteAt(env, chunk, w, id, i) == ByteAt(env, chunk, v0, id, i)
  {
    hide Fits, DecodeChunk;
    forall i | i >= 0
      ensures ByteAt(env, chunk, w, id, i) == ByteAt(env, chunk, v0, id, i)
    {
      var k := At(id, i / chunk);
      assert k in w <==> k in v0;
    }
  }

  /** A finished conversion keeps the meaning of every object. */
  lemma ConvertedKeepsMeaning(env: Env, objs: map<int, Obj>, v0: Image, w: Image, id: int, o: Obj, seen: int)
    requires ObjInv(env, objs, v0) && id in objs
    requires o.size == objs[id].size && o.chunk == objs[id].chunk && MetaOk(o)
    requires Converting(env, o.chunk, o.codec, v0, w, id, seen)
    requires forall k :: k in w && k.obj == id ==> k.no <= seen
    ensures ObjInv(env, objs[id := o], w)
    ensures Contents(env, objs[id := o], w) == Contents(env, objs, v0)
  {
    hide Fits, DecodeChunk, ByteAt;
    SameBytes(env, o.chunk, o.codec, v0, w, id, seen);
    assert Content(env, o.size, o.chunk, w, id) == Content(env, o.size, o.chunk, v0, id);
    assert forall k :: k in w ==> RowOk(env, objs, k, v0[k]);
    OneObjectChanged(env, objs, v0, id, o, w);
  }

  /** Columns other than size, chunk and codec do not enter the meaning. */
  lemma PolicyKeepsMeaning(env: Env, objs: map<int, Obj>, v: Image, id: int, o: Obj)
    requires ObjInv(env, objs, v) && id in objs
    requires o.size == objs[id].size && o.chunk == objs[id].chunk && o.codec == objs[id].codec
    ensures ObjInv(env, objs[id := o], v)
    ensures Contents(env, objs[id := o], v) == Contents(env, objs, v)
  {
    assert forall k :: k in v ==> RowOk(env, objs, k, v[k]);
    OneObjectChanged(env, objs, v, id, o, v);
  }

  // ---- create, clone ----

  /** A new object with no rows is empty. */
  lemma CreatedMeaning(env: Env, objs: map<int, Obj>, v: Image, id: int, o: Obj)
    requires ObjInv(env, objs, v) && id !in objs && MetaOk(o) && o.size == 0
    ensures ObjInv(env, objs[id := o], v)
    ensures Contents(env, objs[id := o], v) == Contents(env, objs, v)[id := []]
  {
    assert forall k :: k in v ==> RowOk(env, objs, k, v[k]);
    AllGone(env, o.chunk, v, id, 0);
    OneObjectChanged(env, objs, v, id, o, v);
  }

  /** `w` is `v` plus a copy of `src`'s rows under `dst`. */
  ghost predicate Copied(v: Image, w: Image, src: int, dst: int) {
    && OthersSame(v, w, dst)
    && (forall k :: k in w && k.obj == dst ==> At(src, k.no) in v && w[k] == v[At(src, k.no)])
    && (forall k :: k in v && k.obj == src ==> At(dst, k.no) in w)
  }

  lemma NoRowsYet(env: Env, objs: map<int, Obj>, chunks: ChunkTable, blocks: BlockTable, id: int)
    requires ObjInv(env, objs, View(chunks, blocks)) && Mapped(chunks, blocks) && id !in objs
    ensures forall k :: k in chunks ==> k.obj != id
  {
    var v := View(chunks, blocks);
    forall k | k in chunks
      ensures k.obj != id
    {
      assert RowOk(env, objs, k, v[k]);
    }
  }

  lemma ClonedImage(chunks: ChunkTable, blocks: BlockTable, src: int, dst: int)
    requires Mapped(chunks, blocks) && Mapped(ClonedRows(chunks, src, dst), blocks)
    requires src != dst && forall k :: k in chunks ==> k.obj != dst
    ensures Copied(View(chunks, blocks), View(chunks, blocks) + View(ClonedRows(chunks, src, dst), blocks), src, dst)
  {
  }

  /** A clone means what its source means. */
  lemma ClonedMeaning(env: Env, objs: map<int, Obj>, v: Image, w: Image, src: int, dst: int)
    requires ObjInv(env, objs, v) && src in objs && dst !in objs
    requires Copied(v, w, src, dst)
    ensures ObjInv(env, objs[dst := objs[src]], w)
    ensures Contents(env, objs[dst := objs[src]], w) == Contents(env, objs, v)[dst := Contents(env, objs, v)[src]]
  {
    var o := objs[src];
    forall i | i >= 0
      ensures ByteAt(env, o.chunk, w, dst, i) == ByteAt(env, o.chunk, v, src, i)
    {
      var n := i / o.chunk;
      assert At(dst, n) in w <==> At(src, n) in v;
    }
    assert Content(env, o.size, o.chunk, w, dst) == Content(env, o.size, o.chunk, v, src);
    assert TailZero(env, o.size, o.chunk, v, src);
    assert forall k :: k in v ==> RowOk(env, objs, k, v[k]);
    assert forall k :: k in w && k.obj == dst ==> RowOk(env, objs, At(src, k.no), v[At(src, k.no)]);
    OneObjectChanged(env, objs, v, dst, o, w);
  }

  /** The tables after a clone, and everything promised about them: a new object with
      the same meaning, every other meaning unchanged, every count exact. */
  lemma CloneTables(env: Env, ix: Indexing, objs: map<int, Obj>, chunks: ChunkTable, blocks: BlockTable, src: int,
                    dst: int)
    requires BlockInv(env, ix, chunks, blocks)
    requires ObjInv(env, objs, View(chunks, blocks))
    requires src in objs && dst !in objs
    ensures forall k :: k in chunks ==> k.obj != dst
    ensures var more := ClonedRows(chunks, src, dst);
      var w := View(chunks + more, Bumped(blocks, more));
      && ObjInv(env, objs[dst := objs[src]], w)
      && src in Contents(env, objs, View(chunks, blocks))
      && Contents(env, objs[dst := objs[src]], w)
         == Contents(env, objs, View(chunks, blocks))[dst := Contents(env, objs, View(chunks, blocks))[src]]
  {
    NoRowsYet(env, objs, chunks, blocks, dst);
    CloneKeepsInv(env, ix, chunks, blocks, src, dst);
    ClonedImage(chunks, blocks, src, dst);
    var v, more := View(chunks, blocks), ClonedRows(chunks, src, dst);
    ContentsAt(env, objs, v, src);
    ClonedMeaning(env, objs, v, v + View(more, blocks), src, dst);
  }

  lemma ClearedImage(chunks: ChunkTable, v: Image, id: int)
    requires v.Keys == chunks.Keys
    ensures OthersSame(v, v - RowsOf(chunks, id, 0, false), id)
    ensures forall k :: k in v - RowsOf(chunks, id, 0, false) ==> k.obj != id
  {
  }

  /** The tables after a delete, and everything promised about them. */
  lemma DeleteTables(env: Env, ix: Indexing, objs: map<int, Obj>, chunks: ChunkTable, blocks: BlockTable, id: int)
    requires BlockInv(env, ix, chunks, blocks)
    requires ObjInv(env, objs, View(chunks, blocks))
    ensures var gone := RowsOf(chunks, id, 0, false);
      var w := View(chunks - gone, Released(chunks, blocks, gone));
      && ObjInv(env, objs - {id}, w)
      && Contents(env, objs - {id}, w) == Contents(env, objs, View(chunks, blocks)) - {id}
  {
    var v, gone := View(chunks, blocks), RowsOf(chunks, id, 0, false);
    ReleaseKeepsInv(env, ix, chunks, blocks, gone);
    ClearedImage(chunks, v, id);
    OneObjectRemoved(env, objs, v, id, v - gone);
  }

  lemma AbsentDelete(env: Env, objs: map<int, Obj>, v: Image, id: int)
    requires id !in objs
    ensures objs - {id} == objs && Contents(env, objs, v) - {id} == Contents(env, objs, v)
  {
  }
}
