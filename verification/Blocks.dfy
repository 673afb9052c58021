/** The block layer of the blob store: the `chunks` table maps (object, sequence)
    to a block, the `blocks` table holds reference-counted bytes. Two invariants
    live here - every count is exact and every content hash is current - together
    with the flat view (object, sequence) -> stored bytes that sharing must not
    be able to disturb. */
module Blocks {
  import opened Bytes
  import opened Codec

  /** The primary key of the chunks table. */
  datatype ChunkKey = At(obj: int, no: int)

  /** A row of the blocks table. */
  datatype Block = Block(data: seq<byte>, enc: int, refs: int, hash: Option<Digest>)
  {
    function Value(): Stored { Stored(data, enc) }
  }

  type ChunkTable = map<ChunkKey, int>
  type BlockTable = map<int, Block>

  /** The chunk rows that point at block `b`. */
  function Refs(chunks: ChunkTable, b: int): set<ChunkKey> {
    set k | k in chunks && chunks[k] == b
  }

  ghost predicate Mapped(chunks: ChunkTable, blocks: BlockTable) {
    forall k :: k in chunks ==> chunks[k] in blocks
  }

  /** Reference-count conservation: no dangling mapping, no leaked block, and each
      count is the number of mappings. */
  ghost predicate Counted(chunks: ChunkTable, blocks: BlockTable) {
    && Mapped(chunks, blocks)
    && (forall b :: b in blocks ==> blocks[b].refs == |Refs(chunks, b)| && blocks[b].refs >= 1)
  }

  /** Every content hash present is the hash of the current bytes, and is unique. */
  ghost predicate HashesCurrent(env: Env, blocks: BlockTable) {
    && (forall b :: b in blocks && blocks[b].hash.Some? ==>
          blocks[b].hash.value == env.digest(blocks[b].data, blocks[b].enc))
    && (forall b, c :: b in blocks && c in blocks && blocks[b].hash.Some? && blocks[b].hash == blocks[c].hash ==>
          b == c)
  }

  ghost predicate NoHashes(blocks: BlockTable) {
    forall b :: b in blocks ==> blocks[b].hash.None?
  }

  /** Who keeps the hash column: a session with dedup on keeps it current; a session with
      dedup off, before any with it on, finds it empty; one after that lets it lapse. */
  datatype Indexing = Indexed | Unhashed | Lapsed

  ghost predicate HashInv(env: Env, ix: Indexing, blocks: BlockTable) {
    match ix
    case Indexed => HashesCurrent(env, blocks)
    case Unhashed => NoHashes(blocks)
    case Lapsed => true
  }

  ghost predicate BlockInv(env: Env, ix: Indexing, chunks: ChunkTable, blocks: BlockTable) {
    && Counted(chunks, blocks)
    && HashInv(env, ix, blocks)
  }

  /** What each chunk stores, with the sharing forgotten. */
  function View(chunks: ChunkTable, blocks: BlockTable): map<ChunkKey, Stored>
  {
    map k | k in chunks && chunks[k] in blocks :: blocks[chunks[k]].Value()
  }

  lemma ViewKeys(chunks: ChunkTable, blocks: BlockTable)
    requires Counted(chunks, blocks)
    ensures View(chunks, blocks).Keys == chunks.Keys
  {
  }

  lemma RowValue(chunks: ChunkTable, blocks: BlockTable, k: ChunkKey)
    requires k in chunks && chunks[k] in blocks
    ensures k in View(chunks, blocks) && View(chunks, blocks)[k] == blocks[chunks[k]].Value()
  {
  }

  // ---- pointing one chunk at another block ----

  /** Pointing `k` at `b` moves exactly `k` between the reference sets. */
  lemma RefsAfterMap(chunks: ChunkTable, k: ChunkKey, b: int)
    ensures var after := chunks[k := b];
      forall x :: Refs(after, x) ==
        if x == b then Refs(chunks, x) + {k} else Refs(chunks, x) - {k}
  {
  }

  lemma RefCountsAfterMap(chunks: ChunkTable, k: ChunkKey, b: int)
    ensures var after := chunks[k := b];
      forall x :: |Refs(after, x)| == |Refs(chunks, x)|
        + (if x == b && (k !in chunks || chunks[k] != b) then 1 else 0)
        - (if k in chunks && x == chunks[k] && x != b then 1 else 0)
  {
    RefsAfterMap(chunks, k, b);
    var after := chunks[k := b];
    forall x
      ensures |Refs(after, x)| == |Refs(chunks, x)|
        + (if x == b && (k !in chunks || chunks[k] != b) then 1 else 0)
        - (if k in chunks && x == chunks[k] && x != b then 1 else 0)
    {
      var r := Refs(chunks, x);
      if x == b {
        assert Refs(after, x) == r + {k};
      } else {
        assert Refs(after, x) == r - {k};
      }
    }
  }

  /** A mapped block is counted at least once; a block counted once has one owner. */
  lemma SoleOwner(chunks: ChunkTable, b: int, k: ChunkKey)
    requires k in chunks && chunks[k] == b
    ensures |Refs(chunks, b)| >= 1
    ensures |Refs(chunks, b)| == 1 ==> Refs(chunks, b) == {k}
  {
    assert k in Refs(chunks, b);
    var rest := Refs(chunks, b) - {k};
    assert Refs(chunks, b) == rest + {k};
    if |Refs(chunks, b)| == 1 {
      assert |rest| == 0;
      assert rest == {};
    }
  }

  /** A block nobody maps may be inserted with the count its first mapping gives it. */
  lemma FreshUnmapped(chunks: ChunkTable, blocks: BlockTable, b: int)
    requires Mapped(chunks, blocks) && b !in blocks
    ensures Refs(chunks, b) == {}
  {
    assert forall k :: k in chunks ==> chunks[k] != b;
  }

  /** One reference fewer; the block goes when that was the last. */
  function Unref(blocks: BlockTable, b: int): BlockTable
    requires b in blocks
  {
    if blocks[b].refs > 1 then blocks[b := blocks[b].(refs := blocks[b].refs - 1)] else blocks - {b}
  }

  function Repointed(chunks: ChunkTable, blocks: BlockTable, k: ChunkKey, b: int, x: Block): BlockTable
    requires k in chunks ==> chunks[k] in blocks
  {
    var added := blocks[b := x];
    if k in chunks then Unref(added, chunks[k]) else added
  }

  /** Pointing chunk `k` at block `b` - new, or present with one reference more -
      and releasing its previous block keeps every count exact and changes what
      chunk `k` reads, and nothing else. */
  lemma RepointKeepsCounts(chunks: ChunkTable, blocks: BlockTable, k: ChunkKey, b: int, x: Block)
    requires Counted(chunks, blocks)
    requires k in chunks ==> chunks[k] != b
    requires if b in blocks then x == blocks[b].(refs := blocks[b].refs + 1) else x.refs == 1
    ensures Counted(chunks[k := b], Repointed(chunks, blocks, k, b, x))
    ensures View(chunks[k := b], Repointed(chunks, blocks, k, b, x)) == View(chunks, blocks)[k := x.Value()]
  {
    hide Refs;
    var after, res := chunks[k := b], Repointed(chunks, blocks, k, b, x);
    RefCountsAfterMap(chunks, k, b);
    if b !in blocks { FreshUnmapped(chunks, blocks, b); }
    forall y | y in res
      ensures res[y].refs == |Refs(after, y)| && res[y].refs >= 1
    {
    }
    forall j | j in after
      ensures after[j] in res && res[after[j]].Value() == if j == k then x.Value() else blocks[chunks[j]].Value()
    {
      if j != k && k in chunks && chunks[j] == chunks[k] {
        SoleOwner(chunks, chunks[k], k);
        InRefs(chunks, j);
      }
    }
  }

  /** The same step keeps the hash index current, given that a new block's hash is
      the hash of its content and is not indexed yet. */
  lemma RepointKeepsInv(env: Env, ix: Indexing, chunks: ChunkTable, blocks: BlockTable, k: ChunkKey, b: int, x: Block)
    requires BlockInv(env, ix, chunks, blocks)
    requires k in chunks ==> chunks[k] != b
    requires if b in blocks then x == blocks[b].(refs := blocks[b].refs + 1) else x.refs == 1
    requires b !in blocks && x.hash.Some? ==>
      && ix.Indexed?
      && x.hash.value == env.digest(x.data, x.enc)
      && forall c :: c in blocks ==> blocks[c].hash != x.hash
    ensures BlockInv(env, ix, chunks[k := b], Repointed(chunks, blocks, k, b, x))
    ensures View(chunks[k := b], Repointed(chunks, blocks, k, b, x)) == View(chunks, blocks)[k := x.Value()]
  {
    hide View, Refs, HashInv;
    RepointKeepsCounts(chunks, blocks, k, b, x);
    var res := Repointed(chunks, blocks, k, b, x);
    assert forall y :: y in res && y != b ==> y in blocks && SameContent(res[y], blocks[y]);
    HashInvStable(env, ix, blocks, res, b, x);
  }

  ghost predicate SameContent(x: Block, y: Block) {
    x.Value() == y.Value() && x.hash == y.hash
  }

  lemma HashInvStable(env: Env, ix: Indexing, blocks: BlockTable, res: BlockTable, b: int, x: Block)
    requires HashInv(env, ix, blocks)
    requires forall y :: y in res && y != b ==> y in blocks && SameContent(res[y], blocks[y])
    requires b in res ==> SameContent(res[b], x)
    requires b in blocks ==> SameContent(x, blocks[b])
    requires b !in blocks && x.hash.Some? ==>
      && ix.Indexed?
      && x.hash.value == env.digest(x.data, x.enc)
      && forall c :: c in blocks ==> blocks[c].hash != x.hash
    ensures HashInv(env, ix, res)
  {
  }

  /** A block with one owner may change content in place, once it carries no hash or no one
      keeps the hashes. */
  lemma InPlaceKeepsInv(env: Env, ix: Indexing, chunks: ChunkTable, blocks: BlockTable, k: ChunkKey, x: Block)
    requires BlockInv(env, ix, chunks, blocks)
    requires k in chunks && blocks[chunks[k]].refs == 1 && x.refs == 1 && (x.hash.None? || ix.Lapsed?)
    ensures BlockInv(env, ix, chunks, blocks[chunks[k] := x])
    ensures View(chunks, blocks[chunks[k] := x]) == View(chunks, blocks)[k := x.Value()]
  {
    hide View, Counted;
    InPlaceKeepsCounts(chunks, blocks, k, x);
  }

  lemma InPlaceKeepsCounts(chunks: ChunkTable, blocks: BlockTable, k: ChunkKey, x: Block)
    requires Counted(chunks, blocks) && k in chunks && blocks[chunks[k]].refs == 1 && x.refs == 1
    ensures Counted(chunks, blocks[chunks[k] := x])
    ensures View(chunks, blocks[chunks[k] := x]) == View(chunks, blocks)[k := x.Value()]
  {
    var b := chunks[k];
    SoleOwner(chunks, b, k);
    assert forall j :: j in chunks && chunks[j] == b ==> j in Refs(chunks, b);
  }

  /** Copying a shared block changes what no chunk reads, the copied one included. */
  lemma CopyKeepsInv(env: Env, ix: Indexing, chunks: ChunkTable, blocks: BlockTable, k: ChunkKey, b: int)
    requires BlockInv(env, ix, chunks, blocks)
    requires k in chunks && b !in blocks
    ensures var x := blocks[chunks[k]].(refs := 1, hash := None);
      && BlockInv(env, ix, chunks[k := b], Repointed(chunks, blocks, k, b, x))
      && View(chunks[k := b], Repointed(chunks, blocks, k, b, x)) == View(chunks, blocks)
  {
    var x := blocks[chunks[k]].(refs := 1, hash := None);
    RepointKeepsInv(env, ix, chunks, blocks, k, b, x);
    assert View(chunks, blocks)[k] == x.Value();
  }

  lemma DropHashKeepsInv(env: Env, ix: Indexing, chunks: ChunkTable, blocks: BlockTable, k: ChunkKey)
    requires BlockInv(env, ix, chunks, blocks)
    requires k in chunks && blocks[chunks[k]].refs == 1
    ensures var x := blocks[chunks[k]].(hash := None);
      && BlockInv(env, ix, chunks, blocks[chunks[k] := x])
      && View(chunks, blocks[chunks[k] := x]) == View(chunks, blocks)
  {
    var x := blocks[chunks[k]].(hash := None);
    InPlaceKeepsInv(env, ix, chunks, blocks, k, x);
    assert View(chunks, blocks)[k] == x.Value();
  }

  // ---- the three ends of a content-addressed write ----

  /** The chunk's own block carries the hash: nothing changes, and nothing needs to. */
  lemma SameBlockAgain(env: Env, chunks: ChunkTable, blocks: BlockTable, k: ChunkKey, s: Stored)
    requires env.Sound() && BlockInv(env, Indexed, chunks, blocks)
    requires k in chunks && blocks[chunks[k]].hash == Some(env.digest(s.data, s.enc))
    ensures View(chunks, blocks) == View(chunks, blocks)[k := s]
    ensures HashesStay(chunks, blocks, chunks, blocks, k)
  {
    HashNames(env, blocks, chunks[k], s);
    assert View(chunks, blocks)[k] == s;
  }

  lemma HashIs(env: Env, blocks: BlockTable, b: int)
    requires HashesCurrent(env, blocks) && b in blocks && blocks[b].hash.Some?
    ensures blocks[b].hash == Some(env.digest(blocks[b].data, blocks[b].enc))
  {
  }

  /** In a current index a hash names its content. */
  lemma HashNames(env: Env, blocks: BlockTable, b: int, s: Stored)
    requires env.Sound() && HashesCurrent(env, blocks)
    requires b in blocks && blocks[b].hash == Some(env.digest(s.data, s.enc))
    ensures blocks[b].Value() == s
  {
    assert env.digest(blocks[b].data, blocks[b].enc) == env.digest(s.data, s.enc);
  }

  /** Another block carries it: one reference more there, one fewer on the old block. */
  lemma ReferenceKeepsInv(env: Env, chunks: ChunkTable, blocks: BlockTable, k: ChunkKey, b: int, s: Stored)
    requires env.Sound() && BlockInv(env, Indexed, chunks, blocks)
    requires b in blocks && blocks[b].hash == Some(env.digest(s.data, s.enc)) && (k in chunks ==> chunks[k] != b)
    ensures var x := blocks[b].(refs := blocks[b].refs + 1);
      && BlockInv(env, Indexed, chunks[k := b], Repointed(chunks, blocks, k, b, x))
      && View(chunks[k := b], Repointed(chunks, blocks, k, b, x)) == View(chunks, blocks)[k := s]
      && HashesStay(chunks, blocks, chunks[k := b], Repointed(chunks, blocks, k, b, x), k)
  {
    hide View, Refs, HashesStay;
    var x := blocks[b].(refs := blocks[b].refs + 1);
    RepointKeepsInv(env, Indexed, chunks, blocks, k, b, x);
    RepointKeepsHashed(chunks, blocks, k, b, x);
    HashNames(env, blocks, b, s);
  }

  /** No block carries it: a new one does. */
  lemma InsertKeepsInv(env: Env, chunks: ChunkTable, blocks: BlockTable, k: ChunkKey, b: int, s: Stored)
    requires BlockInv(env, Indexed, chunks, blocks) && b !in blocks
    requires forall c :: c in blocks ==> blocks[c].hash != Some(env.digest(s.data, s.enc))
    ensures var x := Block(s.data, s.enc, 1, Some(env.digest(s.data, s.enc)));
      && BlockInv(env, Indexed, chunks[k := b], Repointed(chunks, blocks, k, b, x))
      && View(chunks[k := b], Repointed(chunks, blocks, k, b, x)) == View(chunks, blocks)[k := s]
      && HashesStay(chunks, blocks, chunks[k := b], Repointed(chunks, blocks, k, b, x), k)
  {
    hide View, Refs, HashesStay;
    var x := Block(s.data, s.enc, 1, Some(env.digest(s.data, s.enc)));
    RepointKeepsInv(env, Indexed, chunks, blocks, k, b, x);
    RepointKeepsHashed(chunks, blocks, k, b, x);
  }

  /** The same three ends when nothing is known of the hash column. */
  lemma SameRowAgain(chunks: ChunkTable, blocks: BlockTable, k: ChunkKey)
    requires Counted(chunks, blocks) && k in chunks
    ensures View(chunks, blocks) == View(chunks, blocks)[k := blocks[chunks[k]].Value()]
    ensures AnchorsStay(chunks, blocks, chunks, blocks, k.obj) && chunks == chunks[k := chunks[k]]
  {
    assert View(chunks, blocks)[k] == blocks[chunks[k]].Value();
  }

  lemma RepointLoosely(chunks: ChunkTable, blocks: BlockTable, k: ChunkKey, b: int, x: Block)
    requires Counted(chunks, blocks) && (k in chunks ==> chunks[k] != b)
    requires if b in blocks then x == blocks[b].(refs := blocks[b].refs + 1) else x.refs == 1
    requires b !in blocks ==> forall c :: c in blocks ==> blocks[c].hash != x.hash
    ensures Counted(chunks[k := b], Repointed(chunks, blocks, k, b, x))
    ensures View(chunks[k := b], Repointed(chunks, blocks, k, b, x)) == View(chunks, blocks)[k := x.Value()]
    ensures AnchorsStay(chunks, blocks, chunks[k := b], Repointed(chunks, blocks, k, b, x), k.obj)
  {
    hide View, Refs, AnchorsStay;
    RepointKeepsCounts(chunks, blocks, k, b, x);
    RepointKeepsAnchors(chunks, blocks, k, b, x);
  }

  lemma LandedIsHashed(env: Env, b0: BlockTable, chunks: ChunkTable, blocks: BlockTable, k: ChunkKey, s: Stored)
    requires k in chunks && Landed(env, b0, blocks, chunks[k], s)
    ensures Hashed(chunks, blocks, k)
  {
  }

  // ---- what happens to the hash column ----

  /** Chunk `k` is stored in a block that carries a content hash. */
  ghost predicate Hashed(chunks: ChunkTable, blocks: BlockTable, k: ChunkKey) {
    k in chunks && chunks[k] in blocks && blocks[chunks[k]].hash.Some?
  }

  /** Every hashed chunk other than `k` stays hashed. */
  ghost predicate HashesStay(c0: ChunkTable, b0: BlockTable, c1: ChunkTable, b1: BlockTable, k: ChunkKey) {
    forall j :: j != k && Hashed(c0, b0, j) ==> Hashed(c1, b1, j)
  }

  lemma RepointKeepsHashed(chunks: ChunkTable, blocks: BlockTable, k: ChunkKey, b: int, x: Block)
    requires Mapped(chunks, blocks) && Mapped(chunks[k := b], Repointed(chunks, blocks, k, b, x))
    requires b in blocks ==> x.hash == blocks[b].hash
    ensures HashesStay(chunks, blocks, chunks[k := b], Repointed(chunks, blocks, k, b, x), k)
  {
  }

  /** Every row of object `id` up to sequence `last` is hashed. */
  ghost predicate HashedTo(chunks: ChunkTable, blocks: BlockTable, id: int, last: int) {
    forall k :: k in chunks && k.obj == id && k.no <= last ==> Hashed(chunks, blocks, k)
  }

  lemma HashedNone(chunks: ChunkTable, blocks: BlockTable, id: int, last: int)
    requires forall k :: k in chunks && k.obj == id ==> k.no > last
    ensures HashedTo(chunks, blocks, id, last)
  {
  }

  lemma HashedStep(c0: ChunkTable, b0: BlockTable, c1: ChunkTable, b1: BlockTable, id: int, last: int, next: int)
    requires HashedTo(c0, b0, id, last) && c1.Keys == c0.Keys
    requires forall k :: k in c0 && k.obj == id && k.no > last ==> k.no >= next
    requires Hashed(c1, b1, At(id, next)) && HashesStay(c0, b0, c1, b1, At(id, next))
    ensures HashedTo(c1, b1, id, next)
  {
    forall k | k in c1 && k.obj == id && k.no <= next
      ensures Hashed(c1, b1, k)
    {
      if k.no == next { assert k == At(id, next); } else { assert Hashed(c0, b0, k); }
    }
  }

  lemma HashedAll(chunks: ChunkTable, blocks: BlockTable, id: int, last: int)
    requires HashedTo(chunks, blocks, id, last) && forall k :: k in chunks && k.obj == id ==> k.no <= last
    ensures forall k :: k in chunks && k.obj == id ==> Hashed(chunks, blocks, k)
  {
    forall k | k in chunks && k.obj == id ensures Hashed(chunks, blocks, k) { }
  }

  /** What a session with dedup off keeps: every chunk that alone maps its block still does, with
      the hash column as it was - except the rows of object `but` - and no hash is new. */
  ghost predicate PrivateStay(c0: ChunkTable, b0: BlockTable, c1: ChunkTable, b1: BlockTable, but: Option<int>) {
    && (forall k :: Private(c0, b0, k) && Some(k.obj) != but ==>
          Private(c1, b1, k) && c1[k] == c0[k] && b1[c1[k]].hash == b0[c0[k]].hash)
    && (forall b :: b in b1 && b1[b].hash.Some? ==> b in b0 && b0[b].hash == b1[b].hash)
  }

  ghost predicate Private(chunks: ChunkTable, blocks: BlockTable, k: ChunkKey) {
    k in chunks && chunks[k] in blocks && blocks[chunks[k]].refs == 1
  }

  lemma PrivateStayTrans(c0: ChunkTable, b0: BlockTable, c1: ChunkTable, b1: BlockTable, c2: ChunkTable, b2: BlockTable,
                         but: Option<int>)
    requires PrivateStay(c0, b0, c1, b1, but) && PrivateStay(c1, b1, c2, b2, but)
    ensures PrivateStay(c0, b0, c2, b2, but)
  {
  }

  lemma NothingStays(chunks: ChunkTable, blocks: BlockTable, but: Option<int>)
    ensures PrivateStay(chunks, blocks, chunks, blocks, but)
  {
  }

  lemma NewBlockStays(chunks: ChunkTable, blocks: BlockTable, k: ChunkKey, b: int, x: Block, but: Option<int>)
    requires k !in chunks && b !in blocks && x.hash.None?
    ensures PrivateStay(chunks, blocks, chunks[k := b], blocks[b := x], but)
  {
  }

  lemma CopyStays(chunks: ChunkTable, blocks: BlockTable, k: ChunkKey, b: int, x: Block, but: Option<int>)
    requires k in chunks && chunks[k] in blocks && blocks[chunks[k]].refs > 1 && b !in blocks && x.hash.None?
    ensures PrivateStay(chunks, blocks, chunks[k := b], Repointed(chunks, blocks, k, b, x), but)
  {
  }

  lemma InPlaceStays(chunks: ChunkTable, blocks: BlockTable, b: int, data: seq<byte>)
    requires b in blocks
    ensures PrivateStay(chunks, blocks, chunks, blocks[b := blocks[b].(data := data)], None)
  {
  }

  lemma OverwriteStays(chunks: ChunkTable, blocks: BlockTable, k: ChunkKey, x: Block)
    requires Counted(chunks, blocks) && k in chunks && blocks[chunks[k]].refs == 1 && x.hash.None?
    ensures PrivateStay(chunks, blocks, chunks, blocks[chunks[k] := x], Some(k.obj))
  {
    SoleOwner(chunks, chunks[k], k);
    forall j | Private(chunks, blocks, j) && j.obj != k.obj ensures chunks[j] != chunks[k] {
      InRefs(chunks, j);
    }
  }

  // ---- the index while nobody vouches for it ----

  /** Block `b` alone carries its hash. */
  ghost predicate Sole(blocks: BlockTable, b: int) {
    && b in blocks && blocks[b].hash.Some?
    && forall c :: c in blocks && blocks[c].hash == blocks[b].hash ==> c == b
  }

  /** And some object other than `id` holds it in place. */
  ghost predicate Anchor(chunks: ChunkTable, blocks: BlockTable, id: int, b: int) {
    Sole(blocks, b) && exists k :: k in chunks && k.obj != id && chunks[k] == b
  }

  ghost predicate AnchorsStay(c0: ChunkTable, b0: BlockTable, c1: ChunkTable, b1: BlockTable, id: int) {
    forall b :: Anchor(c0, b0, id, b) ==> Anchor(c1, b1, id, b) && SameContent(b1[b], b0[b])
  }

  lemma AnchorsStayTrans(c0: ChunkTable, b0: BlockTable, c1: ChunkTable, b1: BlockTable, c2: ChunkTable, b2: BlockTable,
                         id: int)
    requires AnchorsStay(c0, b0, c1, b1, id) && AnchorsStay(c1, b1, c2, b2, id)
    ensures AnchorsStay(c0, b0, c2, b2, id)
  {
  }

  lemma AnchorsAsTheyAre(chunks: ChunkTable, blocks: BlockTable, id: int)
    ensures AnchorsStay(chunks, blocks, chunks, blocks, id)
  {
  }

  lemma RepointKeepsAnchors(chunks: ChunkTable, blocks: BlockTable, k: ChunkKey, b: int, x: Block)
    requires Mapped(chunks, blocks) && Mapped(chunks[k := b], Repointed(chunks, blocks, k, b, x))
    requires b in blocks ==> SameContent(x, blocks[b])
    requires b !in blocks ==> forall c :: c in blocks ==> blocks[c].hash != x.hash
    ensures AnchorsStay(chunks, blocks, chunks[k := b], Repointed(chunks, blocks, k, b, x), k.obj)
  {
    var after, res := chunks[k := b], Repointed(chunks, blocks, k, b, x);
    forall a | Anchor(chunks, blocks, k.obj, a)
      ensures Anchor(after, res, k.obj, a) && SameContent(res[a], blocks[a])
    {
      var j :| j in chunks && j.obj != k.obj && chunks[j] == a;
      assert j in after && after[j] == a;
      forall c | c in res && res[c].hash == res[a].hash ensures c == a { }
    }
  }

  /** What a content-addressed write of `s` leaves in the block it chose: the content of a carrier
      of the hash if there is one, else `s`. */
  ghost predicate Landed(env: Env, b0: BlockTable, b1: BlockTable, b: int, s: Stored) {
    var h := env.digest(s.data, s.enc);
    && b in b1 && b1[b].hash == Some(h)
    && (if Carried(b0, h) then b in b0 && b0[b].hash == Some(h) && b1[b].Value() == b0[b].Value()
        else b1[b].Value() == s)
  }

  ghost predicate Carried(blocks: BlockTable, h: Digest) {
    exists b :: b in blocks && blocks[b].hash == Some(h)
  }

  lemma LandsOnAnchor(env: Env, c0: ChunkTable, b0: BlockTable, b1: BlockTable, b: int, s: Stored, id: int, a: int)
    requires Landed(env, b0, b1, b, s) && Anchor(c0, b0, id, a) && b0[a].hash == Some(env.digest(s.data, s.enc))
    ensures b1[b].Value() == b0[a].Value()
  {
  }

  // ---- bulk release and bulk copy ----

  /** The rows of object `id`: all of them, or those from sequence `from` on. */
  function RowsOf(chunks: ChunkTable, id: int, from: int, ranged: bool): set<ChunkKey> {
    set k | k in chunks && k.obj == id && (ranged ==> k.no >= from)
  }

  /** How many of the given rows point at `b` (the grouped count of the SQL). */
  function Multiplicity(chunks: ChunkTable, rows: set<ChunkKey>, b: int): nat
    requires rows <= chunks.Keys
  {
    |set k | k in rows && chunks[k] == b|
  }

  /** Dropping a set of rows lowers each count by its multiplicity in that set. */
  lemma RefsAfterDrop(chunks: ChunkTable, gone: set<ChunkKey>, b: int)
    requires gone <= chunks.Keys
    ensures |Refs(chunks - gone, b)| == |Refs(chunks, b)| - Multiplicity(chunks, gone, b)
    ensures |Refs(chunks, b)| == Multiplicity(chunks, gone, b) <==> Refs(chunks, b) <= gone
  {
    var hit := set k | k in gone && chunks[k] == b;
    assert Refs(chunks - gone, b) == Refs(chunks, b) - hit;
    assert Refs(chunks, b) == (Refs(chunks, b) - hit) + hit;
    if |Refs(chunks, b)| == |hit| {
      assert |Refs(chunks, b) - hit| == 0;
      assert Refs(chunks, b) - hit == {};
      assert forall k :: k in Refs(chunks, b) ==> k in hit;
    }
    if Refs(chunks, b) <= gone {
      assert Refs(chunks, b) == hit;
    }
  }

  /** The blocks table after the rows in `gone` are released: counts drop by
      multiplicity and a block goes when no reference is left. */
  function Released(chunks: ChunkTable, blocks: BlockTable, gone: set<ChunkKey>): BlockTable
    requires gone <= chunks.Keys
  {
    map b | b in blocks && blocks[b].refs > Multiplicity(chunks, gone, b) ::
      blocks[b].(refs := blocks[b].refs - Multiplicity(chunks, gone, b))
  }

  /** Releasing rows keeps every count exact, frees exactly the blocks all of whose
      references are released, and leaves every other chunk reading the same. */
  lemma ReleaseKeepsInv(env: Env, ix: Indexing, chunks: ChunkTable, blocks: BlockTable, gone: set<ChunkKey>)
    requires BlockInv(env, ix, chunks, blocks)
    requires gone <= chunks.Keys
    ensures BlockInv(env, ix, chunks - gone, Released(chunks, blocks, gone))
    ensures View(chunks - gone, Released(chunks, blocks, gone)) == View(chunks, blocks) - gone
    ensures forall b :: b in blocks ==> (b in Released(chunks, blocks, gone) <==> !(Refs(chunks, b) <= gone))
  {
    hide HashInv, Refs, Multiplicity;
    ReleaseKeepsCounts(chunks, blocks, gone);
    SameContentKeepsHashes(env, ix, blocks, Released(chunks, blocks, gone));
  }

  lemma ReleaseKeepsCounts(chunks: ChunkTable, blocks: BlockTable, gone: set<ChunkKey>)
    requires Counted(chunks, blocks) && gone <= chunks.Keys
    ensures Counted(chunks - gone, Released(chunks, blocks, gone))
    ensures forall b :: b in blocks ==> (b in Released(chunks, blocks, gone) <==> !(Refs(chunks, b) <= gone))
  {
    hide Refs, Multiplicity;
    var res := Released(chunks, blocks, gone);
    forall b | b in blocks
      ensures b in res <==> !(Refs(chunks, b) <= gone)
      ensures b in res ==> res[b].refs == |Refs(chunks - gone, b)|
    {
      RefsAfterDrop(chunks, gone, b);
    }
    forall k | k in chunks - gone
      ensures chunks[k] in res
    {
      assert k in Refs(chunks, chunks[k]) by { InRefs(chunks, k); }
    }
  }

  lemma InRefs(chunks: ChunkTable, k: ChunkKey)
    requires k in chunks
    ensures k in Refs(chunks, chunks[k])
  {
  }

  lemma SameContentKeepsHashes(env: Env, ix: Indexing, blocks: BlockTable, res: BlockTable)
    requires HashInv(env, ix, blocks)
    requires forall y :: y in res ==> y in blocks && SameContent(res[y], blocks[y])
    ensures HashInv(env, ix, res)
  {
  }

  /** The rows a clone adds: the source's sequence numbers under the new id. */
  function ClonedRows(chunks: ChunkTable, src: int, dst: int): ChunkTable {
    map k | k in (set s | s in chunks && s.obj == src :: At(dst, s.no)) :: chunks[At(src, k.no)]
  }

  /** Adding rows for a new object raises each count by its multiplicity there. */
  lemma RefsAfterAdd(chunks: ChunkTable, more: ChunkTable, b: int)
    requires chunks.Keys !! more.Keys
    ensures |Refs(chunks + more, b)| == |Refs(chunks, b)| + |Refs(more, b)|
  {
    assert Refs(chunks + more, b) == Refs(chunks, b) + Refs(more, b);
  }

  function Bumped(blocks: BlockTable, more: ChunkTable): BlockTable {
    map b | b in blocks :: blocks[b].(refs := blocks[b].refs + |Refs(more, b)|)
  }

  lemma AddRowsKeepsCounts(chunks: ChunkTable, blocks: BlockTable, more: ChunkTable)
    requires Counted(chunks, blocks)
    requires chunks.Keys !! more.Keys
    requires Mapped(more, blocks)
    ensures Counted(chunks + more, Bumped(blocks, more))
  {
    var res := Bumped(blocks, more);
    forall b | b in res
      ensures res[b].refs == |Refs(chunks + more, b)| && res[b].refs >= 1
    {
      RefsAfterAdd(chunks, more, b);
    }
  }

  lemma AddRowsView(chunks: ChunkTable, blocks: BlockTable, more: ChunkTable)
    requires Mapped(chunks, blocks) && Mapped(more, blocks)
    requires Mapped(chunks + more, Bumped(blocks, more))
    ensures View(chunks + more, Bumped(blocks, more)) == View(chunks, blocks) + View(more, blocks)
  {
  }

  /** Adding rows that point at present blocks keeps every count exact; the new rows
      read what their blocks hold and no old row changes. */
  lemma AddRowsKeepsInv(env: Env, ix: Indexing, chunks: ChunkTable, blocks: BlockTable, more: ChunkTable)
    requires BlockInv(env, ix, chunks, blocks)
    requires chunks.Keys !! more.Keys
    requires Mapped(more, blocks)
    ensures BlockInv(env, ix, chunks + more, Bumped(blocks, more))
    ensures View(chunks + more, Bumped(blocks, more)) == View(chunks, blocks) + View(more, blocks)
  {
    AddRowsKeepsCounts(chunks, blocks, more);
    AddRowsView(chunks, blocks, more);
    SameContentKeepsHashes(env, ix, blocks, Bumped(blocks, more));
  }

  // ---- the SQL statements, as table updates ----

  /** A clone's tables, and everything the block layer promises about them. */
  lemma CloneKeepsInv(env: Env, ix: Indexing, chunks: ChunkTable, blocks: BlockTable, src: int, dst: int)
    requires BlockInv(env, ix, chunks, blocks)
    requires src != dst && forall k :: k in chunks ==> k.obj != dst
    ensures var more := ClonedRows(chunks, src, dst);
      && RowsOf(chunks + more, dst, 0, false) <= (chunks + more).Keys
      && Mapped(more, blocks)
      && AddCounts(chunks + more, blocks, RowsOf(chunks + more, dst, 0, false), 1) == Bumped(blocks, more)
      && BlockInv(env, ix, chunks + more, Bumped(blocks, more))
      && Bumped(blocks, more).Keys == blocks.Keys
      && View(chunks + more, Bumped(blocks, more)) == View(chunks, blocks) + View(more, blocks)
  {
    var more := ClonedRows(chunks, src, dst);
    ClonedRowsAreNew(chunks, blocks, src, dst);
    AddRowsKeepsInv(env, ix, chunks, blocks, more);
    CloneStatements(chunks, blocks, more);
  }

  /** UPDATE blocks SET refs = refs + m.cnt FROM (rows grouped by block) m. */
  function AddCounts(chunks: ChunkTable, blocks: BlockTable, rows: set<ChunkKey>, sign: int): BlockTable
    requires rows <= chunks.Keys
  {
    var hit := set k | k in rows :: chunks[k];
    map b | b in blocks ::
      if b in hit then blocks[b].(refs := blocks[b].refs + sign * Multiplicity(chunks, rows, b)) else blocks[b]
  }

  /** DELETE FROM blocks WHERE refs <= 0 AND id IN (blocks of the rows). */
  function DeleteUnreferenced(chunks: ChunkTable, blocks: BlockTable, rows: set<ChunkKey>): BlockTable
    requires rows <= chunks.Keys
  {
    var hit := set k | k in rows :: chunks[k];
    map b | b in blocks && !(blocks[b].refs <= 0 && b in hit) :: blocks[b]
  }

  lemma NotHit(chunks: ChunkTable, rows: set<ChunkKey>, b: int)
    requires rows <= chunks.Keys
    requires b !in (set k | k in rows :: chunks[k])
    ensures Multiplicity(chunks, rows, b) == 0
  {
    assert (set k | k in rows && chunks[k] == b) == {};
  }

  lemma ReleaseStatements(chunks: ChunkTable, blocks: BlockTable, rows: set<ChunkKey>)
    requires Counted(chunks, blocks)
    requires rows <= chunks.Keys
    ensures DeleteUnreferenced(chunks, AddCounts(chunks, blocks, rows, -1), rows) == Released(chunks, blocks, rows)
  {
    forall b | b in blocks && b !in (set k | k in rows :: chunks[k])
      ensures Multiplicity(chunks, rows, b) == 0
    {
      NotHit(chunks, rows, b);
    }
  }

  lemma CloneStatements(chunks: ChunkTable, blocks: BlockTable, more: ChunkTable)
    requires chunks.Keys !! more.Keys
    ensures AddCounts(chunks + more, blocks, more.Keys, 1) == Bumped(blocks, more)
  {
    var all := chunks + more;
    forall b | b in blocks
      ensures Multiplicity(all, more.Keys, b) == |Refs(more, b)|
      ensures b !in (set k | k in more.Keys :: all[k]) ==> |Refs(more, b)| == 0
    {
      assert (set k | k in more.Keys && all[k] == b) == Refs(more, b);
      if b !in (set k | k in more.Keys :: all[k]) {
        NotHit(all, more.Keys, b);
      }
    }
  }

  lemma ClonedRowsAreNew(chunks: ChunkTable, blocks: BlockTable, src: int, dst: int)
    requires Mapped(chunks, blocks)
    requires src != dst && forall k :: k in chunks ==> k.obj != dst
    ensures Mapped(ClonedRows(chunks, src, dst), blocks)
    ensures chunks.Keys !! ClonedRows(chunks, src, dst).Keys
    ensures ClonedRows(chunks, src, dst).Keys == RowsOf(chunks + ClonedRows(chunks, src, dst), dst, 0, false)
  {
  }
}
