/** Storage accounting (Stat in blobstore/blobstore.go): what an object occupies,
    split into what a delete would free and what others keep alive. */
module Accounting {
  import opened Bytes
  import opened Codec
  import opened Blocks

  /** The bytes held by a set of blocks, each counted once. */
  ghost function SumBytes(blocks: BlockTable, bs: set<int>): nat
    requires bs <= blocks.Keys
    decreases bs
  {
    if bs == {} then 0
    else
      SomeMember(bs);
      var b :| b in bs;
      |blocks[b].data| + SumBytes(blocks, bs - {b})
  }

  ghost function TotalBytes(blocks: BlockTable): nat {
    SumBytes(blocks, blocks.Keys)
  }

  /** The distinct blocks object `id` maps. */
  function BlocksOf(chunks: ChunkTable, id: int): set<int> {
    set k | k in RowsOf(chunks, id, 0, false) :: chunks[k]
  }

  /** Those that nothing but object `id` maps. */
  function OwnBlocks(chunks: ChunkTable, id: int): set<int> {
    set b | b in BlocksOf(chunks, id) && Refs(chunks, b) <= RowsOf(chunks, id, 0, false)
  }

  lemma {:induction false} SumAnyOrder(blocks: BlockTable, bs: set<int>, b: int)
    requires bs <= blocks.Keys && b in bs
    ensures SumBytes(blocks, bs) == |blocks[b].data| + SumBytes(blocks, bs - {b})
    decreases bs
  {
    var c :| c in bs && SumBytes(blocks, bs) == |blocks[c].data| + SumBytes(blocks, bs - {c});
    if c != b {
      SumAnyOrder(blocks, bs - {c}, b);
      SumAnyOrder(blocks, bs - {b}, c);
      assert bs - {c} - {b} == bs - {b} - {c};
    }
  }

  lemma {:induction false} SumSplits(blocks: BlockTable, bs: set<int>, cs: set<int>)
    requires bs !! cs && bs + cs <= blocks.Keys
    ensures SumBytes(blocks, bs + cs) == SumBytes(blocks, bs) + SumBytes(blocks, cs)
    decreases bs
  {
    if bs == {} {
      assert bs + cs == cs;
    } else {
      SomeMember(bs);
      var b :| b in bs;
      SumAnyOrder(blocks, bs + cs, b);
      SumAnyOrder(blocks, bs, b);
      assert (bs + cs) - {b} == (bs - {b}) + cs;
      SumSplits(blocks, bs - {b}, cs);
    }
  }

  /** The sum depends only on the data of the blocks summed. */
  lemma {:induction false} SumStable(x: BlockTable, y: BlockTable, bs: set<int>)
    requires bs <= x.Keys && bs <= y.Keys
    requires forall b :: b in bs ==> x[b].data == y[b].data
    ensures SumBytes(x, bs) == SumBytes(y, bs)
    decreases bs
  {
    if bs != {} {
      SomeMember(bs);
      var b :| b in bs;
      SumAnyOrder(x, bs, b);
      SumAnyOrder(y, bs, b);
      SumStable(x, y, bs - {b});
    }
  }

  /** A block's count equals the object's own multiplicity exactly when no one else maps it. */
  lemma OwnIffCountEqual(chunks: ChunkTable, blocks: BlockTable, id: int, b: int)
    requires Counted(chunks, blocks) && b in blocks
    ensures var rows := RowsOf(chunks, id, 0, false);
      && Multiplicity(chunks, rows, b) <= blocks[b].refs
      && (blocks[b].refs == Multiplicity(chunks, rows, b) <==> Refs(chunks, b) <= rows)
      && (b in BlocksOf(chunks, id) ==>
            (b in OwnBlocks(chunks, id) <==> blocks[b].refs == Multiplicity(chunks, rows, b)))
  {
    RefsAfterDrop(chunks, RowsOf(chunks, id, 0, false), b);
  }

  /** Deleting an object shrinks the blocks table by exactly the bytes of the blocks
      it alone maps; every block it shares stays, with its bytes. */
  lemma {:induction false} DeleteFreesOwn(chunks: ChunkTable, blocks: BlockTable, id: int)
    requires Counted(chunks, blocks)
    ensures OwnBlocks(chunks, id) <= BlocksOf(chunks, id) <= blocks.Keys
    ensures var after := Released(chunks, blocks, RowsOf(chunks, id, 0, false));
      && after.Keys == blocks.Keys - OwnBlocks(chunks, id)
      && (forall b :: b in after ==> after[b].data == blocks[b].data)
      && TotalBytes(after) == TotalBytes(blocks) - SumBytes(blocks, OwnBlocks(chunks, id))
  {
    var rows, own := RowsOf(chunks, id, 0, false), OwnBlocks(chunks, id);
    var after := Released(chunks, blocks, rows);
    forall b | b in blocks
      ensures b in after <==> b !in own
    {
      OwnIffCountEqual(chunks, blocks, id, b);
      if Refs(chunks, b) <= rows {
        SomeRow(chunks, blocks, b);
        var k :| k in Refs(chunks, b);
        assert chunks[k] in BlocksOf(chunks, id);
      }
    }
    assert after.Keys == blocks.Keys - own;
    SumSplits(blocks, after.Keys, own);
    assert after.Keys + own == blocks.Keys;
    SumStable(blocks, after, after.Keys);
  }

  lemma SomeRow(chunks: ChunkTable, blocks: BlockTable, b: int)
    requires Counted(chunks, blocks) && b in blocks
    ensures exists k :: k in Refs(chunks, b)
  {
    assert Refs(chunks, b) != {};
  }

  lemma {:induction false} FreedByDelete(env: Env, ix: Indexing, chunks: ChunkTable, blocks: BlockTable, id: int)
    requires BlockInv(env, ix, chunks, blocks)
    ensures OwnBlocks(chunks, id) <= blocks.Keys
    ensures var after := Released(chunks, blocks, RowsOf(chunks, id, 0, false));
      && after.Keys == blocks.Keys - OwnBlocks(chunks, id)
      && TotalBytes(after) == TotalBytes(blocks) - SumBytes(blocks, OwnBlocks(chunks, id))
  {
    DeleteFreesOwn(chunks, blocks, id);
  }

  // ---- what the two sets are ----

  lemma BlocksOfIs(chunks: ChunkTable, id: int, b: int)
    ensures b in BlocksOf(chunks, id) <==> exists k :: k in chunks && k.obj == id && chunks[k] == b
    ensures b in OwnBlocks(chunks, id) <==>
      b in BlocksOf(chunks, id) && forall k :: k in chunks && chunks[k] == b ==> k.obj == id
  {
    if b in BlocksOf(chunks, id) {
      var k :| k in RowsOf(chunks, id, 0, false) && chunks[k] == b;
      assert k in chunks && k.obj == id;
    }
    forall k | k in chunks && k.obj == id && chunks[k] == b ensures b in BlocksOf(chunks, id) {
      assert k in RowsOf(chunks, id, 0, false);
    }
    if forall k :: k in chunks && chunks[k] == b ==> k.obj == id {
      forall k | k in Refs(chunks, b) ensures k in RowsOf(chunks, id, 0, false) { }
    } else {
      var k :| k in chunks && chunks[k] == b && k.obj != id;
      assert k in Refs(chunks, b) && k !in RowsOf(chunks, id, 0, false);
    }
  }

  /** After a clone, source and copy map the same blocks as the source did, neither owns any of them
      alone, and no block has changed its bytes. */
  lemma {:induction false} CloneSharesAll(chunks: ChunkTable, blocks: BlockTable, src: int, dst: int)
    requires Counted(chunks, blocks) && src != dst && forall k :: k in chunks ==> k.obj != dst
    ensures var more := ClonedRows(chunks, src, dst);
      var cs, bs := chunks + more, Bumped(blocks, more);
      && BlocksOf(cs, src) == BlocksOf(cs, dst) == BlocksOf(chunks, src) <= blocks.Keys == bs.Keys
      && OwnBlocks(cs, src) == OwnBlocks(cs, dst) == {}
      && SumBytes(bs, BlocksOf(chunks, src)) == SumBytes(blocks, BlocksOf(chunks, src))
      && TotalBytes(bs) == TotalBytes(blocks)
  {
    hide BlocksOf, OwnBlocks, Refs;
    var more := ClonedRows(chunks, src, dst);
    var cs, bs := chunks + more, Bumped(blocks, more);
    forall b
      ensures b in BlocksOf(cs, src) <==> b in BlocksOf(chunks, src)
      ensures b in BlocksOf(cs, dst) <==> b in BlocksOf(chunks, src)
      ensures b !in OwnBlocks(cs, src) && b !in OwnBlocks(cs, dst)
      ensures b in BlocksOf(chunks, src) ==> b in blocks
    {
      ClonedBlock(chunks, src, dst, b);
    }
    SumStable(blocks, bs, BlocksOf(chunks, src));
    SumStable(blocks, bs, blocks.Keys);
  }

  lemma ClonedBlock(chunks: ChunkTable, src: int, dst: int, b: int)
    requires src != dst && forall k :: k in chunks ==> k.obj != dst
    ensures var cs := chunks + ClonedRows(chunks, src, dst);
      && (b in BlocksOf(cs, src) <==> b in BlocksOf(chunks, src))
      && (b in BlocksOf(cs, dst) <==> b in BlocksOf(chunks, src))
      && b !in OwnBlocks(cs, src) && b !in OwnBlocks(cs, dst)
      && (b in BlocksOf(chunks, src) ==> exists k :: k in chunks && chunks[k] == b)
  {
    hide BlocksOf, OwnBlocks;
    var cs := chunks + ClonedRows(chunks, src, dst);
    BlocksOfIs(chunks, src, b);
    BlocksOfIs(cs, src, b);
    BlocksOfIs(cs, dst, b);
    forall k | k in chunks && k.obj == src && chunks[k] == b
      ensures k in cs && cs[k] == b && At(dst, k.no) in cs && cs[At(dst, k.no)] == b
    {
      assert k == At(src, k.no);
    }
    forall k | k in cs && k.obj == dst && cs[k] == b
      ensures At(src, k.no) in chunks && chunks[At(src, k.no)] == b
    {
    }
    forall k | k in cs && k.obj == src ensures k in chunks && cs[k] == chunks[k] { }
  }

  /** An object alone in the store accounts for every stored byte, and shares none. */
  lemma AloneIsAll(chunks: ChunkTable, blocks: BlockTable, id: int)
    requires Counted(chunks, blocks) && forall k :: k in chunks ==> k.obj == id
    ensures BlocksOf(chunks, id) == OwnBlocks(chunks, id) == blocks.Keys
  {
    hide BlocksOf, OwnBlocks, Refs;
    forall b
      ensures b in BlocksOf(chunks, id) <==> b in blocks
      ensures b in OwnBlocks(chunks, id) <==> b in blocks
    {
      BlocksOfIs(chunks, id, b);
      if b in blocks {
        SomeRow(chunks, blocks, b);
        RefIs(chunks, b);
      }
    }
  }

  lemma RefIs(chunks: ChunkTable, b: int)
    ensures forall k :: k in Refs(chunks, b) <==> k in chunks && chunks[k] == b
  {
  }
}
