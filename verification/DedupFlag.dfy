/** What happens when one database is opened with dedup on in one session and off in
    another. Runs with a fixed flag keep the hash index current; this module says
    exactly when a raw in-place write does, whatever the flag history. */
module DedupFlag {
  import opened Bytes
  import opened Codec
  import opened Blocks

  /** A private raw block after an in-place write (privateRawBlock, then blobWrite):
      only a session with dedup on clears the hash first. */
  function InPlace(dedup: bool, b: Block, off: nat, src: seq<byte>): Block
    requires off + |src| <= |b.data|
  {
    var unhashed := if dedup then b.(hash := None) else b;
    unhashed.(data := Overlay(b.data, off, src))
  }

  /** An in-place write keeps the index current if and only if the session has dedup
      on, the block carries no hash, or the write changes no byte. */
  lemma InPlaceKeepsHashesIff(env: Env, dedup: bool, blocks: BlockTable, id: int, off: nat, src: seq<byte>)
    requires env.Sound() && HashesCurrent(env, blocks)
    requires id in blocks && off + |src| <= |blocks[id].data|
    ensures HashesCurrent(env, blocks[id := InPlace(dedup, blocks[id], off, src)]) <==>
      dedup || blocks[id].hash.None? || blocks[id].data[off..off + |src|] == src
  {
    var b := blocks[id];
    var x := InPlace(dedup, b, off, src);
    var after := blocks[id := x];
    if b.data[off..off + |src|] == src {
      assert x.data == b.data;
    } else {
      assert x.data[off..off + |src|] == src;
      assert x.data != b.data;
      if !dedup && b.hash.Some? {
        assert after[id].hash.Some? && env.digest(x.data, x.enc) != env.digest(b.data, b.enc);
      }
    }
    if dedup || b.hash.None? || b.data[off..off + |src|] == src {
      assert forall c :: c in after && after[c].hash.Some? ==> c in blocks && SameContent(after[c], blocks[c]);
    }
  }

  /** And when it does not, the block goes on carrying the hash of its former content,
      alone, while it holds other bytes - and a content-addressed write of the former
      content stores what the carrier holds. */
  lemma StaleHashNamesOtherBytes(env: Env, blocks: BlockTable, id: int, off: nat, src: seq<byte>)
    requires env.Sound() && HashesCurrent(env, blocks)
    requires id in blocks && blocks[id].hash.Some? && off + |src| <= |blocks[id].data|
    requires blocks[id].data[off..off + |src|] != src
    ensures
      var former := blocks[id].Value();
      var after := blocks[id := InPlace(false, blocks[id], off, src)];
      && (forall b :: b in after && after[b].hash == Some(env.digest(former.data, former.enc)) <==> b == id)
      && after[id].Value() != former
  {
    var b := blocks[id];
    var x := InPlace(false, b, off, src);
    assert x.data[off..off + |src|] == src;
    assert x.data != b.data;
  }
}
