/** Chunk encoding (blobstore/codec.go). The compression library and the content
    hash are parameters: expanding a compressed frame gives back the plaintext at
    every level, and two different stored values never have the same digest. */
module Codec {
  import opened Bytes

  type Digest = seq<byte>

  datatype Env = Env(
    compress: (seq<byte>, int) -> seq<byte>,
    expand: seq<byte> -> Option<seq<byte>>,
    digest: (seq<byte>, int) -> Digest)
  {
    ghost predicate Sound() {
      && (forall p, lvl :: expand(compress(p, lvl)) == Some(p))
      && (forall d, e, d', e' :: digest(d, e) == digest(d', e') ==> d == d' && e == e')
    }
  }

  // ---- such libraries exist ----

  /** The encoding tag in unary, a zero, and the bytes. */
  function Tagged(data: seq<byte>, enc: int): seq<byte> {
    seq(Magnitude(enc), _ => Mark(enc)) + [0] + data
  }

  function Magnitude(x: int): nat { if x < 0 then -x else x }

  function Mark(enc: int): byte { if enc < 0 then 2 else 1 }

  /** Stores everything as it is and hashes a value to itself. */
  function Identity(): Env {
    Env((p, _) => p, p => Some(p), (d, e) => Tagged(d, e))
  }

  lemma TagAt(d: seq<byte>, e: int, i: nat)
    requires i <= Magnitude(e)
    ensures |Tagged(d, e)| > Magnitude(e) && Tagged(d, e)[i] == if i < Magnitude(e) then Mark(e) else 0
    ensures Tagged(d, e)[Magnitude(e) + 1..] == d
  {
  }

  lemma TagsDiffer(d: seq<byte>, e: int, d': seq<byte>, e': int)
    requires Tagged(d, e) == Tagged(d', e')
    ensures d == d' && e == e'
  {
    TagAt(d, e, Min(Magnitude(e), Magnitude(e')));
    TagAt(d', e', Min(Magnitude(e), Magnitude(e')));
    TagAt(d, e, 0);
    TagAt(d', e', 0);
  }

  lemma IdentityIsSound()
    ensures Identity().Sound()
  {
    forall d, e, d', e' | Identity().digest(d, e) == Identity().digest(d', e')
      ensures d == d' && e == e'
    {
      TagsDiffer(d, e, d', e');
    }
  }

  // ---- codecs ----

  const CODEC_RAW := 0
  const CODEC_AZ := 1
  const ENC_VERBATIM := 0
  const ENC_AZ := 1

  const COMPRESSION_NONE := 0
  const AZ_LEVEL3 := 3

  /** What one block row stores: bytes plus the encoding tag. */
  datatype Stored = Stored(data: seq<byte>, enc: int)

  datatype Decoded = Plain(bytes: seq<byte>) | TooLarge | Malformed

  /** Compression levels 1 to 5 map onto the library's; anything else stores raw. */
  function AzLevel(c: int): Option<int> {
    if 1 <= c <= 5 then Some(c) else None
  }

  function AzLevelOrDefault(c: int): int {
    match AzLevel(c) case Some(l) => l case None => AZ_LEVEL3
  }

  function WriteLevel(objOverride: int, store: int): int {
    match AzLevel(objOverride) case Some(l) => l case None => AzLevelOrDefault(store)
  }

  function EncodeChunk(env: Env, plain: seq<byte>, lvl: int): Stored {
    var comp := env.compress(plain, lvl);
    if |comp| >= |plain| then Stored(plain, ENC_VERBATIM) else Stored(comp, ENC_AZ)
  }

  function DecodeChunk(env: Env, s: Stored, max: int): Decoded {
    if s.enc == ENC_VERBATIM then
      if |s.data| > max then TooLarge else Plain(s.data)
    else
      match env.expand(s.data)
      case None => Malformed
      case Some(p) => if |p| > max then TooLarge else Plain(p)
  }

  function Compress(env: Env, plain: seq<byte>, level: int): Stored {
    match AzLevel(level)
    case None => Stored(plain, ENC_VERBATIM)
    case Some(l) => EncodeChunk(env, plain, l)
  }

  // ---- how much compression saves ----

  /** `s` is `plain` compressed at level `lvl` if that is shorter, and else `plain` as it is. */
  ghost predicate Packed(env: Env, s: Stored, plain: seq<byte>, lvl: int) {
    var frame := env.compress(plain, lvl);
    && |s.data| == Min(|plain|, |frame|)
    && s.data == (if |frame| < |plain| then frame else plain)
    && s.enc == (if |frame| < |plain| then 1 else 0)
  }

  /** The same at the level of the object if that is a real one, else of the store, else 3. */
  ghost predicate PackedFor(env: Env, s: Stored, plain: seq<byte>, objLevel: int, store: int) {
    Packed(env, s, plain, if 1 <= objLevel <= 5 then objLevel else if 1 <= store <= 5 then store else 3)
  }

  ghost predicate PackedSomehow(env: Env, s: Stored, plain: seq<byte>) {
    exists lvl :: 1 <= lvl <= 5 && Packed(env, s, plain, lvl)
  }

  /** A chunk written in compressed mode takes the shorter of its frame and itself. */
  lemma EncodePacks(env: Env, plain: seq<byte>, objLevel: int, store: int)
    ensures PackedFor(env, EncodeChunk(env, plain, WriteLevel(objLevel, store)), plain, objLevel, store)
    ensures PackedSomehow(env, EncodeChunk(env, plain, WriteLevel(objLevel, store)), plain)
  {
    WriteLevelIsReal(objLevel, store);
    assert Packed(env, EncodeChunk(env, plain, WriteLevel(objLevel, store)), plain, WriteLevel(objLevel, store));
  }

  /** Decompress inverts Compress exactly when the size bound admits the plaintext,
      for every level and whether or not the verbatim fallback was taken; the stored form
      is never longer than the plaintext, and at a real level it is the frame if that is
      shorter. */
  lemma CompressRoundTrip(env: Env, plain: seq<byte>, level: int, max: int)
    requires env.Sound()
    ensures DecodeChunk(env, Compress(env, plain, level), max)
         == if |plain| <= max then Plain(plain) else TooLarge
    ensures |Compress(env, plain, level).data| <= |plain|
    ensures if 1 <= level <= 5 then Packed(env, Compress(env, plain, level), plain, level)
            else Compress(env, plain, level) == Stored(plain, 0)
  {
    match AzLevel(level)
    case None =>
    case Some(l) => EncodeRoundTrip(env, plain, l, max);
  }

  lemma EncodeRoundTrip(env: Env, plain: seq<byte>, lvl: int, max: int)
    requires env.Sound()
    ensures DecodeChunk(env, EncodeChunk(env, plain, lvl), max)
         == if |plain| <= max then Plain(plain) else TooLarge
    ensures |EncodeChunk(env, plain, lvl).data| <= |plain|
  {
    assert env.expand(env.compress(plain, lvl)) == Some(plain);
  }

  /** The level a chunk is compressed at is always a real one: the object's frozen
      level if it has one, else the writing store's, else level 3. */
  lemma WriteLevelIsReal(objOverride: int, store: int)
    ensures 1 <= WriteLevel(objOverride, store) <= 5
    ensures 1 <= objOverride <= 5 ==> forall other :: WriteLevel(objOverride, other) == objOverride
    ensures !(1 <= objOverride <= 5) && 1 <= store <= 5 ==> WriteLevel(objOverride, store) == store
    ensures !(1 <= objOverride <= 5) && !(1 <= store <= 5) ==> WriteLevel(objOverride, store) == 3
  {
  }
}
