/** Byte strings, the int64 range, and the quotient/remainder facts that the
    chunk arithmetic of the blob store rests on. */
module Bytes {

  newtype byte = b: int | 0 <= b < 256

  const MAX_INT64: int := 0x7FFF_FFFF_FFFF_FFFF
  const MIN_INT64: int := -0x8000_0000_0000_0000

  type Int64 = x: int | MIN_INT64 <= x <= MAX_INT64

  /** A Go slice: its length is an int64. */
  type Buffer = p: seq<byte> | |p| <= MAX_INT64

  type Length = n: int | 0 <= n <= MAX_INT64

  datatype Option<+T> = None | Some(value: T)

  /** Two's-complement wrap-around of an int64 result. */
  function Wrap64(x: int): (r: Int64)
    ensures MIN_INT64 <= x <= MAX_INT64 ==> r == x
    ensures MAX_INT64 < x <= 2 * MAX_INT64 + 1 ==> r < 0
  {
    (x - MIN_INT64) % 0x1_0000_0000_0000_0000 + MIN_INT64
  }

  /** The source's integer division truncates toward zero. */
  function TruncDiv(x: int, y: int): (q: int)
    requires y > 0
    ensures x >= 0 ==> q * y <= x < q * y + y
    ensures x < 0 ==> q <= 0
  {
    if x >= 0 then x / y else -((-x) / y)
  }

  /** A set or map of integers that is not empty has a member. */
  lemma SomeMember(s: set<int>)
    ensures s == {} || exists x :: x in s
  {
    if forall x :: x !in s { assert s == {}; }
  }

  lemma SomeKey<V>(m: map<int, V>)
    ensures m == map[] || exists k :: k in m
  {
    if forall k :: k !in m { assert m == map[]; }
  }

  /** Extensionality, for sets and maps of integers. */
  lemma SameSet(a: set<int>, b: set<int>)
    requires forall x :: x in a <==> x in b
    ensures a == b
  {
    forall x ensures x in a <==> x in b { }
  }

  lemma SameMap<V>(a: map<int, V>, b: map<int, V>)
    requires forall k :: k in a <==> k in b
    requires forall k :: k in a && k in b ==> a[k] == b[k]
    ensures a == b
  {
    forall k
      ensures k in a <==> k in b
      ensures k in a && k in b ==> a[k] == b[k]
    {
    }
  }

  lemma MulMono(x: int, y: int, c: int)
    requires x <= y && c >= 0
    ensures x * c <= y * c
  {
  }

  function Min(x: int, y: int): int { if x <= y then x else y }

  function Max(x: int, y: int): int { if x <= y then y else x }

  function Zeros(n: nat): (z: seq<byte>)
    ensures |z| == n
    ensures forall i :: 0 <= i < n ==> z[i] == 0
  {
    seq(n, _ => 0)
  }

  /** `s` with `p` copied over it at `off`; `p` lies inside `s`. */
  function Overlay(s: seq<byte>, off: nat, p: seq<byte>): (r: seq<byte>)
    requires off + |p| <= |s|
    ensures |r| == |s|
    ensures forall i :: 0 <= i < |s| ==> r[i] == if off <= i < off + |p| then p[i - off] else s[i]
  {
    s[..off] + p + s[off + |p|..]
  }

  /** `s` cut or zero-extended to exactly `n` bytes. */
  function Resize(s: seq<byte>, n: nat): (r: seq<byte>)
    ensures |r| == n
    ensures forall i :: 0 <= i < n ==> r[i] == if i < |s| then s[i] else 0
  {
    if n <= |s| then s[..n] else s + Zeros(n - |s|)
  }

  /** What a write means: zero-extend up to the end of the write, then overlay. */
  function Splice(s: seq<byte>, off: nat, p: seq<byte>): (r: seq<byte>)
    ensures |r| == Max(|s|, off + |p|)
    ensures forall i :: 0 <= i < |r| ==>
      r[i] == if off <= i < off + |p| then p[i - off] else if i < |s| then s[i] else 0
  {
    Overlay(Resize(s, Max(|s|, off + |p|)), off, p)
  }

  lemma DivModOf(i: int, c: int, q: int)
    requires c > 0
    requires q * c <= i < q * c + c
    ensures i / c == q && i % c == i - q * c
  {
    var d := i / c - q;
    assert i == (i / c) * c + i % c;
    assert (i / c) * c == d * c + q * c;
    assert d >= 1 ==> d * c >= c;
    assert d <= -1 ==> d * c <= -c;
  }

  lemma DivModBounds(i: int, c: int)
    requires i >= 0 && c > 0
    ensures i / c >= 0
    ensures (i / c) * c <= i < (i / c) * c + c
    ensures i % c == i - (i / c) * c
  {
    assert i == (i / c) * c + i % c;
  }
}
