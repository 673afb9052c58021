/** The chunk-aligned spans of a byte range (eachChunkSpan in blobstore/io.go). */
module Spans {
  import opened Bytes

  /** One callback: chunk `no`, `len` bytes at `inOff` inside it, at `bufOff` in the buffer. */
  datatype Span = Span(no: int, inOff: int, len: int, bufOff: int)

  ghost predicate InOneChunk(s: Span, off: int, chunk: int) {
    && s.no >= 0 && s.inOff >= 0 && s.len > 0 && s.bufOff >= 0
    && s.inOff + s.len <= chunk
    && s.no * chunk + s.inOff == off + s.bufOff
  }

  /** `t` starts where `s` stops: at the start of the next chunk. */
  ghost predicate Follows(s: Span, t: Span, chunk: int) {
    && s.inOff + s.len == chunk
    && t.no == s.no + 1 && t.inOff == 0
    && t.bufOff == s.bufOff + s.len
  }

  /** How far into the buffer the spans reach. */
  function Reach(spans: seq<Span>): int {
    if spans == [] then 0 else spans[|spans| - 1].bufOff + spans[|spans| - 1].len
  }

  ghost predicate Cuts(spans: seq<Span>, off: int, chunk: int) {
    && (forall j :: 0 <= j < |spans| ==> InOneChunk(spans[j], off, chunk))
    && (forall i, j :: 0 <= i && j == i + 1 && j < |spans| ==> Follows(spans[i], spans[j], chunk))
    && (spans != [] ==> spans[0].bufOff == 0)
  }

  /** The spans cut [off, off + n) exactly: each lies in one chunk, each starts where
      the previous one stops, only the last may stop short of its chunk's end, and
      together they reach n. */
  ghost predicate Partition(spans: seq<Span>, off: int, n: int, chunk: int) {
    Cuts(spans, off, chunk) && Reach(spans) == n
  }

  lemma NextBoundary(pos: int, chunk: int, no: int, inOff: int)
    requires chunk > 0 && pos >= 0 && no == pos / chunk && inOff == pos % chunk
    ensures no * chunk + inOff == pos && pos + (chunk - inOff) == (no + 1) * chunk
  {
    DivModBounds(pos, chunk);
    assert (no + 1) * chunk == no * chunk + chunk;
  }

  method ChunkSpans(off: int, n: int, chunk: int) returns (spans: seq<Span>)
    requires off >= 0 && n >= 0 && chunk > 0
    ensures Partition(spans, off, n, chunk)
  {
    spans := [];
    var end := off + n;
    var bufOff, pos := 0, off;
    while pos < end
      invariant off <= pos <= end && bufOff == pos - off
      invariant Cuts(spans, off, chunk) && Reach(spans) == bufOff
      invariant spans != [] && pos < end ==>
        var s := spans[|spans| - 1]; s.inOff + s.len == chunk && pos == (s.no + 1) * chunk
      decreases end - pos
    {
      var no, inOff := pos / chunk, pos % chunk;
      DivModBounds(pos, chunk);
      NextBoundary(pos, chunk, no, inOff);
      if spans != [] {
        DivModOf(pos, chunk, spans[|spans| - 1].no + 1);
      }
      var len := Min(chunk - inOff, end - pos);
      spans := spans + [Span(no, inOff, len, bufOff)];
      bufOff := bufOff + len;
      pos := pos + len;
    }
  }

  /** The chunks that a range of `n` bytes at `off` meets. */
  ghost function Numbers(off: int, n: int, chunk: int): set<int>
    requires chunk > 0
  {
    set no | off / chunk <= no <= (off + n - 1) / chunk && Meets(no, off, n, chunk)
  }

  ghost predicate Meets(no: int, off: int, n: int, chunk: int)
    requires chunk > 0
  {
    n > 0 && off / chunk <= no <= (off + n - 1) / chunk
  }

  /** The spans visit exactly those chunks. */
  lemma SpanNumbers(spans: seq<Span>, off: int, n: int, chunk: int)
    requires off >= 0 && n >= 0 && chunk > 0 && Partition(spans, off, n, chunk)
    ensures (set i | 0 <= i < |spans| :: spans[i].no) == Numbers(off, n, chunk)
  {
    var nos := set i | 0 <= i < |spans| :: spans[i].no;
    if n > 0 {
      var last := |spans| - 1;
      assert InOneChunk(spans[0], off, chunk) && InOneChunk(spans[last], off, chunk);
      DivModOf(off, chunk, spans[0].no);
      DivModOf(off + n - 1, chunk, spans[last].no);
      forall i | 0 <= i < |spans| ensures spans[i].no == spans[0].no + i { Consecutive(spans, off, chunk, i); }
      forall no | no in Numbers(off, n, chunk) ensures no in nos { assert spans[no - spans[0].no].no == no; }
    } else {
      NoSpans(spans, off, chunk);
    }
    SameSet(nos, Numbers(off, n, chunk));
  }

  lemma {:induction false} Consecutive(spans: seq<Span>, off: int, chunk: int, i: int)
    requires Cuts(spans, off, chunk) && 0 <= i < |spans|
    ensures spans[i].no == spans[0].no + i
    decreases i
  {
    if i > 0 {
      Consecutive(spans, off, chunk, i - 1);
      assert Follows(spans[i - 1], spans[i], chunk);
    }
  }

  lemma NoSpans(spans: seq<Span>, off: int, chunk: int)
    requires Cuts(spans, off, chunk) && Reach(spans) == 0
    ensures spans == []
  {
    assert spans != [] ==> InOneChunk(spans[|spans| - 1], off, chunk);
  }

  /** Walking the spans in order: the next one starts where the ones before it reach. */
  lemma NextSpan(spans: seq<Span>, off: int, n: int, chunk: int, j: int)
    requires Partition(spans, off, n, chunk)
    requires 0 <= j < |spans|
    ensures InOneChunk(spans[j], off, chunk)
    ensures spans[j].bufOff == Reach(spans[..j])
    ensures Reach(spans[..j + 1]) == spans[j].bufOff + spans[j].len <= n
    decreases |spans| - j
  {
    if j > 0 { assert Follows(spans[j - 1], spans[j], chunk); }
    if j + 1 < |spans| {
      assert Follows(spans[j], spans[j + 1], chunk);
      NextSpan(spans, off, n, chunk, j + 1);
    }
  }

  /** Each byte of the range is in exactly one span, the one of its own chunk. */
  lemma ExactlyOneSpan(spans: seq<Span>, off: int, n: int, chunk: int, i: int)
    requires off >= 0 && chunk > 0
    requires Partition(spans, off, n, chunk)
    requires off <= i < off + n
    ensures exists j :: 0 <= j < |spans| && Holds(spans[j], i - off)
    ensures forall j, l ::
      0 <= j < |spans| && 0 <= l < |spans| && Holds(spans[j], i - off) && Holds(spans[l], i - off) ==> j == l
    ensures forall j :: 0 <= j < |spans| && Holds(spans[j], i - off) ==>
      spans[j].no == i / chunk && i % chunk == spans[j].inOff + (i - off - spans[j].bufOff)
  {
    FindSpan(spans, off, chunk, i - off);
    forall j | 0 <= j < |spans| && Holds(spans[j], i - off)
      ensures spans[j].no == i / chunk && i % chunk == spans[j].inOff + (i - off - spans[j].bufOff)
    {
      assert InOneChunk(spans[j], off, chunk);
      DivModOf(i, chunk, spans[j].no);
    }
    forall j, l | 0 <= j < l < |spans| {
      NumbersGrow(spans, off, chunk, j, l);
    }
  }

  ghost predicate Holds(s: Span, at: int) {
    s.bufOff <= at < s.bufOff + s.len
  }

  lemma {:induction false} FindSpan(spans: seq<Span>, off: int, chunk: int, at: int)
    requires Cuts(spans, off, chunk)
    requires 0 <= at < Reach(spans)
    ensures exists j :: 0 <= j < |spans| && Holds(spans[j], at)
    decreases |spans|
  {
    var last := |spans| - 1;
    if spans[last].bufOff <= at {
      assert Holds(spans[last], at);
    } else {
      var front := spans[..last];
      assert last > 0 ==> Follows(spans[last - 1], spans[last], chunk);
      FindSpan(front, off, chunk, at);
      var j :| 0 <= j < |front| && Holds(front[j], at);
      assert spans[j] == front[j];
    }
  }

  lemma {:induction false} NumbersGrow(spans: seq<Span>, off: int, chunk: int, i: int, j: int)
    requires Cuts(spans, off, chunk)
    requires 0 <= i < j < |spans|
    ensures spans[i].no < spans[j].no
    decreases j - i
  {
    assert Follows(spans[j - 1], spans[j], chunk);
    if i < j - 1 {
      NumbersGrow(spans, off, chunk, i, j - 1);
    }
  }
}
