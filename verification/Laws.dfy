/** Laws of every run of the blob store, proved of the specification machine that
    every run refines. */
module Laws {
  import opened Bytes
  import opened Versions
  import opened BlobStore
  import opened History

  // ---- storage choices are invisible ----

  /** Row ids are SQLite's choice; everything else is determined. */
  ghost predicate SameIds(x: Out, y: Out) {
    x.Made? && y.Made? ==> x.id == y.id
  }

  lemma {:induction false} SortedUnique(x: seq<int>, y: seq<int>)
    requires forall i, j :: 0 <= i < j < |x| ==> x[i] < x[j]
    requires forall i, j :: 0 <= i < j < |y| ==> y[i] < y[j]
    requires forall v :: v in x <==> v in y
    ensures x == y
    decreases |x|
  {
    assert y != [] ==> y[0] in y;
    if x != [] {
      var first := x[0];
      assert first in x;
      assert first in y;
      var j :| 0 <= j < |y| && y[j] == x[0];
      assert y[0] in x;
      var i :| 0 <= i < |x| && x[i] == y[0];
      assert x[0] == y[0];
      var x', y' := x[1..], y[1..];
      forall v
        ensures v in x' <==> v in y'
      {
        if v in x' { assert v in x && v != x[0]; assert v in y; }
        if v in y' { assert v in y && v != y[0]; assert v in x; }
      }
      SortedUnique(x', y');
    }
  }

  lemma NextNoLeast(keys: set<VerKey>, obj: int, x: int, y: int)
    requires IsNextNo(keys, obj, x) && IsNextNo(keys, obj, y)
    ensures y <= x
  {
    if y > 1 { assert Ver(obj, y - 1).no < x; }
  }

  lemma NextNoUnique(keys: set<VerKey>, obj: int, x: int, y: int)
    requires IsNextNo(keys, obj, x) && IsNextNo(keys, obj, y)
    ensures x == y
  {
    NextNoLeast(keys, obj, x, y);
    NextNoLeast(keys, obj, y, x);
  }

  /** Alike but for the ids that snapshots occupy. */
  ghost predicate Alike(a: Abs, b: Abs) {
    && a.objects == b.objects && a.versions.Keys == b.versions.Keys
    && forall v :: v in a.versions ==>
         a.versions[v].createdAt == b.versions[v].createdAt && a.versions[v].content == b.versions[v].content
  }

  lemma SameStamps(a: Abs, b: Abs)
    requires Alike(a, b)
    ensures AStamps(a.versions) == AStamps(b.versions)
  {
  }

  lemma PruneAlike(a: Abs, b: Abs, id: int, now: int)
    requires Alike(a, b)
    ensures Alike(PruneAbs(a, id, now), PruneAbs(b, id, now))
  {
    SameStamps(a, b);
  }

  lemma VersionAlike(a: Abs, id: int, taken: int, swept: int, x: Out, b: Abs, a': Abs, y: Out, c: Abs)
    requires Alike(a, a') && VersionStep(a, id, taken, swept, x, b) && VersionStep(a', id, taken, swept, y, c)
    ensures x == y && Alike(b, c)
  {
    hide PruneAbs;
    if id in a.objects {
      NextNoUnique(a.versions.Keys, id, x.no, y.no);
      var r :| Unused(a, r) && b == PruneAbs(Recorded(a, id, x.no, taken, r), id, swept);
      var s :| Unused(a', s) && c == PruneAbs(Recorded(a', id, y.no, taken, s), id, swept);
      PruneAlike(Recorded(a, id, x.no, taken, r), Recorded(a', id, y.no, taken, s), id, swept);
    }
  }

  lemma StepDetermined(a: Abs, op: Op, x: Out, b: Abs, a': Abs, y: Out, c: Abs)
    requires Alike(a, a') && Step(a, op, x, b) && Step(a', op, y, c)
    requires SameIds(x, y)
    ensures x == y && Alike(b, c)
  {
    hide PruneAbs, VersionStep;
    match op
    case NewVersion(id, taken, swept) => VersionAlike(a, id, taken, swept, x, b, a', y, c);
    case Prune(id, now) => PruneAlike(a, a', id, now);
    case List => SortedUnique(x.ids, y.ids);
    case _ =>
  }

  /** Two histories of the same calls that draw the same ids answer alike, whatever
      their dedup flag, default mode, levels and compressor were: deduplication and
      compression are transparent. */
  lemma {:induction false} StorageIsTransparent(ops: seq<Op>, xs: seq<Out>, ys: seq<Out>)
    requires Explained(ops, xs) && Explained(ops, ys)
    requires |xs| == |ys| && forall i :: 0 <= i < |xs| ==> SameIds(xs[i], ys[i])
    ensures xs == ys
  {
    var s :| IsTrace(s, ops, xs) && s[0] == EMPTY;
    var t :| IsTrace(t, ops, ys) && t[0] == EMPTY;
    forall i | 0 <= i < |ops|
      ensures xs[i] == ys[i]
    {
      SameSoFar(ops, xs, ys, s, t, i);
      StepDetermined(s[i], ops[i], xs[i], s[i + 1], t[i], ys[i], t[i + 1]);
    }
  }

  lemma {:induction false} SameSoFar(ops: seq<Op>, xs: seq<Out>, ys: seq<Out>, s: seq<Abs>, t: seq<Abs>,
                                     i: nat)
    requires IsTrace(s, ops, xs) && IsTrace(t, ops, ys) && s[0] == t[0]
    requires forall j :: 0 <= j < |xs| ==> SameIds(xs[j], ys[j])
    requires i <= |ops|
    ensures Alike(s[i], t[i])
    decreases i
  {
    hide Step, SameIds;
    if i > 0 {
      SameSoFar(ops, xs, ys, s, t, i - 1);
      var op := ops[i - 1];
      StepDetermined(s[i - 1], op, xs[i - 1], s[i], t[i - 1], ys[i - 1], t[i]);
    }
  }

  // ---- isolation ----

  /** The object a call may change. */
  function Target(op: Op, out: Out): int {
    match op
    case Create(_, _, _, _) => if out.Made? then out.id else 0
    case Clone(_) => if out.Made? then out.id else 0
    case List => 0
    case _ => op.id
  }

  /** Copy-on-write isolation: one call leaves every other object exactly as it was,
      and a version either stays byte for byte or is removed - by a delete of its
      object or by a prune of it - never altered. */
  lemma StepIsolates(a: Abs, op: Op, out: Out, b: Abs)
    requires Step(a, op, out, b)
    ensures forall id :: id in a.objects && id != Target(op, out) ==> id in b.objects && b.objects[id] == a.objects[id]
    ensures forall id :: id in b.objects && id != Target(op, out) ==> id in a.objects
    ensures forall v :: v in a.versions && v in b.versions ==> b.versions[v] == a.versions[v]
    ensures forall v :: v in a.versions && v !in b.versions ==>
      (op.Delete? || op.Prune? || op.NewVersion?) && v.obj == op.id
  {
    if op.NewVersion? && op.id in a.objects {
      assert Ver(op.id, out.no) !in a.versions;
    }
  }

  /** A version read back at any later time, while it exists, is what was taken. */
  lemma {:induction false} VersionsNeverChange(trace: seq<Abs>, ops: seq<Op>, outs: seq<Out>,
                                               v: VerKey, i: nat, j: nat)
    requires IsTrace(trace, ops, outs)
    requires i <= j < |trace|
    requires forall k :: i <= k <= j ==> v in trace[k].versions
    ensures trace[j].versions[v] == trace[i].versions[v]
    decreases j
  {
    if i < j {
      VersionsNeverChange(trace, ops, outs, v, i, j - 1);
      var op := ops[j - 1];
      StepIsolates(trace[j - 1], op, outs[j - 1], trace[j]);
    }
  }

  // ---- version numbers ----

  /** The last number issued to object `id` in its present life, after `i` calls. */
  function Last(ops: seq<Op>, outs: seq<Out>, id: int, i: nat): int
    requires i <= |ops| == |outs|
  {
    if i == 0 then 0
    else if ops[i - 1].NewVersion? && ops[i - 1].id == id && outs[i - 1].Numbered? then outs[i - 1].no
    else if ops[i - 1] == Delete(id) then 0
    else Last(ops, outs, id, i - 1)
  }

  /** The highest number issued to it in its present life. */
  function Highest(ops: seq<Op>, outs: seq<Out>, id: int, i: nat): int
    requires i <= |ops| == |outs|
  {
    if i == 0 then 0
    else if ops[i - 1].NewVersion? && ops[i - 1].id == id && outs[i - 1].Numbered? then
      Max(Highest(ops, outs, id, i - 1), outs[i - 1].no)
    else if ops[i - 1] == Delete(id) then 0
    else Highest(ops, outs, id, i - 1)
  }

  /** Some sweep of object `id` in its present life ran under an age bound. */
  ghost predicate Aged(trace: seq<Abs>, ops: seq<Op>, id: int, i: nat)
    requires i <= |ops| < |trace|
  {
    i > 0 && ops[i - 1] != Delete(id) &&
    ( || Aged(trace, ops, id, i - 1)
      || ( && (ops[i - 1].NewVersion? || ops[i - 1].Prune?) && ops[i - 1].id == id
           && id in trace[i - 1].objects && trace[i - 1].objects[id].maxAge > 0))
  }

  ghost predicate Numbering(a: Abs, id: int, last: int, aged: bool) {
    && last >= 0
    && (last > 0 ==> id in a.objects)
    && (forall v :: v in a.versions && v.obj == id ==> 1 <= v.no <= last)
    && (!aged && last > 0 ==> Ver(id, last) in a.versions)
  }

  /** A sweep without an age bound never drops the newest version. */
  lemma CountSweepKeepsNewest(stamps: map<VerKey, int>, v: VerKey, keep: int, maxAge: int, now: int)
    requires v in stamps && maxAge <= 0
    requires forall w :: w in stamps && w.obj == v.obj ==> w.no <= v.no
    ensures v !in Doomed(stamps, v.obj, keep, maxAge, now)
  {
    assert Newer(stamps.Keys, v) == {};
  }

  /** A new version, then a sweep: what becomes of the numbering. */
  lemma NumberingAfterVersion(a: Abs, id: int, taken: int, swept: int, no: int, b: Abs, last: int, aged: bool)
    requires id in a.objects && Numbering(a, id, last, aged)
    requires VersionStep(a, id, taken, swept, Numbered(no), b)
    ensures Numbering(b, id, no, aged || a.objects[id].maxAge > 0)
  {
    var snap :| Unused(a, snap) && b == PruneAbs(Recorded(a, id, no, taken, snap), id, swept);
    var r := Recorded(a, id, no, taken, snap);
    if a.objects[id].maxAge <= 0 {
      CountSweepKeepsNewest(AStamps(r.versions), Ver(id, no), a.objects[id].keep, a.objects[id].maxAge, swept);
    }
  }

  lemma NumberingAfterPrune(a: Abs, id: int, now: int, last: int, aged: bool)
    requires id in a.objects && Numbering(a, id, last, aged)
    ensures Numbering(PruneAbs(a, id, now), id, last, aged || a.objects[id].maxAge > 0)
  {
    if a.objects[id].maxAge <= 0 && !aged && last > 0 {
      CountSweepKeepsNewest(AStamps(a.versions), Ver(id, last), a.objects[id].keep, a.objects[id].maxAge, now);
    }
  }

  lemma NumberingStep(a: Abs, op: Op, out: Out, b: Abs, id: int, last: int, aged: bool)
    requires Step(a, op, out, b) && Numbering(a, id, last, aged)
    ensures
      var last' :=
        if op.NewVersion? && op.id == id && out.Numbered? then out.no else if op == Delete(id) then 0 else last;
      var aged' := op != Delete(id) &&
        (aged || ((op.NewVersion? || op.Prune?) && op.id == id && id in a.objects && a.objects[id].maxAge > 0));
      Numbering(b, id, last', aged')
  {
    if op.NewVersion? && op.id == id && id in a.objects {
      NumberingAfterVersion(a, id, op.taken, op.swept, out.no, b, last, aged);
    } else if op.Prune? && op.id == id && id in a.objects {
      NumberingAfterPrune(a, id, op.now, last, aged);
    } else {
      NumberingElsewhere(a, op, out, b, id, last, aged);
    }
  }

  lemma NumberingElsewhere(a: Abs, op: Op, out: Out, b: Abs, id: int, last: int, aged: bool)
    requires Step(a, op, out, b) && Numbering(a, id, last, aged)
    requires !((op.NewVersion? || op.Prune?) && op.id == id && id in a.objects)
    ensures Numbering(b, id, if op == Delete(id) then 0 else last, op != Delete(id) && aged)
  {
    StepIsolates(a, op, out, b);
    if op.NewVersion? && op.id in a.objects {
      var snap :| Unused(a, snap) && b == PruneAbs(Recorded(a, op.id, out.no, op.taken, snap), op.id, op.swept);
    }
  }

  lemma {:induction false} NumberingHolds(trace: seq<Abs>, ops: seq<Op>, outs: seq<Out>, id: int,
                                          i: nat)
    requires IsTrace(trace, ops, outs) && trace[0] == EMPTY && i <= |ops|
    ensures Numbering(trace[i], id, Last(ops, outs, id, i), Aged(trace, ops, id, i))
    decreases i
  {
    if i > 0 {
      NumberingHolds(trace, ops, outs, id, i - 1);
      var op := ops[i - 1];
      NumberingStep(trace[i - 1], op, outs[i - 1], trace[i], id,
        Last(ops, outs, id, i - 1), Aged(trace, ops, id, i - 1));
    }
  }

  /** The last number issued is at most the highest, and is the highest until an
      age-bounded sweep has run. */
  lemma {:induction false} LastAndHighest(trace: seq<Abs>, ops: seq<Op>, outs: seq<Out>, id: int,
                                          i: nat)
    requires IsTrace(trace, ops, outs) && trace[0] == EMPTY && i <= |ops|
    ensures 0 <= Last(ops, outs, id, i) <= Highest(ops, outs, id, i)
    ensures !Aged(trace, ops, id, i) ==> Last(ops, outs, id, i) == Highest(ops, outs, id, i)
    decreases i
  {
    if i > 0 {
      LastAndHighest(trace, ops, outs, id, i - 1);
      NumberingHolds(trace, ops, outs, id, i - 1);
      NumberingHolds(trace, ops, outs, id, i);
      var op := ops[i - 1];
      assert Step(trace[i - 1], op, outs[i - 1], trace[i]);
    }
  }

  /** In every run, a new version number exceeds every surviving one; it exceeds
      every number issued to the object in its present life if and only if the highest
      of them is still listed; and while no sweep of the object has run under an age
      bound the numbers are exactly 1, 2, 3, ... */
  lemma {:induction false} VersionNumbers(trace: seq<Abs>, ops: seq<Op>, outs: seq<Out>, id: int, i: nat)
    requires IsTrace(trace, ops, outs) && trace[0] == EMPTY
    requires i < |ops| && ops[i].NewVersion? && ops[i].id == id && outs[i].Numbered?
    ensures forall v :: v in trace[i].versions && v.obj == id ==> v.no < outs[i].no
    ensures var top := Highest(ops, outs, id, i);
      outs[i].no > top <==> top == 0 || Ver(id, top) in trace[i].versions
    ensures !Aged(trace, ops, id, i) ==> outs[i].no == Highest(ops, outs, id, i) + 1
  {
    NumberingHolds(trace, ops, outs, id, i);
    LastAndHighest(trace, ops, outs, id, i);
    var op := ops[i];
    assert Step(trace[i], op, outs[i], trace[i + 1]);
  }

  /** `Highest` is what its name says: no number issued since the last delete of the
      object exceeds it. */
  lemma {:induction false} HighestIs(ops: seq<Op>, outs: seq<Out>, id: int, i: nat, j: nat)
    requires j < i <= |ops| == |outs| && forall k :: j <= k < i ==> ops[k] != Delete(id)
    requires ops[j].NewVersion? && ops[j].id == id && outs[j].Numbered?
    ensures outs[j].no <= Highest(ops, outs, id, i)
    decreases i
  {
    if j < i - 1 { HighestIs(ops, outs, id, i - 1, j); }
  }

  /** One empty object under an age bound of ten, with no version or one taken at `at`. */
  function Bare(chunkSize: int): Abs {
    Abs(map[1 := AObj([], chunkSize, 0, 10)], map[])
  }

  function OneVersion(chunkSize: int, at: int): Abs {
    Bare(chunkSize).(versions := map[Ver(1, 1) := AVer(at, [], 2)])
  }

  lemma TakeFirst(chunkSize: int, at: int)
    requires 0 <= at <= 100
    ensures Step(Bare(chunkSize), NewVersion(1, at, at), Numbered(1), OneVersion(chunkSize, at))
  {
    var a, b := Bare(chunkSize), OneVersion(chunkSize, at);
    CutoffIs(at, 10);
    assert Doomed(AStamps(b.versions), 1, 0, 10, at) == {};
    assert b.versions - {} == b.versions;
    assert Unused(a, 2) && Recorded(a, 1, 1, at, 2) == b && PruneAbs(b, 1, at) == b;
  }

  lemma SweepAll(chunkSize: int)
    ensures Step(OneVersion(chunkSize, 0), Prune(1, 100), Done(None), Bare(chunkSize))
  {
    var b := OneVersion(chunkSize, 0);
    CutoffIs(100, 10);
    assert Doomed(AStamps(b.versions), 1, 0, 10, 100) == {Ver(1, 1)};
    assert b.versions - {Ver(1, 1)} == map[];
  }

  /** Under an age bound the promise of ever-increasing numbers fails: a sweep may
      drop every version, and numbering then starts again at 1. */
  lemma NumbersRestart(chunkSize: int)
    ensures Explained([Create(chunkSize, None, 0, 10), NewVersion(1, 0, 0), Prune(1, 100), NewVersion(1, 100, 100)],
      [Made(1), Numbered(1), Done(None), Numbered(1)])
  {
    hide Step;
    var ops := [Create(chunkSize, None, 0, 10), NewVersion(1, 0, 0), Prune(1, 100), NewVersion(1, 100, 100)];
    var outs := [Made(1), Numbered(1), Done(None), Numbered(1)];
    var a, b, d := Bare(chunkSize), OneVersion(chunkSize, 0), OneVersion(chunkSize, 100);
    FirstObject(chunkSize);
    TakeFirst(chunkSize, 0);
    SweepAll(chunkSize);
    TakeFirst(chunkSize, 100);
    assert IsTrace([EMPTY, a, b, a, d], ops, outs);
  }

  lemma FirstObject(chunkSize: int)
    ensures Step(EMPTY, Create(chunkSize, None, 0, 10), Made(1), Bare(chunkSize))
  {
  }

  // ---- reads against writes ----

  /** What was written is what is read back, in full. */
  lemma ReadAfterWrite(a: Abs, b: Abs, id: int, p: Buffer, off: Int64, out: Out)
    requires p != [] && Step(a, Write(id, p, off), Done(None), b)
    requires Step(b, Read(id, |p|, off), out, b)
    ensures out.n == |p| && out.bytes == p
    ensures out.err == if off + |p| >= |b.objects[id].content| then Some(EOF) else None
  {
    var c := b.objects[id].content;
    assert c == Splice(a.objects[id].content, off, p);
    assert c[off..off + |p|] == p;
  }

  /** Reading on where a read without EOF ended is like one longer read. */
  lemma ReadsJoin(a: Abs, id: int, first: Length, more: Length, off: Int64, x: Out, y: Out)
    requires id in a.objects && first + more <= MAX_INT64 && off + first <= MAX_INT64 && more > 0
    requires Step(a, Read(id, first, off), x, a) && x.err.None? && Step(a, Read(id, more, off + first), y, a)
    ensures x.n == first && Step(a, Read(id, first + more, off), Data(x.n + y.n, x.bytes + y.bytes, y.err), a)
  {
  }

  /** A version reads, at any later time while it is listed, as the object did when it was taken. */
  lemma VersionReadsAsTaken(trace: seq<Abs>, ops: seq<Op>, outs: seq<Out>, i: nat, j: nat)
    requires IsTrace(trace, ops, outs) && i < j < |ops|
    requires ops[i].NewVersion? && outs[i].Numbered? && ops[j].ReadVersion?
    requires ops[j].id == ops[i].id && ops[j].no == outs[i].no
    requires forall k :: i < k <= j ==> Ver(ops[j].id, ops[j].no) in trace[k].versions
    ensures ops[i].id in trace[i].objects && outs[j].Data?
    ensures ReadsAs(trace[i].objects[ops[i].id].content, ops[j].want, ops[j].off, outs[j].n, outs[j].err, outs[j].bytes)
  {
    hide ReadsAs, Doomed;
    var take, read := ops[i], ops[j];
    assert Step(trace[i], take, outs[i], trace[i + 1]) && Step(trace[j], read, outs[j], trace[j + 1]);
    VersionsNeverChange(trace, ops, outs, Ver(read.id, read.no), i + 1, j);
  }

  /** Shrinking and growing again never brings old bytes back. */
  lemma ShrinkThenGrowReadsZeros(a: Abs, b: Abs, c: Abs, id: int, small: Int64, large: Int64)
    requires small <= large && id in a.objects && small < |a.objects[id].content|
    requires Step(a, Truncate(id, small), Done(None), b)
    requires Step(b, Truncate(id, large), Done(None), c)
    ensures id in c.objects && |c.objects[id].content| == large
    ensures forall i :: small <= i < large ==> c.objects[id].content[i] == 0
  {
  }

  /** A shrink close to the largest int64 loses bytes far below the cut: with the
      default chunk size, the byte written at offset 0 reads back as zero. */
  lemma ShrinkLosesBytes()
    ensures Explained(
      [Create(65536, None, 0, 0), Write(1, [7], 0), Truncate(1, MAX_INT64), Truncate(1, MAX_INT64 - 1), Read(1, 1, 0)],
      [Made(1), Done(None), Done(None), Done(None), Data(1, [0], None)])
  {
    var ops :=
      [Create(65536, None, 0, 0), Write(1, [7], 0), Truncate(1, MAX_INT64), Truncate(1, MAX_INT64 - 1), Read(1, 1, 0)];
    var outs := [Made(1), Done(None), Done(None), Done(None), Data(1, [0], None)];
    var a := Abs(map[1 := AObj([], 65536, 0, 0)], map[]);
    var b := SetContent(a, 1, [7]);
    var c := SetContent(b, 1, Resize([7], MAX_INT64));
    var d := SetContent(c, 1, Zeros(MAX_INT64 - 1));
    assert Splice([], 0, [7]) == [7];
    assert IsTrace([EMPTY, a, b, c, d, d], ops, outs) by {
      assert Step(EMPTY, ops[0], outs[0], a);
      assert Step(a, ops[1], outs[1], b);
      assert Step(b, ops[2], outs[2], c);
      assert Step(c, ops[3], outs[3], d);
      assert Zeros(MAX_INT64 - 1)[0..1] == [0];
      assert Step(d, ops[4], outs[4], d);
    }
  }

  // ---- what a batch writes ----

  /** A well-formed write that has byte `k` in its range. */
  predicate Over(p: Patch, k: int) {
    !IllFormed(p) && p.off <= k < p.off + |p.data|
  }

  /** A well-formed write that ends past byte `k`. */
  predicate Past(p: Patch, k: int) {
    !IllFormed(p) && p.data != [] && k < p.off + |p.data|
  }

  /** Write `i` is the last one over byte `k`. */
  predicate LastOver(patches: seq<Patch>, i: int, k: int) {
    0 <= i < |patches| && Over(patches[i], k) && forall j :: i < j < |patches| ==> !Over(patches[j], k)
  }

  predicate NoneOver(patches: seq<Patch>, k: int) {
    forall i :: 0 <= i < |patches| ==> !Over(patches[i], k)
  }

  predicate AnyPast(patches: seq<Patch>, k: int) {
    exists i :: 0 <= i < |patches| && Past(patches[i], k)
  }

  /** One write of a batch, byte by byte. */
  lemma {:induction false} PatchByte(c: seq<byte>, patches: seq<Patch>, k: nat)
    requires patches != []
    ensures var n := |patches| - 1;
      var p, before, r := patches[n], BatchMeaning(c, patches[..n]), BatchMeaning(c, patches);
      && (k < |r| <==> k < |before| || Past(p, k))
      && (Over(p, k) ==> k < |r| && 0 <= k - p.off < |p.data| && r[k] == p.data[k - p.off])
      && (!Over(p, k) && k < |r| ==> r[k] == if k < |before| then before[k] else 0)
  {
    hide WriteArgs;
    PatchIs(patches[|patches| - 1]);
  }

  lemma OverNext(patches: seq<Patch>, k: int)
    requires patches != []
    ensures var n := |patches| - 1;
      var front, p := patches[..n], patches[n];
      && (AnyPast(patches, k) <==> AnyPast(front, k) || Past(p, k))
      && (NoneOver(patches, k) <==> NoneOver(front, k) && !Over(p, k))
      && (forall i :: LastOver(patches, i, k) ==>
            if Over(p, k) then i == n else i < n && LastOver(front, i, k))
  {
    hide Over, Past;
    var n := |patches| - 1;
    var front := patches[..n];
    assert forall i :: 0 <= i < n ==> front[i] == patches[i];
  }

  /** After a batch, a byte is that of the last well-formed write over it; a byte under no write is
      what it was, or zero if the object ended before it. The object ends where it did, or at the
      furthest end of a write. */
  lemma {:induction false} BatchByte(c: seq<byte>, patches: seq<Patch>, k: nat)
    ensures var r := BatchMeaning(c, patches);
      && (k < |r| <==> k < |c| || AnyPast(patches, k))
      && (forall i :: LastOver(patches, i, k) ==>
            k < |r| && 0 <= k - patches[i].off < |patches[i].data| && r[k] == patches[i].data[k - patches[i].off])
      && (k < |r| && NoneOver(patches, k) ==> r[k] == if k < |c| then c[k] else 0)
    decreases |patches|
  {
    if patches == [] {
      BatchNothing(c);
    } else {
      BatchByteNext(c, patches, k);
    }
  }

  lemma {:induction false} BatchByteNext(c: seq<byte>, patches: seq<Patch>, k: nat)
    requires patches != []
    ensures var r := BatchMeaning(c, patches);
      && (k < |r| <==> k < |c| || AnyPast(patches, k))
      && (forall i :: LastOver(patches, i, k) ==>
            k < |r| && 0 <= k - patches[i].off < |patches[i].data| && r[k] == patches[i].data[k - patches[i].off])
      && (k < |r| && NoneOver(patches, k) ==> r[k] == if k < |c| then c[k] else 0)
    decreases |patches|, 0
  {
    hide Over, Past, AnyPast, NoneOver, BatchMeaning;
    var n := |patches| - 1;
    var front, before, r := patches[..n], BatchMeaning(c, patches[..n]), BatchMeaning(c, patches);
    BatchByte(c, front, k);
    PatchByte(c, patches, k);
    OverNext(patches, k);
    forall i | LastOver(patches, i, k)
      ensures k < |r| && 0 <= k - patches[i].off < |patches[i].data| && r[k] == patches[i].data[k - patches[i].off]
    {
      if !Over(patches[n], k) { assert LastOver(front, i, k) && front[i] == patches[i]; }
    }
  }

  /** A batch stores nothing and answers its error if and only if the object is missing, the callback
      gives up, or some write is ill-formed and its refusal is not ignored. */
  lemma {:induction false} BatchIsAtomic(a: Abs, id: int, patches: seq<Patch>, giveUp: bool, out: Out, b: Abs)
    requires Step(a, Batched(id, patches, giveUp), out, b)
    ensures out.Done? && (out.err.None? <==> id in a.objects && !giveUp && !AnyFatal(patches))
    ensures out.err.Some? ==> b == a
    ensures out.err.None? ==> b == SetContent(a, id, BatchMeaning(a.objects[id].content, patches))
    ensures id in a.objects && giveUp && !AnyFatal(patches) ==> out.err == Some(Callback)
  {
    CallbackErrorIs(patches, giveUp);
  }

  // ---- what a sweep keeps ----

  /** After a sweep, a version of the object is left if and only if fewer than `keep` of its versions
      are newer and it is no older than `maxAge`; a bound of zero or below is none. */
  lemma PruneExact(a: Abs, id: int, now: int, out: Out, b: Abs, v: VerKey)
    requires Step(a, Prune(id, now), out, b) && id in a.objects && v in a.versions && v.obj == id
    requires 0 <= now <= MAX_INT64 && a.objects[id].maxAge <= MAX_INT64
    ensures var o := a.objects[id];
      v in b.versions <==>
        && (o.keep <= 0 || |set w | w in a.versions && w.obj == id && w.no > v.no| < o.keep)
        && (o.maxAge <= 0 || a.versions[v].createdAt + o.maxAge >= now)
  {
    var stamps := AStamps(a.versions);
    assert stamps.Keys == a.versions.Keys;
    assert Newer(stamps.Keys, v) == set w | w in a.versions && w.obj == id && w.no > v.no;
    if a.objects[id].maxAge > 0 { CutoffIs(now, a.objects[id].maxAge); }
  }

  /** A sweep by count alone leaves exactly `keep` versions, or all if there are fewer. */
  lemma PruneCounts(a: Abs, id: int, now: int, out: Out, b: Abs)
    requires Step(a, Prune(id, now), out, b) && id in a.objects
    requires a.objects[id].keep > 0 && a.objects[id].maxAge <= 0
    ensures |VersionsOf(b.versions.Keys, id)| == Min(a.objects[id].keep, |VersionsOf(a.versions.Keys, id)|)
  {
    var keys, keep := VersionsOf(a.versions.Keys, id), a.objects[id].keep;
    var stamps := AStamps(a.versions);
    assert stamps.Keys == a.versions.Keys;
    forall v | v in keys ensures Newer(stamps.Keys, v) == Newer(keys, v) { }
    NewestCount(keys, id, keep);
    assert VersionsOf(b.versions.Keys, id) == Newest(keys, keep);
  }

  function Newest(keys: set<VerKey>, keep: int): set<VerKey> {
    set v | v in keys && |Newer(keys, v)| < keep
  }

  lemma {:induction false} NewestCount(keys: set<VerKey>, id: int, keep: nat)
    requires forall v :: v in keys ==> v.obj == id
    ensures |Newest(keys, keep)| == Min(keep, |keys|)
    decreases |keys|
  {
    hide Newest;
    NewestNone(keys);
    if keep > 0 && keys != {} {
      var top := TopVersion(keys, id);
      NewestCount(keys - {top}, id, keep - 1);
      NewestNext(keys, id, keep, top);
    }
  }

  lemma NewestNone(keys: set<VerKey>)
    ensures Newest(keys, 0) == {} && forall keep :: Newest({}, keep) == {}
  {
  }

  lemma NewestNext(keys: set<VerKey>, id: int, keep: nat, top: VerKey)
    requires keep > 0 && top in keys && forall v :: v in keys ==> v.obj == id && (v != top ==> v.no < top.no)
    ensures |Newest(keys, keep)| == |Newest(keys - {top}, keep - 1)| + 1
  {
    var rest := keys - {top};
    assert Newer(keys, top) == {};
    forall v | v in rest ensures |Newer(keys, v)| == |Newer(rest, v)| + 1 { NewerNext(keys, v, top); }
    assert Newest(keys, keep) == Newest(rest, keep - 1) + {top};
  }

  lemma NewerNext(keys: set<VerKey>, v: VerKey, top: VerKey)
    requires top in keys && v.obj == top.obj && v.no < top.no
    ensures |Newer(keys, v)| == |Newer(keys - {top}, v)| + 1
  {
    assert Newer(keys, v) == Newer(keys - {top}, v) + {top};
  }

  lemma {:induction false} TopVersion(keys: set<VerKey>, id: int) returns (top: VerKey)
    requires keys != {} && forall v :: v in keys ==> v.obj == id
    ensures top in keys && forall v :: v in keys && v != top ==> v.no < top.no
    decreases |keys|
  {
    top :| top in keys;
    var rest := keys - {top};
    if rest != {} {
      var other := TopVersion(rest, id);
      assert other == Ver(id, other.no) && top == Ver(id, top.no);
      if other.no > top.no { top := other; }
    }
  }
}
