/** The specification the blob store refines: a map from object id to bytes, a
    retention policy per object, and immutable named versions. Every run of the
    store is a run of this machine. */
module History {
  import opened Bytes
  import opened Codec
  import opened Objects
  import opened Versions
  import opened BlobStore

  datatype AObj = AObj(content: seq<byte>, chunk: int, keep: int, maxAge: int)

  /** A version: when it was taken, of what, and the id its hidden copy occupies. */
  datatype AVer = AVer(createdAt: int, content: seq<byte>, snap: int)
  datatype Abs = Abs(objects: map<int, AObj>, versions: map<VerKey, AVer>)

  /** The calls. `chunk` is the chunk size of the store a Create is made on. */
  datatype Op =
    | Create(chunk: int, override: Option<int>, keep: int, maxAge: int)
    | Write(id: int, data: Buffer, off: Int64)
    | Batched(id: int, patches: seq<Patch>, giveUp: bool)
    | Truncate(id: int, size: Int64)
    | Clone(id: int)
    | SetCompression(id: int, c: int)
    | SetRetention(id: int, keep: int, maxAge: int)
    | Delete(id: int)
    | NewVersion(id: int, taken: int, swept: int)
    | Prune(id: int, now: int)
    | Read(id: int, want: Length, off: Int64)
    | ReadVersion(id: int, no: int, want: Length, off: Int64)
    | List

  datatype Out =
    | Done(err: Option<Err>)
    | Made(id: int)
    | Numbered(no: int)
    | Data(n: int, bytes: seq<byte>, err: Option<Err>)
    | Ids(ids: seq<int>)

  // ---- the specification machine ----

  /** The ids taken by snapshots. */
  ghost function HiddenIn(a: Abs): set<int> {
    set v | v in a.versions :: a.versions[v].snap
  }

  ghost predicate Unused(a: Abs, id: int) {
    id !in a.objects && id !in HiddenIn(a)
  }

  /** The object id a call names, if it names one. */
  function Named(op: Op): Option<int> {
    match op
    case Create(_, _, _, _) => None
    case ReadVersion(_, _, _, _) => None
    case List => None
    case Write(id, _, _) => Some(id)
    case Batched(id, _, _) => Some(id)
    case Truncate(id, _) => Some(id)
    case Clone(id) => Some(id)
    case SetCompression(id, _) => Some(id)
    case SetRetention(id, _, _) => Some(id)
    case Delete(id) => Some(id)
    case NewVersion(id, _, _) => Some(id)
    case Prune(id, _) => Some(id)
    case Read(id, _, _) => Some(id)
  }

  /** The same calls, made on a store with this chunk size. */
  function On(chunk: int, ops: seq<Op>): (r: seq<Op>)
    ensures |r| == |ops|
    ensures forall i :: 0 <= i < |ops| ==> r[i] == if ops[i].Create? then ops[i].(chunk := chunk) else ops[i]
  {
    seq(|ops|, i requires 0 <= i < |ops| => if ops[i].Create? then ops[i].(chunk := chunk) else ops[i])
  }

  /** Snapshots are reached through the version calls only. */
  ghost predicate Legal(a: Abs, op: Op) {
    Named(op).Some? ==> Named(op).value !in HiddenIn(a)
  }

  function AStamps(versions: map<VerKey, AVer>): map<VerKey, int> {
    map v | v in versions :: versions[v].createdAt
  }

  function WriteErr(present: bool, p: seq<byte>, off: int): Option<Err> {
    if off < 0 then Some(NegativeOffset)
    else if p == [] then None
    else if off + |p| > MAX_INT64 then Some(OffsetOverflow)
    else if !present then Some(NotFound)
    else None
  }

  function SetContent(a: Abs, id: int, c: seq<byte>): Abs
    requires id in a.objects
  {
    a.(objects := a.objects[id := a.objects[id].(content := c)])
  }

  function PruneAbs(a: Abs, id: int, now: int): Abs {
    if id in a.objects then
      a.(versions := a.versions - Doomed(AStamps(a.versions), id, a.objects[id].keep, a.objects[id].maxAge, now))
    else a
  }

  /** An object's bytes become `c` when there is no error and something to do. */
  ghost predicate ContentStep(a: Abs, id: int, err: Option<Err>, c: Option<seq<byte>>, out: Out, b: Abs) {
    && out == Done(err)
    && match c
       case Some(bytes) => id in a.objects && b == SetContent(a, id, bytes)
       case None => b == a
  }

  ghost predicate WriteStep(a: Abs, id: int, p: seq<byte>, off: int, out: Out, b: Abs) {
    var err := WriteErr(id in a.objects, p, off);
    ContentStep(a, id, err, if err.None? && p != [] then Some(Splice(a.objects[id].content, off, p)) else None, out, b)
  }

  ghost predicate BatchStepped(a: Abs, id: int, patches: seq<Patch>, giveUp: bool, out: Out, b: Abs) {
    var err := if id in a.objects then CallbackError(patches, giveUp) else Some(NotFound);
    ContentStep(a, id, err, if err.None? then Some(BatchMeaning(a.objects[id].content, patches)) else None, out, b)
  }

  ghost predicate TruncateStep(a: Abs, id: int, size: int, out: Out, b: Abs) {
    var err := if size < 0 then Some(NegativeSize) else if id !in a.objects then Some(NotFound) else None;
    ContentStep(a, id, err,
      if err.None? then Some(TruncateMeaning(a.objects[id].content, a.objects[id].chunk, size)) else None, out, b)
  }

  ghost predicate CloneStep(a: Abs, id: int, out: Out, b: Abs) {
    if id in a.objects then
      && out.Made? && Unused(a, out.id)
      && b == a.(objects := a.objects[out.id := a.objects[id]])
    else out == Done(Some(NotFound)) && b == a
  }

  ghost predicate RetentionStep(a: Abs, id: int, keep: int, maxAge: int, out: Out, b: Abs) {
    if id in a.objects then
      out == Done(None) && b == a.(objects := a.objects[id := a.objects[id].(keep := keep, maxAge := maxAge)])
    else out == Done(Some(NotFound)) && b == a
  }

  ghost predicate DeleteStep(a: Abs, id: int, out: Out, b: Abs) {
    if id in a.objects then
      && out == Done(None)
      && b == Abs(a.objects - {id}, a.versions - VersionsOf(a.versions.Keys, id))
    else out == Done(Some(NotFound)) && b == a
  }

  ghost predicate VersionStep(a: Abs, id: int, taken: int, swept: int, out: Out, b: Abs) {
    if id in a.objects then
      && out.Numbered? && IsNextNo(a.versions.Keys, id, out.no)
      && exists snap :: Unused(a, snap) && b == PruneAbs(Recorded(a, id, out.no, taken, snap), id, swept)
    else out == Done(Some(NotFound)) && b == a
  }

  function Recorded(a: Abs, id: int, no: int, taken: int, snap: int): Abs
    requires id in a.objects
  {
    a.(versions := a.versions[Ver(id, no) := AVer(taken, a.objects[id].content, snap)])
  }

  ghost predicate ReadStep(a: Abs, id: int, want: Length, off: int, out: Out, b: Abs) {
    && b == a
    && out.Data?
    && (if id in a.objects then ReadsAs(a.objects[id].content, want, off, out.n, out.err, out.bytes)
        else out == Data(0, [], if off < 0 then Some(NegativeOffset) else if want == 0 then None else Some(NotFound)))
  }

  ghost predicate ReadVersionStep(a: Abs, id: int, no: int, want: Length, off: int, out: Out, b: Abs) {
    && b == a
    && out.Data?
    && (if Ver(id, no) in a.versions then ReadsAs(a.versions[Ver(id, no)].content, want, off, out.n, out.err, out.bytes)
        else out == Data(0, [], Some(NotFound)))
  }

  ghost predicate ListStep(a: Abs, out: Out, b: Abs) {
    && b == a
    && out.Ids?
    && (forall i, j :: 0 <= i < j < |out.ids| ==> out.ids[i] < out.ids[j])
    && (forall id :: id in out.ids <==> id in a.objects)
  }

  /** One call: from `a`, `op` may answer `out` and leave `b`. */
  ghost predicate Step(a: Abs, op: Op, out: Out, b: Abs) {
    match op
    case Create(chunk, _, keep, maxAge) =>
      && out.Made? && Unused(a, out.id)
      && b == a.(objects := a.objects[out.id := AObj([], chunk, keep, maxAge)])
    case Write(id, p, off) => WriteStep(a, id, p, off, out, b)
    case Batched(id, patches, giveUp) => BatchStepped(a, id, patches, giveUp, out, b)
    case Truncate(id, size) => TruncateStep(a, id, size, out, b)
    case Clone(id) => CloneStep(a, id, out, b)
    case SetCompression(id, _) => out == Done(if id in a.objects then None else Some(NotFound)) && b == a
    case SetRetention(id, keep, maxAge) => RetentionStep(a, id, keep, maxAge, out, b)
    case Delete(id) => DeleteStep(a, id, out, b)
    case NewVersion(id, taken, swept) => VersionStep(a, id, taken, swept, out, b)
    case Prune(id, now) => out == Done(None) && b == PruneAbs(a, id, now)
    case Read(id, want, off) => ReadStep(a, id, want, off, out, b)
    case ReadVersion(id, no, want, off) => ReadVersionStep(a, id, no, want, off, out, b)
    case List => ListStep(a, out, b)
  }

  ghost predicate IsTrace(trace: seq<Abs>, ops: seq<Op>, outs: seq<Out>) {
    && |outs| == |ops| && |trace| == |ops| + 1
    && (forall i {:trigger ops[i]} :: 0 <= i < |ops| ==>
          Legal(trace[i], ops[i]) && Step(trace[i], ops[i], outs[i], trace[i + 1]))
  }

  const EMPTY: Abs := Abs(map[], map[])

  /** The answers are a run from `trace[0]` that goes on for as long as the calls are legal. */
  ghost predicate Follows(trace: seq<Abs>, ops: seq<Op>, outs: seq<Out>) {
    && |outs| <= |ops|
    && IsTrace(trace, ops[..|outs|], outs)
    && (|outs| < |ops| ==> !Legal(trace[|outs|], ops[|outs|]))
  }

  /** The same from the empty store. */
  ghost predicate Answers(ops: seq<Op>, outs: seq<Out>) {
    exists trace :: Follows(trace, ops, outs) && trace[0] == EMPTY
  }

  /** These answers are a whole run of the specification machine from the empty store. */
  ghost predicate Explained(ops: seq<Op>, outs: seq<Out>) {
    exists trace :: IsTrace(trace, ops, outs) && trace[0] == EMPTY
  }

  // ---- the abstraction function ----

  ghost function LiveObjects(objs: map<int, Obj>, hidden: set<int>, m: map<int, seq<byte>>): map<int, AObj> {
    map id | id in objs && id in m && id !in hidden ::
      AObj(m[id], objs[id].chunk, objs[id].keepVersions, objs[id].maxAge)
  }

  ghost function VersionContents(versions: VersionTable, m: map<int, seq<byte>>): map<VerKey, AVer> {
    map v | v in versions && versions[v].snapshot in m ::
      AVer(versions[v].createdAt, m[versions[v].snapshot], versions[v].snapshot)
  }

  /** Forget blocks, counts, modes and snapshot ids. */
  ghost function AbsOf(objs: map<int, Obj>, versions: VersionTable, m: map<int, seq<byte>>): Abs {
    Abs(LiveObjects(objs, Hidden(versions), m), VersionContents(versions, m))
  }

  ghost predicate Ready(objs: map<int, Obj>, versions: VersionTable, m: map<int, seq<byte>>) {
    VersionInv(objs, versions) && m.Keys == objs.Keys
  }

  lemma AbsBasics(objs: map<int, Obj>, versions: VersionTable, m: map<int, seq<byte>>)
    requires Ready(objs, versions, m)
    ensures var a := AbsOf(objs, versions, m);
      && a.objects.Keys == objs.Keys - Hidden(versions)
      && a.versions.Keys == versions.Keys
      && AStamps(a.versions) == Stamps(versions)
      && HiddenIn(a) == Hidden(versions)
      && (forall id :: id in a.objects ==>
            a.objects[id] == AObj(m[id], objs[id].chunk, objs[id].keepVersions, objs[id].maxAge))
      && (forall v :: v in versions ==> a.versions[v].content == m[versions[v].snapshot])
  {
  }

  /** A new content (and any new columns that the specification does not see). */
  lemma AbsContent(objs: map<int, Obj>, versions: VersionTable, m: map<int, seq<byte>>, id: int, o: Obj, c: seq<byte>)
    requires Ready(objs, versions, m)
    requires id in objs && id !in Hidden(versions)
    requires o.chunk == objs[id].chunk && o.keepVersions == objs[id].keepVersions && o.maxAge == objs[id].maxAge
    ensures id in AbsOf(objs, versions, m).objects
    ensures AbsOf(objs[id := o], versions, m[id := c]) == SetContent(AbsOf(objs, versions, m), id, c)
  {
    hide VersionContents, Hidden, LiveObjects;
    LiveUpdated(objs, Hidden(versions), m, id, o, c);
    ContentsUnhidden(versions, m, id, c);
  }

  lemma LiveUpdated(objs: map<int, Obj>, hidden: set<int>, m: map<int, seq<byte>>, id: int, o: Obj, c: seq<byte>)
    requires id !in hidden
    ensures LiveObjects(objs[id := o], hidden, m[id := c])
         == LiveObjects(objs, hidden, m)[id := AObj(c, o.chunk, o.keepVersions, o.maxAge)]
    ensures id in objs && id in m ==> id in LiveObjects(objs, hidden, m)
    ensures id in objs && id in m ==>
      LiveObjects(objs, hidden, m)[id] == AObj(m[id], objs[id].chunk, objs[id].keepVersions, objs[id].maxAge)
  {
  }

  lemma ContentsUnhidden(versions: VersionTable, m: map<int, seq<byte>>, id: int, c: seq<byte>)
    requires id !in Hidden(versions)
    ensures VersionContents(versions, m[id := c]) == VersionContents(versions, m)
  {
    assert forall v :: v in versions ==> versions[v].snapshot in Hidden(versions);
  }

  lemma NotHidden(objs: map<int, Obj>, versions: VersionTable, id: int)
    requires VersionInv(objs, versions) && id !in objs
    ensures id !in Hidden(versions)
  {
  }

  lemma AbsNew(objs: map<int, Obj>, versions: VersionTable, m: map<int, seq<byte>>, id: int, o: Obj, c: seq<byte>)
    requires Ready(objs, versions, m) && id !in objs
    ensures Unused(AbsOf(objs, versions, m), id)
    ensures var a := AbsOf(objs, versions, m);
      AbsOf(objs[id := o], versions, m[id := c])
      == a.(objects := a.objects[id := AObj(c, o.chunk, o.keepVersions, o.maxAge)])
  {
    hide VersionContents, Hidden, HiddenIn;
    AbsBasics(objs, versions, m);
    NotHidden(objs, versions, id);
    LiveUpdated(objs, Hidden(versions), m, id, o, c);
    ContentsUnhidden(versions, m, id, c);
  }

  lemma AbsPolicy(objs: map<int, Obj>, versions: VersionTable, m: map<int, seq<byte>>, id: int, o: Obj)
    requires Ready(objs, versions, m)
    requires id in objs && id !in Hidden(versions) && o.chunk == objs[id].chunk
    ensures var a := AbsOf(objs, versions, m);
      && id in a.objects
      && AbsOf(objs[id := o], versions, m)
         == a.(objects := a.objects[id := a.objects[id].(keep := o.keepVersions, maxAge := o.maxAge)])
  {
    var a, b := AbsOf(objs, versions, m), AbsOf(objs[id := o], versions, m);
    assert b.objects == a.objects[id := a.objects[id].(keep := o.keepVersions, maxAge := o.maxAge)];
    assert b.versions == a.versions;
  }

  lemma AbsDropVersions(objs: map<int, Obj>, versions: VersionTable, m: map<int, seq<byte>>, gone: set<VerKey>)
    requires Ready(objs, versions, m) && gone <= versions.Keys
    ensures var snaps := Snapshots(versions, gone);
      && Ready(objs - snaps, versions - gone, m - snaps)
      && AbsOf(objs - snaps, versions - gone, m - snaps)
         == AbsOf(objs, versions, m).(versions := AbsOf(objs, versions, m).versions - gone)
  {
    hide LiveObjects, VersionContents, VersionInv, Hidden, Snapshots;
    var snaps := Snapshots(versions, gone);
    DropVersionsInv(objs, versions, gone);
    SnapshotsHidden(versions, gone);
    LiveWithout(objs, Hidden(versions), m, snaps);
    ContentsWithout(objs, versions, m, gone);
  }

  lemma SnapshotsHidden(versions: VersionTable, gone: set<VerKey>)
    requires gone <= versions.Keys
    ensures Snapshots(versions, gone) <= Hidden(versions)
  {
  }

  lemma LiveWithout(objs: map<int, Obj>, hidden: set<int>, m: map<int, seq<byte>>, snaps: set<int>)
    requires snaps <= hidden
    ensures LiveObjects(objs - snaps, hidden - snaps, m - snaps) == LiveObjects(objs, hidden, m)
  {
  }

  lemma ContentsWithout(objs: map<int, Obj>, versions: VersionTable, m: map<int, seq<byte>>, gone: set<VerKey>)
    requires VersionInv(objs, versions) && gone <= versions.Keys
    ensures VersionContents(versions - gone, m - Snapshots(versions, gone)) == VersionContents(versions, m) - gone
  {
    DropVersionsInv(objs, versions, gone);
  }

  lemma AbsRecord(objs: map<int, Obj>, versions: VersionTable, m: map<int, seq<byte>>, id: int, no: int, taken: int,
                  snap: int)
    requires Ready(objs, versions, m)
    requires id in objs && id !in Hidden(versions) && snap !in objs
    requires IsNextNo(versions.Keys, id, no)
    ensures var vs := versions[Ver(id, no) := VerRow(taken, snap)];
      var a := AbsOf(objs, versions, m);
      && Ready(objs[snap := objs[id]], vs, m[snap := m[id]])
      && AbsOf(objs[snap := objs[id]], vs, m[snap := m[id]])
         == a.(versions := a.versions[Ver(id, no) := AVer(taken, m[id], snap)])
  {
    hide LiveObjects, VersionContents, VersionInv, Hidden;
    var v, row := Ver(id, no), VerRow(taken, snap);
    AddVersionInv(objs, versions, v, row, objs[id]);
    LiveWithSnapshot(objs, Hidden(versions), m, snap, objs[id], m[id]);
    ContentsWithSnapshot(objs, versions, m, v, row, m[id]);
  }

  lemma LiveWithSnapshot(objs: map<int, Obj>, hidden: set<int>, m: map<int, seq<byte>>, snap: int, o: Obj, c: seq<byte>)
    requires snap !in objs
    ensures LiveObjects(objs[snap := o], hidden + {snap}, m[snap := c]) == LiveObjects(objs, hidden, m)
  {
  }

  lemma ContentsWithSnapshot(objs: map<int, Obj>, versions: VersionTable, m: map<int, seq<byte>>, v: VerKey,
                             row: VerRow, c: seq<byte>)
    requires VersionInv(objs, versions) && row.snapshot !in objs
    ensures VersionContents(versions[v := row], m[row.snapshot := c])
         == VersionContents(versions, m)[v := AVer(row.createdAt, c, row.snapshot)]
  {
  }

  lemma AbsDelete(objs: map<int, Obj>, versions: VersionTable, m: map<int, seq<byte>>, id: int)
    requires Ready(objs, versions, m)
    requires id in objs && id !in Hidden(versions)
    ensures var gone := VersionsOf(versions.Keys, id);
      var snaps := Snapshots(versions, gone);
      var a := AbsOf(objs, versions, m);
      AbsOf((objs - {id}) - snaps, versions - gone, (m - {id}) - snaps) == Abs(a.objects - {id}, a.versions - gone)
  {
    hide LiveObjects, VersionContents, VersionInv, Hidden, Snapshots;
    var gone := VersionsOf(versions.Keys, id);
    var snaps := Snapshots(versions, gone);
    AbsDropVersions(objs, versions, m, gone);
    assert (objs - {id}) - snaps == (objs - snaps) - {id};
    assert (m - {id}) - snaps == (m - snaps) - {id};
    LiveWithoutOne(objs - snaps, Hidden(versions - gone), m - snaps, id);
    DropVersionsInv(objs, versions, gone);
    ContentsWithoutLive(versions - gone, m - snaps, id);
  }

  lemma LiveWithoutOne(objs: map<int, Obj>, hidden: set<int>, m: map<int, seq<byte>>, id: int)
    ensures LiveObjects(objs - {id}, hidden, m - {id}) == LiveObjects(objs, hidden, m) - {id}
  {
  }

  lemma ContentsWithoutLive(versions: VersionTable, m: map<int, seq<byte>>, id: int)
    requires id !in Hidden(versions)
    ensures VersionContents(versions, m - {id}) == VersionContents(versions, m)
  {
    assert forall v :: v in versions ==> versions[v].snapshot in Hidden(versions);
  }

  // ---- every call of the store is a step of the specification ----

  ghost function A(s: Store): Abs
    reads s
  {
    AbsOf(s.objs, s.versions, s.Meaning())
  }

  ghost predicate Good(s: Store)
    reads s
  {
    s.Inv() && !s.readOnly
  }

  lemma StoreReady(s: Store)
    requires s.Inv()
    ensures Ready(s.objs, s.versions, s.Meaning())
    ensures A(s).objects.Keys == s.objs.Keys - Hidden(s.versions)
    ensures forall id :: id in A(s).objects ==>
      A(s).objects[id] == AObj(s.Meaning()[id], s.objs[id].chunk, s.objs[id].keepVersions, s.objs[id].maxAge)
    ensures A(s).versions.Keys == s.versions.Keys && AStamps(A(s).versions) == Stamps(s.versions)
    ensures HiddenIn(A(s)) == Hidden(s.versions)
    ensures forall v :: v in s.versions ==> s.versions[v].snapshot in s.Meaning()
    ensures forall v :: v in s.versions ==> A(s).versions[v].content == s.Meaning()[s.versions[v].snapshot]
  {
    MeaningKeys(s);
    AbsBasics(s.objs, s.versions, s.Meaning());
  }

  lemma MeaningKeys(s: Store)
    requires s.Inv()
    ensures s.Meaning().Keys == s.objs.Keys
  {
    assert forall id :: id in s.objs ==> MetaOk(s.objs[id]);
  }

  lemma SameKeysInv(objs: map<int, Obj>, versions: VersionTable, id: int, o: Obj)
    requires VersionInv(objs, versions)
    ensures VersionInv(objs[id := o], versions)
  {
  }

  method ApplyCreate(s: Store, override: Option<int>, keep: int, maxAge: int) returns (out: Out)
    requires Good(s)
    modifies s
    ensures Good(s) && Step(old(A(s)), Create(s.chunkSize, override, keep, maxAge), out, A(s))
  {
    hide Store.Inv0, AbsOf, VersionInv, Hidden;
    StoreReady(s);
    var id, err := s.Create(override, keep, maxAge);
    ghost var o := CreatedRow(s.chunkSize, s.compression, override, keep, maxAge);
    AbsNew(old(s.objs), s.versions, old(s.Meaning()), id, o, []);
    SameKeysInv(old(s.objs), s.versions, id, o);
    return Made(id);
  }

  /** One object's bytes changed, and nothing else the specification sees. */
  lemma ContentRefines(objs: map<int, Obj>, versions: VersionTable, m: map<int, seq<byte>>,
                       objs': map<int, Obj>, m': map<int, seq<byte>>, id: int, size: int, c: seq<byte>)
    requires Ready(objs, versions, m) && id in objs && id !in Hidden(versions)
    requires objs' == objs[id := objs[id].(size := size)] && m' == m[id := c]
    ensures VersionInv(objs', versions)
    ensures ContentStep(AbsOf(objs, versions, m), id, None, Some(c), Done(None), AbsOf(objs', versions, m'))
  {
    AbsContent(objs, versions, m, id, objs[id].(size := size), c);
    SameKeysInv(objs, versions, id, objs[id].(size := size));
  }

  lemma LiveIff(s: Store, id: int)
    requires s.Inv() && id !in Hidden(s.versions)
    ensures Ready(s.objs, s.versions, s.Meaning())
    ensures id in A(s).objects <==> id in s.objs
    ensures id in s.objs ==> id in s.Meaning()
    ensures id in s.objs ==>
      A(s).objects[id] == AObj(s.Meaning()[id], s.objs[id].chunk, s.objs[id].keepVersions, s.objs[id].maxAge)
  {
    StoreReady(s);
  }

  method ApplyWrite(s: Store, id: int, p: Buffer, off: Int64) returns (out: Out)
    requires Good(s) && id !in Hidden(s.versions)
    modifies s
    ensures Good(s) && WriteStep(old(A(s)), id, p, off, out, A(s))
  {
    hide Store.Inv0, Store.Meaning, AbsOf, VersionInv, Hidden, Splice, SetContent;
    LiveIff(s, id);
    var n, err := s.WriteAt(id, p, off);
    if err.None? && p != [] {
      ContentRefines(old(s.objs), s.versions, old(s.Meaning()), s.objs, s.Meaning(), id, s.objs[id].size,
        Splice(old(s.Meaning())[id], off, p));
    }
    return Done(err);
  }

  method ApplyBatch(s: Store, id: int, patches: seq<Patch>, giveUp: bool) returns (out: Out)
    requires Good(s) && id !in Hidden(s.versions)
    modifies s
    ensures Good(s) && BatchStepped(old(A(s)), id, patches, giveUp, out, A(s))
  {
    hide Store.Inv0, Store.Meaning, AbsOf, VersionInv, Hidden, BatchMeaning, BatchError, CallbackError, SetContent;
    LiveIff(s, id);
    var err := s.Batch(id, patches, giveUp);
    if err.None? {
      ContentRefines(old(s.objs), s.versions, old(s.Meaning()), s.objs, s.Meaning(), id, s.objs[id].size,
        BatchMeaning(old(s.Meaning())[id], patches));
    }
    return Done(err);
  }

  method ApplyTruncate(s: Store, id: int, size: Int64) returns (out: Out)
    requires Good(s) && id !in Hidden(s.versions)
    modifies s
    ensures Good(s) && TruncateStep(old(A(s)), id, size, out, A(s))
  {
    hide Store.Inv0, Store.Meaning, AbsOf, VersionInv, Hidden, TruncateMeaning, SetContent;
    LiveIff(s, id);
    var err := s.Truncate(id, size);
    if err.None? {
      ContentRefines(old(s.objs), s.versions, old(s.Meaning()), s.objs, s.Meaning(), id, size,
        TruncateMeaning(old(s.Meaning())[id], old(s.objs)[id].chunk, size));
    }
    return Done(err);
  }

  method ApplyClone(s: Store, id: int) returns (out: Out)
    requires Good(s) && id !in Hidden(s.versions)
    modifies s
    ensures Good(s) && CloneStep(old(A(s)), id, out, A(s))
  {
    hide Store.Inv0, Store.Meaning, AbsOf, VersionInv, Hidden;
    LiveIff(s, id);
    var dst, err := s.Clone(id);
    if err.Some? {
      return Done(err);
    }
    AbsNew(old(s.objs), s.versions, old(s.Meaning()), dst, old(s.objs)[id], old(s.Meaning())[id]);
    SameKeysInv(old(s.objs), s.versions, dst, old(s.objs)[id]);
    return Made(dst);
  }

  method ApplySetCompression(s: Store, id: int, c: int) returns (out: Out)
    requires Good(s) && id !in Hidden(s.versions)
    modifies s
    ensures Good(s) && Step(old(A(s)), SetCompression(id, c), out, A(s))
  {
    hide Store.Inv0, Store.Loose, Store.Meaning, AbsOf, VersionInv, Hidden, OthersSame, TookAllAnchors, Store.V;
    LiveIff(s, id);
    s.InvIsLoose();
    var err := s.SetCompression(id, c);
    if err.None? {
      AbsPolicy(old(s.objs), s.versions, s.Meaning(), id, s.objs[id]);
      SameKeysInv(old(s.objs), s.versions, id, s.objs[id]);
      assert old(A(s)).objects[id := old(A(s)).objects[id]] == old(A(s)).objects;
    }
    return Done(err);
  }

  method ApplySetRetention(s: Store, id: int, keep: int, maxAge: int) returns (out: Out)
    requires Good(s) && id !in Hidden(s.versions)
    modifies s
    ensures Good(s) && RetentionStep(old(A(s)), id, keep, maxAge, out, A(s))
  {
    hide Store.Inv0, Store.Meaning, AbsOf, VersionInv, Hidden;
    LiveIff(s, id);
    var err := s.SetRetention(id, keep, maxAge);
    if err.None? {
      AbsPolicy(old(s.objs), s.versions, s.Meaning(), id, old(s.objs)[id].(keepVersions := keep, maxAge := maxAge));
    }
    return Done(err);
  }

  method ApplyDelete(s: Store, id: int) returns (out: Out)
    requires Good(s) && id !in Hidden(s.versions)
    modifies s
    ensures Good(s) && DeleteStep(old(A(s)), id, out, A(s))
  {
    hide Store.Inv0, Store.Meaning, AbsOf, VersionInv, Hidden, Snapshots, VersionsOf;
    StoreReady(s);
    LiveIff(s, id);
    var err := s.Delete(id);
    if err.None? {
      AbsDelete(old(s.objs), old(s.versions), old(s.Meaning()), id);
    }
    return Done(err);
  }

  method ApplyPrune(s: Store, id: int, now: int) returns (out: Out)
    requires Good(s) && id !in Hidden(s.versions)
    modifies s
    ensures Good(s) && out == Done(None) && A(s) == PruneAbs(old(A(s)), id, now)
  {
    hide Store.Inv0, Store.Meaning, AbsOf, VersionInv, Hidden, Snapshots, Doomed, AStamps, Stamps;
    StoreReady(s);
    LiveIff(s, id);
    ghost var gone := s.PruneSet(id, now);
    if id in s.objs { DoomedPresent(s.versions, id, s.objs[id].keepVersions, s.objs[id].maxAge, now); }
    AbsDropVersions(s.objs, s.versions, s.Meaning(), gone);
    NoVersionsDropped(A(s));
    var err := s.Prune(id, now);
    return Done(err);
  }

  lemma NoVersionsDropped(a: Abs)
    ensures a.(versions := a.versions - {}) == a
  {
    assert a.versions - {} == a.versions;
  }

  lemma DoomedPresent(versions: VersionTable, id: int, keep: int, maxAge: int, now: int)
    ensures Doomed(Stamps(versions), id, keep, maxAge, now) <= versions.Keys
  {
  }

  method ApplyNewVersion(s: Store, id: int, taken: int, swept: int) returns (out: Out)
    requires Good(s) && id !in Hidden(s.versions)
    modifies s
    ensures Good(s) && VersionStep(old(A(s)), id, taken, swept, out, A(s))
  {
    hide Store.Inv0, Store.Meaning, AbsOf, VersionInv, Hidden, Snapshots, Doomed, AStamps, Stamps, IsNextNo, HiddenIn;
    StoreReady(s);
    LiveIff(s, id);
    var no, err, snap := s.NewVersion(id, taken, swept);
    if err.Some? {
      return Done(err);
    }
    NewVersionRefines(old(s.objs), old(s.versions), old(s.Meaning()), id, no, taken, swept, snap);
    return Numbered(no);
  }

  lemma NewVersionRefines(objs: map<int, Obj>, versions: VersionTable, m: map<int, seq<byte>>,
                          id: int, no: int, taken: int, swept: int, snap: int)
    requires Ready(objs, versions, m)
    requires id in objs && id !in Hidden(versions) && snap !in objs
    requires IsNextNo(versions.Keys, id, no)
    ensures var recorded := versions[Ver(id, no) := VerRow(taken, snap)];
      var gone := Doomed(Stamps(recorded), id, objs[id].keepVersions, objs[id].maxAge, swept);
      var a := AbsOf(objs, versions, m);
      && gone <= recorded.Keys
      && AbsOf(objs[snap := objs[id]] - Snapshots(recorded, gone), recorded - gone,
               m[snap := m[id]] - Snapshots(recorded, gone))
         == PruneAbs(a.(versions := a.versions[Ver(id, no) := AVer(taken, m[id], snap)]), id, swept)
      && id in a.objects && a.objects[id].content == m[id] && Unused(a, snap)
  {
    hide LiveObjects, VersionContents, VersionInv, Hidden, Snapshots, Doomed, IsNextNo, HiddenIn;
    NotHidden(objs, versions, snap);
    var recorded := versions[Ver(id, no) := VerRow(taken, snap)];
    var objs1, m1 := objs[snap := objs[id]], m[snap := m[id]];
    AbsBasics(objs, versions, m);
    AbsRecord(objs, versions, m, id, no, taken, snap);
    AbsBasics(objs1, recorded, m1);
    var gone := Doomed(Stamps(recorded), id, objs[id].keepVersions, objs[id].maxAge, swept);
    DoomedPresent(recorded, id, objs[id].keepVersions, objs[id].maxAge, swept);
    AbsDropVersions(objs1, recorded, m1, gone);
  }

  method ApplyRead(s: Store, id: int, want: Length, off: Int64) returns (out: Out)
    requires Good(s) && id !in Hidden(s.versions)
    ensures ReadStep(A(s), id, want, off, out, A(s))
  {
    hide Store.Inv0, Store.Meaning, AbsOf, VersionInv, Hidden, ReadsAs;
    LiveIff(s, id);
    s.InvIsLoose();
    var buf := new byte[want];
    var n, err := s.ReadAt(id, buf, off);
    return Data(n, buf[..n], err);
  }

  method ApplyReadVersion(s: Store, id: int, no: int, want: Length, off: Int64) returns (out: Out)
    requires Good(s)
    ensures ReadVersionStep(A(s), id, no, want, off, out, A(s))
  {
    hide Store.Inv0, Store.Meaning, AbsOf, VersionInv, Hidden, ReadsAs;
    StoreReady(s);
    var buf := new byte[want];
    var n, err := s.ReadVersion(id, no, buf, off);
    return Data(n, buf[..n], err);
  }

  method ApplyList(s: Store) returns (out: Out)
    requires Good(s)
    ensures ListStep(A(s), out, A(s))
  {
    hide Store.Inv0, Store.Meaning, AbsOf, VersionInv;
    StoreReady(s);
    var ids := s.List();
    return Ids(ids);
  }

  method Apply(s: Store, op: Op) returns (out: Out)
    requires Good(s) && Legal(A(s), op) && (op.Create? ==> op.chunk == s.chunkSize)
    modifies s
    ensures Good(s) && Step(old(A(s)), op, out, A(s))
  {
    hide Store.Inv0, Store.Meaning, AbsOf, VersionInv, Hidden, WriteStep, BatchStepped, TruncateStep, CloneStep,
      RetentionStep, DeleteStep, VersionStep, ReadStep, ReadVersionStep, ListStep, PruneAbs, HiddenIn;
    StoreReady(s);
    match op {
      case Create(_, override, keep, maxAge) => out := ApplyCreate(s, override, keep, maxAge);
      case Write(i, p, off) => out := ApplyWrite(s, i, p, off);
      case Batched(i, patches, giveUp) => out := ApplyBatch(s, i, patches, giveUp);
      case Truncate(i, size) => out := ApplyTruncate(s, i, size);
      case Clone(i) => out := ApplyClone(s, i);
      case SetCompression(i, c) => out := ApplySetCompression(s, i, c);
      case SetRetention(i, keep, maxAge) => out := ApplySetRetention(s, i, keep, maxAge);
      case Delete(i) => out := ApplyDelete(s, i);
      case NewVersion(i, taken, swept) => out := ApplyNewVersion(s, i, taken, swept);
      case Prune(i, now) => out := ApplyPrune(s, i, now);
      case Read(i, want, off) => out := ApplyRead(s, i, want, off);
      case ReadVersion(i, no, want, off) => out := ApplyReadVersion(s, i, no, want, off);
      case List => out := ApplyList(s);
    }
  }

  /** Every history of calls, from any good state: the answers are a run of the
      specification machine up to the first call that names a hidden id, and every
      reached state has exact reference counts, a current hash index, zero tails and
      sound version rows (`Store.Inv`). */
  method RunOn(s: Store, ops: seq<Op>) returns (outs: seq<Out>, ghost trace: seq<Abs>)
    requires Good(s)
    modifies s
    ensures Good(s)
    ensures Follows(trace, On(s.chunkSize, ops), outs)
    ensures trace[0] == old(A(s)) && trace[|outs|] == A(s)
  {
    hide Store.Inv, A, IsTrace, Legal;
    trace := [A(s)];
    outs := [];
    NoSteps(trace);
    var calls := On(s.chunkSize, ops);
    for i := 0 to |calls|
      invariant Good(s)
      invariant |outs| == i && |trace| == i + 1 && trace[0] == old(A(s)) && trace[i] == A(s)
      invariant IsTrace(trace, calls[..i], outs)
    {
      LegalIff(s, calls[i]);
      if Named(calls[i]).Some? && Named(calls[i]).value in Hidden(s.versions) {
        return;
      }
      var out := Apply(s, calls[i]);
      OneMoreStep(trace, calls, i, outs, out, A(s));
      outs := outs + [out];
      trace := trace + [A(s)];
    }
  }

  lemma LegalIff(s: Store, op: Op)
    requires s.Inv()
    ensures Legal(A(s), op) <==> Named(op).None? || Named(op).value !in Hidden(s.versions)
  {
    hide Store.Inv0, Store.Meaning, AbsOf, VersionInv, Hidden, HiddenIn;
    StoreReady(s);
  }

  /** Refinement: every history of calls on a fresh store - whatever the compressor,
      the default mode, the chunk size and the dedup flag - is answered as the
      specification machine answers it, for as long as no call names a hidden id. */
  method Run(env: Env, dedup: bool, compression: int, chunkSize: int, ops: seq<Op>) returns (outs: seq<Out>)
    requires env.Sound() && 0 < chunkSize <= MAX_CHUNK
    ensures Answers(On(chunkSize, ops), outs)
  {
    hide Store.Inv, A, Follows;
    var s := new Store(env, dedup, compression, false, chunkSize);
    EmptyAbs(s);
    ghost var trace;
    outs, trace := RunOn(s, ops);
  }

  lemma NoSteps(trace: seq<Abs>)
    requires |trace| == 1
    ensures IsTrace(trace, [], [])
  {
  }

  lemma OneMoreStep(trace: seq<Abs>, ops: seq<Op>, i: nat, outs: seq<Out>, out: Out, b: Abs)
    requires i < |ops| && |outs| == i && |trace| == i + 1
    requires IsTrace(trace, ops[..i], outs)
    requires Legal(trace[i], ops[i]) && Step(trace[i], ops[i], out, b)
    ensures IsTrace(trace + [b], ops[..i + 1], outs + [out])
  {
    hide Step, Legal;
    var longer := ops[..i + 1];
    forall j | 0 <= j < i + 1
      ensures Legal((trace + [b])[j], longer[j])
      ensures Step((trace + [b])[j], longer[j], (outs + [out])[j], (trace + [b])[j + 1])
    {
      if j < i {
        assert longer[j] == ops[..i][j];
      }
    }
  }

  lemma EmptyAbs(s: Store)
    requires s.objs == map[] && s.versions == map[]
    ensures A(s) == EMPTY
  {
    assert A(s).objects == map[];
    assert A(s).versions == map[];
  }
}
