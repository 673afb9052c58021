/** The in-process advisory file lock (vfs/advisorylock.go): SQLite's five lock
    levels, arbitrated among any number of handles on one file. */
module FileLock {
  import opened Bytes

  const NONE := 0
  const SHARED := 1
  const RESERVED := 2
  const PENDING := 3
  const EXCLUSIVE := 4

  type Level = l: int | NONE <= l <= EXCLUSIVE

  /** Each handle's level (kept on the handle) and the shared arbiter's two fields. */
  datatype LockState<H> = LockState(levels: map<H, Level>, nShared: int, writer: Option<H>)

  ghost predicate Formed<H>(s: LockState<H>) {
    s.writer.Some? ==> s.writer.value in s.levels
  }

  /** Lock: the new state, and whether the request was granted. */
  function LockStep<H(==)>(s: LockState<H>, h: H, level: Level): (LockState<H>, bool)
    requires h in s.levels && Formed(s)
  {
    var cur := s.levels[h];
    if level <= cur then (s, true)
    else if level == SHARED then
      if s.writer.Some? && s.levels[s.writer.value] >= PENDING then (s, false)
      else (s.(nShared := s.nShared + 1, levels := s.levels[h := SHARED]), true)
    else if level == RESERVED then
      if s.writer.Some? && s.writer.value != h then (s, false)
      else (s.(writer := Some(h), levels := s.levels[h := RESERVED]), true)
    else
      if s.writer.Some? && s.writer.value != h then (s, false)
      else
        var held := if cur >= SHARED then 1 else 0;
        if s.nShared > held then (s.(writer := Some(h), levels := s.levels[h := PENDING]), false)
        else (s.(writer := Some(h), levels := s.levels[h := level]), true)
  }

  function UnlockStep<H(==)>(s: LockState<H>, h: H, level: Level): LockState<H>
    requires h in s.levels
  {
    var cur := s.levels[h];
    if level >= cur then s
    else
      LockState(
        s.levels[h := level],
        if cur >= SHARED && level < SHARED then s.nShared - 1 else s.nShared,
        if cur >= RESERVED && level < RESERVED && s.writer == Some(h) then None else s.writer)
  }

  // ---- safety ----

  ghost function Holders<H>(s: LockState<H>): set<H> {
    set h | h in s.levels && s.levels[h] >= SHARED
  }

  /** nShared counts the holders of SHARED or more; the recorded writer is the one
      handle at RESERVED or more; EXCLUSIVE excludes every other holder. */
  ghost predicate Safe<H>(s: LockState<H>) {
    && s.nShared == |Holders(s)|
    && (forall h :: h in s.levels ==> (s.levels[h] >= RESERVED <==> s.writer == Some(h)))
    && Formed(s)
    && (forall h :: h in s.levels && s.levels[h] == EXCLUSIVE ==> Holders(s) == {h})
  }

  /** What SQLite asks for: RESERVED and above only while holding SHARED. */
  ghost predicate LegalLock<H>(s: LockState<H>, h: H, level: Level)
    requires h in s.levels
  {
    s.levels[h] == NONE ==> level <= SHARED
  }

  lemma OneHolder<H>(s: LockState<H>, h: H)
    requires h in Holders(s) && |Holders(s)| <= 1
    ensures Holders(s) == {h}
  {
    var rest := Holders(s) - {h};
    assert Holders(s) == rest + {h};
    assert |rest| == 0;
  }

  lemma LockKeepsSafe<H>(s: LockState<H>, h: H, level: Level)
    requires Safe(s) && h in s.levels && LegalLock(s, h, level)
    ensures Safe(LockStep(s, h, level).0)
  {
    var t := LockStep(s, h, level).0;
    if s.levels[h] >= SHARED {
      assert h in Holders(s);
      assert Holders(t) == Holders(s);
      if t != s && t.levels[h] == EXCLUSIVE { OneHolder(s, h); }
    } else if t != s {
      assert Holders(t) == Holders(s) + {h};
    }
  }

  lemma UnlockKeepsSafe<H>(s: LockState<H>, h: H, level: Level)
    requires Safe(s) && h in s.levels
    ensures Safe(UnlockStep(s, h, level))
  {
    var t := UnlockStep(s, h, level);
    if s.levels[h] >= SHARED && level < SHARED {
      assert Holders(s) == Holders(t) + {h};
    } else if t != s {
      assert Holders(t) == Holders(s);
    }
  }

  /** The legality SQLite guarantees is exactly what safety needs: a lock request
      keeps the invariant if and only if it is legal or is refused outright. */
  lemma SafeIffLegal<H>(s: LockState<H>, h: H, level: Level)
    requires Safe(s) && h in s.levels
    ensures Safe(LockStep(s, h, level).0) <==> LegalLock(s, h, level) || s.writer.Some?
  {
    var t := LockStep(s, h, level).0;
    if LegalLock(s, h, level) {
      LockKeepsSafe(s, h, level);
    } else if s.writer.None? {
      assert h !in Holders(s) && h in Holders(t);
      assert Holders(t) == Holders(s) + {h};
      assert t.nShared == s.nShared;
    }
  }

  /** CheckReservedLock is exact. */
  lemma ReservedCheckExact<H>(s: LockState<H>)
    requires Safe(s)
    ensures (s.writer.Some? && s.levels[s.writer.value] >= RESERVED) <==>
      exists h :: h in s.levels && s.levels[h] >= RESERVED
  {
  }

  // ---- what each request does to the levels ----

  /** Every other handle is below `bar`. */
  ghost predicate OthersBelow<H>(s: LockState<H>, h: H, bar: int) {
    forall k :: k in s.levels && k != h ==> s.levels[k] < bar
  }

  /** The two fields of the arbiter tell how high the other handles are. */
  lemma OthersByFields<H>(s: LockState<H>, h: H)
    requires Safe(s) && h in s.levels
    ensures Formed(s) && (s.levels[h] < RESERVED ==> s.writer != Some(h))
    ensures OthersBelow(s, h, RESERVED) <==> s.writer.None? || s.writer == Some(h)
    ensures s.levels[h] == NONE ==>
      (OthersBelow(s, h, PENDING) <==> s.writer.None? || s.levels[s.writer.value] < PENDING)
    ensures OthersBelow(s, h, SHARED) <==> s.nShared <= if s.levels[h] >= SHARED then 1 else 0
    ensures OthersBelow(s, h, SHARED) ==> OthersBelow(s, h, RESERVED)
  {
    var others := Holders(s) - {h};
    assert Holders(s) == if s.levels[h] >= SHARED then others + {h} else others;
    if others == {} {
      forall k | k in s.levels && k != h
        ensures s.levels[k] < SHARED
      {
        assert k !in Holders(s) - {h};
      }
    } else {
      var k :| k in others;
      assert s.levels[k] >= SHARED;
    }
  }

  /** A request above the present level is granted if and only if every other handle is low
      enough: SHARED below PENDING, RESERVED below RESERVED, and above that below SHARED. A
      granted request raises the handle to the level asked for; a refused one leaves it, or
      moves it to PENDING when only readers stood in the way. No other handle changes. */
  lemma LockMeans<H>(s: LockState<H>, h: H, level: Level)
    requires Safe(s) && h in s.levels
    ensures var (t, ok) := LockStep(s, h, level);
      var cur := s.levels[h];
      && (ok <==> level <= cur || OthersBelow(s, h, if level == SHARED then 3 else if level == RESERVED then 2 else 1))
      && t.levels.Keys == s.levels.Keys && (forall k :: k in s.levels && k != h ==> t.levels[k] == s.levels[k])
      && t.levels[h] == (if ok then Max(cur, level) else if level >= 3 && OthersBelow(s, h, 2) then 3 else cur)
  {
    hide Safe, OthersBelow;
    OthersByFields(s, h);
  }

  /** A release lowers the handle to the level asked for, or leaves it if that is no lower. The
      handle is then the writer only if it is still above SHARED, and no other handle changes. */
  lemma UnlockMeans<H>(s: LockState<H>, h: H, level: Level)
    requires Safe(s) && h in s.levels
    ensures var t := UnlockStep(s, h, level);
      && t.levels == s.levels[h := Min(s.levels[h], level)]
      && (t.writer == Some(h) <==> Min(s.levels[h], level) >= 2)
      && t.nShared == |Holders(t)|
  {
    UnlockKeepsSafe(s, h, level);
    assert s.levels == s.levels[h := s.levels[h]];
  }

  // ---- runs ----

  datatype Event<H> = Open(h: H) | Close(h: H) | Lock(h: H, level: Level) | Unlock(h: H, level: Level)

  ghost predicate Legal<H>(s: LockState<H>, e: Event<H>) {
    match e
    case Open(h) => h !in s.levels
    case Close(h) => h in s.levels && s.levels[h] == NONE
    case Lock(h, level) => h in s.levels && LegalLock(s, h, level)
    case Unlock(h, _) => h in s.levels
  }

  ghost function Next<H>(s: LockState<H>, e: Event<H>): LockState<H>
    requires Formed(s) && Legal(s, e)
  {
    match e
    case Open(h) => s.(levels := s.levels[h := NONE])
    case Close(h) => s.(levels := s.levels - {h})
    case Lock(h, level) => LockStep(s, h, level).0
    case Unlock(h, level) => UnlockStep(s, h, level)
  }

  ghost predicate IsRun<H>(run: seq<LockState<H>>, es: seq<Event<H>>) {
    && |run| == |es| + 1
    && (forall i {:trigger es[i]} :: 0 <= i < |es| ==>
          Formed(run[i]) && Legal(run[i], es[i]) && run[i + 1] == Next(run[i], es[i]))
  }

  lemma NextKeepsSafe<H>(s: LockState<H>, e: Event<H>)
    requires Safe(s) && Legal(s, e)
    ensures Safe(Next(s, e))
  {
    var t := Next(s, e);
    match e
    case Open(h) =>
      assert Holders(t) == Holders(s);
      assert forall k :: k in s.levels ==> t.levels[k] == s.levels[k];
    case Close(h) =>
      assert Holders(t) == Holders(s);
    case Lock(h, level) => LockKeepsSafe(s, h, level);
    case Unlock(h, level) => UnlockKeepsSafe(s, h, level);
  }

  /** Safety over every run: any number of handles, any legal requests. */
  lemma {:induction false} RunsAreSafe<H>(run: seq<LockState<H>>, es: seq<Event<H>>, i: nat)
    requires IsRun(run, es) && run[0] == LockState(map[], 0, None)
    requires i < |run|
    ensures Safe(run[i])
    decreases i
  {
    if i > 0 {
      RunsAreSafe(run, es, i - 1);
      var e := es[i - 1];
      NextKeepsSafe(run[i - 1], e);
    } else {
      assert Holders(run[0]) == {};
    }
  }

  // ---- the pending writer makes progress ----

  ghost function Others<H>(s: LockState<H>, h: H): set<H> {
    Holders(s) - {h}
  }

  /** While `h` stays at PENDING, no other handle gains SHARED. */
  lemma PendingAdmitsNoReader<H>(s: LockState<H>, e: Event<H>, h: H)
    requires Safe(s) && Legal(s, e)
    requires h in s.levels && s.levels[h] == PENDING
    ensures Others(Next(s, e), h) <= Others(s, h)
  {
    assert s.writer == Some(h);
  }

  lemma {:induction false} PendingOthersShrink<H>(run: seq<LockState<H>>, es: seq<Event<H>>, h: H, i: nat, j: nat)
    requires IsRun(run, es) && run[0] == LockState(map[], 0, None)
    requires i <= j < |run|
    requires forall k :: i <= k <= j ==> h in run[k].levels && run[k].levels[h] == PENDING
    ensures Others(run[j], h) <= Others(run[i], h)
    decreases j
  {
    if i < j {
      PendingOthersShrink(run, es, h, i, j - 1);
      RunsAreSafe(run, es, j - 1);
      var e := es[j - 1];
      PendingAdmitsNoReader(run[j - 1], e, h);
    }
  }

  /** The EXCLUSIVE retry of a pending writer succeeds exactly when the last other
      reader has left. */
  lemma PendingRetry<H>(s: LockState<H>, h: H)
    requires Safe(s) && h in s.levels && s.levels[h] == PENDING
    ensures LockStep(s, h, EXCLUSIVE).1 <==> Others(s, h) == {}
    ensures Others(s, h) == {} ==> LockStep(s, h, EXCLUSIVE).0.levels[h] == EXCLUSIVE
  {
    assert h in Holders(s);
    assert Holders(s) == Others(s, h) + {h};
  }

  /** A refused request changes nothing, except that a handle refused EXCLUSIVE (or
      PENDING) by readers alone is left at PENDING as the recorded writer. */
  lemma RefusalIsInert<H>(s: LockState<H>, h: H, level: Level)
    requires Safe(s) && h in s.levels && LegalLock(s, h, level) && !LockStep(s, h, level).1
    ensures var t := LockStep(s, h, level).0;
      || t == s
      || ( && level >= PENDING && Others(s, h) != {} && (s.writer.None? || s.writer == Some(h))
           && t == s.(writer := Some(h), levels := s.levels[h := PENDING]))
  {
    assert h in Holders(s) ==> Holders(s) == Others(s, h) + {h};
  }

  // ---- the objects ----

  /** A file handle: its own level, updated through a pointer by the arbiter. */
  class Handle {
    var level: Level

    constructor ()
      ensures level == NONE
    {
      level := NONE;
    }
  }

  /** The arbiter shared by every handle of one file. The recorded writer's level is
      read through the writer. */
  class AdvisoryLock {
    var nShared: int
    var writer: Handle?
    ghost var handles: set<Handle>

    ghost function View(): LockState<Handle>
      reads this, handles
    {
      LockState(map h | h in handles :: h.level, nShared,
        if writer == null then None else var w: Handle := writer; Some(w))
    }

    ghost predicate Valid()
      reads this, handles
    {
      Safe(View())
    }

    constructor ()
      ensures View() == LockState(map[], 0, None) && handles == {}
    {
      nShared, writer, handles := 0, null, {};
    }

    method Attach(h: Handle)
      requires h !in handles && h.level == NONE && Valid()
      modifies this`handles
      ensures Valid() && handles == old(handles) + {h}
      ensures View() == old(View()).(levels := old(View()).levels[h := NONE])
    {
      NextKeepsSafe(View(), Open(h));
      handles := handles + {h};
      assert View().levels == old(View()).levels[h := NONE];
    }

    method Lock(self: Handle, level: Level) returns (ok: bool)
      requires Formed(View()) && self in handles
      modifies this`nShared, this`writer, self
      ensures (View(), ok) == LockStep(old(View()), self, level)
      ensures old(Valid() && LegalLock(View(), self, level)) ==> Valid()
    {
      if Valid() && LegalLock(View(), self, level) {
        LockKeepsSafe(View(), self, level);
      }
      if level <= self.level {
        return true;
      }
      if level == SHARED {
        if writer != null && writer.level >= PENDING {
          return false;
        }
        nShared := nShared + 1;
        self.level := SHARED;
        ok := true;
      } else if level == RESERVED {
        if writer != null && writer != self {
          return false;
        }
        writer := self;
        self.level := RESERVED;
        ok := true;
      } else {
        if writer != null && writer != self {
          return false;
        }
        writer := self;
        var held := if self.level >= SHARED then 1 else 0;
        if nShared > held {
          self.level := PENDING;
          ok := false;
        } else {
          self.level := level;
          ok := true;
        }
      }
      assert View().levels == old(View()).levels[self := self.level];
    }

    method Unlock(self: Handle, level: Level)
      requires self in handles
      modifies this`nShared, this`writer, self
      ensures View() == UnlockStep(old(View()), self, level)
      ensures old(Valid()) ==> Valid()
    {
      if Valid() {
        UnlockKeepsSafe(View(), self, level);
      }
      if level >= self.level {
        return;
      }
      if self.level >= RESERVED && level < RESERVED && writer == self {
        writer := null;
      }
      if self.level >= SHARED && level < SHARED {
        nShared := nShared - 1;
      }
      self.level := level;
      assert View().levels == old(View()).levels[self := self.level];
    }

    method CheckReservedLock() returns (held: bool)
      requires Valid()
      ensures held <==> exists h :: h in handles && h.level >= RESERVED
    {
      ReservedCheckExact(View());
      held := writer != null && writer.level >= RESERVED;
      assert forall h :: h in handles ==> View().levels[h] == h.level;
    }
  }
}
