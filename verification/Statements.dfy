/** Ownership of prepared-statement handles and their C strings on one connection
    (stmt_cache.go, stmt.go, rows.go, and the query and Close paths of conn.go). */
module Statements {
  import opened Bytes

  // ---- cache keys ----

  /** Unicode white space, as strings.TrimSpace sees it. */
  predicate IsSpace(c: char) {
    || c == ' ' || ('\U{0009}' <= c <= '\U{000d}') || c == '\U{0085}' || c == '\U{00a0}' || c == '\U{1680}'
    || ('\U{2000}' <= c <= '\U{200a}') || c == '\U{2028}' || c == '\U{2029}' || c == '\U{202f}'
    || c == '\U{205f}' || c == '\U{3000}'
  }

  function TrimLeft(s: string): string {
    if s != [] && IsSpace(s[0]) then TrimLeft(s[1..]) else s
  }

  function TrimRight(s: string): string {
    if s != [] && IsSpace(s[|s| - 1]) then TrimRight(s[..|s| - 1]) else s
  }

  /** normalize: the cache key of a statement. */
  function Normalize(sql: string): string {
    TrimRight(TrimLeft(sql))
  }

  predicate Trimmed(s: string) {
    s != [] ==> !IsSpace(s[0]) && !IsSpace(s[|s| - 1])
  }

  predicate AllSpace(s: string) {
    forall i :: 0 <= i < |s| ==> IsSpace(s[i])
  }

  lemma {:induction false} TrimLeftIs(s: string) returns (i: nat)
    ensures i <= |s| && TrimLeft(s) == s[i..] && AllSpace(s[..i])
    ensures i < |s| ==> !IsSpace(s[i])
    decreases |s|
  {
    i := 0;
    if s != [] && IsSpace(s[0]) {
      var j := TrimLeftIs(s[1..]);
      i := j + 1;
      assert s[1..][j..] == s[i..] && s[..i] == [s[0]] + s[1..][..j];
    }
  }

  lemma {:induction false} TrimRightIs(s: string) returns (j: nat)
    ensures j <= |s| && TrimRight(s) == s[..j] && AllSpace(s[j..])
    ensures j > 0 ==> !IsSpace(s[j - 1])
    decreases |s|
  {
    j := |s|;
    if s != [] && IsSpace(s[|s| - 1]) {
      var front := s[..|s| - 1];
      j := TrimRightIs(front);
      assert front[..j] == s[..j] && s[j..] == front[j..] + [s[|s| - 1]];
    }
  }

  /** `s[i..j]` is `s` without some white space before it and after it. */
  predicate Within(s: string, i: int, j: int) {
    0 <= i <= j <= |s| && AllSpace(s[..i]) && AllSpace(s[j..])
  }

  lemma NormalizeSlice(sql: string) returns (i: int, j: int)
    ensures Within(sql, i, j) && Normalize(sql) == sql[i..j] && Trimmed(sql[i..j])
  {
    i := TrimLeftIs(sql);
    var n := TrimRightIs(sql[i..]);
    j := i + n;
    assert sql[i..][..n] == sql[i..j] && sql[i..][n..] == sql[j..];
  }

  /** A key is its text without the white space around it, and normalizing it again changes nothing. */
  lemma NormalizeIs(sql: string)
    ensures Trimmed(Normalize(sql))
    ensures exists i, j :: Within(sql, i, j) && Normalize(sql) == sql[i..j]
    ensures Normalize(Normalize(sql)) == Normalize(sql)
  {
    var i, j := NormalizeSlice(sql);
  }

  lemma {:induction false} DropLeft(s: string, i: int)
    requires 0 <= i <= |s| && AllSpace(s[..i])
    ensures TrimLeft(s) == TrimLeft(s[i..])
    decreases i
  {
    if i > 0 {
      assert IsSpace(s[..i][0]);
      assert s[1..][..i - 1] == s[..i][1..] && s[1..][i - 1..] == s[i..];
      DropLeft(s[1..], i - 1);
    } else {
      assert s[i..] == s;
    }
  }

  lemma {:induction false} DropRight(s: string, j: int)
    requires 0 <= j <= |s| && AllSpace(s[j..])
    ensures TrimRight(s) == TrimRight(s[..j])
    decreases |s|
  {
    if j < |s| {
      var front := s[..|s| - 1];
      assert IsSpace(s[j..][|s| - 1 - j]);
      assert s[j..] == front[j..] + [s[|s| - 1]] && front[..j] == s[..j];
      DropRight(front, j);
    } else {
      assert s[..j] == s;
    }
  }

  lemma KeyIgnoresTail(s: string, n: int)
    requires 0 <= n <= |s| && AllSpace(s[n..])
    ensures Normalize(s) == Normalize(s[..n])
  {
    hide IsSpace, AllSpace;
    var head := s[..n];
    var k := TrimLeftIs(head);
    assert s[..k] == head[..k];
    DropLeft(s, k);
    DropRight(s[k..], n - k) by { assert s[k..][n - k..] == s[n..]; }
    assert s[k..][..n - k] == head[k..];
    if k < n {
      assert !IsSpace(s[k..][0]);
    } else {
      AllTrimmed(s[k..]);
    }
  }

  lemma {:induction false} AllTrimmed(s: string)
    requires AllSpace(s)
    ensures TrimLeft(s) == []
  {
    assert s[..|s|] == s;
    DropLeft(s, |s|);
  }

  /** White space around a text does not enter its key. */
  lemma KeyIgnoresSpace(s: string, i: int, j: int)
    requires Within(s, i, j)
    ensures Normalize(s) == Normalize(s[i..j])
  {
    hide IsSpace;
    DropLeft(s, i);
    assert s[i..][j - i..] == s[j..] && s[i..][..j - i] == s[i..j];
    KeyIgnoresTail(s[i..], j - i);
  }

  /** Two texts share a key if and only if they differ only in the white space around them. */
  lemma SameKeyIff(a: string, b: string)
    ensures Normalize(a) == Normalize(b) <==>
      exists i, j, k, l :: Within(a, i, j) && Within(b, k, l) && a[i..j] == b[k..l]
  {
    var i, j := NormalizeSlice(a);
    var k, l := NormalizeSlice(b);
    forall i, j, k, l | Within(a, i, j) && Within(b, k, l) && a[i..j] == b[k..l]
      ensures Normalize(a) == Normalize(b)
    {
      KeyIgnoresSpace(a, i, j);
      KeyIgnoresSpace(b, k, l);
    }
  }

  // ---- the objects ----

  /** Zero is the nil handle and the nil string. The C heap reuses addresses, so a text is named by
      the serial number of its allocation and a statement object by that of its creation. */
  datatype Entry = Entry(psql: int, pstmt: int)
  datatype Stmt = Stmt(psql: int, pstmt: int, cacheKey: string)

  /** `from` is the statement object whose query opened the result set. */
  datatype Rows = Rows(pstmt: int, reuse: bool, empty: bool, from: int)

  datatype Owner = ByStmt(s: int) | ByCache(key: string) | ByRows(r: int) | InFlight

  /** What newStmt's own sqlite3_prepare yields; a handle with a tail is the head of a script,
      and finalizing it may report an error. */
  datatype Prepared = NoMemory | Fails | Blank | Handle | Head(finalizeFails: bool)

  predicate FailsToPrepare(o: Prepared) {
    o.NoMemory? || o.Fails? || (o.Head? && o.finalizeFails)
  }

  datatype Outcome = Row | Done | Error

  /** One statement of a script: prepared, stepped, finalized (which may report an error). */
  datatype Piece = Unpreparable | Comment | Stepped(rc: Outcome, finalizeFails: bool)

  // ---- what a script does, said of the whole script ----

  /** Some piece stops a query: it cannot be prepared, its step fails, or it is a statement without
      rows, neither the first nor the last to run, whose finalize reports an error. */
  predicate QueryFails(ps: seq<Piece>) {
    exists i :: 0 <= i < |ps| && Stops(ps, i)
  }

  predicate Stops(ps: seq<Piece>, i: int)
    requires 0 <= i < |ps|
  {
    || ps[i].Unpreparable?
    || (ps[i].Stepped? && ps[i].rc == Error)
    || (ps[i] == Stepped(Done, true) && i < |ps| - 1 && AnyStepped(ps[..i]))
  }

  predicate AnyStepped(ps: seq<Piece>) {
    exists i :: 0 <= i < |ps| && ps[i].Stepped?
  }

  predicate AnyRow(ps: seq<Piece>) {
    exists i :: 0 <= i < |ps| && ps[i].Stepped? && ps[i].rc == Row
  }

  /** A query shows the rows of its last piece when that is a statement, and otherwise the rows of
      the last statement that had any. */
  predicate ShowsRows(ps: seq<Piece>) {
    if ps != [] && ps[|ps| - 1].Stepped? then ps[|ps| - 1].rc == Row else AnyRow(ps)
  }

  predicate HasRow(p: Piece) {
    p.Stepped? && p.rc == Row
  }

  /** Piece `k` is the one a query over `ps` shows: the last piece when that is a statement, else the
      last with rows, else the first statement. */
  predicate Chosen(ps: seq<Piece>, k: int) {
    0 <= k < |ps| && (if ps[|ps| - 1].Stepped? then k == |ps| - 1 else Kept(ps, k))
  }

  /** The one it has kept before the end is in sight. */
  predicate Kept(ps: seq<Piece>, k: int) {
    && 0 <= k < |ps| && ps[k].Stepped?
    && (if AnyRow(ps) then HasRow(ps[k]) && (forall j :: k < j < |ps| ==> !HasRow(ps[j]))
        else forall j :: 0 <= j < k ==> !ps[j].Stepped?)
  }

  lemma KeptNext(ps: seq<Piece>, i: int, k: int)
    requires 0 <= i < |ps| && ps[i].Stepped?
    ensures HasRow(ps[i]) || !AnyStepped(ps[..i]) ==> Kept(ps[..i + 1], i)
    ensures !HasRow(ps[i]) && Kept(ps[..i], k) ==> Kept(ps[..i + 1], k)
  {
    var now, before := ps[..i + 1], ps[..i];
    AnySteppedNext(ps, i);
    assert now[i] == ps[i] && forall j :: 0 <= j < i ==> now[j] == before[j];
    if !AnyStepped(before) {
      forall j | 0 <= j < i ensures !now[j].Stepped? { assert before[j] == now[j]; }
    }
  }

  lemma KeptPast(ps: seq<Piece>, i: int, k: int)
    requires 0 <= i < |ps| && !ps[i].Stepped? && Kept(ps[..i], k)
    ensures Kept(ps[..i + 1], k)
  {
    var now, before := ps[..i + 1], ps[..i];
    AnySteppedNext(ps, i);
    assert now[i] == ps[i] && forall j :: 0 <= j < i ==> now[j] == before[j];
  }

  /** Before piece `i` of the script, the open result set is that of piece `k`. */
  predicate Keeping(ps: seq<Piece>, i: int, k: int)
    requires 0 <= i <= |ps|
  {
    if i == |ps| then Chosen(ps, k) else Kept(ps[..i], k)
  }

  lemma KeepingNext(ps: seq<Piece>, i: int, k: int, open: bool)
    requires 0 <= i < |ps| && (open ==> Keeping(ps, i, k)) && (open <==> AnyStepped(ps[..i]))
    ensures ps[i].Stepped? ==> Keeping(ps, i + 1, if ps[i].rc == Row || !open || i + 1 == |ps| then i else k)
    ensures !ps[i].Stepped? && open ==> Keeping(ps, i + 1, k)
  {
    hide AnyStepped, AnyRow;
    assert i + 1 == |ps| ==> ps[..i + 1] == ps;
    if ps[i].Stepped? {
      KeptNext(ps, i, k);
    } else if open {
      KeptPast(ps, i, k);
    }
  }

  // ---- what was run ----

  /** Texts come and go, but what a text says never changes. */
  ghost predicate Grew(x: map<int, string>, y: map<int, string>) {
    forall p :: p in x ==> p in y && y[p] == x[p]
  }

  /** The first step of a prepared statement: of which text, and which statement of it. */
  datatype Step = Step(text: int, piece: int)

  /** `steps` are the statements among `ps`, each once, in order. */
  ghost predicate RanAll(text: int, ps: seq<Piece>, steps: seq<Step>) {
    && (forall i :: 0 <= i < |ps| ==> (ps[i].Stepped? <==> Step(text, i) in steps))
    && (forall j :: 0 <= j < |steps| ==> steps[j].text == text && 0 <= steps[j].piece < |ps|)
    && (forall i, j :: 0 <= i < j < |steps| ==> steps[i].piece < steps[j].piece)
  }

  lemma RanNothing(text: int, ps: seq<Piece>)
    ensures RanAll(text, ps[..0], [])
  {
  }

  lemma RanNext(text: int, ps: seq<Piece>, i: int, steps: seq<Step>)
    requires 0 <= i < |ps| && RanAll(text, ps[..i], steps)
    ensures RanAll(text, ps[..i + 1], if ps[i].Stepped? then steps + [Step(text, i)] else steps)
  {
    RanMore(text, ps[..i], ps[i], steps);
    assert ps[..i + 1] == ps[..i] + [ps[i]];
  }

  lemma RanMore(text: int, ps: seq<Piece>, p: Piece, steps: seq<Step>)
    requires RanAll(text, ps, steps)
    ensures RanAll(text, ps + [p], if p.Stepped? then steps + [Step(text, |ps|)] else steps)
  {
    var more := if p.Stepped? then steps + [Step(text, |ps|)] else steps;
    forall i | 0 <= i <= |ps| ensures (ps + [p])[i].Stepped? <==> Step(text, i) in more {
      if i < |ps| {
        assert Step(text, i) in more <==> Step(text, i) in steps;
      } else {
        assert Step(text, i) !in steps;
      }
    }
    forall j | 0 <= j < |more| ensures more[j].text == text && 0 <= more[j].piece <= |ps| {
      if j < |steps| { assert more[j] == steps[j]; }
    }
    forall i, j | 0 <= i < j < |more| ensures more[i].piece < more[j].piece {
      assert more[i] == steps[i];
      if j < |steps| { assert more[j] == steps[j]; }
    }
  }

  /** An exec runs the script up to the first piece that spoils it, that one included. */
  ghost predicate ExecRan(text: int, ps: seq<Piece>, steps: seq<Step>) {
    exists n :: ExecReaches(ps, n) && RanAll(text, ps[..n], steps)
  }

  ghost predicate ExecReaches(ps: seq<Piece>, n: int) {
    0 <= n <= |ps| && (forall j :: 0 <= j < n - 1 ==> !Spoils(ps[j])) && (n < |ps| ==> n > 0 && Spoils(ps[n - 1]))
  }

  lemma ExecReachesIs(ps: seq<Piece>, n: int)
    requires 0 <= n <= |ps| && forall j :: 0 <= j < n - 1 ==> !Spoils(ps[j])
    ensures n == |ps| || (n > 0 && Spoils(ps[n - 1])) ==> ExecReaches(ps, n)
  {
  }

  /** A query runs it up to the first piece that stops it. */
  ghost predicate QueryRan(text: int, ps: seq<Piece>, steps: seq<Step>) {
    exists n :: QueryReaches(ps, n) && RanAll(text, ps[..n], steps)
  }

  ghost predicate QueryReaches(ps: seq<Piece>, n: int) {
    0 <= n <= |ps| && (forall j :: 0 <= j < n - 1 ==> !Stops(ps, j)) && (n < |ps| ==> n > 0 && Stops(ps, n - 1))
  }

  /** A lone statement runs once, a script as far as it gets. */
  ghost predicate ExecutedBy(st: Stmt, ps: seq<Piece>, steps: seq<Step>) {
    if st.pstmt != 0 then steps == [Step(st.psql, 0)] else ExecRan(st.psql, ps, steps)
  }

  ghost predicate QueriedBy(st: Stmt, ps: seq<Piece>, steps: seq<Step>) {
    if st.pstmt != 0 then steps == [Step(st.psql, 0)] else QueryRan(st.psql, ps, steps)
  }

  /** A one-shot query runs the text it was given, up to white space around it, or nothing if that
      could not be prepared. */
  ghost predicate RanOnce(sql: string, hit: bool, o: Prepared, ps: seq<Piece>, sqls: map<int, string>,
                          steps: seq<Step>)
  {
    if !hit && FailsToPrepare(o) then steps == []
    else if hit || o.Handle? then exists p :: RanText(sql, true, ps, sqls, steps, p)
    else exists p :: RanText(sql, false, ps, sqls, steps, p)
  }

  ghost predicate RanText(sql: string, lone: bool, ps: seq<Piece>, sqls: map<int, string>, steps: seq<Step>, p: int) {
    && p in sqls && Normalize(sqls[p]) == Normalize(sql)
    && (if lone then steps == [Step(p, 0)] else QueryRan(p, ps, steps))
  }

  lemma RanOnceIs(sql: string, hit: bool, o: Prepared, ps: seq<Piece>, sqls: map<int, string>, steps: seq<Step>,
                  st: Stmt)
    requires (st.pstmt != 0 <==> hit || o.Handle?) && (hit || !FailsToPrepare(o)) && QueriedBy(st, ps, steps)
    requires st.psql in sqls && Normalize(sqls[st.psql]) == Normalize(sql)
    ensures RanOnce(sql, hit, o, ps, sqls, steps)
  {
    hide Normalize, QueryRan;
    assert RanText(sql, hit || o.Handle?, ps, sqls, steps, st.psql);
  }

  /** Some piece stops an exec. */
  predicate ExecFails(ps: seq<Piece>) {
    exists i :: 0 <= i < |ps| && Spoils(ps[i])
  }

  predicate Spoils(p: Piece) {
    p.Unpreparable? || (p.Stepped? && (p.rc == Error || p.finalizeFails))
  }

  lemma SpoilsIs(p: Piece)
    ensures Spoils(p) <==> p.Unpreparable? || (p.Stepped? && (p.rc == Error || p.finalizeFails))
  {
  }

  lemma NothingFailed(ps: seq<Piece>)
    ensures !ExecFails(ps[..0])
  {
  }

  lemma ExecFailsNext(ps: seq<Piece>, i: int)
    requires 0 <= i < |ps|
    ensures ExecFails(ps[..i + 1]) <==> ExecFails(ps[..i]) || Spoils(ps[i])
    ensures Spoils(ps[i]) ==> ExecFails(ps)
  {
    assert ps[..i + 1] == ps[..i] + [ps[i]];
    assert ps[..i + 1][i] == ps[i];
    forall j | 0 <= j < i ensures ps[..i + 1][j] == ps[..i][j] { }
  }

  lemma AnySteppedNext(ps: seq<Piece>, i: int)
    requires 0 <= i < |ps|
    ensures AnyStepped(ps[..i + 1]) <==> AnyStepped(ps[..i]) || ps[i].Stepped?
    ensures AnyRow(ps[..i + 1]) <==> AnyRow(ps[..i]) || (ps[i].Stepped? && ps[i].rc == Row)
  {
    assert ps[..i + 1] == ps[..i] + [ps[i]];
    assert ps[..i + 1][i] == ps[i];
    forall j | 0 <= j < i ensures ps[..i + 1][j] == ps[..i][j] { }
  }

  lemma NothingYet(ps: seq<Piece>)
    ensures !AnyStepped(ps[..0]) && !AnyRow(ps[..0])
  {
  }

  lemma StopsIs(ps: seq<Piece>, i: int)
    requires 0 <= i < |ps|
    ensures ps[i].Unpreparable? || (ps[i].Stepped? && ps[i].rc == Error) ==> Stops(ps, i)
    ensures Stops(ps, i) && !ps[i].Unpreparable? && !(ps[i].Stepped? && ps[i].rc == Error) ==>
      ps[i] == Stepped(Done, true)
    ensures ps[i] == Stepped(Done, true) ==> (Stops(ps, i) <==> i < |ps| - 1 && AnyStepped(ps[..i]))
    ensures Stops(ps, i) ==> QueryFails(ps)
  {
  }

  // ---- recency order ----

  predicate Distinct(s: seq<string>) {
    forall i, j :: 0 <= i < j < |s| ==> s[i] != s[j]
  }

  function Without(s: seq<string>, k: string): (r: seq<string>)
    ensures |r| <= |s|
    ensures forall x :: x in r <==> x in s && x != k
  {
    if s == [] then [] else if s[0] == k then Without(s[1..], k) else [s[0]] + Without(s[1..], k)
  }

  lemma DistinctTail(s: seq<string>)
    requires Distinct(s) && s != []
    ensures Distinct(s[1..]) && s[0] !in s[1..]
  {
    var rest := s[1..];
    forall i, j | 0 <= i < j < |rest| ensures rest[i] != rest[j] { assert s[i + 1] != s[j + 1]; }
  }

  lemma {:induction false} WithoutIs(s: seq<string>, k: string)
    requires Distinct(s)
    ensures Distinct(Without(s, k))
    ensures k in s ==> |Without(s, k)| == |s| - 1
    ensures k !in s ==> Without(s, k) == s
  {
    if s != [] {
      DistinctTail(s);
      WithoutIs(s[1..], k);
      assert s == [s[0]] + s[1..];
    }
  }

  /** The key that leaves when `key` is donated: an older entry of the same text, else the least
      recently donated one of a full cache. */
  function Out(m: map<string, Entry>, ord: seq<string>, cap: int, key: string): Option<string> {
    if key in m then Some(key) else if |ord| >= cap && ord != [] then Some(ord[|ord| - 1]) else None
  }

  /** The cache after a donation: the new pair in front, the loser gone, the rest as it was. */
  ghost predicate DonatedTo(cap: int, was: map<string, Entry>, order: seq<string>, key: string, p: int, h: int,
                            m: map<string, Entry>, ord: seq<string>)
  {
    var out := Out(was, order, cap, key);
    if out.None? then m == was[key := Entry(p, h)] && ord == [key] + order
    else m == (was - {out.value})[key := Entry(p, h)] && ord == [key] + Without(order, out.value)
  }

  /** The cache after a failed one-shot query: what a hit had taken, or a new lone statement, is
      donated on the way out. */
  ghost predicate FailedOnce(cap: int, m0: map<string, Entry>, ord0: seq<string>, key: string, hit: bool, o: Prepared,
                             m: map<string, Entry>, ord: seq<string>)
  {
    var m1, ord1 := if hit then m0 - {key} else m0, if hit then Without(ord0, key) else ord0;
    if (hit || o.Handle?) && cap > 0 && key != "" then
      && key in m && (hit ==> key in m0 && m[key] == m0[key])
      && DonatedTo(cap, m1, ord1, key, m[key].psql, m[key].pstmt, m, ord)
    else m == m1 && ord == ord1
  }

  /** The live handles once the loser's is finalized. */
  function Freed(live: set<int>, out: Option<string>, m: map<string, Entry>): set<int> {
    if out.Some? && out.value in m then live - {m[out.value].pstmt} else live
  }

  lemma CardPlus<T(!new)>(m: map<int, T>, k: int, v: T)
    requires k !in m
    ensures |m[k := v]| == |m| + 1
  {
    assert m[k := v].Keys == m.Keys + {k};
    assert |m.Keys| == |m| && |m[k := v].Keys| == |m[k := v]|;
  }

  lemma CardMinus<T(!new)>(m: map<int, T>, k: int)
    requires k in m
    ensures |m - {k}| == |m| - 1
  {
    assert (m - {k}).Keys == m.Keys - {k};
    assert |m.Keys| == |m| && |(m - {k}).Keys| == |m - {k}|;
  }

  lemma SameSize(m: map<int, Owner>, n: map<int, Owner>)
    requires m.Keys == n.Keys
    ensures |m| == |n|
  {
    assert |m.Keys| == |m| && |n.Keys| == |n|;
  }

  lemma CardSame<T(!new)>(m: map<int, T>, k: int, v: T)
    requires k in m
    ensures |m[k := v]| == |m|
  {
    assert m[k := v].Keys == m.Keys;
    assert |m.Keys| == |m| && |m[k := v].Keys| == |m[k := v]|;
  }

  ghost function Handles(es: seq<Entry>): set<int> { set e | e in es :: e.pstmt }

  ghost function Texts(es: seq<Entry>): set<int> { set e | e in es :: e.psql }

  lemma InListed(es: seq<Entry>)
    ensures forall e :: e in es ==> e.pstmt in Handles(es) && e.psql in Texts(es)
  {
  }

  /** The cache's entries, most recent first. */
  ghost function Listed(m: map<string, Entry>, ord: seq<string>): (es: seq<Entry>)
    ensures |es| == |ord| && forall i :: 0 <= i < |ord| && ord[i] in m ==> es[i] == m[ord[i]]
  {
    seq(|ord|, i requires 0 <= i < |ord| => if ord[i] in m then m[ord[i]] else Entry(0, 0))
  }

  ghost predicate Apart(es: seq<Entry>) {
    forall i, j :: 0 <= i < j < |es| ==> es[i].pstmt != es[j].pstmt && es[i].psql != es[j].psql
  }

  lemma ApartFrom(es: seq<Entry>, i: int)
    requires Apart(es) && 0 <= i < |es|
    ensures es[i].pstmt !in Handles(es[..i]) && es[i].psql !in Texts(es[..i])
    ensures Handles(es[..i + 1]) == Handles(es[..i]) + {es[i].pstmt}
    ensures Texts(es[..i + 1]) == Texts(es[..i]) + {es[i].psql}
  {
    assert es[..i + 1] == es[..i] + [es[i]];
  }

  // ---- the ledger ----

  /** The owners and the ledger agree on handles: each live one has exactly one owner, and a result
      set over a prepared statement only borrows. */
  ghost predicate HandlesOk(m: map<string, Entry>, stmts: map<int, Stmt>, rows: map<int, Rows>, hs: map<int, Owner>) {
    && 0 !in stmts && 0 !in rows
    && (forall s :: s in stmts && stmts[s].pstmt != 0 ==> stmts[s].pstmt in hs && hs[stmts[s].pstmt] == ByStmt(s))
    && (forall k :: k in m ==> m[k].pstmt in hs && hs[m[k].pstmt] == ByCache(k))
    && (forall r :: r in rows && !rows[r].reuse && rows[r].pstmt != 0 ==>
          rows[r].pstmt in hs && hs[rows[r].pstmt] == ByRows(r))
    && (forall r :: r in rows && rows[r].reuse ==> rows[r].pstmt in hs && hs[rows[r].pstmt] == ByStmt(rows[r].from))
    && (forall h :: h in hs ==>
          match hs[h]
          case ByStmt(s) => s in stmts && stmts[s].pstmt == h
          case ByCache(k) => k in m && m[k].pstmt == h
          case ByRows(r) => r in rows && rows[r].pstmt == h && !rows[r].reuse
          case InFlight => true)
  }

  /** The same for SQL texts, which only statements and the cache hold. */
  ghost predicate StringsOk(m: map<string, Entry>, stmts: map<int, Stmt>, ps: map<int, Owner>) {
    && (forall s :: s in stmts ==> stmts[s].psql in ps && ps[stmts[s].psql] == ByStmt(s))
    && (forall k :: k in m ==> m[k].psql in ps && ps[m[k].psql] == ByCache(k))
    && (forall p :: p in ps ==>
          match ps[p]
          case ByStmt(s) => s in stmts && stmts[s].psql == p
          case ByCache(k) => k in m && m[k].psql == p
          case ByRows(_) => false
          case InFlight => true)
  }

  /** A handle, unless nil, gets a new owner. */
  function Mark(hs: map<int, Owner>, h: int, o: Owner): map<int, Owner> {
    if h != 0 then hs[h := o] else hs
  }

  lemma MarkSize(hs: map<int, Owner>, h: int, o: Owner)
    requires h != 0 ==> h in hs
    ensures |Mark(hs, h, o)| == |hs| && Mark(hs, h, o).Keys == hs.Keys
  {
    if h != 0 { CardSame(hs, h, o); }
  }

  /** What is taken and handed on at once is not left in flight. */
  lemma Retaken(hs: map<int, Owner>, h: int, o: Owner)
    requires h != 0 && h in hs && o != InFlight
    ensures var after := hs[h := InFlight];
      && Mark(after, h, o) == after[h := o] && after[h := o].Keys == hs.Keys
      && (NoneInFlight(hs) ==> NoneInFlight(after[h := o]))
  {
  }

  ghost predicate NoneInFlight(ls: map<int, Owner>) {
    forall x :: x in ls ==> ls[x] != InFlight
  }

  ghost predicate Owns(x: Rows) {
    !x.reuse && x.pstmt != 0
  }

  /** A result set's own handle was prepared from the text of the statement that opened it. While
      that statement is open it holds the text and no handle; afterwards the text is dead. */
  ghost predicate RowText(stmts: map<int, Stmt>, ps: map<int, Owner>, tx: map<int, int>, x: Rows, copied: int,
                          created: int) {
    && x.pstmt in tx && 1 <= x.from <= created && 1 <= tx[x.pstmt] <= copied
    && (if x.from in stmts then stmts[x.from].psql == tx[x.pstmt] && stmts[x.from].pstmt == 0
        else tx[x.pstmt] !in ps || ps[tx[x.pstmt]] == InFlight)
  }

  /** `tx` names the text each live handle was prepared from: a statement's and a cache entry's
      handle goes with the text beside it. */
  ghost predicate TextsOk(m: map<string, Entry>, stmts: map<int, Stmt>, rows: map<int, Rows>, ps: map<int, Owner>,
                          tx: map<int, int>, copied: int, created: int)
  {
    && (forall p :: p in ps ==> 1 <= p <= copied)
    && (forall s :: s in stmts ==> 1 <= s <= created)
    && (forall s :: s in stmts && stmts[s].pstmt != 0 ==> stmts[s].pstmt in tx && tx[stmts[s].pstmt] == stmts[s].psql)
    && (forall k :: k in m ==> m[k].pstmt in tx && tx[m[k].pstmt] == m[k].psql)
    && (forall r :: r in rows && Owns(rows[r]) ==> RowText(stmts, ps, tx, rows[r], copied, created))
  }

  /** No result set's own handle was prepared from text `p`. */
  ghost predicate Unheld(rows: map<int, Rows>, tx: map<int, int>, p: int) {
    forall r :: r in rows && Owns(rows[r]) && rows[r].pstmt in tx ==> tx[rows[r].pstmt] != p
  }

  /** No result set still steps the statement's handle. */
  ghost predicate Unlent(stmts: map<int, Stmt>, rows: map<int, Rows>, s: int) {
    s in stmts && forall r :: r in rows && rows[r].reuse ==> rows[r].pstmt != stmts[s].pstmt
  }

  /** `sqls` is what each text says and `pieces` which statement of its text a handle was prepared
      for. The cache files a pair under the key of its text, and only lone statements are kept. */
  ghost predicate OriginsOk(m: map<string, Entry>, stmts: map<int, Stmt>, sqls: map<int, string>,
                            pieces: map<int, int>)
  {
    && (forall s :: s in stmts ==> stmts[s].psql in sqls)
    && (forall s :: s in stmts && stmts[s].cacheKey != "" ==> stmts[s].cacheKey == Normalize(sqls[stmts[s].psql]))
    && (forall s :: s in stmts && stmts[s].pstmt != 0 ==> stmts[s].pstmt in pieces && pieces[stmts[s].pstmt] == 0)
    && (forall k :: k in m ==> m[k].psql in sqls && k == Normalize(sqls[m[k].psql]))
    && (forall k :: k in m ==> m[k].pstmt in pieces && pieces[m[k].pstmt] == 0)
  }

  ghost predicate SerialsOk(sqls: map<int, string>, copied: int) {
    forall p :: p in sqls ==> p <= copied
  }

  lemma PrepareOrigins(m: map<string, Entry>, stmts: map<int, Stmt>, rows: map<int, Rows>, hs: map<int, Owner>,
                       sqls: map<int, string>, pieces: map<int, int>, h: int, piece: int)
    requires OriginsOk(m, stmts, sqls, pieces) && HandlesOk(m, stmts, rows, hs) && h !in hs
    ensures OriginsOk(m, stmts, sqls, pieces[h := piece])
  {
  }

  lemma CopyOrigins(m: map<string, Entry>, stmts: map<int, Stmt>, ps: map<int, Owner>, sqls: map<int, string>,
                    pieces: map<int, int>, p: int, sql: string, copied: int)
    requires OriginsOk(m, stmts, sqls, pieces) && StringsOk(m, stmts, ps) && p !in ps
    requires SerialsOk(sqls, copied) && copied < p
    ensures OriginsOk(m, stmts, sqls[p := sql], pieces) && SerialsOk(sqls[p := sql], p) && p !in sqls
  {
    hide Normalize;
  }

  lemma StmtGetsOrigins(m: map<string, Entry>, stmts: map<int, Stmt>, sqls: map<int, string>, pieces: map<int, int>,
                        s: int, st: Stmt)
    requires OriginsOk(m, stmts, sqls, pieces) && st.psql in sqls
    requires st.cacheKey != "" ==> st.cacheKey == Normalize(sqls[st.psql])
    requires st.pstmt != 0 ==> st.pstmt in pieces && pieces[st.pstmt] == 0
    ensures OriginsOk(m, stmts[s := st], sqls, pieces)
  {
  }

  lemma StmtGivesOrigins(m: map<string, Entry>, stmts: map<int, Stmt>, sqls: map<int, string>, pieces: map<int, int>,
                         s: int)
    requires OriginsOk(m, stmts, sqls, pieces) && s in stmts
    ensures OriginsOk(m, stmts - {s}, sqls, pieces)
    ensures OriginsOk(m, stmts[s := stmts[s].(pstmt := 0)], sqls, pieces)
    ensures stmts[s].psql in sqls && (stmts[s].cacheKey != "" ==> stmts[s].cacheKey == Normalize(sqls[stmts[s].psql]))
    ensures stmts[s].pstmt != 0 ==> stmts[s].pstmt in pieces && pieces[stmts[s].pstmt] == 0
  {
  }

  lemma NoCache(cap: int)
    ensures CacheIs(cap, map[], [])
  {
  }

  lemma DrainOrigins(m: map<string, Entry>, stmts: map<int, Stmt>, sqls: map<int, string>, pieces: map<int, int>)
    requires OriginsOk(m, stmts, sqls, pieces)
    ensures OriginsOk(map[], stmts, sqls, pieces)
  {
  }

  lemma CacheGivesOrigins(m: map<string, Entry>, stmts: map<int, Stmt>, sqls: map<int, string>, pieces: map<int, int>,
                          key: string)
    requires OriginsOk(m, stmts, sqls, pieces) && key in m
    ensures OriginsOk(m - {key}, stmts, sqls, pieces)
    ensures m[key].psql in sqls && Normalize(sqls[m[key].psql]) == key
    ensures m[key].pstmt in pieces && pieces[m[key].pstmt] == 0
  {
  }

  lemma CacheGetsOrigins(m: map<string, Entry>, stmts: map<int, Stmt>, sqls: map<int, string>, pieces: map<int, int>,
                         key: string, e: Entry)
    requires OriginsOk(m, stmts, sqls, pieces) && e.psql in sqls && key == Normalize(sqls[e.psql])
    requires e.pstmt in pieces && pieces[e.pstmt] == 0
    ensures OriginsOk(m[key := e], stmts, sqls, pieces)
  {
  }

  // Each move of ownership keeps the ledger; the text half is a lemma of its own.

  lemma PrepareTexts(m: map<string, Entry>, stmts: map<int, Stmt>, rows: map<int, Rows>, ps: map<int, Owner>,
                     tx: map<int, int>, copied: int, created: int, h: int, p: int)
    requires TextsOk(m, stmts, rows, ps, tx, copied, created) && h !in tx
    ensures TextsOk(m, stmts, rows, ps, tx[h := p], copied, created)
    ensures forall q :: Unheld(rows, tx, q) ==> Unheld(rows, tx[h := p], q)
  {
    forall q | Unheld(rows, tx, q) ensures Unheld(rows, tx[h := p], q) {
      forall r | r in rows && Owns(rows[r]) ensures tx[h := p][rows[r].pstmt] != q {
        assert RowText(stmts, ps, tx, rows[r], copied, created);
      }
    }
  }

  lemma PrepareKeeps(m: map<string, Entry>, stmts: map<int, Stmt>, rows: map<int, Rows>, hs: map<int, Owner>, h: int)
    requires HandlesOk(m, stmts, rows, hs) && h !in hs
    ensures HandlesOk(m, stmts, rows, hs[h := InFlight])
  {
  }

  lemma FinalizeKeeps(m: map<string, Entry>, stmts: map<int, Stmt>, rows: map<int, Rows>, hs: map<int, Owner>, h: int)
    requires HandlesOk(m, stmts, rows, hs) && h in hs && hs[h] == InFlight
    ensures HandlesOk(m, stmts, rows, hs - {h})
  {
  }

  lemma CopyKeeps(m: map<string, Entry>, stmts: map<int, Stmt>, ps: map<int, Owner>, p: int)
    requires StringsOk(m, stmts, ps) && p !in ps
    ensures StringsOk(m, stmts, ps[p := InFlight])
  {
  }

  lemma FreeKeeps(m: map<string, Entry>, stmts: map<int, Stmt>, ps: map<int, Owner>, p: int)
    requires StringsOk(m, stmts, ps) && p in ps && ps[p] == InFlight
    ensures StringsOk(m, stmts, ps - {p})
  {
  }

  lemma FinalizeTexts(m: map<string, Entry>, stmts: map<int, Stmt>, rows: map<int, Rows>, hs: map<int, Owner>,
                      ps: map<int, Owner>, tx: map<int, int>, copied: int, created: int, h: int)
    requires TextsOk(m, stmts, rows, ps, tx, copied, created) && HandlesOk(m, stmts, rows, hs)
    requires h in hs && hs[h] == InFlight
    ensures TextsOk(m, stmts, rows, ps, tx - {h}, copied, created)
    ensures forall q :: Unheld(rows, tx, q) ==> Unheld(rows, tx - {h}, q)
  {
  }

  lemma CopyTexts(m: map<string, Entry>, stmts: map<int, Stmt>, rows: map<int, Rows>, ps: map<int, Owner>,
                  tx: map<int, int>, copied: int, created: int)
    requires TextsOk(m, stmts, rows, ps, tx, copied, created) && copied >= 0
    ensures TextsOk(m, stmts, rows, ps[copied + 1 := InFlight], tx, copied + 1, created)
    ensures Unheld(rows, tx, copied + 1) && copied + 1 !in ps
  {
  }

  lemma FreeTexts(m: map<string, Entry>, stmts: map<int, Stmt>, rows: map<int, Rows>, ps: map<int, Owner>,
                  tx: map<int, int>, copied: int, created: int, p: int)
    requires TextsOk(m, stmts, rows, ps, tx, copied, created)
    ensures TextsOk(m, stmts, rows, ps - {p}, tx, copied, created)
  {
  }

  lemma StmtGetsKeeps(m: map<string, Entry>, stmts: map<int, Stmt>, rows: map<int, Rows>, hs: map<int, Owner>,
                      ps: map<int, Owner>, s: int, st: Stmt)
    requires HandlesOk(m, stmts, rows, hs) && StringsOk(m, stmts, ps)
    requires s != 0 && s !in stmts && st.psql in ps && ps[st.psql] == InFlight
    requires st.pstmt != 0 ==> st.pstmt in hs && hs[st.pstmt] == InFlight
    requires 0 !in hs
    ensures HandlesOk(m, stmts[s := st], rows, if st.pstmt != 0 then hs[st.pstmt := ByStmt(s)] else hs)
    ensures StringsOk(m, stmts[s := st], ps[st.psql := ByStmt(s)])
    ensures Unlent(stmts[s := st], rows, s)
  {
  }

  lemma StmtGetsTexts(m: map<string, Entry>, stmts: map<int, Stmt>, rows: map<int, Rows>, ps: map<int, Owner>,
                      tx: map<int, int>, copied: int, created: int, st: Stmt)
    requires TextsOk(m, stmts, rows, ps, tx, copied, created) && Unheld(rows, tx, st.psql) && created >= 0
    requires st.psql in ps && (st.pstmt != 0 ==> st.pstmt in tx && tx[st.pstmt] == st.psql)
    ensures TextsOk(m, stmts[created + 1 := st], rows, ps[st.psql := ByStmt(created + 1)], tx, copied, created + 1)
  {
    forall r | r in rows && Owns(rows[r])
      ensures RowText(stmts[created + 1 := st], ps[st.psql := ByStmt(created + 1)], tx, rows[r], copied, created + 1)
    {
      assert RowText(stmts, ps, tx, rows[r], copied, created);
    }
  }

  lemma StmtGivesKeeps(m: map<string, Entry>, stmts: map<int, Stmt>, rows: map<int, Rows>, hs: map<int, Owner>,
                       ps: map<int, Owner>, s: int)
    requires HandlesOk(m, stmts, rows, hs) && StringsOk(m, stmts, ps) && Unlent(stmts, rows, s) && 0 !in hs
    ensures HandlesOk(m, stmts - {s}, rows, if stmts[s].pstmt != 0 then hs[stmts[s].pstmt := InFlight] else hs)
    ensures StringsOk(m, stmts - {s}, ps[stmts[s].psql := InFlight])
    ensures stmts[s].psql in ps && (stmts[s].pstmt != 0 ==> stmts[s].pstmt in hs)
  {
  }

  lemma StmtGivesTexts(m: map<string, Entry>, stmts: map<int, Stmt>, rows: map<int, Rows>, ps: map<int, Owner>,
                       tx: map<int, int>, copied: int, created: int, s: int)
    requires TextsOk(m, stmts, rows, ps, tx, copied, created) && StringsOk(m, stmts, ps) && s in stmts
    ensures TextsOk(m, stmts - {s}, rows, ps[stmts[s].psql := InFlight], tx, copied, created)
    ensures stmts[s].pstmt != 0 ==> stmts[s].pstmt in tx && tx[stmts[s].pstmt] == stmts[s].psql
    ensures stmts[s].pstmt != 0 ==> Unheld(rows, tx, stmts[s].psql)
  {
    forall r | r in rows && Owns(rows[r])
      ensures RowText(stmts - {s}, ps[stmts[s].psql := InFlight], tx, rows[r], copied, created)
      ensures stmts[s].pstmt != 0 ==> tx[rows[r].pstmt] != stmts[s].psql
    {
      assert RowText(stmts, ps, tx, rows[r], copied, created);
    }
  }

  lemma NewRowsKeeps(m: map<string, Entry>, stmts: map<int, Stmt>, rows: map<int, Rows>, hs: map<int, Owner>,
                     r: int, x: Rows)
    requires HandlesOk(m, stmts, rows, hs) && r != 0 && r !in rows && 0 !in hs && !x.reuse
    requires x.pstmt != 0 ==> x.pstmt in hs && hs[x.pstmt] == InFlight
    ensures HandlesOk(m, stmts, rows[r := x], if x.pstmt != 0 then hs[x.pstmt := ByRows(r)] else hs)
  {
  }

  lemma NewRowsTexts(m: map<string, Entry>, stmts: map<int, Stmt>, rows: map<int, Rows>, ps: map<int, Owner>,
                     tx: map<int, int>, copied: int, created: int, r: int, x: Rows)
    requires TextsOk(m, stmts, rows, ps, tx, copied, created) && StringsOk(m, stmts, ps)
    requires Owns(x) ==>
      x.from in stmts && stmts[x.from].pstmt == 0 && x.pstmt in tx && tx[x.pstmt] == stmts[x.from].psql
    ensures TextsOk(m, stmts, rows[r := x], ps, tx, copied, created)
  {
    if Owns(x) { assert stmts[x.from].psql in ps && RowText(stmts, ps, tx, x, copied, created); }
  }

  lemma CloseRowsKeeps(m: map<string, Entry>, stmts: map<int, Stmt>, rows: map<int, Rows>, hs: map<int, Owner>, r: int)
    requires HandlesOk(m, stmts, rows, hs) && r in rows && 0 !in hs
    ensures !Owns(rows[r]) ==> HandlesOk(m, stmts, rows - {r}, hs)
    ensures Owns(rows[r]) ==>
      rows[r].pstmt in hs && HandlesOk(m, stmts, rows - {r}, hs[rows[r].pstmt := InFlight])
  {
  }

  lemma CloseRowsTexts(m: map<string, Entry>, stmts: map<int, Stmt>, rows: map<int, Rows>, ps: map<int, Owner>,
                       tx: map<int, int>, copied: int, created: int, r: int)
    requires TextsOk(m, stmts, rows, ps, tx, copied, created)
    ensures TextsOk(m, stmts, rows - {r}, ps, tx, copied, created)
  {
  }

  lemma StealKeeps(m: map<string, Entry>, stmts: map<int, Stmt>, rows: map<int, Rows>, hs: map<int, Owner>,
                   ps: map<int, Owner>, s: int, r: int)
    requires HandlesOk(m, stmts, rows, hs) && StringsOk(m, stmts, ps) && s in stmts && r in rows && 0 !in hs
    requires stmts[s].pstmt != 0 && rows[r].reuse && rows[r].pstmt == stmts[s].pstmt && Unlent(stmts, rows - {r}, s)
    ensures var stmts', rows' := stmts[s := stmts[s].(pstmt := 0)], rows[r := rows[r].(reuse := false)];
      && stmts[s].pstmt in hs && HandlesOk(m, stmts', rows', hs[stmts[s].pstmt := ByRows(r)])
      && StringsOk(m, stmts', ps) && Unlent(stmts', rows', s) && rows[r].from == s
  {
    forall q | q in rows && q != r && rows[q].reuse ensures rows[q].pstmt != stmts[s].pstmt {
      assert q in rows - {r};
    }
  }

  lemma StealTexts(m: map<string, Entry>, stmts: map<int, Stmt>, rows: map<int, Rows>, ps: map<int, Owner>,
                   tx: map<int, int>, copied: int, created: int, s: int, r: int)
    requires TextsOk(m, stmts, rows, ps, tx, copied, created) && StringsOk(m, stmts, ps) && s in stmts && r in rows
    requires stmts[s].pstmt != 0 && rows[r].pstmt == stmts[s].pstmt && rows[r].from == s
    ensures TextsOk(m, stmts[s := stmts[s].(pstmt := 0)], rows[r := rows[r].(reuse := false)], ps, tx, copied, created)
  {
    var stmts', rows' := stmts[s := stmts[s].(pstmt := 0)], rows[r := rows[r].(reuse := false)];
    assert stmts[s].psql in ps;
    forall q | q in rows' && Owns(rows'[q]) ensures RowText(stmts', ps, tx, rows'[q], copied, created) {
      if q != r { assert RowText(stmts, ps, tx, rows[q], copied, created); }
    }
  }

  /** The ledger entries of a cache are one handle and one text per listed key. */
  lemma ListedHandles(m: map<string, Entry>, stmts: map<int, Stmt>, rows: map<int, Rows>, ord: seq<string>,
                      hs: map<int, Owner>)
    requires HandlesOk(m, stmts, rows, hs) && Distinct(ord) && forall k :: k in m <==> k in ord
    ensures var es := Listed(m, ord);
      && (forall h :: h in Handles(es) <==> h in hs && hs[h].ByCache?)
      && forall i, j :: 0 <= i < j < |es| ==> es[i].pstmt != es[j].pstmt
  {
    var es := Listed(m, ord);
    forall h | h in hs && hs[h].ByCache? ensures h in Handles(es) {
      var i :| 0 <= i < |ord| && ord[i] == hs[h].key;
      assert es[i].pstmt == h;
    }
    forall h | h in Handles(es) ensures h in hs && hs[h].ByCache? {
      var e :| e in es && e.pstmt == h;
      var i :| 0 <= i < |es| && es[i] == e;
      assert ord[i] in m;
    }
  }

  lemma ListedTexts(m: map<string, Entry>, stmts: map<int, Stmt>, ord: seq<string>, ps: map<int, Owner>)
    requires StringsOk(m, stmts, ps) && Distinct(ord) && forall k :: k in m <==> k in ord
    ensures var es := Listed(m, ord);
      && (forall p :: p in Texts(es) <==> p in ps && ps[p].ByCache?)
      && forall i, j :: 0 <= i < j < |es| ==> es[i].psql != es[j].psql
  {
    var es := Listed(m, ord);
    forall p | p in ps && ps[p].ByCache? ensures p in Texts(es) {
      var i :| 0 <= i < |ord| && ord[i] == ps[p].key;
      assert es[i].psql == p;
    }
    forall p | p in Texts(es) ensures p in ps && ps[p].ByCache? {
      var e :| e in es && e.psql == p;
      var i :| 0 <= i < |es| && es[i] == e;
      assert ord[i] in m;
    }
  }

  /** Once the cache is drained, what it held is in flight. */
  function DisownedIn(ls: map<int, Owner>): map<int, Owner> {
    map x | x in ls :: if ls[x].ByCache? then InFlight else ls[x]
  }

  lemma DrainKeeps(m: map<string, Entry>, stmts: map<int, Stmt>, rows: map<int, Rows>, hs: map<int, Owner>,
                   ps: map<int, Owner>)
    requires HandlesOk(m, stmts, rows, hs) && StringsOk(m, stmts, ps)
    ensures HandlesOk(map[], stmts, rows, DisownedIn(hs)) && StringsOk(map[], stmts, DisownedIn(ps))
    ensures DisownedIn(hs).Keys == hs.Keys && DisownedIn(ps).Keys == ps.Keys
    ensures |DisownedIn(hs)| == |hs| && |DisownedIn(ps)| == |ps|
  {
    SameSize(hs, DisownedIn(hs));
    SameSize(ps, DisownedIn(ps));
  }

  lemma DrainTexts(m: map<string, Entry>, stmts: map<int, Stmt>, rows: map<int, Rows>, ps: map<int, Owner>,
                   tx: map<int, int>, copied: int, created: int)
    requires TextsOk(m, stmts, rows, ps, tx, copied, created)
    ensures TextsOk(map[], stmts, rows, DisownedIn(ps), tx, copied, created)
  {
    forall r | r in rows && Owns(rows[r])
      ensures RowText(stmts, DisownedIn(ps), tx, rows[r], copied, created)
    {
      assert RowText(stmts, ps, tx, rows[r], copied, created);
    }
  }

  /** What a closed connection's cache leaves behind. */
  function Uncached(ls: map<int, Owner>): map<int, Owner> {
    map x | x in ls && !ls[x].ByCache? :: ls[x]
  }

  ghost predicate CacheIs(cap: int, m: map<string, Entry>, ord: seq<string>) {
    && Distinct(ord)
    && (forall k :: k in m <==> k in ord)
    && (forall k :: k in m ==> Trimmed(k) && m[k].pstmt != 0 && m[k].psql != 0)
    && |ord| <= (if cap > 0 then cap else 0)
  }

  lemma {:induction false} CacheWithout(cap: int, m: map<string, Entry>, ord: seq<string>, key: string)
    requires CacheIs(cap, m, ord) && key in m
    ensures CacheIs(cap, m - {key}, Without(ord, key)) && |Without(ord, key)| == |ord| - 1
  {
    WithoutIs(ord, key);
  }

  lemma CacheWith(cap: int, m: map<string, Entry>, ord: seq<string>, key: string, e: Entry)
    requires CacheIs(cap, m, ord) && key !in m && Trimmed(key) && |ord| < cap && e.pstmt != 0 && e.psql != 0
    ensures CacheIs(cap, m[key := e], [key] + ord)
  {
    var more := [key] + ord;
    forall i, j | 0 <= i < j < |more| ensures more[i] != more[j] { }
  }

  lemma CacheGivesKeeps(m: map<string, Entry>, stmts: map<int, Stmt>, rows: map<int, Rows>, hs: map<int, Owner>,
                        ps: map<int, Owner>, key: string)
    requires HandlesOk(m, stmts, rows, hs) && StringsOk(m, stmts, ps) && key in m
    ensures m[key].pstmt in hs && hs[m[key].pstmt] != InFlight
    ensures HandlesOk(m - {key}, stmts, rows, hs[m[key].pstmt := InFlight])
    ensures m[key].psql in ps && ps[m[key].psql] != InFlight && StringsOk(m - {key}, stmts, ps[m[key].psql := InFlight])
  {
  }

  lemma CacheGivesTexts(m: map<string, Entry>, stmts: map<int, Stmt>, rows: map<int, Rows>, ps: map<int, Owner>,
                        tx: map<int, int>, copied: int, created: int, key: string)
    requires TextsOk(m, stmts, rows, ps, tx, copied, created) && StringsOk(m, stmts, ps) && key in m
    ensures TextsOk(m - {key}, stmts, rows, ps[m[key].psql := InFlight], tx, copied, created)
    ensures m[key].pstmt in tx && tx[m[key].pstmt] == m[key].psql && Unheld(rows, tx, m[key].psql)
  {
    assert ps[m[key].psql] == ByCache(key);
    forall r | r in rows && Owns(rows[r])
      ensures RowText(stmts, ps[m[key].psql := InFlight], tx, rows[r], copied, created)
      ensures tx[rows[r].pstmt] != m[key].psql
    {
      assert RowText(stmts, ps, tx, rows[r], copied, created);
    }
  }

  lemma CacheGetsKeeps(m: map<string, Entry>, stmts: map<int, Stmt>, rows: map<int, Rows>, hs: map<int, Owner>,
                       ps: map<int, Owner>, key: string, e: Entry)
    requires HandlesOk(m, stmts, rows, hs) && StringsOk(m, stmts, ps) && key !in m
    requires e.pstmt in hs && hs[e.pstmt] == InFlight && e.psql in ps && ps[e.psql] == InFlight
    ensures HandlesOk(m[key := e], stmts, rows, hs[e.pstmt := ByCache(key)])
    ensures StringsOk(m[key := e], stmts, ps[e.psql := ByCache(key)])
  {
  }

  lemma CacheGetsTexts(m: map<string, Entry>, stmts: map<int, Stmt>, rows: map<int, Rows>, ps: map<int, Owner>,
                       tx: map<int, int>, copied: int, created: int, key: string, e: Entry)
    requires TextsOk(m, stmts, rows, ps, tx, copied, created) && Unheld(rows, tx, e.psql)
    requires e.psql in ps && e.pstmt in tx && tx[e.pstmt] == e.psql
    ensures TextsOk(m[key := e], stmts, rows, ps[e.psql := ByCache(key)], tx, copied, created)
  {
    forall r | r in rows && Owns(rows[r])
      ensures RowText(stmts, ps[e.psql := ByCache(key)], tx, rows[r], copied, created)
    {
      assert RowText(stmts, ps, tx, rows[r], copied, created);
    }
  }

  lemma Landed(hs: map<int, Owner>, h: int)
    requires h !in hs
    ensures hs[h := InFlight] - {h} == hs
  {
  }

  lemma Gone(hs: map<int, Owner>, h: int)
    ensures hs[h := InFlight] - {h} == hs - {h}
    ensures h !in hs ==> hs - {h} == hs
    ensures NoneInFlight(hs) ==> NoneInFlight(hs - {h})
  {
  }

  lemma LandedBeside(hs: map<int, Owner>, h: int, x: int, o: Owner)
    requires h !in hs && x != h
    ensures hs[h := InFlight][x := o] - {h} == hs[x := o]
  {
  }

  // ---- the whole ledger ----

  datatype Snap = Snap(cap: int, ord: seq<string>, m: map<string, Entry>, stmts: map<int, Stmt>, rows: map<int, Rows>,
                       handles: map<int, Owner>, strings: map<int, Owner>, texts: map<int, int>,
                       pieces: map<int, int>, sqls: map<int, string>, ran: seq<Step>, copied: int, created: int)

  ghost predicate LedgerOk(x: Snap) {
    && 0 !in x.handles && 0 !in x.strings
    && HandlesOk(x.m, x.stmts, x.rows, x.handles) && StringsOk(x.m, x.stmts, x.strings)
    && x.texts.Keys == x.handles.Keys && TextsOk(x.m, x.stmts, x.rows, x.strings, x.texts, x.copied, x.created)
    && OriginsOk(x.m, x.stmts, x.sqls, x.pieces) && SerialsOk(x.sqls, x.copied)
  }

  lemma LedgerNils(x: Snap)
    requires LedgerOk(x)
    ensures 0 !in x.handles && 0 !in x.strings && 0 !in x.stmts && 0 !in x.rows
    ensures x.created + 1 !in x.stmts && x.texts.Keys == x.handles.Keys
  {
  }

  lemma PrepareLedger(x: Snap, h: int, p: int, piece: int)
    requires LedgerOk(x) && h != 0 && h !in x.handles
    ensures LedgerOk(x.(handles := x.handles[h := InFlight], texts := x.texts[h := p], pieces := x.pieces[h := piece]))
    ensures forall q :: Unheld(x.rows, x.texts, q) ==> Unheld(x.rows, x.texts[h := p], q)
  {
    hide HandlesOk, StringsOk, TextsOk, OriginsOk, SerialsOk, Unheld;
    PrepareKeeps(x.m, x.stmts, x.rows, x.handles, h);
    PrepareTexts(x.m, x.stmts, x.rows, x.strings, x.texts, x.copied, x.created, h, p);
    PrepareOrigins(x.m, x.stmts, x.rows, x.handles, x.sqls, x.pieces, h, piece);
  }

  lemma FinalizeLedger(x: Snap, h: int)
    requires LedgerOk(x) && h in x.handles && x.handles[h] == InFlight
    ensures LedgerOk(x.(handles := x.handles - {h}, texts := x.texts - {h}))
    ensures forall q :: Unheld(x.rows, x.texts, q) ==> Unheld(x.rows, x.texts - {h}, q)
  {
    hide HandlesOk, StringsOk, TextsOk, OriginsOk, SerialsOk, Unheld;
    FinalizeKeeps(x.m, x.stmts, x.rows, x.handles, h);
    FinalizeTexts(x.m, x.stmts, x.rows, x.handles, x.strings, x.texts, x.copied, x.created, h);
  }

  lemma CopyLedger(x: Snap, sql: string)
    requires LedgerOk(x) && x.copied >= 0
    ensures var p := x.copied + 1;
      && LedgerOk(x.(strings := x.strings[p := InFlight], sqls := x.sqls[p := sql], copied := p))
      && p !in x.strings && p !in x.sqls && Unheld(x.rows, x.texts, p)
  {
    hide HandlesOk, StringsOk, TextsOk, OriginsOk, SerialsOk, Unheld;
    var p := x.copied + 1;
    CopyTexts(x.m, x.stmts, x.rows, x.strings, x.texts, x.copied, x.created);
    CopyKeeps(x.m, x.stmts, x.strings, p);
    CopyOrigins(x.m, x.stmts, x.strings, x.sqls, x.pieces, p, sql, x.copied);
  }

  lemma FreeLedger(x: Snap, p: int)
    requires LedgerOk(x) && p in x.strings && x.strings[p] == InFlight
    ensures LedgerOk(x.(strings := x.strings - {p}))
  {
    hide HandlesOk, StringsOk, TextsOk, OriginsOk, SerialsOk;
    FreeKeeps(x.m, x.stmts, x.strings, p);
    FreeTexts(x.m, x.stmts, x.rows, x.strings, x.texts, x.copied, x.created, p);
  }

  /** Text `p` and the handle prepared from it, if any, are in the caller's hands. */
  ghost predicate Carried(x: Snap, p: int, h: int) {
    && p in x.strings && x.strings[p] == InFlight && Unheld(x.rows, x.texts, p)
    && (h != 0 ==>
          && h in x.handles && x.handles[h] == InFlight && h in x.texts && x.texts[h] == p
          && h in x.pieces && x.pieces[h] == 0)
  }

  ghost predicate KeyOf(sqls: map<int, string>, p: int, key: string) {
    p in sqls && (key != "" ==> key == Normalize(sqls[p]))
  }

  lemma CarriedSize(x: Snap, p: int, h: int, o: Owner)
    requires Carried(x, p, h)
    ensures |Mark(x.handles, h, o)| == |x.handles| && |x.strings[p := o]| == |x.strings|
  {
    MarkSize(x.handles, h, o);
    CardSame(x.strings, p, o);
  }

  lemma StmtGetsLedger(x: Snap, st: Stmt)
    requires LedgerOk(x) && x.created >= 0 && Carried(x, st.psql, st.pstmt) && KeyOf(x.sqls, st.psql, st.cacheKey)
    ensures var s := x.created + 1;
      && s !in x.stmts && Unlent(x.stmts[s := st], x.rows, s)
      && LedgerOk(x.(stmts := x.stmts[s := st], strings := x.strings[st.psql := ByStmt(s)], created := s,
           handles := Mark(x.handles, st.pstmt, ByStmt(s))))
  {
    LedgerNils(x);
    StmtGetsMore(x, st);
  }

  lemma StmtGetsMore(x: Snap, st: Stmt)
    requires LedgerOk(x) && x.created >= 0 && Carried(x, st.psql, st.pstmt) && KeyOf(x.sqls, st.psql, st.cacheKey)
    requires x.created + 1 !in x.stmts
    ensures var s := x.created + 1;
      && Unlent(x.stmts[s := st], x.rows, s)
      && LedgerOk(x.(stmts := x.stmts[s := st], strings := x.strings[st.psql := ByStmt(s)], created := s,
           handles := Mark(x.handles, st.pstmt, ByStmt(s))))
  {
    hide HandlesOk, StringsOk, TextsOk, OriginsOk, SerialsOk, Unheld, Unlent, Normalize;
    var s := x.created + 1;
    StmtGetsKeeps(x.m, x.stmts, x.rows, x.handles, x.strings, s, st);
    StmtGetsTexts(x.m, x.stmts, x.rows, x.strings, x.texts, x.copied, x.created, st);
    StmtGetsOrigins(x.m, x.stmts, x.sqls, x.pieces, s, st);
  }

  lemma StmtGivesLedger(x: Snap, s: int)
    requires LedgerOk(x) && Unlent(x.stmts, x.rows, s)
    ensures var st := x.stmts[s];
      && LedgerOk(x.(stmts := x.stmts - {s}, strings := x.strings[st.psql := InFlight],
           handles := if st.pstmt != 0 then x.handles[st.pstmt := InFlight] else x.handles))
      && st.psql in x.strings && st.psql in x.sqls
      && (st.cacheKey != "" ==> st.cacheKey == Normalize(x.sqls[st.psql]))
      && (st.pstmt != 0 ==>
            && st.pstmt in x.handles && st.pstmt in x.texts && x.texts[st.pstmt] == st.psql
            && Unheld(x.rows, x.texts, st.psql) && st.pstmt in x.pieces && x.pieces[st.pstmt] == 0)
  {
    hide HandlesOk, StringsOk, TextsOk, OriginsOk, SerialsOk, Unheld, Normalize;
    StmtGivesKeeps(x.m, x.stmts, x.rows, x.handles, x.strings, s);
    StmtGivesTexts(x.m, x.stmts, x.rows, x.strings, x.texts, x.copied, x.created, s);
    StmtGivesOrigins(x.m, x.stmts, x.sqls, x.pieces, s);
  }

  lemma NewRowsLedger(x: Snap, r: int, y: Rows)
    requires LedgerOk(x) && r != 0 && r !in x.rows && y.from in x.stmts
    requires y.reuse ==> x.stmts[y.from].pstmt != 0 && y.pstmt == x.stmts[y.from].pstmt
    requires !y.reuse ==> x.stmts[y.from].pstmt == 0
    requires Owns(y) ==>
      && y.pstmt in x.handles && x.handles[y.pstmt] == InFlight
      && y.pstmt in x.texts && x.texts[y.pstmt] == x.stmts[y.from].psql
    ensures LedgerOk(x.(rows := x.rows[r := y],
      handles := if Owns(y) then x.handles[y.pstmt := ByRows(r)] else x.handles))
  {
    hide StringsOk, TextsOk, OriginsOk, SerialsOk;
    if !y.reuse { NewRowsKeeps(x.m, x.stmts, x.rows, x.handles, r, y); }
    NewRowsTexts(x.m, x.stmts, x.rows, x.strings, x.texts, x.copied, x.created, r, y);
  }

  lemma CloseRowsLedger(x: Snap, r: int)
    requires LedgerOk(x) && r in x.rows
    ensures Owns(x.rows[r]) ==> x.rows[r].pstmt in x.handles
    ensures LedgerOk(x.(rows := x.rows - {r},
      handles := if Owns(x.rows[r]) then x.handles[x.rows[r].pstmt := InFlight] else x.handles))
  {
    hide HandlesOk, StringsOk, TextsOk, OriginsOk, SerialsOk;
    CloseRowsKeeps(x.m, x.stmts, x.rows, x.handles, r);
    CloseRowsTexts(x.m, x.stmts, x.rows, x.strings, x.texts, x.copied, x.created, r);
  }

  lemma StealLedger(x: Snap, s: int, r: int)
    requires LedgerOk(x) && s in x.stmts && r in x.rows && x.stmts[s].pstmt != 0
    requires x.rows[r].reuse && x.rows[r].pstmt == x.stmts[s].pstmt && Unlent(x.stmts, x.rows - {r}, s)
    ensures var stmts', rows' := x.stmts[s := x.stmts[s].(pstmt := 0)], x.rows[r := x.rows[r].(reuse := false)];
      && x.stmts[s].pstmt in x.handles && Unlent(stmts', rows', s)
      && LedgerOk(x.(stmts := stmts', rows := rows', handles := x.handles[x.stmts[s].pstmt := ByRows(r)]))
  {
    hide HandlesOk, StringsOk, TextsOk, OriginsOk, SerialsOk, Unlent;
    StealKeeps(x.m, x.stmts, x.rows, x.handles, x.strings, s, r);
    StealTexts(x.m, x.stmts, x.rows, x.strings, x.texts, x.copied, x.created, s, r);
    StmtGivesOrigins(x.m, x.stmts, x.sqls, x.pieces, s);
  }

  lemma CacheGivesLedger(x: Snap, key: string, ord: seq<string>)
    requires LedgerOk(x) && key in x.m
    ensures var e := x.m[key];
      && e.pstmt in x.handles && x.handles[e.pstmt] != InFlight && e.psql in x.strings && x.strings[e.psql] != InFlight
      && LedgerOk(x.(m := x.m - {key}, ord := ord, handles := x.handles[e.pstmt := InFlight],
           strings := x.strings[e.psql := InFlight]))
      && e.pstmt in x.texts && x.texts[e.pstmt] == e.psql && Unheld(x.rows, x.texts, e.psql)
      && e.psql in x.sqls && Normalize(x.sqls[e.psql]) == key && e.pstmt in x.pieces && x.pieces[e.pstmt] == 0
  {
    hide HandlesOk, StringsOk, TextsOk, OriginsOk, SerialsOk, Unheld, Normalize;
    CacheGivesKeeps(x.m, x.stmts, x.rows, x.handles, x.strings, key);
    CacheGivesTexts(x.m, x.stmts, x.rows, x.strings, x.texts, x.copied, x.created, key);
    CacheGivesOrigins(x.m, x.stmts, x.sqls, x.pieces, key);
  }

  lemma CacheGetsLedger(x: Snap, key: string, e: Entry, ord: seq<string>)
    requires LedgerOk(x) && key !in x.m
    requires e.pstmt in x.handles && x.handles[e.pstmt] == InFlight
    requires e.psql in x.strings && x.strings[e.psql] == InFlight
    requires e.pstmt in x.texts && x.texts[e.pstmt] == e.psql && Unheld(x.rows, x.texts, e.psql)
    requires e.psql in x.sqls && Normalize(x.sqls[e.psql]) == key && e.pstmt in x.pieces && x.pieces[e.pstmt] == 0
    ensures LedgerOk(x.(m := x.m[key := e], ord := ord, handles := x.handles[e.pstmt := ByCache(key)],
      strings := x.strings[e.psql := ByCache(key)]))
    ensures e.pstmt != 0 && e.psql != 0
  {
    hide HandlesOk, StringsOk, TextsOk, OriginsOk, SerialsOk, Unheld, Normalize;
    CacheGetsKeeps(x.m, x.stmts, x.rows, x.handles, x.strings, key, e);
    CacheGetsTexts(x.m, x.stmts, x.rows, x.strings, x.texts, x.copied, x.created, key, e);
    CacheGetsOrigins(x.m, x.stmts, x.sqls, x.pieces, key, e);
  }

  lemma DrainLedger(x: Snap)
    requires LedgerOk(x)
    ensures LedgerOk(x.(m := map[], ord := [], handles := DisownedIn(x.handles), strings := DisownedIn(x.strings)))
    ensures |DisownedIn(x.handles)| == |x.handles| && |DisownedIn(x.strings)| == |x.strings|
  {
    hide HandlesOk, StringsOk, TextsOk, OriginsOk, SerialsOk, DisownedIn;
    DrainKeeps(x.m, x.stmts, x.rows, x.handles, x.strings);
    DrainTexts(x.m, x.stmts, x.rows, x.strings, x.texts, x.copied, x.created);
    DrainOrigins(x.m, x.stmts, x.sqls, x.pieces);
  }

  class Conn {
    const cap: int
    var m: map<string, Entry>
    var ord: seq<string>
    var stmts: map<int, Stmt>
    var rows: map<int, Rows>

    /** SQLite's live statements and the C heap's live SQL texts, each marked with the one who
        answers for it, and how many were ever made and destroyed. */
    var handles: map<int, Owner>
    var strings: map<int, Owner>
    var prepared: nat
    var finalized: nat
    var copied: nat
    var freed: nat
    var created: nat

    /** The text each live handle was prepared from, and which statement of it; what each text says;
        and every statement run so far. */
    ghost var texts: map<int, int>
    ghost var pieces: map<int, int>
    ghost var sqls: map<int, string>
    ghost var ran: seq<Step>

    predicate Enabled() { cap > 0 }

    // ---- the invariant ----

    /** The cache: keys listed once each in recency order, trimmed, within capacity. */
    ghost predicate CacheOk()
      reads this`m, this`ord
    {
      CacheIs(cap, m, ord)
    }

    /** Whatever was made is either live or was destroyed exactly once. */
    ghost predicate Conserved()
      reads this`handles, this`strings, this`prepared, this`finalized, this`copied, this`freed
    {
      prepared == finalized + |handles| && copied == freed + |strings|
    }

    /** Nothing is held by a local variable between calls. */
    ghost predicate Settled()
      reads this`handles, this`strings
    {
      NoneInFlight(handles) && NoneInFlight(strings)
    }

    ghost predicate Sound()
      reads this
    {
      CacheOk() && Conserved() && LedgerOk(Look())
    }

    /** Everything a caller could look at between two calls. */
    ghost function Look(): Snap
      reads this
    {
      Snap(cap, ord, m, stmts, rows, handles, strings, texts, pieces, sqls, ran, copied, created)
    }

    constructor (cap: int)
      ensures Sound() && Settled() && this.cap == cap
      ensures m == map[] && ord == [] && stmts == map[] && rows == map[] && handles == map[] && strings == map[]
      ensures texts == map[] && pieces == map[] && sqls == map[] && ran == [] && copied == created == 0
    {
      this.cap := cap;
      m, ord, stmts, rows, handles, strings := map[], [], map[], map[], map[], map[];
      prepared, finalized, copied, freed, created := 0, 0, 0, 0, 0;
      texts, pieces, sqls, ran := map[], map[], map[], [];
    }

    static method Unused(used: set<int>) returns (x: int)
      ensures x !in used && x != 0
    {
      x := 1;
      ghost var rest := used;
      while x in used
        invariant rest <= used && x >= 1 && forall y :: y in used && y >= x ==> y in rest
        decreases rest
      {
        rest := rest - {x};
        x := x + 1;
      }
    }

    // ---- SQLite and libc ----

    /** sqlite3_prepare of one statement of a text: a handle no live statement has. */
    method Prepare(ghost p: int, ghost piece: int) returns (h: int)
      requires Sound()
      modifies this`handles, this`texts, this`pieces, this`prepared
      ensures Sound()
      ensures h != 0 && h !in old(handles) && handles == old(handles)[h := InFlight] && texts == old(texts)[h := p]
      ensures pieces == old(pieces)[h := piece]
      ensures forall q :: Unheld(rows, old(texts), q) ==> Unheld(rows, texts, q)
    {
      hide CacheOk, LedgerOk, Unheld;
      h := Unused(handles.Keys);
      CardPlus(handles, h, InFlight);
      PrepareLedger(Look(), h, p, piece);
      handles := handles[h := InFlight];
      texts, pieces := texts[h := p], pieces[h := piece];
      prepared := prepared + 1;
      assert Look() == old(Look()).(handles := handles, texts := texts, pieces := pieces);
    }

    /** The first sqlite3_step of a statement, or the first since its reset. */
    method StepOnce(h: int)
      requires Sound() && h in handles && h in pieces
      modifies this`ran
      ensures Sound() && h in texts && ran == old(ran) + [Step(texts[h], pieces[h])]
    {
      ran := ran + [Step(texts[h], pieces[h])];
    }

    /** sqlite3_finalize: only ever on a live handle that nobody else answers for. */
    method Finalize(h: int)
      requires Sound() && h in handles && handles[h] == InFlight
      modifies this`handles, this`texts, this`finalized
      ensures Sound()
      ensures handles == old(handles) - {h} && texts == old(texts) - {h}
      ensures forall q :: Unheld(rows, old(texts), q) ==> Unheld(rows, texts, q)
    {
      hide CacheOk, LedgerOk, Unheld;
      CardMinus(handles, h);
      FinalizeLedger(Look(), h);
      handles := handles - {h};
      texts := texts - {h};
      finalized := finalized + 1;
      assert Look() == old(Look()).(handles := handles, texts := texts);
    }

    /** libc.CString. */
    method CString(sql: string) returns (p: int)
      requires Sound()
      modifies this`strings, this`sqls, this`copied
      ensures Sound() && p !in old(sqls) && sqls == old(sqls)[p := sql]
      ensures p != 0 && p !in old(strings) && strings == old(strings)[p := InFlight] && Unheld(rows, texts, p)
    {
      hide CacheOk, LedgerOk, Unheld;
      p := copied + 1;
      CopyLedger(Look(), sql);
      CardPlus(strings, p, InFlight);
      strings := strings[p := InFlight];
      sqls := sqls[p := sql];
      copied := copied + 1;
      assert Look() == old(Look()).(strings := strings, sqls := sqls, copied := copied);
    }

    /** libc's free: only ever on a live text that nobody else answers for. */
    method Free(p: int)
      requires Sound() && p in strings && strings[p] == InFlight
      modifies this`strings, this`freed
      ensures Sound()
      ensures strings == old(strings) - {p}
    {
      hide CacheOk, LedgerOk;
      CardMinus(strings, p);
      FreeLedger(Look(), p);
      strings := strings - {p};
      freed := freed + 1;
      assert Look() == old(Look()).(strings := strings);
    }

    lemma NilIsNeverLive()
      requires Sound()
      ensures 0 !in handles && 0 !in strings && 0 !in stmts && 0 !in rows
    {
    }

    // ---- ownership moves ----

    /** A statement object takes a text, and a handle unless that is nil. */
    method StmtGets(p: int, h: int, key: string) returns (s: int)
      requires Sound() && Carried(Look(), p, h) && KeyOf(sqls, p, key)
      modifies this`stmts, this`handles, this`strings, this`created
      ensures Sound() && Unlent(stmts, rows, s)
      ensures s != 0 && s !in old(stmts) && stmts == old(stmts)[s := Stmt(p, h, key)]
      ensures strings == old(strings)[p := ByStmt(s)]
      ensures handles == Mark(old(handles), h, ByStmt(s))
    {
      hide CacheOk, LedgerOk, Carried, KeyOf, Unlent, Mark;
      s := created + 1;
      StmtGetsLedger(Look(), Stmt(p, h, key));
      CarriedSize(Look(), p, h, ByStmt(s));
      stmts := stmts[s := Stmt(p, h, key)];
      strings, handles, created := strings[p := ByStmt(s)], Mark(handles, h, ByStmt(s)), s;
      assert Look() == old(Look()).(stmts := stmts, strings := strings, handles := handles, created := created);
    }

    /** A statement object goes away, leaving its text and handle to the caller. */
    method StmtGives(s: int) returns (st: Stmt)
      requires Sound() && Unlent(stmts, rows, s)
      modifies this`stmts, this`handles, this`strings
      ensures Sound()
      ensures st == old(stmts)[s] && stmts == old(stmts) - {s}
      ensures strings == old(strings)[st.psql := InFlight]
      ensures handles == if st.pstmt != 0 then old(handles)[st.pstmt := InFlight] else old(handles)
      ensures st.psql in strings && (st.pstmt != 0 ==> st.pstmt in handles) && handles.Keys == old(handles).Keys
      ensures st.pstmt != 0 ==> st.pstmt in texts && texts[st.pstmt] == st.psql && Unheld(rows, texts, st.psql)
      ensures st.psql in sqls && (st.cacheKey != "" ==> st.cacheKey == Normalize(sqls[st.psql]))
      ensures st.pstmt != 0 ==> st.pstmt in pieces && pieces[st.pstmt] == 0
    {
      hide CacheOk, LedgerOk, Unheld;
      st := stmts[s];
      StmtGivesLedger(Look(), s);
      CardSame(strings, st.psql, InFlight);
      stmts := stmts - {s};
      strings := strings[st.psql := InFlight];
      if st.pstmt != 0 {
        CardSame(handles, st.pstmt, InFlight);
        handles := handles[st.pstmt := InFlight];
      }
      assert Look() == old(Look()).(stmts := stmts, strings := strings, handles := handles);
    }

    /** newRows: a result set takes a handle (nil for a script without statements). */
    method NewRows(h: int, empty: bool, from: int) returns (r: int)
      requires Sound() && from in stmts && stmts[from].pstmt == 0
      requires h != 0 ==> h in handles && handles[h] == InFlight && h in texts && texts[h] == stmts[from].psql
      modifies this`rows, this`handles
      ensures Sound()
      ensures r != 0 && r !in old(rows) && rows == old(rows)[r := Rows(h, false, empty, from)]
      ensures handles == if h != 0 then old(handles)[h := ByRows(r)] else old(handles)
    {
      hide CacheOk, LedgerOk;
      r := Unused(rows.Keys);
      var x := Rows(h, false, empty, from);
      LedgerNils(Look());
      NewRowsLedger(Look(), r, x);
      rows := rows[r := x];
      if h != 0 {
        CardSame(handles, h, ByRows(r));
        handles := handles[h := ByRows(r)];
      }
      assert Look() == old(Look()).(rows := rows, handles := handles);
    }

    /** newRows over a prepared statement's own handle, which stays the statement's. */
    method BorrowRows(s: int, empty: bool) returns (r: int)
      requires Sound() && s in stmts && stmts[s].pstmt != 0
      modifies this`rows
      ensures Sound()
      ensures r != 0 && r !in old(rows) && rows == old(rows)[r := Rows(stmts[s].pstmt, true, empty, s)]
    {
      hide CacheOk, LedgerOk;
      r := Unused(rows.Keys);
      NewRowsLedger(Look(), r, Rows(stmts[s].pstmt, true, empty, s));
      rows := rows[r := Rows(stmts[s].pstmt, true, empty, s)];
      assert Look() == old(Look()).(rows := rows);
    }

    /** A result set goes away, leaving the handle it owns, if any, to the caller. */
    method RowsGives(r: int) returns (x: Rows)
      requires Sound() && r in rows
      modifies this`rows, this`handles
      ensures Sound() && x == old(rows)[r] && rows == old(rows) - {r}
      ensures !x.reuse && x.pstmt != 0 ==> x.pstmt in old(handles) && handles == old(handles)[x.pstmt := InFlight]
      ensures x.reuse || x.pstmt == 0 ==> handles == old(handles)
    {
      hide CacheOk, LedgerOk;
      x := rows[r];
      CloseRowsLedger(Look(), r);
      rows := rows - {r};
      if !x.reuse && x.pstmt != 0 {
        CardSame(handles, x.pstmt, InFlight);
        handles := handles[x.pstmt := InFlight];
      }
      assert Look() == old(Look()).(rows := rows, handles := handles);
    }

    /** rows.Close: a borrowed handle is reset and stays where it is, an owned one is finalized. */
    method CloseRows(r: int)
      requires Sound() && r in rows
      modifies this`rows, this`handles, this`texts, this`finalized
      ensures Sound() && (old(Settled()) ==> Settled())
      ensures rows == old(rows) - {r}
      ensures handles == if old(rows)[r].reuse then old(handles) else old(handles) - {old(rows)[r].pstmt}
      ensures texts == if Owns(old(rows)[r]) then old(texts) - {old(rows)[r].pstmt} else old(texts)
    {
      hide Sound, NoneInFlight;
      NilIsNeverLive();
      Gone(handles, rows[r].pstmt);
      if !rows[r].reuse && rows[r].pstmt != 0 {
        CloseOwned(r);
      } else {
        var _ := RowsGives(r);
      }
    }

    method CloseOwned(r: int)
      requires Sound() && r in rows && Owns(rows[r])
      modifies this`rows, this`handles, this`texts, this`finalized
      ensures Sound() && rows == old(rows) - {r}
      ensures handles == old(handles) - {old(rows)[r].pstmt} && texts == old(texts) - {old(rows)[r].pstmt}
    {
      hide Sound;
      var x := RowsGives(r);
      Finalize(x.pstmt);
      Gone(old(handles), x.pstmt);
    }

    // ---- the cache ----

    /** take: the entry leaves the cache and belongs to the caller. */
    method Take(sql: string) returns (e: Option<Entry>)
      requires Sound()
      modifies this`m, this`ord, this`handles, this`strings
      ensures Sound()
      ensures e.Some? <==> Enabled() && Normalize(sql) in old(m)
      ensures e.None? ==> m == old(m) && ord == old(ord) && handles == old(handles) && strings == old(strings)
      ensures e.Some? ==> e.value == old(m)[Normalize(sql)]
      ensures e.Some? ==> m == old(m) - {Normalize(sql)} && ord == Without(old(ord), Normalize(sql))
      ensures e.Some? ==> e.value.pstmt in old(handles) && handles == old(handles)[e.value.pstmt := InFlight]
      ensures e.Some? ==> e.value.psql in old(strings) && strings == old(strings)[e.value.psql := InFlight]
      ensures e.Some? ==> old(handles)[e.value.pstmt] != InFlight && old(strings)[e.value.psql] != InFlight
      ensures e.Some? ==> Carried(Look(), e.value.psql, e.value.pstmt)
      ensures e.Some? ==> e.value.psql in sqls && Normalize(sqls[e.value.psql]) == Normalize(sql)
    {
      hide LedgerOk, Unheld;
      var key := Normalize(sql);
      if !Enabled() || key !in m { return None; }
      var x := CacheGives(key);
      return Some(x);
    }

    /** An entry is unlinked from the map and the list. */
    method CacheGives(key: string) returns (x: Entry)
      requires Sound() && key in m
      modifies this`m, this`ord, this`handles, this`strings
      ensures Sound()
      ensures x == old(m)[key] && m == old(m) - {key} && ord == Without(old(ord), key) && |ord| == old(|ord|) - 1
      ensures x.pstmt in old(handles) && handles == old(handles)[x.pstmt := InFlight]
      ensures x.psql in old(strings) && strings == old(strings)[x.psql := InFlight]
      ensures old(handles)[x.pstmt] != InFlight && old(strings)[x.psql] != InFlight
      ensures x.pstmt in texts && texts[x.pstmt] == x.psql && Unheld(rows, texts, x.psql)
      ensures x.psql in sqls && Normalize(sqls[x.psql]) == key && x.pstmt in pieces && pieces[x.pstmt] == 0
    {
      hide LedgerOk, Unheld, CacheIs, Without;
      x := m[key];
      CacheWithout(cap, m, ord, key);
      CacheGivesLedger(Look(), key, Without(ord, key));
      CardSame(handles, x.pstmt, InFlight);
      CardSame(strings, x.psql, InFlight);
      m, ord := m - {key}, Without(ord, key);
      handles := handles[x.pstmt := InFlight];
      strings := strings[x.psql := InFlight];
      assert Look() == old(Look()).(m := m, ord := ord, handles := handles, strings := strings);
    }

    /** A new entry goes to the front. */
    method CacheGets(key: string, p: int, h: int)
      requires Sound() && key !in m && Trimmed(key) && |ord| < cap
      requires p in strings && strings[p] == InFlight && h in handles && handles[h] == InFlight
      requires h in texts && texts[h] == p && Unheld(rows, texts, p)
      requires p in sqls && Normalize(sqls[p]) == key && h in pieces && pieces[h] == 0
      modifies this`m, this`ord, this`handles, this`strings
      ensures Sound()
      ensures m == old(m)[key := Entry(p, h)] && ord == [key] + old(ord)
      ensures handles == old(handles)[h := ByCache(key)] && strings == old(strings)[p := ByCache(key)]
    {
      hide LedgerOk, Unheld, CacheIs;
      CacheGetsLedger(Look(), key, Entry(p, h), [key] + ord);
      CacheWith(cap, m, ord, key, Entry(p, h));
      CardSame(handles, h, ByCache(key));
      CardSame(strings, p, ByCache(key));
      m, ord := m[key := Entry(p, h)], [key] + ord;
      handles := handles[h := ByCache(key)];
      strings := strings[p := ByCache(key)];
      assert Look() == old(Look()).(m := m, ord := ord, handles := handles, strings := strings);
    }

    /** put: the cache takes the pair; what it evicts, if anything, belongs to the caller. A disabled
        cache hands the pair straight back. */
    method Put(sql: string, p: int, h: int) returns (e: Option<Entry>)
      requires Sound()
      requires p in strings && strings[p] == InFlight && h in handles && handles[h] == InFlight
      requires h in texts && texts[h] == p && Unheld(rows, texts, p)
      requires p in sqls && Normalize(sqls[p]) == Normalize(sql) && h in pieces && pieces[h] == 0
      modifies this`m, this`ord, this`handles, this`strings
      ensures Sound()
      ensures !Enabled() ==> e == Some(Entry(p, h)) && m == old(m) && ord == old(ord)
      ensures !Enabled() ==> handles == old(handles) && strings == old(strings)
      ensures Enabled() ==> Donated(old(m), old(ord), Normalize(sql), p, h)
      ensures Enabled() ==> var out := Out(old(m), old(ord), cap, Normalize(sql));
        (e.Some? <==> out.Some?) && (e.Some? ==> out.value in old(m) && e.value == old(m)[out.value])
      ensures Enabled() && e.None? ==> handles == old(handles)[h := ByCache(Normalize(sql))]
      ensures Enabled() && e.None? ==> strings == old(strings)[p := ByCache(Normalize(sql))]
      ensures e.Some? ==> e.value.pstmt in old(handles) && e.value.psql in old(strings)
      ensures Enabled() && e.Some? ==> e.value.pstmt != h && e.value.psql != p
      ensures Enabled() && e.Some? ==> handles == old(handles)[e.value.pstmt := InFlight][h := ByCache(Normalize(sql))]
      ensures Enabled() && e.Some? ==> strings == old(strings)[e.value.psql := InFlight][p := ByCache(Normalize(sql))]
    {
      hide Sound, Unheld, Without;
      if !Enabled() { return Some(Entry(p, h)); }
      var key := Normalize(sql);
      NormalizeIs(sql);
      e := MakeRoom(key);
      CacheGets(key, p, h);
    }

    /** The entry that has to leave for `key`, if any, is unlinked. */
    method MakeRoom(key: string) returns (e: Option<Entry>)
      requires Sound() && Enabled()
      modifies this`m, this`ord, this`handles, this`strings
      ensures Sound() && key !in m && |ord| < cap
      ensures var out := Out(old(m), old(ord), cap, key);
        && (e.Some? <==> out.Some?)
        && (out.None? ==> m == old(m) && ord == old(ord) && handles == old(handles) && strings == old(strings))
        && (out.Some? ==> out.value in old(m) && e.value == old(m)[out.value])
        && (out.Some? ==> m == old(m) - {out.value} && ord == Without(old(ord), out.value))
      ensures e.Some? ==>
        && e.value.pstmt in old(handles) && handles == old(handles)[e.value.pstmt := InFlight]
        && e.value.psql in old(strings) && strings == old(strings)[e.value.psql := InFlight]
        && old(handles)[e.value.pstmt] != InFlight && old(strings)[e.value.psql] != InFlight
    {
      hide LedgerOk, Unheld;
      if key in m {
        var x := CacheGives(key);
        return Some(x);
      }
      if |ord| >= cap {
        var x := CacheGives(ord[|ord| - 1]);
        return Some(x);
      }
      return None;
    }

    // ---- the driver's operations ----

    /** newStmt: a hit takes the cached pair, a miss prepares. */
    method NewStmt(sql: string, o: Prepared) returns (s: int)
      requires Sound() && Settled()
      modifies this
      ensures Sound() && Settled() && rows == old(rows)
      ensures s == 0 <==> !old(Hit(sql)) && FailsToPrepare(o)
      ensures s == 0 ==> stmts == old(stmts) && handles == old(handles) && strings == old(strings)
      ensures s != 0 ==> s !in old(stmts) && s in stmts && stmts == old(stmts)[s := stmts[s]] && Unlent(stmts, rows, s)
      ensures s != 0 ==> stmts[s].psql in sqls && Normalize(sqls[stmts[s].psql]) == Normalize(sql)
      ensures ran == old(ran) && Grew(old(sqls), sqls)
      ensures !old(Hit(sql)) ==> m == old(m) && ord == old(ord)
      ensures s != 0 && !old(Hit(sql)) ==>
        && (stmts[s].pstmt != 0 <==> o.Handle?)
        && stmts[s].cacheKey == (if o.Handle? && Enabled() then Normalize(sql) else "")
        && stmts[s].pstmt !in old(handles) && stmts[s].psql !in old(strings) && sqls[stmts[s].psql] == sql
      ensures old(Hit(sql)) ==>
        && m == old(m) - {Normalize(sql)} && ord == Without(old(ord), Normalize(sql))
        && stmts[s] == Stmt(old(m)[Normalize(sql)].psql, old(m)[Normalize(sql)].pstmt, Normalize(sql))
        && stmts[s].pstmt != 0 && handles.Keys == old(handles).Keys
    {
      hide Sound, Carried, Normalize, Without, Unlent, NoneInFlight, Mark;
      NilIsNeverLive();
      var e := Take(sql);
      if e.Some? {
        s := StmtGets(e.value.psql, e.value.pstmt, Normalize(sql));
        Retaken(old(handles), e.value.pstmt, ByStmt(s));
        Retaken(old(strings), e.value.psql, ByStmt(s));
        return;
      }
      s := NewStmtMiss(sql, if Enabled() then Normalize(sql) else "", o);
    }

    /** The slow path: copy the text, prepare it, and keep the handle of a lone statement only. */
    method NewStmtMiss(sql: string, key: string, o: Prepared) returns (s: int)
      requires Sound() && Settled() && (key != "" ==> key == Normalize(sql))
      modifies this`stmts, this`handles, this`texts, this`pieces, this`sqls, this`strings
      modifies this`prepared, this`finalized, this`copied, this`freed, this`created
      ensures Sound() && Settled()
      ensures s == 0 <==> FailsToPrepare(o)
      ensures s == 0 ==> stmts == old(stmts) && handles == old(handles) && strings == old(strings)
      ensures s != 0 ==> s !in old(stmts) && s in stmts && stmts == old(stmts)[s := stmts[s]] && Unlent(stmts, rows, s)
      ensures s != 0 ==> (stmts[s].pstmt != 0 <==> o.Handle?) && stmts[s].cacheKey == if o.Handle? then key else ""
      ensures s != 0 ==> stmts[s].pstmt !in old(handles) && stmts[s].psql !in old(strings)
      ensures s != 0 ==> stmts[s].psql in sqls && sqls[stmts[s].psql] == sql
      ensures Grew(old(sqls), sqls)
    {
      hide Sound, Unlent, Unheld, Normalize;
      NilIsNeverLive();
      var p, h := PrepareText(sql, o);
      if p == 0 { return 0; }
      s := StmtGets(p, h, if o.Handle? then key else "");
    }

    method PrepareText(sql: string, o: Prepared) returns (p: int, h: int)
      requires Sound()
      modifies this`handles, this`texts, this`pieces, this`sqls, this`strings
      modifies this`prepared, this`finalized, this`copied, this`freed
      ensures Sound()
      ensures p == 0 <==> FailsToPrepare(o)
      ensures h != 0 <==> o.Handle?
      ensures p == 0 ==> strings == old(strings)
      ensures p != 0 ==> p !in old(strings) && strings == old(strings)[p := InFlight]
      ensures h == 0 ==> handles == old(handles)
      ensures h != 0 ==> h !in old(handles) && handles == old(handles)[h := InFlight] && h in texts && texts[h] == p
      ensures p != 0 ==> Unheld(rows, texts, p) && p in sqls && sqls[p] == sql
      ensures h != 0 ==> h in pieces && pieces[h] == 0
      ensures Grew(old(sqls), sqls)
    {
      hide Sound, Unheld;
      if o.NoMemory? { return 0, 0; }
      h := 0;
      p := CString(sql);
      var fails := o.Fails?;
      if o.Handle? || o.Head? { h := Prepare(p, 0); }
      if o.Head? {
        Finalize(h);
        h, fails := 0, o.finalizeFails;
      }
      if fails {
        Free(p);
        p := 0;
      }
    }

    ghost predicate Hit(sql: string)
      reads this`m
    {
      Enabled() && Normalize(sql) in m
    }

    /** stmt.Close: a reusable handle is donated and the loser destroyed; otherwise both go. */
    method CloseStmt(s: int)
      requires Sound() && Settled() && Unlent(stmts, rows, s)
      modifies this
      ensures Sound() && Settled() && rows == old(rows) && stmts == old(stmts) - {s}
      ensures ran == old(ran) && sqls == old(sqls) && pieces == old(pieces)
      ensures !old(Donates(s)) ==> m == old(m) && ord == old(ord)
      ensures !old(Donates(s)) ==> handles == old(handles) - {old(stmts)[s].pstmt}
      ensures !old(Donates(s)) ==> strings == old(strings) - {old(stmts)[s].psql}
      ensures old(Donates(s)) ==>
        var st := old(stmts)[s]; Donated(old(m), old(ord), Normalize(st.cacheKey), st.psql, st.pstmt)
      ensures old(Donates(s)) ==>
        handles.Keys == Freed(old(handles).Keys, Out(old(m), old(ord), cap, Normalize(old(stmts)[s].cacheKey)), old(m))
    {
      hide Sound, Out, Normalize, Donated, Freed, Without, Unheld;
      var st := StmtGives(s);
      if st.pstmt != 0 && st.cacheKey != "" && Enabled() {
        NormalizeIs(sqls[st.psql]);
        Donate(st.cacheKey, st.psql, st.pstmt);
      } else {
        Destroy(st.psql, st.pstmt);
      }
    }

    /** Finalize and free what a closed statement or an evicted entry held. */
    method Destroy(p: int, h: int)
      requires Sound() && p in strings && strings[p] == InFlight
      requires h != 0 ==> h in handles && handles[h] == InFlight
      modifies this`handles, this`texts, this`strings, this`finalized, this`freed
      ensures Sound() && handles == old(handles) - {h} && strings == old(strings) - {p}
    {
      hide CacheOk, LedgerOk, Conserved;
      NilIsNeverLive();
      if h != 0 { Finalize(h); }
      Free(p);
    }

    /** The cache after a donation: the new pair in front, the loser gone, the rest as it was. */
    ghost predicate Donated(was: map<string, Entry>, order: seq<string>, key: string, p: int, h: int)
      reads this`m, this`ord
    {
      DonatedTo(cap, was, order, key, p, h, m, ord)
    }

    /** Put, with the finalize and free that its caller owes the loser. */
    method Donate(sql: string, p: int, h: int)
      requires Sound() && Enabled() && p in strings && h in handles
      requires h in texts && texts[h] == p && Unheld(rows, texts, p)
      requires p in sqls && Normalize(sqls[p]) == Normalize(sql) && h in pieces && pieces[h] == 0
      requires forall x :: x in handles ==> (handles[x] == InFlight <==> x == h)
      requires forall x :: x in strings ==> (strings[x] == InFlight <==> x == p)
      modifies this`m, this`ord, this`handles, this`texts, this`strings, this`finalized, this`freed
      ensures Sound() && Settled()
      ensures Donated(old(m), old(ord), Normalize(sql), p, h)
      ensures handles.Keys == Freed(old(handles).Keys, Out(old(m), old(ord), cap, Normalize(sql)), old(m))
    {
      hide Sound, Out, Normalize, Without, Donated, Unheld;
      var e := Put(sql, p, h);
      if e.Some? {
        Destroy(e.value.psql, e.value.pstmt);
      }
    }

    ghost predicate Donates(s: int)
      requires s in stmts
      reads this`stmts
    {
      stmts[s].pstmt != 0 && stmts[s].cacheKey != "" && Enabled()
    }

    /** stmt.exec: a prepared statement is stepped and reset; a script prepares and finalizes piece
        by piece until one fails. */
    method Exec(s: int, single: Outcome, ps: seq<Piece>) returns (ok: bool, ghost steps: seq<Step>)
      requires Sound() && Settled() && s in stmts
      modifies this`handles, this`texts, this`pieces, this`ran, this`prepared, this`finalized
      ensures Sound() && Settled() && handles == old(handles)
      ensures ok <==> if stmts[s].pstmt != 0 then single != Error else !ExecFails(ps)
      ensures ran == old(ran) + steps && ExecutedBy(stmts[s], ps, steps)
    {
      hide Sound, ExecFails, ExecRan;
      if stmts[s].pstmt != 0 {
        OriginOf(s);
        StepOnce(stmts[s].pstmt);
        return single != Error, [Step(stmts[s].psql, 0)];
      }
      ok, steps := ExecScript(s, ps);
    }

    method ExecScript(s: int, ps: seq<Piece>) returns (ok: bool, ghost steps: seq<Step>)
      requires Sound() && s in stmts
      modifies this`handles, this`texts, this`pieces, this`ran, this`prepared, this`finalized
      ensures Sound() && handles == old(handles)
      ensures ok <==> !ExecFails(ps)
      ensures ran == old(ran) + steps && ExecRan(stmts[s].psql, ps, steps)
    {
      hide Sound, ExecFails, Spoils, RanAll, ExecReaches;
      NothingFailed(ps);
      RanNothing(stmts[s].psql, ps);
      steps := [];
      var i := 0;
      while i < |ps|
        invariant 0 <= i <= |ps| && Sound() && handles == old(handles) && !ExecFails(ps[..i])
        invariant forall j :: 0 <= j < i ==> !Spoils(ps[j])
        invariant ran == old(ran) + steps && RanAll(stmts[s].psql, ps[..i], steps)
      {
        ExecFailsNext(ps, i);
        SpoilsIs(ps[i]);
        RanNext(stmts[s].psql, ps, i, steps);
        ExecReachesIs(ps, i + 1);
        if ps[i].Unpreparable? { return false, steps; }
        if ps[i].Stepped? {
          RunPiece(stmts[s].psql, i);
          steps := steps + [Step(stmts[s].psql, i)];
          if ps[i].rc == Error || ps[i].finalizeFails { return false, steps; }
        }
        i := i + 1;
      }
      assert ps[..i] == ps;
      ExecReachesIs(ps, i);
      return true, steps;
    }

    /** Prepare, step and finalize one statement. */
    method RunPiece(ghost p: int, ghost i: int)
      requires Sound()
      modifies this`handles, this`texts, this`pieces, this`ran, this`prepared, this`finalized
      ensures Sound() && handles == old(handles) && ran == old(ran) + [Step(p, i)]
    {
      hide Sound;
      var h := Prepare(p, i);
      StepOnce(h);
      Finalize(h);
      Landed(old(handles), h);
    }

    /** A statement's own handle was prepared from its text, for the one statement that is. */
    lemma OriginOf(s: int)
      requires Sound() && s in stmts && stmts[s].pstmt != 0
      ensures stmts[s].pstmt in handles && stmts[s].pstmt in texts && texts[stmts[s].pstmt] == stmts[s].psql
      ensures stmts[s].pstmt in pieces && pieces[stmts[s].pstmt] == 0
    {
    }

    /** stmt.query. A prepared statement lends its handle to the result set. A script leaves at most
        one of its handles alive, in the result set it returns. */
    method Query(s: int, single: Outcome, ps: seq<Piece>) returns (r: int, ghost steps: seq<Step>)
      requires Sound() && Settled() && s in stmts
      modifies this`rows, this`handles, this`texts, this`pieces, this`ran, this`prepared, this`finalized
      ensures Sound() && Settled()
      ensures r == 0 ==> rows == old(rows) && handles == old(handles)
      ensures r != 0 ==> r !in old(rows) && r in rows && rows == old(rows)[r := rows[r]]
      ensures stmts[s].pstmt != 0 ==> handles == old(handles)
      ensures stmts[s].pstmt != 0 ==> (r == 0 <==> single == Error)
      ensures stmts[s].pstmt != 0 && r != 0 ==> rows[r] == Rows(stmts[s].pstmt, true, single == Done, s)
      ensures stmts[s].pstmt == 0 ==> (r == 0 <==> QueryFails(ps))
      ensures stmts[s].pstmt == 0 && r != 0 ==>
        Shown(rows[r], ps, pieces) && rows[r].pstmt !in old(handles) && rows[r].from == s && !rows[r].reuse
      ensures ran == old(ran) + steps && QueriedBy(stmts[s], ps, steps)
    {
      hide Sound, Shown, QueryRan, QueryFails;
      if stmts[s].pstmt != 0 {
        OriginOf(s);
        StepOnce(stmts[s].pstmt);
        steps := [Step(stmts[s].psql, 0)];
        if single == Error { return 0, steps; }
        r := BorrowRows(s, single == Done);
      } else {
        r, steps := QueryScript(s, ps);
      }
    }

    /** What a script's result set must be, and the statement it must show. */
    static ghost predicate Shown(x: Rows, ps: seq<Piece>, pieces: map<int, int>) {
      && !x.reuse && x.empty == !ShowsRows(ps) && (x.pstmt != 0 <==> AnyStepped(ps))
      && (x.pstmt != 0 ==> x.pstmt in pieces && Chosen(ps, pieces[x.pstmt]))
    }

    /** The statement of the script that result set `r` shows. */
    ghost predicate Shows(r: int, k: int)
      reads this`rows, this`pieces
    {
      r in rows && rows[r].pstmt in pieces && pieces[rows[r].pstmt] == k
    }

    /** The script has one result set open, or none; its handle is the only one the script has alive
        beyond `hs`, and it is the only one open beyond `rs`. */
    ghost predicate Holding(s: int, hs: map<int, Owner>, rs: map<int, Rows>, r: int)
      reads this`rows, this`handles
    {
      if r == 0 then rows == rs && handles == hs
      else
        && r !in rs && r in rows && rows == rs[r := rows[r]] && rows[r].from == s
        && !rows[r].reuse && rows[r].pstmt != 0 && rows[r].pstmt !in hs && handles == hs[rows[r].pstmt := ByRows(r)]
    }

    ghost predicate Empty(r: int)
      reads this`rows
    {
      r in rows && rows[r].empty
    }

    /** Closing it leaves things as they were before the script. */
    method Discard(s: int, r: int, ghost hs: map<int, Owner>, ghost rs: map<int, Rows>)
      requires Sound() && Holding(s, hs, rs, r)
      modifies this`rows, this`handles, this`texts, this`finalized
      ensures Sound() && rows == rs && handles == hs
      ensures forall h :: h in hs && h in old(texts) ==> h in texts && texts[h] == old(texts)[h]
    {
      hide Sound;
      if r != 0 { CloseRows(r); }
    }

    /** The next statement is prepared while the open result set keeps its handle. */
    method PrepareNext(s: int, r: int, ghost i: int, ghost hs: map<int, Owner>, ghost rs: map<int,
                       Rows>) returns (h: int)
      requires Sound() && Holding(s, hs, rs, r) && s in stmts
      modifies this`handles, this`texts, this`pieces, this`prepared
      ensures Sound() && h != 0 && h !in hs && h in handles && handles[h] == InFlight
      ensures Holding(s, hs[h := InFlight], rs, r)
      ensures h in texts && texts[h] == stmts[s].psql && h in pieces && pieces[h] == i
      ensures forall k :: r != 0 && old(Shows(r, k)) ==> Shows(r, k)
    {
      hide Sound;
      h := Prepare(stmts[s].psql, i);
      if r != 0 {
        var x := rows[r].pstmt;
        assert handles == hs[h := InFlight][x := ByRows(r)];
      }
    }

    method FinalizeNext(s: int, h: int, r: int, ghost hs: map<int, Owner>, ghost rs: map<int, Rows>)
      requires Sound() && h !in hs && h in handles && handles[h] == InFlight && Holding(s, hs[h := InFlight], rs, r)
      modifies this`handles, this`texts, this`finalized
      ensures Sound() && Holding(s, hs, rs, r)
    {
      hide Sound;
      Finalize(h);
      if r == 0 {
        Landed(hs, h);
      } else {
        LandedBeside(hs, h, rows[r].pstmt, ByRows(r));
      }
    }

    /** The new statement's result set takes the place of the open one. */
    method Replace(s: int, r: int, h: int, empty: bool, ghost hs: map<int, Owner>, ghost rs: map<int,
                   Rows>) returns (q: int)
      requires Sound() && h != 0 && h !in hs && Holding(s, hs[h := InFlight], rs, r)
      requires s in stmts && stmts[s].pstmt == 0 && h in texts && texts[h] == stmts[s].psql
      modifies this`rows, this`handles, this`texts, this`finalized
      ensures Sound() && q != 0 && Holding(s, hs, rs, q) && Empty(q) == empty
      ensures h in pieces ==> Shows(q, pieces[h])
    {
      hide Sound;
      Discard(s, r, hs[h := InFlight], rs);
      q := NewRows(h, empty, s);
      assert handles == hs[h := ByRows(q)];
    }

    /** Statement `i` of the script: prepared and stepped, then kept in a result set or finalized. */
    method Advance(s: int, r: int, p: Piece, last: bool, ghost i: int, ghost hs: map<int, Owner>, ghost rs: map<int,
                   Rows>) returns (q: int, stop: bool)
      requires Sound() && Holding(s, hs, rs, r) && p.Stepped? && s in stmts && stmts[s].pstmt == 0
      modifies this`rows, this`handles, this`texts, this`pieces, this`ran, this`prepared, this`finalized
      ensures Sound() && ran == old(ran) + [Step(stmts[s].psql, i)]
      ensures stop <==> p.rc == Error || (p == Stepped(Done, true) && !last && r != 0)
      ensures stop ==> rows == rs && handles == hs
      ensures !stop ==> q != 0 && Holding(s, hs, rs, q)
      ensures !stop ==> Empty(q) == (p.rc == Done && (r == 0 || last || old(Empty(r))))
      ensures !stop && (p.rc == Row || r == 0 || last) ==> Shows(q, i)
      ensures !stop && p.rc == Done && r != 0 && !last ==> forall k :: old(Shows(r, k)) ==> Shows(q, k)
    {
      hide Sound, Holding, Empty, Shows;
      var h := PrepareNext(s, r, i, hs, rs);
      StepOnce(h);
      if p.rc == Row || (p.rc == Done && (r == 0 || last)) {
        q := Replace(s, r, h, p.rc == Done, hs, rs);
        return q, false;
      }
      FinalizeNext(s, h, r, hs, rs);
      if p.rc == Error || p.finalizeFails {
        Discard(s, r, hs, rs);
        return 0, true;
      }
      return r, false;
    }

    lemma ShownIs(r: int, ps: seq<Piece>, k: int)
      requires r in rows && !rows[r].reuse && rows[r].pstmt != 0 && AnyStepped(ps)
      requires rows[r].empty == !ShowsRows(ps) && Shows(r, k) && Keeping(ps, |ps|, k)
      ensures Shown(rows[r], ps, pieces)
    {
    }

    lemma NothingShown(r: int, ps: seq<Piece>)
      requires r in rows && !rows[r].reuse && rows[r].pstmt == 0 && rows[r].empty
      requires !AnyStepped(ps) && (AnyRow(ps) ==> AnyStepped(ps))
      ensures Shown(rows[r], ps, pieces)
    {
    }

    method QueryScript(s: int, ps: seq<Piece>) returns (r: int, ghost steps: seq<Step>)
      requires Sound() && Settled() && s in stmts && stmts[s].pstmt == 0
      modifies this`rows, this`handles, this`texts, this`pieces, this`ran, this`prepared, this`finalized
      ensures Sound() && Settled()
      ensures r == 0 <==> QueryFails(ps)
      ensures r == 0 ==> rows == old(rows) && handles == old(handles)
      ensures r != 0 ==> r !in old(rows) && r in rows && rows == old(rows)[r := rows[r]]
      ensures r != 0 ==> Shown(rows[r], ps, pieces) && rows[r].pstmt !in old(handles)
      ensures r != 0 ==> rows[r].from == s && !rows[r].reuse
      ensures ran == old(ran) + steps && QueryRan(stmts[s].psql, ps, steps)
    {
      hide Sound, Stops, AnyStepped, AnyRow, Chosen, Kept, RanAll, Keeping, Shows, Shown;
      ghost var hs, rs := handles, rows;
      r := 0;
      steps := [];
      var i := 0;
      assert !AnyStepped(ps[..0]) && !AnyRow(ps[..0]) by { NothingYet(ps); }
      RanNothing(stmts[s].psql, ps);
      ghost var k := 0;
      while i < |ps|
        invariant 0 <= i <= |ps| && Sound() && Holding(s, hs, rs, r)
        invariant forall j :: 0 <= j < i ==> !Stops(ps, j)
        invariant r == 0 <==> !AnyStepped(ps[..i])
        invariant r == 0 && i > 0 ==> !ps[i - 1].Stepped?
        invariant AnyRow(ps[..i]) ==> AnyStepped(ps[..i])
        invariant r != 0 ==>
          Empty(r) == !(if i == |ps| && ps[i - 1].Stepped? then ps[i - 1].rc == Row else AnyRow(ps[..i]))
        invariant ran == old(ran) + steps && RanAll(stmts[s].psql, ps[..i], steps)
        invariant r != 0 ==> Shows(r, k) && Keeping(ps, i, k)
      {
        StopsIs(ps, i);
        AnySteppedNext(ps, i);
        RanNext(stmts[s].psql, ps, i, steps);
        assert Stops(ps, i) ==> QueryReaches(ps, i + 1);
        if ps[i].Unpreparable? {
          Discard(s, r, hs, rs);
          return 0, steps;
        }
        KeepingNext(ps, i, k, r != 0);
        if ps[i].Stepped? {
          k := if ps[i].rc == Row || r == 0 || i + 1 == |ps| then i else k;
          var stop;
          r, stop := Advance(s, r, ps[i], i + 1 == |ps|, i, hs, rs);
          steps := steps + [Step(stmts[s].psql, i)];
          if stop { return 0, steps; }
        }
        i := i + 1;
      }
      assert ps[..i] == ps && QueryReaches(ps, i);
      NilIsNeverLive();
      if r != 0 {
        ShownIs(r, ps, k);
      } else {
        r := NewRows(0, true, s);
        NothingShown(r, ps);
      }
    }

    // ---- the connection ----

    /** The statement behind a one-shot query hands its handle over to the result set. */
    method Steal(s: int, r: int)
      requires Sound() && s in stmts && r in rows && stmts[s].pstmt != 0
      requires rows[r].reuse && rows[r].pstmt == stmts[s].pstmt && Unlent(stmts, rows - {r}, s)
      modifies this`stmts, this`rows, this`handles
      ensures Sound() && Unlent(stmts, rows, s) && (old(Settled()) ==> Settled())
      ensures stmts == old(stmts)[s := old(stmts)[s].(pstmt := 0)]
      ensures rows == old(rows)[r := old(rows)[r].(reuse := false)]
      ensures old(stmts)[s].pstmt in old(handles) && handles == old(handles)[old(stmts)[s].pstmt := ByRows(r)]
    {
      hide CacheOk, LedgerOk;
      var h := stmts[s].pstmt;
      StealLedger(Look(), s, r);
      CardSame(handles, h, ByRows(r));
      stmts := stmts[s := stmts[s].(pstmt := 0)];
      rows := rows[r := rows[r].(reuse := false)];
      handles := handles[h := ByRows(r)];
      assert Look() == old(Look()).(stmts := stmts, rows := rows, handles := handles);
    }

    /** conn.query: the statement is gone on return; a result set that survives owns its handle. */
    method QueryOnce(sql: string, o: Prepared, single: Outcome, ps: seq<Piece>) returns (r: int, ghost steps: seq<Step>)
      requires Sound() && Settled()
      modifies this
      ensures Sound() && Settled() && stmts == old(stmts)
      ensures r == 0 <==>
        || (!old(Hit(sql)) && FailsToPrepare(o))
        || (if old(Hit(sql)) || o.Handle? then single == Error else QueryFails(ps))
      ensures r == 0 ==> rows == old(rows)
      ensures r != 0 ==> r !in old(rows) && r in rows && rows == old(rows)[r := rows[r]] && !rows[r].reuse
      ensures r != 0 && old(Hit(sql)) ==>
        m == old(m) - {Normalize(sql)} && rows[r].pstmt == old(m)[Normalize(sql)].pstmt
      ensures r != 0 && !old(Hit(sql)) ==> m == old(m) && ord == old(ord)
      ensures r != 0 && old(Hit(sql)) ==> ord == Without(old(ord), Normalize(sql))
      ensures r != 0 && (old(Hit(sql)) || o.Handle?) ==> rows[r].empty == (single == Done)
      ensures r != 0 && !(old(Hit(sql)) || o.Handle?) ==> Shown(rows[r], ps, pieces)
      ensures r == 0 ==> FailedOnce(cap, old(m), old(ord), Normalize(sql), old(Hit(sql)), o, m, ord)
      ensures r != 0 && rows[r].pstmt != 0 ==> rows[r].pstmt in texts && texts[rows[r].pstmt] !in strings
      ensures ran == old(ran) + steps && Grew(old(sqls), sqls)
      ensures RanOnce(sql, old(Hit(sql)), o, ps, sqls, steps)
    {
      hide Sound, Unlent, QueryFails, Settled, Shown, Out, Without, Normalize, Grew, QueryRan;
      NormalizeIs(sql);
      var s := NewStmt(sql, o);
      if s == 0 { return 0, []; }
      ghost var st := stmts[s];
      r, steps := QueryAndClose(s, single, ps);
      RanOnceIs(sql, old(Hit(sql)), o, ps, sqls, steps, st);
      if r != 0 { TextIsDead(r); }
    }

    /** Once its statement is closed, a result set steps a handle whose text is gone. */
    lemma TextIsDead(r: int)
      requires Sound() && Settled() && r in rows && !rows[r].reuse && rows[r].from !in stmts
      ensures rows[r].pstmt != 0 ==> rows[r].pstmt in texts && texts[rows[r].pstmt] !in strings
    {
      if rows[r].pstmt != 0 { assert RowText(stmts, strings, texts, rows[r], copied, created); }
    }

    method QueryAndClose(s: int, single: Outcome, ps: seq<Piece>) returns (r: int, ghost steps: seq<Step>)
      requires Sound() && Settled() && Unlent(stmts, rows, s)
      modifies this
      ensures Sound() && Settled() && stmts == old(stmts) - {s}
      ensures r == 0 <==> if old(stmts)[s].pstmt != 0 then single == Error else QueryFails(ps)
      ensures r == 0 ==> rows == old(rows)
      ensures r == 0 && !old(Donates(s)) ==> m == old(m) && ord == old(ord)
      ensures r == 0 && old(Donates(s)) ==>
        var st := old(stmts)[s]; Donated(old(m), old(ord), Normalize(st.cacheKey), st.psql, st.pstmt)
      ensures r != 0 ==> r !in old(rows) && r in rows && rows == old(rows)[r := rows[r]] && !rows[r].reuse
      ensures r != 0 && old(stmts)[s].pstmt == 0 ==> Shown(rows[r], ps, pieces)
      ensures r != 0 && old(stmts)[s].pstmt != 0 ==> rows[r].empty == (single == Done)
      ensures r != 0 ==> m == old(m) && ord == old(ord) && rows[r].from == s
      ensures r != 0 && old(stmts)[s].pstmt != 0 ==> rows[r].pstmt == old(stmts)[s].pstmt
      ensures ran == old(ran) + steps && QueriedBy(old(stmts)[s], ps, steps) && sqls == old(sqls)
    {
      hide Sound, Settled, QueryFails, Donated, Out, Freed, Normalize, Shown, QueriedBy;
      r, steps := QueryOwned(s, single, ps);
      CloseStmt(s);
    }

    /** The query and, when it succeeds, the handle's move from the statement to the result set. */
    method QueryOwned(s: int, single: Outcome, ps: seq<Piece>) returns (r: int, ghost steps: seq<Step>)
      requires Sound() && Settled() && Unlent(stmts, rows, s)
      modifies this`stmts, this`rows, this`handles, this`texts, this`pieces, this`ran, this`prepared, this`finalized
      ensures ran == old(ran) + steps && QueriedBy(old(stmts)[s], ps, steps)
      ensures Sound() && Settled() && Unlent(stmts, rows, s)
      ensures r == 0 <==> if old(stmts)[s].pstmt != 0 then single == Error else QueryFails(ps)
      ensures r == 0 ==> rows == old(rows) && stmts == old(stmts)
      ensures r != 0 ==> r !in old(rows) && r in rows && rows == old(rows)[r := rows[r]] && !rows[r].reuse
      ensures r != 0 ==> stmts == old(stmts)[s := old(stmts)[s].(pstmt := 0)] && rows[r].from == s
      ensures r != 0 && old(stmts)[s].pstmt != 0 ==>
        rows[r].pstmt == old(stmts)[s].pstmt && rows[r].empty == (single == Done)
      ensures r != 0 && old(stmts)[s].pstmt == 0 ==> Shown(rows[r], ps, pieces)
    {
      hide Sound, Settled, QueryFails, Shown, QueriedBy;
      r, steps := Query(s, single, ps);
      if r != 0 {
        assert rows - {r} == old(rows);
        if stmts[s].pstmt != 0 {
          Steal(s, r);
        } else {
          assert stmts == stmts[s := stmts[s].(pstmt := 0)];
          NilIsNotLent(s);
        }
      }
    }

    lemma NilIsNotLent(s: int)
      requires Sound() && s in stmts && stmts[s].pstmt == 0
      ensures Unlent(stmts, rows, s)
    {
    }

    /** The list, walked from the front. */
    method Entries() returns (es: seq<Entry>)
      requires CacheOk()
      ensures es == Listed(m, ord)
    {
      es := [];
      var i := 0;
      while i < |ord|
        invariant 0 <= i <= |ord| && es == Listed(m, ord)[..i]
      {
        assert ord[i] in m;
        es := es + [m[ord[i]]];
        i := i + 1;
      }
    }

    /** drainAll: the entries, most recent first, now the caller's. */
    method DrainAll() returns (es: seq<Entry>)
      requires Sound()
      modifies this`m, this`ord, this`handles, this`strings
      ensures Sound() && m == map[] && ord == []
      ensures handles == DisownedIn(old(handles))
      ensures strings == DisownedIn(old(strings))
      ensures es == Listed(old(m), old(ord))
    {
      hide LedgerOk, DisownedIn, CacheIs;
      es := Entries();
      DrainLedger(Look());
      NoCache(cap);
      handles := DisownedIn(handles);
      strings := DisownedIn(strings);
      m, ord := map[], [];
      assert Look() == old(Look()).(m := m, ord := ord, handles := handles, strings := strings);
    }

    /** Finalize and free every drained entry. */
    method DestroyAll(es: seq<Entry>)
      requires Sound() && Apart(es)
      requires forall e :: e in es ==> e.pstmt in handles && handles[e.pstmt] == InFlight
      requires forall e :: e in es ==> e.psql in strings && strings[e.psql] == InFlight
      modifies this`handles, this`texts, this`strings, this`finalized, this`freed
      ensures Sound()
      ensures handles == old(handles) - Handles(es) && strings == old(strings) - Texts(es)
    {
      hide Sound, Apart;
      var i := 0;
      while i < |es|
        invariant 0 <= i <= |es| && Sound()
        invariant handles == old(handles) - Handles(es[..i]) && strings == old(strings) - Texts(es[..i])
      {
        ApartFrom(es, i);
        Destroy(es[i].psql, es[i].pstmt);
        i := i + 1;
      }
      assert es[..i] == es;
    }

    /** conn.Close: the cache's handles and texts are destroyed, each exactly once, and nothing else is.
        If database/sql has closed every result set and statement before, nothing is left alive. */
    method Close()
      requires Sound() && Settled()
      modifies this`m, this`ord, this`handles, this`texts, this`strings, this`finalized, this`freed
      ensures Sound() && Settled() && m == map[] && ord == []
      ensures handles == Uncached(old(handles)) && strings == Uncached(old(strings))
      ensures stmts == map[] && rows == map[] ==>
        handles == map[] && strings == map[] && prepared == finalized && copied == freed
    {
      hide CacheOk, LedgerOk, Apart, Handles, Texts, Listed;
      CacheHolds(Listed(m, ord));
      var es := DrainAll();
      InListed(es);
      DestroyAll(es);
      SameMap(handles, Uncached(old(handles)));
      SameMap(strings, Uncached(old(strings)));
      if stmts == map[] && rows == map[] { NobodyLeft(); }
    }

    /** What the cache answers for is one handle and one text per listed entry. */
    lemma CacheHolds(es: seq<Entry>)
      requires Sound() && es == Listed(m, ord)
      ensures Apart(es)
      ensures forall h :: h in Handles(es) <==> h in handles && handles[h].ByCache?
      ensures forall p :: p in Texts(es) <==> p in strings && strings[p].ByCache?
    {
      hide HandlesOk, StringsOk, TextsOk, OriginsOk, SerialsOk, Handles, Texts, Listed;
      assert CacheOk();
      ListedHandles(m, stmts, rows, ord, handles);
      ListedTexts(m, stmts, ord, strings);
    }

    lemma NobodyLeft()
      requires Sound() && Settled() && m == map[] && stmts == map[] && rows == map[]
      ensures handles == map[] && strings == map[] && prepared == finalized && copied == freed
    {
      hide CacheOk, TextsOk, OriginsOk, SerialsOk;
      SomeKey(handles);
      SomeKey(strings);
    }

    /** A sound and settled connection, seen from outside. */
    lemma LooksExact()
      requires Sound() && Settled()
      ensures Exact(Look())
    {
      hide HandlesOk, StringsOk;
      forall h | h in handles ensures texts[h] in strings <==> TextKept(Look(), h) {
        LivesIff(m, stmts, rows, handles, strings, texts, copied, created, h);
      }
    }

    /** One call of database/sql. It never closes a statement that a result set still steps, and
        never uses what it has closed; such a call does nothing here. */
    method Do(c: Call)
      requires Sound() && Settled()
      modifies this
      ensures Sound() && Settled() && Did(old(Look()), c, Look())
    {
      hide Sound, Settled, Did;
      match c
      case Prepare(sql, o) => DoPrepare(sql, o);
      case CloseStmt(s) => DoCloseStmt(s);
      case Exec(s, single, ps) => DoExec(s, single, ps);
      case Query(s, single, ps) => DoQuery(s, single, ps);
      case CloseRows(r) => DoCloseRows(r);
      case QueryOnce(sql, o, single, ps) => DoQueryOnce(sql, o, single, ps);
    }

    method DoPrepare(sql: string, o: Prepared)
      requires Sound() && Settled()
      modifies this
      ensures Sound() && Settled() && Did(old(Look()), Call.Prepare(sql, o), Look())
    {
      hide Sound, Settled, FailsToPrepare, QueryFails, Shown, FailedOnce, DonatedTo, Without, Normalize;
      ghost var x := Look();
      var s := NewStmt(sql, o);
      PreparedDid(x, sql, o, Look(), s);
    }

    method DoCloseStmt(s: int)
      requires Sound() && Settled()
      modifies this
      ensures Sound() && Settled() && Did(old(Look()), Call.CloseStmt(s), Look())
    {
      hide Sound, Settled, FailsToPrepare, QueryFails, Shown, FailedOnce, DonatedTo, Without, Normalize;
      if s in stmts && forall r <- rows :: rows[r].reuse ==> rows[r].pstmt != stmts[s].pstmt { CloseStmt(s); }
    }

    method DoExec(s: int, single: Outcome, ps: seq<Piece>)
      requires Sound() && Settled()
      modifies this
      ensures Sound() && Settled() && Did(old(Look()), Call.Exec(s, single, ps), Look())
    {
      hide Sound, Settled, FailsToPrepare, QueryFails, Shown, FailedOnce, DonatedTo, Without, Normalize;
      if s in stmts { var _, _ := Exec(s, single, ps); }
    }

    method DoQuery(s: int, single: Outcome, ps: seq<Piece>)
      requires Sound() && Settled()
      modifies this
      ensures Sound() && Settled() && Did(old(Look()), Call.Query(s, single, ps), Look())
    {
      hide Sound, Settled, FailsToPrepare, QueryFails, Shown, FailedOnce, DonatedTo, Without, Normalize;
      ghost var x := Look();
      if s in stmts {
        var r, steps := Query(s, single, ps);
        assert ran[|x.ran|..] == steps;
        QueryDid(x, s, single, ps, Look(), r);
      }
    }

    method DoCloseRows(r: int)
      requires Sound() && Settled()
      modifies this
      ensures Sound() && Settled() && Did(old(Look()), Call.CloseRows(r), Look())
    {
      hide Sound, Settled, FailsToPrepare, QueryFails, Shown, FailedOnce, DonatedTo, Without, Normalize;
      if r in rows { CloseRows(r); }
    }

    method DoQueryOnce(sql: string, o: Prepared, single: Outcome, ps: seq<Piece>)
      requires Sound() && Settled()
      modifies this
      ensures Sound() && Settled() && Did(old(Look()), Call.QueryOnce(sql, o, single, ps), Look())
    {
      hide Sound, Settled, FailsToPrepare, QueryFails, Shown, FailedOnce, DonatedTo, Without, Normalize;
      ghost var x := Look();
      var r, steps := QueryOnce(sql, o, single, ps);
      assert ran[|x.ran|..] == steps;
      OnceDid(x, sql, o, single, ps, Look(), r);
    }

    /** database/sql closes the result sets, then the statements, then the connection. */
    method Shutdown()
      requires Sound() && Settled()
      modifies this
      ensures Sound() && handles == map[] && strings == map[] && prepared == finalized && copied == freed
    {
      hide Sound, Settled;
      while rows != map[]
        invariant Sound() && Settled()
        decreases rows.Keys
      {
        SomeKey(rows);
        var r :| r in rows;
        CloseRows(r);
      }
      while stmts != map[]
        invariant Sound() && Settled() && rows == map[]
        decreases stmts.Keys
      {
        SomeKey(stmts);
        var s :| s in stmts;
        CloseStmt(s);
      }
      Close();
    }
  }

  datatype Call =
    | Prepare(sql: string, o: Prepared)
    | CloseStmt(s: int)
    | Exec(s: int, single: Outcome, ps: seq<Piece>)
    | Query(s: int, single: Outcome, ps: seq<Piece>)
    | CloseRows(r: int)
    | QueryOnce(sql: string, o: Prepared, single: Outcome, ps: seq<Piece>)

  /** When the text a live handle was prepared from is still alive: its handle is a statement's or
      the cache's, or belongs to a result set whose statement is still open. */
  ghost predicate TextKept(x: Snap, h: int) {
    h in x.handles &&
    match x.handles[h]
    case ByStmt(_) => true
    case ByCache(_) => true
    case ByRows(r) => r in x.rows && x.rows[r].from in x.stmts
    case InFlight => false
  }

  /** One owner per handle and per text, nothing in flight, a cache of distinct keys within its
      capacity, each the key of the text filed under it, and a text alive exactly when the rule above
      says so. */
  ghost predicate Exact(x: Snap) {
    && HandlesOk(x.m, x.stmts, x.rows, x.handles) && StringsOk(x.m, x.stmts, x.strings)
    && (forall h :: h in x.handles ==> x.handles[h] != InFlight)
    && (forall p :: p in x.strings ==> x.strings[p] != InFlight)
    && Distinct(x.ord) && (forall k :: k in x.m <==> k in x.ord) && |x.ord| <= (if x.cap > 0 then x.cap else 0)
    && (forall h :: h in x.handles ==> h in x.texts && (x.texts[h] in x.strings <==> TextKept(x, h)))
    && OriginsOk(x.m, x.stmts, x.sqls, x.pieces)
  }

  // ---- what each call does, seen from outside ----

  ghost predicate HitIn(x: Snap, sql: string) {
    x.cap > 0 && Normalize(sql) in x.m
  }

  ghost predicate DonatesIn(x: Snap, s: int)
    requires s in x.stmts
  {
    x.stmts[s].pstmt != 0 && x.stmts[s].cacheKey != "" && x.cap > 0
  }

  /** The new statement `s` of a Prepare: the cached pair on a hit, else a new text and, for a lone
      statement, a new handle. */
  ghost predicate NewIn(x: Snap, sql: string, o: Prepared, y: Snap, s: int) {
    && s !in x.stmts && s in y.stmts && y.stmts == x.stmts[s := y.stmts[s]]
    && var key, st := Normalize(sql), y.stmts[s];
       st.psql in y.sqls && Normalize(y.sqls[st.psql]) == key &&
       if HitIn(x, sql) then st == Stmt(x.m[key].psql, x.m[key].pstmt, key)
       else
         && (st.pstmt != 0 <==> o.Handle?) && st.cacheKey == (if o.Handle? && x.cap > 0 then key else "")
         && st.pstmt !in x.handles && st.psql !in x.strings
  }

  /** The new result set `r` of a query by statement `s`. */
  ghost predicate RowsIn(x: Snap, s: int, single: Outcome, ps: seq<Piece>, y: Snap, r: int)
    requires s in x.stmts
  {
    && r !in x.rows && r in y.rows && y.rows == x.rows[r := y.rows[r]]
    && (if x.stmts[s].pstmt != 0 then y.rows[r] == Rows(x.stmts[s].pstmt, true, single == Done, s)
        else Conn.Shown(y.rows[r], ps, y.pieces) && y.rows[r].from == s && y.rows[r].pstmt !in x.handles)
  }

  /** The new result set `r` of a one-shot query: it owns its handle, the cached one on a hit. */
  ghost predicate OnceIn(x: Snap, sql: string, o: Prepared, single: Outcome, ps: seq<Piece>, y: Snap, r: int) {
    && r !in x.rows && r in y.rows && y.rows == x.rows[r := y.rows[r]] && !y.rows[r].reuse
    && (HitIn(x, sql) ==> y.rows[r].pstmt == x.m[Normalize(sql)].pstmt)
    && (if HitIn(x, sql) || o.Handle? then y.rows[r].empty == (single == Done) else Conn.Shown(y.rows[r], ps, y.pieces))
  }

  /** Call `c` leads from `x` to `y`. Handles and texts follow from the rest: `Exact` says whose
      they are. */
  ghost predicate Did(x: Snap, c: Call, y: Snap) {
    x.cap == y.cap && Grew(x.sqls, y.sqls) && Ran(x, c, y) &&
    match c
    case Prepare(sql, o) =>
      && y.rows == x.rows
      && y.m == (if HitIn(x, sql) then x.m - {Normalize(sql)} else x.m)
      && y.ord == (if HitIn(x, sql) then Without(x.ord, Normalize(sql)) else x.ord)
      && (if !HitIn(x, sql) && FailsToPrepare(o) then y.stmts == x.stmts else exists s :: NewIn(x, sql, o, y, s))
    case CloseStmt(s) =>
      && y.rows == x.rows
      && (if s in x.stmts && Unlent(x.stmts, x.rows, s) then
            && y.stmts == x.stmts - {s}
            && (if DonatesIn(x, s) then
                  var st := x.stmts[s];
                  DonatedTo(x.cap, x.m, x.ord, Normalize(st.cacheKey), st.psql, st.pstmt, y.m, y.ord)
                else y.m == x.m && y.ord == x.ord)
          else y.stmts == x.stmts && y.m == x.m && y.ord == x.ord)
    case Exec(_, _, _) => y.m == x.m && y.ord == x.ord && y.stmts == x.stmts && y.rows == x.rows
    case Query(s, single, ps) =>
      && y.m == x.m && y.ord == x.ord && y.stmts == x.stmts
      && (if s in x.stmts && !(if x.stmts[s].pstmt != 0 then single == Error else QueryFails(ps)) then
            exists r :: RowsIn(x, s, single, ps, y, r)
          else y.rows == x.rows)
    case CloseRows(r) => y.m == x.m && y.ord == x.ord && y.stmts == x.stmts && y.rows == x.rows - {r}
    case QueryOnce(sql, o, single, ps) =>
      && y.stmts == x.stmts
      && (if FailsOnce(HitIn(x, sql), o, single, ps) then
            y.rows == x.rows && FailedOnce(x.cap, x.m, x.ord, Normalize(sql), HitIn(x, sql), o, y.m, y.ord)
          else
            && y.m == (if HitIn(x, sql) then x.m - {Normalize(sql)} else x.m)
            && y.ord == (if HitIn(x, sql) then Without(x.ord, Normalize(sql)) else x.ord)
            && exists r :: OnceIn(x, sql, o, single, ps, y, r))
  }

  /** What call `c` ran. */
  ghost predicate Ran(x: Snap, c: Call, y: Snap) {
    x.ran <= y.ran &&
    var steps := y.ran[|x.ran|..];
    match c
    case Exec(s, single, ps) => if s in x.stmts then ExecutedBy(x.stmts[s], ps, steps) else steps == []
    case Query(s, single, ps) => if s in x.stmts then QueriedBy(x.stmts[s], ps, steps) else steps == []
    case QueryOnce(sql, o, single, ps) => RanOnce(sql, HitIn(x, sql), o, ps, y.sqls, steps)
    case _ => steps == []
  }

  ghost predicate FailsOnce(hit: bool, o: Prepared, single: Outcome, ps: seq<Piece>) {
    (!hit && FailsToPrepare(o)) || (if hit || o.Handle? then single == Error else QueryFails(ps))
  }

  lemma PreparedDid(x: Snap, sql: string, o: Prepared, y: Snap, s: int)
    requires x.cap == y.cap && y.rows == x.rows && Grew(x.sqls, y.sqls) && y.ran == x.ran
    requires y.m == (if HitIn(x, sql) then x.m - {Normalize(sql)} else x.m)
    requires y.ord == (if HitIn(x, sql) then Without(x.ord, Normalize(sql)) else x.ord)
    requires if !HitIn(x, sql) && FailsToPrepare(o) then y.stmts == x.stmts else NewIn(x, sql, o, y, s)
    ensures Did(x, Call.Prepare(sql, o), y)
  {
  }

  lemma QueryDid(x: Snap, s: int, single: Outcome, ps: seq<Piece>, y: Snap, r: int)
    requires x.cap == y.cap && y.m == x.m && y.ord == x.ord && y.stmts == x.stmts && s in x.stmts && y.sqls == x.sqls
    requires x.ran <= y.ran && QueriedBy(x.stmts[s], ps, y.ran[|x.ran|..])
    requires if (if x.stmts[s].pstmt != 0 then single == Error else QueryFails(ps)) then y.rows == x.rows
             else RowsIn(x, s, single, ps, y, r)
    ensures Did(x, Call.Query(s, single, ps), y)
  {
  }

  lemma OnceDid(x: Snap, sql: string, o: Prepared, single: Outcome, ps: seq<Piece>, y: Snap, r: int)
    requires x.cap == y.cap && y.stmts == x.stmts && Grew(x.sqls, y.sqls)
    requires x.ran <= y.ran && RanOnce(sql, HitIn(x, sql), o, ps, y.sqls, y.ran[|x.ran|..])
    requires
      if FailsOnce(HitIn(x, sql), o, single, ps) then
        y.rows == x.rows && FailedOnce(x.cap, x.m, x.ord, Normalize(sql), HitIn(x, sql), o, y.m, y.ord)
      else
        && y.m == (if HitIn(x, sql) then x.m - {Normalize(sql)} else x.m)
        && y.ord == (if HitIn(x, sql) then Without(x.ord, Normalize(sql)) else x.ord)
        && OnceIn(x, sql, o, single, ps, y, r)
    ensures Did(x, Call.QueryOnce(sql, o, single, ps), y)
  {
  }

  lemma LivesIff(m: map<string, Entry>, stmts: map<int, Stmt>, rows: map<int, Rows>, hs: map<int, Owner>,
                 ps: map<int, Owner>, tx: map<int, int>, copied: int, created: int, h: int)
    requires HandlesOk(m, stmts, rows, hs) && StringsOk(m, stmts, ps)
    requires TextsOk(m, stmts, rows, ps, tx, copied, created)
    requires h in hs && h in tx && 0 !in hs
    requires (forall x :: x in hs ==> hs[x] != InFlight) && forall p :: p in ps ==> ps[p] != InFlight
    ensures tx[h] in ps <==> (hs[h].ByRows? ==> hs[h].r in rows && rows[hs[h].r].from in stmts)
  {
    if hs[h].ByRows? {
      assert RowText(stmts, ps, tx, rows[hs[h].r], copied, created);
    }
  }

  const NEW: Snap := Snap(0, [], map[], map[], map[], map[], map[], map[], map[], map[], [], 0, 0)

  /** Any session on one connection: each call does what it says, the ledger is exact between any
      two, every finalize and free hits a live object with no other owner, and after the connection
      is closed nothing is lost. */
  method Session(cap: int, calls: seq<Call>) returns (c: Conn, ghost log: seq<Snap>)
    ensures fresh(c) && c.Sound()
    ensures c.handles == map[] && c.strings == map[] && c.prepared == c.finalized && c.copied == c.freed
    ensures |log| == |calls| + 1 && log[0] == NEW.(cap := cap)
    ensures forall i :: 0 <= i <= |calls| ==> Exact(log[i])
    ensures forall i {:trigger calls[i]} :: 0 <= i < |calls| ==> Did(log[i], calls[i], log[i + 1])
  {
    hide Exact, Conn.Sound, Conn.Settled, Did;
    c := new Conn(cap);
    c.LooksExact();
    log := [c.Look()];
    for i := 0 to |calls|
      invariant fresh(c) && c.cap == cap && c.Sound() && c.Settled()
      invariant |log| == i + 1 && log[0] == NEW.(cap := cap) && log[i] == c.Look()
      invariant forall j :: 0 <= j <= i ==> Exact(log[j])
      invariant forall j {:trigger calls[j]} :: 0 <= j < i ==> Did(log[j], calls[j], log[j + 1])
    {
      c.Do(calls[i]);
      c.LooksExact();
      log := log + [c.Look()];
    }
    c.Shutdown();
  }
}
