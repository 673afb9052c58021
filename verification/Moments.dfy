/** Online central moments over a sliding window (ext/stats/moments.go), in exact
    real arithmetic. */
module Moments {

  // ---- the reference: sums of powers of deviations ----

  function Pow(x: real, k: nat): real {
    if k == 0 then 1.0 else x * Pow(x, k - 1)
  }

  function Sum(w: seq<real>): real {
    if w == [] then 0.0 else Sum(w[..|w| - 1]) + w[|w| - 1]
  }

  /** The mean; zero for the empty window. */
  function Mean(w: seq<real>): real {
    if w == [] then 0.0 else Sum(w) / |w| as real
  }

  /** The sum of the k-th powers of the deviations from `c`. */
  function Dev(w: seq<real>, c: real, k: nat): real {
    if w == [] then 0.0 else Dev(w[..|w| - 1], c, k) + Pow(w[|w| - 1] - c, k)
  }

  /** The fields of the Go struct; the compensation terms are zero in exact arithmetic. */
  datatype State = State(n: int, m1: real, m2: real, m3: real, m4: real)

  const ZERO := State(0, 0.0, 0.0, 0.0, 0.0)

  /** What the fields mean for a window. */
  function StateOf(w: seq<real>): State {
    State(|w|, Mean(w), Dev(w, Mean(w), 2), Dev(w, Mean(w), 3), Dev(w, Mean(w), 4))
  }

  // ---- the updates, as the code computes them ----

  /** What enqueue adds to m3 and m4, given what it adds to m2. */
  function Gain3(n: int, t1: real, dn: real, m2: real): real {
    t1 * dn * (n - 2) as real - 3.0 * dn * m2
  }

  function Gain4(n: int, t1: real, dn: real, m2: real, m3: real): real {
    var d2 := dn * dn;
    t1 * d2 * (n * n - 3 * n + 3) as real + 6.0 * d2 * m2 - 4.0 * dn * m3
  }

  /** What dequeue subtracts from them. */
  function Loss3(n: int, t1: real, dn: real, m2: real): real {
    t1 * dn * (n + 2) as real - 3.0 * dn * m2
  }

  function Loss4(n: int, t1: real, dn: real, m2: real, m3: real): real {
    var d2 := dn * dn;
    t1 * d2 * (n * n + 3 * n + 3) as real - 6.0 * d2 * m2 - 4.0 * dn * m3
  }

  /** One element's share of a deviation. */
  function Share(d1: real, n: int): real
    requires n > 0
  {
    d1 / n as real
  }

  /** The change of m2. */
  function Square(d1: real, dn: real, k: int): real {
    d1 * dn * k as real
  }

  function Enqueue(m: State, x: real): State
    requires m.n >= 0
  {
    var n := m.n + 1;
    var d1 := x - m.m1;
    var dn := Share(d1, n);
    var t1 := Square(d1, dn, n - 1);
    State(n, m.m1 + dn, m.m2 + t1, m.m3 + Gain3(n, t1, dn, m.m2), m.m4 + Gain4(n, t1, dn, m.m2, m.m3))
  }

  function Dequeue(m: State, x: real): State {
    var n := m.n - 1;
    if n <= 0 then ZERO
    else
      var d1 := x - m.m1;
      var dn := Share(d1, n);
      var t1 := Square(d1, dn, n + 1);
      State(n, m.m1 - dn, m.m2 - t1, m.m3 - Loss3(n, t1, dn, m.m2), m.m4 - Loss4(n, t1, dn, m.m2, m.m3))
  }

  // ---- shifting the centre ----

  lemma {:induction false} Pows(x: real)
    ensures Pow(x, 1) == x
    ensures Pow(x, 2) == x * x
    ensures Pow(x, 3) == x * x * x
    ensures Pow(x, 4) == x * x * x * x
  {
    assert Pow(x, 1) == x * Pow(x, 0);
    assert Pow(x, 2) == x * Pow(x, 1);
    assert Pow(x, 3) == x * Pow(x, 2);
    assert Pow(x, 4) == x * Pow(x, 3);
  }

  lemma {:induction false} DevOne(w: seq<real>, c: real)
    ensures Dev(w, c, 1) == Sum(w) - |w| as real * c
    decreases |w|
  {
    if w != [] {
      DevOne(w[..|w| - 1], c);
      Pows(w[|w| - 1] - c);
    }
  }

  lemma {:induction false} NoDev(c: real, k: nat)
    ensures Dev([], c, k) == 0.0
  {
  }

  lemma Nothing(d: real, z: real)
    requires z == 0.0
    ensures 2.0 * d * z == 0.0 && 3.0 * d * z == 0.0 && 3.0 * d * d * z == 0.0
    ensures 4.0 * d * z == 0.0 && 6.0 * d * d * z == 0.0 && 4.0 * d * d * d * z == 0.0
  {
  }

  lemma {:induction false} DevAppend(w: seq<real>, x: real, c: real, k: nat)
    ensures Dev(w + [x], c, k) == Dev(w, c, k) + Pow(x - c, k)
    ensures Sum(w + [x]) == Sum(w) + x
  {
    var all := w + [x];
    assert all[..|all| - 1] == w && all[|all| - 1] == x;
  }

  /** The binomial expansions of one deviation. */
  lemma PowShift2(y: real, d: real)
    ensures Pow(y - d, 2) == Pow(y, 2) - 2.0 * d * Pow(y, 1) + d * d
  {
    Pows(y);
    Pows(y - d);
  }

  lemma PowShift3(y: real, d: real)
    ensures Pow(y - d, 3) == Pow(y, 3) - 3.0 * d * Pow(y, 2) + 3.0 * d * d * Pow(y, 1) - d * d * d
  {
    Pows(y);
    Pows(y - d);
  }

  lemma PowShift4(y: real, d: real)
    ensures Pow(y - d, 4) == Pow(y, 4) - 4.0 * d * Pow(y, 3) + 6.0 * d * d * Pow(y, 2)
                             - 4.0 * d * d * d * Pow(y, 1) + d * d * d * d
  {
    Pows(y);
    Pows(y - d);
  }

  /** Moving the centre of every deviation at once. */
  lemma {:induction false} DevShift2(w: seq<real>, c: real, d: real)
    ensures Dev(w, c + d, 2) == Dev(w, c, 2) - 2.0 * d * Dev(w, c, 1) + |w| as real * (d * d)
    decreases |w|
  {
    hide Pow, Dev;
    if w == [] {
      NoDev(c + d, 2);
      NoDev(c, 1);
      NoDev(c, 2);
      Nothing(d, Dev(w, c, 1));
    } else {
      var front, x := w[..|w| - 1], w[|w| - 1];
      DevShift2(front, c, d);
      var y := x - c;
      PowShift2(y, d);
      assert w == front + [x] && x - (c + d) == y - d;
      DevsAppend(front, x, c);
      DevsAppend(front, x, c + d);
      Shift2(Dev(front, c + d, 2), Dev(front, c, 1), Dev(front, c, 2),
        Pow(y - d, 2), Pow(y, 1), Pow(y, 2), |front| as real, d,
        Dev(w, c + d, 2), Dev(w, c, 1), Dev(w, c, 2), |w| as real);
    }
  }

  lemma {:induction false} DevShift3(w: seq<real>, c: real, d: real)
    ensures Dev(w, c + d, 3) == Dev(w, c, 3) - 3.0 * d * Dev(w, c, 2) + 3.0 * d * d * Dev(w, c, 1)
                                - |w| as real * (d * d * d)
    decreases |w|
  {
    hide Pow, Dev;
    if w == [] {
      NoDev(c + d, 3);
      NoDev(c, 1);
      NoDev(c, 2);
      NoDev(c, 3);
      Nothing(d, Dev(w, c, 1));
      Nothing(d, Dev(w, c, 2));
    } else {
      var front, x := w[..|w| - 1], w[|w| - 1];
      DevShift3(front, c, d);
      var y := x - c;
      PowShift3(y, d);
      assert w == front + [x] && x - (c + d) == y - d;
      DevsAppend(front, x, c);
      DevsAppend(front, x, c + d);
      Shift3(Dev(front, c + d, 3), Dev(front, c, 1), Dev(front, c, 2), Dev(front, c, 3),
        Pow(y - d, 3), Pow(y, 1), Pow(y, 2), Pow(y, 3), |front| as real, d,
        Dev(w, c + d, 3), Dev(w, c, 1), Dev(w, c, 2), Dev(w, c, 3), |w| as real);
    }
  }

  lemma {:induction false} DevShift4(w: seq<real>, c: real, d: real)
    ensures Dev(w, c + d, 4) == Dev(w, c, 4) - 4.0 * d * Dev(w, c, 3) + 6.0 * d * d * Dev(w, c, 2)
                                - 4.0 * d * d * d * Dev(w, c, 1) + |w| as real * (d * d * d * d)
    decreases |w|
  {
    hide Pow, Dev;
    if w == [] {
      NoDev(c + d, 4);
      NoDev(c, 1);
      NoDev(c, 2);
      NoDev(c, 3);
      NoDev(c, 4);
      Nothing(d, Dev(w, c, 1));
      Nothing(d, Dev(w, c, 2));
      Nothing(d, Dev(w, c, 3));
    } else {
      var front, x := w[..|w| - 1], w[|w| - 1];
      DevShift4(front, c, d);
      var y := x - c;
      PowShift4(y, d);
      assert w == front + [x] && x - (c + d) == y - d;
      DevsAppend(front, x, c);
      DevsAppend(front, x, c + d);
      Shift4(Dev(front, c + d, 4), Dev(front, c, 1), Dev(front, c, 2), Dev(front, c, 3), Dev(front, c, 4),
        Pow(y - d, 4), Pow(y, 1), Pow(y, 2), Pow(y, 3), Pow(y, 4), |front| as real, d,
        Dev(w, c + d, 4), Dev(w, c, 1), Dev(w, c, 2), Dev(w, c, 3), Dev(w, c, 4), |w| as real);
    }
  }

  lemma Shift2(b2: real, a1: real, a2: real, q2: real, p1: real, p2: real, n: real, d: real,
               B2: real, A1: real, A2: real, N: real)
    requires b2 == a2 - 2.0 * d * a1 + n * (d * d) && q2 == p2 - 2.0 * d * p1 + d * d
    requires B2 == b2 + q2 && A1 == a1 + p1 && A2 == a2 + p2 && N == n + 1.0
    ensures B2 == A2 - 2.0 * d * A1 + N * (d * d)
  {
    Times(d, A1, a1 + p1);
    Times(d * d, N, n + 1.0);
  }

  lemma Shift3(b3: real, a1: real, a2: real, a3: real, q3: real, p1: real, p2: real, p3: real, n: real, d: real,
               B3: real, A1: real, A2: real, A3: real, N: real)
    requires b3 == a3 - 3.0 * d * a2 + 3.0 * d * d * a1 - n * (d * d * d)
    requires q3 == p3 - 3.0 * d * p2 + 3.0 * d * d * p1 - d * d * d
    requires B3 == b3 + q3 && A1 == a1 + p1 && A2 == a2 + p2 && A3 == a3 + p3 && N == n + 1.0
    ensures B3 == A3 - 3.0 * d * A2 + 3.0 * d * d * A1 - N * (d * d * d)
  {
    Times(d, A2, a2 + p2);
    Times(d * d, A1, a1 + p1);
    Times(d * d * d, N, n + 1.0);
  }

  lemma Shift4(b4: real, a1: real, a2: real, a3: real, a4: real, q4: real, p1: real, p2: real, p3: real, p4: real,
               n: real, d: real, B4: real, A1: real, A2: real, A3: real, A4: real, N: real)
    requires b4 == a4 - 4.0 * d * a3 + 6.0 * d * d * a2 - 4.0 * d * d * d * a1 + n * (d * d * d * d)
    requires q4 == p4 - 4.0 * d * p3 + 6.0 * d * d * p2 - 4.0 * d * d * d * p1 + d * d * d * d
    requires B4 == b4 + q4 && A1 == a1 + p1 && A2 == a2 + p2 && A3 == a3 + p3 && A4 == a4 + p4 && N == n + 1.0
    ensures B4 == A4 - 4.0 * d * A3 + 6.0 * d * d * A2 - 4.0 * d * d * d * A1 + N * (d * d * d * d)
  {
    assert B4 == (a4 + p4) - 4.0 * (d * (a3 + p3)) + 6.0 * (d * d * (a2 + p2)) - 4.0 * (d * d * d * (a1 + p1))
      + d * d * d * d * (n + 1.0);
    Times(d, A3, a3 + p3);
    Times(d * d, A2, a2 + p2);
    Times(d * d * d, A1, a1 + p1);
    Times(d * d * d * d, N, n + 1.0);
  }

  /** Equals may be multiplied: a step the arithmetic solver does not take by itself. */
  lemma Times(k: real, x: real, y: real)
    requires x == y
    ensures k * x == k * y
  {
  }

  lemma {:induction false} DevsAppend(w: seq<real>, x: real, c: real)
    ensures Dev(w + [x], c, 1) == Dev(w, c, 1) + Pow(x - c, 1)
    ensures Dev(w + [x], c, 2) == Dev(w, c, 2) + Pow(x - c, 2)
    ensures Dev(w + [x], c, 3) == Dev(w, c, 3) + Pow(x - c, 3)
    ensures Dev(w + [x], c, 4) == Dev(w, c, 4) + Pow(x - c, 4)
  {
    DevAppend(w, x, c, 1);
    DevAppend(w, x, c, 2);
    DevAppend(w, x, c, 3);
    DevAppend(w, x, c, 4);
  }

  lemma {:induction false} DevAboutMean(w: seq<real>)
    ensures Dev(w, Mean(w), 1) == 0.0
  {
    DevOne(w, Mean(w));
  }

  /** A new element moves the mean by d1/n. */
  lemma MeanMoves(w: seq<real>, x: real)
    ensures Mean(w + [x]) == Mean(w) + Share(x - Mean(w), |w| + 1)
  {
    DevAppend(w, x, 0.0, 1);
    var n, mu := (|w| + 1) as real, Mean(w);
    assert Sum(w) == (n - 1.0) * mu;
    assert Sum(w) + x == n * mu + (x - mu);
  }

  /** What the sums about the new mean gain: the old elements' shift and the new element. */
  function Tail2(n: real, e: real, y: real): real { n * (e * e) + y * y }

  function Tail3(n: real, e: real, y: real, m2: real): real { -3.0 * e * m2 - n * (e * e * e) + y * y * y }

  function Tail4(n: real, e: real, y: real, m2: real, m3: real): real {
    -4.0 * e * m3 + 6.0 * e * e * m2 + n * (e * e * e * e) + y * y * y * y
  }

  /** The sums about the mean of the longer window, in terms of those before. */
  lemma LongerWindow(w: seq<real>, x: real, e: real, y: real)
    requires e == Share(x - Mean(w), |w| + 1) && y == x - (Mean(w) + e)
    ensures var m, n := StateOf(w), (|w| + 1 - 1) as real;
      && Mean(w + [x]) == m.m1 + e
      && Dev(w + [x], m.m1 + e, 2) == m.m2 + Tail2(n, e, y)
      && Dev(w + [x], m.m1 + e, 3) == m.m3 + Tail3(n, e, y, m.m2)
      && Dev(w + [x], m.m1 + e, 4) == m.m4 + Tail4(n, e, y, m.m2, m.m3)
  {
    hide Mean, Sum, Dev, Pow, Share, Tail2, Tail3, Tail4;
    var mu, n := Mean(w), |w| as real;
    MeanMoves(w, x);
    DevAboutMean(w);
    DevsAppend(w, x, mu + e);
    Pows(y);
    DevShift2(w, mu, e);
    Assemble2(Dev(w, mu + e, 2), Dev(w, mu, 2), Dev(w, mu, 1), n, e, y);
    DevShift3(w, mu, e);
    Assemble3(Dev(w, mu + e, 3), Dev(w, mu, 3), Dev(w, mu, 2), Dev(w, mu, 1), n, e, y);
    DevShift4(w, mu, e);
    Assemble4(Dev(w, mu + e, 4), Dev(w, mu, 4), Dev(w, mu, 3), Dev(w, mu, 2), Dev(w, mu, 1), n, e, y);
  }

  /** With no first-order deviation left, the shifted sums are the old ones plus the tails. */
  lemma Assemble2(b: real, m2: real, d: real, n: real, e: real, y: real)
    requires d == 0.0 && b == m2 - 2.0 * e * d + n * (e * e)
    ensures b + y * y == m2 + Tail2(n, e, y)
  {
  }

  lemma Assemble3(b: real, m3: real, m2: real, d: real, n: real, e: real, y: real)
    requires d == 0.0 && b == m3 - 3.0 * e * m2 + 3.0 * e * e * d - n * (e * e * e)
    ensures b + y * y * y == m3 + Tail3(n, e, y, m2)
  {
  }

  lemma Assemble4(b: real, m4: real, m3: real, m2: real, d: real, n: real, e: real, y: real)
    requires d == 0.0 && b == m4 - 4.0 * e * m3 + 6.0 * e * e * m2 - 4.0 * e * e * e * d + n * (e * e * e * e)
    ensures b + y * y * y * y == m4 + Tail4(n, e, y, m2, m3)
  {
  }

  /** Enqueue computes exactly the moments of the longer window. */
  lemma EnqueueExact(w: seq<real>, x: real)
    ensures Enqueue(StateOf(w), x) == StateOf(w + [x])
  {
    hide Dev, Mean, Sum, Pow, Gain3, Gain4, Share, Square, Tail2, Tail3, Tail4;
    var m, n := StateOf(w), |w| + 1;
    var d1 := x - m.m1;
    var e := Share(d1, n);
    var y := x - (m.m1 + e);
    LongerWindow(w, x, e, y);
    EnqueueAlgebra(n, n as real, d1, e, y, Square(d1, e, n - 1), m.m2, m.m3);
  }

  lemma CastSquare(n: int)
    ensures (n * n - 3 * n + 3) as real == n as real * n as real - 3.0 * n as real + 3.0
    ensures (n * n + 3 * n + 3) as real == n as real * n as real + 3.0 * n as real + 3.0
  {
    assert (n * n) as real == n as real * n as real;
  }

  /** The three update formulas, each by itself. */
  lemma EnqueueAlgebra(n: int, r: real, d1: real, e: real, y: real, t1: real, m2: real, m3: real)
    requires n >= 1 && r == n as real && e == Share(d1, n) && y == d1 - e && t1 == Square(d1, e, n - 1)
    ensures Tail2((n - 1) as real, e, y) == t1
    ensures Tail3((n - 1) as real, e, y, m2) == Gain3(n, t1, e, m2)
    ensures Tail4((n - 1) as real, e, y, m2, m3) == Gain4(n, t1, e, m2, m3)
  {
    hide Share, Square;
    EnqueueTerms(n, r, d1, e, y, t1);
  }

  lemma EnqueueTerms(n: int, r: real, d1: real, e: real, y: real, t1: real)
    requires n >= 1 && r == n as real && e == Share(d1, n) && y == d1 - e && t1 == Square(d1, e, n - 1)
    ensures
      && (n - 1) as real * (e * e) + y * y == t1
      && y * y * y - (n - 1) as real * (e * e * e) == t1 * e * (n - 2) as real
      && (n - 1) as real * (e * e * e * e) + y * y * y * y == t1 * (e * e) * (n * n - 3 * n + 3) as real
  {
    assert d1 == r * e && y == r * e - e;
    CastSquare(n);
    Powers(r, e, d1, y);
    assert t1 == (r * r - r) * (e * e);
    Times(e * (r - 2.0), t1, (r * r - r) * (e * e));
    Times((e * e) * (r * r - 3.0 * r + 3.0), t1, (r * r - r) * (e * e));
    Times(t1 * (e * e), (n * n - 3 * n + 3) as real, r * r - 3.0 * r + 3.0);
  }

  lemma Powers(r: real, e: real, d1: real, y: real)
    requires d1 == r * e && y == r * e - e
    ensures d1 * e * (r - 1.0) == (r * r - r) * (e * e)
    ensures (r - 1.0) * (e * e) + y * y == (r * r - r) * (e * e)
    ensures y * y * y - (r - 1.0) * (e * e * e) == (r * r - r) * (r - 2.0) * (e * e * e)
    ensures y * y * y * y + (r - 1.0) * (e * e * e * e) == (r * r - r) * (r * r - 3.0 * r + 3.0) * (e * e * e * e)
  {
    var z := r * e - e;
    Times(e * (r - 1.0), d1, r * e);
    Times(y, y, z);
    Times(z, y, z);
    assert y * y == z * z;
    Times(y, y * y, z * z);
    Times(z * z, y, z);
    assert y * y * y == z * z * z;
    Times(y, y * y * y, z * z * z);
    Times(z * z * z, y, z);
  }

  // ---- dequeue ----

  /** Dequeue undoes enqueue exactly - for any field values, not only reachable ones,
      as long as an element stays; emptying the window resets every field. */
  lemma DequeueUndoesEnqueue(m: State, x: real)
    requires m.n >= 0
    ensures m.n >= 1 ==> Dequeue(Enqueue(m, x), x) == m
    ensures m.n == 0 ==> Dequeue(Enqueue(m, x), x) == ZERO
  {
    hide Gain3, Gain4, Loss3, Loss4, Share, Square;
    if m.n >= 1 {
      var n, n1 := m.n, m.n + 1;
      var d1 := x - m.m1;
      var e := Share(d1, n1);
      var d1' := x - (m.m1 + e);
      SameStep(n, d1, e, d1');
      SameSquare(n, d1, e, d1');
      UndoAlgebra(n, e, Square(d1, e, n), m.m2, m.m3, Gain3(n1, Square(d1, e, n), e, m.m2));
    } else {
      EmptiesToZero(m, x);
    }
  }

  lemma EmptiesToZero(m: State, x: real)
    requires m.n == 0
    ensures Dequeue(Enqueue(m, x), x) == ZERO
  {
  }

  /** Both updates move the mean by the same amount. */
  lemma SameStep(n: int, d1: real, e: real, d1': real)
    requires n >= 1 && e == Share(d1, n + 1) && d1' == d1 - e
    ensures d1 == (n as real + 1.0) * e && d1' == n as real * e && Share(d1', n) == e
  {
    var r := n as real;
    assert (n + 1) as real == r + 1.0;
    assert d1 == (r + 1.0) * e;
    assert d1' == r * e;
    Quotient(r, e, d1');
  }

  lemma Quotient(r: real, e: real, p: real)
    requires r > 0.0 && p == r * e
    ensures p / r == e
  {
    assert r * (p / r) == p;
    assert r * (p / r - e) == 0.0;
  }

  lemma SameSquare(n: int, d1: real, e: real, d1': real)
    requires n >= 1 && d1 == (n as real + 1.0) * e && d1' == n as real * e
    ensures Square(d1', e, n + 1) == Square(d1, e, n)
  {
    var r := n as real;
    Times(e * r, d1, (r + 1.0) * e);
    Times(e * (r + 1.0), d1', r * e);
  }

  lemma UndoAlgebra(n: int, e: real, t1: real, m2: real, m3: real, g3: real)
    requires n >= 1 && g3 == Gain3(n + 1, t1, e, m2)
    ensures Loss3(n, t1, e, m2 + t1) == g3
    ensures Loss4(n, t1, e, m2 + t1, m3 + g3) == Gain4(n + 1, t1, e, m2, m3)
  {
    Undo3(n, e, t1, m2);
    Undo4(n, n as real, e, t1, m2, m3, g3, (n * n + 3 * n + 3) as real, ((n + 1) * (n + 1) - 3 * (n + 1) + 3) as real);
  }

  lemma Undo3(n: int, e: real, t1: real, m2: real)
    ensures Loss3(n, t1, e, m2 + t1) == Gain3(n + 1, t1, e, m2)
  {
    var r := n as real;
    assert (n + 2) as real == r + 2.0 && (n + 1 - 2) as real == r - 1.0;
  }

  /** A product the solver is not to open. */
  function Mul(x: real, y: real): real { x * y }

  lemma Undo4(n: int, r: real, e: real, t1: real, m2: real, m3: real, g3: real, p: real, q: real)
    requires r == n as real && g3 == Gain3(n + 1, t1, e, m2)
    requires p == (n * n + 3 * n + 3) as real && q == ((n + 1) * (n + 1) - 3 * (n + 1) + 3) as real
    ensures Loss4(n, t1, e, m2 + t1, m3 + g3) == Gain4(n + 1, t1, e, m2, m3)
  {
    hide Gain3, Gain4, Loss4, Mul;
    var ee := Mul(e, e);
    var a := Mul(t1, ee);
    Casts(n, r, p, q);
    Quadratics(a, r, Mul(r, r), p, q);
    Spread(ee, m2, t1);
    Spread(e, m3, g3);
    TimesGain(n, r, e, t1, m2, g3, ee, a);
    Loss4Is(n, e, t1, ee, a, m2 + t1, m3 + g3, p);
    Gain4Is(n, e, t1, ee, a, m2, m3, q);
  }

  lemma Casts(n: int, r: real, p: real, q: real)
    requires r == n as real && p == (n * n + 3 * n + 3) as real && q == ((n + 1) * (n + 1) - 3 * (n + 1) + 3) as real
    ensures p == Mul(r, r) + 3.0 * r + 3.0 && q == Mul(r, r) - r + 1.0
  {
    assert (n * n) as real == r * r;
    assert (n + 1) * (n + 1) - 3 * (n + 1) + 3 == n * n - n + 1;
  }

  lemma Spread(k: real, x: real, y: real)
    ensures Mul(k, x + y) == Mul(k, x) + Mul(k, y) && Mul(k, y) == Mul(y, k)
  {
  }

  lemma Quadratics(a: real, r: real, rr: real, p: real, q: real)
    requires p == rr + 3.0 * r + 3.0 && q == rr - r + 1.0
    ensures Mul(a, p) == Mul(a, rr) + 3.0 * Mul(a, r) + 3.0 * a
    ensures Mul(a, q) == Mul(a, rr) - Mul(a, r) + a
  {
  }

  lemma TimesGain(n: int, r: real, e: real, t1: real, m2: real, g3: real, ee: real, a: real)
    requires r == n as real && g3 == Gain3(n + 1, t1, e, m2) && ee == Mul(e, e) && a == Mul(t1, ee)
    ensures Mul(e, g3) == Mul(a, r) - a - 3.0 * Mul(ee, m2)
  {
    assert (n + 1 - 2) as real == r - 1.0;
    assert g3 == t1 * e * (r - 1.0) - 3.0 * e * m2;
    Times(e, g3, t1 * e * (r - 1.0) - 3.0 * e * m2);
  }

  /** The two formulas with their products named. */
  lemma Loss4Is(n: int, e: real, t1: real, ee: real, a: real, m2: real, m3: real, p: real)
    requires ee == Mul(e, e) && a == Mul(t1, ee) && p == (n * n + 3 * n + 3) as real
    ensures Loss4(n, t1, e, m2, m3) == Mul(a, p) - 6.0 * Mul(ee, m2) - 4.0 * Mul(e, m3)
  {
  }

  lemma Gain4Is(n: int, e: real, t1: real, ee: real, a: real, m2: real, m3: real, q: real)
    requires ee == Mul(e, e) && a == Mul(t1, ee) && q == ((n + 1) * (n + 1) - 3 * (n + 1) + 3) as real
    ensures Gain4(n + 1, t1, e, m2, m3) == Mul(a, q) + 6.0 * Mul(ee, m2) - 4.0 * Mul(e, m3)
  {
  }

  /** The window with position `i` taken out. */
  function Without(w: seq<real>, i: nat): seq<real>
    requires i < |w|
  {
    w[..i] + w[i + 1..]
  }

  lemma {:induction false} DevConcat(v: seq<real>, w: seq<real>, c: real, k: nat)
    ensures Dev(v + w, c, k) == Dev(v, c, k) + Dev(w, c, k)
    ensures Sum(v + w) == Sum(v) + Sum(w)
    decreases |w|
  {
    if w == [] {
      assert v + w == v;
    } else {
      var front, x := w[..|w| - 1], w[|w| - 1];
      DevConcat(v, front, c, k);
      assert v + w == (v + front) + [x] && w == front + [x];
      DevAppend(v + front, x, c, k);
      DevAppend(front, x, c, k);
    }
  }

  /** The moments do not depend on the order of the window. */
  lemma LastInstead(w: seq<real>, i: nat)
    requires i < |w|
    ensures StateOf(Without(w, i) + [w[i]]) == StateOf(w)
  {
    var p, q, x := w[..i], w[i + 1..], w[i];
    var moved := Without(w, i) + [x];
    assert w == p + ([x] + q) && moved == p + (q + [x]);
    Swap(p, q, x, 0.0, 0);
    assert Mean(moved) == Mean(w);
    Swap(p, q, x, Mean(w), 2);
    Swap(p, q, x, Mean(w), 3);
    Swap(p, q, x, Mean(w), 4);
  }

  lemma {:induction false} Swap(p: seq<real>, q: seq<real>, x: real, c: real, k: nat)
    ensures Dev(p + (q + [x]), c, k) == Dev(p + ([x] + q), c, k)
    ensures Sum(p + (q + [x])) == Sum(p + ([x] + q))
  {
    DevConcat(p, q + [x], c, k);
    DevConcat(p, [x] + q, c, k);
    DevConcat(q, [x], c, k);
    DevConcat([x], q, c, k);
  }

  /** Dequeue of an element still in the window computes exactly the moments of what
      is left, wherever the element stood. */
  lemma DequeueExact(w: seq<real>, i: nat)
    requires i < |w|
    ensures Dequeue(StateOf(w), w[i]) == StateOf(Without(w, i))
  {
    hide Enqueue, Dequeue;
    var rest := Without(w, i);
    LastInstead(w, i);
    EnqueueExact(rest, w[i]);
    DequeueUndoesEnqueue(StateOf(rest), w[i]);
    if rest == [] { assert StateOf(rest) == ZERO; }
  }

  // ---- whole runs ----

  datatype Event = Push(x: real) | Drop(i: nat)

  datatype Window = Illegal | Holds(xs: seq<real>)

  /** The window after the events; a drop must name a position still in the window. */
  function WindowOf(es: seq<Event>): Window
    decreases |es|
  {
    if es == [] then Holds([])
    else
      match WindowOf(es[..|es| - 1])
      case Illegal => Illegal
      case Holds(w) =>
        match es[|es| - 1]
        case Push(x) => Holds(w + [x])
        case Drop(i) => if i < |w| then Holds(Without(w, i)) else Illegal
  }

  class Accumulator {
    var n: int
    var m1: real
    var m2: real
    var m3: real
    var m4: real

    function Fields(): State
      reads this
    {
      State(n, m1, m2, m3, m4)
    }

    constructor ()
      ensures Fields() == ZERO
    {
      n, m1, m2, m3, m4 := 0, 0.0, 0.0, 0.0, 0.0;
    }

    method Add(x: real)
      requires n >= 0
      modifies this
      ensures Fields() == Enqueue(old(Fields()), x)
    {
      hide Share, Square, Gain3, Gain4, Loss3, Loss4;
      var k := n + 1;
      n := k;
      var d1 := x - m1;
      var dn := Share(d1, k);
      var t1 := Square(d1, dn, k - 1);
      m4 := m4 + Gain4(k, t1, dn, m2, m3);
      m3 := m3 + Gain3(k, t1, dn, m2);
      m2 := m2 + t1;
      m1 := m1 + dn;
    }

    method Remove(x: real)
      modifies this
      ensures Fields() == Dequeue(old(Fields()), x)
    {
      hide Share, Square, Gain3, Gain4, Loss3, Loss4;
      var k := n - 1;
      if k <= 0 {
        n, m1, m2, m3, m4 := 0, 0.0, 0.0, 0.0, 0.0;
        return;
      }
      n := k;
      var d1 := x - m1;
      var dn := Share(d1, k);
      var t1 := Square(d1, dn, k + 1);
      m4 := m4 - Loss4(k, t1, dn, m2, m3);
      m3 := m3 - Loss3(k, t1, dn, m2);
      m2 := m2 - t1;
      m1 := m1 - dn;
    }
  }

  /** After any interleaving of enqueues and dequeues the fields are the mean and the
      sums of second, third and fourth powers of deviations of the current window. */
  method Slide(es: seq<Event>) returns (m: State)
    requires WindowOf(es).Holds?
    ensures m == StateOf(WindowOf(es).xs)
  {
    hide Enqueue, Dequeue, Mean, Dev;
    var acc := new Accumulator();
    var w: seq<real> := [];
    EmptyWindow();
    for k := 0 to |es|
      invariant fresh(acc)
      invariant WindowOf(es[..k]) == Holds(w)
      invariant acc.Fields() == StateOf(w)
    {
      assert es[..k + 1][..k] == es[..k];
      LegalSoFar(es, k + 1);
      match es[k]
      case Push(x) =>
        acc.Add(x);
        EnqueueExact(w, x);
        w := w + [x];
      case Drop(i) =>
        acc.Remove(w[i]);
        DequeueExact(w, i);
        w := Without(w, i);
    }
    assert es[..|es|] == es;
    m := acc.Fields();
  }

  lemma EmptyWindow()
    ensures StateOf([]) == ZERO
  {
  }

  lemma {:induction false} LegalSoFar(es: seq<Event>, k: nat)
    requires k <= |es| && WindowOf(es).Holds?
    ensures WindowOf(es[..k]).Holds?
    decreases |es|
  {
    if k < |es| {
      var front := es[..|es| - 1];
      LegalSoFar(front, k);
      assert front[..k] == es[..k];
    } else {
      assert es[..k] == es;
    }
  }
}
