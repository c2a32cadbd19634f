/** Products and quotients of reals by name, so that proofs about schedules see them as plain
    functions and the algebra stays in the lemmas here. */
module Reals {
  function Times(a: real, b: real): real {
    a * b
  }

  function Over(a: real, d: real): real
    requires d != 0.0
  {
    a / d
  }

  lemma Identities(a: real)
    ensures Times(a, 1.0) == a && Times(a, 0.0) == 0.0 && Over(a, 1.0) == a
  {
  }

  lemma Quotient(a: real, d: real)
    requires d != 0.0
    ensures Times(Over(a, d), d) == a
  {
  }

  lemma Signs(a: real, b: real)
    requires b > 0.0
    ensures Times(a, b) > 0.0 <==> a > 0.0
    ensures Times(a, b) < 0.0 <==> a < 0.0
  {
    if a > 0.0 { assert a * b > 0.0; }
    if a < 0.0 { assert (-a) * b > 0.0; }
  }

  /** A positive factor keeps the order, on either side. */
  lemma Scaling(v: real, a: real, b: real)
    requires v > 0.0
    ensures Times(v, a) < Times(v, b) <==> a < b
    ensures Times(a, v) < Times(b, v) <==> a < b
    ensures Times(v, a) == Times(v, b) <==> a == b
    ensures Times(v, a) == Times(a, v)
  {
    Signs(b - a, v);
    assert (b - a) * v == b * v - a * v;
  }

  lemma NextMultiple(v: real, n: nat)
    requires n >= 1
    ensures Times(v, n as real) == Times(v, (n - 1) as real) + v
  {
    assert (n - 1) as real == n as real - 1.0;
  }

  lemma Ratio(a: real, b: real)
    requires a > 0.0 && b > 0.0
    ensures Over(a, b) > 0.0 && Times(Over(a, b), b) == a
    ensures a >= b <==> Over(a, b) >= 1.0
    ensures a <= b <==> Over(a, b) <= 1.0
  {
    hide Over;
    var x := Over(a, b);
    Quotient(a, b);
    Signs(x, b);
    Signs(x - 1.0, b);
    assert Times(x - 1.0, b) == a - b;
  }

  lemma QuotientSign(a: real, b: real, d: real)
    requires a > 0.0 && d > 0.0
    ensures Over(Times(a, b), d) > 0.0 <==> b > 0.0
    ensures Over(Times(a, b), d) < 0.0 <==> b < 0.0
  {
    Quotient(Times(a, b), d);
    Signs(Over(Times(a, b), d), d);
    Signs(b, a);
    assert Times(b, a) == Times(a, b);
  }

  lemma NotNegative(a: real, b: real)
    requires a >= 0.0 && b >= 0.0
    ensures Times(a, b) >= 0.0
  {
  }

  lemma BernoulliStep(m: real, p: real, n: nat)
    requires m >= 1.0 && n >= 1 && p >= 1.0 + Times((n - 1) as real, m - 1.0)
    ensures Times(m, p) >= 1.0 + Times(n as real, m - 1.0)
  {
    var t, k := m - 1.0, (n - 1) as real;
    assert n as real == k + 1.0;
    NotNegative(k, t);
    var q := p - 1.0;
    NotNegative(t, q);
    assert m * p == (1.0 + t) * (1.0 + q) == 1.0 + t + q + t * q;
    assert (k + 1.0) * t == k * t + t;
  }

  lemma InverseStep(m: real, a: real, b: real)
    requires m > 0.0 && Times(a, b) == 1.0
    ensures Times(Times(m, a), Times(Over(1.0, m), b)) == 1.0
  {
    var c := Over(1.0, m);
    assert c * m == 1.0;
    assert (m * a) * (c * b) == (m * c) * (a * b);
  }

  /** If `p` times its inverse is one and the inverse passes `1 / x`, `p` is below `x`. */
  lemma InversePasses(p: real, q: real, x: real)
    requires p > 0.0 && x > 0.0 && Times(p, q) == 1.0 && q >= Over(1.0, x)
    ensures p <= x
  {
    var y := Over(1.0, x);
    assert y * x == 1.0;
    Signs(q - y, p);
    assert (q - y) * p == p * q - p * y;
    assert p * y <= 1.0;
    Ratio(1.0, x);
    Signs(p - x, y);
    assert (p - x) * y == p * y - x * y;
  }

  /** One step of a geometric series in closed form. */
  lemma SeriesStep(v: real, m: real, p: real)
    requires m != 1.0
    ensures Over(Times(v, Times(m, p) - 1.0), m - 1.0) == Over(Times(v, p - 1.0), m - 1.0) + Times(v, p)
  {
    var d := m - 1.0;
    var a, b := v * (m * p - 1.0), v * (p - 1.0);
    assert a == b + (v * p) * d;
    SplitQuotient(b, v * p, d);
  }

  lemma SplitQuotient(b: real, c: real, d: real)
    requires d != 0.0
    ensures (b + c * d) / d == b / d + c
  {
    var x := (b + c * d) / d;
    var y := b / d;
    assert x * d == b + c * d && y * d == b;
    assert (x - y - c) * d == 0.0;
  }

  /** Where `v (p - 1) / (m - 1)` reaches `t`, the power `p` has crossed `t (m - 1) / v + 1`. */
  lemma Crossing(v: real, m: real, p: real, t: real)
    requires v > 0.0 && m != 1.0
    ensures m > 1.0 ==> (Over(Times(v, p - 1.0), m - 1.0) >= t <==> p >= Over(Times(t, m - 1.0), v) + 1.0)
    ensures m < 1.0 ==> (Over(Times(v, p - 1.0), m - 1.0) >= t <==> p <= Over(Times(t, m - 1.0), v) + 1.0)
  {
    Quotient(Times(v, p - 1.0), m - 1.0);
    Quotient(Times(t, m - 1.0), v);
    CrossingAlgebra(v, m - 1.0, p - 1.0, t, Over(Times(v, p - 1.0), m - 1.0), Over(Times(t, m - 1.0), v));
  }

  lemma CrossingAlgebra(v: real, d: real, w: real, t: real, r: real, y: real)
    requires v > 0.0 && d != 0.0 && Times(r, d) == Times(v, w) && Times(y, v) == Times(t, d)
    ensures d > 0.0 ==> (r >= t <==> w >= y)
    ensures d < 0.0 ==> (r >= t <==> w <= y)
  {
    assert (r - t) * d == (w - y) * v;
    Signs(w - y, v);
    if d > 0.0 {
      Signs(r - t, d);
    } else {
      Signs(r - t, -d);
      assert (r - t) * (-d) == -((w - y) * v);
    }
  }

  /** The argument of the logarithm is not positive exactly from the sum of the endless series on. */
  lemma Exhaustion(v: real, m: real, t: real)
    requires v > 0.0 && m < 1.0
    ensures Over(Times(t, m - 1.0), v) + 1.0 <= 0.0 <==> t >= Over(v, 1.0 - m)
  {
    Quotient(Times(t, m - 1.0), v);
    Quotient(v, 1.0 - m);
    ExhaustionAlgebra(v, 1.0 - m, t, Over(Times(t, m - 1.0), v), Over(v, 1.0 - m));
  }

  lemma ExhaustionAlgebra(v: real, d: real, t: real, y: real, total: real)
    requires v > 0.0 && d > 0.0 && Times(y, v) == Times(t, -d) && Times(total, d) == v
    ensures y + 1.0 <= 0.0 <==> t >= total
  {
    assert (t - total) * d == (-y - 1.0) * v;
    Signs(t - total, d);
    Signs(-y - 1.0, v);
  }

  /** A partial sum stays below the endless one. */
  lemma PartialSum(v: real, m: real, p: real)
    requires v > 0.0 && m < 1.0 && p > 0.0
    ensures Over(Times(v, p - 1.0), m - 1.0) < Over(v, 1.0 - m)
  {
    Quotient(Times(v, p - 1.0), m - 1.0);
    Quotient(v, 1.0 - m);
    PartialAlgebra(v, 1.0 - m, p, Over(Times(v, p - 1.0), m - 1.0), Over(v, 1.0 - m));
  }

  lemma PartialAlgebra(v: real, d: real, p: real, r: real, total: real)
    requires v > 0.0 && d > 0.0 && p > 0.0 && Times(r, -d) == Times(v, p - 1.0) && Times(total, d) == v
    ensures r < total
  {
    assert (total - r) * d == v * p;
    assert v * p > 0.0;
    Signs(total - r, d);
  }
}
