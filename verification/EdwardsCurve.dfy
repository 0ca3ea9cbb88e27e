module EdwardsCurve {
  import opened Modular

  lemma Norms(x1: int, y1: int, x2: int, y2: int)
    ensures var e, h := x1 * y2 + x2 * y1, y1 * y2 + x1 * x2;
            var s1, s2 := y1 * y1 + x1 * x1, y2 * y2 + x2 * x2;
            && e * h == (x1 * y1) * s2 + (x2 * y2) * s1
            && h * h - e * e == (y1 * y1 - x1 * x1) * (y2 * y2 - x2 * x2)
            && h * h + e * e == s1 * s2 + 4 * ((x1 * y1) * (x2 * y2))
  {
  }

  lemma Squares(x: int, y: int)
    ensures (y * y + x * x) * (y * y + x * x) == (y * y - x * x) * (y * y - x * x) + 4 * ((x * y) * (x * y))
  {
  }

  lemma SumSquare(w1: int, s1: int, w2: int, s2: int)
    ensures (w1 * s2 + w2 * s1) * (w1 * s2 + w2 * s1)
         == (w1 * w1) * (s2 * s2) + (w2 * w2) * (s1 * s1) + 2 * ((w1 * w2) * (s1 * s2))
  {
  }

  lemma MixedSquares(z: int, u: int, e: int, h: int)
    ensures ((z + u) * h) * ((z + u) * h) - ((z - u) * e) * ((z - u) * e)
         == (z * z + u * u) * (h * h - e * e) + 2 * (z * u) * (h * h + e * e)
  {
  }

  lemma CrossTerms(d: int, m1: int, m2: int, p: int, q: int, r: int)
    ensures 2 * (d * r) * (p + 4 * q) - d * (m1 + m2 + 8 * (q * q) + 2 * (q * p))
         == (2 * d * p + 8 * d * q) * (r - q) - d * m1 - d * m2
  {
  }

  lemma SquareOfSum(w1: int, s1: int, d1: int, w2: int, s2: int, d2: int)
    requires s1 * s1 == d1 * d1 + 4 * (w1 * w1) && s2 * s2 == d2 * d2 + 4 * (w2 * w2)
    ensures (w1 * s2 + w2 * s1) * (w1 * s2 + w2 * s1)
         == (w1 * w1) * (d2 * d2) + (w2 * w2) * (d1 * d1) + 8 * ((w1 * w2) * (w1 * w2)) + 2 * ((w1 * w2) * (s1 * s2))
  {
    SumSquare(w1, s1, w2, s2);
    var v1, v2 := w1 * w1, w2 * w2;
    assert v1 * (s2 * s2) == v1 * (d2 * d2) + 4 * (v1 * v2);
    assert v2 * (s1 * s1) == v2 * (d1 * d1) + 4 * (v1 * v2);
    assert v1 * v2 == (w1 * w2) * (w1 * w2);
  }

  lemma Defect(d: int, e: int, h: int, z: int, tt: int, w1: int, w2: int, s1: int, s2: int, d1: int, d2: int)
    requires e * h == w1 * s2 + w2 * s1
    requires h * h - e * e == d1 * d2
    requires h * h + e * e == s1 * s2 + 4 * (w1 * w2)
    requires s1 * s1 == d1 * d1 + 4 * (w1 * w1) && s2 * s2 == d2 * d2 + 4 * (w2 * w2)
    ensures var u := d * tt;
      ((z + u) * h) * ((z + u) * h) - ((z - u) * e) * ((z - u) * e) - d * ((e * h) * (e * h))
      == (z * z + u * u) * (d1 * d2)
         - d * ((w1 * w1) * (d2 * d2)) - d * ((w2 * w2) * (d1 * d1))
         + (2 * d * (s1 * s2) + 8 * d * (w1 * w2)) * (z * tt - w1 * w2)
  {
    var u := d * tt;
    MixedSquares(z, u, e, h);
    SquareOfSum(w1, s1, d1, w2, s2, d2);
    CrossTerms(d, (w1 * w1) * (d2 * d2), (w2 * w2) * (d1 * d1), s1 * s2, w1 * w2, z * tt);
    assert z * u == d * (z * tt);
  }

  lemma Quartic(a: int, b: int, c: int, k: int)
    ensures (a * c + b * k) * ((a + b) * (c + k)) - (a * c - b * k) * (a * c - b * k)
         == (a * b) * ((c + k) * (c + k)) + (c * k) * ((a + b) * (a + b))
  {
  }

  lemma SquareOfProduct(x: int, y: int)
    ensures (x * y) * (x * y) == (x * x) * (y * y)
  {
  }

  lemma ScaledProduct(d: int, m: int, n: int)
    ensures m * (d * n) == d * (m * n)
    ensures (d * m) * (d * n) == (d * d) * (m * n)
  {
  }

  lemma Regroup(d: int, z1: int, t1: int, z2: int, t2: int)
    ensures var a, b, c, k := z1 * z1, d * (t1 * t1), z2 * z2, d * (t2 * t2);
      && (z1 * z2) * (z1 * z2) == a * c
      && (d * (t1 * t2)) * (d * (t1 * t2)) == b * k
      && a * b == d * ((z1 * t1) * (z1 * t1))
      && c * k == d * ((z2 * t2) * (z2 * t2))
  {
    SquareOfProduct(z1, z2);
    SquareOfProduct(t1, t2);
    SquareOfProduct(z1, t1);
    SquareOfProduct(z2, t2);
    ScaledProduct(d, t1 * t1, t2 * t2);
    SquareOfProduct(d, t1 * t2);
    ScaledProduct(d, z1 * z1, t1 * t1);
    ScaledProduct(d, z2 * z2, t2 * t2);
  }

  lemma Vanish(d: int, z1: int, t1: int, z2: int, t2: int)
    ensures var z, u := z1 * z2, d * (t1 * t2);
      var a1, a2 := z1 * z1 + d * (t1 * t1), z2 * z2 + d * (t2 * t2);
      (z * z + u * u) * (a1 * a2) - (z * z - u * u) * (z * z - u * u)
         == (d * ((z1 * t1) * (z1 * t1))) * (a2 * a2) + (d * ((z2 * t2) * (z2 * t2))) * (a1 * a1)
  {
    Quartic(z1 * z1, d * (t1 * t1), z2 * z2, d * (t2 * t2));
    Regroup(d, z1, t1, z2, t2);
  }

  // ---- extended points --------------------------------------------------------

  datatype Curve = Curve(p: int, d: int) {
    predicate Valid() { p > 2 && p % 2 == 1 }
    function R(a: int): int requires p > 0 { Res(p, a) }
  }

  /** Extended twisted-Edwards coordinates (a = -1): x = X/Z, y = Y/Z, xy = T/Z. */
  datatype Ext = Ext(x: int, y: int, z: int, t: int)

  ghost predicate OnCurve(c: Curve, q: Ext)
    requires c.Valid()
  {
    && c.R(q.x * q.y) == c.R(q.z * q.t)
    && c.R(q.y * q.y - q.x * q.x) == c.R(q.z * q.z + c.d * (q.t * q.t))
  }

  function E(q: Ext, p: Ext): int { q.x * p.y + p.x * q.y }
  function H(q: Ext, p: Ext): int { q.y * p.y + q.x * p.x }
  function F(c: Curve, q: Ext, p: Ext): int { q.z * p.z - c.d * (q.t * p.t) }
  function G(c: Curve, q: Ext, p: Ext): int { q.z * p.z + c.d * (q.t * p.t) }

  /** The unified sum, as integer polynomials of the coordinates. */
  function Sum(c: Curve, q: Ext, p: Ext): Ext {
    var e, f, g, h := E(q, p), F(c, q, p), G(c, q, p), H(q, p);
    Ext(e * f, g * h, f * g, e * h)
  }

  lemma CurveTerms(c: Curve, q: Ext, p: Ext)
    requires c.Valid() && OnCurve(c, q) && OnCurve(c, p)
    ensures var w1, w2 := q.x * q.y, p.x * p.y;
      var b1, b2 := q.z * q.t, p.z * p.t;
      var d1, d2 := q.y * q.y - q.x * q.x, p.y * p.y - p.x * p.x;
      var a1, a2 := q.z * q.z + c.d * (q.t * q.t), p.z * p.z + c.d * (p.t * p.t);
      && c.R(d1 * d2) == c.R(a1 * a2)
      && c.R(w1 * w2) == c.R(b1 * b2)
      && c.R((w1 * w1) * (d2 * d2)) == c.R((b1 * b1) * (a2 * a2))
      && c.R((w2 * w2) * (d1 * d1)) == c.R((b2 * b2) * (a1 * a1))
  {
    hide Res;
    var m := c.p;
    var w1, w2 := q.x * q.y, p.x * p.y;
    var b1, b2 := q.z * q.t, p.z * p.t;
    var d1, d2 := q.y * q.y - q.x * q.x, p.y * p.y - p.x * p.x;
    var a1, a2 := q.z * q.z + c.d * (q.t * q.t), p.z * p.z + c.d * (p.t * p.t);
    ResProduct(m, d1, a1, d2, a2);
    ResProduct(m, w1, b1, w2, b2);
    ResProduct(m, w1, b1, w1, b1);
    ResProduct(m, w2, b2, w2, b2);
    ResProduct(m, d1, a1, d1, a1);
    ResProduct(m, d2, a2, d2, a2);
    ResProduct(m, w1 * w1, b1 * b1, d2 * d2, a2 * a2);
    ResProduct(m, w2 * w2, b2 * b2, d1 * d1, a1 * a1);
  }

  lemma DefectVanishes(c: Curve, q: Ext, p: Ext)
    requires c.Valid() && OnCurve(c, q) && OnCurve(c, p)
    ensures var e, f, g, h := E(q, p), F(c, q, p), G(c, q, p), H(q, p);
      c.R((g * h) * (g * h) - (f * e) * (f * e) - c.d * ((e * h) * (e * h))) == c.R((f * g) * (f * g))
  {
    hide Res;
    var m := c.p;
    var w1, w2 := q.x * q.y, p.x * p.y;
    var s1, s2 := q.y * q.y + q.x * q.x, p.y * p.y + p.x * p.x;
    var d1, d2 := q.y * q.y - q.x * q.x, p.y * p.y - p.x * p.x;
    var z, tt := q.z * p.z, q.t * p.t;
    var u := c.d * tt;
    var big := z * z + u * u;
    var k := 2 * c.d * (s1 * s2) + 8 * c.d * (w1 * w2);
    var a1, a2 := q.z * q.z + c.d * (q.t * q.t), p.z * p.z + c.d * (p.t * p.t);
    var b1, b2 := q.z * q.t, p.z * p.t;
    Norms(q.x, q.y, p.x, p.y);
    Squares(q.x, q.y);
    Squares(p.x, p.y);
    Defect(c.d, E(q, p), H(q, p), z, tt, w1, w2, s1, s2, d1, d2);
    Interchange(q.z, p.z, q.t, p.t);
    CurveTerms(c, q, p);
    Vanish(c.d, q.z, q.t, p.z, p.t);
    ScaledSquares(c.d, b1 * b1, a2 * a2, b2 * b2, a1 * a1);
    DifferenceOfSquares(z, u);
    var e, h := E(q, p), H(q, p);
    Assemble(m, c.d, ((z + u) * h) * ((z + u) * h) - ((z - u) * e) * ((z - u) * e) - c.d * ((e * h) * (e * h)),
             ((z - u) * (z + u)) * ((z - u) * (z + u)), big, k,
             d1 * d2, a1 * a2, (w1 * w1) * (d2 * d2), (b1 * b1) * (a2 * a2),
             (w2 * w2) * (d1 * d1), (b2 * b2) * (a1 * a1), w1 * w2, b1 * b2);
  }

  lemma Assemble(m: int, d: int, lhs: int, rhs: int, big: int, k: int, dd: int, aa: int,
                 p1: int, r1: int, p2: int, r2: int, w: int, b: int)
    requires m > 0
    requires lhs == big * dd - d * p1 - d * p2 + k * (b - w)
    requires big * aa - rhs == d * r1 + d * r2
    requires Res(m, dd) == Res(m, aa) && Res(m, p1) == Res(m, r1) && Res(m, p2) == Res(m, r2) && Res(m, w) == Res(m, b)
    ensures Res(m, lhs) == Res(m, rhs)
  {
    hide *;
    ResCombination(m, k * b, big, dd, aa, -d, p1, r1, -d, p2, r2, -k, w, b);
  }

  lemma Interchange(a: int, b: int, x: int, y: int)
    ensures (a * b) * (x * y) == (a * x) * (b * y)
  {
  }

  lemma ScaledSquares(d: int, a: int, b: int, x: int, y: int)
    ensures (d * a) * b == d * (a * b) && (d * x) * y == d * (x * y)
  {
  }

  lemma DifferenceOfSquares(z: int, u: int)
    ensures ((z - u) * (z + u)) * ((z - u) * (z + u)) == (z * z - u * u) * (z * z - u * u)
  {
  }

  /** The sum of two curve points satisfies both equations again. */
  lemma SumOnCurve(c: Curve, q: Ext, p: Ext)
    requires c.Valid() && OnCurve(c, q) && OnCurve(c, p)
    ensures OnCurve(c, Sum(c, q, p))
  {
    hide Res;
    var e, f, g, h := E(q, p), F(c, q, p), G(c, q, p), H(q, p);
    DefectVanishes(c, q, p);
    Interchange(e, f, g, h);
    Interchange(f, e, g, h);
    var r := c.d * ((e * h) * (e * h));
    ResSum(c.p, (g * h) * (g * h) - (f * e) * (f * e) - r, (f * g) * (f * g), r, r);
    assert Sum(c, q, p) == Ext(e * f, g * h, f * g, e * h);
    assert (e * f) * (g * h) == (f * g) * (e * h);
  }

  /** Coordinate-wise congruence. */
  ghost predicate Same(c: Curve, q: Ext, p: Ext)
    requires c.Valid()
  {
    c.R(q.x) == c.R(p.x) && c.R(q.y) == c.R(p.y) && c.R(q.z) == c.R(p.z) && c.R(q.t) == c.R(p.t)
  }

  function Scale(k: int, q: Ext): Ext { Ext(k * q.x, k * q.y, k * q.z, k * q.t) }

  lemma SameOnCurve(c: Curve, q: Ext, p: Ext)
    requires c.Valid() && Same(c, q, p) && OnCurve(c, q)
    ensures OnCurve(c, p)
  {
    hide Res;
    var m := c.p;
    ResProduct(m, q.x, p.x, q.y, p.y);
    ResProduct(m, q.z, p.z, q.t, p.t);
    ResProduct(m, q.x, p.x, q.x, p.x);
    ResProduct(m, q.y, p.y, q.y, p.y);
    ResProduct(m, q.z, p.z, q.z, p.z);
    ResProduct(m, q.t, p.t, q.t, p.t);
    ResProduct(m, c.d, c.d, q.t * q.t, p.t * p.t);
    ResSum(m, q.y * q.y, p.y * p.y, q.x * q.x, p.x * p.x);
    ResSum(m, q.z * q.z, p.z * p.z, c.d * (q.t * q.t), c.d * (p.t * p.t));
  }

  lemma ScaleOnCurve(c: Curve, k: int, q: Ext)
    requires c.Valid() && OnCurve(c, q)
    ensures OnCurve(c, Scale(k, q))
  {
    hide Res;
    var kk := k * k;
    ResProduct(c.p, kk, kk, q.x * q.y, q.z * q.t);
    ResProduct(c.p, kk, kk, q.y * q.y - q.x * q.x, q.z * q.z + c.d * (q.t * q.t));
    Interchange(k, q.x, k, q.y);
    Interchange(k, q.z, k, q.t);
    SquareOfProduct(k, q.x);
    SquareOfProduct(k, q.y);
    SquareOfProduct(k, q.z);
    SquareOfProduct(k, q.t);
    ScaledProduct(c.d, kk, q.t * q.t);
    Distribute(kk, q.y * q.y, q.x * q.x, q.z * q.z, c.d * (q.t * q.t));
  }

  lemma Distribute(k: int, a: int, b: int, x: int, y: int)
    ensures k * (a - b) == k * a - k * b && k * (x + y) == k * x + k * y
  {
  }

  // ---- units --------------------------------------------------------------------

  ghost predicate Unit(c: Curve, a: int)
    requires c.Valid()
  {
    exists b :: Inverts(c, a, b)
  }

  ghost predicate Inverts(c: Curve, a: int, b: int)
    requires c.Valid()
  {
    c.R(a * b) == c.R(1)
  }

  lemma UnitProduct(c: Curve, a: int, b: int)
    requires c.Valid()
    ensures Unit(c, a * b) <==> Unit(c, a) && Unit(c, b)
  {
    hide Res;
    if Unit(c, a) && Unit(c, b) {
      var x :| Inverts(c, a, x);
      var y :| Inverts(c, b, y);
      ResProduct(c.p, a * x, 1, b * y, 1);
      Interchange(a, x, b, y);
      assert Inverts(c, a * b, x * y);
    }
    if Unit(c, a * b) {
      var x :| Inverts(c, a * b, x);
      assert (a * b) * x == a * (b * x) == b * (a * x);
      assert Inverts(c, a, b * x) && Inverts(c, b, a * x);
    }
  }

  lemma UnitSame(c: Curve, a: int, b: int)
    requires c.Valid() && c.R(a) == c.R(b) && Unit(c, a)
    ensures Unit(c, b)
  {
    hide Res;
    var x :| Inverts(c, a, x);
    ResProduct(c.p, a, b, x, x);
    assert Inverts(c, b, x);
  }

  lemma Cancel(c: Curve, k: int, a: int, b: int)
    requires c.Valid() && Unit(c, k) && c.R(k * a) == c.R(k * b)
    ensures c.R(a) == c.R(b)
  {
    hide Res;
    var x :| Inverts(c, k, x);
    ResProduct(c.p, x, x, k * a, k * b);
    ResProduct(c.p, k * x, 1, a, a);
    ResProduct(c.p, k * x, 1, b, b);
    assert x * (k * a) == (k * x) * a && x * (k * b) == (k * x) * b;
  }

  lemma OneAndTwo(c: Curve)
    requires c.Valid()
    ensures Unit(c, 1) && Unit(c, 2)
  {
    assert Inverts(c, 1, 1);
    var j := (c.p + 1) / 2;
    assert 2 * j == 1 + 1 * c.p;
    Multiple(c.p, 1, 1);
    assert Inverts(c, 2, j);
  }
}
