/** Completeness of the a = -1 addition law over a field in which -1 is a square and d is not. */
module EdwardsComplete {
  import opened Modular
  import opened EdwardsCurve
  import opened EdwardsGroup

  ghost predicate Field(c: Curve)
    requires c.Valid()
  {
    forall a :: Unit(c, a) || c.R(a) == c.R(0)
  }

  ghost predicate NonSquare(c: Curve, d: int)
    requires c.Valid()
  {
    forall s :: !SquareRoot(c, s, d)
  }

  ghost predicate SquareRoot(c: Curve, s: int, a: int)
    requires c.Valid()
  {
    c.R(s * s) == c.R(a)
  }

  /** The two points with their x scaled by i = sqrt(-1), on x^2 + y^2 = 1 - d x^2 y^2. */
  lemma Rotated(c: Curve, i: int, a: Affine)
    requires c.Valid() && SquareRoot(c, i, -1) && Point(c, a)
    ensures var x := i * a.x;
      && c.R(x * x + a.y * a.y) == c.R(1 + c.d * ((a.x * a.y) * (a.x * a.y)))
      && c.R((-c.d) * ((x * a.y) * (x * a.y))) == c.R(c.d * ((a.x * a.y) * (a.x * a.y)))
  {
    hide Res;
    var x, xy := i * a.x, a.x * a.y;
    SquareOfProduct(i, a.x);
    ResProduct(c.p, i * i, -1, a.x * a.x, a.x * a.x);
    ResSum(c.p, a.y * a.y, a.y * a.y, x * x, -(a.x * a.x));
    assert x * a.y == i * xy;
    SquareOfProduct(i, xy);
    ResProduct(c.p, i * i, -1, xy * xy, xy * xy);
    ResProduct(c.p, -c.d, -c.d, (x * a.y) * (x * a.y), -1 * (xy * xy));
    assert (-c.d) * (-1 * (xy * xy)) == c.d * (xy * xy);
  }

  lemma RotatedProduct(c: Curve, i: int, a: Affine, b: Affine)
    requires c.Valid() && SquareRoot(c, i, -1)
    ensures c.R((-c.d) * (((i * a.x) * a.y) * ((i * b.x) * b.y))) == c.R(K(c, a, b))
  {
    hide Res;
    var m := a.x * b.x;
    var n := a.y * b.y;
    Interchange(i * a.x, a.y, i * b.x, b.y);
    Interchange(i, a.x, i, b.x);
    ResProduct(c.p, i * i, -1, m, m);
    ResProduct(c.p, (i * i) * m, -1 * m, n, n);
    ResProduct(c.p, -c.d, -c.d, ((i * i) * m) * n, (-1 * m) * n);
    assert (-c.d) * ((-1 * m) * n) == c.d * (m * n);
  }

  lemma BinomialSquare(x: int, y: int, s: int)
    requires s * s == 1
    ensures (x + s * y) * (x + s * y) == (x * x + y * y) + 2 * s * (x * y)
  {
    assert (x + s * y) * (x + s * y) == x * x + 2 * s * (x * y) + (s * s) * (y * y);
  }

  lemma SignProduct(s: int, e: int)
    requires s * s == 1 && e * e == 1
    ensures (s * e) * (s * e) == 1
  {
    assert (s * e) * (s * e) == (s * s) * (e * e);
  }

  /** If d x1 x2 y1 y2 = e = +-1 then -d is, up to (x1 y1)^2 (x2 + s y2)^2, the square of x1 + s e y1. */
  lemma SquareRelation(c: Curve, i: int, a: Affine, b: Affine, e: int, s: int)
    requires c.Valid() && SquareRoot(c, i, -1) && Point(c, a) && Point(c, b)
    requires c.R(K(c, a, b)) == c.R(e) && e * e == 1 && s * s == 1
    ensures var x1, x2 := i * a.x, i * b.x;
      c.R((x1 + s * e * a.y) * (x1 + s * e * a.y))
        == c.R((-c.d) * (((x1 * a.y) * (x1 * a.y)) * ((x2 + s * b.y) * (x2 + s * b.y))))
  {
    hide Res;
    var m, d' := c.p, -c.d;
    var x1, x2 := i * a.x, i * b.x;
    var u, w := x1 * a.y, x2 * b.y;
    var u2 := u * u;
    var da, db := c.d * ((a.x * a.y) * (a.x * a.y)), c.d * ((b.x * b.y) * (b.x * b.y));
    var k := K(c, a, b);
    Rotated(c, i, a);
    Rotated(c, i, b);
    RotatedProduct(c, i, a, b);
    SignProduct(s, e);
    BinomialSquare(x1, a.y, s * e);
    BinomialSquare(x2, b.y, s);
    var q := x2 * x2 + b.y * b.y;
    ProductOfNorms(c, a, b);
    ResProduct(m, k, e, k, e);
    ResProduct(m, d' * u2, da, q, 1 + db);
    ResSum(m, da, da, da * db, 1);
    ResProduct(m, d' * (u * w), e, 2 * s * u, 2 * s * u);
    ResSum(m, (d' * u2) * q, da * (1 + db), (d' * (u * w)) * (2 * s * u), e * (2 * s * u));
    ResSum(m, x1 * x1 + a.y * a.y, 1 + da, 2 * (s * e) * u, 2 * (s * e) * u);
    Expand(d', u, w, q, s, e, da, db);
    ResSum(m, da + da * db, da + 1, 2 * (s * e) * u, 2 * (s * e) * u);
    var y1, y2 := a.y, b.y;
    Restate(c, d', u2, q, w, s, e, x1, y1, x2, y2);
  }

  /** The two sides as the sums they were computed from. */
  lemma Restate(c: Curve, d: int, u2: int, q: int, w: int, s: int, e: int, x1: int, y1: int, x2: int, y2: int)
    requires c.Valid() && s * s == 1 && e * e == 1 && u2 == (x1 * y1) * (x1 * y1) && q == x2 * x2 + y2 * y2
      && w == x2 * y2
    requires c.R((x1 * x1 + y1 * y1) + 2 * (s * e) * (x1 * y1)) == c.R(d * (u2 * (q + 2 * s * w)))
    ensures c.R((x1 + s * e * y1) * (x1 + s * e * y1))
      == c.R(d * (((x1 * y1) * (x1 * y1)) * ((x2 + s * y2) * (x2 + s * y2))))
  {
    hide Res;
    SignProduct(s, e);
    BinomialSquare(x1, y1, s * e);
    BinomialSquare(x2, y2, s);
  }

  lemma Expand(d: int, u: int, w: int, q: int, s: int, e: int, da: int, db: int)
    ensures d * ((u * u) * (q + 2 * s * w)) == (d * (u * u)) * q + (d * (u * w)) * (2 * s * u)
    ensures da * (1 + db) == da + da * db && e * (2 * s * u) == 2 * (s * e) * u
  {
    assert d * ((u * u) * (q + 2 * s * w)) == (d * (u * u)) * q + (d * (u * u)) * (2 * s * w);
  }

  lemma ProductOfNorms(c: Curve, a: Affine, b: Affine)
    ensures (c.d * ((a.x * a.y) * (a.x * a.y))) * (c.d * ((b.x * b.y) * (b.x * b.y))) == K(c, a, b) * K(c, a, b)
  {
    var u, v := a.x * a.y, b.x * b.y;
    Interchange(a.x, a.y, b.x, b.y);
    ScaledProduct(c.d, u * u, v * v);
    SquareOfProduct(u, v);
    SquareOfProduct(c.d, u * v);
  }

  lemma NotUnitZero(c: Curve, a: int)
    requires c.Valid() && c.R(a) == c.R(0)
    ensures !Unit(c, a)
  {
    hide Res;
    if Unit(c, a) {
      UnitSame(c, a, 0);
      var b :| Inverts(c, 0, b);
      assert 0 * b == 0;
      ReducedResidue(c.p, 0);
      ReducedResidue(c.p, 1);
      assert false;
    }
  }

  /** l^2 = -d (uv)^2 with uv a unit exhibits a square root of d. */
  lemma RootOfD(c: Curve, i: int, uv: int, l: int) returns (s: int)
    requires c.Valid() && SquareRoot(c, i, -1) && Unit(c, uv)
    requires c.R(l * l) == c.R((-c.d) * (uv * uv))
    ensures SquareRoot(c, s, c.d)
  {
    hide Res;
    var w :| Inverts(c, uv, w);
    var m, r := c.p, w * l;
    ResProduct(m, w * w, w * w, l * l, (-c.d) * (uv * uv));
    SquareOfProduct(uv, w);
    ResProduct(m, uv * w, 1, uv * w, 1);
    ResProduct(m, -c.d, -c.d, (uv * w) * (uv * w), 1);
    assert (w * w) * ((-c.d) * (uv * uv)) == (-c.d) * ((uv * uv) * (w * w));
    SquareOfProduct(w, l);
    ResProduct(m, i * i, -1, r * r, -c.d);
    SquareOfProduct(i, r);
    s := i * r;
  }

  /** A unit x2 + s y2 would make d a square. */
  lemma WouldBeSquare(c: Curve, i: int, u: int, v: int, l: int)
    requires c.Valid() && SquareRoot(c, i, -1) && NonSquare(c, c.d) && Unit(c, u)
    requires c.R(l * l) == c.R((-c.d) * ((u * u) * (v * v)))
    ensures !Unit(c, v)
  {
    hide Res;
    if Unit(c, v) {
      UnitProduct(c, u, v);
      SquareOfProduct(u, v);
      var s := RootOfD(c, i, u * v, l);
      assert false;
    }
  }

  lemma NeverPlusMinusOne(c: Curve, i: int, a: Affine, b: Affine, e: int)
    requires c.Valid() && Field(c) && SquareRoot(c, i, -1) && NonSquare(c, c.d) && Point(c, a) && Point(c, b)
    requires e == 1 || e == -1
    ensures c.R(K(c, a, b)) != c.R(e)
  {
    hide Res, Point, NonSquare;
    if c.R(K(c, a, b)) == c.R(e) {
      var x1, x2 := i * a.x, i * b.x;
      SignUnits(c, i, e);
      UnitSame(c, e, K(c, a, b));
      UnitProduct(c, c.d, (a.x * b.x) * (a.y * b.y));
      UnitProduct(c, a.x * b.x, a.y * b.y);
      UnitProduct(c, a.x, b.x);
      UnitProduct(c, a.y, b.y);
      UnitProduct(c, i, a.x);
      UnitProduct(c, i, b.x);
      UnitProduct(c, x1, a.y);
      SquareRelation(c, i, a, b, e, 1);
      SquareRelation(c, i, a, b, e, -1);
      WouldBeSquare(c, i, x1 * a.y, x2 + 1 * b.y, x1 + 1 * e * a.y);
      WouldBeSquare(c, i, x1 * a.y, x2 + -1 * b.y, x1 + -1 * e * a.y);
      ResSum(c.p, x2 + b.y, 0, x2 - b.y, 0);
      OneAndTwo(c);
      UnitProduct(c, 2, x2);
      NotUnitZero(c, (x2 + b.y) + (x2 - b.y));
      assert false;
    }
  }

  lemma SignUnits(c: Curve, i: int, e: int)
    requires c.Valid() && SquareRoot(c, i, -1) && (e == 1 || e == -1)
    ensures Unit(c, e) && Unit(c, i)
  {
    hide Res;
    assert Inverts(c, e, e);
    assert Inverts(c, -1, -1);
    UnitSame(c, -1, i * i);
    UnitProduct(c, i, i);
  }

  lemma CompleteLaw(c: Curve, i: int)
    requires c.Valid() && Field(c) && SquareRoot(c, i, -1) && NonSquare(c, c.d)
    ensures Complete(c)
  {
    hide Res, Point, NonSquare;
    forall a, b | Point(c, a) && Point(c, b)
      ensures Unit(c, 1 + K(c, a, b)) && Unit(c, 1 - K(c, a, b))
    {
      var k := K(c, a, b);
      NeverPlusMinusOne(c, i, a, b, 1);
      NeverPlusMinusOne(c, i, a, b, -1);
      if c.R(1 + k) == c.R(0) { ResSum(c.p, 1 + k, 0, 1, 1); assert false; }
      if c.R(1 - k) == c.R(0) { ResSum(c.p, 1, 1, 1 - k, 0); assert false; }
    }
  }
}
