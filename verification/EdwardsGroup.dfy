/** The affine Edwards group, and the extended-coordinate sum as a representation of it. */
module EdwardsGroup {
  import opened Modular
  import opened EdwardsCurve

  datatype Affine = Affine(x: int, y: int)

  const NEUTRAL := Affine(0, 1)

  ghost predicate Point(c: Curve, a: Affine)
    requires c.Valid()
  {
    && 0 <= a.x < c.p && 0 <= a.y < c.p
    && c.R(a.y * a.y - a.x * a.x) == c.R(1 + c.d * ((a.x * a.y) * (a.x * a.y)))
  }

  function Numerator(a: Affine, b: Affine): int { a.x * b.y + b.x * a.y }
  function Conumerator(a: Affine, b: Affine): int { a.y * b.y + a.x * b.x }
  function K(c: Curve, a: Affine, b: Affine): int { c.d * ((a.x * b.x) * (a.y * b.y)) }

  ghost function Inverse(c: Curve, a: int): int
    requires c.Valid()
  {
    if Unit(c, a) then var b :| Inverts(c, a, b); b else 0
  }

  /** The twisted-Edwards addition law of section 5.1.4 of RFC 8032, a = -1. */
  ghost function Plus(c: Curve, a: Affine, b: Affine): Affine
    requires c.Valid()
  {
    Affine(c.R(Numerator(a, b) * Inverse(c, 1 + K(c, a, b))), c.R(Conumerator(a, b) * Inverse(c, 1 - K(c, a, b))))
  }

  /** The affine point (X/Z, Y/Z). */
  ghost predicate Represents(c: Curve, q: Ext, a: Affine)
    requires c.Valid()
  {
    && Unit(c, q.z)
    && c.R(q.x) == c.R(a.x * q.z)
    && c.R(q.y) == c.R(a.y * q.z)
  }

  /** No denominator of the addition law vanishes on the curve. */
  ghost predicate Complete(c: Curve)
    requires c.Valid()
  {
    forall a, b :: Point(c, a) && Point(c, b) ==> Unit(c, 1 + K(c, a, b)) && Unit(c, 1 - K(c, a, b))
  }

  ghost predicate Associative(c: Curve)
    requires c.Valid()
  {
    forall a, b, e :: Point(c, a) && Point(c, b) && Point(c, e) ==>
      Plus(c, Plus(c, a, b), e) == Plus(c, a, Plus(c, b, e))
  }

  lemma ProductTerm(c: Curve, u: int, a: int, z1: int, v: int, b: int, z2: int)
    requires c.Valid() && c.R(u) == c.R(a * z1) && c.R(v) == c.R(b * z2)
    ensures c.R(u * v) == c.R((z1 * z2) * (a * b))
  {
    hide Res;
    ResProduct(c.p, u, a * z1, v, b * z2);
    Interchange(a, b, z1, z2);
  }

  lemma NumeratorTerms(c: Curve, q: Ext, p: Ext, a: Affine, b: Affine)
    requires c.Valid() && Represents(c, q, a) && Represents(c, p, b)
    ensures c.R(E(q, p)) == c.R((q.z * p.z) * Numerator(a, b))
    ensures c.R(H(q, p)) == c.R((q.z * p.z) * Conumerator(a, b))
  {
    hide Res;
    var m := c.p;
    var z := q.z * p.z;
    ProductTerm(c, q.x, a.x, q.z, p.y, b.y, p.z);
    ProductTerm(c, q.y, a.y, q.z, p.x, b.x, p.z);
    ProductTerm(c, q.y, a.y, q.z, p.y, b.y, p.z);
    ProductTerm(c, q.x, a.x, q.z, p.x, b.x, p.z);
    ResSum(m, q.x * p.y, z * (a.x * b.y), q.y * p.x, z * (a.y * b.x));
    ResSum(m, q.y * p.y, z * (a.y * b.y), q.x * p.x, z * (a.x * b.x));
    Distribute(z, 0, 0, a.x * b.y, a.y * b.x);
    Distribute(z, 0, 0, a.y * b.y, a.x * b.x);
  }

  lemma CrossTerm(c: Curve, q: Ext, p: Ext, a: Affine, b: Affine)
    requires c.Valid() && OnCurve(c, q) && OnCurve(c, p) && Represents(c, q, a) && Represents(c, p, b)
    ensures var z := q.z * p.z; c.R(z * (c.d * (q.t * p.t))) == c.R((z * z) * K(c, a, b))
  {
    hide Res;
    var m := c.p;
    var z := q.z * p.z;
    ResProduct(m, q.x, a.x * q.z, q.y, a.y * q.z);
    ResProduct(m, p.x, b.x * p.z, p.y, b.y * p.z);
    ResProduct(m, q.z * q.t, (a.x * q.z) * (a.y * q.z), p.z * p.t, (b.x * p.z) * (b.y * p.z));
    ResProduct(m, c.d, c.d, (q.z * q.t) * (p.z * p.t), ((a.x * q.z) * (a.y * q.z)) * ((b.x * p.z) * (b.y * p.z)));
    Interchange(q.z, q.t, p.z, p.t);
    ScaledProduct(c.d, z, q.t * p.t);
    Interchange(a.x, a.y, q.z, q.z);
    Interchange(b.x, b.y, p.z, p.z);
    Interchange(a.x * a.y, q.z * q.z, b.x * b.y, p.z * p.z);
    Interchange(a.x, a.y, b.x, b.y);
    SquareOfProduct(q.z, p.z);
    ScaledProduct(c.d, z * z, (a.x * b.x) * (a.y * b.y));
  }

  lemma Denominators(c: Curve, q: Ext, p: Ext, a: Affine, b: Affine)
    requires c.Valid() && OnCurve(c, q) && OnCurve(c, p) && Represents(c, q, a) && Represents(c, p, b)
    ensures var z := q.z * p.z;
      c.R(G(c, q, p)) == c.R(z * (1 + K(c, a, b))) && c.R(F(c, q, p)) == c.R(z * (1 - K(c, a, b)))
  {
    hide Res;
    var z, u, k := q.z * p.z, c.d * (q.t * p.t), K(c, a, b);
    CrossTerm(c, q, p, a, b);
    UnitProduct(c, q.z, p.z);
    ResSum(c.p, z * z, z * z, z * u, (z * z) * k);
    Distribute(z, z, u, z, u);
    Distribute(z, z * 1, z * k, z * 1, z * k);
    Distribute(z, 1, k, 1, k);
    assert z * (z * k) == (z * z) * k;
    Cancel(c, z, z + u, z * (1 + k));
    Cancel(c, z, z - u, z * (1 - k));
  }

  /** X = e f, Z = f g, g = z(1 + k), e = z n gives X/Z = n / (1 + k). */
  lemma Ratio(c: Curve, z: int, e: int, f: int, g: int, n: int, k: int, i: int)
    requires c.Valid() && c.R(g) == c.R(z * k) && c.R(e) == c.R(z * n) && Inverts(c, k, i)
    ensures c.R(e * f) == c.R(c.R(n * i) * (f * g))
  {
    hide Res;
    var m := c.p;
    ResProduct(m, k * i, 1, n * z, n * z);
    ResProduct(m, g, z * k, n * i, n * i);
    Interchange(z, k, n, i);
    assert (z * n) * (k * i) == (k * i) * (n * z);
    assert c.R(g * (n * i)) == c.R(e);
    ResResidue(m, n * i);
    ResProduct(m, c.R(n * i), n * i, g, g);
    ResProduct(m, c.R(n * i) * g, e, f, f);
    assert (c.R(n * i) * g) * f == c.R(n * i) * (f * g);
  }

  lemma ResResidue(p: int, a: int)
    requires p > 0
    ensures Res(p, Res(p, a)) == Res(p, a)
  {
    ResRes(p, a);
  }

  /** F and G of the unified sum are units, and so is its Z. */
  lemma SumUnits(c: Curve, q: Ext, p: Ext, a: Affine, b: Affine)
    requires c.Valid() && Unit(c, 1 + K(c, a, b)) && Unit(c, 1 - K(c, a, b))
    requires OnCurve(c, q) && OnCurve(c, p) && Represents(c, q, a) && Represents(c, p, b)
    ensures Unit(c, Sum(c, q, p).z)
  {
    var k, f, g := K(c, a, b), F(c, q, p), G(c, q, p);
    hide *;
    ValidPositive(c);
    Denominators(c, q, p, a, b);
    RepresentsUnit(c, q, a);
    RepresentsUnit(c, p, b);
    var z := q.z * p.z;
    UnitProduct(c, q.z, p.z);
    UnitProduct(c, z, 1 + k);
    UnitProduct(c, z, 1 - k);
    UnitSame(c, z * (1 + k), g);
    UnitSame(c, z * (1 - k), f);
    UnitProduct(c, f, g);
    SumPlusParts(c, q, p, a, b);
  }

  lemma RepresentsUnit(c: Curve, q: Ext, a: Affine)
    requires c.Valid() && Represents(c, q, a)
    ensures Unit(c, q.z)
  {
    hide Unit, Res;
  }

  /** The coordinates by name. */
  lemma SumPlusParts(c: Curve, q: Ext, p: Ext, a: Affine, b: Affine)
    requires c.Valid()
    ensures Sum(c, q, p).x == E(q, p) * F(c, q, p)
    ensures Sum(c, q, p).y == G(c, q, p) * H(q, p) && Sum(c, q, p).y == H(q, p) * G(c, q, p)
    ensures Sum(c, q, p).z == F(c, q, p) * G(c, q, p) && Sum(c, q, p).z == G(c, q, p) * F(c, q, p)
    ensures Plus(c, a, b).x == c.R(Numerator(a, b) * Inverse(c, 1 + K(c, a, b)))
    ensures Plus(c, a, b).y == c.R(Conumerator(a, b) * Inverse(c, 1 - K(c, a, b)))
  {
    hide E, F, G, H, K, Numerator, Conumerator, Inverse, Res;
  }

  lemma SumX(c: Curve, q: Ext, p: Ext, a: Affine, b: Affine)
    requires c.Valid() && Unit(c, 1 + K(c, a, b))
    requires OnCurve(c, q) && OnCurve(c, p) && Represents(c, q, a) && Represents(c, p, b)
    ensures c.R(Sum(c, q, p).x) == c.R(Plus(c, a, b).x * Sum(c, q, p).z)
  {
    hide *;
    ValidPositive(c);
    var z, k, i := q.z * p.z, K(c, a, b), Inverse(c, 1 + K(c, a, b));
    NumeratorTerms(c, q, p, a, b);
    Denominators(c, q, p, a, b);
    InverseOf(c, 1 + k);
    Ratio(c, z, E(q, p), F(c, q, p), G(c, q, p), Numerator(a, b), 1 + k, i);
    SumPlusParts(c, q, p, a, b);
  }

  lemma SumY(c: Curve, q: Ext, p: Ext, a: Affine, b: Affine)
    requires c.Valid() && Unit(c, 1 - K(c, a, b))
    requires OnCurve(c, q) && OnCurve(c, p) && Represents(c, q, a) && Represents(c, p, b)
    ensures c.R(Sum(c, q, p).y) == c.R(Plus(c, a, b).y * Sum(c, q, p).z)
  {
    hide *;
    ValidPositive(c);
    var z, k, i := q.z * p.z, K(c, a, b), Inverse(c, 1 - K(c, a, b));
    NumeratorTerms(c, q, p, a, b);
    Denominators(c, q, p, a, b);
    InverseOf(c, 1 - k);
    Ratio(c, z, H(q, p), G(c, q, p), F(c, q, p), Conumerator(a, b), 1 - k, i);
    SumPlusParts(c, q, p, a, b);
  }

  lemma ValidPositive(c: Curve)
    requires c.Valid()
    ensures c.p > 2
  {}

  /** No denominator vanishes on the curve. */
  lemma CompleteAt(c: Curve, a: Affine, b: Affine)
    requires c.Valid() && Complete(c) && Point(c, a) && Point(c, b)
    ensures Unit(c, 1 + K(c, a, b)) && Unit(c, 1 - K(c, a, b))
  {
    hide Point, K, Unit;
  }

  /** Adding representatives represents the affine sum. */
  lemma SumRepresents(c: Curve, q: Ext, p: Ext, a: Affine, b: Affine)
    requires c.Valid() && Complete(c) && Point(c, a) && Point(c, b)
    requires OnCurve(c, q) && OnCurve(c, p) && Represents(c, q, a) && Represents(c, p, b)
    ensures Represents(c, Sum(c, q, p), Plus(c, a, b))
  {
    hide Res, Complete, Point, OnCurve, Sum, Plus, Unit, K;
    CompleteAt(c, a, b);
    SumUnits(c, q, p, a, b);
    SumX(c, q, p, a, b);
    SumY(c, q, p, a, b);
  }

  // ---- representatives --------------------------------------------------------

  lemma ReducedResidue(p: int, a: int)
    requires 0 <= a < p
    ensures Res(p, a) == a
  {
  }

  lemma SameRepresents(c: Curve, q: Ext, p: Ext, a: Affine)
    requires c.Valid() && Same(c, q, p) && Represents(c, q, a)
    ensures Represents(c, p, a)
  {
    hide Res;
    UnitSame(c, q.z, p.z);
    ResProduct(c.p, a.x, a.x, q.z, p.z);
    ResProduct(c.p, a.y, a.y, q.z, p.z);
  }

  lemma ScaleRepresents(c: Curve, k: int, q: Ext, a: Affine)
    requires c.Valid() && Unit(c, k) && Represents(c, q, a)
    ensures Represents(c, Scale(k, q), a)
  {
    hide Res;
    UnitProduct(c, k, q.z);
    ResProduct(c.p, k, k, q.x, a.x * q.z);
    ResProduct(c.p, k, k, q.y, a.y * q.z);
    assert k * (a.x * q.z) == a.x * (k * q.z) && k * (a.y * q.z) == a.y * (k * q.z);
  }

  /** Cross-multiplied equality decides equality of the represented points. */
  lemma EqualCross(c: Curve, u: int, x: int, z: int, v: int, y: int, w: int)
    requires c.Valid() && 0 <= x < c.p && 0 <= y < c.p && Unit(c, z) && Unit(c, w)
    requires c.R(u) == c.R(x * z) && c.R(v) == c.R(y * w)
    ensures c.R(u * w) == c.R(v * z) <==> x == y
  {
    hide Res;
    ResProduct(c.p, u, x * z, w, w);
    ResProduct(c.p, v, y * w, z, z);
    assert (x * z) * w == (z * w) * x && (y * w) * z == (z * w) * y;
    UnitProduct(c, z, w);
    if c.R(u * w) == c.R(v * z) {
      Cancel(c, z * w, x, y);
      ReducedResidue(c.p, x);
      ReducedResidue(c.p, y);
    }
  }

  /** A represented point of the curve surface satisfies the affine curve equation. */
  lemma RepresentedOnCurve(c: Curve, q: Ext, a: Affine)
    requires c.Valid() && OnCurve(c, q) && Represents(c, q, a) && 0 <= a.x < c.p && 0 <= a.y < c.p
    ensures Point(c, a)
  {
    hide Res;
    var w, xy, d := q.z * q.z, a.x * a.y, c.d;
    ProductTerm(c, q.x, a.x, q.z, q.x, a.x, q.z);
    ProductTerm(c, q.y, a.y, q.z, q.y, a.y, q.z);
    ProductTerm(c, q.x, a.x, q.z, q.y, a.y, q.z);
    var zt := q.z * q.t;
    ResProduct(c.p, zt, w * xy, zt, w * xy);
    SquareOfProduct(q.z, q.t);
    SquareOfProduct(w, xy);
    AffineEquation(c, w, q.x * q.x, q.y * q.y, q.t * q.t, a.x * a.x, a.y * a.y, xy * xy);
    UnitProduct(c, q.z, q.z);
    UnitProduct(c, w, w);
    Cancel(c, w * w, a.y * a.y - a.x * a.x, 1 + d * (xy * xy));
  }

  lemma AffineEquation(c: Curve, w: int, x2: int, y2: int, t2: int, ax2: int, ay2: int, axy2: int)
    requires c.Valid() && c.R(y2 - x2) == c.R(w + c.d * t2)
    requires c.R(x2) == c.R(w * ax2) && c.R(y2) == c.R(w * ay2) && c.R(w * t2) == c.R((w * w) * axy2)
    ensures c.R((w * w) * (ay2 - ax2)) == c.R((w * w) * (1 + c.d * axy2))
  {
    hide Res;
    var m, d := c.p, c.d;
    ResSum(m, y2, w * ay2, x2, w * ax2);
    ResProduct(m, w, w, y2 - x2, w * ay2 - w * ax2);
    ResProduct(m, w, w, y2 - x2, w + d * t2);
    ResProduct(m, d, d, w * t2, (w * w) * axy2);
    ResSum(m, w * w, w * w, d * (w * t2), d * ((w * w) * axy2));
    assert w * (w * ay2 - w * ax2) == (w * w) * (ay2 - ax2);
    assert w * (w + d * t2) == w * w + d * (w * t2);
    assert (w * w) * (1 + d * axy2) == w * w + d * ((w * w) * axy2);
  }

  /** An affine curve point as an extended one, z = 1. */
  function Lift(a: Affine): Ext { Ext(a.x, a.y, 1, a.x * a.y) }

  lemma LiftOnCurve(c: Curve, a: Affine)
    requires c.Valid() && Point(c, a)
    ensures OnCurve(c, Lift(a)) && Represents(c, Lift(a), a)
  {
    hide Res;
    OneAndTwo(c);
  }

  // ---- the group ---------------------------------------------------------------

  lemma PlusPoint(c: Curve, a: Affine, b: Affine)
    requires c.Valid() && Complete(c) && Point(c, a) && Point(c, b)
    ensures Point(c, Plus(c, a, b))
  {
    LiftOnCurve(c, a);
    LiftOnCurve(c, b);
    SumRepresents(c, Lift(a), Lift(b), a, b);
    SumOnCurve(c, Lift(a), Lift(b));
    RepresentedOnCurve(c, Sum(c, Lift(a), Lift(b)), Plus(c, a, b));
  }

  lemma Commutative(c: Curve, a: Affine, b: Affine)
    requires c.Valid()
    ensures Plus(c, a, b) == Plus(c, b, a)
  {
    assert Numerator(a, b) == Numerator(b, a) && Conumerator(a, b) == Conumerator(b, a);
    assert (a.x * b.x) * (a.y * b.y) == (b.x * a.x) * (b.y * a.y);
  }

  lemma InverseOf(c: Curve, a: int)
    requires c.Valid() && Unit(c, a)
    ensures Inverts(c, a, Inverse(c, a))
  {
  }

  lemma NeutralTerms(c: Curve, a: Affine)
    ensures K(c, a, NEUTRAL) == 0 && Numerator(a, NEUTRAL) == a.x && Conumerator(a, NEUTRAL) == a.y
  {}

  lemma PlusNeutral(c: Curve, a: Affine)
    requires c.Valid() && Point(c, a)
    ensures Plus(c, a, NEUTRAL) == a && Plus(c, NEUTRAL, a) == a && Point(c, NEUTRAL)
  {
    OneAndTwo(c);
    NeutralTerms(c, a);
    InverseOf(c, 1);
    TimesInverseOfOne(c, a.x);
    TimesInverseOfOne(c, a.y);
    hide Res, K, Numerator, Conumerator, Inverse;
    assert Plus(c, a, NEUTRAL) == a;
    Commutative(c, a, NEUTRAL);
    hide Plus;
    NeutralPoint(c);
  }

  lemma NeutralPoint(c: Curve)
    requires c.Valid()
    ensures Point(c, NEUTRAL)
  {}

  lemma TimesInverseOfOne(c: Curve, x: int)
    requires c.Valid() && 0 <= x < c.p && Inverts(c, 1, Inverse(c, 1))
    ensures c.R(x * Inverse(c, 1)) == x
  {
    var i := Inverse(c, 1);
    hide Res, Inverse;
    ResProduct(c.p, x, x, 1 * i, 1);
    ReducedResidue(c.p, x);
    assert x * (1 * i) == x * i && x * 1 == x;
  }

  function Negate(c: Curve, a: Affine): Affine {
    Affine(if a.x == 0 then 0 else c.p - a.x, a.y)
  }

  lemma NegatePoint(c: Curve, a: Affine)
    requires c.Valid() && Point(c, a)
    ensures Point(c, Negate(c, a))
  {
    hide Res;
    if a.x != 0 {
      var n := c.p - a.x;
      Multiple(c.p, 1, -a.x);
      ResProduct(c.p, n, -a.x, n, -a.x);
      ResProduct(c.p, n, -a.x, a.y, a.y);
      ResProduct(c.p, n * a.y, -a.x * a.y, n * a.y, -a.x * a.y);
      assert (-a.x * a.y) * (-a.x * a.y) == (a.x * a.y) * (a.x * a.y);
      assert (-a.x) * (-a.x) == a.x * a.x;
      ResSum(c.p, a.y * a.y, a.y * a.y, n * n, a.x * a.x);
      ResProduct(c.p, c.d, c.d, (n * a.y) * (n * a.y), (a.x * a.y) * (a.x * a.y));
      ResSum(c.p, 1, 1, c.d * ((n * a.y) * (n * a.y)), c.d * ((a.x * a.y) * (a.x * a.y)));
    }
  }

  /** The coordinates of the sum of (x, y) and (n, y), n congruent to -x, by plain variables. */
  lemma NegateNumbers(m: int, d: int, x: int, y: int, n: int)
    requires m > 0 && Res(m, n) == Res(m, -x)
    requires Res(m, y * y - x * x) == Res(m, 1 + d * ((x * y) * (x * y)))
    ensures Res(m, x * y + n * y) == Res(m, 0)
    ensures Res(m, y * y + x * n) == Res(m, 1 - d * ((x * n) * (y * y)))
  {
    hide Res;
    var xy := x * y;
    ResProduct(m, n, -x, y, y);
    ResSum(m, x * y, x * y, n * y, (-x) * y);
    ResProduct(m, x, x, n, -x);
    NegativeSquare(x, y);
    ResSum(m, y * y, y * y, x * n, x * (-x));
    ResProduct(m, x * n, x * (-x), y * y, y * y);
    ResProduct(m, d, d, (x * n) * (y * y), -(xy * xy));
    ResSum(m, 1, 1, d * ((x * n) * (y * y)), d * (-(xy * xy)));
    assert d * (-(xy * xy)) == -(d * (xy * xy));
  }

  lemma NegateTerms(c: Curve, a: Affine)
    requires c.Valid() && Point(c, a)
    ensures var b := Negate(c, a);
      c.R(Numerator(a, b)) == c.R(0) && c.R(Conumerator(a, b)) == c.R(1 - K(c, a, b))
  {
    hide Res;
    var n := Negate(c, a).x;
    assert Res(c.p, n) == Res(c.p, -a.x) by {
      if a.x != 0 { Multiple(c.p, 1, -a.x); }
    }
    NegateNumbers(c.p, c.d, a.x, a.y, n);
  }

  lemma NegativeSquare(x: int, y: int)
    ensures (x * (-x)) * (y * y) == -((x * y) * (x * y)) && x * (-x) == -(x * x) && x * y + (-x) * y == 0
  {
  }

  lemma PlusNegate(c: Curve, a: Affine)
    requires c.Valid() && Complete(c) && Point(c, a)
    ensures Plus(c, a, Negate(c, a)) == NEUTRAL
  {
    hide Res;
    var b, m := Negate(c, a), c.p;
    NegatePoint(c, a);
    NegateTerms(c, a);
    var k := K(c, a, b);
    var i, j := Inverse(c, 1 + k), Inverse(c, 1 - k);
    InverseOf(c, 1 - k);
    ResProduct(m, Conumerator(a, b), 1 - k, j, j);
    ResProduct(m, Numerator(a, b), 0, i, i);
    ReducedResidue(m, 0);
    ReducedResidue(m, 1);
  }

  // ---- multiples ----------------------------------------------------------------

  ghost function Mul(c: Curve, n: nat, a: Affine): Affine
    requires c.Valid()
  {
    if n == 0 then NEUTRAL else Plus(c, Mul(c, n - 1, a), a)
  }

  /** [m]a + [n]b */
  ghost function Comb(c: Curve, m: nat, a: Affine, n: nat, b: Affine): Affine
    requires c.Valid()
  {
    Plus(c, Mul(c, m, a), Mul(c, n, b))
  }

  ghost predicate Group(c: Curve)
    requires c.Valid()
  {
    Complete(c) && Associative(c)
  }

  lemma {:induction false} MulPoint(c: Curve, n: nat, a: Affine)
    requires c.Valid() && Complete(c) && Point(c, a)
    ensures Point(c, Mul(c, n, a))
  {
    hide Plus, Point;
    if n == 0 { PlusNeutral(c, a); } else { MulPoint(c, n - 1, a); PlusPoint(c, Mul(c, n - 1, a), a); }
  }

  lemma Assoc(c: Curve, a: Affine, b: Affine, e: Affine)
    requires c.Valid() && Group(c) && Point(c, a) && Point(c, b) && Point(c, e)
    ensures Plus(c, Plus(c, a, b), e) == Plus(c, a, Plus(c, b, e))
  {
    hide Plus, Point;
  }

  lemma Medial(c: Curve, a: Affine, b: Affine, e: Affine, f: Affine)
    requires c.Valid() && Group(c) && Point(c, a) && Point(c, b) && Point(c, e) && Point(c, f)
    ensures Plus(c, Plus(c, a, b), Plus(c, e, f)) == Plus(c, Plus(c, a, e), Plus(c, b, f))
  {
    hide Plus, Point, Complete, Associative;
    PlusPoint(c, e, f);
    PlusPoint(c, b, f);
    Assoc(c, a, b, Plus(c, e, f));
    Assoc(c, b, e, f);
    Commutative(c, b, e);
    Assoc(c, e, b, f);
    Assoc(c, a, e, Plus(c, b, f));
  }

  /** The combinations [m]a + [n]b add componentwise. */
  lemma {:induction false} CombAdd(c: Curve, m: nat, m': nat, a: Affine, n: nat, n': nat, b: Affine)
    requires c.Valid() && Group(c) && Point(c, a) && Point(c, b)
    ensures Plus(c, Comb(c, m, a, n, b), Comb(c, m', a, n', b)) == Comb(c, m + m', a, n + n', b)
  {
    hide Plus, Point, Complete, Associative;
    MulPoint(c, m, a);
    MulPoint(c, m', a);
    MulPoint(c, n, b);
    MulPoint(c, n', b);
    Medial(c, Mul(c, m, a), Mul(c, n, b), Mul(c, m', a), Mul(c, n', b));
    MulAdd(c, m, m', a);
    MulAdd(c, n, n', b);
  }

  lemma {:induction false} MulAdd(c: Curve, m: nat, n: nat, a: Affine)
    requires c.Valid() && Group(c) && Point(c, a)
    ensures Plus(c, Mul(c, m, a), Mul(c, n, a)) == Mul(c, m + n, a)
    decreases n
  {
    hide Plus, Point, Complete, Associative;
    MulPoint(c, m, a);
    if n == 0 {
      PlusNeutral(c, Mul(c, m, a));
    } else {
      MulPoint(c, n - 1, a);
      Assoc(c, Mul(c, m, a), Mul(c, n - 1, a), a);
      MulAdd(c, m, n - 1, a);
    }
  }

  lemma {:induction false} MulNegate(c: Curve, n: nat, a: Affine)
    requires c.Valid() && Group(c) && Point(c, a)
    ensures Plus(c, Mul(c, n, a), Mul(c, n, Negate(c, a))) == NEUTRAL
  {
    hide Plus, Point, Complete, Associative;
    var b := Negate(c, a);
    PlusNeutral(c, a);
    PlusNeutral(c, NEUTRAL);
    if n == 0 {
    } else {
      NegatePoint(c, a);
      MulPoint(c, n - 1, a);
      MulPoint(c, n - 1, b);
      Medial(c, Mul(c, n - 1, a), a, Mul(c, n - 1, b), b);
      MulNegate(c, n - 1, a);
      PlusNegate(c, a);
    }
  }

  /** [m]b + [n](-a) = r exactly when [m]b = r + [n]a: the form in which the equation is checked. */
  lemma MoveAcross(c: Curve, m: nat, b: Affine, n: nat, a: Affine, r: Affine)
    requires c.Valid() && Group(c) && Point(c, a) && Point(c, b) && Point(c, r)
    ensures Comb(c, m, b, n, Negate(c, a)) == r <==> Mul(c, m, b) == Plus(c, r, Mul(c, n, a))
  {
    hide Plus, Point, Complete, Associative;
    NegatePoint(c, a);
    MulPoint(c, m, b);
    MulPoint(c, n, a);
    MulPoint(c, n, Negate(c, a));
    MulNegate(c, n, a);
    var x, y, z := Mul(c, m, b), Mul(c, n, a), Mul(c, n, Negate(c, a));
    Commutative(c, y, z);
    Assoc(c, x, z, y);
    Assoc(c, r, y, z);
    PlusNeutral(c, x);
    PlusNeutral(c, r);
  }
}
