/** Square roots modulo p = 8e + 5, and when a y-coordinate has an x, as point decoding needs them. */
module EdwardsRoots {
  import opened Modular
  import opened EdwardsCurve
  import opened EdwardsGroup
  import opened EdwardsComplete

  function Power(b: int, e: nat): int {
    if e == 0 then 1 else b * Power(b, e - 1)
  }

  lemma {:induction false} PowerAdd(b: int, m: nat, n: nat)
    ensures Power(b, m + n) == Power(b, m) * Power(b, n)
  {
    if m == 0 {
      assert Power(b, m) == 1;
    } else {
      PowerAdd(b, m - 1, n);
      assert Power(b, m + n) == b * Power(b, m - 1 + n);
    }
  }

  lemma {:induction false} PowerSquare(r: int, e: nat)
    ensures Power(r * r, e) == Power(r, 2 * e)
  {
    if e == 0 {
      assert Power(r, 0) == 1;
    } else {
      PowerSquare(r, e - 1);
      assert Power(r, 2 * e) == r * (r * Power(r, 2 * e - 2));
    }
  }

  lemma {:induction false} PowerRes(p: int, a: int, b: int, e: nat)
    requires p > 0 && Res(p, a) == Res(p, b)
    ensures Res(p, Power(a, e)) == Res(p, Power(b, e))
  {
    hide Res;
    if e == 0 {
      assert Power(a, e) == Power(b, e);
    } else {
      PowerRes(p, a, b, e - 1);
      ResProduct(p, a, b, Power(a, e - 1), Power(b, e - 1));
    }
  }

  /** Fermat's little theorem, as a hypothesis about p. */
  ghost predicate Fermat(c: Curve)
    requires c.Valid()
  {
    forall r :: Unit(c, r) ==> c.R(Power(r, c.p - 1)) == c.R(1)
  }

  lemma FieldAt(c: Curve, a: int)
    requires c.Valid() && Field(c)
    ensures Unit(c, a) || c.R(a) == c.R(0)
  {}

  lemma FermatAt(c: Curve, r: int)
    requires c.Valid() && Fermat(c) && Unit(c, r)
    ensures c.R(Power(r, c.p - 1)) == c.R(1)
  {}

  /** Two numbers with equal squares are equal or opposite. */
  lemma EqualSquares(c: Curve, a: int, b: int)
    requires c.Valid() && Field(c) && c.R(a * a) == c.R(b * b)
    ensures c.R(a) == c.R(b) || c.R(a) == c.R(-b)
  {
    hide Res, Field, Unit;
    FieldAt(c, a - b);
    if c.R(a - b) == c.R(0) {
      ResSum(c.p, a - b, 0, b, b);
    } else {
      assert (a - b) * (a + b) == a * a - b * b;
      ResSum(c.p, a * a, b * b, b * b, b * b);
      assert (a - b) * 0 == 0;
      Cancel(c, a - b, a + b, 0);
      ResSum(c.p, a + b, 0, b, b);
    }
  }

  /** The denominator d y^2 + 1 never vanishes when -1 is a square and d is not. */
  lemma DenominatorUnit(c: Curve, i: int, y: int)
    requires c.Valid() && Field(c) && SquareRoot(c, i, -1) && NonSquare(c, c.d)
    ensures Unit(c, c.d * (y * y) + 1)
  {
    hide Res, Field, NonSquare;
    FieldAt(c, c.d * (y * y) + 1);
    if c.R(c.d * (y * y) + 1) == c.R(0) {
      ResSum(c.p, c.d * (y * y) + 1, 0, c.d * (y * y), c.d * (y * y));
      assert c.R(1 * 1) == c.R((-c.d) * (y * y)) by { assert (-c.d) * (y * y) == 0 - c.d * (y * y); }
      OneAndTwo(c);
      UnitSame(c, 1, (-c.d) * (y * y));
      UnitProduct(c, -c.d, y * y);
      UnitProduct(c, y, y);
      var s := RootOfD(c, i, y, 1);
      NonSquareAt(c, c.d, s);
      assert false;
    }
  }

  lemma NonSquareAt(c: Curve, d: int, s: int)
    requires c.Valid() && NonSquare(c, d)
    ensures !SquareRoot(c, s, d)
  {}

  /** The exponents of the candidate: v (u v^3 k)^2 = u (u v^7 k^2), and u v^7 = (x v^4)^2 when u = v x^2. */
  lemma CandidateTerms(u: int, v: int, x: int, k: int)
    ensures var v3 := v * v * v; var v7 := (v3 * v3) * v; var v4 := (v * v) * (v * v);
      && v * (((u * v3) * k) * ((u * v3) * k)) == u * ((u * v7) * (k * k))
      && (v * (x * x)) * v7 == (x * v4) * (x * v4)
  {
    var v3 := v * v * v;
    var v7, v4 := (v3 * v3) * v, (v * v) * (v * v);
    SquareOfProduct(u * v3, k);
    SquareOfProduct(u, v3);
    Reassociate(u, v, v3 * v3, k * k);
    SquareOfProduct(x, v4);
    SevenAndOne(v);
    assert (v * (x * x)) * v7 == (x * x) * (v * v7);
  }

  lemma Reassociate(u: int, v: int, w: int, k: int)
    ensures v * (((u * u) * w) * k) == u * ((u * (w * v)) * k)
  {
    assert v * (((u * u) * w) * k) == ((u * u) * (w * v)) * k;
    assert u * ((u * (w * v)) * k) == ((u * u) * (w * v)) * k;
  }

  lemma SevenAndOne(v: int)
    ensures v * (((v * v * v) * (v * v * v)) * v) == ((v * v) * (v * v)) * ((v * v) * (v * v))
  {
    var s := v * v;
    assert (v * v * v) * (v * v * v) == s * s * s by { assert (s * v) * (s * v) == (s * s) * (v * v); }
    assert v * ((s * s * s) * v) == (s * s * s) * s;
  }

  /** w k^2 = +-1 for k = w^e, w = r^2 a unit: Euler's criterion for p = 8e + 5. */
  lemma EulerSign(c: Curve, e: nat, r: int, w: int, k: int)
    requires c.Valid() && Field(c) && Fermat(c) && c.p == 8 * e + 5 && Unit(c, r)
    requires c.R(w) == c.R(r * r) && c.R(k) == c.R(Power(w, e))
    ensures c.R(w * (k * k)) == c.R(1) || c.R(w * (k * k)) == c.R(-1)
  {
    hide Res, Field, Fermat, Unit, Power;
    var h := Power(r, 4 * e + 2);
    PowerRes(c.p, w, r * r, e);
    PowerSquare(r, e);
    var q := Power(r, 2 * e);
    ResProduct(c.p, k, q, k, q);
    PowerAdd(r, 2 * e, 2 * e);
    PowerTwo(r);
    PowerAdd(r, 2, 4 * e);
    ResProduct(c.p, w, r * r, k * k, q * q);
    assert c.R(w * (k * k)) == c.R(h);
    PowerAdd(r, 4 * e + 2, 4 * e + 2);
    FermatAt(c, r);
    assert c.R(h * h) == c.R(1 * 1);
    EqualSquares(c, h, 1);
  }

  lemma PowerTwo(r: int)
    ensures Power(r, 2) == r * r
  {
    assert Power(r, 1) == r * Power(r, 0);
  }

  /** If v x^2 = u has a solution, then u v^3 (u v^7)^e solves it up to sign. */
  lemma CandidateRoot(c: Curve, e: nat, u: int, v: int, x: int, w: int, k: int, z: int)
    requires c.Valid() && Field(c) && Fermat(c) && c.p == 8 * e + 5
    requires Unit(c, v) && c.R(v * (x * x)) == c.R(u)
    requires var v3 := v * v * v; c.R(w) == c.R(u * ((v3 * v3) * v)) && c.R(z) == c.R((u * v3) * k)
    requires c.R(k) == c.R(Power(w, e))
    ensures c.R(v * (z * z)) == c.R(u) || c.R(v * (z * z)) == c.R(-u)
  {
    hide Res, Field, Fermat, Unit, Power;
    var v3 := v * v * v;
    var v7, v4 := (v3 * v3) * v, (v * v) * (v * v);
    var r := x * v4;
    CandidateTerms(u, v, x, k);
    ResProduct(c.p, u, v * (x * x), v7, v7);
    ResProduct(c.p, z, (u * v3) * k, z, (u * v3) * k);
    ResProduct(c.p, v, v, z * z, ((u * v3) * k) * ((u * v3) * k));
    FieldAt(c, r);
    if Unit(c, r) {
      EulerSign(c, e, r, w, k);
      ResProduct(c.p, w, u * v7, k * k, k * k);
      ResProduct(c.p, u, u, (u * v7) * (k * k), w * (k * k));
      if c.R(w * (k * k)) == c.R(1) {
        ResProduct(c.p, u, u, w * (k * k), 1);
      } else {
        ResProduct(c.p, u, u, w * (k * k), -1);
        assert u * -1 == -u;
      }
    } else {
      UnitProduct(c, v, v);
      UnitProduct(c, v * v, v * v);
      assert v4 * 0 == 0 && r == v4 * x;
      Cancel(c, v4, x, 0);
      ResProduct(c.p, x, 0, x, 0);
      ResProduct(c.p, v, v, x * x, 0 * 0);
      assert v * (0 * 0) == 0;
      ResProduct(c.p, u, 0, (u * v7) * (k * k), (u * v7) * (k * k));
      assert 0 * ((u * v7) * (k * k)) == 0;
    }
  }

  /** The curve equation solved for x: (d y^2 + 1) x^2 = y^2 - 1. */
  lemma PointEquation(c: Curve, a: Affine)
    requires c.Valid() && Point(c, a)
    ensures c.R((c.d * (a.y * a.y) + 1) * (a.x * a.x)) == c.R(a.y * a.y - 1)
  {
    SolveForX(c.p, c.d, a.x, a.y, a.x * a.x, a.y * a.y, (a.x * a.y) * (a.x * a.y));
  }

  lemma SolveForX(p: int, d: int, x: int, y: int, x2: int, y2: int, xy2: int)
    requires p > 0 && x2 == x * x && y2 == y * y && xy2 == (x * y) * (x * y)
    requires Res(p, y2 - x2) == Res(p, 1 + d * xy2)
    ensures Res(p, (d * y2 + 1) * x2) == Res(p, y2 - 1)
  {
    hide Res;
    SquareOfProduct(x, y);
    assert (d * y2 + 1) * x2 == d * xy2 + x2 by { assert (d * y2) * x2 == d * (x2 * y2); }
    ResSum(p, y2 - x2, 1 + d * xy2, x2 - 1, x2 - 1);
  }

  lemma SameRoots(c: Curve, v: int, u: int, x: int, x': int)
    requires c.Valid() && Field(c) && Unit(c, v) && c.R(v * (x * x)) == u && c.R(v * (x' * x')) == u
    ensures c.R(x) == c.R(x') || c.R(x) == c.R(-x')
  {
    hide *;
    ValidPositive(c);
    Cancel(c, v, x * x, x' * x');
    EqualSquares(c, x, x');
  }

  /** A y-coordinate belongs to at most two points, opposite to each other. */
  lemma SameY(c: Curve, i: int, a: Affine, b: Affine)
    requires c.Valid() && Field(c) && SquareRoot(c, i, -1) && NonSquare(c, c.d)
    requires Point(c, a) && Point(c, b) && a.y == b.y
    ensures a.x == b.x || (a.x > 0 && a.x == c.p - b.x)
  {
    hide *;
    ValidPositive(c);
    PointReduced(c, a);
    PointReduced(c, b);
    PointEquation(c, a);
    PointEquation(c, b);
    DenominatorUnit(c, i, a.y);
    SameRoots(c, c.d * (a.y * a.y) + 1, c.R(a.y * a.y - 1), a.x, b.x);
    ResAlias(c, a.x);
    ResAlias(c, b.x);
    ResAlias(c, -b.x);
    OppositeReduced(c.p, a.x, b.x);
  }

  lemma ResAlias(c: Curve, a: int)
    requires c.p > 0
    ensures c.R(a) == Res(c.p, a)
  {}

  lemma OppositeReduced(p: int, a: int, b: int)
    requires 0 <= a < p && 0 <= b < p && (Res(p, a) == Res(p, b) || Res(p, a) == Res(p, -b))
    ensures a == b || (a > 0 && a == p - b)
  {
    ReducedResidue(p, a);
    ReducedResidue(p, b);
    if b != 0 {
      Multiple(p, 1, -b);
      ReducedResidue(p, p - b);
    }
  }

  lemma PointReduced(c: Curve, a: Affine)
    requires c.Valid() && Point(c, a)
    ensures 0 <= a.x < c.p && 0 <= a.y < c.p
  {}
}
