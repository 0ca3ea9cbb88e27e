/** In-place point arithmetic of contracts/src/Ed25519.sol, refined to the curve's own operations. */
module Ed25519Points {
  import opened Modular
  import opened EdwardsCurve
  import opened EdwardsGroup
  import opened Ed25519Field

  class Pt {
    var x: nat
    var y: nat
    var z: nat
    var t: nat

    constructor (x: nat, y: nat, z: nat, t: nat)
      ensures Val() == Ext(x, y, z, t)
    {
      this.x, this.y, this.z, this.t := x, y, z, t;
    }

    ghost function Val(): Ext
      reads this
    {
      Ext(x, y, z, t)
    }
  }

  ghost predicate Reduced(m: int, q: Ext) {
    0 <= q.x < m && 0 <= q.y < m && 0 <= q.z < m && 0 <= q.t < m
  }

  function Reduce(m: int, q: Ext): Ext
    requires m > 0
  {
    Ext(Res(m, q.x), Res(m, q.y), Res(m, q.z), Res(m, q.t))
  }

  /** The doubling polynomials: e = 2xy, g = y^2 - x^2, f = g - 2z^2, h = -(x^2 + y^2). */
  function Double(q: Ext): Ext {
    var e, g := 2 * (q.x * q.y), q.y * q.y - q.x * q.x;
    var f, h := g - 2 * (q.z * q.z), -(q.x * q.x + q.y * q.y);
    Ext(e * f, g * h, f * g, e * h)
  }

  lemma MulModRes(m: nat, a: nat, b: nat, x: int, y: int)
    requires m > 0 && Res(m, a) == Res(m, x) && Res(m, b) == Res(m, y)
    ensures MulMod(a, b, m) < m && Res(m, MulMod(a, b, m)) == Res(m, x * y)
  {
    ResRes(m, a * b);
    hide Res;
    ResProduct(m, a, x, b, y);
  }

  lemma AddModRes(m: nat, a: nat, b: nat, x: int, y: int)
    requires m > 0 && Res(m, a) == Res(m, x) && Res(m, b) == Res(m, y)
    ensures AddMod(a, b, m) < m && Res(m, AddMod(a, b, m)) == Res(m, x + y)
  {
    ResRes(m, a + b);
    hide Res;
    ResSum(m, a, x, b, y);
  }

  lemma SubModRes(m: nat, a: nat, b: nat, x: int, y: int)
    requires m > 0 && b <= m && Res(m, a) == Res(m, x) && Res(m, b) == Res(m, y)
    ensures AddMod(a, m - b, m) < m && Res(m, AddMod(a, m - b, m)) == Res(m, x - y)
  {
    hide Res;
    Multiple(m, 1, -(b as int));
    ResSum(m, 0, 0, b, y);
    AddModRes(m, a, m - b, x, -y);
  }

  /** The last four steps of `dbl` and `add`. */
  lemma Finish(m: nat, e: nat, f: nat, g: nat, h: nat, e': int, f': int, g': int, h': int, r: Ext)
    requires m > 0 && Res(m, e) == Res(m, e') && Res(m, f) == Res(m, f') && Res(m, g) == Res(m, g')
      && Res(m, h) == Res(m, h')
    requires r == Ext(MulMod(e, f, m), MulMod(g, h, m), MulMod(f, g, m), MulMod(e, h, m))
    ensures r == Reduce(m, Ext(e' * f', g' * h', f' * g', e' * h')) && Reduced(m, r)
  {
    hide Res, MulMod;
    MulModRes(m, e, f, e', f');
    MulModRes(m, g, h, g', h');
    MulModRes(m, f, g, f', g');
    MulModRes(m, e, h, e', h');
    ReducedResidue(m, r.x);
    ReducedResidue(m, r.y);
    ReducedResidue(m, r.z);
    ReducedResidue(m, r.t);
  }

  lemma DoubleSteps(m: nat, q: Ext, a: nat, b: nat, c: nat, d: nat, xy: nat, e: nat, g: nat, f: nat, h: nat)
    requires m > 0 && Reduced(m, q)
    requires a == MulMod(q.x, q.x, m) && b == MulMod(q.y, q.y, m) && c == MulMod(2, MulMod(q.z, q.z, m), m)
    requires a <= m && d == (if a == 0 then 0 else m - a) && xy == AddMod(q.x, q.y, m)
    requires e == AddMod(AddMod(MulMod(xy, xy, m), m - a, m), m - b, m)
    requires g == AddMod(d, b, m) && f == AddMod(g, m - c, m) && h == AddMod(d, m - b, m)
    requires b <= m && c <= m
    ensures Ext(MulMod(e, f, m), MulMod(g, h, m), MulMod(f, g, m), MulMod(e, h, m)) == Reduce(m, Double(q))
    ensures Reduced(m, Reduce(m, Double(q)))
  {
    hide Res, MulMod, AddMod;
    var x, y, z := q.x, q.y, q.z;
    MulModRes(m, x, x, x, x);
    MulModRes(m, y, y, y, y);
    MulModRes(m, z, z, z, z);
    MulModRes(m, 2, MulMod(z, z, m), 2, z * z);
    Multiple(m, 1, -(a as int));
    ResSum(m, 0, 0, a, x * x);
    AddModRes(m, x, y, x, y);
    MulModRes(m, xy, xy, x + y, x + y);
    SubModRes(m, MulMod(xy, xy, m), a, (x + y) * (x + y), x * x);
    SubModRes(m, AddMod(MulMod(xy, xy, m), m - a, m), b, (x + y) * (x + y) - x * x, y * y);
    assert (x + y) * (x + y) - x * x - y * y == 2 * (x * y);
    AddModRes(m, d, b, -(x * x), y * y);
    SubModRes(m, g, c, y * y - x * x, 2 * (z * z));
    SubModRes(m, d, b, -(x * x), y * y);
    Finish(m, e, f, g, h, 2 * (x * y), y * y - x * x - 2 * (z * z), y * y - x * x, -(x * x + y * y),
           Ext(MulMod(e, f, m), MulMod(g, h, m), MulMod(f, g, m), MulMod(e, h, m)));
  }

  /** q = 2q, dbl-2008-hwcd with a = -1, in place; every checked subtraction stays in range. */
  method Dbl(q: Pt)
    requires Reduced(P, q.Val())
    modifies q
    ensures q.Val() == Reduce(P, Double(old(q.Val()))) && Reduced(P, q.Val())
  {
    var a: nat := MulMod(q.x, q.x, P);
    var b: nat := MulMod(q.y, q.y, P);
    var c: nat := MulMod(2, MulMod(q.z, q.z, P), P);
    var d: nat := if a == 0 then 0 else P - a;
    var xy: nat := AddMod(q.x, q.y, P);
    var e: nat := AddMod(AddMod(MulMod(xy, xy, P), P - a, P), P - b, P);
    var g: nat := AddMod(d, b, P);
    var f: nat := AddMod(g, P - c, P);
    var h: nat := AddMod(d, P - b, P);
    DoubleSteps(P, q.Val(), a, b, c, d, xy, e, g, f, h);
    q.x := MulMod(e, f, P);
    q.y := MulMod(g, h, P);
    q.t := MulMod(e, h, P);
    q.z := MulMod(f, g, P);
  }

  lemma AddSteps(c: Curve, d2: nat, q: Ext, p: Ext, a: nat, b: nat, cc: nat, d: nat, e: nat, f: nat, g: nat, h: nat)
    requires c.Valid() && Reduced(c.p, q) && Reduced(c.p, p) && c.R(d2) == c.R(2 * c.d)
    requires var m := c.p;
      && a == MulMod(AddMod(q.y, m - q.x, m), AddMod(p.y, m - p.x, m), m)
      && b == MulMod(AddMod(q.y, q.x, m), AddMod(p.y, p.x, m), m)
      && cc == MulMod(MulMod(q.t, d2, m), p.t, m)
      && d == MulMod(2, MulMod(q.z, p.z, m), m)
      && a <= m && cc <= m
      && e == AddMod(b, m - a, m) && f == AddMod(d, m - cc, m) && g == AddMod(d, cc, m) && h == AddMod(b, a, m)
    ensures var m := c.p;
      && Ext(MulMod(e, f, m), MulMod(g, h, m), MulMod(f, g, m), MulMod(e, h, m)) == Reduce(m, Scale(4, Sum(c, q, p)))
      && Reduced(m, Reduce(m, Scale(4, Sum(c, q, p))))
  {
    hide Res, MulMod, AddMod;
    var m := c.p;
    SubModRes(m, q.y, q.x, q.y, q.x);
    SubModRes(m, p.y, p.x, p.y, p.x);
    MulModRes(m, AddMod(q.y, m - q.x, m), AddMod(p.y, m - p.x, m), q.y - q.x, p.y - p.x);
    AddModRes(m, q.y, q.x, q.y, q.x);
    AddModRes(m, p.y, p.x, p.y, p.x);
    MulModRes(m, AddMod(q.y, q.x, m), AddMod(p.y, p.x, m), q.y + q.x, p.y + p.x);
    MulModRes(m, q.t, d2, q.t, 2 * c.d);
    MulModRes(m, MulMod(q.t, d2, m), p.t, q.t * (2 * c.d), p.t);
    MulModRes(m, q.z, p.z, q.z, p.z);
    MulModRes(m, 2, MulMod(q.z, p.z, m), 2, q.z * p.z);
    var a', b' := (q.y - q.x) * (p.y - p.x), (q.y + q.x) * (p.y + p.x);
    var c', d' := (q.t * (2 * c.d)) * p.t, 2 * (q.z * p.z);
    SubModRes(m, b, a, b', a');
    SubModRes(m, d, cc, d', c');
    AddModRes(m, d, cc, d', c');
    AddModRes(m, b, a, b', a');
    Factors(c, q, p);
    Finish(m, e, f, g, h, b' - a', d' - c', d' + c', b' + a',
      Ext(MulMod(e, f, m), MulMod(g, h, m), MulMod(f, g, m), MulMod(e, h, m)));
    Quadruple(E(q, p), F(c, q, p));
    Quadruple(G(c, q, p), H(q, p));
    Quadruple(F(c, q, p), G(c, q, p));
    Quadruple(E(q, p), H(q, p));
  }

  lemma Factors(c: Curve, q: Ext, p: Ext)
    ensures (q.y + q.x) * (p.y + p.x) - (q.y - q.x) * (p.y - p.x) == 2 * E(q, p)
    ensures (q.y + q.x) * (p.y + p.x) + (q.y - q.x) * (p.y - p.x) == 2 * H(q, p)
    ensures 2 * (q.z * p.z) - (q.t * (2 * c.d)) * p.t == 2 * F(c, q, p)
    ensures 2 * (q.z * p.z) + (q.t * (2 * c.d)) * p.t == 2 * G(c, q, p)
  {
    assert (q.t * (2 * c.d)) * p.t == 2 * (c.d * (q.t * p.t));
  }

  lemma Quadruple(a: int, b: int)
    ensures (2 * a) * (2 * b) == 4 * (a * b)
  {
  }

  lemma DoubledConstant()
    ensures CURVE25519.Valid() && CURVE25519.R(D2) == CURVE25519.R(2 * CURVE25519.d)
  {
    Constants();
  }

  /** q = q + p, add-2008-hwcd-3 with a = -1, in place (q and p may be one object). */
  method Add(q: Pt, p: Pt)
    requires Reduced(P, q.Val()) && Reduced(P, p.Val())
    modifies q
    ensures q.Val() == Reduce(P, Scale(4, Sum(CURVE25519, old(q.Val()), old(p.Val())))) && Reduced(P, q.Val())
  {
    var a: nat := MulMod(AddMod(q.y, P - q.x, P), AddMod(p.y, P - p.x, P), P);
    var b: nat := MulMod(AddMod(q.y, q.x, P), AddMod(p.y, p.x, P), P);
    var c: nat := MulMod(MulMod(q.t, D2, P), p.t, P);
    var d: nat := MulMod(2, MulMod(q.z, p.z, P), P);
    var e: nat := AddMod(b, P - a, P);
    var f: nat := AddMod(d, P - c, P);
    var g: nat := AddMod(d, c, P);
    var h: nat := AddMod(b, a, P);
    DoubledConstant();
    AddSteps(CURVE25519, D2, q.Val(), p.Val(), a, b, c, d, e, f, g, h);
    q.x := MulMod(e, f, P);
    q.y := MulMod(g, h, P);
    q.t := MulMod(e, h, P);
    q.z := MulMod(f, g, P);
  }

  // ---- what the two operations mean ------------------------------------------------

  /** Off by the scale -1 only: on the curve the doubling polynomials are the unified sum of q with itself. */
  lemma DoubleIsSum(c: Curve, q: Ext)
    requires c.Valid() && OnCurve(c, q)
    ensures Same(c, Scale(-1, Double(q)), Sum(c, q, q))
    ensures Same(c, Scale(-4, Double(q)), Scale(4, Sum(c, q, q)))
  {
    hide Res;
    var e, g := 2 * (q.x * q.y), q.y * q.y - q.x * q.x;
    var f, h := g - 2 * (q.z * q.z), -(q.x * q.x + q.y * q.y);
    var f', g' := F(c, q, q), G(c, q, q);
    assert E(q, q) == e && H(q, q) == -h;
    ResSum(c.p, 2 * (q.z * q.z), 2 * (q.z * q.z), g, g');
    assert 2 * (q.z * q.z) - g == -f && 2 * (q.z * q.z) - g' == f';
    ResProduct(c.p, e, e, -f, f');
    ResProduct(c.p, g, g', -h, -h);
    ResProduct(c.p, -f, f', g, g');
    Negations(e, f, g, h);
    ResProduct(c.p, 4, 4, -(e * f), e * f');
    ResProduct(c.p, 4, 4, -(g * h), g' * -h);
    ResProduct(c.p, 4, 4, -(f * g), f' * g');
    ResProduct(c.p, 4, 4, -(e * h), e * -h);
    Negations(4, e * f, g * h, 0);
    Negations(4, f * g, e * h, 0);
  }

  lemma Negations(e: int, f: int, g: int, h: int)
    ensures e * -f == -(e * f) && -1 * (e * f) == -(e * f)
    ensures g * -h == -(g * h) && -1 * (g * h) == -(g * h)
    ensures -f * g == -(f * g) && -1 * (f * g) == -(f * g)
    ensures e * -h == -(e * h) && -1 * (e * h) == -(e * h)
  {
  }

  lemma ReduceSame(c: Curve, q: Ext)
    requires c.Valid()
    ensures Same(c, q, Reduce(c.p, q))
  {
    ResRes(c.p, q.x);
    ResRes(c.p, q.y);
    ResRes(c.p, q.z);
    ResRes(c.p, q.t);
  }

  lemma SameSymmetric(c: Curve, q: Ext, p: Ext)
    requires c.Valid() && Same(c, q, p)
    ensures Same(c, p, q)
  {
  }

  /** `dbl` keeps the point on the curve and doubles what it represents. */
  lemma DoubleStep(c: Curve, q: Ext)
    requires c.Valid() && OnCurve(c, q)
    ensures OnCurve(c, Reduce(c.p, Double(q)))
    ensures Complete(c) ==>
      forall a :: Point(c, a) && Represents(c, q, a) ==> Represents(c, Reduce(c.p, Double(q)), Plus(c, a, a))
  {
    hide Res, Double, Sum, OnCurve, Represents, Point, Plus, Complete;
    var s, n := Sum(c, q, q), Scale(-1, Double(q));
    SumOnCurve(c, q, q);
    DoubleIsSum(c, q);
    SameSymmetric(c, n, s);
    SameOnCurve(c, s, n);
    ScaleOnCurve(c, -1, n);
    assert Scale(-1, n) == Double(q);
    ReduceSame(c, Double(q));
    SameOnCurve(c, Double(q), Reduce(c.p, Double(q)));
    if Complete(c) {
      forall a | Point(c, a) && Represents(c, q, a)
        ensures Represents(c, Reduce(c.p, Double(q)), Plus(c, a, a))
      {
        SumRepresents(c, q, q, a, a);
        SameRepresents(c, s, n, Plus(c, a, a));
        MinusOneAndFour(c);
        ScaleRepresents(c, -1, n, Plus(c, a, a));
        SameRepresents(c, Double(q), Reduce(c.p, Double(q)), Plus(c, a, a));
      }
    }
  }

  lemma MinusOneAndFour(c: Curve)
    requires c.Valid()
    ensures Unit(c, -1) && Unit(c, 4)
  {
    OneAndTwo(c);
    assert Inverts(c, -1, -1);
    UnitProduct(c, 2, 2);
  }

  /** `add` keeps the point on the curve and adds what the two points represent. */
  lemma AddStep(c: Curve, q: Ext, p: Ext)
    requires c.Valid() && OnCurve(c, q) && OnCurve(c, p)
    ensures var r := Reduce(c.p, Scale(4, Sum(c, q, p)));
      && OnCurve(c, r)
      && (Complete(c) ==> forall a, b :: Point(c, a) && Point(c, b) && Represents(c, q, a) && Represents(c, p, b) ==>
            Represents(c, r, Plus(c, a, b)))
  {
    hide Res, Sum, OnCurve, Represents, Point, Plus, Complete;
    var s := Scale(4, Sum(c, q, p));
    SumOnCurve(c, q, p);
    ScaleOnCurve(c, 4, Sum(c, q, p));
    ReduceSame(c, s);
    SameOnCurve(c, s, Reduce(c.p, s));
    if Complete(c) {
      forall a, b | Point(c, a) && Point(c, b) && Represents(c, q, a) && Represents(c, p, b)
        ensures Represents(c, Reduce(c.p, s), Plus(c, a, b))
      {
        SumRepresents(c, q, p, a, b);
        MinusOneAndFour(c);
        ScaleRepresents(c, 4, Sum(c, q, p), Plus(c, a, b));
        SameRepresents(c, s, Reduce(c.p, s), Plus(c, a, b));
      }
    }
  }

  /** The affine law, cross-multiplied: no hypothesis on denominators. */
  lemma AddAffineLaw(c: Curve, q: Ext, p: Ext)
    requires c.Valid() && OnCurve(c, q) && OnCurve(c, p)
    ensures var r := Reduce(c.p, Scale(4, Sum(c, q, p)));
      var z, k := q.z * p.z, c.d * ((q.x * p.x) * (q.y * p.y));
      && c.R(r.x * (z * z + k)) == c.R(r.z * (z * (q.x * p.y + p.x * q.y)))
      && c.R(r.y * (z * z - k)) == c.R(r.z * (z * (q.y * p.y + q.x * p.x)))
  {
    hide Res;
    var m := c.p;
    var z, k, u := q.z * p.z, c.d * ((q.x * p.x) * (q.y * p.y)), c.d * (q.t * p.t);
    var e, f, g, h := E(q, p), F(c, q, p), G(c, q, p), H(q, p);
    var r := Reduce(m, Scale(4, Sum(c, q, p)));
    ReduceSame(c, Scale(4, Sum(c, q, p)));
    ResProduct(m, q.x * q.y, q.z * q.t, p.x * p.y, p.z * p.t);
    Interchange(q.x, q.y, p.x, p.y);
    Interchange(q.z, q.t, p.z, p.t);
    ResProduct(m, c.d, c.d, (q.x * p.x) * (q.y * p.y), z * (q.t * p.t));
    ScaledProduct(c.d, z, q.t * p.t);
    ResSum(m, z * z, z * z, k, z * u);
    Distribute(z, z, u, z, u);
    ResProduct(m, r.x, 4 * (e * f), z * z + k, z * g);
    ResProduct(m, r.z, 4 * (f * g), z * e, z * e);
    ResProduct(m, r.y, 4 * (g * h), z * z - k, z * f);
    ResProduct(m, r.z, 4 * (f * g), z * h, z * h);
    CrossProducts(e, f, g, z);
    CrossProducts(h, g, f, z);
    assert g * h == h * g && g * f == f * g;
  }

  lemma CrossProducts(e: int, f: int, g: int, z: int)
    ensures (4 * (e * f)) * (z * g) == (4 * (f * g)) * (z * e)
  {
  }
}
