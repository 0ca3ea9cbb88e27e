/** Point decoding and signature verification of contracts/src/Ed25519.sol. */
module Ed25519 {
  import opened Bytes
  import opened Modular
  import opened EdwardsCurve
  import opened EdwardsGroup
  import EdwardsComplete
  import opened Ed25519Field
  import opened Ed25519Points
  import opened Ed25519Scalar
  import Sha512
  import Sha512Spec

  /** The EIP-198 precompile: the value returned, or nothing when the call fails. */
  type ModExp = (nat, nat) -> Reply
  datatype Reply = NoReply | Value(r: nat)

  datatype Root = RootReverted | NoRoot | Root(x: nat)
  datatype Decoded = Reverted | Invalid | Decoded(pt: Ext)

  /** modexpAt: a failed call, a short answer or an unreduced value all revert. */
  function ModExpP(modexp: ModExp, base: nat): Reply {
    match modexp(base, PM5D8)
    case NoReply => NoReply
    case Value(r) => if r >= P then NoReply else Value(r)
  }

  // ---- decompress --------------------------------------------------------------------------

  /** The candidate x for a y: a root of x^2 = u / v as far as one multiplication by sqrt(-1) can find it. */
  function RootFor(y: nat, modexp: ModExp): Root {
    var y2 := MulMod(y, y, P);
    var u := AddMod(y2, P - 1, P);
    var v := AddMod(MulMod(D, y2, P), 1, P);
    var v3 := MulMod(MulMod(v, v, P), v, P);
    var v7 := MulMod(MulMod(v3, v3, P), v, P);
    match ModExpP(modexp, MulMod(u, v7, P))
    case NoReply => RootReverted
    case Value(e) =>
      var x := MulMod(MulMod(u, v3, P), e, P);
      var vx2 := MulMod(v, MulMod(x, x, P), P);
      if vx2 == u then Root(x)
      else if AddMod(vx2, u, P) == 0 then Root(MulMod(x, I, P))
      else NoRoot
  }

  function DecompressInt(n: nat, modexp: ModExp): Decoded {
    var sign := n / TWO255;
    var y := n % TWO255;
    if y >= P then Invalid
    else
      match RootFor(y, modexp)
      case RootReverted => Reverted
      case NoRoot => Invalid
      case Root(root) =>
        if root == 0 && sign == 1 then Invalid
        else
          var x := if root % 2 != sign then P - root else root;
          Decoded(Ext(x, y, 1, (x * y) % P))
  }

  function Decompress(b: seq<byte>, modexp: ModExp): Decoded { DecompressInt(LittleEndian(b), modexp) }

  /** y in the low 255 bits, the parity of x in bit 255 (section 5.1.2 of RFC 8032). */
  function Encode(pt: Ext): int {
    pt.y + (pt.x % 2) * TWO255
  }

  lemma RootEquation(c: Curve, x: int, y: int)
    requires c.Valid() && c.R((c.d * (y * y) + 1) * (x * x)) == c.R(y * y - 1)
    ensures c.R(y * y - x * x) == c.R(1 + c.d * ((x * y) * (x * y)))
  {
    hide Res;
    SquareOfProduct(x, y);
    var x2, y2 := x * x, y * y;
    assert (c.d * y2 + 1) * x2 == c.d * (x2 * y2) + x2;
    ResSum(c.p, y2 - 1, c.d * (x2 * y2) + x2, 1 - x2, 1 - x2);
  }

  lemma NegatedRoot(c: Curve, v: int, u: int, x: int, i: int)
    requires c.Valid() && c.R(v * (x * x) + u) == c.R(0) && c.R(i * i) == c.R(-1)
    ensures c.R(v * ((x * i) * (x * i))) == c.R(u)
  {
    hide Res;
    var s := v * (x * x);
    SquareOfProduct(x, i);
    ResProduct(c.p, s, s, i * i, -1);
    ResSum(c.p, u, u, s + u, 0);
    assert v * ((x * x) * (i * i)) == s * (i * i);
  }

  lemma SquareConstants()
    ensures CURVE25519.Valid() && CURVE25519.R(I * I) == CURVE25519.R(-1)
  {
    Constants();
    assert (-1) % P == P - 1;
  }

  lemma RootSteps(c: Curve, i: nat, y: nat, x: nat, y2: nat, u: nat, v: nat, vx2: nat)
    requires c.Valid() && c.d >= 0 && c.R(i * i) == c.R(-1)
    requires y2 == MulMod(y, y, c.p) && u == AddMod(y2, c.p - 1, c.p) && v == AddMod(MulMod(c.d, y2, c.p), 1, c.p)
    requires vx2 == MulMod(v, MulMod(x, x, c.p), c.p)
    ensures vx2 == u ==> c.R((c.d * (y * y) + 1) * (x * x)) == c.R(y * y - 1)
    ensures AddMod(vx2, u, c.p) == 0 ==> c.R((c.d * (y * y) + 1) * ((x * i) * (x * i))) == c.R(y * y - 1)
  {
    hide Res, MulMod, AddMod;
    var m, v', u' := c.p, c.d * (y * y) + 1, y * y - 1;
    MulModRes(m, y, y, y, y);
    SubModRes(m, y2, 1, y * y, 1);
    MulModRes(m, c.d, y2, c.d, y * y);
    AddModRes(m, MulMod(c.d, y2, m), 1, c.d * (y * y), 1);
    MulModRes(m, x, x, x, x);
    MulModRes(m, v, MulMod(x, x, m), v', x * x);
    AddModRes(m, vx2, u, v' * (x * x), u');
    if AddMod(vx2, u, m) == 0 {
      NegatedRoot(c, v', u', x, i);
    }
  }

  /** Whatever the precompile answers, an accepted root satisfies the curve equation. */
  lemma RootOnCurve(y: nat, modexp: ModExp)
    requires y < P && RootFor(y, modexp).Root?
    ensures var x := RootFor(y, modexp).x;
      CURVE25519.Valid() && x < P && Point(CURVE25519, Affine(x, y))
  {
    hide Res, MulMod, AddMod, ModExpP, Point;
    var c := CURVE25519;
    SquareConstants();
    var y2 := MulMod(y, y, P);
    var u := AddMod(y2, P - 1, P);
    var v := AddMod(MulMod(D, y2, P), 1, P);
    var v3 := MulMod(MulMod(v, v, P), v, P);
    var v7 := MulMod(MulMod(v3, v3, P), v, P);
    var e := ModExpP(modexp, MulMod(u, v7, P)).r;
    var x := MulMod(MulMod(u, v3, P), e, P);
    var vx2 := MulMod(v, MulMod(x, x, P), P);
    MulModRes(P, MulMod(u, v3, P), e, MulMod(u, v3, P), e);
    RootSteps(c, I, y, x, y2, u, v, vx2);
    if vx2 == u {
      RootEquation(c, x, y);
      PointOf(c, x, y);
    } else {
      RootEquation(c, x * I, y);
      MulModRes(P, x, I, x, I);
      ReplaceX(c, x * I, MulMod(x, I, P), y);
      PointOf(c, MulMod(x, I, P), y);
    }
  }

  lemma PointOf(c: Curve, x: int, y: int)
    requires c.Valid() && 0 <= x < c.p && 0 <= y < c.p
    requires c.R(y * y - x * x) == c.R(1 + c.d * ((x * y) * (x * y)))
    ensures Point(c, Affine(x, y))
  {}

  lemma ReplaceX(c: Curve, x: int, x': int, y: int)
    requires c.Valid() && c.R(x) == c.R(x') && c.R(y * y - x * x) == c.R(1 + c.d * ((x * y) * (x * y)))
    ensures c.R(y * y - x' * x') == c.R(1 + c.d * ((x' * y) * (x' * y)))
  {
    hide Res;
    ResProduct(c.p, x, x', x, x');
    ResProduct(c.p, x, x', y, y);
    ResProduct(c.p, x * y, x' * y, x * y, x' * y);
    ResProduct(c.p, c.d, c.d, (x * y) * (x * y), (x' * y) * (x' * y));
    ResSum(c.p, y * y, y * y, x * x, x' * x');
    ResSum(c.p, 1, 1, c.d * ((x * y) * (x * y)), c.d * ((x' * y) * (x' * y)));
  }

  /** The canonical form of an affine point: z = 1, t = xy mod P. */
  function Normal(p: int, a: Affine): Ext
    requires p > 0
  {
    Ext(a.x, a.y, 1, Res(p, a.x * a.y))
  }

  lemma NormalPoint(c: Curve, a: Affine)
    requires c.Valid() && Point(c, a)
    ensures OnCurve(c, Normal(c.p, a)) && Represents(c, Normal(c.p, a), a) && Reduced(c.p, Normal(c.p, a))
  {
    var n := Normal(c.p, a);
    assert Same(c, Lift(a), n) by { ResRes(c.p, a.x * a.y); }
    NormalReduced(c.p, a);
    hide Res, Normal;
    LiftOnCurve(c, a);
    SameOnCurve(c, Lift(a), n);
    SameRepresents(c, Lift(a), n, a);
  }

  lemma NormalReduced(p: int, a: Affine)
    requires p > 2 && 0 <= a.x < p && 0 <= a.y < p
    ensures Reduced(p, Normal(p, a))
  {}

  lemma ParityOfNegation(x: int)
    requires 0 < x < P
    ensures (P - x) % 2 == 1 - x % 2
  {
  }

  lemma EncodedBits(n: nat)
    requires n < TWO256
    ensures 0 <= n / TWO255 <= 1 && n == n % TWO255 + (n / TWO255) * TWO255
  {
  }

  /** pt is a point of the curve in canonical coordinates, and b is its encoding. */
  ghost predicate Canonical(b: seq<byte>, pt: Ext) {
    && CURVE25519.Valid() && Point(CURVE25519, Affine(pt.x, pt.y)) && pt == Normal(P, Affine(pt.x, pt.y))
    && ToLittleEndian(32, Encode(pt)) == b
  }

  /**
   Decoding is strict whatever the precompile answers: an accepted string gives a point of the curve with
   canonical coordinates, and that point encodes to exactly the string it came from.
   */
  lemma DecompressStrict(b: seq<byte>, modexp: ModExp)
    requires |b| == 32 && Decompress(b, modexp).Decoded?
    ensures Canonical(b, Decompress(b, modexp).pt)
  {
    var n := LittleEndian(b);
    RoundTrip(b);
    Pow2Of256();
    hide Pow2, LittleEndian, ToLittleEndian, Point;
    var y, root := DecodedParts(n, modexp);
    RootOnCurve(y, modexp);
    NegatePoint(CURVE25519, Affine(root, y));
  }

  /** What an accepted integer decodes to: a root or its opposite, whichever has the parity of the sign bit. */
  lemma DecodedParts(n: nat, modexp: ModExp) returns (y: nat, root: nat)
    requires n < TWO256 && DecompressInt(n, modexp).Decoded?
    ensures y < P && RootFor(y, modexp) == Root(root)
    ensures var pt := DecompressInt(n, modexp).pt;
      && pt.y == y && pt == Normal(P, Affine(pt.x, y)) && Encode(pt) == n
      && (pt.x == root || (root > 0 && pt.x == P - root))
  {
    EncodedBits(n);
    var sign := n / TWO255;
    y := n % TWO255;
    RootBound(y, modexp);
    hide RootFor;
    root := RootFor(y, modexp).x;
    if root % 2 != sign && root > 0 { ParityOfNegation(root); }
  }

  lemma RootBound(y: nat, modexp: ModExp)
    requires RootFor(y, modexp).Root?
    ensures RootFor(y, modexp).x < P
  {
    hide ModExpP;
  }

  /** No two byte strings decode to the same point. */
  lemma DecompressInjective(b: seq<byte>, b': seq<byte>, modexp: ModExp, modexp': ModExp)
    requires |b| == 32 && |b'| == 32 && Decompress(b, modexp).Decoded?
    requires Decompress(b, modexp) == Decompress(b', modexp')
    ensures b == b'
  {
    hide Decompress, Encode;
    DecompressStrict(b, modexp);
    DecompressStrict(b', modexp');
  }

  lemma Pow2Of256()
    ensures Pow2(256) == TWO256
  {
    Pow2Of253();
    Pow2Three();
    Pow2Add(253, 3);
  }

  // ---- the checks of verify --------------------------------------------------------------

  function IsIdentity(q: Ext): bool { q.x == 0 && q.y == q.z }

  function Eight(c: Curve, q: Ext): Ext
    requires c.Valid()
  {
    DoubleReduced(c, DoubleReduced(c, DoubleReduced(c, q)))
  }

  method IsSmallOrder(p: Pt) returns (r: bool)
    requires Reduced(P, p.Val())
    ensures CURVE25519.Valid() && r == SmallOrder(p.Val())
  {
    hide Reduce, Double, Reduced;
    var q := new Pt(p.x, p.y, p.z, p.t);
    assert q.Val() == p.Val();
    Dbl(q);
    Dbl(q);
    Dbl(q);
    r := q.x == 0 && q.y == q.z;
  }

  /** The three doublings detect exactly the points with [8]a = identity. */
  lemma SmallOrderExact(c: Curve, q: Ext, a: Affine)
    requires c.Valid() && Group(c) && Point(c, a) && OnCurve(c, q) && Represents(c, q, a)
    ensures IsIdentity(Eight(c, q)) <==> Mul(c, 8, a) == NEUTRAL
  {
    hide Res, OnCurve, Point, Plus, Reduce, Double, Complete, Associative;
    var q2, q4 := DoubleReduced(c, q), DoubleReduced(c, DoubleReduced(c, q));
    PlusNeutral(c, a);
    assert Mul(c, 1, a) == Plus(c, Mul(c, 0, a), a);
    MulPoint(c, 2, a);
    MulPoint(c, 4, a);
    MulPoint(c, 8, a);
    MulAdd(c, 1, 1, a);
    MulAdd(c, 2, 2, a);
    MulAdd(c, 4, 4, a);
    DoubleStep(c, q);
    DoubleStep(c, q2);
    DoubleStep(c, q4);
    EightReduced(c, q);
    IdentityTest(c, Eight(c, q), Mul(c, 8, a));
  }

  lemma EightReduced(c: Curve, q: Ext)
    requires c.Valid()
    ensures Reduced(c.p, Eight(c, q))
  {
    hide Double;
  }

  lemma IdentityTest(c: Curve, q: Ext, a: Affine)
    requires c.Valid() && Represents(c, q, a) && Point(c, a) && Reduced(c.p, q)
    ensures IsIdentity(q) <==> a == NEUTRAL
  {
    hide Res;
    OneAndTwo(c);
    EqualCross(c, q.x, a.x, q.z, 0, 0, 1);
    EqualCross(c, q.y, a.y, q.z, 1, 1, 1);
    ReducedResidue(c.p, q.x);
    ReducedResidue(c.p, 0);
    ReducedResidue(c.p, q.y);
    ReducedResidue(c.p, q.z);
  }

  function Eq(c: Curve, a: Ext, b: Ext): bool
    requires c.Valid()
  {
    c.R(a.x * b.z) == c.R(b.x * a.z) && c.R(a.y * b.z) == c.R(b.y * a.z)
  }

  lemma EqExact(c: Curve, q: Ext, p: Ext, a: Affine, b: Affine)
    requires c.Valid() && Represents(c, q, a) && Represents(c, p, b) && Point(c, a) && Point(c, b)
    ensures (c.R(q.x * p.z) == c.R(p.x * q.z) && c.R(q.y * p.z) == c.R(p.y * q.z)) <==> a == b
  {
    hide Res;
    EqualCross(c, q.x, a.x, q.z, p.x, b.x, p.z);
    EqualCross(c, q.y, a.y, q.z, p.y, b.y, p.z);
  }

  // ---- verify -------------------------------------------------------------------------------

  datatype Verdict = Revert | Reject | Accept

  const BASE := Affine(BX, BY)

  /** The scalar k of section 5.1.7 of RFC 8032: the 64-byte digest read little-endian, modulo L. */
  function HashScalar(rb: seq<byte>, pk: seq<byte>, message: seq<byte>): nat {
    LittleEndian(Sha512Spec.Sha512(rb + pk + message)) % L
  }

  /**
   What verification decides, in the affine group: strict decoding of A and R, S below L, no point of small
   order, and the equation [S]B = R + [k]A without the cofactor.
   */
  ghost function Expected(pk: seq<byte>, sig: seq<byte>, message: seq<byte>, modexp: ModExp): Verdict
    requires CURVE25519.Valid()
  {
    if |sig| != 64 then Reject
    else
      var rb, s := sig[..32], LittleEndian(sig[32..]);
      if s >= L then Reject
      else
        match Decompress(pk, modexp)
        case Reverted => Revert
        case Invalid => Reject
        case Decoded(aPt) =>
          match Decompress(rb, modexp)
          case Reverted => Revert
          case Invalid => Reject
          case Decoded(rPt) =>
            var a, r := Affine(aPt.x, aPt.y), Affine(rPt.x, rPt.y);
            if Mul(CURVE25519, 8, a) == NEUTRAL || Mul(CURVE25519, 8, r) == NEUTRAL then Reject
            else if Mul(CURVE25519, s, BASE)
              == Plus(CURVE25519, r, Mul(CURVE25519, HashScalar(rb, pk, message), a)) then Accept
            else Reject
  }

  /** What the code computes, in extended coordinates. */
  function Computed(pk: seq<byte>, sig: seq<byte>, message: seq<byte>, modexp: ModExp): Verdict
    requires CURVE25519.Valid()
  {
    if |sig| != 64 then Reject
    else
      var rb, s := sig[..32], LittleEndian(sig[32..]);
      if s >= L then Reject
      else
        match Decompress(pk, modexp)
        case Reverted => Revert
        case Invalid => Reject
        case Decoded(a) =>
          match Decompress(rb, modexp)
          case Reverted => Revert
          case Invalid => Reject
          case Decoded(r) =>
            if SmallOrder(a) || SmallOrder(r) then Reject
            else if Equation(s, HashScalar(rb, pk, message), a, r) then Accept
            else Reject
  }

  function SmallOrder(q: Ext): bool
    requires CURVE25519.Valid()
  {
    IsIdentity(Eight(CURVE25519, q))
  }

  function Equation(s: nat, k: nat, a: Ext, r: Ext): bool
    requires CURVE25519.Valid()
  {
    var n := Normal(P, Negate(CURVE25519, Affine(a.x, a.y)));
    Eq(CURVE25519, Accumulated(CURVE25519, s, Normal(P, BASE), k, n, 0), r)
  }

  /** With the group law, what the code computes is what verification is to decide. */
  lemma ComputedIsExpected(pk: seq<byte>, sig: seq<byte>, message: seq<byte>, modexp: ModExp)
    requires |pk| == 32 && CURVE25519.Valid() && Group(CURVE25519)
    ensures Computed(pk, sig, message, modexp) == Expected(pk, sig, message, modexp)
  {
    hide Point, Group, Mul, Plus, Decompress, Normal, LittleEndian, SmallOrder, Equation, HashScalar;
    if |sig| == 64 && LittleEndian(sig[32..]) < L && Decompress(pk, modexp).Decoded?
      && Decompress(sig[..32], modexp).Decoded? {
      var rb, s := sig[..32], LittleEndian(sig[32..]);
      var aPt, rPt := Decompress(pk, modexp).pt, Decompress(rb, modexp).pt;
      DecompressStrict(pk, modexp);
      DecompressStrict(rb, modexp);
      var k := HashScalar(rb, pk, message);
      HashScalarBound(rb, pk, message);
      SmallOrderIs(aPt);
      SmallOrderIs(rPt);
      EquationIs(s, k, aPt, rPt);
    }
  }

  lemma HashScalarBound(rb: seq<byte>, pk: seq<byte>, message: seq<byte>)
    ensures HashScalar(rb, pk, message) < L
  {
    hide LittleEndian;
  }

  lemma SmallOrderIs(q: Ext)
    requires CURVE25519.Valid() && Group(CURVE25519)
    ensures var a := Affine(q.x, q.y);
      Point(CURVE25519, a) && q == Normal(P, a) ==> (SmallOrder(q) <==> Mul(CURVE25519, 8, a) == NEUTRAL)
  {
    hide Point, OnCurve, Represents, Reduced, Group, Mul, Eight, IsIdentity, Normal, Res;
    var a := Affine(q.x, q.y);
    if Point(CURVE25519, a) && q == Normal(P, a) {
      NormalPoint(CURVE25519, a);
      SmallOrderExact(CURVE25519, q, a);
    }
  }

  lemma EquationIs(s: nat, k: nat, a: Ext, r: Ext)
    requires CURVE25519.Valid() && Group(CURVE25519) && s < L && k < L
    ensures var c, a', r' := CURVE25519, Affine(a.x, a.y), Affine(r.x, r.y);
      Point(c, a') && Point(c, r') && r == Normal(P, r') ==>
        (Equation(s, k, a, r) <==> Mul(c, s, BASE) == Plus(c, r', Mul(c, k, a')))
  {
    hide Res, Point, Plus, Mul, Group, Accumulated, Eq, Normal;
    var c, a', r' := CURVE25519, Affine(a.x, a.y), Affine(r.x, r.y);
    BasePoint();
    OrderBelow();
    if Point(c, a') && Point(c, r') && r == Normal(P, r') { EquationExact(c, s, BASE, k, a', r'); }
  }

  lemma ReducedScalar(h: seq<byte>)
    requires |h| == 64
    ensures AddMod(LittleEndian(h[..32]), MulMod(LittleEndian(h[32..]), TWO256_MOD_L, L), L) == LittleEndian(h) % L
  {
    var lo, hi := LittleEndian(h[..32]), LittleEndian(h[32..]);
    assert h == h[..32] + h[32..];
    LittleEndianAppend(h[..32], h[32..]);
    Pow2Of256();
    SplitScalar(L, TWO256, TWO256_MOD_L, lo, hi);
  }

  lemma SplitScalar(m: nat, w: nat, w': nat, lo: nat, hi: nat)
    requires m > 0 && w' == w % m
    ensures AddMod(lo, MulMod(hi, w', m), m) == (lo + w * hi) % m
  {
    hide MulMod, AddMod;
    ResRes(m, w);
    MulModRes(m, hi, w', hi, w);
    AddModRes(m, lo, MulMod(hi, w', m), lo, hi * w);
    ReducedResidue(m, AddMod(lo, MulMod(hi, w', m), m));
  }

  lemma BasePoint()
    ensures CURVE25519.Valid() && Point(CURVE25519, BASE) && Normal(P, BASE) == Ext(BX, BY, 1, MulMod(BX, BY, P))
  {
    Constants();
  }

  /** The negated point the loop is fed. */
  lemma NegatedNormal(c: Curve, a: Affine)
    requires c.Valid() && 0 <= a.x < c.p && 0 <= a.y < c.p
    ensures var n, q := Normal(c.p, a), Negate(c, a);
      Normal(c.p, q) == Ext(if n.x == 0 then 0 else c.p - n.x, n.y, 1, if n.t == 0 then 0 else c.p - n.t)
  {
    if a.x != 0 { NegatedProduct(c.p, a.x, a.y); }
  }

  lemma NegatedProduct(p: int, x: int, y: int)
    requires p > 0
    ensures var t := (x * y) % p; ((p - x) * y) % p == if t == 0 then 0 else p - t
  {
    var q, t := (x * y) / p, (x * y) % p;
    assert x * y == q * p + t;
    assert (p - x) * y == (y - q) * p - t;
    assert (y - q) * p - t == (p - t) + (y - q - 1) * p;
    NegatedResidue(p, (p - x) * y, y - q, t);
  }

  lemma NegatedResidue(p: int, v: int, k: int, t: int)
    requires p > 0 && 0 <= t < p && v == k * p - t
    ensures v % p == if t == 0 then 0 else p - t
  {
    if t == 0 {
      Multiple(p, k, 0);
    } else {
      var j := k - 1;
      assert j * p == k * p - p;
      Multiple(p, j, p - t);
      assert v == (p - t) + j * p;
    }
  }

  /** The loop followed by the projective comparison decides [s]B = R + [k]A. */
  lemma EquationExact(c: Curve, s: nat, b: Affine, k: nat, a: Affine, r: Affine)
    requires s < TWO253 && k < TWO253
    requires c.Valid() && Group(c) && Point(c, b) && Point(c, a) && Point(c, r)
    ensures Eq(c, Accumulated(c, s, Normal(c.p, b), k, Normal(c.p, Negate(c, a)), 0), Normal(c.p, r))
      <==> Mul(c, s, b) == Plus(c, r, Mul(c, k, a))
  {
    hide Res, Point, OnCurve, Represents, Plus, Complete, Associative, Accumulated, Normal;
    var n := Negate(c, a);
    NegatePoint(c, a);
    NormalPoint(c, b);
    NormalPoint(c, n);
    NormalPoint(c, r);
    ShamirInvariant(c, s, Normal(c.p, b), k, Normal(c.p, n), 0, b, n);
    ShiftByZero(s);
    ShiftByZero(k);
    CombPoint(c, s, b, k, n);
    EqExact(c, Accumulated(c, s, Normal(c.p, b), k, Normal(c.p, n), 0), Normal(c.p, r), Comb(c, s, b, k, n), r);
    MoveAcross(c, s, b, k, a, r);
  }

  lemma ShiftByZero(n: nat)
    ensures ShiftRight(n, 0) == n
  {
  }

  method NewPoint(q: Ext) returns (p: Pt)
    requires Reduced(P, q)
    ensures fresh(p) && p.Val() == q
  {
    p := new Pt(q.x, q.y, q.z, q.t);
  }

  /** nA in `verify`: -A with every subtraction in range. */
  method Negated(A: Pt) returns (n: Pt)
    requires Reduced(P, A.Val()) && A.Val() == Normal(P, Affine(A.x, A.y))
    ensures CURVE25519.Valid() && fresh(n) && n.Val() == Normal(P, Negate(CURVE25519, Affine(A.x, A.y)))
      && Reduced(P, n.Val())
  {
    NegatedNormal(CURVE25519, Affine(A.x, A.y));
    hide Normal;
    n := new Pt(P - A.x, A.y, A.z, if A.t == 0 then 0 else P - A.t);
    if A.x == 0 { n.x := 0; }
  }

  /** The last two lines of `verify`. */
  method CheckEquation(s: nat, k: nat, A: Pt, R: Pt) returns (ok: bool)
    requires s < L && k < L
    requires Reduced(P, A.Val()) && A.Val() == Normal(P, Affine(A.x, A.y)) && Reduced(P, R.Val())
    ensures CURVE25519.Valid() && ok == Equation(s, k, A.Val(), R.Val())
  {
    hide Res, Accumulated, Eq, Normal;
    BasePoint();
    NormalReduced(P, BASE);
    hide Reduced;
    var nA := Negated(A);
    var B := new Pt(BX, BY, 1, MulMod(BX, BY, P));
    var Q := Shamir(s, B, k, nA);
    ok := Eq(CURVE25519, Coordinates(Q), Coordinates(R));
  }

  function Coordinates(q: Pt): (v: Ext)
    reads q
    ensures v == q.Val()
  {
    Ext(q.x, q.y, q.z, q.t)
  }

  lemma OrderBelow()
    ensures L < TWO253
  {
    Constants();
  }

  /** k from the two halves of the digest. */
  method ScalarOf(h: seq<byte>) returns (k: nat)
    requires |h| == 64
    ensures k == LittleEndian(h) % L && k < L
  {
    var h0 := Le(h[..32]);
    var h1 := Le(h[32..]);
    ReducedScalar(h);
    k := AddMod(h0, MulMod(h1, TWO256_MOD_L, L), L);
  }

  /** Ed25519.verify: for every precompile and every input it computes `Computed`, and so decides `Expected`. */
  method Verify(pk: seq<byte>, sig: seq<byte>, message: seq<byte>, modexp: ModExp,
                slack: seq<byte>)
    returns (v: Verdict)
    requires |pk| == 32 && |slack| >= 31
    ensures CURVE25519.Valid() && v == Computed(pk, sig, message, modexp)
    ensures Group(CURVE25519) ==> v == Expected(pk, sig, message, modexp)
  {
    SquareConstants();
    hide Point, OnCurve, Represents, Reduced, Group, Decompress, Normal, LittleEndian, Equation, SmallOrder,
      Expected, Sha512Spec.Sha512;
    if Group(CURVE25519) { ComputedIsExpected(pk, sig, message, modexp); }
    if |sig| != 64 { return Reject; }
    var rb := sig[..32];
    var s := Le(sig[32..]);
    if s >= L { return Reject; }
    var decodedA := Decompress(pk, modexp);
    if decodedA.Reverted? { return Revert; }
    if decodedA.Invalid? { return Reject; }
    var decodedR := Decompress(rb, modexp);
    if decodedR.Reverted? { return Revert; }
    if decodedR.Invalid? { return Reject; }
    DecompressStrict(pk, modexp);
    DecompressStrict(rb, modexp);
    NormalPoint(CURVE25519, Affine(decodedA.pt.x, decodedA.pt.y));
    NormalPoint(CURVE25519, Affine(decodedR.pt.x, decodedR.pt.y));
    var A := NewPoint(decodedA.pt);
    var R := NewPoint(decodedR.pt);
    var smallA := IsSmallOrder(A);
    var smallR := IsSmallOrder(R);
    if smallA || smallR { return Reject; }
    var h := Sha512.Hash(rb + pk + message, slack, slack);
    var k := ScalarOf(h);
    var ok := CheckEquation(s, k, A, R);
    v := if ok then Accept else Reject;
  }

  /**
   The group hypothesis of `Verify` from what is known of the field: nonzero residues are invertible, d is not a square,
   and the addition law is associative.
   */
  lemma GroupFromField()
    requires CURVE25519.Valid() && EdwardsComplete.Field(CURVE25519) && EdwardsComplete.NonSquare(CURVE25519, D)
      && Associative(CURVE25519)
    ensures Group(CURVE25519)
  {
    SquareConstants();
    hide EdwardsComplete.Field, EdwardsComplete.NonSquare, Associative, Complete;
    EdwardsComplete.CompleteLaw(CURVE25519, I);
  }
}
