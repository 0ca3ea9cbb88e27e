/**
 What the verifier of contracts/src/Ed25519.sol accepts, stated without it: sections 5.1.3 and 5.1.7 of RFC 8032 in
 the affine group, given that p is prime (as its consequences for residues), d is not a square and the precompile
 computes powers.
 */
module Ed25519Rfc {
  import opened Bytes
  import opened Modular
  import opened EdwardsCurve
  import opened EdwardsGroup
  import opened EdwardsComplete
  import opened EdwardsRoots
  import opened Ed25519Field
  import opened Ed25519Points
  import opened Ed25519

  /** The precompile answers, and answers with the power. */
  ghost predicate Exact(modexp: ModExp) {
    forall b: nat :: modexp(b, PM5D8) == Value(Power(b, PM5D8) % P)
  }

  /** What primality of p gives, and that d is not a square. */
  ghost predicate PrimeField(c: Curve)
    requires c.Valid()
  {
    Field(c) && Fermat(c) && NonSquare(c, c.d)
  }

  /** Section 5.1.2: y in the low 255 bits, the parity of x in bit 255. */
  function EncodePoint(a: Affine): seq<byte>
    requires 0 <= a.y && a.x >= 0
  {
    ToLittleEndian(32, Encode(Normal(P, a)))
  }

  /** The candidate by its residues, the equation of the curve given by plain variables. */
  lemma CandidateFrom(c: Curve, e: nat, f: int, g: int, x: int, u: int, v: int, w: int, k: int, z: int)
    requires c.Valid() && Field(c) && Fermat(c) && c.p == 8 * e + 5
    requires Unit(c, f) && c.R(f * (x * x)) == c.R(g) && c.R(u) == c.R(g) && c.R(v) == c.R(f)
    requires var t := v * v * v; c.R(w) == c.R(u * ((t * t) * v)) && c.R(z) == c.R((u * t) * k)
    requires c.R(k) == c.R(Power(w, e))
    ensures c.R(v * (z * z)) == c.R(u) || c.R(v * (z * z)) == c.R(-u)
  {
    hide *;
    ValidPositive(c);
    UnitSame(c, f, v);
    SameFactor(c, v, f, x * x);
    CandidateRoot(c, e, u, v, x, w, k, z);
  }

  /** The curve equation f x^2 = g for the y of a point, f a unit, as the code computes f and g. */
  lemma EquationParts(c: Curve, i: int, a: Affine, y2: nat, u: nat, v: nat) returns (f: int, g: int)
    requires c.Valid() && c.d >= 0 && PrimeField(c) && SquareRoot(c, i, -1) && Point(c, a) && a.y >= 0
    requires y2 == MulMod(a.y, a.y, c.p) && u == AddMod(y2, c.p - 1, c.p) && v == AddMod(MulMod(c.d, y2, c.p), 1, c.p)
    ensures Unit(c, f) && c.R(f * (a.x * a.x)) == c.R(g) && c.R(u) == c.R(g) && c.R(v) == c.R(f) && u < c.p
  {
    hide Res, Point, Unit, SquareRoot, Field, Fermat, NonSquare, MulMod, AddMod;
    f, g := c.d * (a.y * a.y) + 1, a.y * a.y - 1;
    CandidateResidues(c, a.y, y2, u, v);
    DenominatorUnit(c, i, a.y);
    PointEquation(c, a);
  }

  lemma SameFactor(c: Curve, a: int, b: int, f: int)
    requires c.p > 0 && c.R(a) == c.R(b)
    ensures c.R(a * f) == c.R(b * f)
  {
    ResProduct(c.p, a, b, f, f);
  }

  /** The multiplications of `decompress` find a root whenever there is one. */
  lemma CandidateSteps(c: Curve, e: nat, i: int, a: Affine, y2: nat, u: nat, v: nat, v3: nat, v7: nat, k: nat, z: nat,
                       vx2: nat)
    requires c.Valid() && c.d >= 0 && PrimeField(c) && SquareRoot(c, i, -1) && c.p == 8 * e + 5
    requires Point(c, a) && a.y >= 0
    requires y2 == MulMod(a.y, a.y, c.p) && u == AddMod(y2, c.p - 1, c.p) && v == AddMod(MulMod(c.d, y2, c.p), 1, c.p)
    requires v3 == MulMod(MulMod(v, v, c.p), v, c.p) && v7 == MulMod(MulMod(v3, v3, c.p), v, c.p)
    requires c.R(k) == c.R(Power(MulMod(u, v7, c.p), e))
    requires z == MulMod(MulMod(u, v3, c.p), k, c.p) && vx2 == MulMod(v, MulMod(z, z, c.p), c.p)
    ensures vx2 == u || AddMod(vx2, u, c.p) == 0
  {
    hide Point, PrimeField, SquareRoot, Power, Res, MulMod, AddMod;
    var m, w := c.p, MulMod(u, v7, c.p);
    var f, g := EquationParts(c, i, a, y2, u, v);
    PowerResidues(m, u, v, v3, v7, k, z);
    PrimeFieldParts(c);
    hide Field, Fermat, NonSquare, Unit;
    CandidateFrom(c, e, f, g, a.x, u, v, w, k, z);
    MulModRes(m, z, z, z, z);
    MulModRes(m, v, MulMod(z, z, m), v, z * z);
    RootTest(m, vx2, u, v * (z * z));
  }

  lemma PrimeFieldParts(c: Curve)
    requires c.Valid() && PrimeField(c)
    ensures Field(c) && Fermat(c) && NonSquare(c, c.d)
  {}

  lemma CandidateResidues(c: Curve, y: nat, y2: nat, u: nat, v: nat)
    requires c.Valid() && c.d >= 0
    requires y2 == MulMod(y, y, c.p) && u == AddMod(y2, c.p - 1, c.p) && v == AddMod(MulMod(c.d, y2, c.p), 1, c.p)
    ensures Res(c.p, u) == Res(c.p, y * y - 1) && Res(c.p, v) == Res(c.p, c.d * (y * y) + 1) && u < c.p && c.p > 2
  {
    hide Res, MulMod, AddMod;
    var m := c.p;
    MulModRes(m, y, y, y, y);
    SubModRes(m, y2, 1, y * y, 1);
    MulModRes(m, c.d, y2, c.d, y * y);
    AddModRes(m, MulMod(c.d, y2, m), 1, c.d * (y * y), 1);
  }

  lemma PowerResidues(m: nat, u: nat, v: nat, v3: nat, v7: nat, k: nat, z: nat)
    requires m > 0 && v3 == MulMod(MulMod(v, v, m), v, m) && v7 == MulMod(MulMod(v3, v3, m), v, m)
    requires z == MulMod(MulMod(u, v3, m), k, m)
    ensures var t: int := (v as int) * v * v;
      Res(m, MulMod(u, v7, m)) == Res(m, u as int * ((t * t) * v)) && Res(m, z) == Res(m, (u as int * t) * k)
  {
    hide Res, MulMod;
    var v', u': int := v, u;
    var t: int := v' * v' * v';
    MulModRes(m, v, v, v', v');
    MulModRes(m, MulMod(v, v, m), v, v' * v', v');
    MulModRes(m, v3, v3, t, t);
    MulModRes(m, MulMod(v3, v3, m), v, t * t, v');
    MulModRes(m, u, v7, u', (t * t) * v');
    MulModRes(m, u, v3, u', t);
    MulModRes(m, MulMod(u, v3, m), k, u' * t, k);
  }

  lemma RootTest(m: nat, a: nat, u: nat, w: int)
    requires 0 < m && a < m && u < m && Res(m, a) == Res(m, w)
      && (Res(m, w) == Res(m, u) || Res(m, w) == Res(m, -(u as int)))
    ensures a == u || AddMod(a, u, m) == 0
  {
    ReducedResidue(m, a);
    ReducedResidue(m, u);
    if Res(m, w) == Res(m, -(u as int)) {
      hide Res;
      ResSum(m, a, -(u as int), u, u);
      ReducedResidue(m, 0);
      SumResidue(m, a, u);
    }
  }

  lemma SumResidue(m: nat, a: nat, u: nat)
    requires m > 0
    ensures Res(m, a + u) == AddMod(a, u, m)
  {}

  lemma ExactAt(modexp: ModExp, b: nat)
    requires Exact(modexp)
    ensures modexp(b, PM5D8) == Value(Power(b, PM5D8) % P)
  {}

  lemma PrimeExponent()
    ensures CURVE25519.Valid() && CURVE25519.p == 8 * PM5D8 + 5 && SquareRoot(CURVE25519, I, -1) && CURVE25519.d == D
  {
    SquareConstants();
    Constants();
  }

  /** What `modexpAt` returns when the precompile is exact. */
  lemma ExactPower(c: Curve, modexp: ModExp, b: nat)
    requires c == CURVE25519 && Exact(modexp)
    ensures ModExpP(modexp, b).Value? && c.p > 0 && c.R(ModExpP(modexp, b).r) == c.R(Power(b, PM5D8))
  {
    ExactAt(modexp, b);
    Reduces(P, Power(b, PM5D8));
  }

  lemma Reduces(p: int, a: int)
    requires p > 0
    ensures 0 <= a % p < p && Res(p, a % p) == Res(p, a)
  {
    ResRes(p, a);
  }

  /** Decoding finds an x for every y that has one. */
  lemma RootFound(a: Affine, modexp: ModExp)
    requires CURVE25519.Valid() && PrimeField(CURVE25519) && Exact(modexp)
    ensures Point(CURVE25519, a) ==> a.y >= 0 && RootFor(a.y, modexp).Root?
  {
    hide Point, PrimeField, SquareRoot, Exact, Res, MulMod, AddMod, Power, ModExpP;
    var c := CURVE25519;
    PrimeExponent();
    if Point(c, a) {
      PointReduced(c, a);
      var y2 := MulMod(a.y, a.y, P);
      var u := AddMod(y2, P - 1, P);
      var v := AddMod(MulMod(D, y2, P), 1, P);
      var v3 := MulMod(MulMod(v, v, P), v, P);
      var v7 := MulMod(MulMod(v3, v3, P), v, P);
      ExactPower(c, modexp, MulMod(u, v7, P));
      var k := ModExpP(modexp, MulMod(u, v7, P)).r;
      var z := MulMod(MulMod(u, v3, P), k, P);
      CandidateSteps(c, PM5D8, I, a, y2, u, v, v3, v7, k, z, MulMod(v, MulMod(z, z, P), P));
    }
  }

  /** The x that decoding settles on, from a root and the sign bit. */
  lemma ChosenX(p: int, x: int, root: int, sign: int)
    requires p % 2 == 1 && 0 <= x < p && 0 <= root < p && sign == x % 2 && (root == x || (root > 0 && root == p - x))
    ensures !(root == 0 && sign == 1) && (if root % 2 != sign then p - root else root) == x
  {}

  lemma EncodedParts(n: int, y: int, bit: int)
    requires 0 <= y < TWO255 && 0 <= bit <= 1 && n == y + bit * TWO255
    ensures 0 <= n < TWO256 && n / TWO255 == bit && n % TWO255 == y
  {}

  /** Every point of the curve decodes from its encoding: the decoder rejects nothing it should accept. */
  lemma DecompressComplete(a: Affine, modexp: ModExp)
    requires CURVE25519.Valid() && PrimeField(CURVE25519) && Exact(modexp)
    ensures Point(CURVE25519, a) ==>
      a.x >= 0 && a.y >= 0 && Decompress(EncodePoint(a), modexp) == Decoded(Normal(P, a))
  {
    hide Point, PrimeField, SquareRoot, Exact, RootFor, Field, Fermat, NonSquare;
    var c := CURVE25519;
    if Point(c, a) {
      PrimeExponent();
      Constants();
      PointReduced(c, a);
      RootFound(a, modexp);
      RootOnCurve(a.y, modexp);
      var root := RootFor(a.y, modexp).x;
      PrimeFieldParts(c);
      SameY(c, I, Affine(root, a.y), a);
      var sign := a.x % 2;
      var n := a.y + sign * TWO255;
      ChosenX(P, a.x, root, sign);
      EncodedParts(n, a.y, sign);
      Pow2Of256();
      assert n == Encode(Normal(P, a));
      hide Pow2, LittleEndian, ToLittleEndian;
      ToLittleEndianReads(32, n);
      DecodeFrom(n, a, modexp, root);
    }
  }

  lemma DecodeFrom(n: nat, a: Affine, modexp: ModExp, root: nat)
    requires a.x >= 0 && 0 <= a.y < P && n / TWO255 == a.x % 2 && n % TWO255 == a.y
    requires RootFor(a.y, modexp) == Root(root) && root < P && !(root == 0 && a.x % 2 == 1)
    requires (if root % 2 != a.x % 2 then P - root else root) == a.x
    ensures DecompressInt(n, modexp) == Decoded(Normal(P, a))
  {
    hide RootFor;
  }

  /** Decoding accepts exactly the encodings of points. */
  lemma DecompressExact(b: seq<byte>, modexp: ModExp)
    requires |b| == 32 && CURVE25519.Valid() && PrimeField(CURVE25519) && Exact(modexp)
    ensures !Decompress(b, modexp).Reverted?
    ensures Decompress(b, modexp).Decoded? <==> exists a :: Encodes(b, a)
    ensures forall a :: Encodes(b, a) ==> Decompress(b, modexp) == Decoded(Normal(P, a))
  {
    hide Point, PrimeField, Exact, Decompress, EncodePoint;
    NeverReverts(b, modexp);
    forall a | Encodes(b, a) ensures Decompress(b, modexp) == Decoded(Normal(P, a)) {
      DecompressComplete(a, modexp);
    }
    if Decompress(b, modexp).Decoded? {
      var pt := Decompress(b, modexp).pt;
      var a := Affine(pt.x, pt.y);
      DecompressStrict(b, modexp);
      PointReduced(CURVE25519, a);
      EncodePointIs(a);
      assert Encodes(b, a);
    }
  }

  lemma EncodePointIs(a: Affine)
    requires a.x >= 0 && a.y >= 0
    ensures EncodePoint(a) == ToLittleEndian(32, Encode(Normal(P, a)))
  {}

  lemma NeverReverts(b: seq<byte>, modexp: ModExp)
    requires Exact(modexp)
    ensures !Decompress(b, modexp).Reverted?
  {
    hide Exact, MulMod, AddMod, Power, LittleEndian, ModExpP;
    forall y: nat ensures !RootFor(y, modexp).RootReverted? {
      var y2 := MulMod(y, y, P);
      var u := AddMod(y2, P - 1, P);
      var v := AddMod(MulMod(D, y2, P), 1, P);
      var v3 := MulMod(MulMod(v, v, P), v, P);
      ExactPower(CURVE25519, modexp, MulMod(u, MulMod(MulMod(v3, v3, P), v, P), P));
    }
    hide RootFor;
  }

  /** b is the encoding of the curve point a. */
  ghost predicate Encodes(b: seq<byte>, a: Affine) {
    CURVE25519.Valid() && Point(CURVE25519, a) && a.x >= 0 && a.y >= 0 && EncodePoint(a) == b
  }

  // ---- section 5.1.7 --------------------------------------------------------------------------------------------

  /** [S]B = R + [k]A for these points, neither of small order, and k the hash of both strings and the message. */
  ghost predicate Equates(s: nat, k: nat, a: Affine, r: Affine)
    requires CURVE25519.Valid()
  {
    var c := CURVE25519;
    && Mul(c, 8, a) != NEUTRAL && Mul(c, 8, r) != NEUTRAL
    && Mul(c, s, BASE) == Plus(c, r, Mul(c, k, a))
  }

  ghost predicate SignedBy(pk: seq<byte>, rb: seq<byte>, s: nat, k: nat, a: Affine, r: Affine)
    requires CURVE25519.Valid()
  {
    Encodes(pk, a) && Encodes(rb, r) && Equates(s, k, a, r)
  }

  /**
   What the RFC accepts, with the two choices it leaves to implementations made as here: no cofactor, and no point of
   small order.
   */
  ghost predicate RfcAccepts(pk: seq<byte>, sig: seq<byte>, message: seq<byte>)
    requires CURVE25519.Valid()
  {
    && |sig| == 64 && LittleEndian(sig[32..]) < L
    && exists a, r :: SignedBy(pk, sig[..32], LittleEndian(sig[32..]), HashScalar(sig[..32], pk, message), a, r)
  }

  /** The verifier accepts exactly the signatures the RFC accepts, and never reverts. */
  lemma ComputedIsRfc(pk: seq<byte>, sig: seq<byte>, message: seq<byte>, modexp: ModExp)
    requires |pk| == 32 && CURVE25519.Valid() && PrimeField(CURVE25519) && Associative(CURVE25519) && Exact(modexp)
    ensures Computed(pk, sig, message, modexp) == if RfcAccepts(pk, sig, message) then Accept else Reject
  {
    GroupFromField();
    ComputedIsExpected(pk, sig, message, modexp);
    hide Group, Associative, PrimeField, Exact, Computed, Decompress, HashScalar, LittleEndian;
    if |sig| == 64 && LittleEndian(sig[32..]) < L {
      var rb, s := sig[..32], LittleEndian(sig[32..]);
      var k := HashScalar(rb, pk, message);
      DecompressExact(pk, modexp);
      DecompressExact(rb, modexp);
      hide Encodes, Mul, Plus, Point;
      if Decompress(pk, modexp).Decoded? && Decompress(rb, modexp).Decoded? {
        var a: Affine :| Encodes(pk, a);
        var r: Affine :| Encodes(rb, r);
        assert Decompress(pk, modexp) == Decoded(Normal(P, a)) && Decompress(rb, modexp) == Decoded(Normal(P, r));
        assert Equates(s, k, a, r) <==> Expected(pk, sig, message, modexp) == Accept;
        forall a', r' | SignedBy(pk, rb, s, k, a', r') ensures a' == a && r' == r {
          assert Encodes(pk, a') && Encodes(rb, r');
        }
        assert RfcAccepts(pk, sig, message) <==> SignedBy(pk, rb, s, k, a, r);
      } else {
        forall a, r ensures !SignedBy(pk, rb, s, k, a, r) {}
      }
    }
  }
}
