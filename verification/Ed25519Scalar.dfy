/** Byte decoding and the double-scalar loop of contracts/src/Ed25519.sol. */
module Ed25519Scalar {
  import opened Bytes
  import opened Modular
  import opened EdwardsCurve
  import opened EdwardsGroup
  import opened Ed25519Field
  import opened Ed25519Points

  /** `le`: r |= b[i] << 8i over the 32 bytes. */
  method Le(b: seq<byte>) returns (r: nat)
    requires |b| == 32
    ensures r == LittleEndian(b)
  {
    hide LittleEndian, Pow2, BitOr;
    r := 0;
    assert LittleEndian(b[..0]) == 0 by { LeNone(b); }
    for i := 0 to 32
      invariant r == LittleEndian(b[..i])
    {
      LeStep(b, i, r);
      r := BitOr(r, Pow2(8 * i) * b[i]);
    }
    assert b[..32] == b;
  }

  lemma LeNone(b: seq<byte>)
    ensures LittleEndian(b[..0]) == 0
  {}

  /** One more byte above the others: its bits are free. */
  lemma LeStep(b: seq<byte>, i: nat, r: nat)
    requires i < |b| && r == LittleEndian(b[..i])
    ensures BitOr(r, Pow2(8 * i) * b[i]) == LittleEndian(b[..i + 1])
  {
    hide BitOr, Pow2;
    RoundTrip(b[..i]);
    BitOrDisjoint(r, b[i], 8 * i);
    LittleEndianAppend(b[..i], [b[i]]);
    assert b[..i + 1] == b[..i] + [b[i]];
    assert LittleEndian([b[i]]) == b[i] by { LeOne(b[i]); }
  }

  lemma LeOne(x: byte)
    ensures LittleEndian([x]) == x
  {}

  // ---- Shamir's trick -----------------------------------------------------------------

  /** Bit i of n: (n >> i) & 1. */
  function Bit(n: nat, i: nat): nat { ShiftRight(n, i) % 2 }

  function AddReduced(c: Curve, q: Ext, p: Ext): Ext
    requires c.Valid()
  {
    Reduce(c.p, Scale(4, Sum(c, q, p)))
  }

  function DoubleReduced(c: Curve, q: Ext): Ext
    requires c.Valid()
  {
    Reduce(c.p, Double(q))
  }

  /** The accumulator once bits 252 down to i have been consumed. */
  function Accumulated(c: Curve, s: nat, b: Ext, k: nat, a: Ext, i: nat): Ext
    requires c.Valid() && i <= 253
    decreases 253 - i
  {
    if i == 253 then Ext(0, 1, 1, 0)
    else
      var q := DoubleReduced(c, Accumulated(c, s, b, k, a, i + 1));
      if Bit(s, i) == 1 && Bit(k, i) == 1 then AddReduced(c, q, AddReduced(c, b, a))
      else if Bit(s, i) == 1 then AddReduced(c, q, b)
      else if Bit(k, i) == 1 then AddReduced(c, q, a)
      else q
  }

  method Shamir(s: nat, B: Pt, k: nat, A: Pt) returns (q: Pt)
    requires Reduced(P, B.Val()) && Reduced(P, A.Val())
    ensures CURVE25519.Valid() && fresh(q) && Reduced(P, q.Val())
    ensures q.Val() == Accumulated(CURVE25519, s, B.Val(), k, A.Val(), 0)
  {
    hide Reduce, Scale, Sum, Double, Reduced, Bit;
    assert Reduced(P, Ext(0, 1, 1, 0)) by { NeutralReduced(); }
    var BA := new Pt(B.x, B.y, B.z, B.t);
    assert BA.Val() == B.Val();
    Add(BA, A);
    q := new Pt(0, 1, 1, 0);
    var i := 253;
    while i > 0
      invariant 0 <= i <= 253
      invariant fresh(q) && fresh(BA) && q != BA
      invariant BA.Val() == AddReduced(CURVE25519, B.Val(), A.Val()) && Reduced(P, BA.Val()) && Reduced(P, q.Val())
      invariant q.Val() == Accumulated(CURVE25519, s, B.Val(), k, A.Val(), i)
    {
      i := i - 1;
      Dbl(q);
      var bs := Bit(s, i);
      var bk := Bit(k, i);
      if bs == 1 && bk == 1 {
        Add(q, BA);
      } else if bs == 1 {
        Add(q, B);
      } else if bk == 1 {
        Add(q, A);
      }
    }
  }

  lemma NeutralReduced()
    ensures Reduced(P, Ext(0, 1, 1, 0))
  {
  }

  lemma BitStep(n: nat, i: nat)
    ensures ShiftRight(n, i) == 2 * ShiftRight(n, i + 1) + Bit(n, i) && 0 <= Bit(n, i) <= 1
  {
    assert Pow2(i + 1) == Pow2(i) * 2;
    DivDiv(n, Pow2(i), 2);
  }

  lemma NeutralRepresents(c: Curve)
    requires c.Valid()
    ensures OnCurve(c, Ext(0, 1, 1, 0)) && Represents(c, Ext(0, 1, 1, 0), NEUTRAL) && Point(c, NEUTRAL)
  {
    OneAndTwo(c);
  }

  /** The accumulator represents [s >> i]B + [k >> i]A. */
  lemma {:induction false} ShamirInvariant(c: Curve, s: nat, b: Ext, k: nat, a: Ext, i: nat, b': Affine, a': Affine)
    requires s < TWO253 && k < TWO253 && i <= 253
    requires c.Valid() && Group(c) && Point(c, b') && Point(c, a')
    requires OnCurve(c, b) && Represents(c, b, b') && OnCurve(c, a) && Represents(c, a, a')
    ensures OnCurve(c, Accumulated(c, s, b, k, a, i))
    ensures Represents(c, Accumulated(c, s, b, k, a, i), Comb(c, ShiftRight(s, i), b', ShiftRight(k, i), a'))
    decreases 253 - i
  {
    hide OnCurve, Represents, Point, Plus, Comb, Reduce, Scale, Sum, Double, Bit, ShiftRight, Complete, Associative;
    if i == 253 {
      TopBits(s);
      TopBits(k);
      NeutralRepresents(c);
      CombZero(c, b', a');
    } else {
      var m, n := ShiftRight(s, i + 1), ShiftRight(k, i + 1);
      var q := Accumulated(c, s, b, k, a, i + 1);
      ShamirInvariant(c, s, b, k, a, i + 1, b', a');
      BitStep(s, i);
      BitStep(k, i);
      CombPoint(c, m, b', n, a');
      DoubleStep(c, q);
      CombAdd(c, m, m, b', n, n, a');
      CombPoint(c, 2 * m, b', 2 * n, a');
      var d := DoubleReduced(c, q);
      if Bit(s, i) == 1 && Bit(k, i) == 1 {
        AddStep(c, b, a);
        CombOnes(c, b', a');
        CombPoint(c, 1, b', 1, a');
        AddStep(c, d, AddReduced(c, b, a));
        CombAdd(c, 2 * m, 1, b', 2 * n, 1, a');
      } else if Bit(s, i) == 1 {
        CombOnes(c, b', a');
        AddStep(c, d, b);
        CombAdd(c, 2 * m, 1, b', 2 * n, 0, a');
      } else if Bit(k, i) == 1 {
        CombOnes(c, b', a');
        AddStep(c, d, a);
        CombAdd(c, 2 * m, 0, b', 2 * n, 1, a');
      }
    }
  }

  lemma TopBits(n: nat)
    requires n < TWO253
    ensures ShiftRight(n, 253) == 0
  {
    Pow2Of253();
    hide Pow2;
  }

  lemma Pow2Of253()
    ensures Pow2(253) == TWO253
  {
    var w := 0x1_0000_0000_0000_0000;
    Pow2SixtyFour();
    Pow2Eight();
    hide Pow2;
    Pow2Add(64, 64);
    Pow2Add(128, 64);
    Pow2Add(192, 64);
    assert Pow2(192) == w * w * w;
    assert Pow2(256) == w * w * w * w;
    Pow2Add(253, 3);
    Pow2Three();
  }

  lemma Pow2Three()
    ensures Pow2(3) == 8
  {
    assert Pow2(1) == 2;
  }

  lemma CombZero(c: Curve, b: Affine, a: Affine)
    requires c.Valid() && Point(c, b)
    ensures Comb(c, 0, b, 0, a) == NEUTRAL
  {
    hide Plus, Point;
    PlusNeutral(c, b);
    PlusNeutral(c, NEUTRAL);
  }

  lemma CombPoint(c: Curve, m: nat, b: Affine, n: nat, a: Affine)
    requires c.Valid() && Complete(c) && Point(c, b) && Point(c, a)
    ensures Point(c, Comb(c, m, b, n, a))
  {
    MulPoint(c, m, b);
    MulPoint(c, n, a);
    PlusPoint(c, Mul(c, m, b), Mul(c, n, a));
  }

  lemma CombOnes(c: Curve, b: Affine, a: Affine)
    requires c.Valid() && Point(c, b) && Point(c, a)
    ensures Comb(c, 1, b, 1, a) == Plus(c, b, a) && Comb(c, 1, b, 0, a) == b && Comb(c, 0, b, 1, a) == a
  {
    hide Plus, Point;
    PlusNeutral(c, a);
    PlusNeutral(c, b);
    assert Mul(c, 1, b) == Plus(c, Mul(c, 0, b), b) && Mul(c, 1, a) == Plus(c, Mul(c, 0, a), a);
  }
}
