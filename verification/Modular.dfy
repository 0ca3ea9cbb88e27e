/** Residues modulo a symbolic p. Stating congruence as equality of residues makes it transitive for free. */
module Modular {
  function Res(p: int, a: int): int
    requires p > 0
  {
    a % p
  }

  lemma Multiple(p: int, k: int, r: int)
    requires p > 0
    ensures Res(p, r + k * p) == Res(p, r)
  {
    var a := r + k * p;
    var q1, q2 := a / p, r / p;
    assert a == q1 * p + a % p && r == q2 * p + r % p;
    var j := q1 - q2 - k;
    assert j * p == r % p - a % p by {
      assert j * p == q1 * p - q2 * p - k * p;
    }
    assert j >= 1 ==> j * p >= p;
    assert j <= -1 ==> j * p <= -p;
  }

  lemma Quotient(p: int, a: int, b: int) returns (k: int)
    requires p > 0 && Res(p, a) == Res(p, b)
    ensures a == b + k * p
  {
    k := a / p - b / p;
    assert a == (a / p) * p + a % p && b == (b / p) * p + b % p;
    assert k * p == (a / p) * p - (b / p) * p;
  }

  lemma ResSum(p: int, a: int, b: int, c: int, d: int)
    requires p > 0 && Res(p, a) == Res(p, b) && Res(p, c) == Res(p, d)
    ensures Res(p, a + c) == Res(p, b + d)
    ensures Res(p, a - c) == Res(p, b - d)
  {
    hide *;
    var k := Quotient(p, a, b);
    var j := Quotient(p, c, d);
    assert (k + j) * p == k * p + j * p && (k - j) * p == k * p - j * p;
    Multiple(p, k + j, b + d);
    Multiple(p, k - j, b - d);
  }

  lemma ResProduct(p: int, a: int, b: int, c: int, d: int)
    requires p > 0 && Res(p, a) == Res(p, b) && Res(p, c) == Res(p, d)
    ensures Res(p, a * c) == Res(p, b * d)
  {
    hide *;
    var k := Quotient(p, a, b);
    var j := Quotient(p, c, d);
    var m := k * d + b * j + k * j * p;
    assert a * c == b * d + m * p by {
      assert a * c == (b + k * p) * (d + j * p);
      assert (b + k * p) * (d + j * p) == b * d + b * (j * p) + (k * p) * d + (k * p) * (j * p);
      assert b * (j * p) == (b * j) * p && (k * p) * d == (k * d) * p && (k * p) * (j * p) == (k * j * p) * p;
      assert m * p == (k * d) * p + (b * j) * p + (k * j * p) * p;
    }
    Multiple(p, m, b * d);
  }

  lemma ResRes(p: int, a: int)
    requires p > 0
    ensures Res(p, a % p) == Res(p, a)
  {
    Multiple(p, a / p, a % p);
  }

  /** Replacing the terms of a linear combination by congruent ones. */
  lemma ResCombination(p: int, a: int, k1: int, u1: int, v1: int, k2: int, u2: int, v2: int,
                       k3: int, u3: int, v3: int, k4: int, u4: int, v4: int)
    requires p > 0 && Res(p, u1) == Res(p, v1) && Res(p, u2) == Res(p, v2)
    requires Res(p, u3) == Res(p, v3) && Res(p, u4) == Res(p, v4)
    ensures Res(p, a + k1 * u1 + k2 * u2 + k3 * u3 + k4 * u4) == Res(p, a + k1 * v1 + k2 * v2 + k3 * v3 + k4 * v4)
  {
    hide *;
    ResProduct(p, k1, k1, u1, v1);
    ResProduct(p, k2, k2, u2, v2);
    ResProduct(p, k3, k3, u3, v3);
    ResProduct(p, k4, k4, u4, v4);
    ResSum(p, a, a, k1 * u1, k1 * v1);
    ResSum(p, a + k1 * u1, a + k1 * v1, k2 * u2, k2 * v2);
    ResSum(p, a + k1 * u1 + k2 * u2, a + k1 * v1 + k2 * v2, k3 * u3, k3 * v3);
    ResSum(p, a + k1 * u1 + k2 * u2 + k3 * u3, a + k1 * v1 + k2 * v2 + k3 * v3, k4 * u4, k4 * v4);
  }
}
