/** Byte strings and their integer readings. */
module Bytes {
  type byte = x: int | 0 <= x < 256

  function Pow2(n: nat): (r: nat)
    ensures r > 0
  {
    if n == 0 then 1 else 2 * Pow2(n - 1)
  }

  function LittleEndian(b: seq<byte>): nat {
    if b == [] then 0 else b[0] + 256 * LittleEndian(b[1..])
  }

  function ToLittleEndian(n: nat, v: nat): (b: seq<byte>)
    ensures |b| == n
  {
    if n == 0 then [] else [v % 256] + ToLittleEndian(n - 1, v / 256)
  }

  /** Decoding determines the bytes: re-encoding gives them back. */
  lemma {:induction false} RoundTrip(b: seq<byte>)
    ensures ToLittleEndian(|b|, LittleEndian(b)) == b
    ensures LittleEndian(b) < Pow2(8 * |b|)
  {
    if b == [] {
    } else {
      RoundTrip(b[1..]);
      Pow2Add(8, 8 * |b[1..]|);
      assert Pow2(8) == 256 by { Pow2Eight(); }
      assert (b[0] + 256 * LittleEndian(b[1..])) / 256 == LittleEndian(b[1..]);
      assert b == [b[0]] + b[1..];
    }
  }

  /** And encoding a number that fits loses nothing. */
  lemma {:induction false} ToLittleEndianReads(n: nat, v: nat)
    requires v < Pow2(8 * n)
    ensures LittleEndian(ToLittleEndian(n, v)) == v
  {
    if n == 0 {
      assert v == 0;
    } else {
      Pow2Add(8, 8 * (n - 1));
      Pow2Eight();
      assert v / 256 < Pow2(8 * (n - 1));
      ToLittleEndianReads(n - 1, v / 256);
      assert ToLittleEndian(n, v)[1..] == ToLittleEndian(n - 1, v / 256);
    }
  }

  lemma Pow2Eight()
    ensures Pow2(8) == 256
  {
    assert Pow2(4) == 16;
  }

  lemma {:induction false} Pow2Add(m: nat, n: nat)
    ensures Pow2(m + n) == Pow2(m) * Pow2(n)
  {
    if m == 0 {
    } else {
      Pow2Add(m - 1, n);
    }
  }

  lemma Pow2SixtyFour()
    ensures Pow2(64) == 0x1_0000_0000_0000_0000
  {
    Pow2Eight();
    Pow2Add(8, 8);
    assert Pow2(16) == 0x1_0000;
    Pow2Add(16, 16);
    assert Pow2(32) == 0x1_0000_0000;
    Pow2Add(32, 32);
  }

  lemma {:induction false} LittleEndianAppend(a: seq<byte>, b: seq<byte>)
    ensures LittleEndian(a + b) == LittleEndian(a) + Pow2(8 * |a|) * LittleEndian(b)
  {
    if a == [] {
      assert a + b == b;
    } else {
      var t := a[1..];
      LittleEndianAppend(t, b);
      assert (a + b)[1..] == t + b;
      Pow2Eight();
      Pow2Add(8, 8 * |t|);
      hide Pow2;
      Reassociated(Pow2(8 * |t|), LittleEndian(b));
    }
  }

  lemma Reassociated(p: nat, v: nat)
    ensures 256 * (p * v) == (256 * p) * v
  {}

  /** Bitwise or of two non-negative integers. */
  function BitOr(a: nat, b: nat): nat {
    if a == 0 && b == 0 then 0 else 2 * BitOr(a / 2, b / 2) + (if a % 2 == 1 || b % 2 == 1 then 1 else 0)
  }

  lemma {:induction false} BitOrDisjoint(a: nat, b: nat, n: nat)
    requires a < Pow2(n)
    ensures BitOr(a, Pow2(n) * b) == a + Pow2(n) * b
    decreases n, a, b
  {
    if n == 0 {
      BitOrZero(b);
    } else {
      var p := Pow2(n - 1);
      assert Pow2(n) * b == 2 * (p * b);
      BitOrDisjoint(a / 2, b, n - 1);
      assert a / 2 + p * b == 0 ==> a == 0 || a == 1;
    }
  }

  lemma {:induction false} BitOrZero(b: nat)
    ensures BitOr(0, b) == b
  {
    if b == 0 {
    } else {
      BitOrZero(b / 2);
    }
  }

  function BigEndian(b: seq<byte>): nat {
    if b == [] then 0 else 256 * BigEndian(b[..|b| - 1]) + b[|b| - 1]
  }

  function ToBigEndian(n: nat, v: nat): (b: seq<byte>)
    ensures |b| == n
  {
    if n == 0 then [] else ToBigEndian(n - 1, v / 256) + [v % 256]
  }

  lemma {:induction false} BigEndianBound(b: seq<byte>)
    ensures BigEndian(b) < Pow2(8 * |b|)
  {
    if b == [] {
    } else {
      BigEndianBound(b[..|b| - 1]);
      Pow2Eight();
      Pow2Add(8, 8 * (|b| - 1));
    }
  }

  /** Dropping the low bytes of a big-endian number by a right shift. */
  lemma {:induction false} BigEndianShift(a: seq<byte>, b: seq<byte>)
    ensures BigEndian(a + b) / Pow2(8 * |b|) == BigEndian(a)
    decreases b
  {
    if b == [] {
      assert a + b == a;
    } else {
      var b' := b[..|b| - 1];
      assert (a + b)[..|a + b| - 1] == a + b';
      BigEndianShift(a, b');
      Pow2Eight();
      Pow2Add(8, 8 * |b'|);
      var v := BigEndian(a + b');
      assert (256 * v + b[|b| - 1]) / 256 == v;
      DivDiv(256 * v + b[|b| - 1], 256, Pow2(8 * |b'|));
    }
  }

  function ShiftRight(v: nat, bits: nat): nat { Div(v, Pow2(bits)) }

  function Div(v: nat, p: nat): nat
    requires p > 0
  {
    v / p
  }

  lemma BigEndianTop(first: seq<byte>, rest: seq<byte>)
    ensures ShiftRight(BigEndian(first + rest), 8 * |rest|) == BigEndian(first)
  {
    BigEndianShift(first, rest);
  }

  lemma DivDiv(x: nat, m: nat, n: nat)
    requires m > 0 && n > 0
    ensures m * n > 0 && x / (m * n) == (x / m) / n
  {
    var y, r1 := x / m, x % m;
    var q, r2 := y / n, y % n;
    DivMod(x, m);
    DivMod(y, n);
    Positive(m, n);
    Recombine(m, n, q, r1, r2);
    assert x == (m * n) * q + (m * r2 + r1);
    Quotient(x, m * n, q, m * r2 + r1);
  }

  lemma DivMod(x: nat, m: nat)
    requires m > 0
    ensures x == m * (x / m) + x % m && 0 <= x % m < m && x / m >= 0
  {}

  lemma Positive(m: nat, n: nat)
    requires m > 0 && n > 0
    ensures m * n > 0
  {}

  lemma Recombine(m: nat, n: nat, q: nat, r1: nat, r2: nat)
    requires r1 < m && r2 < n
    ensures m * (n * q + r2) + r1 == (m * n) * q + (m * r2 + r1)
    ensures m * r2 + r1 < m * n
  {
    assert m * (r2 + 1) <= m * n;
  }

  lemma Quotient(x: nat, m: nat, q: nat, r: nat)
    requires m > 0 && x == m * q + r && r < m
    ensures x / m == q
  {
    var k: int := x / m - q;
    assert x == m * (x / m) + x % m;
    assert m * k == r - x % m;
    assert k >= 1 ==> m * k >= m;
    assert k <= -1 ==> m * k + m <= 0;
  }

  lemma {:induction false} ToBigEndianAt(n: nat, v: nat, i: nat)
    requires i < n
    ensures ToBigEndian(n, v)[n - 1 - i] == (v / Pow2(8 * i)) % 256
  {
    if i == 0 {
    } else {
      ToBigEndianAt(n - 1, v / 256, i - 1);
      Pow2Eight();
      Pow2Add(8, 8 * (i - 1));
      DivDiv(v, 256, Pow2(8 * (i - 1)));
    }
  }
}
