/**
 64-bit words as FIPS 180-4 uses them, and the masked 256-bit words `Sha512.sol` carries them in.

 Each 256-bit operation is first related to the 64-bit expression with the widened operands as plain
 variables, then the two named operations are related; this keeps every bit-vector query small.  Shifted words
 are boxed, so that equalities between them are settled without looking at bits.
 */
module Sha512Bits {
  type word = bv64

  // Sections 2.2.2, 3.2 and 4.1.3 of FIPS 180-4.
  datatype Boxed = Boxed(bits: word)

  function RotR(x: word, n: word): Boxed
    requires n <= 64
  {
    Boxed((x >> n) | (x << (64 - n)))
  }

  function ShR(x: word, n: word): Boxed
    requires n <= 64
  {
    Boxed(x >> n)
  }

  function Xor(x: word, y: word, z: word): word { x ^ y ^ z }
  function Ch(x: word, y: word, z: word): word { (x & y) ^ (!x & z) }
  function Maj(x: word, y: word, z: word): word { (x & y) ^ (x & z) ^ (y & z) }
  function Add2(a: word, b: word): word { a + b }
  function Add4(a: word, b: word, c: word, d: word): word { a + b + c + d }
  function Add5(a: word, b: word, c: word, d: word, e: word): word { a + b + c + d + e }

  // The EVM's words.
  function Wide(x: word): bv256 { x as bv256 }

  function Rotr(x: bv256, n: bv256): bv256
    requires n <= 64
  {
    ((x >> n) | (x << (64 - n))) & 0xffff_ffff_ffff_ffff
  }

  function Shr(x: bv256, n: bv256): bv256
    requires n <= 256
  {
    x >> n
  }

  function Xor3(x: bv256, y: bv256, z: bv256): bv256 { x ^ y ^ z }
  function Choose(x: bv256, y: bv256, z: bv256): bv256 { (x & y) ^ ((!x) & z & 0xffff_ffff_ffff_ffff) }
  function Majority(x: bv256, y: bv256, z: bv256): bv256 { (x & y) ^ (x & z) ^ (y & z) }
  function Sum2(a: bv256, b: bv256): bv256 { (a + b) & 0xffff_ffff_ffff_ffff }
  function Sum4(a: bv256, b: bv256, c: bv256, d: bv256): bv256 { (a + b + c + d) & 0xffff_ffff_ffff_ffff }
  function Sum5(a: bv256, b: bv256, c: bv256, d: bv256, e: bv256): bv256 { (a + b + c + d + e) & 0xffff_ffff_ffff_ffff }

  lemma WideIs(x: word, u: bv256)
    requires u == Wide(x)
    ensures u == x as bv256
  {
  }

  lemma WideAmount(n: word, m: bv256)
    requires n <= 64 && m == Wide(n)
    ensures m <= 64
  {
  }

  /** The 64 bits of a masked word. */
  function Mask(v: bv256): word
    requires v <= 0xffff_ffff_ffff_ffff
  {
    v as word
  }

  function Narrow(v: bv256): Boxed
    requires v <= 0xffff_ffff_ffff_ffff
  {
    Boxed(Mask(v))
  }

  lemma NarrowMask(v: bv256)
    requires v <= 0xffff_ffff_ffff_ffff
    ensures Narrow(v) == Boxed(Mask(v))
  {
  }

  lemma MaskWide(v: bv256)
    requires v <= 0xffff_ffff_ffff_ffff
    ensures v == Wide(Mask(v))
  {
  }

  lemma NarrowWide(v: bv256, z: Boxed)
    requires v <= 0xffff_ffff_ffff_ffff && Narrow(v) == z
    ensures v == Wide(z.bits)
  {
    hide *;
    MaskWide(v);
    NarrowMask(v);
  }

  lemma RotRaw(x: word, n: word, u: bv256, m: bv256)
    requires n <= 64 && m <= 64 && u == x as bv256 && m == n as bv256
    ensures Rotr(u, m) <= 0xffff_ffff_ffff_ffff && Mask(Rotr(u, m)) == (x >> n) | (x << (64 - n))
  {
  }

  lemma RotExpression(x: word, n: word)
    requires n <= 64
    ensures RotR(x, n) == Boxed((x >> n) | (x << (64 - n)))
  {
  }

  lemma RotNamed(x: word, n: word, u: bv256, m: bv256)
    requires n <= 64 && m <= 64 && u == x as bv256 && m == n as bv256
    ensures Rotr(u, m) <= 0xffff_ffff_ffff_ffff && Narrow(Rotr(u, m)) == RotR(x, n)
  {
    hide *;
    RotRaw(x, n, u, m);
    NarrowMask(Rotr(u, m));
    RotExpression(x, n);
  }

  lemma ShrRaw(x: word, n: word, u: bv256, m: bv256)
    requires n <= 64 && m <= 64 && u == x as bv256 && m == n as bv256
    ensures Shr(u, m) <= 0xffff_ffff_ffff_ffff && Mask(Shr(u, m)) == x >> n
  {
  }

  lemma ShrExpression(x: word, n: word)
    requires n <= 64
    ensures ShR(x, n) == Boxed(x >> n)
  {
  }

  lemma ShrNamed(x: word, n: word, u: bv256, m: bv256)
    requires n <= 64 && m <= 64 && u == x as bv256 && m == n as bv256
    ensures Shr(u, m) <= 0xffff_ffff_ffff_ffff && Narrow(Shr(u, m)) == ShR(x, n)
  {
    hide *;
    ShrRaw(x, n, u, m);
    NarrowMask(Shr(u, m));
    ShrExpression(x, n);
  }

  /** Rotating in 256 bits and masking is rotating in 64 bits, for every amount, and so for shifting. */
  lemma RotWide(x: word, n: word)
    requires n <= 64
    ensures Wide(n) <= 64 && Rotr(Wide(x), Wide(n)) == Wide(RotR(x, n).bits)
    ensures Shr(Wide(x), Wide(n)) == Wide(ShR(x, n).bits)
  {
    hide *;
    var u, m := Wide(x), Wide(n);
    WideIs(x, u);
    WideIs(n, m);
    WideAmount(n, m);
    RotNamed(x, n, u, m);
    NarrowWide(Rotr(u, m), RotR(x, n));
    ShrNamed(x, n, u, m);
    NarrowWide(Shr(u, m), ShR(x, n));
  }

  lemma XorRaw(x: word, y: word, z: word, u: bv256, v: bv256, w: bv256, r: word)
    requires u == x as bv256 && v == y as bv256 && w == z as bv256 && r == x ^ y ^ z
    ensures Xor3(u, v, w) == Wide(r)
  {
  }

  lemma XorDefinition(x: word, y: word, z: word)
    ensures Xor(x, y, z) == x ^ y ^ z
  {
  }

  lemma ChRaw(x: word, y: word, z: word, u: bv256, v: bv256, w: bv256, r: word)
    requires u == x as bv256 && v == y as bv256 && w == z as bv256 && r == (x & y) ^ (!x & z)
    ensures Choose(u, v, w) == Wide(r)
  {
  }

  lemma ChDefinition(x: word, y: word, z: word)
    ensures Ch(x, y, z) == (x & y) ^ (!x & z)
  {
  }

  lemma MajRaw(x: word, y: word, z: word, u: bv256, v: bv256, w: bv256, r: word)
    requires u == x as bv256 && v == y as bv256 && w == z as bv256 && r == (x & y) ^ (x & z) ^ (y & z)
    ensures Majority(u, v, w) == Wide(r)
  {
  }

  lemma MajDefinition(x: word, y: word, z: word)
    ensures Maj(x, y, z) == (x & y) ^ (x & z) ^ (y & z)
  {
  }

  lemma LogicWide(x: word, y: word, z: word)
    ensures Xor3(Wide(x), Wide(y), Wide(z)) == Wide(Xor(x, y, z))
    ensures Choose(Wide(x), Wide(y), Wide(z)) == Wide(Ch(x, y, z))
    ensures Majority(Wide(x), Wide(y), Wide(z)) == Wide(Maj(x, y, z))
  {
    hide *;
    WideIs(x, Wide(x));
    WideIs(y, Wide(y));
    WideIs(z, Wide(z));
    XorDefinition(x, y, z);
    ChDefinition(x, y, z);
    MajDefinition(x, y, z);
    XorRaw(x, y, z, Wide(x), Wide(y), Wide(z), Xor(x, y, z));
    ChRaw(x, y, z, Wide(x), Wide(y), Wide(z), Ch(x, y, z));
    MajRaw(x, y, z, Wide(x), Wide(y), Wide(z), Maj(x, y, z));
  }

  lemma Sum2Raw(a: word, b: word, u: bv256, v: bv256, r: word)
    requires u == a as bv256 && v == b as bv256 && r == a + b
    ensures Sum2(u, v) == Wide(r)
  {
  }

  lemma Add2Definition(a: word, b: word)
    ensures Add2(a, b) == a + b
  {
  }

  lemma Sum4Raw(a: word, b: word, c: word, d: word, u: bv256, v: bv256, w: bv256, x: bv256, r: word)
    requires u == a as bv256 && v == b as bv256 && w == c as bv256 && x == d as bv256 && r == a + b + c + d
    ensures Sum4(u, v, w, x) == Wide(r)
  {
  }

  lemma Add4Definition(a: word, b: word, c: word, d: word)
    ensures Add4(a, b, c, d) == a + b + c + d
  {
  }

  lemma Sum5Raw(a: word, b: word, c: word, d: word, e: word, u: bv256, v: bv256, w: bv256, x: bv256, y: bv256, r: word)
    requires u == a as bv256 && v == b as bv256 && w == c as bv256 && x == d as bv256 && y == e as bv256
    requires r == a + b + c + d + e
    ensures Sum5(u, v, w, x, y) == Wide(r)
  {
  }

  lemma Add5Definition(a: word, b: word, c: word, d: word, e: word)
    ensures Add5(a, b, c, d, e) == a + b + c + d + e
  {
  }

  /** Sums left unmasked until the end are the 64-bit sums. */
  lemma SumWide(a: word, b: word, c: word, d: word, e: word)
    ensures Sum2(Wide(a), Wide(b)) == Wide(Add2(a, b))
    ensures Sum4(Wide(a), Wide(b), Wide(c), Wide(d)) == Wide(Add4(a, b, c, d))
    ensures Sum5(Wide(a), Wide(b), Wide(c), Wide(d), Wide(e)) == Wide(Add5(a, b, c, d, e))
  {
    hide *;
    WideIs(a, Wide(a));
    WideIs(b, Wide(b));
    WideIs(c, Wide(c));
    WideIs(d, Wide(d));
    WideIs(e, Wide(e));
    Add2Definition(a, b);
    Add4Definition(a, b, c, d);
    Add5Definition(a, b, c, d, e);
    Sum2Raw(a, b, Wide(a), Wide(b), Add2(a, b));
    Sum4Raw(a, b, c, d, Wide(a), Wide(b), Wide(c), Wide(d), Add4(a, b, c, d));
    Sum5Raw(a, b, c, d, e, Wide(a), Wide(b), Wide(c), Wide(d), Wide(e), Add5(a, b, c, d, e));
  }

  function Pack(w3: bv256, w2: bv256, w1: bv256, w0: bv256): bv256 { (w3 << 192) | (w2 << 128) | (w1 << 64) | w0 }

  function Limb(x: bv256, i: nat): word {
    if i == 3 then Low(x >> 192) else if i == 2 then Low(x >> 128) else if i == 1 then Low(x >> 64) else Low(x)
  }

  function Low(x: bv256): word {
    LowFits(x);
    (x & 0xffff_ffff_ffff_ffff) as bv64
  }

  lemma LowFits(x: bv256)
    ensures x & 0xffff_ffff_ffff_ffff <= 0xffff_ffff_ffff_ffff
  {
  }

  lemma Limb3Raw(a: word, b: word, c: word, d: word, u: bv256, v: bv256, w: bv256, x: bv256)
    requires u == a as bv256 && v == b as bv256 && w == c as bv256 && x == d as bv256
    ensures Limb(Pack(u, v, w, x), 3) == a
  {
  }

  lemma Limb2Raw(a: word, b: word, c: word, d: word, u: bv256, v: bv256, w: bv256, x: bv256)
    requires u == a as bv256 && v == b as bv256 && w == c as bv256 && x == d as bv256
    ensures Limb(Pack(u, v, w, x), 2) == b
  {
  }

  lemma Limb1Raw(a: word, b: word, c: word, d: word, u: bv256, v: bv256, w: bv256, x: bv256)
    requires u == a as bv256 && v == b as bv256 && w == c as bv256 && x == d as bv256
    ensures Limb(Pack(u, v, w, x), 1) == c
  {
  }

  lemma Limb0Raw(a: word, b: word, c: word, d: word, u: bv256, v: bv256, w: bv256, x: bv256)
    requires u == a as bv256 && v == b as bv256 && w == c as bv256 && x == d as bv256
    ensures Limb(Pack(u, v, w, x), 0) == d
  {
  }

  /** The limbs of four packed words are the words. */
  lemma PackLimbs(a: word, b: word, c: word, d: word)
    ensures var p := Pack(Wide(a), Wide(b), Wide(c), Wide(d));
      Limb(p, 3) == a && Limb(p, 2) == b && Limb(p, 1) == c && Limb(p, 0) == d
  {
    hide *;
    var u, v, w, x := Wide(a), Wide(b), Wide(c), Wide(d);
    WideIs(a, u);
    WideIs(b, v);
    WideIs(c, w);
    WideIs(d, x);
    Limb3Raw(a, b, c, d, u, v, w, x);
    Limb2Raw(a, b, c, d, u, v, w, x);
    Limb1Raw(a, b, c, d, u, v, w, x);
    Limb0Raw(a, b, c, d, u, v, w, x);
  }
}
