/** SHA-512's operations on 64-bit words, and the same operations on the EVM's 256-bit memory slots. */
module Sha512Words {
  import B = Sha512Bits

  datatype Word = Word(bits: bv64)
  datatype Slot = Slot(bits: bv256)

  /** How a 64-bit word is kept in a memory slot. */
  function Kept(x: Word): Slot { Slot(B.Wide(x.bits)) }

  function ToWord(n: nat): Word
    requires n < 0x1_0000_0000_0000_0000
  {
    Word(n as bv64)
  }

  function FromWord(x: Word): nat { x.bits as nat }

  // FIPS 180-4, section 4.1.3.

  function Big0(x: Word): Word {
    Word(B.Xor(B.RotR(x.bits, 28).bits, B.RotR(x.bits, 34).bits, B.RotR(x.bits, 39).bits))
  }

  function Big1(x: Word): Word {
    Word(B.Xor(B.RotR(x.bits, 14).bits, B.RotR(x.bits, 18).bits, B.RotR(x.bits, 41).bits))
  }

  function Small0(x: Word): Word {
    Word(B.Xor(B.RotR(x.bits, 1).bits, B.RotR(x.bits, 8).bits, B.ShR(x.bits, 7).bits))
  }

  function Small1(x: Word): Word {
    Word(B.Xor(B.RotR(x.bits, 19).bits, B.RotR(x.bits, 61).bits, B.ShR(x.bits, 6).bits))
  }

  function Ch(x: Word, y: Word, z: Word): Word { Word(B.Ch(x.bits, y.bits, z.bits)) }
  function Maj(x: Word, y: Word, z: Word): Word { Word(B.Maj(x.bits, y.bits, z.bits)) }
  function Add2(a: Word, b: Word): Word { Word(B.Add2(a.bits, b.bits)) }
  function Add4(a: Word, b: Word, c: Word, d: Word): Word { Word(B.Add4(a.bits, b.bits, c.bits, d.bits)) }

  function Add5(a: Word, b: Word, c: Word, d: Word, e: Word): Word {
    Word(B.Add5(a.bits, b.bits, c.bits, d.bits, e.bits))
  }

  // Sha512.sol: `rotr` masks, the sums are left unmasked until the end.
  function BigS0(x: Slot): Slot { Slot(B.Xor3(B.Rotr(x.bits, 28), B.Rotr(x.bits, 34), B.Rotr(x.bits, 39))) }
  function BigS1(x: Slot): Slot { Slot(B.Xor3(B.Rotr(x.bits, 14), B.Rotr(x.bits, 18), B.Rotr(x.bits, 41))) }
  function S0(x: Slot): Slot { Slot(B.Xor3(B.Rotr(x.bits, 1), B.Rotr(x.bits, 8), B.Shr(x.bits, 7))) }
  function S1(x: Slot): Slot { Slot(B.Xor3(B.Rotr(x.bits, 19), B.Rotr(x.bits, 61), B.Shr(x.bits, 6))) }
  function Choose(x: Slot, y: Slot, z: Slot): Slot { Slot(B.Choose(x.bits, y.bits, z.bits)) }
  function Majority(x: Slot, y: Slot, z: Slot): Slot { Slot(B.Majority(x.bits, y.bits, z.bits)) }
  function Sum2(a: Slot, b: Slot): Slot { Slot(B.Sum2(a.bits, b.bits)) }
  function Sum4(a: Slot, b: Slot, c: Slot, d: Slot): Slot { Slot(B.Sum4(a.bits, b.bits, c.bits, d.bits)) }

  function Sum5(a: Slot, b: Slot, c: Slot, d: Slot, e: Slot): Slot {
    Slot(B.Sum5(a.bits, b.bits, c.bits, d.bits, e.bits))
  }

  lemma Amounts()
    ensures B.Wide(1) == 1 && B.Wide(6) == 6 && B.Wide(7) == 7 && B.Wide(8) == 8 && B.Wide(14) == 14 && B.Wide(18) == 18
    ensures B.Wide(19) == 19 && B.Wide(28) == 28 && B.Wide(34) == 34 && B.Wide(39) == 39 && B.Wide(41) == 41
      && B.Wide(61) == 61
  {
  }

  lemma BigSigmas(x: Word)
    ensures BigS0(Kept(x)) == Kept(Big0(x)) && BigS1(Kept(x)) == Kept(Big1(x))
  {
    hide B.Wide, B.Rotr, B.RotR, B.Xor3, B.Xor;
    var b := x.bits;
    Amounts();
    B.RotWide(b, 28); B.RotWide(b, 34); B.RotWide(b, 39);
    B.LogicWide(B.RotR(b, 28).bits, B.RotR(b, 34).bits, B.RotR(b, 39).bits);
    B.RotWide(b, 14); B.RotWide(b, 18); B.RotWide(b, 41);
    B.LogicWide(B.RotR(b, 14).bits, B.RotR(b, 18).bits, B.RotR(b, 41).bits);
  }

  lemma SmallSigmas(x: Word)
    ensures S0(Kept(x)) == Kept(Small0(x)) && S1(Kept(x)) == Kept(Small1(x))
  {
    hide B.Wide, B.Rotr, B.RotR, B.Shr, B.ShR, B.Xor3, B.Xor;
    var b := x.bits;
    Amounts();
    B.RotWide(b, 1); B.RotWide(b, 8); B.RotWide(b, 7);
    B.LogicWide(B.RotR(b, 1).bits, B.RotR(b, 8).bits, B.ShR(b, 7).bits);
    B.RotWide(b, 19); B.RotWide(b, 61); B.RotWide(b, 6);
    B.LogicWide(B.RotR(b, 19).bits, B.RotR(b, 61).bits, B.ShR(b, 6).bits);
  }

  lemma ChoiceAndMajority(x: Word, y: Word, z: Word)
    ensures Choose(Kept(x), Kept(y), Kept(z)) == Kept(Ch(x, y, z))
    ensures Majority(Kept(x), Kept(y), Kept(z)) == Kept(Maj(x, y, z))
  {
    hide B.Wide, B.Choose, B.Ch, B.Majority, B.Maj, B.Xor3, B.Xor;
    B.LogicWide(x.bits, y.bits, z.bits);
  }

  lemma Sums(a: Word, b: Word, c: Word, d: Word, e: Word)
    ensures Sum2(Kept(a), Kept(b)) == Kept(Add2(a, b))
    ensures Sum4(Kept(a), Kept(b), Kept(c), Kept(d)) == Kept(Add4(a, b, c, d))
    ensures Sum5(Kept(a), Kept(b), Kept(c), Kept(d), Kept(e)) == Kept(Add5(a, b, c, d, e))
  {
    hide B.Wide, B.Sum2, B.Sum4, B.Sum5, B.Add2, B.Add4, B.Add5;
    B.SumWide(a.bits, b.bits, c.bits, d.bits, e.bits);
  }

  /** (w3 << 192) | (w2 << 128) | (w1 << 64) | w0 */
  function Pack(w3: Slot, w2: Slot, w1: Slot, w0: Slot): Slot { Slot(B.Pack(w3.bits, w2.bits, w1.bits, w0.bits)) }

  /** 64-bit limb number i, counted from the least significant. */
  function Limb(x: Slot, i: nat): Word { Word(B.Limb(x.bits, i)) }

  lemma Limbs(a: Word, b: Word, c: Word, d: Word)
    ensures var x := Pack(Kept(a), Kept(b), Kept(c), Kept(d));
      Limb(x, 3) == a && Limb(x, 2) == b && Limb(x, 1) == c && Limb(x, 0) == d
  {
    hide B.Wide, B.Pack, B.Limb;
    B.PackLimbs(a.bits, b.bits, c.bits, d.bits);
  }
}
