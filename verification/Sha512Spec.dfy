/** SHA-512 as FIPS 180-4 defines it (sections 4.1.3, 4.2.3, 5.1.2, 5.3.5 and 6.4). */
module Sha512Spec {
  import opened Bytes
  import opened Sha512Words

  type u64 = x: int | 0 <= x < 0x1_0000_0000_0000_0000

  /** The table K of section 4.2.3, as `Sha512.sol` writes it out. */
  function Constant(t: nat): u64
    requires t < 80
  {
    match t / 8
    case 0 =>
      (match t % 8
       case 0 => 0x428a2f98d728ae22 case 1 => 0x7137449123ef65cd
       case 2 => 0xb5c0fbcfec4d3b2f case 3 => 0xe9b5dba58189dbbc
       case 4 => 0x3956c25bf348b538 case 5 => 0x59f111f1b605d019
       case 6 => 0x923f82a4af194f9b case _ => 0xab1c5ed5da6d8118)
    case 1 =>
      (match t % 8
       case 0 => 0xd807aa98a3030242 case 1 => 0x12835b0145706fbe
       case 2 => 0x243185be4ee4b28c case 3 => 0x550c7dc3d5ffb4e2
       case 4 => 0x72be5d74f27b896f case 5 => 0x80deb1fe3b1696b1
       case 6 => 0x9bdc06a725c71235 case _ => 0xc19bf174cf692694)
    case 2 =>
      (match t % 8
       case 0 => 0xe49b69c19ef14ad2 case 1 => 0xefbe4786384f25e3
       case 2 => 0x0fc19dc68b8cd5b5 case 3 => 0x240ca1cc77ac9c65
       case 4 => 0x2de92c6f592b0275 case 5 => 0x4a7484aa6ea6e483
       case 6 => 0x5cb0a9dcbd41fbd4 case _ => 0x76f988da831153b5)
    case 3 =>
      (match t % 8
       case 0 => 0x983e5152ee66dfab case 1 => 0xa831c66d2db43210
       case 2 => 0xb00327c898fb213f case 3 => 0xbf597fc7beef0ee4
       case 4 => 0xc6e00bf33da88fc2 case 5 => 0xd5a79147930aa725
       case 6 => 0x06ca6351e003826f case _ => 0x142929670a0e6e70)
    case 4 =>
      (match t % 8
       case 0 => 0x27b70a8546d22ffc case 1 => 0x2e1b21385c26c926
       case 2 => 0x4d2c6dfc5ac42aed case 3 => 0x53380d139d95b3df
       case 4 => 0x650a73548baf63de case 5 => 0x766a0abb3c77b2a8
       case 6 => 0x81c2c92e47edaee6 case _ => 0x92722c851482353b)
    case 5 =>
      (match t % 8
       case 0 => 0xa2bfe8a14cf10364 case 1 => 0xa81a664bbc423001
       case 2 => 0xc24b8b70d0f89791 case 3 => 0xc76c51a30654be30
       case 4 => 0xd192e819d6ef5218 case 5 => 0xd69906245565a910
       case 6 => 0xf40e35855771202a case _ => 0x106aa07032bbd1b8)
    case 6 =>
      (match t % 8
       case 0 => 0x19a4c116b8d2d0c8 case 1 => 0x1e376c085141ab53
       case 2 => 0x2748774cdf8eeb99 case 3 => 0x34b0bcb5e19b48a8
       case 4 => 0x391c0cb3c5c95a63 case 5 => 0x4ed8aa4ae3418acb
       case 6 => 0x5b9cca4f7763e373 case _ => 0x682e6ff3d6b2b8a3)
    case 7 =>
      (match t % 8
       case 0 => 0x748f82ee5defb2fc case 1 => 0x78a5636f43172f60
       case 2 => 0x84c87814a1f0ab72 case 3 => 0x8cc702081a6439ec
       case 4 => 0x90befffa23631e28 case 5 => 0xa4506cebde82bde9
       case 6 => 0xbef9a3f7b2c67915 case _ => 0xc67178f2e372532b)
    case 8 =>
      (match t % 8
       case 0 => 0xca273eceea26619c case 1 => 0xd186b8c721c0c207
       case 2 => 0xeada7dd6cde0eb1e case 3 => 0xf57d4f7fee6ed178
       case 4 => 0x06f067aa72176fba case 5 => 0x0a637dc5a2c898a6
       case 6 => 0x113f9804bef90dae case _ => 0x1b710b35131c471b)
    case _ =>
      (match t % 8
       case 0 => 0x28db77f523047d84 case 1 => 0x32caab7b40c72493
       case 2 => 0x3c9ebe0a15c9bebc case 3 => 0x431d67c49c100d4c
       case 4 => 0x4cc5d4becb3e42b6 case 5 => 0x597f299cfc657e2a
       case 6 => 0x5fcb6fab3ad6faec case _ => 0x6c44198c4a475817)
  }

  /** The initial hash value of section 5.3.5. */
  function InitialHash(): (row: seq<u64>)
    ensures |row| == 8
  {
    [
    0x6a09e667f3bcc908, 0xbb67ae8584caa73b, 0x3c6ef372fe94f82b, 0xa54ff53a5f1d36f1,
    0x510e527fade682d1, 0x9b05688c2b3e6c1f, 0x1f83d9abfb41bd6b, 0x5be0cd19137e2179
    ]
  }

  datatype State = State(a: Word, b: Word, c: Word, d: Word, e: Word, f: Word, g: Word, h: Word)

  function InitialWord(i: nat): Word
    requires i < 8
  {
    ToWord(InitialHash()[i])
  }

  function H0(): State {
    State(InitialWord(0), InitialWord(1), InitialWord(2), InitialWord(3), InitialWord(4), InitialWord(5),
      InitialWord(6), InitialWord(7))
  }

  function WordOf(b: seq<byte>): Word
    requires |b| == 8
  {
    BigEndianBound(b);
    Pow2SixtyFour();
    ToWord(BigEndian(b))
  }

  // ---- section 5.1.2: padding -------------------------------------------------------

  function ZeroBytes(len: nat): nat { (111 - len) % 128 }

  function Pad(m: seq<byte>): (p: seq<byte>)
    ensures |p| == |m| + 17 + ZeroBytes(|m|)
  {
    m + [0x80] + seq(ZeroBytes(|m|), _ => 0) + ToBigEndian(16, 8 * |m|)
  }

  /** The padded message fills whole 1024-bit blocks, with the fewest zeros that do. */
  lemma PadFits(m: seq<byte>)
    ensures |Pad(m)| % 128 == 0 && |Pad(m)| == (|m| + 17 + 127) / 128 * 128
    ensures forall n :: |m| + 17 <= n && n % 128 == 0 ==> |Pad(m)| <= n
  {
    hide Pad;
    LeastMultiple(|m|, ZeroBytes(|m|));
  }

  lemma LeastMultiple(len: int, z: int)
    requires z == (111 - len) % 128
    ensures (len + 17 + z) % 128 == 0 && len + 17 + z == (len + 17 + 127) / 128 * 128
    ensures forall n :: len + 17 <= n && n % 128 == 0 ==> len + 17 + z <= n
  {
    var k := 1 - (111 - len) / 128;
    assert len + 17 + z == 128 * k;
    RoundedUp(len + 17, k);
    forall n | len + 17 <= n && n % 128 == 0 ensures len + 17 + z <= n {
      NoSmaller(len + 17, k, n);
    }
  }

  lemma RoundedUp(x: int, k: int)
    requires 128 * (k - 1) < x <= 128 * k
    ensures (x + 127) / 128 == k && (128 * k) % 128 == 0
  {}

  lemma NoSmaller(x: int, k: int, n: int)
    requires 128 * (k - 1) < x <= n && n % 128 == 0
    ensures 128 * k <= n
  {
    assert n == 128 * (n / 128);
  }

  // ---- section 6.4.2: the compression of one block -------------------------------------

  function BlockWord(p: seq<byte>, block: nat, t: nat): Word
    requires 128 * (block + 1) <= |p| && t < 16
  {
    WordOf(p[128 * block + 8 * t..128 * block + 8 * t + 8])
  }

  function Schedule(p: seq<byte>, block: nat, t: nat): Word
    requires 128 * (block + 1) <= |p|
  {
    if t < 16 then BlockWord(p, block, t)
    else Add4(Schedule(p, block, t - 16), Small0(Schedule(p, block, t - 15)), Schedule(p, block, t - 7),
      Small1(Schedule(p, block, t - 2)))
  }

  function Round(s: State, k: Word, w: Word): State {
    var t1 := Add5(s.h, Big1(s.e), Ch(s.e, s.f, s.g), k, w);
    var t2 := Add2(Big0(s.a), Maj(s.a, s.b, s.c));
    State(Add2(t1, t2), s.a, s.b, s.c, Add2(s.d, t1), s.e, s.f, s.g)
  }

  function Rounds(s: State, p: seq<byte>, block: nat, t: nat): State
    requires 128 * (block + 1) <= |p| && t <= 80
  {
    if t == 0 then s else Round(Rounds(s, p, block, t - 1), ToWord(Constant(t - 1)), Schedule(p, block, t - 1))
  }

  function AddStates(s: State, r: State): State {
    State(Add2(s.a, r.a), Add2(s.b, r.b), Add2(s.c, r.c), Add2(s.d, r.d),
          Add2(s.e, r.e), Add2(s.f, r.f), Add2(s.g, r.g), Add2(s.h, r.h))
  }

  /** The intermediate hash value after `n` blocks. */
  function HashBlocks(p: seq<byte>, n: nat): State
    requires 128 * n <= |p|
  {
    if n == 0 then H0()
    else var h := HashBlocks(p, n - 1); AddStates(h, Rounds(h, p, n - 1, 80))
  }

  function WordBytes(w: Word): (b: seq<byte>)
    ensures |b| == 8
  {
    ToBigEndian(8, FromWord(w))
  }

  function Output(s: State): (b: seq<byte>)
    ensures |b| == 64
  {
    WordBytes(s.a) + WordBytes(s.b) + WordBytes(s.c) + WordBytes(s.d)
      + WordBytes(s.e) + WordBytes(s.f) + WordBytes(s.g) + WordBytes(s.h)
  }

  function Sha512(m: seq<byte>): (digest: seq<byte>)
    ensures |digest| == 64
  {
    Output(HashBlocks(Pad(m), |Pad(m)| / 128))
  }
}
