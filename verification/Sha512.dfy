/** contracts/src/Sha512.sol over 256-bit words and mutable buffers, refined to FIPS 180-4. */
module Sha512 {
  import opened Bytes
  import opened Sha512Spec
  import opened Sha512Words

  // ---- padding ------------------------------------------------------------------------

  /** `mstore` of one 32-byte word of the source at offset i. */
  method CopyWord(p: array<byte>, i: nat, src: seq<byte>)
    requires i + 32 <= p.Length && i + 32 <= |src|
    modifies p
    ensures p[..] == old(p[..i]) + src[i..i + 32] + old(p[i + 32..])
  {
    forall j | 0 <= j < 32 {
      p[i + j] := src[i + j];
    }
  }

  method CopyWords(p: array<byte>, data: seq<byte>, after: seq<byte>)
    requires |data| + 17 <= p.Length && p.Length % 128 == 0 && |after| >= 31
    modifies p
    ensures p[..|data|] == data
  {
    var src := data + after;
    var i := 0;
    while i < |data|
      invariant 0 <= i <= p.Length && i % 32 == 0 && i < |data| + 32
      invariant p[..i] == src[..i]
    {
      CopyWord(p, i, src);
      i := i + 32;
    }
    assert p[..|data|] == p[..i][..|data|];
  }

  method StoreLength(p: array<byte>, len: nat)
    requires p.Length >= 16
    modifies p
    ensures p[..] == old(p[..p.Length - 16]) + ToBigEndian(16, 8 * len)
  {
    var lo := (8 * len) % 0x1_0000_0000_0000_0000;
    var hi := len / 0x2000_0000_0000_0000;
    ghost var field := ToBigEndian(16, 8 * len);
    ghost var start := p.Length - 16;
    for i := 0 to 8
      invariant forall k :: 0 <= k < start ==> p[k] == old(p[k])
      invariant forall k :: start + 8 - i <= k < start + 8 ==> p[k] == field[k - start]
      invariant forall k :: start + 16 - i <= k < start + 16 ==> p[k] == field[k - start]
    {
      p[p.Length - 1 - i] := (lo / Pow2(8 * i)) % 256;
      p[p.Length - 9 - i] := (hi / Pow2(8 * i)) % 256;
      LengthByte(len, i);
    }
  }

  lemma Split64(i: nat)
    requires i < 8
    ensures (Pow2(8 * i) * 256) * Pow2(8 * (7 - i)) == 0x1_0000_0000_0000_0000
  {
    Pow2SixtyFour();
    Pow2Eight();
    Pow2Add(8 * i, 8);
    Pow2Add(8 * i + 8, 8 * (7 - i));
    assert 8 * i + 8 + 8 * (7 - i) == 64;
  }

  lemma LengthByte(len: nat, i: nat)
    requires i < 8
    ensures ToBigEndian(16, 8 * len)[15 - i] == ((8 * len) % 0x1_0000_0000_0000_0000 / Pow2(8 * i)) % 256
    ensures ToBigEndian(16, 8 * len)[7 - i] == (len / 0x2000_0000_0000_0000 / Pow2(8 * i)) % 256
  {
    hide Pow2;
    ToBigEndianAt(16, 8 * len, i);
    ToBigEndianAt(16, 8 * len, i + 8);
    Split64(i);
    LowByte(8 * len, Pow2(8 * i), Pow2(8 * (7 - i)));
    HighByte(len, i);
  }

  lemma HighByte(len: nat, i: nat)
    ensures len / 0x2000_0000_0000_0000 / Pow2(8 * i) == 8 * len / Pow2(8 * (i + 8))
  {
    Pow2SixtyFour();
    Pow2Add(64, 8 * i);
    hide Pow2;
    DivDiv(8 * len, Pow2(64), Pow2(8 * i));
  }

  lemma LowByte(x: nat, a: nat, c: nat)
    requires a > 0 && c > 0
    ensures (a * 256) * c > 0 && (x % ((a * 256) * c) / a) % 256 == (x / a) % 256
  {
    Positive(a, 256);
    Positive(a * 256, c);
    var m := (a * 256) * c;
    var q, r := x / m, x % m;
    DivMod(x, m);
    var s, u := r / a, r % a;
    DivMod(r, a);
    Spread(a, c, q, s, u);
    var k := c * q;
    assert x == a * (256 * k + s) + u;
    Quotient(x, a, 256 * k + s, u);
    Low(k, s);
  }

  lemma Low(k: nat, s: nat)
    ensures (256 * k + s) % 256 == s % 256
  {}

  lemma Spread(a: nat, c: nat, q: nat, s: nat, u: nat)
    ensures ((a * 256) * c) * q + (a * s + u) == a * (256 * (c * q) + s) + u
  {
  }

  /** The padded buffer: copied words, a zeroed tail, the 0x80 marker and the bit length, in that order. */
  method PadBuffer(data: seq<byte>, after: seq<byte>) returns (p: array<byte>)
    requires |after| >= 31
    ensures fresh(p) && p[..] == Pad(data)
  {
    var len := |data|;
    var blocks := (len + 17 + 127) / 128;
    p := new byte[blocks * 128];
    CopyWords(p, data, after);
    for i := len to p.Length
      invariant p[..len] == data
      invariant forall j :: len <= j < i ==> p[j] == 0
    {
      p[i] := 0;
    }
    p[len] := 0x80;
    ghost var head := p[..p.Length - 16];
    StoreLength(p, len);
    PadFits(data);
    assert head == data + [0x80] + seq(ZeroBytes(len), _ => 0);
  }

  // ---- the rounds ---------------------------------------------------------------------------

  /** The eight working variables. */
  ghost predicate Holds(v: array<Slot>, s: State)
    reads v
  {
    v.Length == 8 && forall i :: 0 <= i < 8 ==> v[i] == Kept(Register(s, i))
  }

  function Register(s: State, i: nat): Word {
    match i
    case 0 => s.a case 1 => s.b case 2 => s.c case 3 => s.d
    case 4 => s.e case 5 => s.f case 6 => s.g case _ => s.h
  }

  lemma RoundValues(s: State, k: Word, w: Word)
    ensures var r := Round(s, k, w);
      var T1 := Sum5(Kept(s.h), BigS1(Kept(s.e)), Choose(Kept(s.e), Kept(s.f), Kept(s.g)), Kept(k), Kept(w));
      var T2 := Sum2(BigS0(Kept(s.a)), Majority(Kept(s.a), Kept(s.b), Kept(s.c)));
      Sum2(Kept(s.d), T1) == Kept(r.e) && Sum2(T1, T2) == Kept(r.a)
  {
    hide Kept, Choose, Majority, Sum2, Sum5, Ch, Maj, Add2, Add5, BigS0, BigS1, Big0, Big1;
    BigSigmas(s.e);
    BigSigmas(s.a);
    ChoiceAndMajority(s.e, s.f, s.g);
    ChoiceAndMajority(s.a, s.b, s.c);
    var t1, t2 := Add5(s.h, Big1(s.e), Ch(s.e, s.f, s.g), k, w), Add2(Big0(s.a), Maj(s.a, s.b, s.c));
    Sums(s.h, Big1(s.e), Ch(s.e, s.f, s.g), k, w);
    Sums(Big0(s.a), Maj(s.a, s.b, s.c), t1, t1, t1);
    Sums(s.d, t1, t1, t1, t1);
    Sums(t1, t2, t1, t1, t1);
  }

  /** h = g, g = f, f = e, e = newE, d = c, c = b, b = a, a = newA. */
  method ShiftRegisters<T>(v: array<T>, newE: T, newA: T)
    requires v.Length == 8
    modifies v
    ensures v[0] == newA && v[1] == old(v[0]) && v[2] == old(v[1]) && v[3] == old(v[2])
    ensures v[4] == newE && v[5] == old(v[4]) && v[6] == old(v[5]) && v[7] == old(v[6])
  {
    v[7] := v[6];
    v[6] := v[5];
    v[5] := v[4];
    v[4] := newE;
    v[3] := v[2];
    v[2] := v[1];
    v[1] := v[0];
    v[0] := newA;
  }

  /** One iteration of the round loop, in place. */
  method RoundInPlace(v: array<Slot>, k: Slot, w: Slot, ghost s: State, ghost k': Word, ghost w': Word)
    requires Holds(v, s) && k == Kept(k') && w == Kept(w')
    modifies v
    ensures Holds(v, Round(s, k', w'))
  {
    hide Kept, Choose, Majority, Sum2, Sum5, Ch, Maj, Add2, Add5, BigS0, BigS1, Big0, Big1;
    RoundValues(s, k', w');
    var T1 := Sum5(v[7], BigS1(v[4]), Choose(v[4], v[5], v[6]), k, w);
    var T2 := Sum2(BigS0(v[0]), Majority(v[0], v[1], v[2]));
    ShiftRegisters(v, Sum2(v[3], T1), Sum2(T1, T2));
  }

  method RoundLoop(v: array<Slot>, W: array<Slot>, ghost h: State, ghost p: seq<byte>, ghost block: nat)
    requires W.Length == 80 && v != W && 128 * (block + 1) <= |p|
    requires Holds(v, h) && forall t :: 0 <= t < 80 ==> W[t] == Kept(Schedule(p, block, t))
    modifies v
    ensures Holds(v, Rounds(h, p, block, 80))
  {
    hide Kept, ToWord, Schedule, Round, Holds;
    for t := 0 to 80
      invariant Holds(v, Rounds(h, p, block, t))
    {
      RoundInPlace(v, Kept(ToWord(Constant(t))), W[t], Rounds(h, p, block, t), ToWord(Constant(t)),
        Schedule(p, block, t));
    }
  }

  lemma ScheduleStep(p: seq<byte>, block: nat, t: nat)
    requires 128 * (block + 1) <= |p| && 16 <= t
    ensures Schedule(p, block, t)
         == Add4(Schedule(p, block, t - 16), Small0(Schedule(p, block, t - 15)), Schedule(p, block, t - 7),
           Small1(Schedule(p, block, t - 2)))
  {
  }

  /** Words 16 to 79 of the message schedule. */
  method Expand(W: array<Slot>, ghost p: seq<byte>, ghost block: nat)
    requires W.Length == 80 && 128 * (block + 1) <= |p|
    requires forall t :: 0 <= t < 16 ==> W[t] == Kept(Schedule(p, block, t))
    modifies W
    ensures forall t :: 0 <= t < 80 ==> W[t] == Kept(Schedule(p, block, t))
  {
    hide Kept, S0, S1, Sum4, Small0, Small1, Add4, Schedule;
    for t := 16 to 80
      invariant forall i :: 0 <= i < t ==> W[i] == Kept(Schedule(p, block, i))
    {
      ghost var w16, w15 := Schedule(p, block, t - 16), Schedule(p, block, t - 15);
      ghost var w7, w2 := Schedule(p, block, t - 7), Schedule(p, block, t - 2);
      ScheduleStep(p, block, t);
      SmallSigmas(w15);
      SmallSigmas(w2);
      Sums(w16, Small0(w15), w7, Small1(w2), w2);
      W[t] := Sum4(W[t - 16], S0(W[t - 15]), W[t - 7], S1(W[t - 2]));
    }
  }

  lemma LoadedWord(p: seq<byte>, beyond: seq<byte>, block: nat, t: nat)
    requires 128 * (block + 1) <= |p| && t < 16 && |beyond| >= 24
    ensures var a := 128 * block + 8 * t;
      var v := ShiftRight(BigEndian((p + beyond)[a..a + 32]), 192);
      v < 0x1_0000_0000_0000_0000 && ToWord(v) == Schedule(p, block, t)
  {
    hide Pow2, BigEndian, ToWord, ShiftRight;
    var a := 128 * block + 8 * t;
    var first := p[a..a + 8];
    var rest := (p + beyond)[a + 8..a + 32];
    assert (p + beyond)[a..a + 32] == first + rest;
    BigEndianTop(first, rest);
    BigEndianBound(first);
    Pow2SixtyFour();
  }

  /** `shr(192, mload(...))`: the 32 bytes read may run past the buffer; only the first eight count. */
  method LoadBlock(W: array<Slot>, p: array<byte>, beyond: seq<byte>, block: nat)
    requires W.Length == 80 && 128 * (block + 1) <= p.Length && |beyond| >= 24
    modifies W
    ensures forall t :: 0 <= t < 16 ==> W[t] == Kept(Schedule(p[..], block, t))
  {
    hide Kept, ToWord, Schedule, Pow2, BigEndian, ShiftRight;
    var memory := p[..] + beyond;
    for t := 0 to 16
      invariant forall i :: 0 <= i < t ==> W[i] == Kept(Schedule(p[..], block, i))
    {
      var a := 128 * block + 8 * t;
      LoadedWord(p[..], beyond, block, t);
      W[t] := Kept(ToWord(ShiftRight(BigEndian(memory[a..a + 32]), 192)));
    }
  }

  /** H[i] = H[i] + v[i] for the eight words. */
  method AddInto(H: array<Slot>, v: array<Slot>, ghost h: State, ghost r: State)
    requires H != v && Holds(H, h) && Holds(v, r)
    modifies H
    ensures Holds(H, AddStates(h, r))
  {
    hide Kept, Sum2, Register, AddStates;
    for i := 0 to 8
      invariant forall j :: 0 <= j < i ==> H[j] == Kept(Register(AddStates(h, r), j))
      invariant forall j :: i <= j < 8 ==> H[j] == Kept(Register(h, j))
    {
      AddedRegister(h, r, i);
      H[i] := Sum2(H[i], v[i]);
    }
  }

  lemma AddedRegister(h: State, r: State, i: nat)
    requires i < 8
    ensures Sum2(Kept(Register(h, i)), Kept(Register(r, i))) == Kept(Register(AddStates(h, r), i))
  {
    hide Kept, Sum2, Add2;
    Sums(Register(h, i), Register(r, i), h.a, h.a, h.a);
  }

  method InitialState() returns (H: array<Slot>)
    ensures fresh(H) && Holds(H, H0())
  {
    hide Kept, InitialWord;
    H := new Slot[8](i requires 0 <= i < 8 => Kept(InitialWord(i)));
  }

  method Copy(H: array<Slot>, ghost h: State) returns (v: array<Slot>)
    requires Holds(H, h)
    ensures fresh(v) && Holds(v, h)
  {
    hide Kept;
    v := new Slot[8](i requires 0 <= i < 8 && H.Length == 8 reads H => H[i]);
  }

  /** The two final `mstore`s: each packs four words into one slot, written big-endian. */
  method Digest(H: array<Slot>, ghost h: State) returns (digest: seq<byte>)
    requires Holds(H, h)
    ensures digest == Output(h)
  {
    hide Kept, Pack, SlotBytes, WordBytes;
    PackedBytes(h.a, h.b, h.c, h.d);
    PackedBytes(h.e, h.f, h.g, h.h);
    assert H[0] == Kept(h.a) && H[1] == Kept(h.b) && H[2] == Kept(h.c) && H[3] == Kept(h.d);
    assert H[4] == Kept(h.e) && H[5] == Kept(h.f) && H[6] == Kept(h.g) && H[7] == Kept(h.h);
    Append(WordBytes(h.a) + WordBytes(h.b) + WordBytes(h.c) + WordBytes(h.d), WordBytes(h.e), WordBytes(h.f),
      WordBytes(h.g), WordBytes(h.h));
    digest := SlotBytes(Pack(H[0], H[1], H[2], H[3])) + SlotBytes(Pack(H[4], H[5], H[6], H[7]));
  }

  lemma Append<T>(a: seq<T>, b: seq<T>, c: seq<T>, d: seq<T>, e: seq<T>)
    ensures a + (b + c + d + e) == a + b + c + d + e
  {
  }

  lemma PackedBytes(a: Word, b: Word, c: Word, d: Word)
    ensures SlotBytes(Pack(Kept(a), Kept(b), Kept(c), Kept(d)))
      == WordBytes(a) + WordBytes(b) + WordBytes(c) + WordBytes(d)
  {
    hide Kept, Pack, Limb, WordBytes;
    Limbs(a, b, c, d);
  }

  /** The 32 bytes `mstore` writes for a slot, most significant limb first. */
  function SlotBytes(x: Slot): (b: seq<byte>)
    ensures |b| == 32
  {
    WordBytes(Limb(x, 3)) + WordBytes(Limb(x, 2)) + WordBytes(Limb(x, 1)) + WordBytes(Limb(x, 0))
  }

  /** Sha512.hash, for any bytes that happen to lie behind the input and behind the buffer. */
  method Hash(data: seq<byte>, afterData: seq<byte>, afterBuffer: seq<byte>) returns (digest: seq<byte>)
    requires |afterData| >= 31 && |afterBuffer| >= 24
    ensures digest == Sha512(data)
  {
    hide Kept, Holds, Pad, Rounds, Schedule, H0, AddStates, Output, ZeroBytes;
    var H := InitialState();
    var p := PadBuffer(data, afterData);
    PadFits(data);
    var blocks := p.Length / 128;
    var W := new Slot[80];
    for b := 0 to blocks
      invariant p[..] == Pad(data) && Holds(H, HashBlocks(p[..], b))
      invariant fresh(W) && fresh(H) && H != W && W.Length == 80
    {
      ghost var h := HashBlocks(p[..], b);
      LoadBlock(W, p, afterBuffer, b);
      Expand(W, p[..], b);
      var v := Copy(H, h);
      RoundLoop(v, W, h, p[..], b);
      AddInto(H, v, h, Rounds(h, p[..], b, 80));
    }
    digest := Digest(H, HashBlocks(p[..], blocks));
  }
}
