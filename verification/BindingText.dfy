/**
 The bytes a publisher key signs to bind an account (contracts/src/WebwayRegistry.sol:55-60, 128-150), as the
 contract builds them and as the client does (src/chain.ts:104-109), and why they bind one account at one epoch
 on one chain.
 */
module BindingText {
  import opened Options
  import opened Bytes

  const ALPHABET: string := "0123456789abcdef"

  // ---- decimal ---------------------------------------------------------------------------------------------

  function Digit(d: nat): char
    requires d < 10
  {
    '0' + d as char
  }

  /** Canonical decimal. */
  function Dec(v: nat): string {
    if v < 10 then [Digit(v)] else Dec(v / 10) + [Digit(v % 10)]
  }

  predicate Digits(s: string) {
    forall i :: 0 <= i < |s| ==> '0' <= s[i] <= '9'
  }

  function Number(s: string): nat
    requires Digits(s)
  {
    if s == [] then 0 else 10 * Number(s[..|s| - 1]) + (s[|s| - 1] as nat - '0' as nat)
  }

  /** Only digits, no leading zero, and the number can be read back. */
  lemma {:induction false} DecCanonical(v: nat)
    ensures Digits(Dec(v)) && Dec(v) != [] && (Dec(v)[0] == '0' ==> v == 0 && |Dec(v)| == 1)
    ensures Number(Dec(v)) == v
  {
    if v >= 10 {
      DecCanonical(v / 10);
      var s := Dec(v);
      assert s[..|s| - 1] == Dec(v / 10);
      assert s[|s| - 1] == Digit(v % 10);
    } else {
      assert [Digit(v)][..0] == [];
    }
  }

  function DecLen(v: nat): (n: nat)
    ensures n == |Dec(v)|
  {
    if v < 10 then 1 else DecLen(v / 10) + 1
  }

  /** _dec: count the digits, then write them from the right. */
  method DecText(v: nat) returns (out: array<char>)
    ensures fresh(out) && out[..] == Dec(v)
  {
    if v == 0 {
      out := new char[1](_ => '0');
      return;
    }
    var len := CountDigits(v);
    hide DecLen, Dec, Left;
    out := new char[len](_ => '0');
    var rest := v;
    LeftAll(v);
    assert Left(v) + out[len..] == Dec(v);
    while rest != 0
      invariant len == |Left(rest)| <= out.Length
      invariant Left(rest) + out[len..] == Dec(v)
    {
      LeftNext(rest);
      len := len - 1;
      out[len] := Digit(rest % 10);
      assert out[len..] == [Digit(rest % 10)] + out[len + 1..];
      assert Left(rest / 10) + out[len..] == Left(rest / 10) + [Digit(rest % 10)] + out[len + 1..];
      rest := rest / 10;
    }
    LeftNone();
    assert out[0..] == out[..];
  }

  lemma LeftAll(v: nat)
    requires v > 0
    ensures Left(v) == Dec(v)
  {}

  lemma LeftNone()
    ensures Left(0) == ""
  {}

  /** What is still to be written. */
  function Left(v: nat): string { if v == 0 then "" else Dec(v) }

  lemma LeftNext(v: nat)
    requires v > 0
    ensures Left(v) == Left(v / 10) + [Digit(v % 10)]
  {}

  method CountDigits(v: nat) returns (len: nat)
    requires v > 0
    ensures len == |Dec(v)|
  {
    var n := v;
    len := 0;
    while n != 0
      invariant len + (if n == 0 then 0 else DecLen(n)) == DecLen(v)
    {
      len := len + 1;
      n := n / 10;
    }
  }

  // ---- hexadecimal -------------------------------------------------------------------------------------------

  function Pow256(n: nat): (p: nat)
    ensures p > 0
  {
    if n == 0 then 1 else 256 * Pow256(n - 1)
  }

  /** The two lower-case digits of a byte. */
  function Pair(b: nat): (s: string)
    requires b < 256
    ensures |s| == 2
  {
    [ALPHABET[b / 16], ALPHABET[b % 16]]
  }

  predicate HexText(s: string) {
    forall i :: 0 <= i < |s| ==> HexChar(s[i])
  }

  predicate HexChar(c: char) { '0' <= c <= '9' || 'a' <= c <= 'f' }

  function Nibble(c: char): (d: nat)
    requires HexChar(c)
    ensures d < 16 && ALPHABET[d] == c
  {
    if c <= '9' then c as nat - '0' as nat else c as nat - 'a' as nat + 10
  }

  function PairValue(x: char, y: char): (b: nat)
    requires HexChar(x) && HexChar(y)
    ensures b < 256
  {
    16 * Nibble(x) + Nibble(y)
  }

  lemma NibbleBack(d: nat)
    requires d < 16
    ensures HexChar(ALPHABET[d]) && Nibble(ALPHABET[d]) == d
  {
    if d < 10 { assert ALPHABET[d] == '0' + d as char; } else { assert ALPHABET[d] == 'a' + (d - 10) as char; }
  }

  /** A byte and its two digits determine each other. */
  lemma PairReads(b: nat)
    requires b < 256
    ensures HexChar(Pair(b)[0]) && HexChar(Pair(b)[1]) && PairValue(Pair(b)[0], Pair(b)[1]) == b
  {
    NibbleBack(b / 16);
    NibbleBack(b % 16);
  }

  lemma PairWrites(x: char, y: char)
    requires HexChar(x) && HexChar(y)
    ensures Pair(PairValue(x, y)) == [x, y]
  {
    var b := PairValue(x, y);
    assert b / 16 == Nibble(x) && b % 16 == Nibble(y);
  }

  /** The low n bytes of v, most significant first. */
  function Hex(n: nat, v: nat): (s: string)
    ensures |s| == 2 * n
  {
    if n == 0 then "" else Hex(n - 1, v / 256) + Pair(v % 256)
  }

  function Value(s: string): nat
    requires HexText(s) && |s| % 2 == 0
  {
    if s == [] then 0 else 256 * Value(s[..|s| - 2]) + PairValue(s[|s| - 2], s[|s| - 1])
  }

  /** n bytes of v are read back, as long as they hold it. */
  lemma {:induction false} HexReads(n: nat, v: nat)
    requires v < Pow256(n)
    ensures HexText(Hex(n, v)) && Value(Hex(n, v)) == v
  {
    hide Pair, PairValue, HexChar;
    if n == 0 {
    } else {
      HexReads(n - 1, v / 256);
      PairReads(v % 256);
      var s := Hex(n, v);
      assert s[..|s| - 2] == Hex(n - 1, v / 256);
      assert s[|s| - 2] == Pair(v % 256)[0] && s[|s| - 1] == Pair(v % 256)[1];
      assert v == 256 * (v / 256) + v % 256;
    }
  }

  lemma HexStep(n: nat, u: nat, b: nat)
    requires n > 0 && b < 256
    ensures Hex(n, 256 * u + b) == Hex(n - 1, u) + Pair(b)
    ensures u < Pow256(n - 1) ==> 256 * u + b < Pow256(n)
  {
    assert (256 * u + b) / 256 == u && (256 * u + b) % 256 == b;
  }

  /** And every text of 2n lower-case digits is the text of its value. */
  lemma {:induction false} HexWrites(n: nat, s: string)
    requires HexText(s) && |s| == 2 * n
    ensures Value(s) < Pow256(n) && Hex(n, Value(s)) == s
  {
    hide Pair, PairValue, HexChar, Hex, Pow256;
    if n > 0 {
      var u, x, y := s[..|s| - 2], s[|s| - 2], s[|s| - 1];
      assert HexText(u);
      HexWrites(n - 1, u);
      PairWrites(x, y);
      HexStep(n, Value(u), PairValue(x, y));
      assert s == u + [x, y];
    } else {
      HexNone(0);
      PowNone();
    }
  }

  lemma {:induction false} MulLe(a: nat, b: nat, p: nat)
    requires a <= b
    ensures a * p <= b * p
  {}

  lemma Quotient(v: nat, d: nat, a: nat)
    requires d > 0 && a * d <= v < (a + 1) * d
    ensures v / d == a
  {
    var q := v / d;
    assert q * d <= v < (q + 1) * d;
    if q + 1 <= a { MulLe(q + 1, a, d); }
    if a + 1 <= q { MulLe(a + 1, q, d); }
  }

  lemma Regroup(a: nat, b: nat, p: nat)
    ensures (b * a) * p == a * (b * p)
  {}

  lemma DivTwice(v: nat, p: nat)
    requires p > 0
    ensures v / p / 256 == v / (256 * p)
  {
    var q := v / p;
    var a := q / 256;
    MulLe(256 * a, q, p);
    MulLe(q + 1, 256 * (a + 1), p);
    Regroup(a, 256, p);
    Regroup(a + 1, 256, p);
    DivBounds(v, p);
    Quotient(v, 256 * p, a);
  }

  lemma DivBounds(v: nat, p: nat)
    requires p > 0
    ensures (v / p) * p <= v < (v / p + 1) * p
  {}

  /** v >> 8n. */
  function Shifted(v: nat, n: nat): nat { Div(v, Pow256(n)) }

  function Div(v: nat, p: nat): nat
    requires p > 0
  {
    v / p
  }

  lemma PowDiv(v: nat, n: nat)
    ensures Shifted(v, n) / 256 == Shifted(v, n + 1)
  {
    DivTwice(v, Pow256(n));
    PowNext(n);
  }

  lemma PowNext(n: nat)
    ensures Pow256(n + 1) == 256 * Pow256(n)
  {}

  /** _hex: byte i is (v >> 8 * (19 - i)), its two nibbles looked up. */
  method HexOf(a: nat) returns (out: array<char>)
    requires a < Pow256(20)
    ensures fresh(out) && out[..] == Hex(20, a)
  {
    hide Hex, Pow256, Pair, Shifted;
    out := new char[40](_ => '0');
    HexNone(Shifted(a, 20));
    assert Hex(0, Shifted(a, 20)) == out[..0];
    for i := 0 to 20
      invariant out.Length == 40
      invariant out[..2 * i] == Hex(i, Shifted(a, 20 - i))
    {
      var w := Shifted(a, 19 - i);
      PowDiv(a, 19 - i);
      var b := w % 256;
      PairText(b);
      ghost var was := out[..2 * i];
      out[2 * i] := ALPHABET[b / 16];
      out[2 * i + 1] := ALPHABET[b % 16];
      assert out[..2 * (i + 1)] == was + [ALPHABET[b / 16], ALPHABET[b % 16]];
      HexNext(i, w);
    }
    assert out[..40] == out[..];
    assert Shifted(a, 0) == a by { PowNone(); }
  }

  lemma PairText(b: nat)
    requires b < 256
    ensures Pair(b) == [ALPHABET[b / 16], ALPHABET[b % 16]]
  {}

  lemma HexNone(v: nat)
    ensures Hex(0, v) == ""
  {}

  lemma PowNone()
    ensures Pow256(0) == 1 && forall v :: Shifted(v, 0) == v
  {}

  lemma HexNext(n: nat, v: nat)
    ensures Hex(n + 1, v) == Hex(n, v / 256) + Pair(v % 256)
  {}

  // ---- the message ---------------------------------------------------------------------------------------------

  function BindingMessage(chainId: nat, addr: nat, epoch: nat): string {
    "webway-bind:" + Dec(chainId) + ":0x" + Hex(20, addr) + ":" + Dec(epoch)
  }

  /** bindingMessage on chain. */
  method ContractMessage(chainId: nat, addr: nat, epoch: nat) returns (m: string)
    requires addr < Pow256(20)
    ensures m == BindingMessage(chainId, addr, epoch)
  {
    var c := DecText(chainId);
    var a := HexOf(addr);
    var e := DecText(epoch);
    m := "webway-bind:" + c[..] + ":0x" + a[..] + ":" + e[..];
  }

  function LowerHex(c: char): char { if 'A' <= c <= 'F' then c - 'A' + 'a' else c }

  function Lower(s: string): (t: string)
    ensures |t| == |s| && forall i :: 0 <= i < |s| ==> t[i] == LowerHex(s[i])
  {
    seq(|s|, i requires 0 <= i < |s| => LowerHex(s[i]))
  }

  /** An address as text: 0x and forty hexadecimal digits of either case. */
  predicate AddressText(s: string) {
    |s| == 42 && s[0] == '0' && s[1] == 'x' && HexText(Lower(s[2..]))
  }

  function AddressOf(s: string): nat
    requires AddressText(s)
  {
    Value(Lower(s[2..]))
  }

  const MAX_SAFE: nat := 0x1F_FFFF_FFFF_FFFF
  const MAX_U64: nat := 0xFFFF_FFFF_FFFF_FFFF

  /** bindingMessage of the client; None when it throws. */
  function ClientMessage(chainId: nat, address: string, epoch: nat): Option<string> {
    if !(0 < chainId <= MAX_SAFE) || epoch > MAX_U64 || !AddressText(address) then None
    else Some("webway-bind:" + Dec(chainId) + ":" + Lower(address) + ":" + Dec(epoch))
  }

  /** The client signs exactly what the contract verifies, in whatever case the address is spelled. */
  lemma ClientAgrees(chainId: nat, address: string, epoch: nat)
    requires ClientMessage(chainId, address, epoch).Some?
    ensures ClientMessage(chainId, address, epoch).value == BindingMessage(chainId, AddressOf(address), epoch)
  {
    var digits := Lower(address[2..]);
    assert Hex(20, AddressOf(address)) == digits by { HexWrites(20, digits); }
    LowerAddress(address);
    hide Hex, Dec, Value, AddressText, Lower;
    Assemble("webway-bind:", Dec(chainId), Lower(address), digits, Dec(epoch));
  }

  /** The digits in either case. */
  predicate SameHex(c: char, d: char) { c == d || ('A' <= c <= 'F' && d as int == c as int + 32) }

  /** For every chain, epoch and account, in whatever case its address is spelled, the client signs what is verified. */
  lemma ClientSigns(chainId: nat, addr: nat, address: string, epoch: nat)
    requires 0 < chainId < 0x20_0000_0000_0000 && epoch < 0x1_0000_0000_0000_0000 && addr < Pow256(20)
    requires |address| == 42 && address[0] == '0' && address[1] == 'x'
    requires |Hex(20, addr)| == 40 && forall k :: 0 <= k < 40 ==> SameHex(address[k + 2], Hex(20, addr)[k])
    ensures ClientMessage(chainId, address, epoch) == Some(BindingMessage(chainId, addr, epoch))
  {
    var digits := Hex(20, addr);
    HexReads(20, addr);
    hide Hex, Dec, Value, Pow256, HexChar, SameHex, BindingMessage;
    SpelledHex(address, digits);
    assert AddressText(address) && AddressOf(address) == addr;
    hide Lower, AddressText, AddressOf;
    ClientAgrees(chainId, address, epoch);
  }

  lemma SpelledHex(address: string, digits: string)
    requires |address| == 42 && |digits| == 40 && HexText(digits)
    requires forall k :: 0 <= k < 40 ==> SameHex(address[k + 2], digits[k])
    ensures Lower(address[2..]) == digits
  {
    var t := Lower(address[2..]);
    forall k | 0 <= k < 40 ensures t[k] == digits[k] {
      assert HexChar(digits[k]) && SameHex(address[k + 2], digits[k]);
    }
  }

  lemma LowerAddress(address: string)
    requires AddressText(address)
    ensures Lower(address) == "0x" + Lower(address[2..])
  {}

  lemma Assemble(p: string, c: string, l: string, d: string, e: string)
    requires l == "0x" + d
    ensures p + c + ":" + l + ":" + e == p + c + ":0x" + d + ":" + e
  {
    var q := p + c;
    assert q + ":" + ("0x" + d) == q + ":0x" + d;
  }

  /** A text without colons ends at the first one. */
  lemma FirstColon(x: string, u: string, y: string, w: string)
    requires Digits(x) && Digits(y) && x + ":" + u == y + ":" + w
    ensures x == y && u == w
  {
    var s, t := x + ":" + u, y + ":" + w;
    assert s[|x|] == ':' && t[|y|] == ':';
    assert forall i :: 0 <= i < |x| ==> s[i] == x[i];
    assert forall i :: 0 <= i < |y| ==> t[i] == y[i];
    assert |x| == |y|;
    assert s[..|x|] == x && t[..|y|] == y;
    assert s[|x| + 1..] == u && t[|y| + 1..] == w;
  }

  /** Equal messages name the same chain, the same account and the same epoch. */
  lemma MessageInjective(c: nat, a: nat, e: nat, c': nat, a': nat, e': nat)
    requires a < Pow256(20) && a' < Pow256(20) && BindingMessage(c, a, e) == BindingMessage(c', a', e')
    ensures c == c' && a == a' && e == e'
  {
    hide Hex, Dec, Number, Value;
    var m := BindingMessage(c, a, e);
    var tail := "0x" + Hex(20, a) + ":" + Dec(e);
    var tail' := "0x" + Hex(20, a') + ":" + Dec(e');
    MessageParts(c, a, e);
    MessageParts(c', a', e');
    assert m[12..] == Dec(c) + ":" + tail == Dec(c') + ":" + tail';
    DecCanonical(c);
    DecCanonical(c');
    FirstColon(Dec(c), tail, Dec(c'), tail');
    assert tail[2..42] == Hex(20, a) && tail'[2..42] == Hex(20, a');
    assert tail[43..] == Dec(e) && tail'[43..] == Dec(e');
    HexReads(20, a);
    HexReads(20, a');
    DecCanonical(e);
    DecCanonical(e');
  }

  lemma MessageParts(c: nat, a: nat, e: nat)
    ensures BindingMessage(c, a, e)[12..] == Dec(c) + ":" + ("0x" + Hex(20, a) + ":" + Dec(e))
  {
    var p := "webway-bind:";
    var d, h, f := Dec(c), Hex(20, a), Dec(e);
    assert |p| == 12;
    assert p + d + ":0x" + h + ":" + f == p + (d + ":" + ("0x" + h + ":" + f)) by {
      assert ":0x" == ":" + "0x";
    }
  }

  // ---- the message as bytes -------------------------------------------------------------------------------------

  predicate Ascii(s: string) {
    forall i :: 0 <= i < |s| ==> s[i] as int < 128
  }

  function CharBytes(s: string): (b: seq<byte>)
    ensures |b| == |s| && forall i :: 0 <= i < |s| ==> b[i] == s[i] as int % 256
  {
    seq(|s|, i requires 0 <= i < |s| => s[i] as int % 256)
  }

  /** The bytes that are signed. */
  function MessageBytes(chainId: nat, addr: nat, epoch: nat): seq<byte> {
    CharBytes(BindingMessage(chainId, addr, epoch))
  }

  lemma CharBytesInjective(s: string, t: string)
    requires Ascii(s) && Ascii(t) && CharBytes(s) == CharBytes(t)
    ensures s == t
  {
    assert |s| == |CharBytes(s)| == |t|;
    forall i | 0 <= i < |s| ensures s[i] == t[i] {
      assert CharBytes(s)[i] == CharBytes(t)[i];
    }
  }

  lemma {:induction false} HexAscii(n: nat, v: nat)
    ensures Ascii(Hex(n, v))
  {
    if n == 0 {
      HexNone(v);
    } else {
      HexAscii(n - 1, v / 256);
      HexNext(n - 1, v);
      PairAscii(v % 256);
      hide Hex, Pair;
    }
  }

  lemma PairAscii(b: nat)
    requires b < 256
    ensures Ascii(Pair(b))
  {}

  lemma DecAscii(v: nat)
    ensures Ascii(Dec(v))
  {
    DecCanonical(v);
    assert Digits(Dec(v));
  }

  lemma MessageAscii(chainId: nat, addr: nat, epoch: nat)
    ensures Ascii(BindingMessage(chainId, addr, epoch))
  {
    DecAscii(chainId);
    HexAscii(20, addr);
    DecAscii(epoch);
    hide Dec, Hex;
  }

  /** So equal bytes name the same chain, account and epoch too. */
  lemma MessageBytesInjective(c: nat, a: nat, e: nat, c': nat, a': nat, e': nat)
    requires a < Pow256(20) && a' < Pow256(20) && MessageBytes(c, a, e) == MessageBytes(c', a', e')
    ensures c == c' && a == a' && e == e'
  {
    hide BindingMessage, CharBytes;
    MessageAscii(c, a, e);
    MessageAscii(c', a', e');
    CharBytesInjective(BindingMessage(c, a, e), BindingMessage(c', a', e'));
    MessageInjective(c, a, e, c', a', e');
  }

  /** The first byte of every binding message, 'w'. */
  const BINDING_MARK: byte := 119

  lemma MessageBegins(chainId: nat, addr: nat, epoch: nat)
    ensures var m := MessageBytes(chainId, addr, epoch); m != [] && m[0] == BINDING_MARK
  {
    var s := BindingMessage(chainId, addr, epoch);
    hide Dec, Hex;
    assert s[0] == 'w';
  }
}
