/** The constants of SHA-512 are what sections 4.2.3 and 5.3.5 of FIPS 180-4 derive them from. */
module Sha512Tables {
  import opened Sha512Spec

  /** The first eighty primes. */
  function Prime(t: nat): nat
    requires t < 80
  {
    match t / 8
    case 0 =>
      (match t % 8
       case 0 => 2 case 1 => 3 case 2 => 5 case 3 => 7 case 4 => 11 case 5 => 13 case 6 => 17 case _ => 19)
    case 1 =>
      (match t % 8
       case 0 => 23 case 1 => 29 case 2 => 31 case 3 => 37 case 4 => 41 case 5 => 43 case 6 => 47 case _ => 53)
    case 2 =>
      (match t % 8
       case 0 => 59 case 1 => 61 case 2 => 67 case 3 => 71 case 4 => 73 case 5 => 79 case 6 => 83 case _ => 89)
    case 3 =>
      (match t % 8
       case 0 => 97 case 1 => 101 case 2 => 103 case 3 => 107 case 4 => 109 case 5 => 113 case 6 => 127 case _ => 131)
    case 4 =>
      (match t % 8
       case 0 => 137 case 1 => 139 case 2 => 149 case 3 => 151 case 4 => 157 case 5 => 163 case 6 => 167 case _ => 173)
    case 5 =>
      (match t % 8
       case 0 => 179 case 1 => 181 case 2 => 191 case 3 => 193 case 4 => 197 case 5 => 199 case 6 => 211 case _ => 223)
    case 6 =>
      (match t % 8
       case 0 => 227 case 1 => 229 case 2 => 233 case 3 => 239 case 4 => 241 case 5 => 251 case 6 => 257 case _ => 263)
    case 7 =>
      (match t % 8
       case 0 => 269 case 1 => 271 case 2 => 277 case 3 => 281 case 4 => 283 case 5 => 293 case 6 => 307 case _ => 311)
    case 8 =>
      (match t % 8
       case 0 => 313 case 1 => 317 case 2 => 331 case 3 => 337 case 4 => 347 case 5 => 349 case 6 => 353 case _ => 359)
    case _ =>
      (match t % 8
       case 0 => 367 case 1 => 373 case 2 => 379 case 3 => 383 case 4 => 389 case 5 => 397 case 6 => 401 case _ => 409)
  }

  /** k is the first 64 fractional bits of the cube root of n, c its integer part. */
  predicate CubeRootBits(k: nat, c: nat, n: nat) {
    var r := c * 0x1_0000_0000_0000_0000 + k;
    && r * r * r <= n * 0x1_0000_0000_0000_0000 * 0x1_0000_0000_0000_0000 * 0x1_0000_0000_0000_0000
    && n * 0x1_0000_0000_0000_0000 * 0x1_0000_0000_0000_0000 * 0x1_0000_0000_0000_0000 < (r + 1) * (r + 1) * (r + 1)
  }

  function CubeFloor(n: nat): nat {
    if n < 8 then 1 else if n < 27 then 2 else if n < 64 then 3 else if n < 125 then 4
    else if n < 216 then 5 else if n < 343 then 6 else 7
  }

  lemma CubeRootsFrom0(t: nat)
    requires 0 <= t < 5
    ensures CubeRootBits(Constant(t), CubeFloor(Prime(t)), Prime(t))
  {
    match t { case 0 => case 1 => case 2 => case 3 => case 4 => case _ => }
  }

  lemma CubeRootsFrom5(t: nat)
    requires 5 <= t < 10
    ensures CubeRootBits(Constant(t), CubeFloor(Prime(t)), Prime(t))
  {
    match t { case 5 => case 6 => case 7 => case 8 => case 9 => case _ => }
  }

  lemma CubeRootsFrom10(t: nat)
    requires 10 <= t < 15
    ensures CubeRootBits(Constant(t), CubeFloor(Prime(t)), Prime(t))
  {
    match t { case 10 => case 11 => case 12 => case 13 => case 14 => case _ => }
  }

  lemma CubeRootsFrom15(t: nat)
    requires 15 <= t < 20
    ensures CubeRootBits(Constant(t), CubeFloor(Prime(t)), Prime(t))
  {
    match t { case 15 => case 16 => case 17 => case 18 => case 19 => case _ => }
  }

  lemma CubeRootsFrom20(t: nat)
    requires 20 <= t < 25
    ensures CubeRootBits(Constant(t), CubeFloor(Prime(t)), Prime(t))
  {
    match t { case 20 => case 21 => case 22 => case 23 => case 24 => case _ => }
  }

  lemma CubeRootsFrom25(t: nat)
    requires 25 <= t < 30
    ensures CubeRootBits(Constant(t), CubeFloor(Prime(t)), Prime(t))
  {
    match t { case 25 => case 26 => case 27 => case 28 => case 29 => case _ => }
  }

  lemma CubeRootsFrom30(t: nat)
    requires 30 <= t < 35
    ensures CubeRootBits(Constant(t), CubeFloor(Prime(t)), Prime(t))
  {
    match t { case 30 => case 31 => case 32 => case 33 => case 34 => case _ => }
  }

  lemma CubeRootsFrom35(t: nat)
    requires 35 <= t < 40
    ensures CubeRootBits(Constant(t), CubeFloor(Prime(t)), Prime(t))
  {
    match t { case 35 => case 36 => case 37 => case 38 => case 39 => case _ => }
  }

  lemma CubeRootsFrom40(t: nat)
    requires 40 <= t < 45
    ensures CubeRootBits(Constant(t), CubeFloor(Prime(t)), Prime(t))
  {
    match t { case 40 => case 41 => case 42 => case 43 => case 44 => case _ => }
  }

  lemma CubeRootsFrom45(t: nat)
    requires 45 <= t < 50
    ensures CubeRootBits(Constant(t), CubeFloor(Prime(t)), Prime(t))
  {
    match t { case 45 => case 46 => case 47 => case 48 => case 49 => case _ => }
  }

  lemma CubeRootsFrom50(t: nat)
    requires 50 <= t < 55
    ensures CubeRootBits(Constant(t), CubeFloor(Prime(t)), Prime(t))
  {
    match t { case 50 => case 51 => case 52 => case 53 => case 54 => case _ => }
  }

  lemma CubeRootsFrom55(t: nat)
    requires 55 <= t < 60
    ensures CubeRootBits(Constant(t), CubeFloor(Prime(t)), Prime(t))
  {
    match t { case 55 => case 56 => case 57 => case 58 => case 59 => case _ => }
  }

  lemma CubeRootsFrom60(t: nat)
    requires 60 <= t < 65
    ensures CubeRootBits(Constant(t), CubeFloor(Prime(t)), Prime(t))
  {
    match t { case 60 => case 61 => case 62 => case 63 => case 64 => case _ => }
  }

  lemma CubeRootsFrom65(t: nat)
    requires 65 <= t < 70
    ensures CubeRootBits(Constant(t), CubeFloor(Prime(t)), Prime(t))
  {
    match t { case 65 => case 66 => case 67 => case 68 => case 69 => case _ => }
  }

  lemma CubeRootsFrom70(t: nat)
    requires 70 <= t < 75
    ensures CubeRootBits(Constant(t), CubeFloor(Prime(t)), Prime(t))
  {
    match t { case 70 => case 71 => case 72 => case 73 => case 74 => case _ => }
  }

  lemma CubeRootsFrom75(t: nat)
    requires 75 <= t < 80
    ensures CubeRootBits(Constant(t), CubeFloor(Prime(t)), Prime(t))
  {
    match t { case 75 => case 76 => case 77 => case 78 => case 79 => case _ => }
  }

  /** Every round constant is the fraction of the cube root of the prime of its index. */
  lemma RoundConstants(t: nat)
    requires t < 80
    ensures CubeRootBits(Constant(t), CubeFloor(Prime(t)), Prime(t))
  {
    match t / 5 {
      case 0 => CubeRootsFrom0(t); case 1 => CubeRootsFrom5(t);
      case 2 => CubeRootsFrom10(t); case 3 => CubeRootsFrom15(t);
      case 4 => CubeRootsFrom20(t); case 5 => CubeRootsFrom25(t);
      case 6 => CubeRootsFrom30(t); case 7 => CubeRootsFrom35(t);
      case 8 => CubeRootsFrom40(t); case 9 => CubeRootsFrom45(t);
      case 10 => CubeRootsFrom50(t); case 11 => CubeRootsFrom55(t);
      case 12 => CubeRootsFrom60(t); case 13 => CubeRootsFrom65(t);
      case 14 => CubeRootsFrom70(t); case _ => CubeRootsFrom75(t);
    }
  }

  /** k is the first 64 fractional bits of the square root of n. */
  predicate SquareRootBits(k: nat, n: nat) {
    var c := if n < 4 then 1 else if n < 9 then 2 else if n < 16 then 3 else 4;
    var r := c * 0x1_0000_0000_0000_0000 + k;
    r * r <= n * 0x1_0000_0000_0000_0000 * 0x1_0000_0000_0000_0000 < (r + 1) * (r + 1)
  }

  lemma InitialConstants(i: nat)
    requires i < 8
    ensures SquareRootBits(InitialHash()[i], Prime(i))
  {
    match i {
      case 0 => case 1 => case 2 => case 3 => case 4 => case 5 => case 6 => case 7 => case _ =>
    }
  }
}
