/** The constants of contracts/src/Ed25519.sol and the EVM's modular arithmetic. */
module Ed25519Field {
  import opened Modular
  import opened EdwardsCurve
  import opened EdwardsGroup

  const P: nat := 0x7fffffffffffffffffffffffffffffffffffffffffffffffffffffffffffffed
  const D: nat := 37095705934669439343138083508754565189542113879843219016388785533085940283555
  const D2: nat := 16295367250680780974490674513165176452449235426866156013048779062215315747161
  const I: nat := 19681161376707505956807079304988542015446066515923890162744021073123829784752
  const L: nat := 7237005577332262213973186563042994240857116359379907606001950938285454250989
  const TWO256_MOD_L: nat := 7237005577332262213973186563042994240413239274941949949428319933631315875101
  const PM5D8: nat := 7237005577332262213973186563042994240829374041602535252466099000494570602493
  const BX: nat := 15112221349535400772501151409588531511454012693041857206046113283949847762202
  const BY: nat := 46316835694926478169428394003475163141307993866256225615783033603165251855960

  const TWO253: nat := 0x2000000000000000000000000000000000000000000000000000000000000000
  const TWO255: nat := 4 * TWO253
  const TWO256: nat := 8 * TWO253

  const CURVE25519 := Curve(P, D)

  function MulMod(a: nat, b: nat, m: nat): nat
    requires m > 0
  {
    (a * b) % m
  }

  function AddMod(a: nat, b: nat, m: nat): nat
    requires m > 0
  {
    (a + b) % m
  }

  lemma Constants()
    ensures P == TWO255 - 19 && CURVE25519.Valid()
    ensures D * 121666 % P == P - 121665 && D2 == 2 * D % P
    ensures I * I % P == P - 1 && 8 * PM5D8 == P - 5
    ensures 2 * 2 * 2 < L < TWO253 && TWO256 % L == TWO256_MOD_L
    ensures BX < P && BY < P
    ensures 5 * BY % P == 4
    ensures (BY * BY - BX * BX) % P == (1 + D * ((BX * BY) * (BX * BY))) % P
  {
    CurveConstants();
    OrderConstants();
    BasePoint();
  }

  lemma CurveConstants()
    ensures P == TWO255 - 19 && CURVE25519.Valid()
    ensures D * 121666 % P == P - 121665 && D2 == 2 * D % P
    ensures I * I % P == P - 1 && 8 * PM5D8 == P - 5
  {}

  lemma OrderConstants()
    ensures 2 * 2 * 2 < L < TWO253 && TWO256 % L == TWO256_MOD_L
  {}

  lemma BasePoint()
    ensures BX < P && BY < P
    ensures 5 * BY % P == 4
    ensures (BY * BY - BX * BX) % P == (1 + D * ((BX * BY) * (BX * BY))) % P
  {}
}
