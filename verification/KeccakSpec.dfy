// The Keccak-f[1600] permutation as FIPS 202 section 3.2 and 3.3 define it, on 25 lanes:
// lane (x, y) is entry 5 * y + x.
module KeccakSpec {

  type Lanes = s: seq<bv64> | |s| == 25 witness seq(25, _ => 0)

  function Xor(a: bv64, b: bv64): bv64 {
    a ^ b
  }

  function AndNot(a: bv64, b: bv64): bv64 {
    !a & b
  }

  // (v << n) | (v >> (64 - n)), one constant distance at a time.
  function RotateLeft(v: bv64, n: nat): bv64
    requires n < 64
  {
    match n
    case 0 => v case 1 => (v << 1) | (v >> 63) case 2 => (v << 2) | (v >> 62) case 3 => (v << 3) | (v >> 61)
    case 4 => (v << 4) | (v >> 60) case 5 => (v << 5) | (v >> 59) case 6 => (v << 6) | (v >> 58)
    case 7 => (v << 7) | (v >> 57) case 8 => (v << 8) | (v >> 56) case 9 => (v << 9) | (v >> 55)
    case 10 => (v << 10) | (v >> 54) case 11 => (v << 11) | (v >> 53) case 12 => (v << 12) | (v >> 52)
    case 13 => (v << 13) | (v >> 51) case 14 => (v << 14) | (v >> 50) case 15 => (v << 15) | (v >> 49)
    case 16 => (v << 16) | (v >> 48) case 17 => (v << 17) | (v >> 47) case 18 => (v << 18) | (v >> 46)
    case 19 => (v << 19) | (v >> 45) case 20 => (v << 20) | (v >> 44) case 21 => (v << 21) | (v >> 43)
    case 22 => (v << 22) | (v >> 42) case 23 => (v << 23) | (v >> 41) case 24 => (v << 24) | (v >> 40)
    case 25 => (v << 25) | (v >> 39) case 26 => (v << 26) | (v >> 38) case 27 => (v << 27) | (v >> 37)
    case 28 => (v << 28) | (v >> 36) case 29 => (v << 29) | (v >> 35) case 30 => (v << 30) | (v >> 34)
    case 31 => (v << 31) | (v >> 33) case 32 => (v << 32) | (v >> 32) case 33 => (v << 33) | (v >> 31)
    case 34 => (v << 34) | (v >> 30) case 35 => (v << 35) | (v >> 29) case 36 => (v << 36) | (v >> 28)
    case 37 => (v << 37) | (v >> 27) case 38 => (v << 38) | (v >> 26) case 39 => (v << 39) | (v >> 25)
    case 40 => (v << 40) | (v >> 24) case 41 => (v << 41) | (v >> 23) case 42 => (v << 42) | (v >> 22)
    case 43 => (v << 43) | (v >> 21) case 44 => (v << 44) | (v >> 20) case 45 => (v << 45) | (v >> 19)
    case 46 => (v << 46) | (v >> 18) case 47 => (v << 47) | (v >> 17) case 48 => (v << 48) | (v >> 16)
    case 49 => (v << 49) | (v >> 15) case 50 => (v << 50) | (v >> 14) case 51 => (v << 51) | (v >> 13)
    case 52 => (v << 52) | (v >> 12) case 53 => (v << 53) | (v >> 11) case 54 => (v << 54) | (v >> 10)
    case 55 => (v << 55) | (v >> 9) case 56 => (v << 56) | (v >> 8) case 57 => (v << 57) | (v >> 7)
    case 58 => (v << 58) | (v >> 6) case 59 => (v << 59) | (v >> 5) case 60 => (v << 60) | (v >> 4)
    case 61 => (v << 61) | (v >> 3) case 62 => (v << 62) | (v >> 2) case _ => (v << 63) | (v >> 1)
  }

  // ---- theta ----

  function Column(s: Lanes, x: int): bv64
    requires 0 <= x < 5
  {
    Xor(Xor(Xor(Xor(s[x], s[x + 5]), s[x + 10]), s[x + 15]), s[x + 20])
  }

  function Delta(s: Lanes, x: int): bv64
    requires 0 <= x < 5
  {
    Xor(Column(s, (x + 4) % 5), RotateLeft(Column(s, (x + 1) % 5), 1))
  }

  function Theta(s: Lanes): Lanes {
    seq(25, k requires 0 <= k < 25 => Xor(s[k], Delta(s, k % 5)))
  }

  // ---- rho and pi ----

  // The offsets of FIPS 202 table 2, modulo 64.
  function RhoOffset(k: int): (n: nat)
    requires 0 <= k < 25
    ensures n < 64
  {
    match k
    case 0 => 0 case 1 => 1 case 2 => 62 case 3 => 28 case 4 => 27
    case 5 => 36 case 6 => 44 case 7 => 6 case 8 => 55 case 9 => 20
    case 10 => 3 case 11 => 10 case 12 => 43 case 13 => 25 case 14 => 39
    case 15 => 41 case 16 => 45 case 17 => 15 case 18 => 21 case 19 => 8
    case 20 => 18 case 21 => 2 case 22 => 61 case 23 => 56 case _ => 14
  }

  function Rho(s: Lanes): Lanes {
    seq(25, k requires 0 <= k < 25 => RotateLeft(s[k], RhoOffset(k)))
  }

  // Lane (x, y) comes from lane (x + 3y, x).
  function PiSource(k: int): (j: int)
    requires 0 <= k < 25
    ensures 0 <= j < 25
  {
    var x, y := k % 5, k / 5;
    5 * x + (x + 3 * y) % 5
  }

  function Pi(s: Lanes): Lanes {
    seq(25, k requires 0 <= k < 25 => s[PiSource(k)])
  }

  // The walk of FIPS 202 section 3.2.2: (1, 0), then (x, y) -> (y, 2x + 3y).
  function Orbit(t: nat): (p: (int, int))
    ensures 0 <= p.0 < 5 && 0 <= p.1 < 5
  {
    if t == 0 then (1, 0) else var (x, y) := Orbit(t - 1); (y, (2 * x + 3 * y) % 5)
  }

  function OrbitLane(t: nat): (k: int)
    ensures 0 <= k < 25
  {
    5 * Orbit(t).1 + Orbit(t).0
  }

  // ---- chi and iota ----

  // Lane x of the row that starts at entry row.
  function ChiLane(s: Lanes, row: int, x: int): bv64
    requires 0 <= row <= 20 && 0 <= x < 5
  {
    Xor(s[row + x], AndNot(s[row + (x + 1) % 5], s[row + (x + 2) % 5]))
  }

  function Chi(s: Lanes): Lanes {
    seq(25, k requires 0 <= k < 25 => ChiLane(s, k / 5 * 5, k % 5))
  }

  function Iota(s: Lanes, rc: bv64): Lanes {
    s[0 := Xor(s[0], rc)]
  }

  function Round(s: Lanes, rc: bv64): Lanes {
    Iota(Chi(Pi(Rho(Theta(s)))), rc)
  }

  const ROUND_CONSTANTS: seq<bv64> := [
    0x0000000000000001, 0x0000000000008082, 0x800000000000808a, 0x8000000080008000,
    0x000000000000808b, 0x0000000080000001, 0x8000000080008081, 0x8000000000008009,
    0x000000000000008a, 0x0000000000000088, 0x0000000080008009, 0x000000008000000a,
    0x000000008000808b, 0x800000000000008b, 0x8000000000008089, 0x8000000000008003,
    0x8000000000008002, 0x8000000000000080, 0x000000000000800a, 0x800000008000000a,
    0x8000000080008081, 0x8000000000008080, 0x0000000080000001, 0x8000000080008008]

  function RoundConstant(i: nat): bv64
    requires i < ROUNDS
  {
    assert |ROUND_CONSTANTS| == 24;
    ROUND_CONSTANTS[i]
  }

  const ROUNDS: nat := 24

  function Rounds(s: Lanes, n: nat): Lanes
    requires n <= ROUNDS
  {
    if n == 0 then s else Round(Rounds(s, n - 1), RoundConstant(n - 1))
  }

  function Permutation(s: Lanes): Lanes {
    Rounds(s, ROUNDS)
  }

  // ---- the tables agree ----

  function RotationOffset(i: nat): (n: nat)
    requires i < 24
    ensures n < 64
  {
    match i
    case 0 => 1 case 1 => 3 case 2 => 6 case 3 => 10 case 4 => 15 case 5 => 21 case 6 => 28 case 7 => 36
    case 8 => 45 case 9 => 55 case 10 => 2 case 11 => 14 case 12 => 27 case 13 => 41 case 14 => 56 case 15 => 8
    case 16 => 25 case 17 => 43 case 18 => 62 case 19 => 18 case 20 => 39 case 21 => 61 case 22 => 20 case _ => 44
  }

  function PermutationIndex(i: nat): (k: nat)
    requires i < 24
    ensures 0 < k < 25
  {
    match i
    case 0 => 10 case 1 => 7 case 2 => 11 case 3 => 17 case 4 => 18 case 5 => 3 case 6 => 5 case 7 => 16
    case 8 => 8 case 9 => 21 case 10 => 24 case 11 => 4 case 12 => 15 case 13 => 23 case 14 => 19 case 15 => 13
    case 16 => 12 case 17 => 2 case 18 => 20 case 19 => 14 case 20 => 22 case 21 => 9 case 22 => 6 case _ => 1
  }

  // The step of the walk that writes lane k.
  function StepOf(k: nat): (i: nat)
    requires 0 < k < 25
    ensures i < 24
  {
    match k
    case 10 => 0 case 7 => 1 case 11 => 2 case 17 => 3 case 18 => 4 case 3 => 5 case 5 => 6 case 16 => 7
    case 8 => 8 case 21 => 9 case 24 => 10 case 4 => 11 case 15 => 12 case 23 => 13 case 19 => 14 case 13 => 15
    case 12 => 16 case 2 => 17 case 20 => 18 case 14 => 19 case 22 => 20 case 9 => 21 case 6 => 22 case _ => 23
  }

  // The lane read by step i.
  function WalkSource(i: nat): (k: nat)
    requires i <= 24
    ensures 0 < k < 25
  {
    if i == 0 then 1 else PermutationIndex(i - 1)
  }

  lemma WalkIsPermutation(i: nat)
    requires i < 24
    ensures StepOf(PermutationIndex(i)) == i
  {}

  lemma WalkCovers(k: nat)
    requires 0 < k < 25
    ensures PermutationIndex(StepOf(k)) == k
  {}

  // Each step moves the lane that pi moves there, rotated as rho rotates it.
  lemma WalkIsRhoPi(i: nat)
    requires i < 24
    ensures PiSource(PermutationIndex(i)) == WalkSource(i)
    ensures RhoOffset(WalkSource(i)) == RotationOffset(i)
  {}

  // The walk is the one of FIPS 202 section 3.2.2, with its triangular offsets.
  lemma {:induction false} WalkIsOrbit(t: nat)
    requires t <= 24
    ensures WalkSource(t) == OrbitLane(t)
    ensures t < 24 ==> RotationOffset(t) == (t + 1) * (t + 2) / 2 % 64
  {
    hide *;
    if t < 24 {
      TriangularOffset(t);
    }
    if t > 0 {
      WalkIsOrbit(t - 1);
      WalkStep(t - 1);
      OrbitStep(t - 1);
    } else {
      OrbitStart();
    }
  }

  lemma OrbitStart()
    ensures OrbitLane(0) == 1 == WalkSource(0)
  {}

  lemma OrbitStep(t: nat)
    ensures OrbitLane(t + 1) == NextLane(OrbitLane(t))
  {
    var (x, y) := Orbit(t);
    assert Orbit(t + 1) == (y, (2 * x + 3 * y) % 5);
    hide Orbit;
    assert OrbitLane(t) % 5 == x && OrbitLane(t) / 5 == y;
  }

  // (x, y) -> (y, 2x + 3y) on lane numbers.
  function NextLane(k: int): int {
    5 * ((2 * (k % 5) + 3 * (k / 5)) % 5) + k / 5
  }

  lemma WalkStep(i: nat)
    requires i < 24
    ensures WalkSource(i + 1) == NextLane(WalkSource(i))
  {
    if i < 12 { WalkStepLow(i); } else { WalkStepHigh(i); }
  }

  lemma WalkStepLow(i: nat)
    requires i < 12
    ensures WalkSource(i + 1) == NextLane(WalkSource(i))
  {}

  lemma WalkStepHigh(i: nat)
    requires 12 <= i < 24
    ensures WalkSource(i + 1) == NextLane(WalkSource(i))
  {}

  lemma TriangularOffset(t: nat)
    requires t < 24
    ensures RotationOffset(t) == (t + 1) * (t + 2) / 2 % 64
  {
    if t < 8 { TriangularLow(t); } else if t < 16 { TriangularMiddle(t); } else { TriangularHigh(t); }
  }

  lemma TriangularLow(t: nat)
    requires t < 8
    ensures RotationOffset(t) == (t + 1) * (t + 2) / 2 % 64
  {}

  lemma TriangularMiddle(t: nat)
    requires 8 <= t < 16
    ensures RotationOffset(t) == (t + 1) * (t + 2) / 2 % 64
  {}

  lemma TriangularHigh(t: nat)
    requires 16 <= t < 24
    ensures RotationOffset(t) == (t + 1) * (t + 2) / 2 % 64
  {}
}
