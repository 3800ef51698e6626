// The inverse of every step, and so of the permutation: it is a bijection on states.
module KeccakInverse {
  import opened KeccakSpec
  import opened KeccakRotation
  import opened KeccakBijection

  // ---- rho ----

  lemma Forth1(v: bv64) ensures RotateLeft(RotateLeft(v, 63), 1) == v {}
  lemma Forth2(v: bv64) ensures RotateLeft(RotateLeft(v, 62), 2) == v {}
  lemma Forth3(v: bv64) ensures RotateLeft(RotateLeft(v, 61), 3) == v {}
  lemma Forth6(v: bv64) ensures RotateLeft(RotateLeft(v, 58), 6) == v {}
  lemma Forth8(v: bv64) ensures RotateLeft(RotateLeft(v, 56), 8) == v {}
  lemma Forth10(v: bv64) ensures RotateLeft(RotateLeft(v, 54), 10) == v {}
  lemma Forth14(v: bv64) ensures RotateLeft(RotateLeft(v, 50), 14) == v {}
  lemma Forth15(v: bv64) ensures RotateLeft(RotateLeft(v, 49), 15) == v {}
  lemma Forth18(v: bv64) ensures RotateLeft(RotateLeft(v, 46), 18) == v {}
  lemma Forth20(v: bv64) ensures RotateLeft(RotateLeft(v, 44), 20) == v {}
  lemma Forth21(v: bv64) ensures RotateLeft(RotateLeft(v, 43), 21) == v {}
  lemma Forth25(v: bv64) ensures RotateLeft(RotateLeft(v, 39), 25) == v {}
  lemma Forth27(v: bv64) ensures RotateLeft(RotateLeft(v, 37), 27) == v {}
  lemma Forth28(v: bv64) ensures RotateLeft(RotateLeft(v, 36), 28) == v {}
  lemma Forth36(v: bv64) ensures RotateLeft(RotateLeft(v, 28), 36) == v {}
  lemma Forth39(v: bv64) ensures RotateLeft(RotateLeft(v, 25), 39) == v {}
  lemma Forth41(v: bv64) ensures RotateLeft(RotateLeft(v, 23), 41) == v {}
  lemma Forth43(v: bv64) ensures RotateLeft(RotateLeft(v, 21), 43) == v {}
  lemma Forth44(v: bv64) ensures RotateLeft(RotateLeft(v, 20), 44) == v {}
  lemma Forth45(v: bv64) ensures RotateLeft(RotateLeft(v, 19), 45) == v {}
  lemma Forth55(v: bv64) ensures RotateLeft(RotateLeft(v, 9), 55) == v {}
  lemma Forth56(v: bv64) ensures RotateLeft(RotateLeft(v, 8), 56) == v {}
  lemma Forth61(v: bv64) ensures RotateLeft(RotateLeft(v, 3), 61) == v {}
  lemma Forth62(v: bv64) ensures RotateLeft(RotateLeft(v, 2), 62) == v {}

  function BackOffset(k: int): (n: nat)
    requires 0 <= k < 25
    ensures n < 64
  {
    (64 - RhoOffset(k)) % 64
  }

  lemma RotateForth(v: bv64, k: nat)
    requires k < 25
    ensures RotateLeft(RotateLeft(v, BackOffset(k)), RhoOffset(k)) == v
  {
    hide RotateLeft;
    match RhoOffset(k)
    case 0 => Back0(v);
    case 1 => Forth1(v);
    case 2 => Forth2(v);
    case 3 => Forth3(v);
    case 6 => Forth6(v);
    case 8 => Forth8(v);
    case 10 => Forth10(v);
    case 14 => Forth14(v);
    case 15 => Forth15(v);
    case 18 => Forth18(v);
    case 20 => Forth20(v);
    case 21 => Forth21(v);
    case 25 => Forth25(v);
    case 27 => Forth27(v);
    case 28 => Forth28(v);
    case 36 => Forth36(v);
    case 39 => Forth39(v);
    case 41 => Forth41(v);
    case 43 => Forth43(v);
    case 44 => Forth44(v);
    case 45 => Forth45(v);
    case 55 => Forth55(v);
    case 56 => Forth56(v);
    case 61 => Forth61(v);
    case 62 => Forth62(v);
    case _ =>
  }

  function UnRho(t: Lanes): Lanes {
    seq(25, k requires 0 <= k < 25 => RotateLeft(t[k], BackOffset(k)))
  }

  lemma RhoUnRho(t: Lanes)
    ensures Rho(UnRho(t)) == t
  {
    hide RotateLeft, RhoOffset, BackOffset;
    forall k | 0 <= k < 25
      ensures Rho(UnRho(t))[k] == t[k]
    {
      assert Rho(UnRho(t))[k] == RotateLeft(UnRho(t)[k], RhoOffset(k))
        && UnRho(t)[k] == RotateLeft(t[k], BackOffset(k));
      RotateForth(t[k], k);
    }
  }

  // ---- pi ----

  function UnPi(t: Lanes): Lanes {
    seq(25, k requires 0 <= k < 25 => t[PiTarget(k)])
  }

  lemma PiForth(k: int)
    requires 0 <= k < 25
    ensures PiTarget(PiSource(k)) == k
  {
    hide PermutationIndex, StepOf, PiSource, WalkSource;
    WalkCloses();
    if k > 0 {
      var i := StepOf(k);
      WalkCovers(k);
      WalkIsRhoPi(i);
      WalkIsPermutation(if i == 0 then 23 else i - 1);
    }
  }

  lemma PiUnPi(t: Lanes)
    ensures Pi(UnPi(t)) == t
  {
    forall k | 0 <= k < 25
      ensures Pi(UnPi(t))[k] == t[k]
    {
      PiForth(k);
      hide PiSource, PiTarget;
      assert Pi(UnPi(t))[k] == UnPi(t)[PiSource(k)] && UnPi(t)[PiSource(k)] == t[PiTarget(PiSource(k))];
    }
  }

  // ---- chi ----

  // Lane x of the row before chi.
  function UnChiLane(t: Lanes, row: int, x: int): bv64
    requires 0 <= row <= 20 && 0 <= x < 5
  {
    UnChi(t[row + x], t[row + (x + 1) % 5], t[row + (x + 2) % 5], t[row + (x + 3) % 5], t[row + (x + 4) % 5])
  }

  function UnChiState(t: Lanes): Lanes {
    seq(25, k requires 0 <= k < 25 => UnChiLane(t, k / 5 * 5, k % 5))
  }

  lemma ChiRow(y0: bv64, y1: bv64, y2: bv64, y3: bv64, y4: bv64)
    ensures UnChi(y0, y1, y2, y3, y4) ^ (!UnChi(y1, y2, y3, y4, y0) & UnChi(y2, y3, y4, y0, y1)) == y0
  {}

  lemma ChiBitsForth(y0: bv64, y1: bv64, y2: bv64, y3: bv64, y4: bv64)
    ensures ChiBits(UnChi(y0, y1, y2, y3, y4), UnChi(y1, y2, y3, y4, y0), UnChi(y2, y3, y4, y0, y1)) == y0
  {
    hide ChiBits, UnChi;
    ChiBitsRaw(UnChi(y0, y1, y2, y3, y4), UnChi(y1, y2, y3, y4, y0), UnChi(y2, y3, y4, y0, y1));
    ChiRow(y0, y1, y2, y3, y4);
  }

  lemma ChiLaneOf(s: Lanes, row: int, x: int)
    requires 0 <= row <= 20 && 0 <= x < 5
    ensures ChiLane(s, row, x) == ChiBits(s[row + x], s[row + (x + 1) % 5], s[row + (x + 2) % 5])
  {
    hide Xor, AndNot;
  }

  lemma UnChiAt(t: Lanes, row: int, x: int)
    requires 0 <= row <= 20 && row % 5 == 0 && 0 <= x < 5
    ensures UnChiState(t)[row + x] == UnChiLane(t, row, x)
  {
    hide UnChiLane;
    assert (row + x) / 5 * 5 == row && (row + x) % 5 == x;
  }

  lemma ChiUnChi(t: Lanes)
    ensures Chi(UnChiState(t)) == t
  {
    hide ChiBits, UnChi, ChiLane, UnChiLane, UnChiState;
    var s := UnChiState(t);
    forall k | 0 <= k < 25
      ensures Chi(s)[k] == t[k]
    {
      var row, x := k / 5 * 5, k % 5;
      assert Chi(s)[k] == ChiLane(s, row, x);
      ChiLaneOf(s, row, x);
      UnChiAt(t, row, x); UnChiAt(t, row, (x + 1) % 5); UnChiAt(t, row, (x + 2) % 5);
      UnChiTurned(t, row, x);
    }
  }

  // Lane i of a row, numbered modulo 5.
  function InRow(t: Lanes, row: int, i: nat): bv64
    requires 0 <= row <= 20
  {
    t[row + i % 5]
  }

  lemma UnChiOf(t: Lanes, row: int, i: nat)
    requires 0 <= row <= 20
    ensures UnChiLane(t, row, i % 5)
      == UnChi(InRow(t, row, i), InRow(t, row, i + 1), InRow(t, row, i + 2), InRow(t, row, i + 3), InRow(t, row, i + 4))
  {
    hide UnChi;
    SameRemainder(i, 1); SameRemainder(i, 2); SameRemainder(i, 3); SameRemainder(i, 4);
  }

  lemma RowWraps(t: Lanes, row: int, i: nat)
    requires 0 <= row <= 20
    ensures InRow(t, row, i + 5) == InRow(t, row, i)
  {}

  lemma UnChiTurned(t: Lanes, row: int, x: int)
    requires 0 <= row <= 20 && 0 <= x < 5
    ensures ChiBits(UnChiLane(t, row, x), UnChiLane(t, row, (x + 1) % 5), UnChiLane(t, row, (x + 2) % 5)) == t[row + x]
  {
    hide ChiBits, UnChi, UnChiLane;
    assert InRow(t, row, x) == t[row + x] && x % 5 == x;
    UnChiOf(t, row, x); UnChiOf(t, row, x + 1); UnChiOf(t, row, x + 2);
    RowWraps(t, row, x); RowWraps(t, row, x + 1);
    hide InRow;
    var y0, y1, y2, y3, y4 :=
      InRow(t, row, x), InRow(t, row, x + 1), InRow(t, row, x + 2), InRow(t, row, x + 3), InRow(t, row, x + 4);
    ChiBitsForth(y0, y1, y2, y3, y4);
  }

  // ---- theta ----

  // The mix of the parities is undone by its 63-fold iterate and two mixes without a rotation.
  function UnMix(p: Plane): Plane {
    var q := Mix(Mix(p, 1, 4, 0), 1, 4, 0);
    Mix(Mix(Mix(Mix(Mix(Mix(q, 3, 2, 32), 4, 1, 16), 2, 3, 8), 1, 4, 4), 3, 2, 2), 4, 1, 1)
  }

  lemma MixUnMix(p: Plane)
    ensures Mix(UnMix(p), 4, 1, 1) == p
  {
    hide Mix;
    var q := Mix(Mix(p, 1, 4, 0), 1, 4, 0);
    var q32 := Mix(q, 3, 2, 32);
    var q16 := Mix(q32, 4, 1, 16);
    var q8 := Mix(q16, 2, 3, 8);
    var q4 := Mix(q8, 1, 4, 4);
    var q2 := Mix(q4, 3, 2, 2);
    MixTwice(q2, 4, 1, 1);
    MixTwice(q4, 3, 2, 2);
    MixTwice(q8, 1, 4, 4);
    MixTwice(q16, 2, 3, 8);
    MixTwice(q32, 4, 1, 16);
    MixTwice(q, 3, 2, 32);
    MixCubed(p);
  }

  // What theta adds to the lanes of column x of a state with these parities.
  function PlaneDelta(p: Plane, x: int): bv64
    requires 0 <= x < 5
  {
    Xor(p[(x + 4) % 5], RotateLeft(p[(x + 1) % 5], 1))
  }

  function UnTheta(t: Lanes): Lanes {
    seq(25, k requires 0 <= k < 25 => Xor(t[k], PlaneDelta(UnMix(Parity(t)), k % 5)))
  }

  lemma MixIsDelta(p: Plane, x: int)
    requires 0 <= x < 5
    ensures Mix(p, 4, 1, 1)[x] == Xor(p[x], PlaneDelta(p, x))
  {
    hide Xor, RotateLeft;
    XorAssociates(p[x], p[(x + 4) % 5], RotateLeft(p[(x + 1) % 5], 1));
  }

  lemma ColumnOfUnTheta(t: Lanes, x: nat)
    requires x < 5
    ensures Column(UnTheta(t), x) == UnMix(Parity(t))[x]
  {
    hide Xor, PlaneDelta, UnMix;
    var s, p := UnTheta(t), UnMix(Parity(t));
    var d := PlaneDelta(p, x);
    assert s[x] == Xor(t[x], d) && s[x + 5] == Xor(t[x + 5], d) && s[x + 10] == Xor(t[x + 10], d)
      && s[x + 15] == Xor(t[x + 15], d) && s[x + 20] == Xor(t[x + 20], d);
    hide UnTheta;
    FiveDeltas(t[x], t[x + 5], t[x + 10], t[x + 15], t[x + 20], d);
    assert Column(s, x) == Xor(Parity(t)[x], d);
    MixUnMix(Parity(t));
    MixIsDelta(p, x);
    XorSwapBack(p[x], d);
  }

  lemma XorSwapBack(a: bv64, d: bv64)
    ensures Xor(Xor(a, d), d) == a
  {}

  lemma ThetaUnTheta(t: Lanes)
    ensures Theta(UnTheta(t)) == t
  {
    hide Theta, UnTheta;
    forall k | 0 <= k < 25 ensures Theta(UnTheta(t))[k] == t[k] { LaneUnTheta(t, k); }
  }

  lemma DeltaOfUnTheta(t: Lanes, x: nat)
    requires x < 5
    ensures Delta(UnTheta(t), x) == PlaneDelta(UnMix(Parity(t)), x)
  {
    hide Xor, Column, UnMix, RotateLeft, UnTheta;
    ColumnOfUnTheta(t, (x + 4) % 5);
    ColumnOfUnTheta(t, (x + 1) % 5);
  }

  lemma LaneUnTheta(t: Lanes, k: nat)
    requires k < 25
    ensures Theta(UnTheta(t))[k] == t[k]
  {
    hide Xor, Delta, PlaneDelta, UnMix;
    var d := PlaneDelta(UnMix(Parity(t)), k % 5);
    assert UnTheta(t)[k] == Xor(t[k], d);
    assert Theta(UnTheta(t))[k] == Xor(UnTheta(t)[k], Delta(UnTheta(t), k % 5));
    hide UnTheta, Theta;
    DeltaOfUnTheta(t, k % 5);
    XorSwapBack(t[k], d);
  }

  // ---- the round and the permutation ----

  function UnRound(t: Lanes, rc: bv64): Lanes {
    UnTheta(UnRho(UnPi(UnChiState(Iota(t, rc)))))
  }

  lemma IotaTwice(t: Lanes, rc: bv64)
    ensures Iota(Iota(t, rc), rc) == t
  {
    XorSwapBack(t[0], rc);
    hide Xor;
    assert t[0 := Xor(t[0], rc)][0 := t[0]] == t;
  }

  // The inverse on both sides: every state is the image of exactly one state.
  lemma RoundIsBijection(s: Lanes, rc: bv64)
    ensures Round(UnRound(s, rc), rc) == s && UnRound(Round(s, rc), rc) == s
  {
    RoundUnRound(s, rc);
    RoundUnRound(Round(s, rc), rc);
    hide Round, UnRound;
    RoundInjective(UnRound(Round(s, rc), rc), s, rc);
  }

  lemma RoundUnRound(t: Lanes, rc: bv64)
    ensures Round(UnRound(t, rc), rc) == t
  {
    hide Theta, Rho, Pi, Chi, Iota, UnTheta, UnRho, UnPi, UnChiState;
    var u := Iota(t, rc);
    var v := UnChiState(u);
    var w := UnPi(v);
    ThetaUnTheta(UnRho(w));
    RhoUnRho(w);
    PiUnPi(v);
    ChiUnChi(u);
    IotaTwice(t, rc);
  }

  // The rounds undone, the last one first.
  function UnRounds(t: Lanes, n: nat): Lanes
    requires n <= ROUNDS
    decreases n
  {
    if n == 0 then t else UnRounds(UnRound(t, RoundConstant(n - 1)), n - 1)
  }

  lemma {:induction false} RoundsUnRounds(t: Lanes, n: nat)
    requires n <= ROUNDS
    ensures Rounds(UnRounds(t, n), n) == t
    decreases n
  {
    hide Round, UnRound, RoundConstant;
    if n > 0 {
      var rc := RoundConstant(n - 1);
      RoundsUnRounds(UnRound(t, rc), n - 1);
      RoundIsBijection(t, rc);
    }
  }

  function UnPermutation(t: Lanes): Lanes {
    UnRounds(t, ROUNDS)
  }

  lemma PermutationIsBijection(s: Lanes)
    ensures Permutation(UnPermutation(s)) == s && UnPermutation(Permutation(s)) == s
  {
    hide Rounds, UnRounds;
    RoundsUnRounds(s, ROUNDS);
    RoundsUnRounds(Permutation(s), ROUNDS);
    assert Permutation(UnPermutation(Permutation(s))) == Permutation(s);
    PermutationInjective(UnPermutation(Permutation(s)), s);
  }
}
