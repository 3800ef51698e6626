// Every step of the permutation is injective, so no two states are merged.
module KeccakBijection {
  import opened KeccakSpec
  import opened KeccakRotation

  // ---- bit-level facts ----

  lemma XorCommutes(a: bv64, b: bv64)
    ensures Xor(a, b) == Xor(b, a)
  {}

  lemma XorLeft(a: bv64, b: bv64, c: bv64)
    ensures Xor(Xor(a, b), c) == (a ^ b) ^ c
  {}

  lemma XorRight(a: bv64, b: bv64, c: bv64)
    ensures Xor(a, Xor(b, c)) == (a ^ b) ^ c
  {}

  lemma XorAssociates(a: bv64, b: bv64, c: bv64)
    ensures Xor(Xor(a, b), c) == Xor(a, Xor(b, c))
  {
    hide Xor;
    XorLeft(a, b, c); XorRight(a, b, c);
  }

  lemma XorCancels(a: bv64, b: bv64)
    ensures Xor(a, Xor(a, b)) == b
  {}

  lemma XorInjective(a: bv64, b: bv64, c: bv64)
    requires Xor(a, c) == Xor(b, c)
    ensures a == b
  {
    hide Xor;
    XorCommutes(a, c); XorCommutes(b, c);
    XorCancels(c, a); XorCancels(c, b);
  }

  // Adjacent equal terms cancel: (a + b) + (b + c) == a + c.
  lemma XorMiddle(a: bv64, b: bv64, c: bv64)
    ensures Xor(Xor(a, b), Xor(b, c)) == Xor(a, c)
  {
    hide Xor;
    XorAssociates(a, b, Xor(b, c));
    XorCancels(b, c);
  }

  lemma XorSwap(a: bv64, b: bv64, c: bv64, d: bv64)
    ensures Xor(Xor(a, b), Xor(c, d)) == Xor(Xor(a, c), Xor(b, d))
  {
    hide Xor;
    XorAssociates(a, b, Xor(c, d)); XorAssociates(a, c, Xor(b, d));
    XorAssociates(b, c, d); XorAssociates(c, b, d);
    XorCommutes(b, c);
  }

  lemma CrossTerms(p: bv64, q: bv64, r: bv64, s: bv64, t: bv64, u: bv64)
    ensures Xor(Xor(Xor(Xor(p, q), s), Xor(Xor(q, r), t)), Xor(Xor(s, t), u)) == Xor(Xor(p, r), u)
  {
    hide Xor;
    XorSwap(Xor(p, q), s, Xor(q, r), t);
    XorMiddle(p, q, r);
    XorMiddle(Xor(p, r), Xor(s, t), u);
  }

  // ---- chi ----

  function UnChi(y0: bv64, y1: bv64, y2: bv64, y3: bv64, y4: bv64): bv64 {
    y0 ^ (!y1 & (y2 ^ (!y3 & y4)))
  }

  lemma UnChiRow(a0: bv64, a1: bv64, a2: bv64, a3: bv64, a4: bv64)
    ensures UnChi(a0 ^ (!a1 & a2), a1 ^ (!a2 & a3), a2 ^ (!a3 & a4), a3 ^ (!a4 & a0), a4 ^ (!a0 & a1)) == a0
  {}

  function ChiBits(a: bv64, b: bv64, c: bv64): bv64 {
    Xor(a, AndNot(b, c))
  }

  lemma ChiBitsRaw(a: bv64, b: bv64, c: bv64)
    ensures ChiBits(a, b, c) == a ^ (!b & c)
  {}

  lemma UnChiBits(a0: bv64, a1: bv64, a2: bv64, a3: bv64, a4: bv64)
    ensures UnChi(ChiBits(a0, a1, a2), ChiBits(a1, a2, a3), ChiBits(a2, a3, a4), ChiBits(a3, a4, a0),
        ChiBits(a4, a0, a1)) == a0
  {
    hide ChiBits, UnChi;
    ChiBitsRaw(a0, a1, a2); ChiBitsRaw(a1, a2, a3); ChiBitsRaw(a2, a3, a4); ChiBitsRaw(a3, a4, a0);
    ChiBitsRaw(a4, a0, a1);
    UnChiRow(a0, a1, a2, a3, a4);
  }

  lemma ChiLaneBits(s: Lanes, row: int)
    requires 0 <= row <= 20
    ensures ChiLane(s, row, 0) == ChiBits(s[row], s[row + 1], s[row + 2])
    ensures ChiLane(s, row, 1) == ChiBits(s[row + 1], s[row + 2], s[row + 3])
    ensures ChiLane(s, row, 2) == ChiBits(s[row + 2], s[row + 3], s[row + 4])
    ensures ChiLane(s, row, 3) == ChiBits(s[row + 3], s[row + 4], s[row])
    ensures ChiLane(s, row, 4) == ChiBits(s[row + 4], s[row], s[row + 1])
  {
    hide Xor, AndNot;
  }

  // The lanes of a row are computed back from its image under chi.
  lemma ChiRowBack(s: Lanes, row: int)
    requires 0 <= row <= 20
    ensures var y0, y1, y2, y3, y4 := ChiLane(s, row, 0), ChiLane(s, row, 1), ChiLane(s, row, 2), ChiLane(s, row, 3),
        ChiLane(s, row, 4);
      s[row] == UnChi(y0, y1, y2, y3, y4) && s[row + 1] == UnChi(y1, y2, y3, y4, y0)
        && s[row + 2] == UnChi(y2, y3, y4, y0, y1)
      && s[row + 3] == UnChi(y3, y4, y0, y1, y2) && s[row + 4] == UnChi(y4, y0, y1, y2, y3)
  {
    hide ChiLane, ChiBits, UnChi;
    ChiLaneBits(s, row);
    var a0, a1, a2, a3, a4 := s[row], s[row + 1], s[row + 2], s[row + 3], s[row + 4];
    UnChiBits(a0, a1, a2, a3, a4); UnChiBits(a1, a2, a3, a4, a0); UnChiBits(a2, a3, a4, a0, a1);
    UnChiBits(a3, a4, a0, a1, a2); UnChiBits(a4, a0, a1, a2, a3);
  }

  lemma ChiInjective(s: Lanes, t: Lanes)
    requires Chi(s) == Chi(t)
    ensures s == t
  {
    hide ChiLane, UnChi;
    forall k | 0 <= k < 25
      ensures s[k] == t[k]
    {
      var row := k / 5 * 5;
      ChiLanes(s, row); ChiLanes(t, row);
      ChiRowBack(s, row); ChiRowBack(t, row);
      assert k == row || k == row + 1 || k == row + 2 || k == row + 3 || k == row + 4;
    }
  }

  lemma ChiLanes(s: Lanes, row: int)
    requires 0 <= row <= 20 && row % 5 == 0
    ensures Chi(s)[row] == ChiLane(s, row, 0) && Chi(s)[row + 1] == ChiLane(s, row, 1)
    ensures Chi(s)[row + 2] == ChiLane(s, row, 2) && Chi(s)[row + 3] == ChiLane(s, row, 3)
    ensures Chi(s)[row + 4] == ChiLane(s, row, 4)
  {
    hide ChiLane;
  }

  // ---- theta: the column parities determine the state ----

  type Plane = p: seq<bv64> | |p| == 5 witness [0, 0, 0, 0, 0]

  function Parity(s: Lanes): Plane {
    seq(5, x requires 0 <= x < 5 => Column(s, x))
  }

  // Lanes are numbered modulo 5.
  function Lane(p: Plane, i: nat): bv64 {
    p[i % 5]
  }

  function MixAt(p: Plane, i: nat, a: nat, b: nat, c: nat): bv64
    requires c < 64
  {
    Xor(Xor(Lane(p, i), Lane(p, i + a)), RotateLeft(Lane(p, i + b), c))
  }

  // Lane i becomes p[i] + p[i + a] + rot(p[i + b], c); the map with a, b, c doubled is this map twice.
  function Mix(p: Plane, a: nat, b: nat, c: nat): Plane
    requires c < 64
  {
    seq(5, x requires 0 <= x < 5 => MixAt(p, x, a, b, c))
  }

  lemma Wraps(p: Plane, i: nat, j: nat)
    requires i % 5 == j % 5
    ensures Lane(p, i) == Lane(p, j)
  {}

  lemma SameRemainder(i: nat, a: nat)
    ensures (i % 5 + a) % 5 == (i + a) % 5
  {}

  lemma MixLane(p: Plane, a: nat, b: nat, c: nat, i: nat)
    requires c < 64
    ensures Lane(Mix(p, a, b, c), i) == MixAt(p, i, a, b, c)
  {
    assert Lane(Mix(p, a, b, c), i) == MixAt(p, i % 5, a, b, c) by { hide MixAt; }
    hide Lane, Xor, RotateLeft;
    SameRemainder(i, a); SameRemainder(i, b); SameRemainder(i, 0);
    Wraps(p, i % 5, i); Wraps(p, i % 5 + a, i + a); Wraps(p, i % 5 + b, i + b);
  }

  lemma MixTwiceAt(p: Plane, a: nat, b: nat, c: nat, i: nat)
    requires c in {1, 2, 4, 8, 16, 32}
    ensures Lane(Mix(Mix(p, a, b, c), a, b, c), i) == MixAt(p, i, 2 * a, 2 * b, 2 * c % 64)
  {
    hide Xor, RotateLeft, Lane, Mix;
    var q := Mix(p, a, b, c);
    MixLane(q, a, b, c, i);
    MixLane(p, a, b, c, i); MixLane(p, a, b, c, i + a); MixLane(p, a, b, c, i + b);
    var pi, pa, pb, pab, paa, pbb :=
      Lane(p, i), Lane(p, i + a), Lane(p, i + b), Lane(p, i + a + b), Lane(p, i + 2 * a), Lane(p, i + 2 * b);
    assert i + a + a == i + 2 * a && i + b + b == i + 2 * b && i + b + a == i + a + b;
    MixStep(pi, pa, pb, pab, paa, pbb, c);
  }

  lemma MixStep(pi: bv64, pa: bv64, pb: bv64, pab: bv64, paa: bv64, pbb: bv64, c: nat)
    requires c in {1, 2, 4, 8, 16, 32}
    ensures
      var qi := Xor(Xor(pi, pa), RotateLeft(pb, c));
      var qa := Xor(Xor(pa, paa), RotateLeft(pab, c));
      var qb := Xor(Xor(pb, pab), RotateLeft(pbb, c));
      Xor(Xor(qi, qa), RotateLeft(qb, c)) == Xor(Xor(pi, paa), RotateLeft(pbb, 2 * c % 64))
  {
    hide Xor, RotateLeft;
    RotateLinear(Xor(pb, pab), RotateLeft(pbb, c), c);
    RotateLinear(pb, pab, c);
    RotateTwice(pbb, c);
    CrossTerms(pi, pa, paa, RotateLeft(pb, c), RotateLeft(pab, c), RotateLeft(pbb, 2 * c % 64));
  }

  lemma MixTwice(p: Plane, a: nat, b: nat, c: nat)
    requires a < 5 && b < 5 && c in {1, 2, 4, 8, 16, 32}
    ensures Mix(Mix(p, a, b, c), a, b, c) == Mix(p, 2 * a % 5, 2 * b % 5, 2 * c % 64)
  {
    hide Xor, RotateLeft, MixAt, Lane, Mix;
    forall i: nat | i < 5
      ensures Lane(Mix(Mix(p, a, b, c), a, b, c), i) == Lane(Mix(p, 2 * a % 5, 2 * b % 5, 2 * c % 64), i)
    {
      MixTwiceAt(p, a, b, c, i);
      MixLane(p, 2 * a % 5, 2 * b % 5, 2 * c % 64, i);
      MixReduced(p, i, a, b, 2 * c % 64);
    }
    SamePlane(Mix(Mix(p, a, b, c), a, b, c), Mix(p, 2 * a % 5, 2 * b % 5, 2 * c % 64));
  }

  lemma MixReduced(p: Plane, i: nat, a: nat, b: nat, c: nat)
    requires c < 64
    ensures MixAt(p, i, 2 * a, 2 * b, c) == MixAt(p, i, 2 * a % 5, 2 * b % 5, c)
  {
    hide Xor, RotateLeft, Lane;
    SameRemainder(2 * a, i); SameRemainder(2 * b, i);
    Wraps(p, i + 2 * a, i + 2 * a % 5); Wraps(p, i + 2 * b, i + 2 * b % 5);
  }

  lemma SamePlane(p: Plane, q: Plane)
    requires forall i: nat :: i < 5 ==> Lane(p, i) == Lane(q, i)
    ensures p == q
  {
    assert forall i: nat :: i < 5 ==> Lane(p, i) == p[i] && Lane(q, i) == q[i];
  }

  // Equal images under the theta mix stay equal under its 64-fold iterate, which no longer rotates.
  lemma MixSixtyFour(p: Plane, q: Plane)
    requires Mix(p, 4, 1, 1) == Mix(q, 4, 1, 1)
    ensures Mix(p, 1, 4, 0) == Mix(q, 1, 4, 0)
  {
    hide Mix;
    MixTwice(p, 4, 1, 1); MixTwice(q, 4, 1, 1);
    MixTwice(p, 3, 2, 2); MixTwice(q, 3, 2, 2);
    MixTwice(p, 1, 4, 4); MixTwice(q, 1, 4, 4);
    MixTwice(p, 2, 3, 8); MixTwice(q, 2, 3, 8);
    MixTwice(p, 4, 1, 16); MixTwice(q, 4, 1, 16);
    MixTwice(p, 3, 2, 32); MixTwice(q, 3, 2, 32);
  }

  // ---- the rotation-free mix p[i] + p[i + 1] + p[i + 4] has order three ----

  function Sum3(a: bv64, b: bv64, c: bv64): bv64 {
    Xor(Xor(a, b), c)
  }

  lemma SumOnce(a: bv64, b: bv64, c: bv64, d: bv64, e: bv64)
    ensures Sum3(Sum3(a, b, e), Sum3(b, c, a), Sum3(e, a, d)) == Sum3(a, c, d)
  {
    hide Xor;
    XorSwap(Xor(a, b), e, Xor(b, c), a);
    XorMiddle(a, b, c);
    XorMiddle(Xor(a, c), Xor(e, a), d);
  }

  lemma SumTwice(a: bv64, b: bv64, c: bv64, d: bv64, e: bv64)
    ensures Sum3(Sum3(a, c, d), Sum3(b, d, e), Sum3(e, b, c)) == a
  {
    hide Xor;
    XorCommutes(b, d); XorAssociates(d, b, e);
    XorMiddle(Xor(a, c), d, Xor(b, e));
    XorCommutes(e, b);
    XorMiddle(Xor(a, c), Xor(b, e), c);
    XorCommutes(Xor(a, c), c); XorCommutes(a, c); XorCancels(c, a);
  }

  lemma MixNeighbours(p: Plane, i: nat)
    ensures Lane(Mix(p, 1, 4, 0), i) == Sum3(Lane(p, i), Lane(p, i + 1), Lane(p, i + 4))
  {
    hide Xor, Lane, Mix, RotateLeft;
    MixLane(p, 1, 4, 0, i);
    Back0(Lane(p, i + 4));
  }

  lemma MixSquared(p: Plane, i: nat)
    ensures Lane(Mix(Mix(p, 1, 4, 0), 1, 4, 0), i) == Sum3(Lane(p, i), Lane(p, i + 2), Lane(p, i + 3))
  {
    hide Lane, Mix, Sum3;
    MixNeighbours(Mix(p, 1, 4, 0), i);
    MixNeighbours(p, i); MixNeighbours(p, i + 1); MixNeighbours(p, i + 4);
    Wraps(p, i + 1 + 4, i); Wraps(p, i + 4 + 1, i); Wraps(p, i + 4 + 4, i + 3);
    assert i + 1 + 1 == i + 2;
    SumOnce(Lane(p, i), Lane(p, i + 1), Lane(p, i + 2), Lane(p, i + 3), Lane(p, i + 4));
  }

  lemma MixCubed(p: Plane)
    ensures Mix(Mix(Mix(p, 1, 4, 0), 1, 4, 0), 1, 4, 0) == p
  {
    hide Lane, Mix, Sum3;
    var q := Mix(Mix(p, 1, 4, 0), 1, 4, 0);
    forall i: nat | i < 5
      ensures Lane(Mix(q, 1, 4, 0), i) == Lane(p, i)
    {
      MixNeighbours(q, i);
      MixSquared(p, i); MixSquared(p, i + 1); MixSquared(p, i + 4);
      assert i + 1 + 2 == i + 3 && i + 1 + 3 == i + 4;
      Wraps(p, i + 4 + 2, i + 1); Wraps(p, i + 4 + 3, i + 2);
      SumTwice(Lane(p, i), Lane(p, i + 1), Lane(p, i + 2), Lane(p, i + 3), Lane(p, i + 4));
    }
    SamePlane(Mix(q, 1, 4, 0), p);
  }

  lemma MixInjective(p: Plane, q: Plane)
    requires Mix(p, 4, 1, 1) == Mix(q, 4, 1, 1)
    ensures p == q
  {
    hide Mix;
    MixSixtyFour(p, q);
    MixCubed(p); MixCubed(q);
  }

  // ---- theta, rho, pi, iota and the round ----

  lemma ColumnOfTheta(s: Lanes, x: nat)
    requires x < 5
    ensures Column(Theta(s), x) == Xor(Column(s, x), Delta(s, x))
  {
    hide Xor, Delta;
    var t, d := Theta(s), Delta(s, x);
    assert t[x] == Xor(s[x], d) && t[x + 5] == Xor(s[x + 5], d) && t[x + 10] == Xor(s[x + 10], d)
      && t[x + 15] == Xor(s[x + 15], d) && t[x + 20] == Xor(s[x + 20], d);
    hide Theta;
    FiveDeltas(s[x], s[x + 5], s[x + 10], s[x + 15], s[x + 20], d);
  }

  lemma FiveDeltas(a: bv64, b: bv64, c: bv64, e: bv64, f: bv64, d: bv64)
    ensures Xor(Xor(Xor(Xor(Xor(a, d), Xor(b, d)), Xor(c, d)), Xor(e, d)),
        Xor(f, d)) == Xor(Xor(Xor(Xor(Xor(a, b), c), e), f), d)
  {
    hide Xor;
    XorCommutes(b, d);
    XorMiddle(a, d, b);
    XorSwap(Xor(a, b), c, e, d);
    XorAssociates(Xor(a, b), c, d);
    XorMiddle(Xor(Xor(a, b), c), d, e);
    XorCommutes(e, d);
    XorAssociates(Xor(Xor(Xor(a, b), c), e), f, d);
  }

  lemma ParityOfTheta(s: Lanes)
    ensures Parity(Theta(s)) == Mix(Parity(s), 4, 1, 1)
  {
    hide Xor, RotateLeft, Column, Theta;
    var left, right := Parity(Theta(s)), Mix(Parity(s), 4, 1, 1);
    forall x: nat | x < 5
      ensures left[x] == right[x]
    {
      ColumnOfTheta(s, x);
      XorAssociates(Column(s, x), Column(s, (x + 4) % 5), RotateLeft(Column(s, (x + 1) % 5), 1));
    }
  }

  lemma ThetaInjective(s: Lanes, t: Lanes)
    requires Theta(s) == Theta(t)
    ensures s == t
  {
    ParityOfTheta(s); ParityOfTheta(t);
    MixInjective(Parity(s), Parity(t));
    SameDelta(s, t);
    hide Xor, Delta, Mix, Parity;
    forall k | 0 <= k < 25
      ensures s[k] == t[k]
    {
      assert Theta(s)[k] == Xor(s[k], Delta(s, k % 5)) && Theta(t)[k] == Xor(t[k], Delta(t, k % 5));
      XorInjective(s[k], t[k], Delta(s, k % 5));
    }
  }

  lemma SameDelta(s: Lanes, t: Lanes)
    requires Parity(s) == Parity(t)
    ensures forall x :: 0 <= x < 5 ==> Delta(s, x) == Delta(t, x)
  {
    hide Xor, RotateLeft, Column;
    assert forall x :: 0 <= x < 5 ==> Parity(s)[x] == Column(s, x) && Parity(t)[x] == Column(t, x);
  }

  lemma RhoInjective(s: Lanes, t: Lanes)
    requires Rho(s) == Rho(t)
    ensures s == t
  {
    hide RotateLeft, RhoOffset;
    forall k | 0 <= k < 25
      ensures s[k] == t[k]
    {
      assert Rho(s)[k] == RotateLeft(s[k], RhoOffset(k)) && Rho(t)[k] == RotateLeft(t[k], RhoOffset(k));
      RotateInjective(s[k], t[k], k);
    }
  }

  // Where lane k goes under pi: one step further along the walk.
  function PiTarget(k: int): (j: int)
    requires 0 <= k < 25
    ensures 0 <= j < 25
  {
    if k == 0 then 0 else PermutationIndex((StepOf(k) + 1) % 24)
  }

  lemma PiInjective(s: Lanes, t: Lanes)
    requires Pi(s) == Pi(t)
    ensures s == t
  {
    forall k | 0 <= k < 25
      ensures s[k] == t[k]
    {
      PiBack(k);
      hide PiSource, PiTarget;
      assert Pi(s)[PiTarget(k)] == s[k] && Pi(t)[PiTarget(k)] == t[k];
    }
  }

  lemma PiBack(k: int)
    requires 0 <= k < 25
    ensures PiSource(PiTarget(k)) == k
  {
    hide PermutationIndex, StepOf, PiSource, WalkSource;
    WalkCloses();
    if k > 0 {
      var i := StepOf(k);
      WalkCovers(k);
      WalkIsRhoPi((i + 1) % 24);
    }
  }

  lemma WalkCloses()
    ensures PermutationIndex(23) == 1 == WalkSource(0) && PiSource(0) == 0
    ensures forall i: nat :: i < 23 ==> WalkSource(i + 1) == PermutationIndex(i)
  {
    assert PermutationIndex(23) == 1 && PiSource(0) == 0;
    hide PermutationIndex;
  }

  // The round map loses nothing: different states have different images.
  lemma RoundInjective(s: Lanes, t: Lanes, rc: bv64)
    requires Round(s, rc) == Round(t, rc)
    ensures s == t
  {
    hide Xor, Theta, Rho, Pi, Chi;
    var u, v := Chi(Pi(Rho(Theta(s)))), Chi(Pi(Rho(Theta(t))));
    assert Iota(u, rc)[0] == Xor(u[0], rc) && Iota(v, rc)[0] == Xor(v[0], rc);
    XorInjective(u[0], v[0], rc);
    assert forall k :: 0 < k < 25 ==> u[k] == Iota(u, rc)[k] && v[k] == Iota(v, rc)[k];
    assert u == v;
    ChiInjective(Pi(Rho(Theta(s))), Pi(Rho(Theta(t))));
    PiInjective(Rho(Theta(s)), Rho(Theta(t)));
    RhoInjective(Theta(s), Theta(t));
    ThetaInjective(s, t);
  }

  lemma {:induction false} RoundsInjective(s: Lanes, t: Lanes, n: nat)
    requires n <= ROUNDS && Rounds(s, n) == Rounds(t, n)
    ensures s == t
  {
    hide Round, RoundConstant;
    if n > 0 {
      RoundInjective(Rounds(s, n - 1), Rounds(t, n - 1), RoundConstant(n - 1));
      RoundsInjective(s, t, n - 1);
    }
  }

  lemma PermutationInjective(s: Lanes, t: Lanes)
    requires Permutation(s) == Permutation(t)
    ensures s == t
  {
    hide Rounds;
    RoundsInjective(s, t, ROUNDS);
  }
}
