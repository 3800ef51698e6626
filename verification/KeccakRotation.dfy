// Rotations by the distances the permutation uses.
module KeccakRotation {
  import opened KeccakSpec

  // ---- turning back: each rotation loses nothing ----

  lemma Back0(v: bv64) ensures RotateLeft(v, 0) == v {}
  lemma Back1(v: bv64) ensures RotateLeft(RotateLeft(v, 1), 63) == v {}
  lemma Back2(v: bv64) ensures RotateLeft(RotateLeft(v, 2), 62) == v {}
  lemma Back3(v: bv64) ensures RotateLeft(RotateLeft(v, 3), 61) == v {}
  lemma Back6(v: bv64) ensures RotateLeft(RotateLeft(v, 6), 58) == v {}
  lemma Back8(v: bv64) ensures RotateLeft(RotateLeft(v, 8), 56) == v {}
  lemma Back10(v: bv64) ensures RotateLeft(RotateLeft(v, 10), 54) == v {}
  lemma Back14(v: bv64) ensures RotateLeft(RotateLeft(v, 14), 50) == v {}
  lemma Back15(v: bv64) ensures RotateLeft(RotateLeft(v, 15), 49) == v {}
  lemma Back18(v: bv64) ensures RotateLeft(RotateLeft(v, 18), 46) == v {}
  lemma Back20(v: bv64) ensures RotateLeft(RotateLeft(v, 20), 44) == v {}
  lemma Back21(v: bv64) ensures RotateLeft(RotateLeft(v, 21), 43) == v {}
  lemma Back25(v: bv64) ensures RotateLeft(RotateLeft(v, 25), 39) == v {}
  lemma Back27(v: bv64) ensures RotateLeft(RotateLeft(v, 27), 37) == v {}
  lemma Back28(v: bv64) ensures RotateLeft(RotateLeft(v, 28), 36) == v {}
  lemma Back36(v: bv64) ensures RotateLeft(RotateLeft(v, 36), 28) == v {}
  lemma Back39(v: bv64) ensures RotateLeft(RotateLeft(v, 39), 25) == v {}
  lemma Back41(v: bv64) ensures RotateLeft(RotateLeft(v, 41), 23) == v {}
  lemma Back43(v: bv64) ensures RotateLeft(RotateLeft(v, 43), 21) == v {}
  lemma Back44(v: bv64) ensures RotateLeft(RotateLeft(v, 44), 20) == v {}
  lemma Back45(v: bv64) ensures RotateLeft(RotateLeft(v, 45), 19) == v {}
  lemma Back55(v: bv64) ensures RotateLeft(RotateLeft(v, 55), 9) == v {}
  lemma Back56(v: bv64) ensures RotateLeft(RotateLeft(v, 56), 8) == v {}
  lemma Back61(v: bv64) ensures RotateLeft(RotateLeft(v, 61), 3) == v {}
  lemma Back62(v: bv64) ensures RotateLeft(RotateLeft(v, 62), 2) == v {}

  lemma RotateInjective(v: bv64, w: bv64, k: nat)
    requires k < 25 && RotateLeft(v, RhoOffset(k)) == RotateLeft(w, RhoOffset(k))
    ensures v == w
  {
    hide RotateLeft;
    match RhoOffset(k)
    case 0 => Back0(v); Back0(w);
    case 1 => Back1(v); Back1(w);
    case 2 => Back2(v); Back2(w);
    case 3 => Back3(v); Back3(w);
    case 6 => Back6(v); Back6(w);
    case 8 => Back8(v); Back8(w);
    case 10 => Back10(v); Back10(w);
    case 14 => Back14(v); Back14(w);
    case 15 => Back15(v); Back15(w);
    case 18 => Back18(v); Back18(w);
    case 20 => Back20(v); Back20(w);
    case 21 => Back21(v); Back21(w);
    case 25 => Back25(v); Back25(w);
    case 27 => Back27(v); Back27(w);
    case 28 => Back28(v); Back28(w);
    case 36 => Back36(v); Back36(w);
    case 39 => Back39(v); Back39(w);
    case 41 => Back41(v); Back41(w);
    case 43 => Back43(v); Back43(w);
    case 44 => Back44(v); Back44(w);
    case 45 => Back45(v); Back45(w);
    case 55 => Back55(v); Back55(w);
    case 56 => Back56(v); Back56(w);
    case 61 => Back61(v); Back61(w);
    case 62 => Back62(v); Back62(w);
    case _ =>
  }

  // ---- doubling and linearity, for the powers of two ----

  lemma Twice1(v: bv64) ensures RotateLeft(RotateLeft(v, 1), 1) == RotateLeft(v, 2) {}
  lemma Twice2(v: bv64) ensures RotateLeft(RotateLeft(v, 2), 2) == RotateLeft(v, 4) {}
  lemma Twice4(v: bv64) ensures RotateLeft(RotateLeft(v, 4), 4) == RotateLeft(v, 8) {}
  lemma Twice8(v: bv64) ensures RotateLeft(RotateLeft(v, 8), 8) == RotateLeft(v, 16) {}
  lemma Twice16(v: bv64) ensures RotateLeft(RotateLeft(v, 16), 16) == RotateLeft(v, 32) {}
  lemma Twice32(v: bv64) ensures RotateLeft(RotateLeft(v, 32), 32) == RotateLeft(v, 0) {}

  lemma Linear1(v: bv64, w: bv64) ensures RotateLeft(Xor(v, w), 1) == Xor(RotateLeft(v, 1), RotateLeft(w, 1)) {}
  lemma Linear2(v: bv64, w: bv64) ensures RotateLeft(Xor(v, w), 2) == Xor(RotateLeft(v, 2), RotateLeft(w, 2)) {}
  lemma Linear4(v: bv64, w: bv64) ensures RotateLeft(Xor(v, w), 4) == Xor(RotateLeft(v, 4), RotateLeft(w, 4)) {}
  lemma Linear8(v: bv64, w: bv64) ensures RotateLeft(Xor(v, w), 8) == Xor(RotateLeft(v, 8), RotateLeft(w, 8)) {}
  lemma Linear16(v: bv64, w: bv64) ensures RotateLeft(Xor(v, w), 16) == Xor(RotateLeft(v, 16), RotateLeft(w, 16)) {}
  lemma Linear32(v: bv64, w: bv64) ensures RotateLeft(Xor(v, w), 32) == Xor(RotateLeft(v, 32), RotateLeft(w, 32)) {}

  lemma RotateLinear(v: bv64, w: bv64, n: nat)
    requires n in {1, 2, 4, 8, 16, 32}
    ensures RotateLeft(Xor(v, w), n) == Xor(RotateLeft(v, n), RotateLeft(w, n))
  {
    hide RotateLeft, Xor;
    Linear1(v, w); Linear2(v, w); Linear4(v, w); Linear8(v, w); Linear16(v, w); Linear32(v, w);
  }

  lemma RotateTwice(v: bv64, n: nat)
    requires n in {1, 2, 4, 8, 16, 32}
    ensures RotateLeft(RotateLeft(v, n), n) == RotateLeft(v, 2 * n % 64)
  {
    hide RotateLeft;
    if n == 1 { Twice1(v); } else if n == 2 { Twice2(v); } else if n == 4 { Twice4(v); }
    else if n == 8 { Twice8(v); } else if n == 16 { Twice16(v); } else { Twice32(v); }
  }
}
