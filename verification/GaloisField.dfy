// Arithmetic of the field GF(2^8) with modulus x^8 + x^4 + x^3 + x^2 + 1 (0x11D),
// used by the Reed-Solomon code of ISO/IEC 18004:2015 section 7.5.2.
module GaloisField {

  const WIDTH: nat := 8

  // The field sum.
  function Plus(x: bv8, y: bv8): bv8 {
    x ^ y
  }

  // Multiplication of a field element by x, with reduction.
  function Xtime(z: bv8): bv8 {
    (z << 1) ^ (if z & 0x80 == 0x80 then 0x1D else 0)
  }

  function Scale(bit: bool, x: bv8): bv8 {
    if bit then x else 0
  }

  predicate Bit(y: bv8, i: nat)
    requires i < WIDTH
  {
    Shr(y, i) & 1 == 1
  }

  // The right shift, one constant distance at a time.
  function Shr(x: bv8, k: nat): bv8
    requires k <= WIDTH
  {
    if k == 0 then x else if k == 1 then x >> 1 else if k == 2 then x >> 2
    else if k == 3 then x >> 3 else if k == 4 then x >> 4 else if k == 5 then x >> 5
    else if k == 6 then x >> 6 else if k == 7 then x >> 7 else 0
  }

  lemma ShrIsShift(x: bv8, k: nat)
    requires k <= WIDTH
    ensures x >> k == Shr(x, k)
  {
    if k == 1 {} else if k == 2 {} else if k == 3 {} else if k == 4 {}
    else if k == 5 {} else if k == 6 {} else if k == 7 {} else if k == 8 {}
  }

  lemma ShrStep(x: bv8, k: nat)
    requires 0 < k <= WIDTH
    ensures Shr(x, k) == Shr(x, k - 1) >> 1
  {
    if k == 1 {} else if k == 2 {} else if k == 3 {} else if k == 4 {}
    else if k == 5 {} else if k == 6 {} else if k == 7 {} else if k == 8 {}
  }

  // The Horner scheme over the top k bits of y.
  function Horner(x: bv8, y: bv8, k: nat): bv8
    requires k <= WIDTH
  {
    if k == 0 then 0 else Plus(Xtime(Horner(x, y, k - 1)), Scale(Bit(y, WIDTH - k), x))
  }

  // The field product.
  function Times(x: bv8, y: bv8): bv8 {
    Horner(x, y, WIDTH)
  }

  method ReedSolomonMultiply(x: bv8, y: bv8) returns (z: bv8)
    ensures z == Times(x, y)
  {
    hide Plus, Xtime, Scale, Bit, Shr, Horner;
    z := 0;
    HornerBase(x, y, WIDTH - 8);
    var i := 7;
    while i >= 0
      invariant -1 <= i <= 7
      invariant z == Horner(x, y, WIDTH - 1 - i)
    {
      ReducedShift(z);
      BitTimes(y, i, x);
      HornerStep(x, y, WIDTH - i);
      PlusIsXor(Xtime(z), Scale(Bit(y, i), x));
      z := ((((z as bv16) << 1) ^ (((z >> 7) as bv16) * 0x11D)) & 0xFF) as bv8;
      z := z ^ (((y >> i) & 1) * x);
      i := i - 1;
    }
  }

  // ---- bit-level facts ----

  lemma PlusIsXor(x: bv8, y: bv8)
    ensures Plus(x, y) == x ^ y
  {}

  lemma ReducedShift(z: bv8)
    ensures ((((z as bv16) << 1) ^ (((z >> 7) as bv16) * 0x11D)) & 0xFF) as bv8 == Xtime(z)
  {}

  lemma BitTimes(y: bv8, i: nat, x: bv8)
    requires i < WIDTH
    ensures ((y >> i) & 1) * x == Scale(Bit(y, i), x)
  {
    ShrIsShift(y, i);
    hide Shr;
    var b := Shr(y, i) & 1;
    assert b == 0 || b == 1;
  }

  lemma PlusLaws(a: bv8, b: bv8, c: bv8)
    ensures Plus(a, b) == Plus(b, a)
    ensures Plus(Plus(a, b), c) == Plus(a, Plus(b, c))
    ensures Plus(a, 0) == a && Plus(a, a) == 0
    ensures Plus(a, b) == 0 <==> a == b
  {}

  lemma PlusCancel(c: bv8, r: bv8)
    ensures Plus(r, Plus(c, r)) == c
  {}

  lemma PlusSwap(a: bv8, b: bv8, c: bv8, d: bv8)
    ensures Plus(Plus(a, b), Plus(c, d)) == Plus(Plus(a, c), Plus(b, d))
  {
    hide *;
    PlusLaws(a, b, Plus(c, d)); PlusLaws(b, c, d); PlusLaws(c, b, d); PlusLaws(a, c, Plus(b, d));
  }

  function Reduction(z: bv8): bv8 {
    if z & 0x80 == 0x80 then 0x1D else 0
  }

  lemma XtimeParts(z: bv8)
    ensures Xtime(z) == Plus(z << 1, Reduction(z))
  {}

  lemma ShiftXor(a: bv8, b: bv8)
    ensures Plus(a, b) << 1 == Plus(a << 1, b << 1)
    ensures Reduction(Plus(a, b)) == Plus(Reduction(a), Reduction(b))
  {}

  lemma XtimeLinear(a: bv8, b: bv8)
    ensures Xtime(Plus(a, b)) == Plus(Xtime(a), Xtime(b))
  {
    hide *;
    var ra, rb := Reduction(a), Reduction(b);
    XtimeParts(a); XtimeParts(b); XtimeParts(Plus(a, b));
    ShiftXor(a, b);
    PlusSwap(a << 1, b << 1, ra, rb);
  }

  lemma ShrXor(a: bv8, b: bv8, i: nat)
    requires i < WIDTH
    ensures Shr(a ^ b, i) == Shr(a, i) ^ Shr(b, i)
  {
    if i == 1 {} else if i == 2 {} else if i == 3 {} else if i == 4 {}
    else if i == 5 {} else if i == 6 {} else if i == 7 {}
  }

  lemma BitXor(a: bv8, b: bv8, i: nat)
    requires i < WIDTH
    ensures Bit(Plus(a, b), i) == (Bit(a, i) != Bit(b, i))
  {
    ShrXor(a, b, i);
    hide Shr;
    var u, v := Shr(a, i), Shr(b, i);
    assert (u ^ v) & 1 == (u & 1) ^ (v & 1);
  }

  lemma ScaleLinear(p: bool, a: bv8, b: bv8)
    ensures Scale(p, Plus(a, b)) == Plus(Scale(p, a), Scale(p, b))
  {}

  lemma ScaleBits(p: bool, q: bool, x: bv8)
    ensures Scale(p != q, x) == Plus(Scale(p, x), Scale(q, x))
    ensures Scale(p, Xtime(x)) == Xtime(Scale(p, x))
  {}

  lemma BitShift(a: bv8, b: bool, i: nat)
    requires i < 7
    ensures Bit(Plus(a << 1, Scale(b, 1)), i + 1) == Bit(a, i)
  {
    if i == 0 {} else if i == 1 {} else if i == 2 {} else if i == 3 {} else if i == 4 {}
  }

  lemma HornerStep(x: bv8, y: bv8, k: nat)
    requires 0 < k <= WIDTH
    ensures Horner(x, y, k) == Plus(Xtime(Horner(x, y, k - 1)), Scale(Bit(y, WIDTH - k), x))
  {}

  lemma HornerBase(x: bv8, y: bv8, k: nat)
    requires k == 0
    ensures Horner(x, y, k) == 0 == Xtime(0) == Plus(0, 0)
  {}

  // ---- bilinearity ----

  lemma {:induction false} HornerLinearLeft(a: bv8, b: bv8, y: bv8, k: nat)
    requires k <= WIDTH
    ensures Horner(Plus(a, b), y, k) == Plus(Horner(a, y, k), Horner(b, y, k))
  {
    hide *;
    if k == 0 {
      HornerBase(a, y, k); HornerBase(b, y, k); HornerBase(Plus(a, b), y, k);
    } else {
      HornerLinearLeft(a, b, y, k - 1);
      var u, v, t := Horner(a, y, k - 1), Horner(b, y, k - 1), Bit(y, WIDTH - k);
      HornerStep(a, y, k); HornerStep(b, y, k); HornerStep(Plus(a, b), y, k);
      XtimeLinear(u, v);
      ScaleLinear(t, a, b);
      PlusSwap(Xtime(u), Xtime(v), Scale(t, a), Scale(t, b));
    }
  }

  lemma {:induction false} HornerLinearRight(x: bv8, a: bv8, b: bv8, k: nat)
    requires k <= WIDTH
    ensures Horner(x, Plus(a, b), k) == Plus(Horner(x, a, k), Horner(x, b, k))
  {
    hide *;
    if k == 0 {
      HornerBase(x, a, k); HornerBase(x, b, k); HornerBase(x, Plus(a, b), k);
    } else {
      HornerLinearRight(x, a, b, k - 1);
      var u, v, p, q := Horner(x, a, k - 1), Horner(x, b, k - 1), Bit(a, WIDTH - k), Bit(b, WIDTH - k);
      HornerStep(x, a, k); HornerStep(x, b, k); HornerStep(x, Plus(a, b), k);
      XtimeLinear(u, v);
      BitXor(a, b, WIDTH - k);
      ScaleBits(p, q, x);
      PlusSwap(Xtime(u), Xtime(v), Scale(p, x), Scale(q, x));
    }
  }

  lemma {:induction false} HornerXtime(x: bv8, y: bv8, k: nat)
    requires k <= WIDTH
    ensures Horner(Xtime(x), y, k) == Xtime(Horner(x, y, k))
  {
    hide *;
    if k == 0 {
      HornerBase(x, y, k); HornerBase(Xtime(x), y, k);
    } else {
      HornerXtime(x, y, k - 1);
      var u, t := Horner(x, y, k - 1), Bit(y, WIDTH - k);
      HornerStep(x, y, k); HornerStep(Xtime(x), y, k);
      ScaleBits(t, t, x);
      XtimeLinear(Xtime(u), Scale(t, x));
    }
  }

  // Appending one low bit b to a seven-bit multiplier a is one more Horner step.
  lemma {:induction false} HornerAppend(x: bv8, a: bv8, b: bool, k: nat)
    requires k < WIDTH && a & 0x80 == 0
    ensures Horner(x, Plus(a << 1, Scale(b, 1)), k) == Horner(x, a, k + 1)
  {
    assert !Bit(a, 7);
    assert Scale(false, x) == 0;
    hide *;
    HornerStep(x, a, k + 1);
    if k == 0 {
      HornerBase(x, a, k);
      HornerBase(x, Plus(a << 1, Scale(b, 1)), k);
    } else {
      HornerAppend(x, a, b, k - 1);
      BitShift(a, b, 7 - k);
      HornerStep(x, Plus(a << 1, Scale(b, 1)), k);
    }
  }

  lemma TimesAppend(x: bv8, a: bv8, b: bool)
    requires a & 0x80 == 0
    ensures Times(x, Plus(a << 1, Scale(b, 1))) == Plus(Xtime(Times(x, a)), Scale(b, x))
  {
    HornerAppend(x, a, b, WIDTH - 1);
    var y := Plus(a << 1, Scale(b, 1));
    assert Bit(y, 0) == b;
    hide Horner, Xtime, Plus;
    HornerStep(x, y, WIDTH);
  }

  lemma {:induction false} HornerZero(y: bv8, k: nat)
    requires k <= WIDTH
    ensures Horner(0, y, k) == 0
  {
    if k > 0 { HornerZero(y, k - 1); }
  }

  lemma TimesZero(y: bv8)
    ensures Times(y, 0) == 0 == Times(0, y)
  {
    hide Horner;
    HornerZero(y, WIDTH);
    HornerLinearRight(y, 0, 0, WIDTH);
  }

  // The number formed by the top k bits of x.
  function Top(x: bv8, k: nat): bv8
    requires k <= WIDTH
  {
    Shr(x, WIDTH - k)
  }

  lemma TopStep(x: bv8, k: nat)
    requires 0 < k <= WIDTH
    ensures Top(x, k - 1) & 0x80 == 0
    ensures Top(x, k) == Plus(Top(x, k - 1) << 1, Scale(Bit(x, WIDTH - k), 1))
    ensures Top(x, k) == Plus(Xtime(Top(x, k - 1)), Scale(Bit(x, WIDTH - k), 1))
  {
    TopLow(x, k);
    var a := Top(x, k - 1);
    assert Xtime(a) == a << 1;
  }

  lemma TopLow(x: bv8, k: nat)
    requires 0 < k <= WIDTH
    ensures Top(x, k - 1) & 0x80 == 0
    ensures Top(x, k) == Plus(Top(x, k - 1) << 1, Scale(Bit(x, WIDTH - k), 1))
  {
    ShrStep(x, WIDTH - k + 1);
    hide Shr;
    var w := Top(x, k);
    assert (w >> 1) & 0x80 == 0;
    assert w & 1 == 1 ==> w == ((w >> 1) << 1) ^ 1;
    assert w & 1 != 1 ==> w == ((w >> 1) << 1) ^ 0;
  }

  lemma TopEnds(x: bv8)
    ensures Top(x, 0) == 0 && Top(x, WIDTH) == x
  {}

  lemma {:induction false} HornerOne(y: bv8, k: nat)
    requires k <= WIDTH
    ensures Horner(1, y, k) == Top(y, k)
  {
    hide *;
    if k == 0 {
      HornerBase(1, y, k);
      TopEnds(y);
    } else {
      HornerOne(y, k - 1);
      HornerStep(1, y, k);
      TopStep(y, k);
    }
  }

  // ---- the field laws ----

  lemma TimesOne(y: bv8)
    ensures Times(1, y) == y
  {
    HornerOne(y, WIDTH);
    hide Horner;
  }

  lemma TimesScale(b: bool, x: bv8, y: bv8)
    ensures Times(Scale(b, x), y) == Scale(b, Times(x, y))
  {
    hide Times;
    TimesZero(y);
  }

  lemma TimesLinearLeft(a: bv8, b: bv8, y: bv8)
    ensures Times(Plus(a, b), y) == Plus(Times(a, y), Times(b, y))
  {
    hide Horner, Plus;
    HornerLinearLeft(a, b, y, WIDTH);
  }

  lemma TimesXtime(x: bv8, y: bv8)
    ensures Times(Xtime(x), y) == Xtime(Times(x, y))
  {
    hide Horner, Xtime;
    HornerXtime(x, y, WIDTH);
  }

  lemma {:induction false} TopCommutes(x: bv8, y: bv8, k: nat)
    requires k <= WIDTH
    ensures Times(Top(x, k), y) == Times(y, Top(x, k))
  {
    hide *;
    if k == 0 {
      TopEnds(x);
      TimesZero(y);
    } else {
      TopCommutes(x, y, k - 1);
      var a, b := Top(x, k - 1), Bit(x, WIDTH - k);
      TopStep(x, k);
      TimesAppend(y, a, b);
      TimesLinearLeft(Xtime(a), Scale(b, 1), y);
      TimesXtime(a, y);
      TimesScale(b, 1, y);
      TimesOne(y);
    }
  }

  lemma Commutative(x: bv8, y: bv8)
    ensures Times(x, y) == Times(y, x)
  {
    hide Times;
    TopCommutes(x, y, WIDTH);
    TopEnds(x);
  }

  lemma Distributive(x: bv8, a: bv8, b: bv8)
    ensures Times(x, Plus(a, b)) == Plus(Times(x, a), Times(x, b))
    ensures Times(Plus(a, b), x) == Plus(Times(a, x), Times(b, x))
  {
    hide *;
    TimesLinearLeft(a, b, x);
    Commutative(x, a); Commutative(x, b); Commutative(x, Plus(a, b));
  }

  lemma {:induction false} HornerAssociative(a: bv8, b: bv8, c: bv8, k: nat)
    requires k <= WIDTH
    ensures Horner(Times(a, b), c, k) == Times(a, Horner(b, c, k))
  {
    hide *;
    if k == 0 {
      HornerBase(Times(a, b), c, k);
      HornerBase(b, c, k);
      TimesZero(a);
    } else {
      HornerAssociative(a, b, c, k - 1);
      var p, t := Horner(b, c, k - 1), Bit(c, WIDTH - k);
      HornerStep(Times(a, b), c, k);
      HornerStep(b, c, k);
      Distributive(a, Xtime(p), Scale(t, b));
      Commutative(a, Xtime(p)); TimesXtime(p, a); Commutative(a, p);
      Commutative(a, Scale(t, b)); TimesScale(t, b, a); Commutative(a, b);
    }
  }

  lemma Associative(a: bv8, b: bv8, c: bv8)
    ensures Times(Times(a, b), c) == Times(a, Times(b, c))
  {
    hide Horner;
    HornerAssociative(a, b, c, WIDTH);
  }

  lemma Units(x: bv8)
    ensures Times(x, 1) == x == Times(1, x)
    ensures Times(x, 0) == 0 == Times(0, x)
    ensures Times(x, 2) == Xtime(x) == Times(2, x)
  {
    assert Xtime(1) == 2;
    hide *;
    TimesOne(x);
    Commutative(x, 1);
    TimesZero(x);
    TimesXtime(1, x);
    Commutative(x, 2);
  }

  // ---- no zero divisors ----

  function Masked(y: bv8, mask: bv8, x: bv8): bv8 {
    if y & mask != 0 then x else 0
  }

  // The product with the eight steps written out.
  function Unrolled(x: bv8, y: bv8): bv8 {
    var z1 := Masked(y, 0x80, x);
    var z2 := Plus(Xtime(z1), Masked(y, 0x40, x));
    var z3 := Plus(Xtime(z2), Masked(y, 0x20, x));
    var z4 := Plus(Xtime(z3), Masked(y, 0x10, x));
    var z5 := Plus(Xtime(z4), Masked(y, 0x08, x));
    var z6 := Plus(Xtime(z5), Masked(y, 0x04, x));
    var z7 := Plus(Xtime(z6), Masked(y, 0x02, x));
    Plus(Xtime(z7), Masked(y, 0x01, x))
  }

  lemma MaskBits(y: bv8)
    ensures (y & 0x80 != 0 <==> Bit(y, 7)) && (y & 0x40 != 0 <==> Bit(y, 6))
    ensures (y & 0x20 != 0 <==> Bit(y, 5)) && (y & 0x10 != 0 <==> Bit(y, 4))
    ensures (y & 0x08 != 0 <==> Bit(y, 3)) && (y & 0x04 != 0 <==> Bit(y, 2))
    ensures (y & 0x02 != 0 <==> Bit(y, 1)) && (y & 0x01 != 0 <==> Bit(y, 0))
  {}

  lemma StepsUnrolled(x: bv8, y: bv8)
    ensures Times(x, y) == Unrolled(x, y)
  {
    hide Horner, Plus, Xtime, Bit;
    MaskBits(y);
    PlusLaws(Scale(Bit(y, 7), x), 0, 0);
    HornerBase(x, y, WIDTH - 8);
    HornerStep(x, y, WIDTH - 7); HornerStep(x, y, WIDTH - 6);
    HornerStep(x, y, WIDTH - 5); HornerStep(x, y, WIDTH - 4);
    HornerStep(x, y, WIDTH - 3); HornerStep(x, y, WIDTH - 2);
    HornerStep(x, y, WIDTH - 1); HornerStep(x, y, WIDTH);
  }

  lemma NoZeroDivisorsHigh(x: bv8, y: bv8)
    requires x & 0x80 != 0 && y & 0xC0 == 0x80
    ensures Unrolled(x, y) != 0
  {}

  lemma NoZeroDivisorsTop(x: bv8, y: bv8)
    requires x & 0x80 != 0 && y & 0xC0 == 0xC0
    ensures Unrolled(x, y) != 0
  {}

  lemma NoZeroDivisorsMixed(x: bv8, y: bv8)
    requires x & 0x80 != 0 && y & 0x80 == 0 && y != 0
    ensures Unrolled(x, y) != 0
  {}

  lemma NoZeroDivisorsLow(x: bv8, y: bv8)
    requires x & 0x80 == 0 && y & 0x80 == 0 && x != 0 && y != 0
    ensures Unrolled(x, y) != 0
  {}

  lemma NoZeroDivisors(x: bv8, y: bv8)
    ensures Times(x, y) == 0 <==> x == 0 || y == 0
  {
    hide Times, Unrolled;
    Units(x); Units(y);
    StepsUnrolled(x, y); StepsUnrolled(y, x);
    Commutative(x, y);
    if x != 0 && y != 0 {
      if x & 0x80 != 0 && y & 0xC0 == 0x80 { NoZeroDivisorsHigh(x, y); }
      else if x & 0x80 != 0 && y & 0xC0 == 0xC0 { NoZeroDivisorsTop(x, y); }
      else if x & 0x80 != 0 { NoZeroDivisorsMixed(x, y); }
      else if y & 0x80 != 0 { NoZeroDivisorsMixed(y, x); }
      else { NoZeroDivisorsLow(x, y); }
    }
  }
}
