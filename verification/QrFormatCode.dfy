// The format words form a BCH code (ISO/IEC 18004:2015 section 7.9): each is a multiple of the generator polynomial,
// and two of them differ in at least seven modules, so three wrong modules never hide the level or the mask.
module QrFormatCode {
  import opened QrMasking

  const PATTERN: bv16 := 0x5412

  // Sum of polynomials.
  function Plus(a: bv16, b: bv16): bv16 {
    a ^ b
  }

  function Twice(a: bv16): bv16 {
    a << 1
  }

  // What a division step subtracts.
  function Feedback(rem: bv16): bv16 {
    (rem >> 9) * 0x537
  }

  // The carry-less product of a five-bit polynomial with x^10 + x^8 + x^5 + x^4 + x^2 + x + 1.
  function TimesGenerator(q: bv16): bv16 {
    ((q & 1) * 0x537) ^ ((q & 2) * 0x537) ^ ((q & 4) * 0x537) ^ ((q & 8) * 0x537) ^ ((q & 16) * 0x537)
  }

  // ---- sums ----

  lemma PlusTwice(a: bv16, b: bv16)
    ensures Twice(Plus(a, b)) == Plus(Twice(a), Twice(b))
  {}

  lemma PlusAssociates(a: bv16, b: bv16, c: bv16)
    ensures Plus(Plus(a, b), c) == Plus(a, Plus(b, c))
  {}

  lemma PlusOther(a: bv16, b: bv16)
    ensures Plus(b, Plus(a, b)) == a
  {}

  lemma PlusMiddle(a: bv16, g: bv16, b: bv16)
    ensures Plus(Plus(a, g), Plus(b, g)) == Plus(a, b)
  {
    hide Plus;
    PlusAssociates(a, g, Plus(b, g));
    PlusOther(b, g);
  }

  lemma PlusBack(a: bv16, b: bv16)
    ensures Plus(Plus(a, b), b) == a
  {}

  lemma StepIs(rem: bv16)
    requires rem < 0x400
    ensures BchStep(rem) == Plus(Twice(rem), Feedback(rem))
  {}

  // ---- the division ----

  // The quotient bit that a division step shifts out joins those before it.
  function QuotientStep(q: bv16, rem: bv16): bv16 {
    (q << 1) | (rem >> 9)
  }

  // The division of shifted data d has quotient q and remainder rem so far.
  predicate Divided(d: bv16, q: bv16, rem: bv16, bound: bv16) {
    d == Plus(TimesGenerator(q), rem) && q < bound && rem < 0x400
  }

  lemma DivisionStep(d: bv16, q: bv16, rem: bv16, bound: bv16)
    requires Divided(d, q, rem, bound) && bound <= 0x10
    ensures Divided(Twice(d), QuotientStep(q, rem), BchStep(rem), Twice(bound))
  {
    hide TimesGenerator, QuotientStep, BchStep, Plus, Twice, Feedback;
    TimesStep(q, rem);
    PlusTwice(TimesGenerator(q), rem);
    PlusMiddle(Twice(TimesGenerator(q)), Feedback(rem), Twice(rem));
    StepIs(rem);
    BchStepSmall(rem);
    QuotientBound(q, rem, bound);
  }

  lemma TimesStep(q: bv16, rem: bv16)
    requires q < 0x10 && rem < 0x400
    ensures TimesGenerator(QuotientStep(q, rem)) == Plus(Twice(TimesGenerator(q)), Feedback(rem))
  {}

  lemma QuotientBound(q: bv16, rem: bv16, bound: bv16)
    requires rem < 0x400 && q < bound <= 0x10
    ensures QuotientStep(q, rem) < Twice(bound)
  {}

  // Five-bit data gives no quotient in the first five steps.
  lemma NoQuotientYet(d: bv16, bound: bv16)
    requires d < bound <= 0x200
    ensures BchStep(d) == Twice(d) < Twice(bound)
  {}

  lemma FiveTwice(d: bv16)
    requires d < 0x20
    ensures Twice(Twice(Twice(Twice(Twice(d))))) < 0x400
    ensures Twice(Twice(Twice(Twice(Twice(Twice(Twice(Twice(Twice(Twice(d)))))))))) == d << 10
  {}

  lemma Bounds()
    ensures Twice(0x20) == 0x40 && Twice(0x40) == 0x80 && Twice(0x80) == 0x100 && Twice(0x100) == 0x200
    ensures Twice(1) == 2 && Twice(2) == 4 && Twice(4) == 8 && Twice(8) == 0x10 && Twice(0x10) == 0x20
  {}

  lemma DividedStart(d: bv16)
    requires d < 0x400
    ensures Divided(d, 0, d, 1)
  {}

  lemma DividedMeans(d: bv16, q: bv16, rem: bv16)
    requires Divided(d, q, rem, 0x20)
    ensures q < 0x20 && Plus(d, rem) == TimesGenerator(q)
  {
    hide TimesGenerator, Plus;
    PlusBack(TimesGenerator(q), rem);
  }

  lemma OneStep(data: bv16, steps: nat)
    requires steps > 0
    ensures BchRemainder(data, steps) == BchStep(BchRemainder(data, steps - 1))
  {
    hide BchStep;
  }

  lemma NoStep(data: bv16)
    ensures BchRemainder(data, 0) == data
  {}

  // After five steps the data is only shifted.
  lemma FiveSteps(data: bv16)
    requires data < 0x20
    ensures BchRemainder(data, 5) == Twice(Twice(Twice(Twice(Twice(data)))))
  {
    hide BchStep, BchRemainder, Twice;
    Bounds();
    var d1 := Twice(data);
    var d2 := Twice(d1);
    var d3 := Twice(d2);
    NoQuotientYet(data, 0x20); NoQuotientYet(d1, 0x40); NoQuotientYet(d2, 0x80); NoQuotientYet(d3, 0x100);
    NoQuotientYet(Twice(d3), 0x200);
    NoStep(data);
    OneStep(data, 1); OneStep(data, 2); OneStep(data, 3); OneStep(data, 4); OneStep(data, 5);
  }

  // The data above the check bits and the check bits together are a multiple of the generator.
  lemma WordIsMultiple(data: bv16) returns (q: bv16)
    requires data < 0x20
    ensures q < 0x20 && Plus(data << 10, BchRemainder(data, BCH_STEPS)) == TimesGenerator(q)
  {
    hide BchStep, BchRemainder, TimesGenerator, QuotientStep, Divided, Plus, Twice;
    Bounds();
    FiveSteps(data);
    FiveTwice(data);
    var d5 := BchRemainder(data, 5);
    var r6, r7, r8, r9 := BchRemainder(data, 6), BchRemainder(data, 7), BchRemainder(data, 8), BchRemainder(data, 9);
    OneStep(data, 6); OneStep(data, 7); OneStep(data, 8); OneStep(data, 9); OneStep(data, 10);
    var q1 := QuotientStep(0, d5);
    var q2 := QuotientStep(q1, r6);
    var q3 := QuotientStep(q2, r7);
    var q4 := QuotientStep(q3, r8);
    q := QuotientStep(q4, r9);
    DividedStart(d5);
    DivisionStep(d5, 0, d5, 1);
    DivisionStep(Twice(d5), q1, r6, 2);
    DivisionStep(Twice(Twice(d5)), q2, r7, 4);
    DivisionStep(Twice(Twice(Twice(d5))), q3, r8, 8);
    DivisionStep(Twice(Twice(Twice(Twice(d5)))), q4, r9, 0x10);
    DividedMeans(data << 10, q, BchRemainder(data, BCH_STEPS));
  }

  lemma WordBits(d: bv16, rem: bv16)
    requires d < 0x20 && rem < 0x400
    ensures Plus(((d << 10) | rem) ^ PATTERN, PATTERN) == Plus(d << 10, rem)
  {}

  // A format word without its fixed pattern is a multiple of the generator.
  lemma FormatIsMultiple(e: Level, m: MaskNumber) returns (q: bv16)
    ensures q < 0x20 && Plus(FormatBits(e, m), PATTERN) == TimesGenerator(q)
  {
    FormatDataUnique(e, m);
    hide FormatData, BchRemainder, TimesGenerator, Plus;
    var data := FormatData(e, m);
    BchRemainderSmall(data, BCH_STEPS);
    WordBits(data, BchRemainder(data, BCH_STEPS));
    q := WordIsMultiple(data);
  }

  // ---- the distance ----

  // Four bits of a word.
  function Nibble(b: bv16, k: nat): bv16
    requires k < 4
  {
    match k
    case 0 => b & 15
    case 1 => (b >> 4) & 15
    case 2 => (b >> 8) & 15
    case _ => b >> 12
  }

  function Weight4(b: bv16): nat {
    (if b & 1 != 0 then 1 else 0) + (if b & 2 != 0 then 1 else 0) + (if b & 4 != 0 then 1 else 0)
    + (if b & 8 != 0 then 1 else 0)
  }

  // The number of set bits.
  function Weight(b: bv16): nat {
    Weight4(Nibble(b, 0)) + Weight4(Nibble(b, 1)) + Weight4(Nibble(b, 2)) + Weight4(Nibble(b, 3))
  }

  // No multiple of the generator but zero has fewer than seven set bits.
  lemma MultipleWeight(q: bv16)
    requires 0 < q < 0x20
    ensures Weight(TimesGenerator(q)) >= 7
  {}

  lemma MultipleSum(p: bv16, q: bv16)
    requires p < 0x20 && q < 0x20
    ensures Plus(TimesGenerator(p), TimesGenerator(q)) == TimesGenerator(Plus(p, q))
    ensures Plus(p, q) < 0x20 && (Plus(p, q) == 0 ==> p == q)
  {}

  // Different levels or masks have words that differ in at least seven bits.
  lemma FormatWordsApart(e: Level, m: MaskNumber, e': Level, m': MaskNumber)
    requires e != e' || m != m'
    ensures Weight(Plus(FormatBits(e, m), FormatBits(e', m'))) >= 7
  {
    WordsDiffer(e, m, e', m');
    hide FormatBits, TimesGenerator, Weight, Plus;
    var a, b := FormatBits(e, m), FormatBits(e', m');
    var p := FormatIsMultiple(e, m);
    var q := FormatIsMultiple(e', m');
    PlusMiddle(a, PATTERN, b);
    PlusBack(a, PATTERN);
    PlusBack(b, PATTERN);
    MultipleSum(p, q);
    MultipleWeight(Plus(p, q));
  }

  lemma WordsDiffer(e: Level, m: MaskNumber, e': Level, m': MaskNumber)
    requires e != e' || m != m'
    ensures FormatBits(e, m) != FormatBits(e', m')
  {
    FormatDataRecovered(e, m);
    FormatDataRecovered(e', m');
    hide FormatBits, FormatData;
  }

  lemma Triangle4(a: bv16, b: bv16, c: bv16, k: nat)
    requires k < 4
    ensures Weight4(Nibble(Plus(a, b), k)) <= Weight4(Nibble(Plus(c, a), k)) + Weight4(Nibble(Plus(c, b), k))
  {
    NibbleSum(a, b, k); NibbleSum(c, a, k); NibbleSum(c, b, k);
    SmallTriangle(Nibble(a, k), Nibble(b, k), Nibble(c, k));
    hide Weight4, Nibble, Plus;
  }

  lemma SmallTriangle(a: bv16, b: bv16, c: bv16)
    ensures Weight4(Plus(a, b)) <= Weight4(Plus(c, a)) + Weight4(Plus(c, b))
  {}

  lemma NibbleSum(a: bv16, b: bv16, k: nat)
    requires k < 4
    ensures Nibble(Plus(a, b), k) == Plus(Nibble(a, k), Nibble(b, k))
  {
    match k
    case 0 => NibbleSum0(a, b);
    case 1 => NibbleSum1(a, b);
    case 2 => NibbleSum2(a, b);
    case _ => NibbleSum3(a, b);
    hide Nibble, Plus;
  }

  lemma NibbleSum0(a: bv16, b: bv16)
    ensures Nibble(Plus(a, b), 0) == Plus(Nibble(a, 0), Nibble(b, 0))
  {}

  lemma NibbleSum1(a: bv16, b: bv16)
    ensures Nibble(Plus(a, b), 1) == Plus(Nibble(a, 1), Nibble(b, 1))
  {}

  lemma NibbleSum2(a: bv16, b: bv16)
    ensures Nibble(Plus(a, b), 2) == Plus(Nibble(a, 2), Nibble(b, 2))
  {}

  lemma NibbleSum3(a: bv16, b: bv16)
    ensures Nibble(Plus(a, b), 3) == Plus(Nibble(a, 3), Nibble(b, 3))
  {}

  lemma WeightTriangle(a: bv16, b: bv16, c: bv16)
    ensures Weight(Plus(a, b)) <= Weight(Plus(c, a)) + Weight(Plus(c, b))
  {
    hide Weight4, Nibble, Plus;
    Triangle4(a, b, c, 0); Triangle4(a, b, c, 1); Triangle4(a, b, c, 2); Triangle4(a, b, c, 3);
  }

  // A word with at most three wrong bits still determines level and mask.
  lemma ThreeErrorsCorrected(e: Level, m: MaskNumber, e': Level, m': MaskNumber, read: bv16)
    requires Weight(Plus(read, FormatBits(e, m))) <= 3 && Weight(Plus(read, FormatBits(e', m'))) <= 3
    ensures e == e' && m == m'
  {
    hide FormatBits, Weight, Plus;
    if e != e' || m != m' {
      FormatWordsApart(e, m, e', m');
      WeightTriangle(FormatBits(e, m), FormatBits(e', m'), read);
    }
  }
}
