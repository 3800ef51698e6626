// The version words form a BCH code (ISO/IEC 18004:2015 section 7.10): each is the multiple of the generator polynomial
// whose upper six bits are the version, and two of them differ in at least eight modules.
module QrVersionCode {
  import opened QrTables

  const VERSION_STEPS: nat := 12

  function VersionValue(v: Version): (b: bv32)
    ensures b as int == v && b < 64
  {
    match v
    case 1 => 1 case 2 => 2 case 3 => 3 case 4 => 4 case 5 => 5 case 6 => 6 case 7 => 7 case 8 => 8
    case 9 => 9 case 10 => 10 case 11 => 11 case 12 => 12 case 13 => 13 case 14 => 14 case 15 => 15 case 16 => 16
    case 17 => 17 case 18 => 18 case 19 => 19 case 20 => 20 case 21 => 21 case 22 => 22 case 23 => 23 case 24 => 24
    case 25 => 25 case 26 => 26 case 27 => 27 case 28 => 28 case 29 => 29 case 30 => 30 case 31 => 31 case 32 => 32
    case 33 => 33 case 34 => 34 case 35 => 35 case 36 => 36 case 37 => 37 case 38 => 38 case 39 => 39 case _ => 40
  }

  function VersionStep(rem: bv32): bv32 {
    (rem << 1) ^ ((rem >> 11) * 0x1F25)
  }

  function VersionRemainder(data: bv32, steps: nat): bv32 {
    if steps == 0 then data else VersionStep(VersionRemainder(data, steps - 1))
  }

  function WithCheckBits(d: bv32, rem: bv32): bv32 {
    (d << 12) | rem
  }

  function VersionWord(v: Version): bv32 {
    WithCheckBits(VersionValue(v), VersionRemainder(VersionValue(v), VERSION_STEPS))
  }

  lemma RemainderSmall(rem: bv32)
    requires rem < 0x1000
    ensures VersionStep(rem) < 0x1000
  {
    assert rem >> 11 == 0 || rem >> 11 == 1;
  }

  lemma {:induction false} RemaindersSmall(data: bv32, steps: nat)
    requires data < 0x1000
    ensures VersionRemainder(data, steps) < 0x1000
  {
    hide VersionStep;
    if steps > 0 {
      RemaindersSmall(data, steps - 1);
      RemainderSmall(VersionRemainder(data, steps - 1));
    }
  }

  lemma WordSmall(d: bv32, rem: bv32)
    requires d < 64 && rem < 0x1000
    ensures WithCheckBits(d, rem) >> 18 == 0 && WithCheckBits(d, rem) >> 12 == d
  {}

  // The source's assertion about the length holds.
  lemma WordLength(v: Version)
    ensures VersionWord(v) >> 18 == 0
  {
    hide VersionValue, VersionRemainder, WithCheckBits;
    RemaindersSmall(VersionValue(v), VERSION_STEPS);
    WordSmall(VersionValue(v), VersionRemainder(VersionValue(v), VERSION_STEPS));
  }

  // The version number with its check bits.
  method VersionBits(v: Version) returns (bits: bv32)
    ensures bits == VersionWord(v)
  {
    hide VersionStep, VersionValue, WithCheckBits;
    var value := VersionValue(v);
    var rem := value;
    var i := 0;
    while i < VERSION_STEPS
      invariant 0 <= i <= VERSION_STEPS && rem == VersionRemainder(value, i)
    {
      rem := VersionStep(rem);
      i := i + 1;
    }
    WordLength(v);
    bits := WithCheckBits(value, rem);
    assert bits >> 18 == 0;
  }

  // ---- polynomials ----

  function Plus(a: bv32, b: bv32): bv32 {
    a ^ b
  }

  function Twice(a: bv32): bv32 {
    a << 1
  }

  function Feedback(rem: bv32): bv32 {
    (rem >> 11) * 0x1F25
  }

  // The carry-less product of a six-bit polynomial with x^12 + x^11 + x^10 + x^9 + x^8 + x^5 + x^2 + 1.
  function TimesGenerator(q: bv32): bv32 {
    ((q & 1) * 0x1F25) ^ ((q & 2) * 0x1F25) ^ ((q & 4) * 0x1F25) ^ ((q & 8) * 0x1F25) ^ ((q & 16) * 0x1F25)
    ^ ((q & 32) * 0x1F25)
  }

  lemma PlusTwice(a: bv32, b: bv32)
    ensures Twice(Plus(a, b)) == Plus(Twice(a), Twice(b))
  {}

  lemma PlusAssociates(a: bv32, b: bv32, c: bv32)
    ensures Plus(Plus(a, b), c) == Plus(a, Plus(b, c))
  {}

  lemma PlusOther(a: bv32, b: bv32)
    ensures Plus(b, Plus(a, b)) == a
  {}

  lemma PlusMiddle(a: bv32, g: bv32, b: bv32)
    ensures Plus(Plus(a, g), Plus(b, g)) == Plus(a, b)
  {
    hide Plus;
    PlusAssociates(a, g, Plus(b, g));
    PlusOther(b, g);
  }

  lemma PlusBack(a: bv32, b: bv32)
    ensures Plus(Plus(a, b), b) == a
  {}

  lemma StepSplit(rem: bv32)
    requires rem < 0x1000
    ensures VersionStep(rem) == Plus(Twice(rem), Feedback(rem))
  {}

  // ---- the division ----

  function QuotientStep(q: bv32, rem: bv32): bv32 {
    (q << 1) | (rem >> 11)
  }

  // The division of shifted data d has quotient q and remainder rem so far.
  predicate Divided(d: bv32, q: bv32, rem: bv32, bound: bv32) {
    d == Plus(TimesGenerator(q), rem) && q < bound && rem < 0x1000
  }

  lemma DivisionStep(d: bv32, q: bv32, rem: bv32, bound: bv32)
    requires Divided(d, q, rem, bound) && bound <= 0x20
    ensures Divided(Twice(d), QuotientStep(q, rem), VersionStep(rem), Twice(bound))
  {
    hide TimesGenerator, QuotientStep, VersionStep, Plus, Twice, Feedback;
    TimesStep(q, rem);
    PlusTwice(TimesGenerator(q), rem);
    PlusMiddle(Twice(TimesGenerator(q)), Feedback(rem), Twice(rem));
    StepSplit(rem);
    RemainderSmall(rem);
    QuotientBound(q, rem, bound);
  }

  lemma TimesStep(q: bv32, rem: bv32)
    requires q < 0x20 && rem < 0x1000
    ensures TimesGenerator(QuotientStep(q, rem)) == Plus(Twice(TimesGenerator(q)), Feedback(rem))
  {}

  lemma QuotientBound(q: bv32, rem: bv32, bound: bv32)
    requires rem < 0x1000 && q < bound <= 0x20
    ensures QuotientStep(q, rem) < Twice(bound)
  {}

  // Six-bit data gives no quotient in the first six steps.
  lemma NoQuotientYet(d: bv32, bound: bv32)
    requires d < bound <= 0x800
    ensures VersionStep(d) == Twice(d) < Twice(bound)
  {}

  lemma SixTwice(d: bv32)
    requires d < 0x40
    ensures Twice(Twice(Twice(Twice(Twice(Twice(d)))))) < 0x1000
    ensures Twice(Twice(Twice(Twice(Twice(Twice(Twice(Twice(Twice(Twice(Twice(Twice(d)))))))))))) == d << 12
  {}

  lemma Bounds()
    ensures Twice(0x40) == 0x80 && Twice(0x80) == 0x100 && Twice(0x100) == 0x200 && Twice(0x200) == 0x400
    ensures Twice(0x400) == 0x800
    ensures Twice(1) == 2 && Twice(2) == 4 && Twice(4) == 8 && Twice(8) == 0x10 && Twice(0x10) == 0x20
    ensures Twice(0x20) == 0x40
  {}

  lemma DividedStart(d: bv32)
    requires d < 0x1000
    ensures Divided(d, 0, d, 1)
  {}

  lemma DividedMeans(d: bv32, q: bv32, rem: bv32)
    requires Divided(d, q, rem, 0x40)
    ensures q < 0x40 && Plus(d, rem) == TimesGenerator(q)
  {
    hide TimesGenerator, Plus;
    PlusBack(TimesGenerator(q), rem);
  }

  lemma OneStep(data: bv32, steps: nat)
    requires steps > 0
    ensures VersionRemainder(data, steps) == VersionStep(VersionRemainder(data, steps - 1))
  {
    hide VersionStep;
  }

  lemma NoStep(data: bv32)
    ensures VersionRemainder(data, 0) == data
  {}

  // After six steps the data is only shifted.
  lemma SixSteps(data: bv32)
    requires data < 0x40
    ensures VersionRemainder(data, 6) == Twice(Twice(Twice(Twice(Twice(Twice(data))))))
  {
    hide VersionStep, VersionRemainder, Twice;
    Bounds();
    var d1 := Twice(data);
    var d2 := Twice(d1);
    var d3 := Twice(d2);
    var d4 := Twice(d3);
    NoQuotientYet(data, 0x40); NoQuotientYet(d1, 0x80); NoQuotientYet(d2, 0x100); NoQuotientYet(d3, 0x200);
    NoQuotientYet(d4, 0x400); NoQuotientYet(Twice(d4), 0x800);
    NoStep(data);
    OneStep(data, 1); OneStep(data, 2); OneStep(data, 3); OneStep(data, 4); OneStep(data, 5); OneStep(data, 6);
  }

  lemma WordIsMultiple(data: bv32) returns (q: bv32)
    requires data < 0x40
    ensures q < 0x40 && Plus(data << 12, VersionRemainder(data, VERSION_STEPS)) == TimesGenerator(q)
  {
    hide VersionStep, VersionRemainder, TimesGenerator, QuotientStep, Divided, Plus, Twice;
    Bounds();
    SixSteps(data);
    SixTwice(data);
    var d6 := VersionRemainder(data, 6);
    var r7, r8, r9 := VersionRemainder(data, 7), VersionRemainder(data, 8), VersionRemainder(data, 9);
    var r10, r11 := VersionRemainder(data, 10), VersionRemainder(data, 11);
    OneStep(data, 7); OneStep(data, 8); OneStep(data, 9); OneStep(data, 10); OneStep(data, 11); OneStep(data, 12);
    var q1 := QuotientStep(0, d6);
    var q2 := QuotientStep(q1, r7);
    var q3 := QuotientStep(q2, r8);
    var q4 := QuotientStep(q3, r9);
    var q5 := QuotientStep(q4, r10);
    q := QuotientStep(q5, r11);
    DividedStart(d6);
    DivisionStep(d6, 0, d6, 1);
    DivisionStep(Twice(d6), q1, r7, 2);
    DivisionStep(Twice(Twice(d6)), q2, r8, 4);
    DivisionStep(Twice(Twice(Twice(d6))), q3, r9, 8);
    DivisionStep(Twice(Twice(Twice(Twice(d6)))), q4, r10, 0x10);
    DivisionStep(Twice(Twice(Twice(Twice(Twice(d6))))), q5, r11, 0x20);
    DividedMeans(data << 12, q, VersionRemainder(data, VERSION_STEPS));
  }

  lemma WordBits(d: bv32, rem: bv32)
    requires d < 0x40 && rem < 0x1000
    ensures WithCheckBits(d, rem) == Plus(d << 12, rem)
  {}

  // A version word is a multiple of the generator, and its upper six bits are the version.
  lemma VersionIsMultiple(v: Version) returns (q: bv32)
    ensures q < 0x40 && VersionWord(v) == TimesGenerator(q) && VersionWord(v) >> 12 == VersionValue(v)
  {
    hide VersionValue, VersionRemainder, TimesGenerator, Plus, WithCheckBits;
    var data := VersionValue(v);
    RemaindersSmall(data, VERSION_STEPS);
    WordBits(data, VersionRemainder(data, VERSION_STEPS));
    WordSmall(data, VersionRemainder(data, VERSION_STEPS));
    q := WordIsMultiple(data);
  }

  // ---- the distance ----

  function Bit(b: bv32, mask: bv32): nat {
    if b & mask != 0 then 1 else 0
  }

  // The number of set bits among the low eighteen.
  function Weight(b: bv32): nat {
    Bit(b, 0x1) + Bit(b, 0x2) + Bit(b, 0x4) + Bit(b, 0x8) + Bit(b, 0x10) + Bit(b, 0x20)
    + Bit(b, 0x40) + Bit(b, 0x80) + Bit(b, 0x100) + Bit(b, 0x200) + Bit(b, 0x400) + Bit(b, 0x800)
    + Bit(b, 0x1000) + Bit(b, 0x2000) + Bit(b, 0x4000) + Bit(b, 0x8000) + Bit(b, 0x10000) + Bit(b, 0x20000)
  }

  lemma MultipleWeight(q: bv32)
    requires 0 < q < 0x40
    ensures Weight(TimesGenerator(q)) >= 8
  {}

  lemma MultipleSum(p: bv32, q: bv32)
    requires p < 0x40 && q < 0x40
    ensures Plus(TimesGenerator(p), TimesGenerator(q)) == TimesGenerator(Plus(p, q))
    ensures Plus(p, q) < 0x40 && (Plus(p, q) == 0 ==> p == q)
  {}

  // Different versions have words that differ in at least eight bits.
  lemma VersionWordsApart(v: Version, w: Version)
    requires v != w
    ensures Weight(Plus(VersionWord(v), VersionWord(w))) >= 8
  {
    hide VersionWord, TimesGenerator, Weight, Plus;
    var p := VersionIsMultiple(v);
    var q := VersionIsMultiple(w);
    MultipleSum(p, q);
    assert p != q;
    MultipleWeight(Plus(p, q));
  }
}
