// The round constants are the words that FIPS 202 section 3.2.5 defines by a shift register.
module KeccakConstants {
  import opened KeccakSpec

  // ---- the standard's definition ----

  // One step of the register, whose bit k is R[k]: the bit that leaves it is fed back to the places 0, 4, 5 and 6.
  function Shift(r: bv8): bv8 {
    (r << 1) ^ (if r & 0x80 != 0 then 0x71 else 0)
  }

  function Register(t: nat): bv8 {
    if t == 0 then 0x01 else Shift(Register(t - 1))
  }

  predicate First(r: bv8) {
    r & 1 != 0
  }

  // rc(t)
  predicate RcBit(t: nat) {
    First(Register(t % 255))
  }

  // Bit 2^j - 1 of a word.
  function PowerBit(j: nat): bv64
    requires j < 7
  {
    match j
    case 0 => 0x1 case 1 => 0x2 case 2 => 0x8 case 3 => 0x80 case 4 => 0x8000 case 5 => 0x80000000
    case _ => 0x8000000000000000
  }

  function With(word: bv64, bit: bool, j: nat): bv64
    requires j < 7
  {
    if bit then word | PowerBit(j) else word
  }

  // The constant of round i with the first n of its seven bits.
  function Word(i: nat, n: nat): bv64
    requires n <= 7
  {
    if n == 0 then 0 else With(Word(i, n - 1), RcBit(n - 1 + 7 * i), n - 1)
  }

  // ---- the register at the rounds ----

  // The register at the start of each round.
  function State(i: nat): bv8
    requires i < ROUNDS
  {
    match i
    case 0 => 0x01 case 1 => 0x80 case 2 => 0xd8 case 3 => 0x1a case 4 => 0xdf case 5 => 0x09 case 6 => 0x35
    case 7 => 0x4f case 8 => 0xca case 9 => 0x70 case 10 => 0x41 case 11 => 0xec case 12 => 0xd5 case 13 => 0xcd
    case 14 => 0x63 case 15 => 0xab case 16 => 0xaa case 17 => 0x2a case 18 => 0xf2 case 19 => 0xe8 case 20 => 0x37
    case 21 => 0x3e case 22 => 0x0b case _ => 0x44
  }

  function Shifted(r: bv8, j: nat): bv8 {
    if j == 0 then r else Shift(Shifted(r, j - 1))
  }

  lemma {:induction false} ShiftedRegister(t: nat, j: nat)
    ensures Register(t + j) == Shifted(Register(t), j)
  {
    hide Shift;
    if j > 0 { ShiftedRegister(t, j - 1); }
  }

  // Seven steps, and the bits that they begin with.
  function Seven(r: bv8): bv8 {
    Shift(Shift(Shift(Shift(Shift(Shift(Shift(r)))))))
  }

  function WordFrom(r: bv8): bv64 {
    var r1 := Shift(r);
    var r2 := Shift(r1);
    var r3 := Shift(r2);
    var r4 := Shift(r3);
    var r5 := Shift(r4);
    var r6 := Shift(r5);
    var low := With(With(With(With(0, First(r), 0), First(r1), 1), First(r2), 2), First(r3), 3);
    With(With(With(low, First(r4), 4), First(r5), 5), First(r6), 6)
  }

  lemma SevenIs(r: bv8)
    ensures Shifted(r, 0) == r && Shifted(r, 1) == Shift(r) && Shifted(r, 2) == Shift(Shift(r))
    ensures Shifted(r, 3) == Shift(Shift(Shift(r))) && Shifted(r, 4) == Shift(Shift(Shift(Shift(r))))
    ensures Shifted(r, 5) == Shift(Shift(Shift(Shift(Shift(r)))))
    ensures Shifted(r, 6) == Shift(Shift(Shift(Shift(Shift(Shift(r))))))
    ensures Shifted(r, 7) == Seven(r)
  {
    hide Shift;
  }

  // The register and the word of every round.
  lemma EarlyRounds()
    ensures WordFrom(0x01) == 0x0000000000000001 && WordFrom(0x80) == 0x0000000000008082
    ensures WordFrom(0xd8) == 0x800000000000808a && WordFrom(0x1a) == 0x8000000080008000
    ensures WordFrom(0xdf) == 0x000000000000808b && WordFrom(0x09) == 0x0000000080000001
    ensures WordFrom(0x35) == 0x8000000080008081 && WordFrom(0x4f) == 0x8000000000008009
    ensures Seven(0x01) == 0x80 && Seven(0x80) == 0xd8 && Seven(0xd8) == 0x1a && Seven(0x1a) == 0xdf
    ensures Seven(0xdf) == 0x09 && Seven(0x09) == 0x35 && Seven(0x35) == 0x4f && Seven(0x4f) == 0xca
  {}

  lemma MiddleRounds()
    ensures WordFrom(0xca) == 0x000000000000008a && WordFrom(0x70) == 0x0000000000000088
    ensures WordFrom(0x41) == 0x0000000080008009 && WordFrom(0xec) == 0x000000008000000a
    ensures WordFrom(0xd5) == 0x000000008000808b && WordFrom(0xcd) == 0x800000000000008b
    ensures WordFrom(0x63) == 0x8000000000008089 && WordFrom(0xab) == 0x8000000000008003
    ensures Seven(0xca) == 0x70 && Seven(0x70) == 0x41 && Seven(0x41) == 0xec && Seven(0xec) == 0xd5
    ensures Seven(0xd5) == 0xcd && Seven(0xcd) == 0x63 && Seven(0x63) == 0xab && Seven(0xab) == 0xaa
  {}

  lemma LateRounds()
    ensures WordFrom(0xaa) == 0x8000000000008002 && WordFrom(0x2a) == 0x8000000000000080
    ensures WordFrom(0xf2) == 0x000000000000800a && WordFrom(0xe8) == 0x800000008000000a
    ensures WordFrom(0x37) == 0x8000000080008081 && WordFrom(0x3e) == 0x8000000000008080
    ensures WordFrom(0x0b) == 0x0000000080000001 && WordFrom(0x44) == 0x8000000080008008
    ensures Seven(0xaa) == 0x2a && Seven(0x2a) == 0xf2 && Seven(0xf2) == 0xe8 && Seven(0xe8) == 0x37
    ensures Seven(0x37) == 0x3e && Seven(0x3e) == 0x0b && Seven(0x0b) == 0x44
  {}

  lemma EachRound(i: nat)
    requires i < ROUNDS
    ensures WordFrom(State(i)) == RoundConstant(i) && (i < 23 ==> Seven(State(i)) == State(i + 1))
  {
    hide WordFrom, Seven;
    if i < 8 { EarlyRounds(); } else if i < 16 { MiddleRounds(); } else { LateRounds(); }
  }

  lemma RegisterStart()
    ensures Register(0) == State(0)
  {}

  lemma {:induction false} RegisterAtRound(i: nat)
    requires i < ROUNDS
    ensures Register(7 * i) == State(i)
  {
    hide Shift, Shifted, Seven, Register, State;
    if i == 0 {
      RegisterStart();
    } else {
      RegisterAtRound(i - 1);
      ShiftedRegister(7 * (i - 1), 7);
      SevenIs(State(i - 1));
      EachRound(i - 1);
    }
  }

  lemma BitAtRound(i: nat, j: nat)
    requires i < ROUNDS && j < 7
    ensures RcBit(j + 7 * i) == First(Shifted(State(i), j))
  {
    hide Register, Shifted, State, First;
    RegisterAtRound(i);
    ShiftedRegister(7 * i, j);
    assert (j + 7 * i) % 255 == j + 7 * i;
  }

  lemma WordBits(i: nat, r: bv8)
    requires forall j :: 0 <= j < 7 ==> RcBit(j + 7 * i) == First(Shifted(r, j))
    ensures Word(i, 7) == WordFrom(r)
  {
    hide First, Shift, Shifted, RcBit, With, Word, Seven;
    SevenIs(r);
    WordStart(i);
    WordStep(i, 1); WordStep(i, 2); WordStep(i, 3); WordStep(i, 4); WordStep(i, 5); WordStep(i, 6); WordStep(i, 7);
  }

  lemma WordStart(i: nat)
    ensures Word(i, 0) == 0
  {}

  lemma WordStep(i: nat, n: nat)
    requires 0 < n <= 7
    ensures Word(i, n) == With(Word(i, n - 1), RcBit(n - 1 + 7 * i), n - 1)
  {
    hide RcBit, With;
  }

  // The table lists the constants of the standard.
  lemma RoundConstantIs(i: nat)
    requires i < ROUNDS
    ensures RoundConstant(i) == Word(i, 7)
  {
    hide Shifted, State, First, RcBit, Word, WordFrom, RoundConstant;
    forall j | 0 <= j < 7 ensures RcBit(j + 7 * i) == First(Shifted(State(i), j)) { BitAtRound(i, j); }
    WordBits(i, State(i));
    EachRound(i);
  }
}
