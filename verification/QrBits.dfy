// Bit strings, most significant bit first, and the byte buffer that stores them.
module QrBits {
  import opened GaloisField
  import opened QrGrid
  import opened QrPlacement

  type Bits = seq<bool>

  function Pow2(n: nat): (p: nat)
    ensures p > 0
  {
    if n == 0 then 1 else 2 * Pow2(n - 1)
  }

  // The low n bits of v.
  function BitsOf(v: nat, n: nat): (b: Bits)
    ensures |b| == n
  {
    if n == 0 then [] else BitsOf(v / 2, n - 1) + [v % 2 == 1]
  }

  // The number written by a bit string.
  function NumberOf(b: Bits): nat {
    if b == [] then 0 else 2 * NumberOf(b[..|b| - 1]) + if b[|b| - 1] then 1 else 0
  }

  lemma {:induction false} NumberOfBits(v: nat, n: nat)
    requires v < Pow2(n)
    ensures NumberOf(BitsOf(v, n)) == v
  {
    if n > 0 {
      NumberOfBits(v / 2, n - 1);
      assert BitsOf(v, n)[..n - 1] == BitsOf(v / 2, n - 1);
    }
  }

  // Bit k counted from the left is the one with weight 2^(n-1-k).
  lemma {:induction false} BitsOfAt(v: nat, n: nat, k: nat)
    requires k < n
    ensures BitsOf(v, n)[k] == (v / Pow2(n - 1 - k) % 2 == 1)
  {
    if k < n - 1 {
      BitsOfAt(v / 2, n - 1, k);
      HalveFirst(v, n - 2 - k);
    }
  }

  lemma HalveFirst(v: nat, k: nat)
    ensures v / 2 / Pow2(k) == v / Pow2(k + 1)
  {
    DivDiv(v, Pow2(k));
  }

  lemma DivDiv(v: nat, p: nat)
    requires p > 0
    ensures v / 2 / p == v / (2 * p)
  {
    var q, r := v / (2 * p), v % (2 * p);
    assert v == 2 * p * q + r;
    var w := v / 2;
    assert w == p * q + r / 2;
    assert 0 <= r / 2 < p;
    Arithmetic.DivMod(p, q, r / 2);
  }

  import Arithmetic

  // buf holds the bits and is clear behind them.
  ghost predicate Holds(buf: seq<bv8>, bits: Bits) {
    && |bits| <= 8 * |buf|
    && (forall k :: 0 <= k < |bits| ==> DataBit(buf, k) == bits[k])
    && forall k :: |bits| <= k < 8 * |buf| ==> !DataBit(buf, k)
  }

  lemma OrBit(b: bv8, i: nat, v: bool)
    requires i < WIDTH && !Bit(b, i)
    ensures v ==> b | Mask(i) == SetBit(b, i, true)
    ensures b == SetBit(b, i, false)
  {
    BitIsMasked(b, i);
    hide Bit, Mask;
    var m := Mask(i);
    assert b & m == 0 ==> b == b & (m ^ 0xFF);
  }

  // The source's |= on one byte.
  method OrIntoByte(b: bv8, i: nat, bit: bool) returns (r: bv8)
    requires i < WIDTH && !Bit(b, i)
    ensures r == SetBit(b, i, bit)
  {
    OrBit(b, i, bit);
    ShiftedOne(i);
    hide Bit, SetBit, Mask;
    var m: bv8 := 1 << i;
    r := b | if bit then m else 0;
  }

  lemma AppendedHolds(buf: seq<bv8>, bits: Bits, bit: bool)
    requires Holds(buf, bits) && |bits| < 8 * |buf|
    ensures var k := |bits| / 8;
      Holds(buf[k := SetBit(buf[k], 7 - |bits| % 8, bit)], bits + [bit])
  {
    hide Bit, SetBit;
    var n := |bits|;
    var byte, i := n / 8, 7 - n % 8;
    var buf' := buf[byte := SetBit(buf[byte], i, bit)];
    SetBitSame(buf[byte], i, bit);
    forall k | 0 <= k < 8 * |buf| && k != n
      ensures DataBit(buf', k) == DataBit(buf, k)
    {
      if k / 8 == byte { SetBitOther(buf[byte], i, bit, 7 - k % 8); }
    }
  }

  // One more bit at the end.
  method AppendBit(buf: array<bv8>, ghost bits: Bits, bitLen: nat, bit: bool)
    requires Holds(buf[..], bits) && bitLen == |bits| < 8 * buf.Length
    modifies buf
    ensures Holds(buf[..], bits + [bit])
  {
    hide Bit, SetBit, Mask;
    var byte, i := bitLen / 8, 7 - bitLen % 8;
    assert !DataBit(buf[..], bitLen);
    AppendedHolds(buf[..], bits, bit);
    hide Holds;
    ghost var before := buf[..];
    var r := OrIntoByte(buf[byte], i, bit);
    buf[byte] := r;
    assert buf[..] == before[byte := r];
  }

  // Appends the low numBits bits of val.
  method AppendBitsToBuffer(val: nat, numBits: nat, buf: array<bv8>, ghost bits: Bits, bitLen0: nat)
    returns (bitLen: nat)
    requires numBits <= 16 && val < Pow2(numBits)
    requires Holds(buf[..], bits) && bitLen0 == |bits| && |bits| + numBits <= 8 * buf.Length
    modifies buf
    ensures bitLen == |bits| + numBits
    ensures Holds(buf[..], bits + BitsOf(val, numBits))
  {
    hide Holds, BitsOf, Pow2;
    bitLen := bitLen0;
    ghost var added := BitsOf(val, numBits);
    assert bits + added[..0] == bits;
    var i := numBits - 1;
    while i >= 0
      invariant -1 <= i < numBits
      invariant bitLen == |bits| + (numBits - 1 - i)
      invariant Holds(buf[..], bits + added[..numBits - 1 - i])
    {
      ghost var k := numBits - 1 - i;
      BitsOfAt(val, numBits, k);
      var p := ComputePow2(i);
      AppendBit(buf, bits + added[..k], bitLen, val / p % 2 == 1);
      assert bits + added[..k] + [added[k]] == bits + added[..k + 1];
      bitLen := bitLen + 1;
      i := i - 1;
    }
    assert added[..numBits] == added;
  }

  method ComputePow2(n: nat) returns (p: nat)
    ensures p == Pow2(n) > 0
  {
    p := 1;
    for i := 0 to n
      invariant p == Pow2(i)
    {
      p := 2 * p;
    }
  }
}
