// The data bit stream of a symbol: mode, count, payload, terminator and pads
// (ISO/IEC 18004:2015 section 7.4), and the choice of version and error correction level.
module QrStream {
  import opened GaloisField
  import opened QrPlacement
  import opened QrBits
  import opened QrTables

  // A segment as the encoder receives it; data holds bitLength payload bits.
  datatype Segment = Segment(mode: nat, numChars: nat, data: seq<bv8>, bitLength: nat)

  const INT16_MAX: int := 32767

  predicate KnownMode(mode: nat) {
    mode == 1 || mode == 2 || mode == 4 || mode == 8 || mode == 7
  }

  ghost predicate WellFormed(s: Segment) {
    KnownMode(s.mode) && s.numChars <= INT16_MAX && s.bitLength <= INT16_MAX && s.bitLength <= 8 * |s.data|
  }

  ghost predicate AllWellFormed(segs: seq<Segment>) {
    forall i :: 0 <= i < |segs| ==> WellFormed(segs[i])
  }

  // Width of the character count field.
  function NumCharCountBits(mode: nat, v: Version): (n: nat)
    ensures n <= 16
  {
    var i := (v + 7) / 17;
    match mode
    case 1 => if i == 0 then 10 else if i == 1 then 12 else 14
    case 2 => if i == 0 then 9 else if i == 1 then 11 else 13
    case 4 => if i == 0 then 8 else 16
    case 8 => if i == 0 then 8 else if i == 1 then 10 else 12
    case _ => 0
  }

  // ---- lengths ----

  predicate CountsFit(segs: seq<Segment>, v: Version) {
    forall i :: 0 <= i < |segs| ==> segs[i].numChars < Pow2(NumCharCountBits(segs[i].mode, v))
  }

  function SumBits(segs: seq<Segment>, v: Version): nat {
    if segs == [] then 0
    else
      var s := segs[|segs| - 1];
      SumBits(segs[..|segs| - 1], v) + 4 + NumCharCountBits(s.mode, v) + s.bitLength
  }

  // The bits needed at version v, or -1 if a count does not fit its field or the sum exceeds 32767.
  function TotalBits(segs: seq<Segment>, v: Version): int {
    if CountsFit(segs, v) && SumBits(segs, v) <= INT16_MAX then SumBits(segs, v) else -1
  }

  lemma {:induction false} SumGrows(segs: seq<Segment>, v: Version, i: nat)
    requires i <= |segs|
    ensures SumBits(segs[..i], v) <= SumBits(segs, v)
    decreases |segs|
  {
    if i < |segs| {
      SumGrows(segs[..|segs| - 1], v, i);
      assert segs[..|segs| - 1][..i] == segs[..i];
    } else {
      assert segs[..i] == segs;
    }
  }

  method GetTotalBits(segs: seq<Segment>, v: Version) returns (r: int)
    requires AllWellFormed(segs)
    ensures r == TotalBits(segs, v)
  {
    hide NumCharCountBits, Pow2;
    var result := 0;
    var i := 0;
    while i < |segs|
      invariant 0 <= i <= |segs|
      invariant result == SumBits(segs[..i], v) <= INT16_MAX
      invariant CountsFit(segs[..i], v)
    {
      var ccbits := NumCharCountBits(segs[i].mode, v);
      var limit := ComputePow2(ccbits);
      if segs[i].numChars >= limit {
        return -1;
      }
      assert segs[..i + 1][..i] == segs[..i];
      result := result + 4 + ccbits + segs[i].bitLength;
      if result > INT16_MAX {
        SumGrows(segs, v, i + 1);
        return -1;
      }
      i := i + 1;
    }
    assert segs[..|segs|] == segs;
    return result;
  }

  // ---- version and level ----

  ghost predicate Fits(segs: seq<Segment>, e: Ecc, v: Version) {
    TotalBits(segs, v) != -1 && TotalBits(segs, v) <= GetNumDataCodewords(e, v) * 8
  }

  // The smallest version in the range that holds the data, if any.
  method ChooseVersion(segs: seq<Segment>, e: Ecc, minVersion: Version, maxVersion: Version)
    returns (ok: bool, version: Version, used: int)
    requires AllWellFormed(segs) && minVersion <= maxVersion
    ensures ok ==> minVersion <= version <= maxVersion && Fits(segs, e, version) && used == TotalBits(segs, version)
    ensures ok ==> forall v: Version :: minVersion <= v < version ==> !Fits(segs, e, v)
    ensures !ok ==> forall v: Version :: minVersion <= v <= maxVersion ==> !Fits(segs, e, v)
  {
    hide TotalBits, GetNumDataCodewords, AllWellFormed;
    version := minVersion;
    while true
      invariant minVersion <= version <= maxVersion
      invariant forall v: Version :: minVersion <= v < version ==> !Fits(segs, e, v)
      decreases maxVersion - version
    {
      var dataCapacityBits := GetNumDataCodewords(e, version) * 8;
      used := GetTotalBits(segs, version);
      if used != -1 && used <= dataCapacityBits {
        return true, version, used;
      }
      if version >= maxVersion {
        return false, version, used;
      }
      version := version + 1;
    }
  }

  // Raises the level while the data still fits; never below the level asked for.
  method BoostLevel(segs: seq<Segment>, e: Ecc, v: Version, used: int, boostEcl: bool) returns (level: Ecc)
    requires Fits(segs, e, v) && used == TotalBits(segs, v)
    ensures e <= level && Fits(segs, level, v)
    ensures !boostEcl ==> level == e
    ensures boostEcl ==> forall f: Ecc :: Fits(segs, f, v) ==> f <= level
  {
    hide TotalBits, GetNumDataCodewords;
    level := e;
    var i := 1;
    while i <= 3
      invariant 1 <= i <= 4
      invariant Fits(segs, level, v)
      invariant !boostEcl ==> level == e
      invariant boostEcl ==> e <= level || i <= e
      invariant boostEcl ==> forall f: Ecc :: f < i && Fits(segs, f, v) ==> f <= level
    {
      if boostEcl && used <= GetNumDataCodewords(i, v) * 8 {
        level := i;
      }
      i := i + 1;
    }
  }

  // ---- the stream ----

  // The payload bits of a segment.
  function SegmentBits(s: Segment): (b: Bits)
    requires s.bitLength <= 8 * |s.data|
    ensures |b| == s.bitLength
  {
    seq(s.bitLength, j requires 0 <= j < s.bitLength => DataBit(s.data, j))
  }

  function SegmentStream(s: Segment, v: Version): Bits
    requires s.bitLength <= 8 * |s.data|
  {
    BitsOf(s.mode, 4) + BitsOf(s.numChars, NumCharCountBits(s.mode, v)) + SegmentBits(s)
  }

  ghost function SegmentsStream(segs: seq<Segment>, v: Version): (b: Bits)
    requires AllWellFormed(segs)
    ensures |b| == SumBits(segs, v)
  {
    if segs == [] then []
    else
      var n := |segs| - 1;
      assert AllWellFormed(segs[..n]) && WellFormed(segs[n]);
      SegmentsStream(segs[..n], v) + SegmentStream(segs[n], v)
  }

  function ZeroBits(n: nat): (b: Bits)
    ensures |b| == n
  {
    seq(n, _ => false)
  }

  // n pad bytes, alternating 0xEC and 0x11.
  function PadBytes(n: nat): (b: Bits)
    ensures |b| == 8 * n
  {
    if n == 0 then [] else PadBytes(n - 1) + BitsOf(if n % 2 == 1 then 0xEC else 0x11, 8)
  }

  function Lesser(a: nat, b: nat): nat { if a < b then a else b }

  // Terminator and byte alignment for len used bits of a capacity.
  function TailZeros(len: nat, capacity: nat): nat
    requires len <= capacity
  {
    var t := Lesser(4, capacity - len);
    t + (8 - (len + t) % 8) % 8
  }

  ghost function DataStream(segs: seq<Segment>, v: Version, capacity: nat): (b: Bits)
    requires AllWellFormed(segs) && SumBits(segs, v) <= capacity && capacity % 8 == 0
    ensures |b| == capacity
  {
    var used := SumBits(segs, v);
    var zeros := TailZeros(used, capacity);
    TailFacts(used, capacity);
    WholeBytes(capacity - used - zeros);
    SegmentsStream(segs, v) + ZeroBits(zeros) + PadBytes((capacity - used - zeros) / 8)
  }

  lemma WholeBytes(n: nat)
    ensures n % 8 == 0 ==> 8 * (n / 8) == n
  {}

  lemma TailFacts(len: nat, capacity: nat)
    requires len <= capacity && capacity % 8 == 0
    ensures len + TailZeros(len, capacity) <= capacity
    ensures (len + TailZeros(len, capacity)) % 8 == 0
    ensures TailZeros(len, capacity) <= 11
    ensures (capacity - len - TailZeros(len, capacity)) % 8 == 0
    ensures TailZeros(len, capacity) >= 4 || len + TailZeros(len, capacity) == capacity
  {
    var t := Lesser(4, capacity - len);
    RoundUp(len + t, capacity);
    WholeRest(len + TailZeros(len, capacity), capacity);
  }

  lemma WholeRest(x: nat, c: nat)
    requires x <= c && x % 8 == 0 && c % 8 == 0
    ensures (c - x) % 8 == 0
  {
    assert c - x == 8 * (c / 8 - x / 8);
  }

  lemma RoundUp(x: nat, c: nat)
    requires x <= c && c % 8 == 0
    ensures var p := (8 - x % 8) % 8; p <= 7 && x + p <= c && (x + p) % 8 == 0
  {
    var q, r := x / 8, x % 8;
    var p := (8 - x % 8) % 8;
    if r == 0 {
      assert p == 0;
    } else {
      assert p == 8 - r;
      assert x + p == 8 * (q + 1);
    }
  }

  // ---- writing the stream ----

  // Copies the payload bits of one segment.
  method AppendSegmentBits(s: Segment, buf: array<bv8>, ghost bits: Bits, bitLen0: nat) returns (bitLen: nat)
    requires WellFormed(s) && Holds(buf[..], bits) && bitLen0 == |bits| && |bits| + s.bitLength <= 8 * buf.Length
    modifies buf
    ensures Holds(buf[..], bits + SegmentBits(s)) && bitLen == |bits| + s.bitLength
  {
    hide Holds, BitsOf, Pow2, DataBit;
    bitLen := bitLen0;
    ghost var added := SegmentBits(s);
    assert bits + added[..0] == bits;
    var j := 0;
    while j < s.bitLength
      invariant 0 <= j <= s.bitLength
      invariant bitLen == |bits| + j
      invariant Holds(buf[..], bits + added[..j])
    {
      DataBitByShift(s.data, j);
      var bit: nat := if (s.data[j / 8] >> (7 - j % 8)) & 1 != 0 then 1 else 0;
      OneBit(bit);
      bitLen := AppendBitsToBuffer(bit, 1, buf, bits + added[..j], bitLen);
      assert bits + added[..j] + [added[j]] == bits + added[..j + 1];
      j := j + 1;
    }
    assert added[..s.bitLength] == added;
  }

  lemma OneBit(bit: nat)
    requires bit <= 1
    ensures bit < Pow2(1) && BitsOf(bit, 1) == [bit == 1]
  {
    assert BitsOf(bit, 1) == BitsOf(bit / 2, 0) + [bit % 2 == 1];
  }

  // One segment: mode, count, payload.
  method AppendSegment(s: Segment, v: Version, buf: array<bv8>, ghost bits: Bits, bitLen0: nat) returns (bitLen: nat)
    requires WellFormed(s) && s.numChars < Pow2(NumCharCountBits(s.mode, v))
    requires Holds(buf[..], bits) && bitLen0 == |bits|
    requires |bits| + 4 + NumCharCountBits(s.mode, v) + s.bitLength <= 8 * buf.Length
    modifies buf
    ensures Holds(buf[..], bits + SegmentStream(s, v)) && bitLen == |bits| + |SegmentStream(s, v)|
  {
    hide Holds, BitsOf, SegmentBits, NumCharCountBits, Pow2;
    ModeFits(s.mode);
    bitLen := AppendBitsToBuffer(s.mode, 4, buf, bits, bitLen0);
    ghost var b1 := bits + BitsOf(s.mode, 4);
    bitLen := AppendBitsToBuffer(s.numChars, NumCharCountBits(s.mode, v), buf, b1, bitLen);
    ghost var b2 := b1 + BitsOf(s.numChars, NumCharCountBits(s.mode, v));
    bitLen := AppendSegmentBits(s, buf, b2, bitLen);
    assert b2 + SegmentBits(s) == bits + SegmentStream(s, v);
  }

  lemma ModeFits(mode: nat)
    requires KnownMode(mode)
    ensures mode < Pow2(4)
  {
    assert Pow2(4) == 16;
  }

  method AppendSegments(segs: seq<Segment>, v: Version, buf: array<bv8>) returns (bitLen: nat)
    requires AllWellFormed(segs) && CountsFit(segs, v)
    requires Holds(buf[..], []) && SumBits(segs, v) <= 8 * buf.Length
    modifies buf
    ensures Holds(buf[..], SegmentsStream(segs, v)) && bitLen == SumBits(segs, v)
  {
    hide Holds, SegmentStream, NumCharCountBits, Pow2;
    bitLen := 0;
    var i := 0;
    while i < |segs|
      invariant 0 <= i <= |segs|
      invariant AllWellFormed(segs[..i])
      invariant Holds(buf[..], SegmentsStream(segs[..i], v)) && bitLen == SumBits(segs[..i], v)
    {
      SumGrows(segs, v, i + 1);
      assert segs[..i + 1][..i] == segs[..i];
      bitLen := AppendSegment(segs[i], v, buf, SegmentsStream(segs[..i], v), bitLen);
      i := i + 1;
    }
    assert segs[..|segs|] == segs;
  }

  method AppendTerminator(buf: array<bv8>, ghost bits: Bits, bitLen0: nat, capacity: nat) returns (bitLen: nat)
    requires Holds(buf[..], bits) && bitLen0 == |bits| <= capacity <= 8 * buf.Length && capacity % 8 == 0
    modifies buf
    ensures bitLen == |bits| + TailZeros(|bits|, capacity) <= capacity && bitLen % 8 == 0
    ensures Holds(buf[..], bits + ZeroBits(TailZeros(|bits|, capacity)))
  {
    hide Holds, BitsOf, Pow2;
    TailFacts(|bits|, capacity);
    var terminatorBits := capacity - bitLen0;
    if terminatorBits > 4 {
      terminatorBits := 4;
    }
    ZeroAppend(terminatorBits);
    bitLen := AppendBitsToBuffer(0, terminatorBits, buf, bits, bitLen0);
    ghost var b1 := bits + ZeroBits(terminatorBits);
    var align := (8 - bitLen % 8) % 8;
    ZeroAppend(align);
    bitLen := AppendBitsToBuffer(0, align, buf, b1, bitLen);
    assert b1 + ZeroBits(align) == bits + ZeroBits(terminatorBits + align);
  }

  // Alternating bytes until the capacity is reached.
  method AppendPads(buf: array<bv8>, ghost bits: Bits, bitLen0: nat, capacity: nat)
    requires Holds(buf[..], bits) && bitLen0 == |bits| <= capacity <= 8 * buf.Length
    requires capacity % 8 == 0 && bitLen0 % 8 == 0
    modifies buf
    ensures Holds(buf[..], bits + PadBytes((capacity - |bits|) / 8))
  {
    hide Holds, BitsOf, Pow2, PadBytes;
    ghost var total := (capacity - |bits|) / 8;
    PadStart(bits);
    var bitLen := bitLen0;
    var padByte: nat := 0xEC;
    ghost var k := 0;
    while bitLen < capacity
      invariant 0 <= k <= total && bitLen == |bits| + 8 * k
      invariant padByte == if k % 2 == 0 then 0xEC else 0x11
      invariant Holds(buf[..], bits + PadBytes(k))
      decreases capacity - bitLen
    {
      PadFits(padByte);
      PadStep(bits, k, padByte);
      bitLen := AppendBitsToBuffer(padByte, 8, buf, bits + PadBytes(k), bitLen);
      padByte := if padByte == 0xEC then 0x11 else 0xEC;
      k := k + 1;
    }
  }

  lemma PadStart(bits: Bits)
    ensures bits + PadBytes(0) == bits
  {}

  lemma PadStep(bits: Bits, k: nat, padByte: nat)
    requires padByte == if k % 2 == 0 then 0xEC else 0x11
    ensures bits + PadBytes(k) + BitsOf(padByte, 8) == bits + PadBytes(k + 1)
  {
    hide BitsOf;
  }

  lemma {:induction false} ZeroAppend(n: nat)
    ensures 0 < Pow2(n) && BitsOf(0, n) == ZeroBits(n)
  {
    if n > 0 { ZeroAppend(n - 1); }
  }

  lemma PadFits(b: nat)
    requires b < 256
    ensures b < Pow2(8)
  {
    assert Pow2(8) == 256;
  }

  // The buffer holds the whole data stream of the segments and nothing else.
  ghost predicate StreamHeld(buf: seq<bv8>, segs: seq<Segment>, e: Ecc, v: Version) {
    && AllWellFormed(segs) && SumBits(segs, v) <= CapacityBits(e, v)
    && Holds(buf, DataStream(segs, v, CapacityBits(e, v)))
  }

  // The data bits of a version and level.
  function CapacityBits(e: Ecc, v: Version): (c: int)
    ensures c % 8 == 0
  {
    EightFold(GetNumDataCodewords(e, v))
  }

  function EightFold(n: int): (c: int)
    ensures c % 8 == 0
  {
    n * 8
  }

  lemma HeldStream(buf: seq<bv8>, segs: seq<Segment>, e: Ecc, v: Version)
    requires StreamHeld(buf, segs, e, v)
    ensures AllWellFormed(segs) && SumBits(segs, v) <= CapacityBits(e, v)
    ensures Holds(buf, DataStream(segs, v, CapacityBits(e, v)))
  {
    hide Holds, GetNumDataCodewords, DataStream, AllWellFormed, SumBits, CapacityBits;
  }

  // The data part of the encoder: version, level and the bytes of the data codewords.
  // The buffer is cleared first; nothing else of it is used here.
  method EncodeData(segs: seq<Segment>, e: Ecc, minVersion: Version, maxVersion: Version, boostEcl: bool,
      buf: array<bv8>)
    returns (ok: bool, version: Version, level: Ecc)
    requires AllWellFormed(segs) && minVersion <= maxVersion
    requires buf.Length > 0
    requires forall f: Ecc, v: Version :: v <= maxVersion ==> GetNumDataCodewords(f, v) <= buf.Length
    modifies buf
    ensures !ok ==> buf[0] == 0
    ensures !ok ==> forall v: Version :: minVersion <= v <= maxVersion ==> !Fits(segs, e, v)
    ensures ok ==> minVersion <= version <= maxVersion && Fits(segs, e, version)
    ensures ok ==> forall v: Version :: minVersion <= v < version ==> !Fits(segs, e, v)
    ensures ok ==> e <= level && Fits(segs, level, version)
    ensures ok && !boostEcl ==> level == e
    ensures ok && boostEcl ==> forall f: Ecc :: Fits(segs, f, version) ==> f <= level
    ensures ok ==> StreamHeld(buf[..], segs, level, version)
  {
    hide Holds, GetNumDataCodewords, SegmentsStream, PadBytes, CountsFit, SumBits;
    var used;
    ok, version, used := ChooseVersion(segs, e, minVersion, maxVersion);
    level := e;
    if ok {
      level := BoostLevel(segs, e, version, used, boostEcl);
      ClearBuffer(buf);
      var capacity := CapacityBits(level, version);
      var bitLen := AppendSegments(segs, version, buf);
      TailFacts(SumBits(segs, version), capacity);
      bitLen := AppendTerminator(buf, SegmentsStream(segs, version), bitLen, capacity);
      AppendPads(buf, SegmentsStream(segs, version) + ZeroBits(TailZeros(SumBits(segs, version), capacity)), bitLen,
          capacity);
    } else {
      buf[0] := 0;
    }
  }

  method ClearBuffer(buf: array<bv8>)
    modifies buf
    ensures Holds(buf[..], [])
  {
    hide Bit;
    ZeroBit();
    var i := 0;
    while i < buf.Length
      invariant 0 <= i <= buf.Length
      invariant forall k :: 0 <= k < i ==> buf[k] == 0
    {
      buf[i] := 0;
      i := i + 1;
    }
  }

  lemma ZeroBit()
    ensures forall i: nat :: i < WIDTH ==> !Bit(0, i)
  {}
}
