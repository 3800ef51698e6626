// A reader for data bit streams, and the proof that it recovers every encoded text.
module QrDecode {
  import opened GaloisField
  import opened QrGrid
  import opened QrPlacement
  import opened QrBits
  import opened QrSegments
  import opened QrStream
  import opened QrTables

  // What a segment says.
  datatype Content = Characters(mode: Mode, text: string) | Bytes(bytes: seq<bv8>)

  // ---- bytes ----

  function MaskIf(b: bool, i: nat): bv8
    requires i < WIDTH
  {
    if b then Mask(i) else 0
  }

  // The byte with the given bits, most significant first.
  function ByteOf(b: Bits): bv8
    requires |b| == 8
  {
    MaskIf(b[0], 7) | MaskIf(b[1], 6) | MaskIf(b[2], 5) | MaskIf(b[3], 4)
    | MaskIf(b[4], 3) | MaskIf(b[5], 2) | MaskIf(b[6], 1) | MaskIf(b[7], 0)
  }

  function BitsOfByte(x: bv8): (b: Bits)
    ensures |b| == 8
  {
    [Bit(x, 7), Bit(x, 6), Bit(x, 5), Bit(x, 4), Bit(x, 3), Bit(x, 2), Bit(x, 1), Bit(x, 0)]
  }

  lemma ByteRoundTrip(x: bv8)
    ensures ByteOf(BitsOfByte(x)) == x
  {
    MaskBits(x);
    hide Bit;
  }

  function BytesStream(d: seq<bv8>): Bits {
    if d == [] then [] else BitsOfByte(d[0]) + BytesStream(d[1..])
  }

  function ReadBytes(bits: Bits, n: nat): (seq<bv8>, Bits) {
    if n == 0 || |bits| < 8 then ([], bits)
    else
      var (d, rest) := ReadBytes(bits[8..], n - 1);
      ([ByteOf(bits[..8])] + d, rest)
  }

  lemma {:induction false} BytesRoundTrip(d: seq<bv8>, rest: Bits)
    ensures ReadBytes(BytesStream(d) + rest, |d|) == (d, rest)
  {
    hide BitsOfByte, ByteOf;
    if d == [] {
      assert BytesStream(d) + rest == rest;
    } else {
      BytesRoundTrip(d[1..], rest);
      ByteRoundTrip(d[0]);
      var all := BytesStream(d) + rest;
      assert all[..8] == BitsOfByte(d[0]);
      assert all[8..] == BytesStream(d[1..]) + rest;
      assert d == [d[0]] + d[1..];
    }
  }

  lemma {:induction false} BytesStreamAt(d: seq<bv8>)
    ensures |BytesStream(d)| == 8 * |d|
    ensures forall j :: 0 <= j < 8 * |d| ==> BytesStream(d)[j] == DataBit(d, j)
  {
    hide Bit;
    if d != [] {
      BytesStreamAt(d[1..]);
      forall j | 0 <= j < 8 * |d|
        ensures BytesStream(d)[j] == DataBit(d, j)
      {
        if j < 8 {
          ByteBitAt(d[0], j);
        } else {
          assert BytesStream(d)[j] == BytesStream(d[1..])[j - 8];
          assert d[1..][(j - 8) / 8] == d[j / 8];
        }
      }
    }
  }

  lemma ByteBitAt(x: bv8, j: nat)
    requires j < 8
    ensures BitsOfByte(x)[j] == Bit(x, 7 - j)
  {
    hide Bit;
  }

  // ---- segments with a content ----

  // s is a correct segment for c.
  ghost predicate Says(s: Segment, c: Content) {
    && WellFormed(s)
    && match c
       case Characters(m, text) =>
         && s.mode == (if m == Numeric then 1 else 2)
         && s.numChars == |text| && AllAllowed(m, text)
         && SegmentBits(s) == Pack(m, ValuesOf(m, text))
       case Bytes(d) =>
         s.mode == 4 && s.numChars == |d| && SegmentBits(s) == BytesStream(d)
  }

  ghost predicate AllSay(segs: seq<Segment>, cs: seq<Content>) {
    |segs| == |cs| && forall i :: 0 <= i < |segs| ==> Says(segs[i], cs[i])
  }

  // ---- the reader ----

  // The digits of one text, turned back into characters.
  ghost function TextOf(m: Mode, d: seq<nat>): string {
    if Digits(m, d) then CharsOf(m, d) else ""
  }

  // Reads one content behind its mode indicator.
  ghost function ReadContent(mode: nat, n: nat, bits: Bits): (Content, Bits) {
    if mode == 4 then
      var (d, rest) := ReadBytes(bits, n);
      (Bytes(d), rest)
    else
      var m := if mode == 1 then Numeric else Alphanumeric;
      var (d, rest) := Unpack(m, bits, n);
      (Characters(m, TextOf(m, d)), rest)
  }

  // Reads contents up to the terminator, or until fewer than four bits are left.
  ghost function ReadAll(bits: Bits, v: Version): seq<Content>
    decreases |bits|
  {
    if |bits| < 4 || NumberOf(bits[..4]) !in {1, 2, 4} then []
    else
      var mode := NumberOf(bits[..4]);
      var w := NumCharCountBits(mode, v);
      if |bits| < 4 + w then []
      else
        var (c, rest) := ReadContent(mode, NumberOf(bits[4..4 + w]), bits[4 + w..]);
        if |rest| < |bits| then [c] + ReadAll(rest, v) else [c]
  }

  lemma ContentRoundTrip(s: Segment, c: Content, rest: Bits)
    requires Says(s, c)
    ensures ReadContent(s.mode, s.numChars, SegmentBits(s) + rest) == (c, rest)
  {
    hide Pack, Unpack, ReadBytes, BytesStream, SegmentBits, ValuesOf, CharsOf;
    match c
    case Characters(m, text) =>
      PackRoundTrip(m, ValuesOf(m, text), rest);
      CharsRoundTrip(m, text);
    case Bytes(d) =>
      BytesRoundTrip(d, rest);
  }

  // Reading one segment leaves the bits behind it.
  lemma SegmentRoundTrip(s: Segment, c: Content, v: Version, rest: Bits)
    requires Says(s, c) && s.numChars < Pow2(NumCharCountBits(s.mode, v))
    ensures ReadAll(SegmentStream(s, v) + rest, v) == [c] + ReadAll(rest, v)
  {
    hide ReadContent, BitsOf, NumberOf, NumCharCountBits, SegmentBits, Pow2, Says;
    SaysMode(s, c);
    var w := NumCharCountBits(s.mode, v);
    var all := SegmentStream(s, v) + rest;
    NumberOfBits(s.mode, 4);
    NumberOfBits(s.numChars, w);
    assert all[..4] == BitsOf(s.mode, 4);
    assert all[4..4 + w] == BitsOf(s.numChars, w);
    assert all[4 + w..] == SegmentBits(s) + rest;
    ContentRoundTrip(s, c, rest);
  }

  lemma SaysMode(s: Segment, c: Content)
    requires Says(s, c)
    ensures s.mode in {1, 2, 4} && s.mode < Pow2(4) && WellFormed(s)
  {
    assert Pow2(4) == 16;
  }

  lemma {:induction false} SegmentsRoundTrip(segs: seq<Segment>, cs: seq<Content>, v: Version, rest: Bits)
    requires AllSay(segs, cs) && AllWellFormed(segs) && CountsFit(segs, v)
    ensures ReadAll(SegmentsStream(segs, v) + rest, v) == cs + ReadAll(rest, v)
    decreases |segs|
  {
    hide ReadAll, SegmentStream, Says, NumCharCountBits, Pow2;
    if segs == [] {
      assert SegmentsStream(segs, v) + rest == rest;
      assert cs + ReadAll(rest, v) == ReadAll(rest, v);
    } else {
      var n := |segs| - 1;
      assert Says(segs[n], cs[n]);
      var last := SegmentStream(segs[n], v);
      SegmentsRoundTrip(segs[..n], cs[..n], v, last + rest);
      SegmentRoundTrip(segs[n], cs[n], v, rest);
      assert SegmentsStream(segs, v) + rest == SegmentsStream(segs[..n], v) + (last + rest);
      assert cs == cs[..n] + [cs[n]];
      assert cs[..n] + ([cs[n]] + ReadAll(rest, v)) == cs + ReadAll(rest, v);
    }
  }

  lemma {:induction false} ZeroNumber(n: nat)
    ensures NumberOf(ZeroBits(n)) == 0
  {
    if n > 0 {
      ZeroNumber(n - 1);
      assert ZeroBits(n)[..n - 1] == ZeroBits(n - 1);
    }
  }

  // The terminator stops the reader, whatever pads follow; a full stream stops it by its end.
  lemma TailStops(zeros: nat, pads: Bits, v: Version)
    requires zeros >= 4 || pads == []
    ensures ReadAll(ZeroBits(zeros) + pads, v) == []
  {
    hide NumberOf;
    var all := ZeroBits(zeros) + pads;
    if |all| >= 4 {
      assert all[..4] == ZeroBits(4);
      ZeroNumber(4);
    }
  }

  // The reader recovers the contents of every data stream.
  lemma StreamRoundTrip(segs: seq<Segment>, cs: seq<Content>, v: Version, capacity: nat)
    requires AllSay(segs, cs) && AllWellFormed(segs) && CountsFit(segs, v)
    requires SumBits(segs, v) <= capacity && capacity % 8 == 0
    ensures ReadAll(DataStream(segs, v, capacity), v) == cs
  {
    hide ReadAll, AllSay, AllWellFormed, CountsFit, SumBits, SegmentsStream, PadBytes, ZeroBits, TailZeros;
    var used := SumBits(segs, v);
    var zeros := TailZeros(used, capacity);
    TailFacts(used, capacity);
    var pads := PadBytes((capacity - used - zeros) / 8);
    TailStops(zeros, pads, v);
    SegmentsRoundTrip(segs, cs, v, ZeroBits(zeros) + pads);
    assert DataStream(segs, v, capacity) == SegmentsStream(segs, v) + (ZeroBits(zeros) + pads);
    assert cs + [] == cs;
  }
}
