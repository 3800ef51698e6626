// Segment payloads: digits in groups of three, alphanumeric characters in pairs, and bytes
// (ISO/IEC 18004:2015 sections 7.4.3 to 7.4.5).
module QrSegments {
  import opened QrBits

  datatype Mode = Numeric | Alphanumeric

  function Base(m: Mode): nat {
    if m == Numeric then 10 else 45
  }

  // How many characters share a group.
  function GroupSize(m: Mode): nat {
    if m == Numeric then 3 else 2
  }

  // The bits taken by a group of k characters.
  function Width(m: Mode, k: nat): nat {
    if m == Numeric then k * 3 + 1 else if k == 2 then 11 else 6
  }

  ghost predicate Digits(m: Mode, d: seq<nat>) {
    forall i :: 0 <= i < |d| ==> d[i] < Base(m)
  }

  function GroupValue(m: Mode, d: seq<nat>): nat {
    if d == [] then 0 else GroupValue(m, d[..|d| - 1]) * Base(m) + d[|d| - 1]
  }

  function Quot(m: Mode, v: nat): nat {
    if m == Numeric then v / 10 else v / 45
  }

  function Rem(m: Mode, v: nat): nat {
    if m == Numeric then v % 10 else v % 45
  }

  // The last k digits of v.
  function GroupDigits(m: Mode, v: nat, k: nat): (d: seq<nat>)
    ensures |d| == k
  {
    if k == 0 then [] else GroupDigits(m, Quot(m, v), k - 1) + [Rem(m, v)]
  }

  // A value with one more digit.
  function Shifted(m: Mode, v: nat, c: nat): nat {
    v * Base(m) + c
  }

  lemma {:induction false} GroupRoundTrip(m: Mode, d: seq<nat>)
    requires Digits(m, d)
    ensures GroupDigits(m, GroupValue(m, d), |d|) == d
  {
    hide Base, Quot, Rem, Shifted, GroupValue;
    if d != [] {
      var n := |d| - 1;
      GroupRoundTrip(m, d[..n]);
      GroupShifted(m, d);
      SplitValue(m, GroupValue(m, d[..n]), d[n]);
      assert d == d[..n] + [d[n]];
    }
  }

  lemma GroupShifted(m: Mode, d: seq<nat>)
    requires d != []
    ensures GroupValue(m, d) == Shifted(m, GroupValue(m, d[..|d| - 1]), d[|d| - 1])
  {}

  lemma SplitValue(m: Mode, v: nat, c: nat)
    requires c < Base(m)
    ensures Quot(m, Shifted(m, v, c)) == v && Rem(m, Shifted(m, v, c)) == c
  {}

  lemma GroupFits(m: Mode, d: seq<nat>)
    requires Digits(m, d) && 1 <= |d| <= GroupSize(m)
    ensures GroupValue(m, d) < Pow2(Width(m, |d|))
    ensures Width(m, |d|) <= 11
  {
    var b := Base(m);
    assert Pow2(4) == 16 && Pow2(6) == 64 && Pow2(7) == 128 && Pow2(10) == 1024 && Pow2(11) == 2048;
    assert GroupValue(m, d[..1]) == d[0] by { assert d[..1][..0] == []; }
    if |d| == 1 {
      assert d[..1] == d;
    } else {
      assert GroupValue(m, d[..2]) == d[0] * b + d[1] by { assert d[..2][..1] == d[..1]; }
      if |d| == 2 {
        assert d[..2] == d;
      } else {
        assert d[..|d| - 1] == d[..2];
        assert GroupValue(m, d) == GroupValue(m, d[..2]) * b + d[2];
      }
    }
  }

  function Take(m: Mode, n: nat): nat {
    if n < GroupSize(m) then n else GroupSize(m)
  }

  // The payload of a digit string.
  function Pack(m: Mode, d: seq<nat>): Bits {
    if d == [] then []
    else
      var k := Take(m, |d|);
      BitsOf(GroupValue(m, d[..k]), Width(m, k)) + Pack(m, d[k..])
  }

  // The n characters written by a payload, and the bits behind it; the inverse of Pack.
  function Unpack(m: Mode, bits: Bits, n: nat): (seq<nat>, Bits) {
    if n == 0 then ([], bits)
    else
      var k := Take(m, n);
      var w := Width(m, k);
      if |bits| < w then ([], bits)
      else
        var (d, rest) := Unpack(m, bits[w..], n - k);
        (GroupDigits(m, NumberOf(bits[..w]), k) + d, rest)
  }

  lemma {:induction false} PackRoundTrip(m: Mode, d: seq<nat>, rest: Bits)
    requires Digits(m, d)
    ensures Unpack(m, Pack(m, d) + rest, |d|) == (d, rest)
  {
    hide BitsOf, GroupDigits, GroupValue, NumberOf, Width, Pow2, Pack, Unpack;
    PackEmpty(m, rest);
    if d != [] {
      var k := Take(m, |d|);
      PackRoundTrip(m, d[k..], rest);
      FirstGroup(m, d);
      PackUnfold(m, d);
      var first := BitsOf(GroupValue(m, d[..k]), Width(m, k));
      UnpackStep(m, first, Pack(m, d[k..]) + rest, |d|);
      assert Pack(m, d) + rest == first + (Pack(m, d[k..]) + rest);
      assert d == d[..k] + d[k..];
    }
  }

  lemma PackEmpty(m: Mode, rest: Bits)
    ensures Pack(m, []) + rest == rest && Unpack(m, rest, 0) == ([], rest)
  {}

  lemma PackUnfold(m: Mode, d: seq<nat>)
    requires d != []
    ensures Pack(m, d) == BitsOf(GroupValue(m, d[..Take(m, |d|)]), Width(m, Take(m, |d|))) + Pack(m, d[Take(m, |d|)..])
  {
    hide BitsOf, GroupValue, Width;
  }

  lemma UnpackStep(m: Mode, first: Bits, more: Bits, n: nat)
    requires n > 0 && |first| == Width(m, Take(m, n))
    ensures var k := Take(m, n);
      Unpack(m, first + more, n) ==
        (GroupDigits(m, NumberOf(first), k) + Unpack(m, more, n - k).0, Unpack(m, more, n - k).1)
  {
    hide GroupDigits, NumberOf, Width;
    assert (first + more)[..|first|] == first;
    assert (first + more)[|first|..] == more;
  }

  lemma FirstGroup(m: Mode, d: seq<nat>)
    requires Digits(m, d) && d != []
    ensures var k := Take(m, |d|);
      GroupDigits(m, NumberOf(BitsOf(GroupValue(m, d[..k]), Width(m, k))), k) == d[..k]
  {
    hide BitsOf, GroupDigits, GroupValue, NumberOf, Pow2;
    var k := Take(m, |d|);
    GroupFits(m, d[..k]);
    GroupRoundTrip(m, d[..k]);
    NumberOfBits(GroupValue(m, d[..k]), Width(m, k));
  }

  // ceil(10n/3) bits for digits, ceil(11n/2) for alphanumeric characters.
  function PayloadLength(m: Mode, n: nat): nat {
    if m == Numeric then (n * 10 + 2) / 3 else (n * 11 + 1) / 2
  }

  lemma {:induction false} PackLength(m: Mode, d: seq<nat>)
    ensures |Pack(m, d)| == PayloadLength(m, |d|)
  {
    if d != [] {
      PackLength(m, d[Take(m, |d|)..]);
    }
  }

  // Whole groups can also be added at the end.
  lemma {:induction false} PackAppend(m: Mode, d: seq<nat>, g: seq<nat>)
    requires |d| % GroupSize(m) == 0 && 1 <= |g| <= GroupSize(m)
    ensures Pack(m, d + g) == Pack(m, d) + BitsOf(GroupValue(m, g), Width(m, |g|))
  {
    hide BitsOf, GroupValue, Width, Pack;
    var s := GroupSize(m);
    PackEmpty(m, []);
    if d == [] {
      PackUnfold(m, g);
      assert d + g == g;
      assert g[..|g|] == g && g[|g|..] == [];
    } else {
      PackAppend(m, d[s..], g);
      PackUnfold(m, d);
      PackUnfold(m, d + g);
      assert (d + g)[..s] == d[..s];
      assert (d + g)[s..] == d[s..] + g;
    }
  }

  // ---- characters ----

  const ALPHANUMERIC_CHARSET: string := "0123456789ABCDEFGHIJKLMNOPQRSTUVWXYZ $%*+-./:"

  // The first index of c in s at or after i, or -1.
  function IndexIn(s: string, c: char, i: nat): (r: int)
    requires i <= |s|
    ensures r == -1 || (i <= r < |s| && s[r] == c)
    ensures r == -1 ==> c !in s[i..]
    decreases |s| - i
  {
    if i == |s| then -1 else if s[i] == c then i else IndexIn(s, c, i + 1)
  }

  function ValueOf(m: Mode, c: char): int {
    if m == Numeric then c as int - '0' as int else IndexIn(ALPHANUMERIC_CHARSET, c, 0)
  }

  predicate Allowed(m: Mode, c: char) {
    if m == Numeric then '0' <= c <= '9' else ValueOf(m, c) >= 0
  }

  function CharOf(m: Mode, v: nat): char
    requires v < Base(m)
  {
    if m == Numeric then (v + '0' as int) as char else CharsetSize(); ALPHANUMERIC_CHARSET[v]
  }

  lemma CharsetSize()
    ensures |ALPHANUMERIC_CHARSET| == 45
  {}

  predicate AllAllowed(m: Mode, text: string) {
    forall i :: 0 <= i < |text| ==> Allowed(m, text[i])
  }

  lemma AllowedValue(m: Mode, c: char)
    requires Allowed(m, c)
    ensures 0 <= ValueOf(m, c) < Base(m)
    ensures CharOf(m, ValueOf(m, c)) == c
  {
    CharsetSize();
  }

  function ValuesOf(m: Mode, text: string): (d: seq<nat>)
    requires AllAllowed(m, text)
    ensures |d| == |text| && Digits(m, d)
  {
    seq(|text|, i requires 0 <= i < |text| => AllowedValue(m, text[i]); ValueOf(m, text[i]))
  }

  function CharsOf(m: Mode, d: seq<nat>): (text: string)
    requires Digits(m, d)
    ensures |text| == |d|
  {
    seq(|d|, i requires 0 <= i < |d| => CharOf(m, d[i]))
  }

  lemma CharsRoundTrip(m: Mode, text: string)
    requires AllAllowed(m, text)
    ensures CharsOf(m, ValuesOf(m, text)) == text
  {
    hide ValueOf, CharOf;
    forall i | 0 <= i < |text| ensures CharsOf(m, ValuesOf(m, text))[i] == text[i] { AllowedValue(m, text[i]); }
  }

  // ---- building a segment ----

  // The groups completed after the first i characters.
  ghost predicate Accumulated(m: Mode, d: seq<nat>, i: nat, data: nat, count: nat) {
    && i <= |d| && count <= i && count < GroupSize(m)
    && (i - count) % GroupSize(m) == 0
    && data == GroupValue(m, d[i - count..i])
  }

  lemma AccumulateOne(m: Mode, d: seq<nat>, i: nat, data: nat, count: nat)
    requires i < |d| && Accumulated(m, d, i, data, count)
    ensures data * Base(m) + d[i] == GroupValue(m, d[i - count..i + 1])
    ensures count + 1 == GroupSize(m) ==> Accumulated(m, d, i + 1, 0, 0)
    ensures count + 1 < GroupSize(m) ==> Accumulated(m, d, i + 1, data * Base(m) + d[i], count + 1)
    ensures (i + 1) - (count + 1) == i - count
  {
    var g := d[i - count..i + 1];
    assert g[..|g| - 1] == d[i - count..i];
    assert d[i + 1..i + 1] == [];
  }

  // Writes text as one segment payload into a cleared buffer.
  method MakeSegment(m: Mode, text: string, buf: array<bv8>) returns (bitLength: nat)
    requires AllAllowed(m, text)
    requires Holds(buf[..], []) && PayloadLength(m, |text|) <= 8 * buf.Length
    modifies buf
    ensures Holds(buf[..], Pack(m, ValuesOf(m, text)))
    ensures bitLength == PayloadLength(m, |text|)
  {
    hide Holds, Pack, ValueOf, GroupValue, ValuesOf, AllAllowed, Accumulated, BitsOf, PayloadLength, Width, Base,
      Digits;
    ghost var d := ValuesOf(m, text);
    bitLength := 0;
    var accumData: nat, accumCount: nat := 0, 0;
    SegmentStart(m, d);
    var i := 0;
    while i < |text|
      invariant 0 <= i <= |text|
      invariant Accumulated(m, d, i, accumData, accumCount) && accumCount <= i && accumCount < GroupSize(m)
      invariant Holds(buf[..], Pack(m, d[..i - accumCount]))
      invariant bitLength == |Pack(m, d[..i - accumCount])|
    {
      ValueAt(m, text, i);
      AccumulateOne(m, d, i, accumData, accumCount);
      accumData := accumData * Base(m) + ValueOf(m, text[i]);
      accumCount := accumCount + 1;
      if accumCount == GroupSize(m) {
        FlushGroup(m, d, i + 1, accumData, accumCount);
        bitLength := AppendBitsToBuffer(accumData, Width(m, accumCount), buf, Pack(m, d[..i + 1 - accumCount]),
            bitLength);
        accumData, accumCount := 0, 0;
      }
      i := i + 1;
    }
    SegmentEnd(m, d, accumData, accumCount);
    if accumCount > 0 {
      bitLength := AppendBitsToBuffer(accumData, Width(m, accumCount), buf, Pack(m, d[..i - accumCount]), bitLength);
    }
    PackLength(m, d);
  }

  lemma SegmentStart(m: Mode, d: seq<nat>)
    ensures Accumulated(m, d, 0, 0, 0) && Pack(m, d[..0]) == []
  {}

  lemma ValueAt(m: Mode, text: string, i: nat)
    requires AllAllowed(m, text) && i < |text|
    ensures ValuesOf(m, text)[i] == ValueOf(m, text[i])
  {
    hide ValueOf;
  }

  // A group ending at i may be appended: it fits its width, and the buffer has room.
  lemma FlushGroup(m: Mode, d: seq<nat>, i: nat, data: nat, count: nat)
    requires Digits(m, d) && 1 <= count <= GroupSize(m) && count <= i <= |d|
    requires (i - count) % GroupSize(m) == 0 && data == GroupValue(m, d[i - count..i])
    ensures data < Pow2(Width(m, count)) && Width(m, count) <= 16
    ensures Pack(m, d[..i]) == Pack(m, d[..i - count]) + BitsOf(data, Width(m, count))
    ensures |Pack(m, d[..i])| <= PayloadLength(m, |d|)
  {
    hide Pack, GroupValue, BitsOf, Pow2, Width, Base, PayloadLength;
    var g := d[i - count..i];
    assert |g| == count && |d[..i - count]| == i - count;
    GroupFits(m, g);
    PackAppend(m, d[..i - count], g);
    assert d[..i - count] + g == d[..i];
    PackLength(m, d[..i]);
    PayloadGrows(m, i, |d|);
  }

  lemma PayloadGrows(m: Mode, a: nat, b: nat)
    requires a <= b
    ensures PayloadLength(m, a) <= PayloadLength(m, b)
  {}

  lemma SegmentEnd(m: Mode, d: seq<nat>, data: nat, count: nat)
    requires Digits(m, d) && Accumulated(m, d, |d|, data, count)
    ensures d[..|d|] == d
    ensures count > 0 ==> data < Pow2(Width(m, count)) && Width(m, count) <= 16
    ensures count > 0 ==> Pack(m, d) == Pack(m, d[..|d| - count]) + BitsOf(data, Width(m, count))
    ensures |Pack(m, d)| <= PayloadLength(m, |d|)
  {
    hide Pack, GroupValue, BitsOf, Pow2, Width, Digits, PayloadLength;
    assert d[..|d|] == d;
    PackLength(m, d);
    if count > 0 { FlushGroup(m, d, |d|, data, count); }
  }
}
