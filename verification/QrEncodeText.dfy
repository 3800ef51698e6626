// Choosing the segment mode for a text and encoding it.
module QrEncodeText {
  import opened QrPlacement
  import opened QrBits
  import opened QrSegments
  import opened QrStream
  import opened QrDecode
  import opened QrTables

  // A C string: no NUL inside, one byte per character.
  ghost predicate CText(text: string) {
    forall i :: 0 <= i < |text| ==> 0 < text[i] as int < 256
  }

  function BytesOf(text: string): (d: seq<bv8>)
    requires CText(text)
    ensures |d| == |text|
  {
    seq(|text|, i requires 0 <= i < |text| => (text[i] as int) as bv8)
  }

  // The mode the encoder picks: digits, else the alphanumeric set, else bytes.
  ghost function ContentOf(text: string): Content
    requires CText(text)
  {
    if AllAllowed(Numeric, text) then Characters(Numeric, text)
    else if AllAllowed(Alphanumeric, text) then Characters(Alphanumeric, text)
    else Bytes(BytesOf(text))
  }

  // Length in bits of a segment, or -1 on overflow.
  function CalcSegmentBitLength(mode: nat, numChars: nat): int
    requires mode == 1 || mode == 2 || mode == 4
  {
    if numChars > INT16_MAX then -1
    else
      var r := if mode == 1 then (numChars * 10 + 2) / 3 else if mode == 2 then (numChars * 11 + 1) / 2
        else numChars * 8;
      if r > INT16_MAX then -1 else r
  }

  // The mode indicator of a text's segment.
  ghost function TextMode(text: string): nat {
    if AllAllowed(Numeric, text) then 1 else if AllAllowed(Alphanumeric, text) then 2 else 4
  }

  // The segment of the text has a length, and room in a buffer.
  ghost predicate TextStorable(text: string, bufLen: nat) {
    var bits := CalcSegmentBitLength(TextMode(text), |text|);
    bits != -1 && (bits + 7) / 8 <= bufLen
  }

  // The bits of the text's segment at version v, or -1 when it is too long.
  ghost function TextBits(text: string, v: Version): int {
    if text == "" then 0
    else
      var total := 4 + NumCharCountBits(TextMode(text), v) + CalcSegmentBitLength(TextMode(text), |text|);
      if |text| < Pow2(NumCharCountBits(TextMode(text), v)) && total <= INT16_MAX then total else -1
  }

  ghost predicate TextFits(text: string, e: Ecc, v: Version) {
    TextBits(text, v) != -1 && TextBits(text, v) <= GetNumDataCodewords(e, v) * 8
  }

  // The segments of a text fit where the text does.
  lemma SegmentFits(segs: seq<Segment>, text: string, e: Ecc, v: Version)
    requires text == "" ==> segs == []
    requires text != "" ==> |segs| == 1 && OfText(segs[0], text)
    ensures Fits(segs, e, v) <==> TextFits(text, e, v)
  {
    hide AllAllowed, NumCharCountBits, Pow2, GetNumDataCodewords, CalcSegmentBitLength, TextMode;
    if text == "" {
      assert SumBits(segs, v) == 0 && CountsFit(segs, v);
    } else {
      var s := segs[0];
      assert segs[..0] == [];
      assert SumBits(segs, v) == 4 + NumCharCountBits(s.mode, v) + s.bitLength;
      assert CountsFit(segs, v) <==> s.numChars < Pow2(NumCharCountBits(s.mode, v));
    }
  }

  ghost predicate OfText(s: Segment, text: string) {
    s.mode == TextMode(text) && s.numChars == |text| && s.bitLength == CalcSegmentBitLength(TextMode(text), |text|)
  }

  function BufferLen(v: Version): nat {
    ((4 * v + 17) * (4 * v + 17) + 7) / 8 + 1
  }

  method AllCharsAllowed(m: Mode, text: string) returns (r: bool)
    ensures r == AllAllowed(m, text)
  {
    hide Allowed;
    var i := 0;
    while i < |text|
      invariant 0 <= i <= |text|
      invariant forall k :: 0 <= k < i ==> Allowed(m, text[k])
    {
      if !Allowed(m, text[i]) {
        return false;
      }
      i := i + 1;
    }
    return true;
  }

  // Builds the single segment of a non-empty text; fails when the buffer or a length field is too small.
  method MakeTextSegment(text: string, bufLen: nat, temp: array<bv8>) returns (ok: bool, seg: Segment)
    requires CText(text) && bufLen <= temp.Length
    modifies temp
    ensures ok <==> TextStorable(text, bufLen)
    ensures ok ==> Says(seg, ContentOf(text))
    ensures ok ==> OfText(seg, text)
  {
    hide AllAllowed, Holds, Pack, ValuesOf, BytesStream, Says;
    seg := Segment(0, 0, [], 0);
    var numeric := AllCharsAllowed(Numeric, text);
    var alphanumeric := AllCharsAllowed(Alphanumeric, text);
    if numeric || alphanumeric {
      var m := if numeric then Numeric else Alphanumeric;
      var bits := CalcSegmentBitLength(if numeric then 1 else 2, |text|);
      if bits == -1 || (bits + 7) / 8 > bufLen {
        return false, seg;
      }
      ClearBuffer(temp);
      var bitLength := MakeSegment(m, text, temp);
      seg := Segment(if numeric then 1 else 2, |text|, temp[..], bitLength);
      PackedSays(seg, m, text);
      return true, seg;
    }
    if |text| > bufLen || CalcSegmentBitLength(4, |text|) == -1 {
      return false, seg;
    }
    CopyBytes(text, temp);
    seg := Segment(4, |text|, temp[..|text|], |text| * 8);
    BytesSay(seg, BytesOf(text));
    return true, seg;
  }

  method CopyBytes(text: string, temp: array<bv8>)
    requires CText(text) && |text| <= temp.Length
    modifies temp
    ensures temp[..|text|] == BytesOf(text)
  {
    var i := 0;
    while i < |text|
      invariant 0 <= i <= |text|
      invariant forall k :: 0 <= k < i ==> temp[k] == BytesOf(text)[k]
    {
      temp[i] := (text[i] as int) as bv8;
      i := i + 1;
    }
  }

  lemma PackedSays(seg: Segment, m: Mode, text: string)
    requires AllAllowed(m, text) && |text| <= INT16_MAX && PayloadLength(m, |text|) <= INT16_MAX
    requires Holds(seg.data, Pack(m, ValuesOf(m, text)))
    requires seg.mode == (if m == Numeric then 1 else 2) && seg.numChars == |text|
    requires seg.bitLength == PayloadLength(m, |text|)
    ensures Says(seg, Characters(m, text))
  {
    hide Pack, ValuesOf, DataBit, AllAllowed;
    PackLength(m, ValuesOf(m, text));
    assert SegmentBits(seg) == Pack(m, ValuesOf(m, text));
  }

  lemma BytesSay(seg: Segment, d: seq<bv8>)
    requires seg.mode == 4 && seg.numChars == |d| && seg.data == d && seg.bitLength == 8 * |d| <= INT16_MAX
    ensures Says(seg, Bytes(d))
  {
    hide DataBit, BytesStream;
    BytesStreamAt(d);
    assert SegmentBits(seg) == BytesStream(d);
  }

  // The version is the smallest that holds the text, and the level the highest that does so or the one asked for.
  ghost predicate BestFit(text: string, e: Ecc, boostEcl: bool, minVersion: Version, version: Version, level: Ecc) {
    && minVersion <= version && e <= level && TextFits(text, level, version)
    && (forall v: Version :: minVersion <= v < version ==> !TextFits(text, e, v))
    && if boostEcl then forall f: Ecc :: TextFits(text, f, version) ==> f <= level else level == e
  }

  // Every text that is encoded is read back unchanged from the data bits.
  method EncodeText(text: string, e: Ecc, minVersion: Version, maxVersion: Version, boostEcl: bool,
                    temp: array<bv8>, qrcode: array<bv8>)
    returns (ok: bool, version: Version, level: Ecc, ghost stream: Bits)
    requires CText(text) && minVersion <= maxVersion && temp != qrcode
    requires BufferLen(maxVersion) <= temp.Length && 0 < qrcode.Length
    requires forall f: Ecc, v: Version :: v <= maxVersion ==> GetNumDataCodewords(f, v) <= qrcode.Length
    modifies temp, qrcode
    ensures ok <==>
      && (text == "" || TextStorable(text, BufferLen(maxVersion)))
      && exists v: Version :: minVersion <= v <= maxVersion && TextFits(text, e, v)
    ensures !ok ==> qrcode[0] == 0
    ensures ok ==> version <= maxVersion && BestFit(text, e, boostEcl, minVersion, version, level)
    ensures ok ==> Holds(qrcode[..], stream) && |stream| == GetNumDataCodewords(level, version) * 8
    ensures ok ==> ReadAll(stream, version) == if text == "" then [] else [ContentOf(text)]
  {
    hide Holds, GetNumDataCodewords, Says, ContentOf, ReadAll, BufferLen, CText;
    hide AllSay, AllWellFormed, Fits, DataStream, SumBits, CountsFit, TextStorable, TextFits, TextMode,
      CalcSegmentBitLength;
    NothingSaid();
    var segs := [];
    ghost var cs: seq<Content> := [];
    stream := [];
    version, level := minVersion, e;
    if |text| > 0 {
      var seg;
      ok, seg := MakeTextSegment(text, BufferLen(maxVersion), temp);
      if !ok {
        qrcode[0] := 0;
        return;
      }
      segs, cs := [seg], [ContentOf(text)];
      OneSaid(seg, ContentOf(text));
    }
    forall f: Ecc, v: Version ensures Fits(segs, f, v) <==> TextFits(text, f, v) { SegmentFits(segs, text, f, v); }
    ok, version, level := EncodeData(segs, e, minVersion, maxVersion, boostEcl, qrcode);
    if ok {
      HeldStream(qrcode[..], segs, level, version);
      EncodedReadsBack(segs, cs, level, version, CapacityBits(level, version));
      stream := DataStream(segs, version, CapacityBits(level, version));
    }
  }

  lemma NothingSaid()
    ensures AllSay([], []) && AllWellFormed([])
  {}

  lemma OneSaid(seg: Segment, c: Content)
    requires Says(seg, c)
    ensures AllSay([seg], [c]) && AllWellFormed([seg])
  {
    SaysMode(seg, c);
    hide Says;
  }

  lemma EncodedReadsBack(segs: seq<Segment>, cs: seq<Content>, e: Ecc, v: Version, capacity: nat)
    requires AllSay(segs, cs) && AllWellFormed(segs) && Fits(segs, e, v)
    requires capacity % 8 == 0 && SumBits(segs, v) <= capacity
    ensures ReadAll(DataStream(segs, v, capacity), v) == cs && |DataStream(segs, v, capacity)| == capacity
  {
    hide ReadAll, AllSay, AllWellFormed, DataStream, SumBits, GetNumDataCodewords;
    StreamRoundTrip(segs, cs, v, capacity);
  }
}
