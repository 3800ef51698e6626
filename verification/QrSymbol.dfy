// From a text to the finished symbol, and back: a reader that knows version, level and mask recovers the text.
module QrSymbol {
  import opened GaloisField
  import opened Arithmetic
  import opened ReedSolomon
  import opened QrGrid
  import opened QrPlacement
  import opened QrTables
  import opened Interleaving
  import opened QrBits
  import opened QrDecode
  import opened QrEncodeText
  import opened QrMasking
  import opened QrPenalty
  import opened QrFunction
  import opened QrCapacity
  import opened QrPatterns

  // ---- reading ----

  // Code words from bits, most significant bit first.
  function WordsOf(bits: Bits): (words: seq<bv8>)
    ensures |words| == |bits| / 8
  {
    seq(|bits| / 8, i requires 0 <= i < |bits| / 8 => ByteOf(bits[8 * i..8 * i + 8]))
  }

  // The bits along the scan, with the mask taken off.
  ghost function SymbolBits(fm: seq<bv8>, q: seq<bv8>, n: int, m: MaskNumber, count: nat): (bits: Bits)
    requires Grid(fm, n) && Grid(q, n) && Side(n)
    requires Total(n) >= 0 && count <= |FreeCells(fm, n, Total(n))|
    ensures |bits| == count
  {
    var free, read := FreeCells(fm, n, Total(n)), ReadBits(fm, q, n, count);
    seq(count, k requires 0 <= k < count => read[k] != Inverts(m, free[k].0, free[k].1))
  }

  // What a reader gets from the symbol q: it draws the function modules of the version itself, takes off the mask,
  // follows the scan, sorts the code words into blocks and reads the data bits.
  ghost function ReadSymbol(fm: seq<bv8>, q: seq<bv8>, v: Version, e: Ecc, m: MaskNumber): seq<Content>
    requires FunctionGrid(fm, v) && Grid(q, SideOf(v))
  {
    RoomForCodewords(fm, v);
    LayoutValid(e, v);
    var l := LayoutOf(e, v);
    var words := WordsOf(SymbolBits(fm, q, SideOf(v), m, RawCodewords(v) * 8));
    ReadAll(BytesStream(Deinterleave(l, words, l.nb)), v)
  }

  lemma LayoutParts(e: Ecc, v: Version)
    ensures var l := LayoutOf(e, v);
      l.Valid() && l.raw == RawCodewords(v) && l.DataLen() == GetNumDataCodewords(e, v) > 0
  {
    LayoutValid(e, v);
    hide NumErrorCorrectionBlocks, EccCodewordsPerBlock, RawCodewords, GetNumDataCodewords;
  }

  // ---- bits and bytes ----

  lemma WordsBack(words: seq<bv8>, bits: Bits)
    requires |bits| == 8 * |words| && forall k :: 0 <= k < |bits| ==> bits[k] == DataBit(words, k)
    ensures WordsOf(bits) == words
  {
    hide Bit, ByteOf;
    forall i | 0 <= i < |words| ensures WordsOf(bits)[i] == words[i] { WordBack(words, bits, i); }
  }

  lemma BitOfWord(words: seq<bv8>, i: nat, j: nat)
    requires i < |words| && j < 8
    ensures DataBit(words, 8 * i + j) == Bit(words[i], 7 - j)
  {
    hide Bit;
    assert (8 * i + j) / 8 == i && (8 * i + j) % 8 == j;
  }

  lemma WordBack(words: seq<bv8>, bits: Bits, i: nat)
    requires |bits| == 8 * |words| && i < |words| && forall k :: 0 <= k < |bits| ==> bits[k] == DataBit(words, k)
    ensures ByteOf(bits[8 * i..8 * i + 8]) == words[i]
  {
    hide Bit, ByteOf, DataBit;
    var group := bits[8 * i..8 * i + 8];
    forall j | 0 <= j < 8 ensures group[j] == Bit(words[i], 7 - j) {
      assert group[j] == bits[8 * i + j];
      BitOfWord(words, i, j);
    }
    assert group == BitsOfByte(words[i]);
    ByteRoundTrip(words[i]);
  }

  // The data bits of the buffer, as its data bytes.
  lemma StreamBack(buf: seq<bv8>, stream: Bits, n: nat)
    requires n <= |buf| && |stream| == 8 * n && Holds(buf, stream)
    ensures BytesStream(buf[..n]) == stream
  {
    hide Bit, BytesStream;
    BytesStreamAt(buf[..n]);
    forall k | 0 <= k < 8 * n
      ensures BytesStream(buf[..n])[k] == stream[k]
    {
      assert DataBit(buf[..n], k) == DataBit(buf, k);
    }
  }

  // ---- the reader's own function modules ----

  lemma SameModules(fm: seq<bv8>, q0: seq<bv8>, v: Version)
    requires FunctionGrid(fm, v) && FunctionGrid(q0, v)
    ensures forall x, y :: Inside(SideOf(v), x, y) ==> Module(fm, SideOf(v), x, y) == Module(q0, SideOf(v), x, y)
  {
    hide Module, Grid, InAny, FunctionRects;
  }

  lemma {:induction false} SameFree(fm: seq<bv8>, q0: seq<bv8>, n: int, p: int)
    requires Grid(fm, n) && Grid(q0, n) && Side(n) && 0 <= p <= Total(n)
    requires forall x, y :: Inside(n, x, y) ==> Module(fm, n, x, y) == Module(q0, n, x, y)
    ensures FreeCells(fm, n, p) == FreeCells(q0, n, p)
    decreases p
  {
    hide Module, Cell, Grid, Side, Total, Inside, FreeCells;
    if p > 0 {
      SameFree(fm, q0, n, p - 1);
      FreeStep(fm, n, p - 1);
      FreeStep(q0, n, p - 1);
    } else {
      NoneFree(fm, n);
      NoneFree(q0, n);
    }
  }

  lemma NoneFree(q: seq<bv8>, n: int)
    requires Grid(q, n) && Side(n) && 0 <= Total(n)
    ensures FreeCells(q, n, 0) == []
  {}

  // Any two function grids read the same bits.
  lemma SameBits(fm: seq<bv8>, q0: seq<bv8>, q: seq<bv8>, v: Version, m: MaskNumber, count: nat)
    requires FunctionGrid(fm, v) && FunctionGrid(q0, v) && Grid(q, SideOf(v)) && Side(SideOf(v))
    requires Total(SideOf(v)) >= 0
    requires count <= |FreeCells(fm, SideOf(v), Total(SideOf(v)))|
    requires count <= |FreeCells(q0, SideOf(v), Total(SideOf(v)))|
    ensures SymbolBits(fm, q, SideOf(v), m, count) == SymbolBits(q0, q, SideOf(v), m, count)
  {
    hide Module, Grid, InAny, FunctionRects, FreeCells, Inverts, Side, Total;
    SameModules(fm, q0, v);
    SameFree(fm, q0, SideOf(v), Total(SideOf(v)));
  }

  // ---- the format modules are function modules ----

  lemma FormatIsFunction(v: Version, x: int, y: int)
    requires Inside(SideOf(v), x, y) && FormatOrder(SideOf(v), x, y) >= 0
    ensures IsFunction(v, x, y)
  {
    hide IsFunction;
    var n := SideOf(v);
    if x < 9 && y < 9 {
      FixedIsFunction(v, 2, x, y);
    } else if x >= n - 8 {
      FixedIsFunction(v, 3, x, y);
    } else {
      FixedIsFunction(v, 4, x, y);
    }
  }

  lemma ShownGrid(fm: seq<bv8>, base: seq<bv8>, q: seq<bv8>, n: int, e: Level, m: MaskNumber)
    requires ShowsSymbol(fm, base, q, n, e, m)
    ensures Grid(q, n)
  {}

  // The finished symbol gives back the code words.
  lemma SymbolWords(v: Version, q0: seq<bv8>, qd: seq<bv8>, base: seq<bv8>, q: seq<bv8>, fm: seq<bv8>, words: seq<bv8>,
      e: Level, m: MaskNumber)
    requires FunctionGrid(q0, v) && FunctionGrid(fm, v) && |words| == RawCodewords(v)
    requires Side(SideOf(v)) && Total(SideOf(v)) >= 0 && Drawn(q0, qd, SideOf(v), words, Total(SideOf(v)), 8 * |words|)
    requires PatternsShown(v, qd, base) && ShowsSymbol(fm, base, q, SideOf(v), e, m)
    requires 8 * |words| <= |FreeCells(q0, SideOf(v), Total(SideOf(v)))|
    ensures WordsOf(SymbolBits(q0, q, SideOf(v), m, 8 * |words|)) == words
  {
    hide Module, DataBit, FreeCells, Inverts, FormatBits, FormatOrder, Drawn, ShowsSymbol, RawCodewords, WordsOf,
      InAny, FunctionRects;
    var n := SideOf(v);
    ShownGrid(fm, base, q, n, e, m);
    SameModules(fm, q0, v);
    forall x, y | Inside(n, x, y) && FormatOrder(n, x, y) >= 0
      ensures Module(q0, n, x, y)
    {
      FormatIsFunction(v, x, y);
    }
    FinishedSymbolReadsBack(q0, qd, base, q, fm, n, words, e, m);
    WordsBack(words, SymbolBits(q0, q, n, m, 8 * |words|));
  }

  // Sorting the code words and reading the data bits.
  lemma WordsRead(v: Version, e: Ecc, data: seq<bv8>, stream: Bits)
    requires |data| == GetNumDataCodewords(e, v) && BytesStream(data) == stream
    ensures var l := LayoutOf(e, v);
      && l.Valid() && |data| == l.DataLen()
      && ReadAll(BytesStream(Deinterleave(l, Interleaved(l, data, Generator(l.ecc)[1..]), l.nb)), v)
        == ReadAll(stream, v)
  {
    hide Interleaved, Generator, Deinterleave, ReadAll, BytesStream, GetNumDataCodewords, LayoutOf;
    LayoutParts(e, v);
    InterleavingRoundTrip(LayoutOf(e, v), data);
  }

  // Every reader's own function modules lead to what was encoded.
  lemma SymbolReads(v: Version, q0: seq<bv8>, q: seq<bv8>, e: Ecc, m: MaskNumber, data: seq<bv8>, stream: Bits)
    requires FunctionGrid(q0, v) && Grid(q, SideOf(v)) && |data| == GetNumDataCodewords(e, v)
    requires BytesStream(data) == stream
    requires LayoutOf(e, v).Valid() && |data| == LayoutOf(e, v).DataLen()
    requires Side(SideOf(v)) && Total(SideOf(v)) >= 0
    requires RawCodewords(v) * 8 <= |FreeCells(q0, SideOf(v), Total(SideOf(v)))|
    requires var l := LayoutOf(e, v);
      WordsOf(SymbolBits(q0, q, SideOf(v), m, RawCodewords(v) * 8)) == Interleaved(l, data, Generator(l.ecc)[1..])
    ensures forall fm :: FunctionGrid(fm, v) ==> ReadSymbol(fm, q, v, e, m) == ReadAll(stream, v)
  {
    hide Interleaved, Generator, Deinterleave, ReadAll, BytesStream, GetNumDataCodewords, FunctionGrid, FreeCells,
      SymbolBits, WordsOf, RawCodewords, LayoutOf;
    WordsRead(v, e, data, stream);
    forall fm | FunctionGrid(fm, v) ensures ReadSymbol(fm, q, v, e, m) == ReadAll(stream, v) {
      RoomForCodewords(fm, v);
      SameBits(fm, q0, q, v, m, RawCodewords(v) * 8);
    }
  }

  // ---- the encoder ----

  lemma BufferRoom(v: Version, maxVersion: Version)
    requires v <= maxVersion
    ensures (SideOf(v) * SideOf(v) + 7) / 8 + 1 <= BufferLen(maxVersion) && RawCodewords(v) <= BufferLen(maxVersion)
    ensures forall f: Ecc :: GetNumDataCodewords(f, v) <= BufferLen(maxVersion)
  {
    var n, k := SideOf(v), SideOf(maxVersion);
    MulMono(n, n, k);
    MulMono(k, n, k);
    CoverArea(v);
    hide GetNumRawDataModules, NumErrorCorrectionBlocks, EccCodewordsPerBlock;
    forall f: Ecc ensures GetNumDataCodewords(f, v) <= RawCodewords(v) {
      RowInRange(f, v);
      MulMono(NumErrorCorrectionBlocks(f, v), 0, EccCodewordsPerBlock(f, v));
    }
  }

  lemma HeldWithin(buf: seq<bv8>, stream: Bits, n: nat)
    requires Holds(buf, stream) && |stream| == 8 * n
    ensures n <= |buf|
  {}

  // Drawing, masking and formatting of the code words in temp; then a reader recovers the stream.
  method FinishSymbol(v: Version, e: Ecc, mask: int, temp: array<bv8>, qrcode: array<bv8>,
      ghost stream: Bits) returns (chosen: MaskNumber)
    requires temp != qrcode && -1 <= mask <= 7
    requires (SideOf(v) * SideOf(v) + 7) / 8 + 1 <= temp.Length && (SideOf(v) * SideOf(v) + 7) / 8 + 1 <= qrcode.Length
    requires RawCodewords(v) <= temp.Length && RawCodewords(v) <= qrcode.Length
    requires Holds(qrcode[..], stream) && |stream| == GetNumDataCodewords(e, v) * 8
    modifies temp, qrcode
    ensures Grid(qrcode[..], SideOf(v)) && (mask >= 0 ==> chosen == mask)
    ensures FormatShown(qrcode[..], v, e, chosen) && (mask == -1 ==> WellMasked(qrcode[..], v, e, chosen))
    ensures PatternsVisible(qrcode[..], v)
    ensures forall fm :: FunctionGrid(fm, v) ==> ReadSymbol(fm, qrcode[..], v, e, chosen) == ReadAll(stream, v)
  {
    hide Holds, GetNumDataCodewords, RawCodewords, FunctionGrid, Interleaved, Generator, LayoutOf, Drawn, FreeCells,
      Side, Total, ShowsSymbol, PatternsShown, ReadAll, BytesStream, ReadSymbol, SymbolBits, WordsOf, Least, MatrixOf,
      SymbolMatrix, Grid, FormatShown, PatternsVisible;
    ghost var n := SideOf(v);
    LayoutParts(e, v);
    var l := LayoutOf(e, v);
    HeldWithin(qrcode[..], stream, GetNumDataCodewords(e, v));
    ghost var data := qrcode[..l.DataLen()];
    StreamBack(qrcode[..], stream, l.DataLen());
    AddEccAndInterleave(l, qrcode, temp);
    ghost var words := temp[..l.raw];
    InitializeFunctionModules(v, qrcode);
    ghost var q0 := qrcode[..];
    RoomForCodewords(q0, v);
    DrawCodewords(temp, RawCodewords(v), qrcode, n);
    ghost var qd := qrcode[..];
    DrawnGrid(q0, qd, n, words, Total(n), RawCodewords(v) * 8);
    DrawLightFunctionModules(v, qrcode);
    ghost var base := qrcode[..];
    PatternGrid(v, qd, base);
    InitializeFunctionModules(v, temp);
    RoomForCodewords(temp[..], v);
    chosen := ChooseMask(temp, qrcode, e, mask, n);
    ShownGrid(temp[..], base, qrcode[..], n, e, chosen);
    FormatKept(temp[..], base, qrcode[..], v, e, chosen);
    PatternsStay(v, q0, qd, base, qrcode[..], temp[..], words, RawCodewords(v) * 8, e, chosen);
    SymbolWords(v, q0, qd, base, qrcode[..], temp[..], words, e, chosen);
    SymbolReads(v, q0, qrcode[..], e, chosen, data, stream);
  }

  lemma PatternGrid(v: Version, q0: seq<bv8>, q: seq<bv8>)
    requires PatternsShown(v, q0, q)
    ensures Grid(q, SideOf(v))
  {}

  // The function patterns and the version information are there: every function module but those of the format has its
  // colour.
  ghost predicate PatternsVisible(q: seq<bv8>, v: Version) {
    var n := SideOf(v);
    && Grid(q, n)
    && forall x, y :: Inside(n, x, y) && IsFunction(v, x, y) && FormatOrder(n, x, y) < 0 ==>
      Module(q, n, x, y) == Colour(v, x, y)
  }

  // Drawing code words leaves dark modules dark.
  lemma DarkStays(q0: seq<bv8>, qd: seq<bv8>, n: int, words: seq<bv8>, i: int, x: int, y: int)
    requires Grid(q0, n) && Side(n) && Total(n) >= 0 && Drawn(q0, qd, n, words, Total(n), i)
    requires Inside(n, x, y) && Module(q0, n, x, y)
    ensures Grid(qd, n) && Module(qd, n, x, y)
  {
    hide Module, Grid, FreeCells, DataBit;
    FreeCellsExact(q0, n, Total(n));
  }

  // The reader's function modules are not masked.
  lemma NotMasked(fm: seq<bv8>, base: seq<bv8>, q: seq<bv8>, n: int, e: Level, m: MaskNumber, x: int, y: int)
    requires ShowsSymbol(fm, base, q, n, e, m) && Inside(n, x, y) && FormatOrder(n, x, y) < 0 && Module(fm, n, x, y)
    ensures Module(q, n, x, y) == Module(base, n, x, y)
  {
    hide Module, Grid, FormatOrder, FormatBits, Inverts;
  }

  lemma PatternsStay(v: Version, q0: seq<bv8>, qd: seq<bv8>, base: seq<bv8>, q: seq<bv8>, fm: seq<bv8>, words: seq<bv8>,
      i: int, e: Level, m: MaskNumber)
    requires FunctionGrid(q0, v) && FunctionGrid(fm, v) && Side(SideOf(v)) && Total(SideOf(v)) >= 0
    requires Drawn(q0, qd, SideOf(v), words, Total(SideOf(v)), i) && PatternsShown(v, qd, base)
    requires ShowsSymbol(fm, base, q, SideOf(v), e, m)
    ensures PatternsVisible(q, v)
  {
    hide Module, Grid, InAny, FunctionRects, Drawn, ShowsSymbol, FormatOrder, Colour, Side, Total;
    var n := SideOf(v);
    ShownGrid(fm, base, q, n, e, m);
    forall x, y | Inside(n, x, y) && IsFunction(v, x, y) && FormatOrder(n, x, y) < 0
      ensures Module(q, n, x, y) == Colour(v, x, y)
    {
      DarkStays(q0, qd, n, words, i, x, y);
      NotMasked(fm, base, q, n, e, m, x, y);
    }
  }

  // Both copies of the format word say level and mask, and the module beside them is dark.
  ghost predicate FormatShown(q: seq<bv8>, v: Version, e: Level, m: MaskNumber) {
    var n := SideOf(v);
    && Grid(q, n)
    && forall x, y :: Inside(n, x, y) && FormatOrder(n, x, y) >= 0 ==>
      FormatOrder(n, x, y) <= 30 && Module(q, n, x, y) == FormatModule(FormatBits(e, m), FormatOrder(n, x, y))
  }

  // Of the eight masks of what the symbol shows, its own is the first of least penalty.
  ghost predicate WellMasked(q: seq<bv8>, v: Version, e: Level, m: MaskNumber) {
    var n := SideOf(v);
    exists fm, base ::
      FunctionGrid(fm, v) && Grid(fm, n) && ShowsSymbol(fm, base, q, n, e, m) && Least(fm, base, n, e, m)
  }

  lemma FormatKept(fm: seq<bv8>, base: seq<bv8>, q: seq<bv8>, v: Version, e: Level, m: MaskNumber)
    requires ShowsSymbol(fm, base, q, SideOf(v), e, m)
    ensures FormatShown(q, v, e, m)
  {
    hide Module, FormatOrder, FormatBits, FormatModule, MaskedModule, Grid;
    FormatOrderRange(SideOf(v));
  }

  // encodeText to its end: a text that can be encoded is read back from the finished symbol, by every reader that draws
  // its own function modules.
  method EncodeTextSymbol(text: string, e: Ecc, minVersion: Version, maxVersion: Version, mask: int, boostEcl: bool,
      temp: array<bv8>, qrcode: array<bv8>)
    returns (ok: bool, version: Version, level: Ecc, chosen: MaskNumber)
    requires CText(text) && minVersion <= maxVersion && temp != qrcode && -1 <= mask <= 7
    requires BufferLen(maxVersion) <= temp.Length && BufferLen(maxVersion) <= qrcode.Length
    modifies temp, qrcode
    ensures ok <==>
      && (text == "" || TextStorable(text, BufferLen(maxVersion)))
      && exists v: Version :: minVersion <= v <= maxVersion && TextFits(text, e, v)
    ensures !ok ==> qrcode.Length > 0 && qrcode[0] == 0
    ensures ok ==> version <= maxVersion && BestFit(text, e, boostEcl, minVersion, version, level)
    ensures ok && mask >= 0 ==> chosen == mask
    ensures ok ==> Grid(qrcode[..], SideOf(version)) && FormatShown(qrcode[..], version, level, chosen)
    ensures ok ==> PatternsVisible(qrcode[..], version)
    ensures ok && mask == -1 ==> WellMasked(qrcode[..], version, level, chosen)
    ensures ok ==> forall fm :: FunctionGrid(fm, version) ==>
      ReadSymbol(fm, qrcode[..], version, level, chosen) == if text == "" then [] else [ContentOf(text)]
  {
    hide Holds, GetNumDataCodewords, RawCodewords, FunctionGrid, ReadAll, ReadSymbol, TextFits, TextStorable,
      ContentOf, CText, FormatShown, WellMasked, Grid, BufferLen, PatternsVisible, BestFit;
    forall f: Ecc, v: Version | v <= maxVersion
      ensures GetNumDataCodewords(f, v) <= qrcode.Length
    {
      BufferRoom(v, maxVersion);
    }
    BufferRoom(maxVersion, maxVersion);
    ghost var stream;
    chosen := 0;
    ok, version, level, stream := EncodeText(text, e, minVersion, maxVersion, boostEcl, temp, qrcode);
    if ok {
      BufferRoom(version, maxVersion);
      chosen := FinishSymbol(version, level, mask, temp, qrcode, stream);
    }
  }
}
