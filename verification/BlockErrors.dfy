// A symbol's data is determined by its code words even when some bytes of every block were read wrongly.
module BlockErrors {
  import opened Arithmetic
  import opened ReedSolomon
  import opened ReedSolomonCode
  import opened ReedSolomonDistance
  import opened Interleaving
  import opened QrTables

  // ---- every block is short enough ----

  predicate Short(blocks: int, raw: int) {
    raw < 254 * blocks
  }

  lemma ShortLow(v: Version)
    ensures Short(NumBlocksLow(v), RawCodewords(v))
  {
    if v <= 20 { ShortLowSmall(v); } else { ShortLowLarge(v); }
  }

  lemma ShortLowSmall(v: Version)
    requires v <= 20
    ensures Short(NumBlocksLow(v), RawCodewords(v))
  {}

  lemma ShortLowLarge(v: Version)
    requires v > 20
    ensures Short(NumBlocksLow(v), RawCodewords(v))
  {}

  lemma ShortMedium(v: Version)
    ensures Short(NumBlocksMedium(v), RawCodewords(v))
  {
    MoreMedium(v);
    hide NumBlocksMedium, NumBlocksLow, RawCodewords;
    ShortLow(v);
  }

  lemma ShortQuartile(v: Version)
    ensures Short(NumBlocksQuartile(v), RawCodewords(v))
  {
    MoreQuartile(v);
    hide NumBlocksQuartile, NumBlocksLow, RawCodewords;
    ShortLow(v);
  }

  lemma ShortHigh(v: Version)
    ensures Short(NumBlocksHigh(v), RawCodewords(v))
  {
    MoreHigh(v);
    hide NumBlocksHigh, NumBlocksLow, RawCodewords;
    ShortLow(v);
  }

  // The higher levels have no fewer blocks.
  lemma MoreMedium(v: Version)
    ensures NumBlocksMedium(v) >= NumBlocksLow(v)
  {}

  lemma MoreQuartile(v: Version)
    ensures NumBlocksQuartile(v) >= NumBlocksLow(v)
  {}

  lemma MoreHigh(v: Version)
    ensures NumBlocksHigh(v) >= NumBlocksLow(v)
  {}

  lemma BlocksShort(e: Ecc, v: Version)
    ensures Short(NumErrorCorrectionBlocks(e, v), RawCodewords(v))
  {
    hide NumBlocksLow, NumBlocksMedium, NumBlocksQuartile, NumBlocksHigh, RawCodewords, Short;
    ShortLow(v); ShortMedium(v); ShortQuartile(v); ShortHigh(v);
  }

  // A block with its check bytes has at most 255 bytes, as many as the powers of 2 can tell apart.
  lemma BlockFits(e: Ecc, v: Version, i: int)
    requires 0 <= i < LayoutOf(e, v).nb
    ensures LayoutOf(e, v).Valid() && LayoutOf(e, v).BlockLen(i) + LayoutOf(e, v).ecc <= ORDER
  {
    LayoutValid(e, v);
    BlocksShort(e, v);
    LayoutSizes(e, v);
    var l := LayoutOf(e, v);
    hide LayoutOf;
    QuotientBound(l.nb, l.raw, 254);
  }

  lemma LayoutSizes(e: Ecc, v: Version)
    ensures LayoutOf(e, v).nb == NumErrorCorrectionBlocks(e, v) && LayoutOf(e, v).raw == RawCodewords(v)
  {
    hide NumErrorCorrectionBlocks, RawCodewords, EccCodewordsPerBlock;
  }

  // ---- reading with errors ----

  // Block i of code words as they were read.
  function ReadBlock(l: Layout, word: seq<bv8>, i: int): (b: Poly)
    requires l.Valid() && |word| == l.raw && 0 <= i < l.nb
    ensures |b| == l.BlockLen(i) + l.ecc
  {
    BlockBounds(l, i);
    ReadData(l, word, i) + ReadCheck(l, word, i)
  }

  function CodeWords(l: Layout, data: seq<bv8>): (w: seq<bv8>)
    requires l.Valid() && |data| == l.DataLen()
    ensures |w| == l.raw
  {
    Interleaved(l, data, Generator(l.ecc)[1..])
  }

  // At most half as many bytes as there are check bytes were read wrongly.
  predicate Close(l: Layout, word: seq<bv8>, data: seq<bv8>, i: int)
    requires l.Valid() && |word| == l.raw && |data| == l.DataLen() && 0 <= i < l.nb
  {
    2 * Differing(ReadBlock(l, word, i), ReadBlock(l, CodeWords(l, data), i)) <= l.ecc
  }

  lemma ReadBlockIs(l: Layout, data: seq<bv8>, i: int)
    requires l.Valid() && |data| == l.DataLen() && 0 <= i < l.nb
    ensures ReadBlock(l, CodeWords(l, data), i) == WordOf(Block(l, data, i), l.ecc)
    ensures ReadData(l, CodeWords(l, data), i) == Block(l, data, i)
  {
    hide ReadData, ReadCheck, Interleaved, Block, Remainder, Generator;
    var g := Generator(l.ecc)[1..];
    DataReadsBack(l, data, g, i);
    CheckReadsBack(l, data, g, i);
  }

  lemma {:induction false} SameDeinterleaved(l: Layout, w: seq<bv8>, u: seq<bv8>, n: nat)
    requires l.Valid() && |w| == l.raw && |u| == l.raw && n <= l.nb
    requires forall i :: 0 <= i < n ==> ReadData(l, w, i) == ReadData(l, u, i)
    ensures Deinterleave(l, w, n) == Deinterleave(l, u, n)
  {
    hide ReadData;
    if n > 0 { SameDeinterleaved(l, w, u, n - 1); }
  }

  // Code words that are close to those of two data streams in every block are those of one.
  lemma DataSurvives(e: Ecc, v: Version, word: seq<bv8>, data: seq<bv8>, other: seq<bv8>)
    requires LayoutOf(e, v).Valid() && |word| == LayoutOf(e, v).raw
    requires |data| == LayoutOf(e, v).DataLen() && |other| == LayoutOf(e, v).DataLen()
    requires forall i :: 0 <= i < LayoutOf(e, v).nb ==>
      Close(LayoutOf(e, v), word, data, i) && Close(LayoutOf(e, v), word, other, i)
    ensures data == other
  {
    var l := LayoutOf(e, v);
    hide LayoutOf, CodeWords, ReadBlock, ReadData, Differing, Block, Deinterleave;
    forall i | 0 <= i < l.nb ensures ReadData(l, CodeWords(l, data), i) == ReadData(l, CodeWords(l, other), i) {
      ReadBlockIs(l, data, i);
      ReadBlockIs(l, other, i);
      BlockFits(e, v, i);
      assert Close(l, word, data, i) && Close(l, word, other, i);
      DataDetermined(ReadBlock(l, word, i), Block(l, data, i), Block(l, other, i), l.ecc);
    }
    SameDeinterleaved(l, CodeWords(l, data), CodeWords(l, other), l.nb);
    CodeWordsBack(l, data);
    CodeWordsBack(l, other);
  }

  lemma CodeWordsBack(l: Layout, data: seq<bv8>)
    requires l.Valid() && |data| == l.DataLen()
    ensures Deinterleave(l, CodeWords(l, data), l.nb) == data
  {
    hide Interleaved, Deinterleave, Generator;
    InterleavingRoundTrip(l, data);
  }
}
