// Splitting the data codewords into blocks and interleaving them with their check words
// (ISO/IEC 18004:2015 section 7.6).
module Interleaving {
  import opened ReedSolomon
  import opened ReedSolomonCode
  import opened Arithmetic

  // raw codewords in nb blocks with ecc check codewords each.
  datatype Layout = Layout(nb: nat, ecc: nat, raw: nat) {
    ghost predicate Valid() {
      nb >= 1 && 1 <= ecc <= DEGREE_MAX && (ecc + 1) * nb <= raw
    }
    function NumShort(): int
      requires nb >= 1
    {
      nb - raw % nb
    }
    function ShortLen(): int
      requires nb >= 1
    {
      raw / nb - ecc
    }
    function DataLen(): int {
      raw - ecc * nb
    }
    function BlockLen(i: int): int
      requires nb >= 1
    {
      ShortLen() + if i < NumShort() then 0 else 1
    }
    function BlockStart(i: int): int
      requires nb >= 1
    {
      i * ShortLen() + if i < NumShort() then 0 else i - NumShort()
    }
    // Where byte j of block i goes.
    function DataPos(i: int, j: int): int
      requires nb >= 1
    {
      j * nb + i - if j == ShortLen() then NumShort() else 0
    }
    function EccPos(i: int, j: int): int {
      DataLen() + j * nb + i
    }
  }

  // A place in a block: byte row of the data or of the check word of a block.
  datatype Place = Place(block: int, row: int, check: bool)

  function Pos(l: Layout, p: Place): int
    requires l.nb >= 1
  {
    if p.check then l.EccPos(p.block, p.row) else l.DataPos(p.block, p.row)
  }

  ghost predicate InLayout(l: Layout, p: Place)
    requires l.nb >= 1
  {
    0 <= p.block < l.nb && 0 <= p.row < if p.check then l.ecc else l.BlockLen(p.block)
  }

  // The place that lands on index k.
  function Locate(l: Layout, k: int): Place
    requires l.nb >= 1
  {
    if k >= l.DataLen() then Place((k - l.DataLen()) % l.nb, (k - l.DataLen()) / l.nb, true)
    else if k >= l.ShortLen() * l.nb then Place(k - l.ShortLen() * l.nb + l.NumShort(), l.ShortLen(), false)
    else Place(k % l.nb, k / l.nb, false)
  }

  lemma LayoutFacts(l: Layout)
    requires l.Valid()
    ensures l.ShortLen() >= 1 && 1 <= l.NumShort() <= l.nb
    ensures l.DataLen() == l.ShortLen() * l.nb + (l.nb - l.NumShort())
    ensures l.BlockStart(l.nb) == l.DataLen()
    ensures l.DataLen() + l.ecc * l.nb == l.raw
  {
    var q := l.raw / l.nb;
    DivRem(l.nb, l.raw);
    QuotientBound(l.nb, l.raw, l.ecc + 1);
    assert (q - l.ecc) * l.nb == q * l.nb - l.ecc * l.nb;
    assert l.nb * l.ShortLen() == l.ShortLen() * l.nb;
  }

  lemma LocateCheckPos(l: Layout, i: int, j: int)
    requires l.Valid() && 0 <= i < l.nb && 0 <= j < l.ecc
    ensures l.DataLen() <= l.EccPos(i, j) < l.raw
    ensures Locate(l, l.EccPos(i, j)) == Place(i, j, true)
  {
    LayoutFacts(l);
    MulMono(l.nb, 0, j);
    DivMod(l.nb, j, i);
    RowOrder(l.nb, j, l.ecc);
  }

  lemma LocateDataPos(l: Layout, i: int, j: int)
    requires l.Valid() && 0 <= i < l.nb && 0 <= j < l.BlockLen(i)
    ensures 0 <= l.DataPos(i, j) < l.DataLen()
    ensures Locate(l, l.DataPos(i, j)) == Place(i, j, false)
  {
    LayoutFacts(l);
    MulMono(l.nb, 0, j);
    DivMod(l.nb, j, i);
    if j < l.ShortLen() {
      RowOrder(l.nb, j, l.ShortLen());
    }
  }

  // Locate and Pos are inverse: every index of the result belongs to exactly one place.
  lemma LocatePos(l: Layout, p: Place)
    requires l.Valid() && InLayout(l, p)
    ensures 0 <= Pos(l, p) < l.raw
    ensures Locate(l, Pos(l, p)) == p
  {
    LayoutFacts(l);
    hide Locate;
    if p.check { LocateCheckPos(l, p.block, p.row); } else { LocateDataPos(l, p.block, p.row); }
  }

  lemma PosLocate(l: Layout, k: int)
    requires l.Valid() && 0 <= k < l.raw
    ensures InLayout(l, Locate(l, k)) && Pos(l, Locate(l, k)) == k
  {
    LayoutFacts(l);
    if k >= l.DataLen() {
      DivRem(l.nb, k - l.DataLen());
      QuotientBound(l.nb, k - l.DataLen(), l.ecc);
    } else if k < l.ShortLen() * l.nb {
      DivRem(l.nb, k);
      QuotientBound(l.nb, k, l.ShortLen());
    }
  }

  lemma LocateInjective(l: Layout)
    requires l.Valid()
    ensures forall k, m :: 0 <= k < l.raw && 0 <= m < l.raw && Locate(l, k) == Locate(l, m) ==> k == m
  {
    hide Locate, Pos;
    forall k, m | 0 <= k < l.raw && 0 <= m < l.raw && Locate(l, k) == Locate(l, m)
      ensures k == m
    {
      PosLocate(l, k); PosLocate(l, m);
    }
  }

  // ---- specification of the interleaved sequence ----

  lemma BlockBounds(l: Layout, i: int)
    requires l.Valid() && 0 <= i < l.nb
    ensures l.BlockLen(i) >= 1
    ensures 0 <= l.BlockStart(i) && l.BlockStart(i) + l.BlockLen(i) == l.BlockStart(i + 1) <= l.DataLen()
  {
    LayoutFacts(l);
    var s := l.ShortLen();
    MulMono(s, 0, i);
    MulMono(s, i + 1, l.nb);
    assert (i + 1) * s == i * s + s;
  }

  function Block(l: Layout, data: seq<bv8>, i: int): (b: seq<bv8>)
    requires l.Valid() && |data| == l.DataLen() && 0 <= i < l.nb
    ensures |b| == l.BlockLen(i)
  {
    BlockBounds(l, i);
    data[l.BlockStart(i)..l.BlockStart(i) + l.BlockLen(i)]
  }

  function CodewordAt(l: Layout, data: seq<bv8>, g: Poly, p: Place): bv8
    requires l.Valid() && |data| == l.DataLen() && |g| == l.ecc && InLayout(l, p)
  {
    if p.check then Remainder(Block(l, data, p.block), g)[p.row] else Block(l, data, p.block)[p.row]
  }

  function Interleaved(l: Layout, data: seq<bv8>, g: Poly): (r: seq<bv8>)
    requires l.Valid() && |data| == l.DataLen() && |g| == l.ecc
    ensures |r| == l.raw
  {
    seq(l.raw, k requires 0 <= k < l.raw => PosLocate(l, k); CodewordAt(l, data, g, Locate(l, k)))
  }

  // ---- the algorithm ----

  method CopyData(l: Layout, i: nat, data: array<bv8>, start: nat, result: array<bv8>)
    requires l.Valid() && i < l.nb && data != result
    requires start + l.BlockLen(i) <= data.Length && l.raw <= result.Length
    modifies result
    ensures forall k :: 0 <= k < l.raw ==>
      var p := Locate(l, k);
      result[k] == if p.block == i && !p.check
        && 0 <= p.row < l.BlockLen(i) then data[start + p.row] else old(result[k])
  {
    hide Locate, Pos;
    LayoutFacts(l);
    LocateInjective(l);
    var datLen := l.ShortLen() + (if i < l.NumShort() then 0 else 1);
    var j, k := 0, i as int;
    while j < datLen
      invariant 0 <= j <= datLen
      invariant k == j * l.nb + i - if j > l.ShortLen() then l.NumShort() else 0
      invariant forall k :: 0 <= k < l.raw ==>
        var p := Locate(l, k);
        result[k] == if p.block == i && !p.check && 0 <= p.row < j then data[start + p.row] else old(result[k])
    {
      LocateDataPos(l, i, j);
      if j == l.ShortLen() {
        k := k - l.NumShort();
      }
      assert k == l.DataPos(i, j);
      result[k] := data[start + j];
      assert (j + 1) * l.nb == j * l.nb + l.nb;
      j, k := j + 1, k + l.nb;
    }
  }

  method CopyEcc(l: Layout, i: nat, data: array<bv8>, start: nat, result: array<bv8>)
    requires l.Valid() && i < l.nb && data != result
    requires start + l.ecc <= data.Length && l.raw <= result.Length
    modifies result
    ensures forall k :: 0 <= k < l.raw ==>
      var p := Locate(l, k);
      result[k] == if p.block == i && p.check && 0 <= p.row < l.ecc then data[start + p.row] else old(result[k])
  {
    hide Locate, Pos;
    LayoutFacts(l);
    LocateInjective(l);
    var j, k := 0, l.DataLen() + i;
    while j < l.ecc
      invariant 0 <= j <= l.ecc
      invariant k == l.EccPos(i, j)
      invariant forall k :: 0 <= k < l.raw ==>
        var p := Locate(l, k);
        result[k] == if p.block == i && p.check && 0 <= p.row < j then data[start + p.row] else old(result[k])
    {
      LocateCheckPos(l, i, j);
      result[k] := data[start + j];
      assert (j + 1) * l.nb == j * l.nb + l.nb;
      j, k := j + 1, k + l.nb;
    }
  }

  lemma InterleavedAt(l: Layout, data: seq<bv8>, g: Poly, k: int)
    requires l.Valid() && |data| == l.DataLen() && |g| == l.ecc && 0 <= k < l.raw
    ensures InLayout(l, Locate(l, k))
    ensures Interleaved(l, data, g)[k] == CodewordAt(l, data, g, Locate(l, k))
  {
    hide Locate, CodewordAt;
    PosLocate(l, k);
  }

  // Check words are computed block by block in the scratch area behind the data; the data itself is not disturbed.
  method AddEccAndInterleave(l: Layout, data: array<bv8>, result: array<bv8>)
    requires l.Valid() && data != result
    requires l.raw <= data.Length && l.raw <= result.Length
    modifies data, result
    ensures result[..l.raw] == Interleaved(l, old(data[..l.DataLen()]), Generator(l.ecc)[1..])
    ensures data[..l.DataLen()] == old(data[..l.DataLen()])
  {
    hide Done, Interleaved, Generator;
    LayoutFacts(l);
    MulMono(l.ecc, 1, l.nb);
    assert l.ecc * l.nb == l.nb * l.ecc;
    ghost var d := data[..l.DataLen()];
    var rsdiv := new bv8[30];
    ComputeDivisor(l.ecc, rsdiv);
    ghost var g := Generator(l.ecc)[1..];
    var dat := 0;
    var i := 0;
    DoneStart(l, d, g, result);
    while i < l.nb
      invariant 0 <= i <= l.nb
      invariant dat == l.BlockStart(i)
      invariant data[..l.DataLen()] == d
      invariant rsdiv[..l.ecc] == g
      invariant Done(l, d, g, i, result)
    {
      var datLen := l.ShortLen() + (if i < l.NumShort() then 0 else 1);
      EncodeBlock(l, i, data, dat, rsdiv, result, d, g);
      BlockBounds(l, i);
      dat := dat + datLen;
      i := i + 1;
    }
    DoneEnd(l, d, g, result);
  }

  lemma DoneStart(l: Layout, d: seq<bv8>, g: Poly, result: array<bv8>)
    requires l.Valid() && |d| == l.DataLen() && |g| == l.ecc && l.raw <= result.Length
    ensures Done(l, d, g, 0, result) && l.BlockStart(0) == 0
  {
    hide Locate, Interleaved;
    LayoutFacts(l);
    forall k | 0 <= k < l.raw ensures Locate(l, k).block >= 0 { PosLocate(l, k); }
  }

  lemma DoneEnd(l: Layout, d: seq<bv8>, g: Poly, result: array<bv8>)
    requires l.Valid() && |d| == l.DataLen() && |g| == l.ecc && l.raw <= result.Length
    requires Done(l, d, g, l.nb, result)
    ensures result[..l.raw] == Interleaved(l, d, g)
  {
    hide Locate, Interleaved;
    forall k | 0 <= k < l.raw
      ensures result[k] == Interleaved(l, d, g)[k]
    {
      PosLocate(l, k);
    }
  }

  // The indices of blocks below i hold their final bytes.
  ghost predicate Done(l: Layout, d: seq<bv8>, g: Poly, i: int, result: array<bv8>)
    requires l.Valid() && |d| == l.DataLen() && |g| == l.ecc && l.raw <= result.Length
    reads result
  {
    forall k :: 0 <= k < l.raw && Locate(l, k).block < i ==> result[k] == Interleaved(l, d, g)[k]
  }

  method EncodeBlock(l: Layout, i: nat, data: array<bv8>, dat: nat, rsdiv: array<bv8>, result: array<bv8>,
                     ghost d: seq<bv8>, ghost g: Poly)
    requires l.Valid() && i < l.nb && data != result && rsdiv != data && rsdiv != result
    requires l.raw <= data.Length && l.raw <= result.Length && l.ecc <= rsdiv.Length
    requires |d| == l.DataLen() && |g| == l.ecc
    requires l.DataLen() >= 0 && data[..l.DataLen()] == d && rsdiv[..l.ecc] == g
    requires dat == l.BlockStart(i)
    requires Done(l, d, g, i, result)
    modifies data, result
    ensures data[..l.DataLen()] == d
    ensures Done(l, d, g, i + 1, result)
  {
    hide Locate, Pos, Remainder, Interleaved, Done, Layout.DataLen, Layout.BlockStart, Layout.BlockLen,
      Layout.ShortLen, Layout.NumShort;
    BlockBounds(l, i);
    ScratchFits(l, i);
    var datLen := l.ShortLen() + (if i < l.NumShort() then 0 else 1);
    ghost var b := Block(l, d, i);
    BlockInData(l, d, i, data[..]);
    assert data[dat..dat + datLen] == data[..][dat..dat + datLen] == b;
    ComputeRemainder(data, dat, datLen, rsdiv, l.ecc, data, l.DataLen());
    assert data[..l.DataLen()] == d;
    PlaceBlock(l, i, data, dat, l.DataLen(), result, d, g);
  }

  lemma ScratchFits(l: Layout, i: nat)
    requires l.Valid() && i < l.nb
    ensures 0 <= l.DataLen() && l.DataLen() + l.ecc <= l.raw
    ensures l.BlockLen(i) == l.ShortLen() + (if i < l.NumShort() then 0 else 1)
  {
    LayoutFacts(l);
    MulMono(l.ecc, 1, l.nb);
    assert l.ecc * l.nb == l.nb * l.ecc;
  }

  lemma BlockInData(l: Layout, d: seq<bv8>, i: nat, data: seq<bv8>)
    requires l.Valid() && i < l.nb && |d| == l.DataLen() <= |data| && data[..l.DataLen()] == d
    requires 0 <= l.BlockStart(i) && 0 <= l.BlockLen(i) && l.BlockStart(i) + l.BlockLen(i) <= l.DataLen()
    ensures data[l.BlockStart(i)..l.BlockStart(i) + l.BlockLen(i)] == Block(l, d, i)
  {
    hide Layout.DataLen, Layout.BlockStart, Layout.BlockLen;
    var x, y := l.BlockStart(i), l.BlockStart(i) + l.BlockLen(i);
    assert data[..|d|][x..y] == data[x..y];
  }

  // The word of an index in block i is among the block's data or its check words.
  lemma BlockWord(l: Layout, d: seq<bv8>, g: Poly, i: nat, k: int, n: nat, scratch: seq<bv8>)
    requires l.Valid() && i < l.nb && |d| == l.DataLen() == n && |g| == l.ecc && 0 <= k < l.raw
    requires n + l.ecc <= |scratch| && scratch[..n] == d && scratch[n..n + l.ecc] == Remainder(Block(l, d, i), g)
    requires Locate(l, k).block == i && l.BlockStart(i) >= 0 && l.BlockStart(i) + l.BlockLen(i) <= n
    ensures var p := Locate(l, k);
      if p.check then 0 <= p.row < l.ecc && scratch[n + p.row] == Interleaved(l, d, g)[k]
      else 0 <= p.row < l.BlockLen(i) && scratch[l.BlockStart(i) + p.row] == Interleaved(l, d, g)[k]
  {
    hide Locate, Pos, Remainder, Interleaved, Layout.DataLen, Layout.BlockStart, Layout.BlockLen;
    InterleavedAt(l, d, g, k);
    var p := Locate(l, k);
    if p.check {
      assert scratch[n..n + l.ecc][p.row] == scratch[n + p.row];
    } else {
      assert scratch[..n][l.BlockStart(i) + p.row] == scratch[l.BlockStart(i) + p.row];
    }
  }

  // The data and check words of block i go to their places.
  method PlaceBlock(l: Layout, i: nat, data: array<bv8>, dat: nat, n: nat, result: array<bv8>, ghost d: seq<bv8>,
      ghost g: Poly)
    requires l.Valid() && i < l.nb && data != result && l.raw <= result.Length
    requires |d| == l.DataLen() == n && |g| == l.ecc && dat == l.BlockStart(i)
    requires n + l.ecc <= data.Length && data[..n] == d && data[n..n + l.ecc] == Remainder(Block(l, d, i), g)
    requires Done(l, d, g, i, result)
    modifies result
    ensures Done(l, d, g, i + 1, result)
  {
    hide Locate, Pos, Remainder, Interleaved, Block, Layout.DataLen, Layout.BlockStart, Layout.BlockLen;
    BlockBounds(l, i);
    CopyData(l, i, data, dat, result);
    CopyEcc(l, i, data, n, result);
    ghost var scratch := data[..];
    assert scratch[..n] == d && scratch[n..n + l.ecc] == data[n..n + l.ecc];
    forall k | 0 <= k < l.raw && Locate(l, k).block < i + 1
      ensures result[k] == Interleaved(l, d, g)[k]
    {
      if Locate(l, k).block == i { BlockWord(l, d, g, i, k, n, scratch); }
    }
  }

  // ---- de-interleaving ----

  // The data bytes of block i read back from a codeword sequence.
  function ReadData(l: Layout, word: seq<bv8>, i: int): (b: seq<bv8>)
    requires l.Valid() && |word| == l.raw && 0 <= i < l.nb
  {
    BlockBounds(l, i);
    seq(l.BlockLen(i), j requires 0 <= j < l.BlockLen(i) => DataWithin(l, i, j); word[l.DataPos(i, j)])
  }

  lemma DataWithin(l: Layout, i: int, j: int)
    requires l.Valid() && 0 <= i < l.nb && 0 <= j < l.BlockLen(i)
    ensures 0 <= l.DataPos(i, j) < l.DataLen() <= l.raw
  {
    LayoutFacts(l);
    MulMono(l.nb, 0, l.ecc);
    hide Locate;
    LocateDataPos(l, i, j);
  }

  function ReadCheck(l: Layout, word: seq<bv8>, i: int): (b: seq<bv8>)
    requires l.Valid() && |word| == l.raw && 0 <= i < l.nb
  {
    seq(l.ecc, j requires 0 <= j < l.ecc => LocateCheckPos(l, i, j); LayoutFacts(l); word[l.EccPos(i, j)])
  }

  // The data of blocks 0..n in order.
  function Deinterleave(l: Layout, word: seq<bv8>, n: nat): seq<bv8>
    requires l.Valid() && |word| == l.raw && n <= l.nb
  {
    if n == 0 then [] else Deinterleave(l, word, n - 1) + ReadData(l, word, n - 1)
  }

  lemma ReadsBack(l: Layout, data: seq<bv8>, g: Poly, i: int)
    requires l.Valid() && |data| == l.DataLen() && |g| == l.ecc && 0 <= i < l.nb
    ensures ReadData(l, Interleaved(l, data, g), i) == Block(l, data, i)
    ensures ReadCheck(l, Interleaved(l, data, g), i) == Remainder(Block(l, data, i), g)
  {
    DataReadsBack(l, data, g, i);
    CheckReadsBack(l, data, g, i);
  }

  lemma DataReadsBack(l: Layout, data: seq<bv8>, g: Poly, i: int)
    requires l.Valid() && |data| == l.DataLen() && |g| == l.ecc && 0 <= i < l.nb
    ensures ReadData(l, Interleaved(l, data, g), i) == Block(l, data, i)
  {
    hide Locate, Block, Remainder, Interleaved;
    var w := Interleaved(l, data, g);
    LayoutFacts(l);
    forall j | 0 <= j < l.BlockLen(i)
      ensures ReadData(l, w, i)[j] == Block(l, data, i)[j]
    {
      LocateDataPos(l, i, j);
      DataWithin(l, i, j);
      InterleavedAt(l, data, g, l.DataPos(i, j));
    }
  }

  lemma CheckReadsBack(l: Layout, data: seq<bv8>, g: Poly, i: int)
    requires l.Valid() && |data| == l.DataLen() && |g| == l.ecc && 0 <= i < l.nb
    ensures ReadCheck(l, Interleaved(l, data, g), i) == Remainder(Block(l, data, i), g)
  {
    hide Locate, Block, Remainder, Interleaved;
    var w := Interleaved(l, data, g);
    LayoutFacts(l);
    forall j | 0 <= j < l.ecc
      ensures ReadCheck(l, w, i)[j] == Remainder(Block(l, data, i), g)[j]
    {
      LocateCheckPos(l, i, j);
      InterleavedAt(l, data, g, l.EccPos(i, j));
    }
  }

  lemma {:induction false} DeinterleavePrefix(l: Layout, data: seq<bv8>, g: Poly, n: nat)
    requires l.Valid() && |data| == l.DataLen() && |g| == l.ecc && n <= l.nb
    ensures 0 <= l.BlockStart(n) <= l.DataLen()
    ensures Deinterleave(l, Interleaved(l, data, g), n) == data[..l.BlockStart(n)]
  {
    hide Interleaved, ReadData, Block, ReadCheck, Layout.DataLen, Layout.BlockStart, Layout.BlockLen;
    if n > 0 {
      DeinterleavePrefix(l, data, g, n - 1);
      BlockBounds(l, n - 1);
      ReadsBack(l, data, g, n - 1);
      BlockNext(l, data, n - 1);
    } else {
      FirstStart(l);
    }
  }

  lemma FirstStart(l: Layout)
    requires l.Valid()
    ensures l.BlockStart(0) == 0 <= l.DataLen()
  {
    LayoutFacts(l);
  }

  lemma BlockNext(l: Layout, data: seq<bv8>, i: nat)
    requires l.Valid() && |data| == l.DataLen() && i < l.nb
    requires 0 <= l.BlockStart(i) <= l.BlockStart(i + 1) <= l.DataLen()
    ensures data[..l.BlockStart(i)] + Block(l, data, i) == data[..l.BlockStart(i + 1)]
  {
    hide Layout.DataLen, Layout.BlockStart, Layout.BlockLen;
    BlockBounds(l, i);
  }

  // De-interleaving returns all the data, and every block with its check word is a codeword.
  lemma InterleavingRoundTrip(l: Layout, data: seq<bv8>)
    requires l.Valid() && |data| == l.DataLen()
    ensures var w := Interleaved(l, data, Generator(l.ecc)[1..]);
      && Deinterleave(l, w, l.nb) == data
      && forall i :: 0 <= i < l.nb ==> IsCodeword(ReadData(l, w, i) + ReadCheck(l, w, i), l.ecc)
  {
    hide Interleaved, ReadData, ReadCheck, Generator, Remainder, IsCodeword;
    var g := Generator(l.ecc)[1..];
    LayoutFacts(l);
    DeinterleavePrefix(l, data, g, l.nb);
    forall i | 0 <= i < l.nb
      ensures var w := Interleaved(l, data, g); IsCodeword(ReadData(l, w, i) + ReadCheck(l, w, i), l.ecc)
    {
      ReadsBack(l, data, g, i);
      RemainderCompletesCodeword(Block(l, data, i), l.ecc);
    }
  }
}
