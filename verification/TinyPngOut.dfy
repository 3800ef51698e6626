// The resumable PNG writer.
module TinyPngOut {
  import opened Options
  import opened GaloisField
  import opened PngFormat
  import Arithmetic

  datatype Status = Ok | InvalidArgument | ImageTooLarge | IoError

  const UINT32_MAX: nat := 0xFFFF_FFFF
  const INT32_MAX: nat := 0x7FFF_FFFF

  // ---- an output that takes limit bytes ----

  // What the output holds of the bytes whole.
  function Fitting(whole: Bytes, limit: nat): Bytes {
    if |whole| <= limit then whole else whole[..limit]
  }

  // The output is full before the end of whole.
  predicate CutShort(output: Bytes, limit: nat, whole: Bytes) {
    limit < |whole| && output == whole[..limit]
  }

  lemma CutEarlier(output: Bytes, limit: nat, next: Bytes, whole: Bytes)
    requires CutShort(output, limit, next) && next <= whole
    ensures CutShort(output, limit, whole)
  {
    assert whole[..|next|] == next;
  }

  // ---- the uncompressed stream ----

  // Every row of w pixel bytes prefixed by filter byte 0; the last row may be incomplete.
  function Filtered(px: Bytes, w: nat): Bytes
    requires w > 0
  {
    if px == [] then []
    else
      var k := |px| - 1;
      Filtered(px[..k], w) + (if k % w == 0 then [0] else []) + [px[k]]
  }

  lemma FilteredStep(px: Bytes, w: nat, b: bv8)
    requires w > 0
    ensures Filtered(px + [b], w) == Filtered(px, w) + (if |px| % w == 0 then [0] else []) + [b]
  {
    assert (px + [b])[..|px|] == px;
  }

  // Inside a row the pixels are copied.
  lemma {:induction false} FilteredRun(px: Bytes, w: nat, y: nat, r: nat, run: Bytes)
    requires w > 0 && |px| == y * w + r && r + |run| <= w && run != []
    ensures Filtered(px + run, w) == Filtered(px, w) + (if r == 0 then [0] else []) + run
    decreases |run|
  {
    hide Filtered;
    var n := |run| - 1;
    var front := run[..n];
    assert run == front + [run[n]];
    Arithmetic.DivMod(w, y, r + n);
    FilteredStep(px + front, w, run[n]);
    if n > 0 {
      FilteredRun(px, w, y, r, front);
      assert px + run == px + front + [run[n]];
    } else {
      assert px + front == px && px + run == px + [run[n]];
    }
  }

  // ---- the file ----

  function IhdrData(w: nat, h: nat): Bytes {
    Big32(w) + Big32(h) + [0x08, 0x02, 0x00, 0x00, 0x00]
  }

  const ZLIB: Bytes := [0x08, 0x1D]

  // Everything before the first block; idatSize is the declared length of the IDAT chunk.
  function Head(w: nat, h: nat, idatSize: nat): Bytes {
    SIGNATURE + Chunk(IHDR, IhdrData(w, h)) + Big32(idatSize) + IDAT + ZLIB
  }

  // What the IDAT checksum has seen when u has been stored.
  function Summed(u: Bytes, total: nat): Bytes
    requires |u| <= total
  {
    IDAT + ZLIB + Stored(u, total)
  }

  const END_CHUNK: Bytes := [0x00, 0x00, 0x00, 0x00, 0x49, 0x45, 0x4E, 0x44, 0xAE, 0x42, 0x60, 0x82]

  function Footer(u: Bytes, total: nat): Bytes
    requires |u| <= total
  {
    Big32(Adler32(u)) + BigBytes(Crc32(Summed(u, total) + Big32(Adler32(u)))) + END_CHUNK
  }

  // Output and checksums after the stream u: open says that the header of the next block is already written.
  ghost predicate EmittedAs(w: nat, h: nat, total: nat, u: Bytes, open: bool, output: Bytes, crc: bv32, adler: nat) {
    && |u| <= total
    && output == Head(w, h, IdatSize(total)) + Stored(u, total) + Pending(u, total, open)
    && crc == Crc32(Covered(u, total, open))
    && adler == Adler32(u)
  }

  ghost function Pending(u: Bytes, total: nat, open: bool): Bytes
    requires |u| <= total
  {
    if open then BlockHeader(total - |u|) else []
  }

  // What the IDAT checksum covers.
  ghost function Covered(u: Bytes, total: nat, open: bool): Bytes
    requires |u| <= total
  {
    Summed(u, total) + Pending(u, total, open)
  }

  lemma HeaderEmits(w: nat, h: nat, total: nat, u: Bytes, output: Bytes, crc: bv32, crc': bv32, adler: nat)
    requires EmittedAs(w, h, total, u, false, output, crc, adler)
    requires crc' == Crc32(Covered(u, total, false) + BlockHeader(total - |u|))
    ensures EmittedAs(w, h, total, u, true, output + BlockHeader(total - |u|), crc', adler)
  {
    hide Crc32, Stored, Head, Adler32, BlockHeader, IdatSize, Summed;
    var base := Head(w, h, IdatSize(total)) + Stored(u, total);
    assert base + [] == base && Covered(u, total, false) == Summed(u, total);
  }

  lemma RunEmits(w: nat, h: nat, total: nat, u: Bytes, open: bool, data: Bytes, output: Bytes, crc: bv32, crc': bv32,
      adler: nat)
    requires open == (|u| % BLOCK_MAX == 0) && EmittedAs(w, h, total, u, open, output, crc, adler)
    requires data != [] && |u| + |data| <= total && |u| % BLOCK_MAX + |data| <= BLOCK_MAX
    requires crc' == Crc32(Covered(u, total, open) + data)
    ensures EmittedAs(w, h, total, u + data, false, output + data, crc', Adler32(u + data))
  {
    hide Crc32, Stored, Head, Adler32, BlockHeader, IdatSize;
    StoredRun(u, total, data);
    var header := Pending(u, total, open);
    var base := Head(w, h, IdatSize(total));
    assert Stored(u + data, total) == Stored(u, total) + header + data;
    assert Summed(u, total) + header + data == Summed(u + data, total) + [];
    assert base + Stored(u, total) + header + data == base + Stored(u + data, total) + [];
  }

  // The IDAT length computed from a stream length.
  function IdatSize(total: nat): nat {
    total / BLOCK_MAX * 5 + (if total % BLOCK_MAX != 0 then 5 else 0) + 6 + total
  }

  // The counters agree with the streams: u is the filtered form of the pixel bytes px, and x, y is where it
  // stops. Column 1 means that the filter byte of a row is written and its first pixel byte is not; column
  // line that a row is complete and the next not begun.
  ghost predicate CountersAt(line: nat, h: nat, total: nat, x: nat, y: nat, remain: nat, filled: nat,
      u: Bytes, px: Bytes)
  {
    && line > 1 && total == h * line
    && x <= line && y <= h && (y == h ==> x == 0)
    && |u| == y * line + x <= total
    && |px| == y * (line - 1) + (if x == 0 then 0 else x - 1)
    && remain == total - |u|
    && filled == |u| % BLOCK_MAX
    && u == Filtered(px, line - 1) + (if x == 1 then [0] else [])
  }

  lemma RoomInRow(line: nat, h: nat, y: nat)
    requires y < h
    ensures y * line + line <= h * line
  {
    Arithmetic.RowOrder(line, y, h);
  }

  lemma FilterByteKeeps(line: nat, h: nat, total: nat, y: nat, remain: nat, filled: nat, u: Bytes, px: Bytes)
    requires CountersAt(line, h, total, 0, y, remain, filled, u, px) && y < h
    ensures |u| + 1 <= total && remain > 0
    ensures CountersAt(line, h, total, 1, y, remain - 1, (|u| + 1) % BLOCK_MAX, u + [0], px)
  {
    hide Filtered;
    RoomInRow(line, h, y);
    assert u == Filtered(px, line - 1);
  }

  lemma RunKeeps(line: nat, h: nat, total: nat, x: nat, y: nat, remain: nat, filled: nat, u: Bytes, px: Bytes,
      run: Bytes)
    requires CountersAt(line, h, total, x, y, remain, filled, u, px)
    requires x > 0 && run != [] && x + |run| <= line
    ensures |u| + |run| <= total && |run| <= remain
    ensures CountersAt(line, h, total, x + |run|, y, remain - |run|, (|u| + |run|) % BLOCK_MAX, u + run, px + run)
  {
    hide Filtered;
    RoomInRow(line, h, y);
    FilteredRun(px, line - 1, y, x - 1, run);
    assert Filtered(px, line - 1) + [] + run == Filtered(px, line - 1) + run;
    assert u + run == Filtered(px + run, line - 1) + [];
  }

  lemma RowEndKeeps(line: nat, h: nat, total: nat, y: nat, remain: nat, filled: nat, u: Bytes, px: Bytes)
    requires CountersAt(line, h, total, line, y, remain, filled, u, px)
    ensures y < h && CountersAt(line, h, total, 0, y + 1, remain, filled, u, px)
    ensures y + 1 == h ==> |u| == total
  {
    hide Filtered;
    assert (y + 1) * line == y * line + line;
    assert (y + 1) * (line - 1) == y * (line - 1) + (line - 1);
  }

  // The output of a finished image.
  ghost predicate FinishedAs(w: nat, h: nat, total: nat, u: Bytes, output: Bytes) {
    |u| <= total && output == Head(w, h, IdatSize(total)) + Stored(u, total) + Footer(u, total)
  }

  lemma FooterFinishes(w: nat, h: nat, total: nat, u: Bytes, output: Bytes, crc: bv32, crc': bv32, adler: nat)
    requires EmittedAs(w, h, total, u, false, output, crc, adler)
    requires |u| <= total && crc' == Crc32(Covered(u, total, false) + Big32(adler))
    ensures FinishedAs(w, h, total, u, output + (Big32(adler) + BigBytes(crc') + END_CHUNK))
  {
    hide Crc32, Stored, Head, Adler32, IdatSize, Summed, Big32, BigBytes;
    assert Covered(u, total, false) == Summed(u, total);
    var base := Head(w, h, IdatSize(total)) + Stored(u, total);
    assert base + [] == base;
    assert output == base;
  }

  // ---- the file as a function of the pixels ----

  function Room(w: nat, h: nat): nat {
    h * (3 * w)
  }

  lemma {:induction false} FilteredLength(px: Bytes, w: nat)
    requires w > 0
    ensures |Filtered(px, w)| == |px| + (|px| + w - 1) / w
  {
    if px == [] {
      Arithmetic.DivMod(w, 0, w - 1);
    } else {
      var k := |px| - 1;
      FilteredLength(px[..k], w);
      StartedRows(k, w);
    }
  }

  lemma StartedRows(k: nat, w: nat)
    requires w > 0
    ensures (k + 1 + w - 1) / w == (k + w - 1) / w + if k % w == 0 then 1 else 0
  {
    Arithmetic.DivRem(w, k);
    var q, r := k / w, k % w;
    assert (q + 1) * w == q * w + w;
    if r == 0 {
      Arithmetic.DivMod(w, q + 1, 0);
      if w > 1 { Arithmetic.DivMod(w, q, w - 1); } else { Arithmetic.DivMod(1, k, 0); }
    } else {
      Arithmetic.DivMod(w, q + 1, r);
      Arithmetic.DivMod(w, q + 1, r - 1);
    }
  }

  lemma FilteredFits(px: Bytes, w: nat, h: nat)
    requires w > 0 && |px| <= Room(w, h)
    ensures |Filtered(px, 3 * w)| <= h * (3 * w + 1)
    ensures |px| == Room(w, h) ==> |Filtered(px, 3 * w)| == h * (3 * w + 1)
  {
    FilteredLength(px, 3 * w);
    var n := |px| + 3 * w - 1;
    assert h * (3 * w + 1) == Room(w, h) + h;
    assert (h + 1) * (3 * w) == Room(w, h) + 3 * w;
    Arithmetic.QuotientBound(3 * w, n, h + 1);
    if |px| == Room(w, h) { Arithmetic.DivMod(3 * w, h, 3 * w - 1); }
  }

  // What has been written when px has been consumed: the footer follows the last pixel.
  function FileSoFar(w: nat, h: nat, px: Bytes): Bytes
    requires w > 0 && |px| <= Room(w, h)
  {
    FilteredFits(px, w, h);
    var u, total := Filtered(px, 3 * w), h * (3 * w + 1);
    Head(w, h, IdatSize(total)) + Stored(u, total) + (if |px| == Room(w, h) then Footer(u, total) else [])
  }

  // A longer stream goes on where a shorter one stops, with a block header where one is due.
  lemma {:induction false} StoredPrefix(u: Bytes, v: Bytes, total: nat)
    requires u <= v && |v| <= total
    ensures Stored(u, total) <= Stored(v, total)
    ensures u < v && |u| % BLOCK_MAX == 0 ==> Stored(u, total) + BlockHeader(total - |u|) <= Stored(v, total)
    decreases |v|
  {
    hide Stored, BlockHeader;
    if |u| < |v| {
      var n := |v| - 1;
      var front := v[..n];
      StoredPrefix(u, front, total);
      StoredStep(front, total, v[n]);
      assert front + [v[n]] == v;
      if |u| == n { assert u == front; }
    } else {
      assert u == v;
    }
  }

  // The filtered pixels go on too, with a filter byte where one is due.
  lemma {:induction false} FilteredPrefix(px: Bytes, more: Bytes, w: nat)
    requires w > 0 && px <= more
    ensures Filtered(px, w) <= Filtered(more, w)
    ensures px < more ==> Filtered(px, w) + (if |px| % w == 0 then [0] else []) < Filtered(more, w)
    decreases |more|
  {
    hide Filtered;
    if |px| < |more| {
      var n := |more| - 1;
      var front := more[..n];
      FilteredPrefix(px, front, w);
      FilteredStep(front, w, more[n]);
      assert front + [more[n]] == more;
      if |px| == n { assert px == front; }
    } else {
      assert px == more;
    }
  }

  lemma RowStart(line: nat, h: nat, total: nat, y: nat, remain: nat, filled: nat, u: Bytes, px: Bytes)
    requires CountersAt(line, h, total, 1, y, remain, filled, u, px)
    ensures |px| % (line - 1) == 0
  {
    hide Filtered;
    Arithmetic.DivMod(line - 1, y, 0);
  }

  // What is written in a state on the way to the pixels whole is the beginning of their file, and so is what a block
  // header adds to it while pixels are missing.
  lemma OnTheWay(w: nat, h: nat, total: nat, line: nat, x: nat, y: nat, remain: nat, filled: nat, u: Bytes, px: Bytes,
      whole: Bytes)
    requires CountersAt(line, h, total, x, y, remain, filled, u, px) && line == 3 * w + 1
    requires px <= whole && |whole| <= Room(w, h) && (x == 1 ==> px < whole)
    ensures w > 0 && |u| <= total && Head(w, h, IdatSize(total)) + Stored(u, total) <= FileSoFar(w, h, whole)
    ensures px < whole && |u| % BLOCK_MAX == 0 ==>
      Head(w, h, IdatSize(total)) + Stored(u, total) + BlockHeader(total - |u|) <= FileSoFar(w, h, whole)
  {
    hide CountersAt, Filtered, Stored, Head, Footer, BlockHeader, IdatSize, Room, FileSoFar;
    CountersStream(line, h, total, x, y, remain, filled, u, px);
    if x == 1 { RowStart(line, h, total, y, remain, filled, u, px); }
    FilteredFits(whole, w, h);
    FilteredPrefix(px, whole, 3 * w);
    var v := Filtered(whole, 3 * w);
    StoredPrefix(u, v, total);
    FilePrefix(w, h, total, Stored(v, total), whole);
    var head, file := Head(w, h, IdatSize(total)), FileSoFar(w, h, whole);
    PrefixBehind(head, Stored(u, total), Stored(v, total), file);
    if px < whole && |u| % BLOCK_MAX == 0 {
      HeaderBehind(head, Stored(u, total), BlockHeader(total - |u|), Stored(v, total), file);
    }
  }

  lemma PrefixBehind(head: Bytes, a: Bytes, b: Bytes, file: Bytes)
    requires a <= b && head + b <= file
    ensures head + a <= file
  {}

  lemma HeaderBehind(head: Bytes, a: Bytes, header: Bytes, b: Bytes, file: Bytes)
    requires a + header <= b && head + b <= file
    ensures head + a + header <= file
  {
    assert head + (a + header) == head + a + header;
  }

  lemma CountersStream(line: nat, h: nat, total: nat, x: nat, y: nat, remain: nat, filled: nat, u: Bytes, px: Bytes)
    requires CountersAt(line, h, total, x, y, remain, filled, u, px)
    ensures line > 1 && total == h * line && |u| <= total
    ensures u == Filtered(px, line - 1) + (if x == 1 then [0] else [])
  {
    hide Filtered;
  }

  lemma FilePrefix(w: nat, h: nat, total: nat, stored: Bytes, whole: Bytes)
    requires w > 0 && total == h * (3 * w + 1) && |whole| <= Room(w, h)
    requires |Filtered(whole, 3 * w)| <= total && stored == Stored(Filtered(whole, 3 * w), total)
    ensures Head(w, h, IdatSize(total)) + stored <= FileSoFar(w, h, whole)
  {
    hide Filtered, Stored, Head, Footer, IdatSize, Room;
  }

  // A writer between two pixels of its image, or finished.
  ghost predicate RunningAs(w: nat, h: nat, total: nat, line: nat, x: nat, y: nat, remain: nat, filled: nat,
      u: Bytes, px: Bytes, output: Bytes, crc: bv32, adler: nat)
  {
    && line == 3 * w + 1 && x < line && CountersAt(line, h, total, x, y, remain, filled, u, px)
    && if y == h then FinishedAs(w, h, total, u, output) else EmittedAs(w, h, total, u, false, output, crc, adler)
  }

  lemma RunningPixels(w: nat, h: nat, total: nat, line: nat, x: nat, y: nat, remain: nat, filled: nat,
      u: Bytes, px: Bytes, output: Bytes, crc: bv32, adler: nat)
    requires RunningAs(w, h, total, line, x, y, remain, filled, u, px, output, crc, adler)
    ensures w > 0 && |px| <= Room(w, h) && y <= h
    ensures y == h <==> |px| == Room(w, h)
    ensures y == h ==> x == 0
  {
    hide EmittedAs, FinishedAs, Filtered;
    if y < h { Arithmetic.RowOrder(3 * w, y, h); }
  }

  lemma RunningFile(w: nat, h: nat, total: nat, line: nat, x: nat, y: nat, remain: nat, filled: nat,
      u: Bytes, px: Bytes, output: Bytes, crc: bv32, adler: nat)
    requires RunningAs(w, h, total, line, x, y, remain, filled, u, px, output, crc, adler) && x != 1
    requires w > 0 && |px| <= Room(w, h)
    ensures output == FileSoFar(w, h, px)
  {
    hide Filtered, Head, Stored, Footer, IdatSize, Room;
    RunningPixels(w, h, total, line, x, y, remain, filled, u, px, output, crc, adler);
    assert u == Filtered(px, 3 * w);
    FilteredFits(px, w, h);
    assert Head(w, h, IdatSize(total)) + Stored(u, total) + [] == Head(w, h, IdatSize(total)) + Stored(u, total);
  }

  // ---- sizes ----

  // A product of two 32-bit unsigned numbers in C.
  function Product32(a: nat, b: nat): nat {
    a * b % (UINT32_MAX + 1)
  }

  // The stream length that Init computes and declares.
  function Declared(w: nat, h: nat): nat {
    Product32(3 * w + 1, h)
  }

  function InitStatus(w: nat, h: nat, hasOutput: bool, limit: nat): Status {
    if w == 0 || h == 0 || !hasOutput then InvalidArgument
    else if 3 * w + 1 > UINT32_MAX || IdatSize(Declared(w, h)) > INT32_MAX then ImageTooLarge
    else if |Head(w, h, IdatSize(Declared(w, h)))| > limit then IoError
    else Ok
  }

  // The declared IDAT length is the length needed for h rows exactly when the product does not wrap.
  lemma DeclaredSizeRight(w: nat, h: nat)
    ensures IdatSize(Declared(w, h)) == IdatSize(h * (3 * w + 1)) <==> h * (3 * w + 1) <= UINT32_MAX
  {
    hide IdatSize;
    var total := h * (3 * w + 1);
    assert total == (3 * w + 1) * h;
    if total > UINT32_MAX { SizeGrows(Declared(w, h), total); }
  }

  lemma SizeGrows(a: nat, b: nat)
    requires a < b
    ensures IdatSize(a) < IdatSize(b)
  {}

  // An image that Init accepts although its product wraps.
  lemma WrappedImageAccepted()
    ensures InitStatus(65536, 21846, true, UINT32_MAX) == Ok && 21846 * (3 * 65536 + 1) > UINT32_MAX
    ensures IdatSize(Declared(65536, 21846)) < IdatSize(21846 * (3 * 65536 + 1))
  {
    hide Head;
    assert Declared(65536, 21846) == 152918;
    HeadLength(65536, 21846, IdatSize(Declared(65536, 21846)));
  }

  lemma HeadLength(w: nat, h: nat, idatSize: nat)
    ensures |Head(w, h, idatSize)| == 43
  {
    hide Crc32, Big32, BigBytes;
    assert |BigBytes(Crc32(IHDR + IhdrData(w, h)))| == 4;
  }

  lemma FreshCounters(line: nat, h: nat, total: nat)
    requires line > 1 && h > 0 && total == h * line
    ensures CountersAt(line, h, total, 0, 0, total, 0, [], [])
  {}

  lemma FreshEmits(w: nat, h: nat, total: nat)
    ensures EmittedAs(w, h, total, [], false, Head(w, h, IdatSize(total)), Crc32(IDAT + ZLIB), 1)
  {
    hide Head, IdatSize, Crc32;
    var head := Head(w, h, IdatSize(total));
    assert head + Stored([], total) + [] == head;
    assert IDAT + ZLIB + Stored([], total) + [] == IDAT + ZLIB;
  }

  lemma DeclaredIs(w: nat, h: nat)
    ensures Product32(3 * w + 1, h) == Declared(w, h)
  {}

  lemma NoWrap(w: nat, h: nat)
    requires h * (3 * w + 1) <= UINT32_MAX
    ensures Declared(w, h) == h * (3 * w + 1)
  {
    assert h * (3 * w + 1) == (3 * w + 1) * h;
  }

  // Five bytes for every block, two for the zlib header and four for the Adler-32.
  method ComputeIdatSize(uncompRemain: nat) returns (idatSize: nat)
    ensures idatSize == IdatSize(uncompRemain)
  {
    var numBlocks := uncompRemain / BLOCK_MAX;
    if uncompRemain % BLOCK_MAX != 0 {
      numBlocks := numBlocks + 1;
    }
    idatSize := numBlocks * 5 + 6;
    idatSize := idatSize + uncompRemain;
  }

  lemma CrcOfNothing()
    ensures Crc32([]) == 0
  {}

  const SIZE_MAX: nat := 0xFFFF_FFFF_FFFF_FFFF

  // ---- the writer ----

  class Writer {
    var width: nat
    var height: nat
    var lineSize: nat
    var positionX: nat
    var positionY: nat
    var uncompRemain: nat
    var deflateFilled: nat
    var crc: bv32
    var adler: nat
    var output: Bytes
    var limit: nat            // how many bytes the output takes
    ghost var stream: Bytes   // the uncompressed bytes written so far
    ghost var pixels: Bytes   // the pixel bytes consumed so far

    ghost predicate Counters(total: nat)
      reads `height, `lineSize, `positionX, `positionY, `uncompRemain, `deflateFilled, `stream, `pixels
    {
      CountersAt(lineSize, height, total, positionX, positionY, uncompRemain, deflateFilled, stream, pixels)
    }

    // Output and checksums for the stream written so far.
    ghost predicate Emitted(total: nat, open: bool)
      reads `width, `height, `stream, `output, `crc, `adler
    {
      EmittedAs(width, height, total, stream, open, output, crc, adler)
    }

    // The state at the head of the loop of Write.
    ghost predicate Running(total: nat)
      reads this
    {
      RunningAs(width, height, total, lineSize, positionX, positionY, uncompRemain, deflateFilled, stream, pixels,
          output,
        crc, adler)
    }

    // The state between calls: the output is determined by the shape and the pixels so far.
    ghost predicate Valid()
      reads this
      ensures Valid() ==> width > 0 && |pixels| <= Room(width, height) && output == FileSoFar(width, height, pixels)
      ensures Valid() ==> |output| <= limit
    {
      hide RunningAs, FileSoFar, Room;
      if Running(height * lineSize) && positionX != 1 && |output| <= limit then
        RunningPixels(width, height, height * lineSize, lineSize, positionX, positionY, uncompRemain, deflateFilled,
            stream,
          pixels, output, crc, adler);
        RunningFile(width, height, height * lineSize, lineSize, positionX, positionY, uncompRemain, deflateFilled,
            stream,
          pixels, output, crc, adler);
        true
      else false
    }

    // fwrite: an output that is full takes what it still can.
    method Put(data: Bytes) returns (ok: bool)
      requires |output| <= limit
      modifies this`output
      ensures ok ==> output == old(output) + data && |output| <= limit
      ensures !ok ==> CutShort(output, limit, old(output) + data)
    {
      ok := |output| + |data| <= limit;
      output := if ok then output + data else (output + data)[..limit];
    }

    // Appends data to the IDAT checksum; summed is what it covers so far.
    method UpdateCrc(data: Bytes, ghost summed: Bytes)
      requires crc == Crc32(summed)
      modifies this`crc
      ensures crc == Crc32(summed + data)
    {
      hide CrcBits, Complement, CrcBit;
      ghost var start := CrcFold(Complement(0), summed);
      ComplementTwice(start);
      crc := Complement(crc);
      var i := 0;
      while i < |data|
        invariant 0 <= i <= |data|
        invariant crc == CrcFold(start, data[..i])
      {
        ghost var before := crc;
        NoCrcBits(crc, data[i]);
        var j := 0;
        while j < 8
          invariant 0 <= j <= 8
          invariant crc == CrcBits(before, data[i], j)
        {
          CrcBitsStep(before, data[i], j);
          crc := CrcBit(crc, Bit(data[i], j));
          j := j + 1;
        }
        assert data[..i + 1][..i] == data[..i];
        i := i + 1;
      }
      assert data[..|data|] == data;
      CrcFoldAppend(Complement(0), summed, data);
      crc := Complement(crc);
    }

    method UpdateAdler(data: Bytes, ghost summed: Bytes)
      requires adler == Adler32(summed)
      modifies this`adler
      ensures adler == Adler32(summed + data)
    {
      hide ByteValue, Adler32, SumA, SumB;
      AdlerParts(summed);
      var s1 := adler % 65536;
      var s2 := adler / 65536;
      assert summed + data[..0] == summed;
      var i := 0;
      while i < |data|
        invariant 0 <= i <= |data|
        invariant s1 == SumA(summed + data[..i]) % BASE && s2 == SumB(summed + data[..i]) % BASE
      {
        SumStep(summed, data, i);
        s1 := (s1 + ByteValue(data[i])) % BASE;
        s2 := (s2 + s1) % BASE;
        i := i + 1;
      }
      assert data[..|data|] == data;
      AdlerParts(summed + data);
      adler := s2 * 65536 + s1;
    }

    // Writes the header of the next stored block.
    method StartBlock(ghost total: nat) returns (ok: bool)
      requires Emitted(total, false) && |output| <= limit
      requires |stream| <= total && uncompRemain == total - |stream|
      modifies this`output, this`crc
      ensures ok ==> Emitted(total, true) && |output| <= limit
      ensures !ok ==> CutShort(output, limit, old(output) + BlockHeader(uncompRemain))
    {
      hide EmittedAs, Covered, Crc32, Adler32, BlockHeader;
      EmittedSums(width, height, total, stream, false, output, crc, adler);
      ghost var c := crc;
      ghost var before := output;
      var header := MakeBlockHeader(uncompRemain);
      ok := Put(header);
      if ok {
        UpdateCrc(header, Covered(stream, total, false));
        HeaderEmits(width, height, total, stream, before, c, crc, adler);
      }
    }

    // Writes bytes inside one block and updates both checksums.
    method Emit(data: Bytes, ghost total: nat, ghost open: bool) returns (ok: bool)
      requires Emitted(total, open) && open == (|stream| % BLOCK_MAX == 0) && |output| <= limit
      requires data != [] && |stream| + |data| <= total && |stream| % BLOCK_MAX + |data| <= BLOCK_MAX
      modifies this`output, this`crc, this`adler, this`stream
      ensures ok ==> stream == old(stream) + data && Emitted(total, false) && |output| <= limit
      ensures !ok ==> CutShort(output, limit, old(output) + data)
    {
      hide EmittedAs, Covered, Crc32, Adler32;
      EmittedSums(width, height, total, stream, open, output, crc, adler);
      ghost var c, a, before := crc, adler, output;
      ok := Put(data);
      if ok {
        UpdateCrc(data, Covered(stream, total, open));
        UpdateAdler(data, stream);
        RunEmits(width, height, total, stream, open, data, before, c, crc, a);
        stream := stream + data;
      }
    }

    // The run's effect on the counters: the block may be full.
    method Advance(n: nat, ghost t: nat)
      requires n <= uncompRemain && deflateFilled == t % BLOCK_MAX && deflateFilled + n <= BLOCK_MAX
      modifies this`uncompRemain, this`deflateFilled
      ensures uncompRemain == old(uncompRemain) - n && deflateFilled == (t + n) % BLOCK_MAX
    {
      RunRemainder(t, n);
      uncompRemain := uncompRemain - n;
      deflateFilled := deflateFilled + n;
      if deflateFilled >= BLOCK_MAX {
        deflateFilled := 0;
      }
    }

    method WriteFilterByte(ghost total: nat) returns (ok: bool)
      requires Counters(total) && positionX == 0 && positionY < height && Emitted(total, deflateFilled == 0)
      requires |output| <= limit
      modifies this`output, this`crc, this`adler, this`stream, this`positionX, this`uncompRemain, this`deflateFilled
      ensures ok ==> Counters(total) && positionX == 1 && Emitted(total, false) && |output| <= limit
      ensures !ok ==> CutShort(output, limit, old(output) + [0])
    {
      hide EmittedAs, CountersAt;
      CountersBasics(lineSize, height, total, positionX, positionY, uncompRemain, deflateFilled, stream, pixels);
      FilterByteKeeps(lineSize, height, total, positionY, uncompRemain, deflateFilled, stream, pixels);
      ghost var t := |stream|;
      ok := Emit([0], total, deflateFilled == 0);
      if ok {
        positionX := positionX + 1;
        Advance(1, t);
      }
    }

    // Writes as many bytes as the block, the row and data allow.
    method WritePixels(data: Bytes, ghost total: nat) returns (ok: bool, n: nat)
      requires Counters(total) && 0 < positionX < lineSize && Emitted(total, deflateFilled == 0) && data != []
      requires |output| <= limit
      modifies this`output, this`crc, this`adler, this`stream, this`pixels, this`positionX, this`uncompRemain,
        this`deflateFilled
      ensures 0 < n <= |data| && old(positionX) + n <= lineSize && old(deflateFilled) + n <= BLOCK_MAX
      ensures ok ==> pixels == old(pixels) + data[..n] && positionX == old(positionX) + n
      ensures ok ==> Counters(total) && Emitted(total, false) && |output| <= limit
      ensures !ok ==> CutShort(output, limit, old(output) + data[..n])
    {
      hide EmittedAs, CountersAt;
      CountersBasics(lineSize, height, total, positionX, positionY, uncompRemain, deflateFilled, stream, pixels);
      n := BLOCK_MAX - deflateFilled;
      if lineSize - positionX < n {
        n := lineSize - positionX;
      }
      if |data| < n {
        n := |data|;
      }
      ghost var t := |stream|;
      RunKeeps(lineSize, height, total, positionX, positionY, uncompRemain, deflateFilled, stream, pixels, data[..n]);
      ok := Emit(data[..n], total, deflateFilled == 0);
      if ok {
        positionX := positionX + n;
        Advance(n, t);
        pixels := pixels + data[..n];
      }
    }

    method WriteFooter(ghost total: nat) returns (ok: bool)
      requires Emitted(total, false) && |stream| <= total && |output| <= limit
      modifies this`output, this`crc
      ensures ok ==> FinishedAs(width, height, total, stream, output) && |output| <= limit
      ensures !ok ==> exists whole ::
        FinishedAs(width, height, total, stream, whole) && CutShort(output, limit, whole)
    {
      hide EmittedAs, FinishedAs, Covered, Crc32, Adler32, BigBytes, Big32;
      EmittedSums(width, height, total, stream, false, output, crc, adler);
      ghost var c := crc;
      UpdateCrc(Big32(adler), Covered(stream, total, false));
      FooterFinishes(width, height, total, stream, output, c, crc, adler);
      ok := Put(Big32(adler) + BigBytes(crc) + END_CHUNK);
    }

    // Moves to the next row, or finishes the file.
    method EndRow(ghost total: nat) returns (ok: bool)
      requires lineSize == 3 * width + 1 && Counters(total) && positionX == lineSize && Emitted(total, false)
      requires |output| <= limit
      modifies this`output, this`crc, this`positionX, this`positionY
      ensures ok ==> Running(total) && positionX == 0 && |output| <= limit
      ensures !ok ==> exists whole ::
        && FinishedAs(width, height, total, stream, whole) && CutShort(output, limit, whole)
        && CountersAt(lineSize, height, total, 0, height, uncompRemain, deflateFilled, stream, pixels)
    {
      hide EmittedAs, CountersAt, FinishedAs;
      CountersBasics(lineSize, height, total, positionX, positionY, uncompRemain, deflateFilled, stream, pixels);
      RowEndKeeps(lineSize, height, total, positionY, uncompRemain, deflateFilled, stream, pixels);
      positionX := 0;
      positionY := positionY + 1;
      ok := true;
      if positionY == height {
        ok := WriteFooter(total);
      }
    }

    // Starts a block when one is due.
    method StepBlock(ghost total: nat, ghost whole: Bytes) returns (ok: bool)
      requires Running(total) && positionY < height && |output| <= limit
      requires pixels < whole && |whole| <= Room(width, height)
      modifies this`output, this`crc
      ensures ok ==> Emitted(total, deflateFilled == 0) && |output| <= limit
      ensures !ok ==> CutShort(output, limit, FileSoFar(width, height, whole))
    {
      hide EmittedAs, CountersAt, FinishedAs, FileSoFar, Room, CutShort;
      CountersBasics(lineSize, height, total, positionX, positionY, uncompRemain, deflateFilled, stream, pixels);
      ok := true;
      if deflateFilled == 0 {
        ghost var before := output;
        HeaderOnTheWay(width, height, total, lineSize, positionX, positionY, uncompRemain, deflateFilled, stream,
          pixels, whole, output, crc, adler);
        ok := StartBlock(total);
        if !ok { CutEarlier(output, limit, before + BlockHeader(uncompRemain), FileSoFar(width, height, whole)); }
      }
    }

    // The filter byte of a row, or pixel bytes.
    method StepBytes(data: Bytes, ghost total: nat, ghost whole: Bytes) returns (ok: bool, n: nat)
      requires Counters(total) && positionX < lineSize == 3 * width + 1 && positionY < height && data != []
      requires Emitted(total, deflateFilled == 0) && |output| <= limit
      requires pixels < whole && |whole| <= Room(width, height) && Toward(pixels, data, width, height, whole)
      modifies this`output, this`crc, this`adler, this`stream, this`pixels, this`positionX, this`uncompRemain,
        this`deflateFilled
      ensures ok ==> Counters(total) && Emitted(total, false) && |output| <= limit
      ensures ok ==> n <= |data| && pixels == old(pixels) + data[..n] <= whole
      ensures ok ==> if n == 0 then old(positionX) == 0 && positionX == 1 else 1 < positionX <= lineSize
      ensures !ok ==> CutShort(output, limit, FileSoFar(width, height, whole))
    {
      hide EmittedAs, CountersAt, FileSoFar, Room, Toward, CutShort;
      CountersBasics(lineSize, height, total, positionX, positionY, uncompRemain, deflateFilled, stream, pixels);
      ghost var before := output;
      n := 0;
      if positionX == 0 {
        FilterOnTheWay(width, height, total, lineSize, positionY, uncompRemain, deflateFilled, stream, pixels, whole,
          output, crc, adler);
        ok := WriteFilterByte(total);
        if !ok { CutEarlier(output, limit, before + [0], FileSoFar(width, height, whole)); }
      } else {
        ghost var x, y, remain, filled := positionX, positionY, uncompRemain, deflateFilled;
        ghost var u, px, c, a := stream, pixels, crc, adler;
        ok, n := WritePixels(data, total);
        PixelsOnTheWay(width, height, total, lineSize, x, y, remain, filled, u, px, whole, before, c, a, data, n);
        if !ok { CutEarlier(output, limit, before + data[..n], FileSoFar(width, height, whole)); }
      }
    }

    // One pass of the loop over the remaining data, on the way to the pixels whole.
    method Step(data: Bytes, ghost total: nat, ghost whole: Bytes) returns (ok: bool, n: nat)
      requires Running(total) && positionY < height && data != [] && |output| <= limit
      requires pixels < whole && |whole| <= Room(width, height) && Toward(pixels, data, width, height, whole)
      modifies this
      ensures unchanged(`width, `height, `lineSize, `limit)
      ensures ok ==> Running(total) && |output| <= limit && n <= |data| && pixels == old(pixels) + data[..n]
      ensures ok ==> if n == 0 then old(positionX) == 0 && positionX == 1 else positionX != 1
      ensures !ok ==> CutShort(output, limit, FileSoFar(width, height, whole))
    {
      hide EmittedAs, CountersAt, FinishedAs, FileSoFar, Room, Toward, CutShort;
      CountersBasics(lineSize, height, total, positionX, positionY, uncompRemain, deflateFilled, stream, pixels);
      n := 0;
      ok := StepBlock(total, whole);
      if !ok {
        return;
      }
      ok, n := StepBytes(data, total, whole);
      if !ok {
        return;
      }
      if positionX == lineSize {
        ok := EndRow(total);
        if !ok {
          ghost var file :| FinishedAs(width, height, total, stream, file) && CutShort(output, limit, file);
          FinishedWhole(width, height, total, lineSize, uncompRemain, deflateFilled, stream, pixels, whole, file);
        }
      }
    }

    // Signature, IHDR and the start of IDAT; both checksums start over.
    method WriteHeader(idatSize: nat) returns (ok: bool)
      modifies this`output, this`crc
      ensures ok <==> |Head(width, height, idatSize)| <= limit
      ensures output == Fitting(Head(width, height, idatSize), limit)
      ensures ok ==> crc == Crc32(IDAT + ZLIB)
    {
      hide Crc32, Big32, BigBytes;
      var start := IHDR + IhdrData(width, height);
      crc := 0;
      CrcOfNothing();
      UpdateCrc(start, []);
      assert [] + start == start;
      var header := SIGNATURE + (Big32(13) + IHDR + IhdrData(width, height) + BigBytes(crc))
        + Big32(idatSize) + IDAT + ZLIB;
      output := [];
      ok := Put(header);
      assert [] + header == header;
      if !ok {
        return;
      }
      crc := 0;
      UpdateCrc(IDAT + ZLIB, []);
      assert [] + (IDAT + ZLIB) == IDAT + ZLIB;
    }

    // The rest of a successful Init.
    method Start(idatSize: nat) returns (ok: bool)
      requires lineSize == 3 * width + 1 && width > 0 && height > 0 && idatSize == IdatSize(uncompRemain)
      modifies this
      ensures unchanged(`width, `height, `limit) && (ok <==> |Head(width, height, idatSize)| <= limit)
      ensures output == Fitting(Head(width, height, idatSize), limit)
      ensures ok && old(uncompRemain) == height * (3 * width + 1) ==> Valid() && pixels == []
    {
      hide IdatSize, Head, EmittedAs, CountersAt, Crc32;
      ok := WriteHeader(idatSize);
      if !ok {
        return;
      }
      stream, pixels := [], [];
      positionX, positionY, deflateFilled := 0, 0, 0;
      adler := 1;
      FreshEmits(width, height, uncompRemain);
      if uncompRemain == height * (3 * width + 1) {
        FreshCounters(lineSize, height, uncompRemain);
      }
    }

    // Checks the size and writes everything up to the first block. The product of line size and height is taken
    // in 32 bits. Only when it does not wrap is the writer left in a state fit for its pixels.
    method Init(w: nat, h: nat, hasOutput: bool, room: nat) returns (status: Status)
      requires w <= UINT32_MAX && h <= UINT32_MAX
      modifies this
      ensures status == InitStatus(w, h, hasOutput, room)
      ensures status == Ok ==> width == w && height == h && limit == room
      ensures status == Ok || status == IoError ==> output == Fitting(Head(w, h, IdatSize(Declared(w, h))), room)
      ensures status == Ok && h * (3 * w + 1) <= UINT32_MAX ==> Valid() && pixels == []
    {
      hide IdatSize, Head, Valid, Declared, Product32;
      if w == 0 || h == 0 || !hasOutput {
        return InvalidArgument;
      }
      width, height, limit := w, h, room;
      var lineSz := width * 3 + 1;
      if lineSz > UINT32_MAX {
        return ImageTooLarge;
      }
      lineSize := lineSz;
      uncompRemain := Product32(lineSize, height);
      DeclaredIs(w, h);
      var idatSize := ComputeIdatSize(uncompRemain);
      if idatSize > INT32_MAX {
        return ImageTooLarge;
      }
      if h * (3 * w + 1) <= UINT32_MAX {
        NoWrap(w, h);
      }
      var ok := Start(idatSize);
      return if ok then Ok else IoError;
    }

    // Consumes count pixels of three bytes, or as many as the image has room for. It fails exactly when the output is
    // too small for the file so far, and then the output holds as much of that file as it can.
    method Write(data: Option<Bytes>, count: nat) returns (status: Status)
      requires Valid() && (data.Some? && count <= SIZE_MAX / 3 ==> |data.value| == 3 * count)
      modifies this
      ensures unchanged(`width, `height, `limit) && (status != IoError ==> Valid())
      ensures count > SIZE_MAX / 3 || (data.None? && count > 0) ==> status == InvalidArgument && pixels == old(pixels)
      ensures count == 0 ==> status == Ok && pixels == old(pixels)
      ensures count <= SIZE_MAX / 3 && data.Some? ==>
        var room := Room(width, height) - |old(pixels)|;
        var whole := old(pixels) + (if 3 * count <= room then data.value else data.value[..room]);
        && status == (if |FileSoFar(width, height, whole)| > limit then IoError
                      else if 3 * count <= room then Ok else InvalidArgument)
        && output == Fitting(FileSoFar(width, height, whole), limit)
        && (status != IoError ==> pixels == whole)
    {
      hide RunningAs, FileSoFar, Room;
      if count > SIZE_MAX / 3 {
        return InvalidArgument;
      }
      if count > 0 && data.None? {
        return InvalidArgument;
      }
      if count == 0 {
        assert data.Some? ==> old(pixels) + data.value == pixels;
        return Ok;
      }
      ghost var total := height * lineSize;
      ghost var room := Room(width, height) - |pixels|;
      ghost var whole := pixels + if 3 * count <= room then data.value else data.value[..room];
      var i := 0;
      while i < 3 * count
        invariant 0 <= i <= 3 * count && unchanged(`width, `height, `lineSize, `limit) && |output| <= limit
        invariant Running(total) && pixels == old(pixels) + data.value[..i]
        invariant positionX == 1 ==> i < 3 * count
        decreases 3 * count - i, if positionX == 1 then 0 else 1
      {
        RunningBounds(total);
        if positionY >= height {
          assert pixels == whole;
          return InvalidArgument;
        }
        assert data.value[i..] == data.value[i..3 * count];
        WholeIsNext(old(pixels), data.value, i, room, whole, width, height);
        var ok, n := Step(data.value[i..], total, whole);
        if !ok {
          return IoError;
        }
        assert data.value[..i + n] == data.value[..i] + data.value[i..][..n];
        i := i + n;
      }
      RunningBounds(total);
      assert pixels == whole;
      return Ok;
    }

    lemma RunningBounds(total: nat)
      requires Running(total)
      ensures width > 0 && |pixels| <= Room(width, height) && positionY <= height
      ensures positionY == height <==> |pixels| == Room(width, height)
      ensures positionY == height ==> positionX == 0
    {
      hide RunningAs, Room;
      RunningPixels(width, height, total, lineSize, positionX, positionY, uncompRemain, deflateFilled, stream, pixels,
        output, crc, adler);
    }
  }

  // whole is the pixels with as much of data as the image has room for.
  predicate Toward(px: Bytes, data: Bytes, w: nat, h: nat, whole: Bytes) {
    && |px| <= Room(w, h)
    && var room := Room(w, h) - |px|; whole == px + if |data| <= room then data else data[..room]
  }

  lemma WholeIsNext(px: Bytes, data: Bytes, i: nat, room: int, whole: Bytes, w: nat, h: nat)
    requires i < |data| && 0 <= room == Room(w, h) - |px| && |px| + i < Room(w, h)
    requires whole == px + if |data| <= room then data else data[..room]
    ensures px + data[..i] < whole && |whole| <= Room(w, h) && Toward(px + data[..i], data[i..], w, h, whole)
  {
    hide Room;
    if |data| <= room {
      assert data == data[..i] + data[i..];
      assert whole == px + data[..i] + data[i..];
    } else {
      assert data[..room] == data[..i] + data[i..][..room - i];
      assert whole == px + data[..i] + data[i..][..room - i];
    }
  }

  lemma HeaderOnTheWay(w: nat, h: nat, total: nat, line: nat, x: nat, y: nat, remain: nat, filled: nat, u: Bytes,
      px: Bytes, whole: Bytes, output: Bytes, crc: bv32, adler: nat)
    requires CountersAt(line, h, total, x, y, remain, filled, u, px) && line == 3 * w + 1 && filled == 0
    requires px < whole && |whole| <= Room(w, h) && EmittedAs(w, h, total, u, false, output, crc, adler)
    ensures w > 0 && output + BlockHeader(remain) <= FileSoFar(w, h, whole)
  {
    hide CountersAt, FileSoFar, Room, Stored, Head, Crc32, Adler32, BlockHeader, IdatSize, Covered;
    CountersBasics(line, h, total, x, y, remain, filled, u, px);
    OnTheWay(w, h, total, line, x, y, remain, filled, u, px, whole);
    var base := Head(w, h, IdatSize(total)) + Stored(u, total);
    assert base + [] == base;
  }

  lemma FilterOnTheWay(w: nat, h: nat, total: nat, line: nat, y: nat, remain: nat, filled: nat, u: Bytes, px: Bytes,
      whole: Bytes, output: Bytes, crc: bv32, adler: nat)
    requires CountersAt(line, h, total, 0, y, remain, filled, u, px) && line == 3 * w + 1 && y < h
    requires px < whole && |whole| <= Room(w, h) && EmittedAs(w, h, total, u, filled == 0, output, crc, adler)
    ensures w > 0 && output + [0] <= FileSoFar(w, h, whole)
  {
    hide CountersAt, FileSoFar, Room, Stored, Head, Crc32, Adler32, BlockHeader, IdatSize, Covered;
    CountersBasics(line, h, total, 0, y, remain, filled, u, px);
    FilterByteKeeps(line, h, total, y, remain, filled, u, px);
    OnTheWay(w, h, total, line, 1, y, remain - 1, (|u| + 1) % BLOCK_MAX, u + [0], px, whole);
    StoredRun(u, total, [0]);
    StoredAfter(Head(w, h, IdatSize(total)), Stored(u, total), Pending(u, total, filled == 0), [0]);
  }

  lemma PixelsOnTheWay(w: nat, h: nat, total: nat, line: nat, x: nat, y: nat, remain: nat, filled: nat, u: Bytes,
      px: Bytes, whole: Bytes, output: Bytes, crc: bv32, adler: nat, data: Bytes, n: nat)
    requires CountersAt(line, h, total, x, y, remain, filled, u, px) && line == 3 * w + 1 && x > 0
    requires 0 < n <= |data| && x + n <= line && filled + n <= BLOCK_MAX
    requires |whole| <= Room(w, h) && Toward(px, data, w, h, whole)
    requires EmittedAs(w, h, total, u, filled == 0, output, crc, adler)
    ensures px + data[..n] <= whole
    ensures w > 0 && output + data[..n] <= FileSoFar(w, h, whole)
  {
    hide CountersAt, FileSoFar, Stored, Head, Crc32, Adler32, BlockHeader, IdatSize, Covered;
    var run := data[..n];
    CountersBasics(line, h, total, x, y, remain, filled, u, px);
    RunKeeps(line, h, total, x, y, remain, filled, u, px, run);
    RowWithin(line, h, total, x + n, y, remain - n, (|u| + n) % BLOCK_MAX, u + run, px + run);
    assert px + run <= whole;
    OnTheWay(w, h, total, line, x + n, y, remain - n, (|u| + n) % BLOCK_MAX, u + run, px + run, whole);
    StoredRun(u, total, run);
    StoredAfter(Head(w, h, IdatSize(total)), Stored(u, total), Pending(u, total, filled == 0), run);
  }

  lemma StoredAfter(head: Bytes, stored: Bytes, header: Bytes, data: Bytes)
    ensures head + (stored + header + data) == head + stored + header + data
  {}

  lemma RowWithin(line: nat, h: nat, total: nat, x: nat, y: nat, remain: nat, filled: nat, u: Bytes, px: Bytes)
    requires CountersAt(line, h, total, x, y, remain, filled, u, px) && x > 0
    ensures |px| <= h * (line - 1)
  {
    hide Filtered;
    Arithmetic.RowOrder(line - 1, y, h);
  }

  // The footer belongs to all pixels of the image.
  lemma FinishedWhole(w: nat, h: nat, total: nat, line: nat, remain: nat, filled: nat, u: Bytes, px: Bytes,
      whole: Bytes, file: Bytes)
    requires CountersAt(line, h, total, 0, h, remain, filled, u, px) && line == 3 * w + 1
    requires px <= whole && |whole| <= Room(w, h) && FinishedAs(w, h, total, u, file)
    ensures w > 0 && file == FileSoFar(w, h, whole)
  {
    hide CountersAt, Filtered, Head, Stored, Footer, IdatSize;
    CountersStream(line, h, total, 0, h, remain, filled, u, px);
    AllPixels(line, h, total, remain, filled, u, px);
    assert whole == px && u == Filtered(px, 3 * w);
    FilteredFits(px, w, h);
  }

  lemma AllPixels(line: nat, h: nat, total: nat, remain: nat, filled: nat, u: Bytes, px: Bytes)
    requires CountersAt(line, h, total, 0, h, remain, filled, u, px)
    ensures |px| == h * (line - 1)
  {
    hide Filtered;
  }

  lemma CountersBasics(line: nat, h: nat, total: nat, x: nat, y: nat, remain: nat, filled: nat, u: Bytes, px: Bytes)
    requires CountersAt(line, h, total, x, y, remain, filled, u, px)
    ensures line > 1 && |u| <= total && remain == total - |u| && filled == |u| % BLOCK_MAX < BLOCK_MAX
  {
    hide Filtered;
  }

  lemma EmittedSums(w: nat, h: nat, total: nat, u: Bytes, open: bool, output: Bytes, crc: bv32, adler: nat)
    requires EmittedAs(w, h, total, u, open, output, crc, adler)
    ensures |u| <= total && crc == Crc32(Covered(u, total, open)) && adler == Adler32(u)
  {
    hide Crc32, Stored, Head, Adler32, IdatSize, Covered;
  }

  method MakeBlockHeader(uncompRemain: nat) returns (header: Bytes)
    ensures header == BlockHeader(uncompRemain)
  {
    hide ByteOfNat, Flipped;
    var size := BLOCK_MAX;
    if uncompRemain < size {
      size := uncompRemain;
    }
    var lo, hi := ByteOfNat(size), ByteOfNat(size / 256);
    header := [if uncompRemain <= BLOCK_MAX then 1 else 0, lo, hi, Flipped(lo), Flipped(hi)];
  }

  lemma NoCrcBits(c: bv32, b: bv8)
    ensures CrcBits(c, b, 0) == c
  {}

  lemma CrcBitsStep(c: bv32, b: bv8, j: nat)
    requires j < 8
    ensures CrcBits(c, b, j + 1) == CrcBit(CrcBits(c, b, j), Bit(b, j))
  {
    hide CrcBit, Bit;
  }

  lemma RunRemainder(t: nat, n: nat)
    requires t % BLOCK_MAX + n <= BLOCK_MAX
    ensures (t + n) % BLOCK_MAX == if t % BLOCK_MAX + n == BLOCK_MAX then 0 else t % BLOCK_MAX + n
  {}

  lemma AdlerParts(s: Bytes)
    ensures Adler32(s) % 65536 == SumA(s) % BASE && Adler32(s) / 65536 == SumB(s) % BASE
    ensures Adler32(s) == SumB(s) % BASE * 65536 + SumA(s) % BASE
  {}

  lemma SumStep(s: Bytes, data: Bytes, i: nat)
    requires i < |data|
    ensures SumA(s + data[..i + 1]) % BASE == (SumA(s + data[..i]) % BASE + ByteValue(data[i])) % BASE
    ensures SumB(s + data[..i + 1]) % BASE == (SumB(s + data[..i]) % BASE + SumA(s + data[..i + 1]) % BASE) % BASE
  {
    hide ByteValue;
    var before, after := s + data[..i], s + data[..i + 1];
    assert after[..|after| - 1] == before;
    AddMod(SumA(before), ByteValue(data[i]));
    AddMod(SumB(before), SumA(after) % BASE);
    AddMod(SumA(after), SumB(before));
  }
}
