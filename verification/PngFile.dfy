// What the writer produces is a PNG file of its pixels.
module PngFile {
  import opened Options
  import opened GaloisField
  import opened PngFormat
  import opened TinyPngOut
  import Arithmetic

  // ---- the trailer ----

  lemma CrcOfI()
    ensures CrcBits(0xffffffff, 0x49, WIDTH) == 0x22fde946
  {}

  lemma CrcOfE()
    ensures CrcBits(0x22fde946, 0x45, WIDTH) == 0x992bac53
  {}

  lemma CrcOfN()
    ensures CrcBits(0x992bac53, 0x4e, WIDTH) == 0x639f4775
  {}

  lemma CrcOfD()
    ensures CrcBits(0x639f4775, 0x44, WIDTH) == 0x51bd9f7d
  {}

  lemma TrailerCrc()
    ensures BigBytes(Crc32(IEND)) == [0xAE, 0x42, 0x60, 0x82]
  {
    hide CrcBits;
    CrcOfI(); CrcOfE(); CrcOfN(); CrcOfD();
    var c := Complement(0);
    assert c == 0xffffffff;
    assert IEND[..4] == IEND;
    assert IEND[..1] == [0x49] && IEND[..2] == [0x49] + [0x45] && IEND[..3] == [0x49, 0x45] + [0x4E];
    FoldByte(c, [], 0x49);
    FoldByte(c, [0x49], 0x45);
    FoldByte(c, [0x49, 0x45], 0x4E);
    FoldByte(c, [0x49, 0x45, 0x4E], 0x44);
  }

  lemma FoldByte(c: bv32, s: Bytes, b: bv8)
    ensures CrcFold(c, s + [b]) == CrcBits(CrcFold(c, s), b, WIDTH)
  {
    hide CrcBits;
    assert (s + [b])[..|s|] == s;
  }

  lemma EndChunk()
    ensures END_CHUNK == Chunk(IEND, [])
  {
    hide Crc32, BigBytes;
    TrailerCrc();
    assert IEND + [] == IEND;
    assert Big32(0) == [0, 0, 0, 0] by { ByteOfZero(); }
    assert END_CHUNK == [0, 0, 0, 0] + IEND + [] + [0xAE, 0x42, 0x60, 0x82];
  }

  lemma ByteOfZero()
    ensures ByteOfNat(0) == 0
  {}

  // ---- the three chunks ----

  function IdatData(u: Bytes): Bytes {
    ZLIB + Blocks(u) + Big32(Adler32(u))
  }

  function PngOf(w: nat, h: nat, u: Bytes): Bytes {
    SIGNATURE + Chunk(IHDR, IhdrData(w, h)) + Chunk(IDAT, IdatData(u)) + Chunk(IEND, [])
  }

  // The declared IDAT length is the length of the IDAT data.
  lemma IdatLength(u: Bytes)
    ensures |IdatData(u)| == IdatSize(|u|)
  {
    hide Stored, Blocks, Adler32;
    StoredLength(u, |u|);
    StoredIsBlocks([], u, |u|);
    assert [] + u == u;
    assert Stored([], |u|) + Blocks(u) == Blocks(u) by { StoredOfNothing(|u|); }
    BlockCount(|u|);
  }

  lemma StoredOfNothing(total: nat)
    ensures Stored([], total) == []
  {}

  lemma BlockCount(t: nat)
    ensures (t + BLOCK_MAX - 1) / BLOCK_MAX == t / BLOCK_MAX + (if t % BLOCK_MAX != 0 then 1 else 0)
  {}

  lemma WholeStream(u: Bytes)
    ensures Stored(u, |u|) == Blocks(u)
  {
    hide Stored, Blocks;
    StoredIsBlocks([], u, |u|);
    StoredOfNothing(|u|);
    assert [] + u == u && [] + Blocks(u) == Blocks(u);
  }

  // A complete image is a signature and the chunks IHDR, IDAT and IEND.
  lemma CompleteFileIsPng(w: nat, h: nat, px: Bytes)
    requires w > 0 && |px| == Room(w, h)
    ensures FileSoFar(w, h, px) == PngOf(w, h, Filtered(px, 3 * w))
  {
    hide Filtered, Stored, Blocks, Adler32, Crc32, IdatSize, Room, Chunk, Big32, BigBytes, IhdrData;
    FilteredFits(px, w, h);
    var u, total := Filtered(px, 3 * w), h * (3 * w + 1);
    WholeStream(u);
    IdatLength(u);
    EndChunk();
    ChunkIs(IDAT, IdatData(u));
    var adler := Big32(Adler32(u));
    assert Summed(u, total) + adler == IDAT + IdatData(u);
    var front := SIGNATURE + Chunk(IHDR, IhdrData(w, h));
    var crc := BigBytes(Crc32(IDAT + IdatData(u)));
    Regroup(front, Big32(IdatSize(total)), ZLIB, Blocks(u), adler, crc, END_CHUNK);
  }

  lemma ChunkIs(kind: Bytes, data: Bytes)
    ensures Chunk(kind, data) == Big32(|data|) + kind + data + BigBytes(Crc32(kind + data))
  {}

  lemma Regroup(front: Bytes, size: Bytes, zlib: Bytes, blocks: Bytes, adler: Bytes, crc: Bytes, end: Bytes)
    ensures front + size + IDAT + zlib + blocks + (adler + crc + end)
      == front + (size + IDAT + (zlib + blocks + adler) + crc) + end
  {}

  // ---- a reader ----

  // Removes the filter bytes of rows of line bytes; every one must be 0.
  function Unfilter(u: Bytes, line: nat): Option<Bytes>
    requires line > 1
  {
    if u == [] then Some([])
    else
      var k := |u| - 1;
      match Unfilter(u[..k], line)
      case None => None
      case Some(px) =>
        if k % line != 0 then Some(px + [u[k]]) else if u[k] == 0 then Some(px) else None
  }

  lemma UnfilterStep(u: Bytes, line: nat, b: bv8)
    requires line > 1 && Unfilter(u, line).Some?
    ensures |u| % line != 0 ==> Unfilter(u + [b], line) == Some(Unfilter(u, line).value + [b])
    ensures |u| % line == 0 && b == 0 ==> Unfilter(u + [b], line) == Unfilter(u, line)
  {
    assert (u + [b])[..|u|] == u;
  }

  lemma RowsFor(w: int, q: int, r: int)
    requires 0 <= r < w
    ensures (q * w + r + w - 1) / w == if r == 0 then q else q + 1
  {
    if r == 0 {
      Arithmetic.DivMod(w, q, w - 1);
    } else {
      NextRow(w, q);
      Arithmetic.DivMod(w, q + 1, r - 1);
    }
  }

  lemma NextRow(w: int, q: int)
    ensures (q + 1) * w == q * w + w && q * (w + 1) == q * w + q
  {}

  lemma ColumnIn(w: int, q: int, r: int)
    requires 0 <= r < w
    ensures (q * w + r + if r == 0 then q else q + 1) % (w + 1) == if r == 0 then 0 else r + 1
  {
    NextRow(w, q);
    Arithmetic.DivMod(w + 1, q, if r == 0 then 0 else r + 1);
  }

  lemma ColumnOf(w: int, n: int, f: int)
    requires 0 < w && f == n + (n + w - 1) / w
    ensures f % (w + 1) == if n % w == 0 then 0 else n % w + 1
  {
    Arithmetic.DivRem(w, n);
    RowsFor(w, n / w, n % w);
    ColumnIn(w, n / w, n % w);
  }

  // How far into its row the filtered stream of k pixel bytes stops.
  lemma FilteredColumn(px: Bytes, w: nat)
    requires w > 0
    ensures |Filtered(px, w)| % (w + 1) == if |px| % w == 0 then 0 else |px| % w + 1
  {
    hide Filtered;
    FilteredLength(px, w);
    ColumnOf(w, |px|, |Filtered(px, w)|);
  }

  lemma {:induction false} UnfilterFiltered(px: Bytes, w: nat)
    requires w > 0
    ensures Unfilter(Filtered(px, w), w + 1) == Some(px)
  {
    hide Unfilter, Filtered;
    if px == [] {
      UnfilterNothing(w);
    } else {
      var k := |px| - 1;
      var before := Filtered(px[..k], w);
      UnfilterFiltered(px[..k], w);
      FilteredColumn(px[..k], w);
      FilteredStep(px[..k], w, px[k]);
      assert px[..k] + [px[k]] == px;
      if k % w == 0 {
        UnfilterStep(before, w + 1, 0);
        Arithmetic.DivRem(w + 1, |before|);
        Arithmetic.DivMod(w + 1, |before| / (w + 1), 1);
        UnfilterStep(before + [0], w + 1, px[k]);
      } else {
        Arithmetic.DivRem(w, k);
        UnfilterStep(before, w + 1, px[k]);
        assert before + [] + [px[k]] == before + [px[k]];
      }
    }
  }

  lemma UnfilterNothing(w: nat)
    requires w > 0
    ensures Unfilter(Filtered([], w), w + 1) == Some([])
  {}

  datatype Image = Image(width: nat, height: nat, pixels: Bytes)

  // The pixels of an IDAT chunk: a zlib stream of stored blocks with the right checksum.
  function ReadIdat(data: Bytes, w: nat): Option<Bytes>
    requires w > 0
  {
    if |data| < 2 || data[..2] != ZLIB then None
    else
      match Inflate(data[2..])
      case None => None
      case Some((u, rest)) => if rest == Big32(Adler32(u)) then Unfilter(u, 3 * w + 1) else None
  }

  lemma ReadIdatData(px: Bytes, w: nat)
    requires w > 0 && px != []
    ensures ReadIdat(IdatData(Filtered(px, 3 * w)), w) == Some(px)
  {
    hide Inflate, Blocks, Filtered, Unfilter, Big32, Adler32;
    var u := Filtered(px, 3 * w);
    FilteredLength(px, 3 * w);
    InflateBlocks(u, Big32(Adler32(u)));
    UnfilterFiltered(px, 3 * w);
    var data := IdatData(u);
    assert data[..2] == ZLIB && data[2..] == Blocks(u) + Big32(Adler32(u));
  }

  // Width and height of an 8-bit RGB image without interlacing.
  function ReadIhdr(data: Bytes): Option<(nat, nat)> {
    if |data| == 13 && data[8..] == [0x08, 0x02, 0x00, 0x00, 0x00]
    then Some((ReadBig32(data[..4]), ReadBig32(data[4..8])))
    else None
  }

  lemma ReadIhdrData(w: nat, h: nat)
    requires w <= UINT32_MAX && h <= UINT32_MAX
    ensures ReadIhdr(IhdrData(w, h)) == Some((w, h))
  {
    hide Big32, ReadBig32;
    Big32RoundTrip(w);
    Big32RoundTrip(h);
    var data := IhdrData(w, h);
    assert data[..4] == Big32(w) && data[4..8] == Big32(h) && data[8..] == [0x08, 0x02, 0x00, 0x00, 0x00];
  }

  // Reads signature, IHDR, IDAT and IEND, checking every length and checksum on the way.
  function ReadPng(f: Bytes): Option<Image> {
    if |f| < 8 || f[..8] != SIGNATURE then None
    else match ReadChunk(f[8..])
      case None => None
      case Some((kind0, ihdr, rest0)) => match ReadChunk(rest0)
        case None => None
        case Some((kind1, idat, rest1)) => match ReadChunk(rest1)
          case None => None
          case Some((kind2, iend, rest2)) =>
            if kind0 != IHDR || kind1 != IDAT || kind2 != IEND || iend != [] || rest2 != [] then None
            else ReadImage(ihdr, idat)
  }

  function ReadImage(ihdr: Bytes, idat: Bytes): Option<Image> {
    match ReadIhdr(ihdr)
    case None => None
    case Some((w, h)) =>
      if w == 0 || h == 0 then None
      else match ReadIdat(idat, w)
        case None => None
        case Some(px) => if |px| == Room(w, h) then Some(Image(w, h, px)) else None
  }

  // Reading a complete file gives back its pixels, for every image that Init accepts without wrapping.
  lemma PngRoundTrip(w: nat, h: nat, px: Bytes)
    requires 0 < w && 0 < h && |px| == Room(w, h)
    requires w <= UINT32_MAX && h <= UINT32_MAX && IdatSize(h * (3 * w + 1)) <= INT32_MAX
    ensures ReadPng(FileSoFar(w, h, px)) == Some(Image(w, h, px))
  {
    hide Filtered, Chunk, ReadChunk, IhdrData, ReadIhdr, ReadIdat, IdatData, FileSoFar, IdatSize, Room;
    FilteredFits(px, w, h);
    var u := Filtered(px, 3 * w);
    CompleteFileIsPng(w, h, px);
    IdatLength(u);
    var end := Chunk(IEND, []);
    var rest1 := Chunk(IDAT, IdatData(u)) + end;
    var f := PngOf(w, h, u);
    assert f[..8] == SIGNATURE && f[8..] == Chunk(IHDR, IhdrData(w, h)) + rest1;
    IhdrLength(w, h);
    ChunkRoundTrip(IHDR, IhdrData(w, h), rest1);
    ChunkRoundTrip(IDAT, IdatData(u), end);
    ChunkRoundTrip(IEND, [], []);
    assert end + [] == end;
    ReadIhdrData(w, h);
    RoomPositive(w, h);
    ReadIdatData(px, w);
  }

  lemma RoomPositive(w: nat, h: nat)
    requires 0 < w && 0 < h
    ensures Room(w, h) > 0
  {
    Arithmetic.MulMono(3 * w, 1, h);
  }

  lemma IhdrLength(w: nat, h: nat)
    ensures |IhdrData(w, h)| == 13
  {}

  // ---- whole runs ----

  function Concat(parts: seq<Bytes>): Bytes {
    if parts == [] then [] else Concat(parts[..|parts| - 1]) + parts[|parts| - 1]
  }

  // Writes an image in any number of parts of whole pixels. The file depends on the parts only through
  // their concatenation.
  method WriteInParts(out: Writer, w: nat, h: nat, limit: nat, parts: seq<Bytes>) returns (status: Status)
    requires 0 < w <= UINT32_MAX && 0 < h <= UINT32_MAX && InitStatus(w, h, true, limit) == Ok
    requires h * (3 * w + 1) <= UINT32_MAX
    requires forall p :: p in parts ==> |p| % 3 == 0 && |p| <= SIZE_MAX
    requires |Concat(parts)| <= Room(w, h)
    modifies out
    ensures status == if |FileSoFar(w, h, Concat(parts))| > limit then IoError else Ok
    ensures out.output == Fitting(FileSoFar(w, h, Concat(parts)), limit)
  {
    hide InitStatus, FileSoFar, Room, Writer.Valid, Fitting, Concat, IdatSize, Declared, Head;
    status := out.Init(w, h, true, limit);
    var i := 0;
    NoParts(parts);
    while i < |parts|
      invariant 0 <= i <= |parts| && out.Valid() && out.width == w && out.height == h && out.limit == limit
      invariant status == Ok && out.pixels == Concat(parts[..i])
    {
      ConcatPrefix(parts, i + 1);
      OnePart(parts, i);
      assert parts[i] in parts;
      status := out.Write(Some(parts[i]), |parts[i]| / 3);
      i := i + 1;
      if status != Ok {
        ConcatPrefix(parts, i);
        FileGrows(w, h, Concat(parts[..i]), Concat(parts));
        FittingMore(FileSoFar(w, h, Concat(parts[..i])), FileSoFar(w, h, Concat(parts)), limit);
        return;
      }
    }
    assert parts[..i] == parts;
    FittingAll(out.output, limit);
  }

  lemma FittingAll(whole: Bytes, limit: nat)
    requires |whole| <= limit
    ensures Fitting(whole, limit) == whole
  {}

  lemma NoParts(parts: seq<Bytes>)
    ensures Concat(parts[..0]) == []
  {}

  lemma OnePart(parts: seq<Bytes>, i: nat)
    requires i < |parts|
    ensures Concat(parts[..i + 1]) == Concat(parts[..i]) + parts[i]
  {
    assert parts[..i + 1][..i] == parts[..i];
  }

  lemma FittingMore(part: Bytes, whole: Bytes, limit: nat)
    requires part <= whole && |part| > limit
    ensures |whole| > limit && Fitting(part, limit) == Fitting(whole, limit)
  {}

  lemma {:induction false} ConcatPrefix(parts: seq<Bytes>, i: nat)
    requires i <= |parts|
    ensures Concat(parts[..i]) <= Concat(parts)
    decreases |parts|
  {
    if i < |parts| {
      ConcatPrefix(parts[..|parts| - 1], i);
      assert parts[..|parts| - 1][..i] == parts[..i];
    } else {
      assert parts[..i] == parts;
    }
  }

  // The file of more pixels begins with that of fewer, unless the image is complete already.
  lemma FileGrows(w: nat, h: nat, px: Bytes, more: Bytes)
    requires w > 0 && px <= more && |more| <= Room(w, h)
    ensures FileSoFar(w, h, px) <= FileSoFar(w, h, more)
  {
    hide Filtered, Stored, Head, Footer, IdatSize, Room;
    if |px| == Room(w, h) {
      assert px == more;
    } else {
      FilteredFits(px, w, h);
      FilteredFits(more, w, h);
      FilteredPrefix(px, more, 3 * w);
      var total := h * (3 * w + 1);
      StoredPrefix(Filtered(px, 3 * w), Filtered(more, 3 * w), total);
      FilePrefix(w, h, total, Stored(Filtered(more, 3 * w), total), more);
    }
  }
}
