// Checksums and containers of a PNG file with a stored (uncompressed) image:
// RFC 2083 sections 3.2 to 3.4, RFC 1950 section 2.2 and RFC 1951 section 3.2.4.
module PngFormat {
  import opened Options
  import opened GaloisField

  type Bytes = seq<bv8>

  // ---- CRC-32 ----

  function CrcBit(c: bv32, bit: bool): bv32 {
    (c >> 1) ^ (if (c & 1 == 1) != bit then 0xEDB88320 else 0)
  }

  // The register after the low j bits of b.
  function CrcBits(c: bv32, b: bv8, j: nat): bv32
    requires j <= WIDTH
  {
    if j == 0 then c else CrcBit(CrcBits(c, b, j - 1), Bit(b, j - 1))
  }

  function CrcFold(c: bv32, s: Bytes): bv32 {
    if s == [] then c else CrcBits(CrcFold(c, s[..|s| - 1]), s[|s| - 1], WIDTH)
  }

  function Complement(c: bv32): bv32 {
    !c
  }

  // The CRC of a whole byte string.
  function Crc32(s: Bytes): bv32 {
    Complement(CrcFold(Complement(0), s))
  }

  lemma ComplementTwice(c: bv32)
    ensures Complement(Complement(c)) == c
  {}

  lemma {:induction false} CrcFoldAppend(c: bv32, s: Bytes, t: Bytes)
    ensures CrcFold(c, s + t) == CrcFold(CrcFold(c, s), t)
  {
    hide CrcBits;
    if t == [] {
      assert s + t == s;
    } else {
      CrcFoldAppend(c, s, t[..|t| - 1]);
      assert (s + t)[..|s + t| - 1] == s + t[..|t| - 1];
    }
  }

  // ---- Adler-32 ----

  function ByteValue(b: bv8): (n: nat)
    ensures n < 256
  {
    b as int
  }

  // One plus the sum of all bytes.
  function SumA(s: Bytes): nat {
    if s == [] then 1 else SumA(s[..|s| - 1]) + ByteValue(s[|s| - 1])
  }

  // The sum of the values of SumA after every byte.
  function SumB(s: Bytes): nat {
    if s == [] then 0 else SumB(s[..|s| - 1]) + SumA(s)
  }

  const BASE: nat := 65521

  function Adler32(s: Bytes): nat {
    SumB(s) % BASE * 65536 + SumA(s) % BASE
  }

  lemma AddMod(a: nat, b: nat)
    ensures (a % BASE + b) % BASE == (a + b) % BASE
    ensures (b + a % BASE) % BASE == (b + a) % BASE
  {}

  // ---- numbers in files ----

  function ByteOfNat(n: nat): bv8 {
    (n % 256) as bv8
  }

  lemma ByteOfNatValue(n: nat)
    ensures ByteValue(ByteOfNat(n)) == n % 256
  {
    SmallByte(n % 256);
  }

  lemma SmallByte(m: nat)
    requires m < 256
    ensures ByteValue(m as bv8) == m
  {}

  // Big endian, four bytes.
  function Big32(n: nat): (b: Bytes)
    ensures |b| == 4
  {
    [ByteOfNat(n / 0x1000000), ByteOfNat(n / 0x10000), ByteOfNat(n / 0x100), ByteOfNat(n)]
  }

  function ReadBig32(b: Bytes): nat
    requires |b| == 4
  {
    ByteValue(b[0]) * 0x1000000 + ByteValue(b[1]) * 0x10000 + ByteValue(b[2]) * 0x100 + ByteValue(b[3])
  }

  lemma Big32RoundTrip(n: nat)
    requires n < 0x1_0000_0000
    ensures ReadBig32(Big32(n)) == n
  {
    hide ByteValue, ByteOfNat;
    ByteOfNatValue(n / 0x1000000); ByteOfNatValue(n / 0x10000); ByteOfNatValue(n / 0x100); ByteOfNatValue(n);
    Digits256(n);
  }

  lemma Digits256(n: nat)
    requires n < 0x1_0000_0000
    ensures n == n / 0x1000000 % 256 * 0x1000000 + n / 0x10000 % 256 * 0x10000 + n / 0x100 % 256 * 0x100 + n % 256
  {}

  function BigBytes(c: bv32): (b: Bytes)
    ensures |b| == 4
  {
    [((c >> 24) & 0xff) as bv8, ((c >> 16) & 0xff) as bv8, ((c >> 8) & 0xff) as bv8, (c & 0xff) as bv8]
  }

  // ---- chunks ----

  // Length, type, data, CRC of type and data.
  function Chunk(kind: Bytes, data: Bytes): Bytes {
    Big32(|data|) + kind + data + BigBytes(Crc32(kind + data))
  }

  const SIGNATURE: Bytes := [0x89, 0x50, 0x4E, 0x47, 0x0D, 0x0A, 0x1A, 0x0A]
  const IHDR: Bytes := [0x49, 0x48, 0x44, 0x52]
  const IDAT: Bytes := [0x49, 0x44, 0x41, 0x54]
  const IEND: Bytes := [0x49, 0x45, 0x4E, 0x44]

  // A chunk read from the front of a file, if its CRC is right.
  function ReadChunk(f: Bytes): Option<(Bytes, Bytes, Bytes)> {
    if |f| < 12 then None
    else
      var n := ReadBig32(f[..4]);
      if |f| < 12 + n then None
      else
        var kind, data := f[4..8], f[8..8 + n];
        if f[8 + n..12 + n] == BigBytes(Crc32(kind + data)) then Some((kind, data, f[12 + n..])) else None
  }

  lemma ChunkRoundTrip(kind: Bytes, data: Bytes, rest: Bytes)
    requires |kind| == 4 && |data| < 0x1_0000_0000
    ensures ReadChunk(Chunk(kind, data) + rest) == Some((kind, data, rest))
  {
    hide Big32, ReadBig32, BigBytes, Crc32;
    Big32RoundTrip(|data|);
    var f := Chunk(kind, data) + rest;
    assert f[..4] == Big32(|data|);
    assert f[4..8] == kind;
    assert f[8..8 + |data|] == data;
    assert f[8 + |data|..12 + |data|] == BigBytes(Crc32(kind + data));
    assert f[12 + |data|..] == rest;
  }

  // ---- stored DEFLATE blocks ----

  const BLOCK_MAX: nat := 65535

  function Flipped(b: bv8): bv8 {
    b ^ 0xFF
  }

  // The header of the stored block that starts when remain bytes are left.
  function BlockHeader(remain: nat): (h: Bytes)
    ensures |h| == 5
  {
    var size := if remain < BLOCK_MAX then remain else BLOCK_MAX;
    var lo, hi := ByteOfNat(size), ByteOfNat(size / 256);
    [if remain <= BLOCK_MAX then 1 else 0, lo, hi, Flipped(lo), Flipped(hi)]
  }

  // The bytes of u in stored blocks, when u is the beginning of a stream of total bytes.
  function Stored(u: Bytes, total: nat): Bytes
    requires |u| <= total
  {
    if u == [] then []
    else
      var t := |u| - 1;
      Stored(u[..t], total) + (if t % BLOCK_MAX == 0 then BlockHeader(total - t) else []) + [u[t]]
  }

  lemma StoredStep(u: Bytes, total: nat, b: bv8)
    requires |u| < total
    ensures Stored(u + [b], total)
      == Stored(u, total) + (if |u| % BLOCK_MAX == 0 then BlockHeader(total - |u|) else []) + [b]
  {
    hide BlockHeader;
    assert (u + [b])[..|u|] == u;
  }

  // Inside one block the bytes are copied.
  lemma {:induction false} StoredRun(u: Bytes, total: nat, run: Bytes)
    requires |u| + |run| <= total && run != [] && |u| % BLOCK_MAX + |run| <= BLOCK_MAX
    ensures Stored(u + run, total)
      == Stored(u, total) + (if |u| % BLOCK_MAX == 0 then BlockHeader(total - |u|) else []) + run
    decreases |run|
  {
    hide BlockHeader, Stored;
    var n := |run| - 1;
    var front := run[..n];
    assert run == front + [run[n]];
    if n > 0 {
      StoredRun(u, total, front);
      assert (|u| + n) % BLOCK_MAX == |u| % BLOCK_MAX + n;
      StoredStep(u + front, total, run[n]);
      assert u + run == u + front + [run[n]];
    } else {
      StoredStep(u, total, run[0]);
      assert u + run == u + [run[0]];
    }
  }

  // Five header bytes for every started block.
  lemma {:induction false} StoredLength(u: Bytes, total: nat)
    requires |u| <= total
    ensures |Stored(u, total)| == |u| + 5 * ((|u| + BLOCK_MAX - 1) / BLOCK_MAX)
  {
    hide BlockHeader;
    if u != [] {
      var t := |u| - 1;
      StoredLength(u[..t], total);
      StartedBlocks(t);
    }
  }

  lemma StartedBlocks(t: nat)
    ensures (t + 1 + BLOCK_MAX - 1) / BLOCK_MAX == (t + BLOCK_MAX - 1) / BLOCK_MAX + if t % BLOCK_MAX == 0 then 1 else 0
  {}

  // The same blocks, front to back.
  function Blocks(u: Bytes): Bytes
    decreases |u|
  {
    if u == [] then []
    else
      var n := if |u| < BLOCK_MAX then |u| else BLOCK_MAX;
      BlockHeader(|u|) + u[..n] + Blocks(u[n..])
  }

  lemma {:induction false} StoredIsBlocks(done: Bytes, u: Bytes, total: nat)
    requires |done| + |u| == total && |done| % BLOCK_MAX == 0
    ensures Stored(done + u, total) == Stored(done, total) + Blocks(u)
    decreases |u|
  {
    hide BlockHeader, Stored;
    if u == [] {
      assert done + u == done;
    } else {
      var n := if |u| < BLOCK_MAX then |u| else BLOCK_MAX;
      StoredRun(done, total, u[..n]);
      if n == |u| {
        assert u[..n] == u && u[n..] == [];
      } else {
        assert (|done| + BLOCK_MAX) % BLOCK_MAX == 0;
        StoredIsBlocks(done + u[..n], u[n..], total);
        assert done + u[..n] + u[n..] == done + u;
      }
    }
  }

  // ---- inflating stored blocks ----

  // The bytes of a sequence of stored blocks up to the final one, and what follows it.
  function Inflate(f: Bytes): Option<(Bytes, Bytes)>
    decreases |f|
  {
    if |f| < 5 || f[0] > 1 || f[3] != Flipped(f[1]) || f[4] != Flipped(f[2]) then None
    else
      var n := ByteValue(f[1]) + 256 * ByteValue(f[2]);
      if |f| < 5 + n then None
      else if f[0] == 1 then Some((f[5..5 + n], f[5 + n..]))
      else
        match Inflate(f[5 + n..])
        case None => None
        case Some((more, rest)) => Some((f[5..5 + n] + more, rest))
  }

  lemma HeaderSays(remain: nat)
    ensures var h := BlockHeader(remain);
      && h[0] == (if remain <= BLOCK_MAX then 1 else 0) && h[3] == Flipped(h[1]) && h[4] == Flipped(h[2])
      && ByteValue(h[1]) + 256 * ByteValue(h[2]) == if remain < BLOCK_MAX then remain else BLOCK_MAX
  {
    hide ByteValue, ByteOfNat;
    var size := if remain < BLOCK_MAX then remain else BLOCK_MAX;
    ByteOfNatValue(size); ByteOfNatValue(size / 256);
  }

  // Inflating gives back the stored bytes.
  lemma {:induction false} InflateBlocks(u: Bytes, rest: Bytes)
    requires u != []
    ensures Inflate(Blocks(u) + rest) == Some((u, rest))
    decreases |u|
  {
    hide BlockHeader, ByteValue, Inflate, Blocks;
    var n := if |u| < BLOCK_MAX then |u| else BLOCK_MAX;
    HeaderSays(|u|);
    BlocksUnfold(u);
    var tail := Blocks(u[n..]) + rest;
    InflateOne(BlockHeader(|u|), u[..n], tail);
    assert Blocks(u) + rest == BlockHeader(|u|) + u[..n] + tail;
    if n == |u| {
      assert u[..n] == u && u[n..] == [] && tail == rest by { BlocksEmpty(rest); }
    } else {
      InflateBlocks(u[n..], rest);
      assert u[..n] + u[n..] == u;
    }
  }

  lemma BlocksEmpty(rest: Bytes)
    ensures Blocks([]) + rest == rest
  {}

  lemma BlocksUnfold(u: Bytes)
    requires u != []
    ensures var n := if |u| < BLOCK_MAX then |u| else BLOCK_MAX; Blocks(u) == BlockHeader(|u|) + u[..n] + Blocks(u[n..])
  {
    hide BlockHeader;
  }

  lemma InflateOne(h: Bytes, body: Bytes, tail: Bytes)
    requires |h| == 5 && h[0] <= 1 && h[3] == Flipped(h[1]) && h[4] == Flipped(h[2])
    requires ByteValue(h[1]) + 256 * ByteValue(h[2]) == |body|
    ensures h[0] == 1 ==> Inflate(h + body + tail) == Some((body, tail))
    ensures h[0] != 1 && Inflate(tail).Some? ==>
      Inflate(h + body + tail) == Some((body + Inflate(tail).value.0, Inflate(tail).value.1))
  {
    hide ByteValue;
    var f := h + body + tail;
    assert f[5..5 + |body|] == body && f[5 + |body|..] == tail;
  }
}
