// Keccak-256: the block-by-block absorb loop against absorbing the whole padded message
// (FIPS 202 sections 4 and 5.1, with Keccak's domain byte 0x01).
module KeccakSponge {
  import opened KeccakSpec
  import opened Keccak

  const RATE: nat := 136
  const LANES: nat := 17

  type Byte = bv8

  // Eight bytes as a lane, least significant byte first.
  function LittleEndian(b: seq<Byte>): bv64
    requires |b| == 8
  {
    (b[0] as bv64) | ((b[1] as bv64) << 8) | ((b[2] as bv64) << 16) | ((b[3] as bv64) << 24)
    | ((b[4] as bv64) << 32) | ((b[5] as bv64) << 40) | ((b[6] as bv64) << 48) | ((b[7] as bv64) << 56)
  }

  // Byte i of a lane.
  function LaneByte(v: bv64, i: nat): Byte
    requires i < 8
  {
    match i
    case 0 => (v & 0xff) as bv8 case 1 => ((v >> 8) & 0xff) as bv8
    case 2 => ((v >> 16) & 0xff) as bv8 case 3 => ((v >> 24) & 0xff) as bv8
    case 4 => ((v >> 32) & 0xff) as bv8 case 5 => ((v >> 40) & 0xff) as bv8
    case 6 => ((v >> 48) & 0xff) as bv8 case _ => ((v >> 56) & 0xff) as bv8
  }

  // ---- specification ----

  function Padding(len: nat): (p: seq<Byte>)
    ensures |p| == RATE - len % RATE
  {
    var q := RATE - len % RATE;
    if q == 1 then [0x81] else [0x01] + seq(q - 2, _ => 0) + [0x80]
  }

  function Pad(m: seq<Byte>): (p: seq<Byte>)
    ensures |p| % RATE == 0 && |p| > |m|
  {
    m + Padding(|m|)
  }

  function XorBlock(s: Lanes, block: seq<Byte>): Lanes
    requires |block| == RATE
  {
    seq(25, l requires 0 <= l < 25 => if l < LANES then Xor(s[l], LittleEndian(block[8 * l..8 * l + 8])) else s[l])
  }

  function AbsorbBlock(s: Lanes, block: seq<Byte>): Lanes
    requires |block| == RATE
  {
    Permutation(XorBlock(s, block))
  }

  function Absorb(s: Lanes, p: seq<Byte>): Lanes
    requires |p| % RATE == 0
    decreases |p|
  {
    if p == [] then s else WholeBlocks(|p|); Absorb(AbsorbBlock(s, p[..RATE]), p[RATE..])
  }

  lemma WholeBlocks(n: nat)
    requires n % RATE == 0 && n > 0
    ensures n >= RATE && (n - RATE) % RATE == 0
  {}

  function Squeeze(s: Lanes): seq<Byte> {
    seq(32, i requires 0 <= i < 32 => LaneByte(s[i / 8], i % 8))
  }

  function ZeroState(): Lanes {
    seq(25, _ => 0)
  }

  function Keccak256(m: seq<Byte>): seq<Byte> {
    Squeeze(Absorb(ZeroState(), Pad(m)))
  }

  // ---- the padding is unambiguous ----

  lemma PadInjective(a: seq<Byte>, b: seq<Byte>)
    requires Pad(a) == Pad(b)
    ensures a == b
  {
    var p := Pad(a);
    PadMark(a); PadMark(b);
    assert |a| == |b|;
    assert a == p[..|a|] && b == p[..|b|];
  }

  // Exactly one byte behind the message has its lowest bit set, the first.
  lemma PadMark(m: seq<Byte>)
    ensures Pad(m)[|m|] == 0x01 || Pad(m)[|m|] == 0x81
    ensures forall k :: |m| < k < |Pad(m)| ==> Pad(m)[k] == 0 || Pad(m)[k] == 0x80
  {}

  // ---- the algorithm ----

  // Adds the block bytes[start..start+136] to the first 17 lanes.
  method XorBlockInPlace(state: array<bv64>, bytes: seq<Byte>)
    requires state.Length == 25 && |bytes| == RATE
    modifies state
    ensures state[..] == XorBlock(old(state[..]), bytes)
  {
    hide Xor, LittleEndian;
    ghost var s: Lanes := state[..];
    var lane := 0;
    while lane < LANES
      invariant 0 <= lane <= LANES
      invariant forall l :: 0 <= l < 25 ==>
        state[l] == if l < lane then Xor(s[l], LittleEndian(bytes[8 * l..8 * l + 8])) else s[l]
    {
      state[lane] := Xor(state[lane], LittleEndian(bytes[8 * lane..8 * lane + 8]));
      lane := lane + 1;
    }
    assert state[..] == XorBlock(s, bytes);
  }

  method FinalBlock(rest: seq<Byte>) returns (block: seq<Byte>)
    requires |rest| < RATE
    ensures block == Pad(rest)
  {
    hide Pad;
    var final := new bv8[136](_ => 0);
    var i := 0;
    while i < |rest|
      invariant 0 <= i <= |rest|
      invariant forall k :: 0 <= k < RATE ==> final[k] == if k < i then rest[k] else 0
    {
      final[i] := rest[i];
      i := i + 1;
    }
    final[|rest|] := 0x01;
    final[RATE - 1] := final[RATE - 1] | 0x80;
    LastByte();
    PadShortAt(rest);
    block := final[..];
  }

  lemma PadShortAt(m: seq<Byte>)
    requires |m| < RATE
    ensures |Pad(m)| == RATE
    ensures forall k :: 0 <= k < |m| ==> Pad(m)[k] == m[k]
    ensures forall k :: |m| < k < RATE ==> Pad(m)[k] == if k == RATE - 1 then 0x80 else 0
    ensures Pad(m)[|m|] == if |m| == RATE - 1 then 0x81 else 0x01
  {}

  lemma LastByte()
    ensures (0x01 as bv8) | 0x80 == 0x81 && (0 as bv8) | 0x80 == 0x80
  {}

  lemma AbsorbStep(s: Lanes, m: seq<Byte>)
    requires |m| >= RATE
    ensures Absorb(s, Pad(m)) == Absorb(AbsorbBlock(s, m[..RATE]), Pad(m[RATE..]))
  {
    hide AbsorbBlock, Padding;
    assert (|m| - RATE) % RATE == |m| % RATE;
    assert Padding(|m|) == Padding(|m[RATE..]|) by { SamePadding(|m|); }
    assert Pad(m)[..RATE] == m[..RATE];
    assert Pad(m)[RATE..] == Pad(m[RATE..]);
  }

  lemma SamePadding(n: nat)
    requires n >= RATE
    ensures Padding(n) == Padding(n - RATE)
  {}

  lemma AbsorbLast(s: Lanes, block: seq<Byte>)
    requires |block| == RATE
    ensures Absorb(s, block) == AbsorbBlock(s, block)
  {
    hide AbsorbBlock;
    assert block[..RATE] == block && block[RATE..] == [];
    assert Absorb(AbsorbBlock(s, block), []) == AbsorbBlock(s, block);
  }

  // The streaming loop computes the digest of every message, whatever its length.
  method Keccak256Digest(value: seq<Byte>) returns (digest: seq<Byte>)
    ensures digest == Keccak256(value)
  {
    hide AbsorbBlock, Absorb, Pad, Squeeze, XorBlock, Permutation;
    var state := new bv64[25](_ => 0);
    assert state[..] == ZeroState();
    var start := 0;
    var remaining := |value|;
    assert value[0..] == value;
    while remaining >= RATE
      invariant 0 <= remaining && start + remaining == |value|
      invariant Absorb(state[..], Pad(value[start..])) == Absorb(ZeroState(), Pad(value))
    {
      var block := value[start..start + RATE];
      AbsorbStep(state[..], value[start..]);
      assert value[start..][..RATE] == block && value[start..][RATE..] == value[start + RATE..];
      AbsorbBlockIs(state[..], block);
      XorBlockInPlace(state, block);
      KeccakPermutation(state);
      start := start + RATE;
      remaining := remaining - RATE;
    }
    var final := FinalBlock(value[start..]);
    PadShort(value[start..]);
    AbsorbLast(state[..], final);
    AbsorbBlockIs(state[..], final);
    XorBlockInPlace(state, final);
    KeccakPermutation(state);
    digest := ReadDigest(state);
  }

  lemma AbsorbBlockIs(s: Lanes, block: seq<Byte>)
    requires |block| == RATE
    ensures AbsorbBlock(s, block) == Permutation(XorBlock(s, block))
  {
    hide Permutation, XorBlock;
  }

  lemma PadShort(m: seq<Byte>)
    requires |m| < RATE
    ensures |Pad(m)| == RATE
  {}

  method ReadDigest(state: array<bv64>) returns (digest: seq<Byte>)
    requires state.Length == 25
    ensures digest == Squeeze(state[..])
  {
    hide LaneByte;
    digest := [];
    var index := 0;
    while index < 32
      invariant 0 <= index <= 32
      invariant digest == Squeeze(state[..])[..index]
    {
      digest := digest + [LaneByte(state[index / 8], index % 8)];
      index := index + 1;
    }
  }

  // ---- lanes and bytes ----

  lemma LaneBytesLow(b: seq<Byte>)
    requires |b| == 8
    ensures LaneByte(LittleEndian(b), 0) == b[0] && LaneByte(LittleEndian(b), 1) == b[1]
    ensures LaneByte(LittleEndian(b), 2) == b[2] && LaneByte(LittleEndian(b), 3) == b[3]
  {}

  lemma LaneBytesHigh(b: seq<Byte>)
    requires |b| == 8
    ensures LaneByte(LittleEndian(b), 4) == b[4] && LaneByte(LittleEndian(b), 5) == b[5]
    ensures LaneByte(LittleEndian(b), 6) == b[6] && LaneByte(LittleEndian(b), 7) == b[7]
  {}

  // Loading bytes into a lane and reading them out again gives the bytes.
  lemma LaneRoundTrip(b: seq<Byte>, i: nat)
    requires |b| == 8 && i < 8
    ensures LaneByte(LittleEndian(b), i) == b[i]
  {
    hide LaneByte, LittleEndian;
    LaneBytesLow(b); LaneBytesHigh(b);
  }
}
