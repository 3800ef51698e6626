// The symbol buffer: byte 0 holds the side length, the modules follow row by row, eight to a byte.
module QrGrid {
  import opened GaloisField
  import opened Arithmetic

  function Mask(i: nat): bv8
    requires i < WIDTH
  {
    if i == 0 then 0x01 else if i == 1 then 0x02 else if i == 2 then 0x04 else if i == 3 then 0x08
    else if i == 4 then 0x10 else if i == 5 then 0x20 else if i == 6 then 0x40 else 0x80
  }

  function SetBit(b: bv8, i: nat, v: bool): bv8
    requires i < WIDTH
  {
    if v then b | Mask(i) else b & (Mask(i) ^ 0xFF)
  }

  lemma BitIsMasked(b: bv8, i: nat)
    requires i < WIDTH
    ensures Bit(b, i) <==> b & Mask(i) != 0
  {
    if i == 1 {} else if i == 2 {} else if i == 3 {} else if i == 4 {}
    else if i == 5 {} else if i == 6 {} else if i == 7 {}
  }

  lemma MasksDiffer(i: nat, j: nat)
    requires i < WIDTH && j < WIDTH
    ensures Mask(i) != 0
    ensures i != j ==> Mask(i) & Mask(j) == 0
  {}

  lemma SetBitSame(b: bv8, i: nat, v: bool)
    requires i < WIDTH
    ensures Bit(SetBit(b, i, v), i) == v
  {
    BitIsMasked(SetBit(b, i, v), i);
    MasksDiffer(i, i);
    hide Bit, Mask;
  }

  lemma SetBitOther(b: bv8, i: nat, v: bool, j: nat)
    requires i < WIDTH && j < WIDTH && i != j
    ensures Bit(SetBit(b, i, v), j) == Bit(b, j)
  {
    BitIsMasked(SetBit(b, i, v), j);
    BitIsMasked(b, j);
    MasksDiffer(i, j);
    hide Bit, Mask;
  }

  lemma ShiftedOne(i: nat)
    requires i < WIDTH
    ensures (1 as bv8) << i == Mask(i)
  {
    if i == 1 {} else if i == 2 {} else if i == 3 {} else if i == 4 {}
    else if i == 5 {} else if i == 6 {} else if i == 7 {}
  }

  // q is the buffer of a symbol of side n.
  ghost predicate Grid(q: seq<bv8>, n: int) {
    21 <= n <= 177 && |q| >= (n * n + 7) / 8 + 1 && q[0] as int == n
  }

  lemma GridSide(q: seq<bv8>, n: int)
    requires Grid(q, n)
    ensures 21 <= n <= 177 && |q| > 0 && q[0] as int == n
  {}

  predicate Inside(n: int, x: int, y: int) {
    0 <= x < n && 0 <= y < n
  }

  lemma IndexInside(n: int, x: int, y: int)
    requires Inside(n, x, y)
    ensures 0 <= y * n + x < n * n
    ensures 0 <= (y * n + x) / 8 < (n * n + 7) / 8
  {
    MulMono(n, 0, y);
    RowOrder(n, y, n);
  }

  // The colour of the module at (x, y): true is dark.
  function Module(q: seq<bv8>, n: int, x: int, y: int): bool
    requires Grid(q, n) && Inside(n, x, y)
  {
    IndexInside(n, x, y);
    var index := y * n + x;
    Bit(q[index / 8 + 1], index % 8)
  }

  method GetModuleBounded(q: array<bv8>, x: int, y: int, ghost n: int) returns (dark: bool)
    requires Grid(q[..], n) && Inside(n, x, y)
    ensures dark == Module(q[..], n, x, y)
  {
    hide Bit;
    var size := q[0] as int;
    var index := y * size + x;
    IndexInside(n, x, y);
    ShrIsShift(q[index / 8 + 1], index % 8);
    BitIsShr(q[index / 8 + 1], index % 8);
    dark := (q[index / 8 + 1] >> (index % 8)) & 1 != 0;
  }

  lemma BitIsShr(b: bv8, i: nat)
    requires i < WIDTH
    ensures Bit(b, i) <==> Shr(b, i) & 1 != 0
  {
    var v := Shr(b, i);
    assert v & 1 == 0 || v & 1 == 1;
  }

  // Only the module at (x, y) changes.
  ghost predicate SetAt(q: seq<bv8>, q': seq<bv8>, n: int, x: int, y: int, dark: bool)
    requires Grid(q, n) && Inside(n, x, y)
  {
    && Grid(q', n) && |q'| == |q|
    && forall u, v :: Inside(n, u, v) ==>
      Module(q', n, u, v) == if u == x && v == y then dark else Module(q, n, u, v)
  }

  function WithModule(q: seq<bv8>, n: int, x: int, y: int, dark: bool): seq<bv8>
    requires Grid(q, n) && Inside(n, x, y)
  {
    IndexInside(n, x, y);
    var index := y * n + x;
    q[index / 8 + 1 := SetBit(q[index / 8 + 1], index % 8, dark)]
  }

  lemma WithModuleEffect(q: seq<bv8>, n: int, x: int, y: int, dark: bool)
    requires Grid(q, n) && Inside(n, x, y)
    ensures SetAt(q, WithModule(q, n, x, y, dark), n, x, y, dark)
  {
    hide Bit, SetBit;
    var q' := WithModule(q, n, x, y, dark);
    var index := y * n + x;
    IndexInside(n, x, y);
    forall u, v | Inside(n, u, v)
      ensures Module(q', n, u, v) == if u == x && v == y then dark else Module(q, n, u, v)
    {
      IndexInside(n, u, v);
      var other := v * n + u;
      if other == index {
        UniqueRow(n, v, u, y, x);
        SetBitSame(q[index / 8 + 1], index % 8, dark);
      } else if other / 8 == index / 8 {
        SetBitOther(q[index / 8 + 1], index % 8, dark, other % 8);
      }
    }
  }

  method WriteBit(b: bv8, i: nat, dark: bool) returns (r: bv8)
    requires i < WIDTH
    ensures r == SetBit(b, i, dark)
  {
    ShiftedOne(i);
    hide Mask;
    var m: bv8 := 1 << i;
    if dark {
      r := b | m;
    } else {
      r := b & (m ^ 0xFF);
    }
  }

  method SetModuleBounded(q: array<bv8>, x: int, y: int, dark: bool, ghost n: int)
    requires Grid(q[..], n) && Inside(n, x, y)
    modifies q
    ensures SetAt(old(q[..]), q[..], n, x, y, dark)
  {
    hide Bit, Module, SetAt, SetBit, Mask;
    var size := q[0] as int;
    var index := y * size + x;
    IndexInside(n, x, y);
    var byteIndex := index / 8 + 1;
    var bitIndex := index % 8;
    q[byteIndex] := WriteBit(q[byteIndex], bitIndex, dark);
    assert q[..] == WithModule(old(q[..]), n, x, y, dark);
    WithModuleEffect(old(q[..]), n, x, y, dark);
  }
}
