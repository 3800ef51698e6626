// Data masking, format information and the choice of the mask (ISO/IEC 18004:2015 sections 7.8 and 7.9).
module QrMasking {
  import opened QrGrid
  import opened QrPlacement
  import opened QrPenalty

  type MaskNumber = m: int | 0 <= m < 8
  type Level = e: int | 0 <= e < 4

  // Whether mask m inverts the module at (x, y).
  predicate Inverts(m: MaskNumber, x: int, y: int) {
    match m
    case 0 => (x + y) % 2 == 0
    case 1 => y % 2 == 0
    case 2 => x % 3 == 0
    case 3 => (x + y) % 3 == 0
    case 4 => (x / 3 + y / 2) % 2 == 0
    case 5 => x * y % 2 + x * y % 3 == 0
    case 6 => (x * y % 2 + x * y % 3) % 2 == 0
    case _ => ((x + y) % 2 + x * y % 3) % 2 == 0
  }

  // The colour of a module after masking; fm is dark at the function modules.
  predicate MaskedModule(fm: seq<bv8>, q: seq<bv8>, n: int, m: MaskNumber, x: int, y: int)
    requires Grid(fm, n) && Grid(q, n) && Inside(n, x, y)
  {
    Module(q, n, x, y) != (!Module(fm, n, x, y) && Inverts(m, x, y))
  }

  ghost predicate Before(x: int, y: int, u: int, v: int) {
    v < y || (v == y && u < x)
  }

  // Rows above y, and row y left of x, are masked; the rest is as in q0.
  ghost predicate MaskedBefore(fm: seq<bv8>, q0: seq<bv8>, q: seq<bv8>, n: int, m: MaskNumber, x: int, y: int) {
    && Grid(fm, n) && Grid(q0, n) && Grid(q, n) && |q| == |q0|
    && forall u, v :: Inside(n, u, v) ==>
      Module(q, n, u, v) == if Before(x, y, u, v) then MaskedModule(fm, q0, n, m, u, v) else Module(q0, n, u, v)
  }

  method MaskCell(fm: array<bv8>, q: array<bv8>, m: MaskNumber, x: int, y: int, ghost n: int, ghost q0: seq<bv8>)
    requires fm != q && Inside(n, x, y)
    requires MaskedBefore(fm[..], q0, q[..], n, m, x, y)
    modifies q
    ensures MaskedBefore(fm[..], q0, q[..], n, m, x + 1, y)
  {
    hide Module, Inverts, Grid;
    var isFunction := GetModuleBounded(fm, x, y, n);
    if !isFunction {
      var invert := Inverts(m, x, y);
      var val := GetModuleBounded(q, x, y, n);
      SetModuleBounded(q, x, y, val != invert, n);
    }
  }

  method ApplyMask(fm: array<bv8>, q: array<bv8>, m: MaskNumber, ghost n: int)
    requires fm != q && Grid(fm[..], n) && Grid(q[..], n)
    modifies q
    ensures MaskedBefore(fm[..], old(q[..]), q[..], n, m, 0, n)
  {
    hide MaskedBefore, Module, Inverts;
    ghost var q0 := q[..];
    var size := q[0] as int;
    assert MaskedBefore(fm[..], q0, q[..], n, m, 0, 0) by { NothingMasked(fm[..], q0, n, m); }
    var y := 0;
    while y < size
      invariant 0 <= y <= size
      invariant MaskedBefore(fm[..], q0, q[..], n, m, 0, y)
    {
      var x := 0;
      while x < size
        invariant 0 <= x <= size
        invariant MaskedBefore(fm[..], q0, q[..], n, m, x, y)
      {
        MaskCell(fm, q, m, x, y, n, q0);
        x := x + 1;
      }
      NextRow(fm[..], q0, q[..], n, m, y);
      y := y + 1;
    }
  }

  lemma NothingMasked(fm: seq<bv8>, q: seq<bv8>, n: int, m: MaskNumber)
    requires Grid(fm, n) && Grid(q, n)
    ensures MaskedBefore(fm, q, q, n, m, 0, 0)
  {
    hide Module, Grid, MaskedModule;
  }

  lemma NextRow(fm: seq<bv8>, q0: seq<bv8>, q: seq<bv8>, n: int, m: MaskNumber, y: int)
    requires MaskedBefore(fm, q0, q, n, m, n, y)
    ensures MaskedBefore(fm, q0, q, n, m, 0, y + 1)
  {
    hide Module, Grid, MaskedModule;
  }

  // ---- format information ----

  const FORMAT_TABLE: seq<bv16> := [1, 0, 3, 2]

  const BCH_STEPS: nat := 10

  function BchStep(rem: bv16): bv16 {
    (rem << 1) ^ ((rem >> 9) * 0x537)
  }

  function BchRemainder(data: bv16, steps: nat): bv16 {
    if steps == 0 then data else BchStep(BchRemainder(data, steps - 1))
  }

  function LevelBits(e: Level): bv16 {
    match e
    case 0 => 1 case 1 => 0 case 2 => 3 case _ => 2
  }

  function MaskBits(m: MaskNumber): bv16 {
    match m
    case 0 => 0 case 1 => 1 case 2 => 2 case 3 => 3 case 4 => 4 case 5 => 5 case 6 => 6 case _ => 7
  }

  function FormatData(e: Level, m: MaskNumber): bv16 {
    (LevelBits(e) << 3) | MaskBits(m)
  }

  lemma FormatDataIs(e: Level, m: MaskNumber)
    ensures (FORMAT_TABLE[e] << 3) | (m as bv16) == FormatData(e, m)
  {
    TableIs(e);
    MaskIs(m);
  }

  lemma TableIs(e: Level)
    ensures FORMAT_TABLE[e] == LevelBits(e)
  {}

  lemma MaskIs(m: MaskNumber)
    ensures m as bv16 == MaskBits(m)
  {
    if m == 0 {} else if m == 1 {} else if m == 2 {} else if m == 3 {}
    else if m == 4 {} else if m == 5 {} else if m == 6 {} else { assert m == 7; }
  }

  function FormatBits(e: Level, m: MaskNumber): bv16 {
    var data := FormatData(e, m);
    ((data << 10) | BchRemainder(data, BCH_STEPS)) ^ 0x5412
  }

  function Bit16(b: bv16, i: nat): bool
    requires i < 15
  {
    (b >> i) & 1 != 0
  }

  // The drawing order of the format modules: 0..14 for the first copy, 15..29 for the second,
  // 30 for the module that is always dark, -1 for every other module.
  function FormatOrder(n: int, x: int, y: int): int {
    if x == 8 && 0 <= y <= 5 then y
    else if x == 8 && y == 7 then 6
    else if x == 8 && y == 8 then 7
    else if x == 7 && y == 8 then 8
    else if y == 8 && 0 <= x <= 5 then 14 - x
    else if y == 8 && n - 8 <= x < n then 15 + (n - 1 - x)
    else if x == 8 && n - 7 <= y < n then y - n + 30
    else if x == 8 && y == n - 8 then 30
    else -1
  }

  function FormatCell(n: int, k: int): (int, int) {
    if k <= 5 then (8, k)
    else if k == 6 then (8, 7)
    else if k == 7 then (8, 8)
    else if k == 8 then (7, 8)
    else if k < 15 then (14 - k, 8)
    else if k < 23 then (n - 1 - (k - 15), 8)
    else if k < 30 then (8, n - 15 + (k - 15))
    else (8, n - 8)
  }

  // The colour of the format module with drawing order k: each copy carries bits 0 to 14.
  function FormatModule(bits: bv16, k: int): bool
    requires 0 <= k <= 30
  {
    k == 30 || Bit16(bits, k % 15)
  }

  lemma FormatOrderExact(n: int, k: int)
    requires n >= 21 && 0 <= k <= 30
    ensures var (x, y) := FormatCell(n, k); Inside(n, x, y) && FormatOrder(n, x, y) == k
    ensures forall x, y :: FormatOrder(n, x, y) == k ==> (x, y) == FormatCell(n, k)
  {}

  lemma FormatOrderRange(n: int)
    ensures forall x, y :: -1 <= FormatOrder(n, x, y) <= 30
  {}

  ghost predicate FormatBefore(q0: seq<bv8>, q: seq<bv8>, n: int, bits: bv16, k: int) {
    && Grid(q0, n) && Grid(q, n) && |q| == |q0|
    && forall x, y :: Inside(n, x, y) ==>
      Module(q, n, x, y) ==
        var o := FormatOrder(n, x, y);
        if 0 <= o < k && o <= 30 then FormatModule(bits, o) else Module(q0, n, x, y)
  }

  method DrawFormatCell(bits: bv16, x: int, y: int, i: nat, q: array<bv8>, ghost n: int, ghost q0: seq<bv8>,
      ghost k: int)
    requires i < 15 && 0 <= k < 30 && i == k % 15 && (x, y) == FormatCell(n, k)
    requires FormatBefore(q0, q[..], n, bits, k)
    modifies q
    ensures FormatBefore(q0, q[..], n, bits, k + 1)
  {
    hide Module, FormatOrder, FormatCell, Bit16, Grid;
    GridSide(q0, n);
    FormatOrderExact(n, k);
    SetModuleBounded(q, x, y, Bit16(bits, i), n);
  }

  lemma NoFormatYet(q: seq<bv8>, n: int, bits: bv16)
    requires Grid(q, n)
    ensures FormatBefore(q, q, n, bits, 0)
  {
    hide Module, FormatOrder, Grid;
  }

  method DrawFormatBits(e: Level, m: MaskNumber, q: array<bv8>, ghost n: int)
    requires Grid(q[..], n)
    modifies q
    ensures FormatBefore(old(q[..]), q[..], n, FormatBits(e, m), 31)
  {
    hide FormatBefore, FormatBits, BchRemainder, Grid;
    ghost var q0 := q[..];
    GridSide(q0, n);
    var bits := ComputeFormatBits(e, m);
    NoFormatYet(q0, n, bits);
    var i := 0;
    while i <= 5
      invariant 0 <= i <= 6
      invariant FormatBefore(q0, q[..], n, bits, i)
    {
      DrawFormatCell(bits, 8, i, i, q, n, q0, i);
      i := i + 1;
    }
    DrawFormatCell(bits, 8, 7, 6, q, n, q0, 6);
    DrawFormatCell(bits, 8, 8, 7, q, n, q0, 7);
    DrawFormatCell(bits, 7, 8, 8, q, n, q0, 8);
    i := 9;
    while i < 15
      invariant 9 <= i <= 15
      invariant FormatBefore(q0, q[..], n, bits, i)
    {
      DrawFormatCell(bits, 14 - i, 8, i, q, n, q0, i);
      i := i + 1;
    }
    DrawSecondCopy(bits, q, n, q0);
  }

  method DrawSecondCopy(bits: bv16, q: array<bv8>, ghost n: int, ghost q0: seq<bv8>)
    requires FormatBefore(q0, q[..], n, bits, 15)
    modifies q
    ensures FormatBefore(q0, q[..], n, bits, 31)
  {
    assert Grid(q[..], n);
    hide FormatBefore, Grid;
    GridSide(q[..], n);
    var qrsize := q[0] as int;
    var i := 0;
    while i < 8
      invariant 0 <= i <= 8
      invariant FormatBefore(q0, q[..], n, bits, 15 + i)
    {
      DrawFormatCell(bits, qrsize - 1 - i, 8, i, q, n, q0, 15 + i);
      i := i + 1;
    }
    i := 8;
    while i < 15
      invariant 8 <= i <= 15
      invariant FormatBefore(q0, q[..], n, bits, 15 + i)
    {
      DrawFormatCell(bits, 8, qrsize - 15 + i, i, q, n, q0, 15 + i);
      i := i + 1;
    }
    DrawDarkModule(bits, qrsize, q, n, q0);
  }

  method DrawDarkModule(bits: bv16, qrsize: int, q: array<bv8>, ghost n: int, ghost q0: seq<bv8>)
    requires qrsize == n && FormatBefore(q0, q[..], n, bits, 30)
    modifies q
    ensures FormatBefore(q0, q[..], n, bits, 31)
  {
    hide Module, FormatOrder, FormatCell, Bit16, Grid;
    GridSide(q0, n);
    FormatOrderExact(n, 30);
    assert FormatCell(n, 30) == (8, n - 8) by { DarkCell(n); }
    SetModuleBounded(q, 8, qrsize - 8, true, n);
  }

  lemma DarkCell(n: int)
    ensures FormatCell(n, 30) == (8, n - 8)
  {}

  method ComputeFormatBits(e: Level, m: MaskNumber) returns (bits: bv16)
    ensures bits == FormatBits(e, m)
  {
    hide BchStep, FormatData;
    FormatDataIs(e, m);
    var data := (FORMAT_TABLE[e] << 3) | (m as bv16);
    var rem := data;
    var i := 0;
    while i < BCH_STEPS
      invariant 0 <= i <= BCH_STEPS
      invariant rem == BchRemainder(data, i)
    {
      BchStepIs(rem);
      rem := (rem << 1) ^ ((rem >> 9) * 0x537);
      i := i + 1;
    }
    bits := ((data << 10) | rem) ^ 0x5412;
  }

  lemma BchStepIs(rem: bv16)
    ensures (rem << 1) ^ ((rem >> 9) * 0x537) == BchStep(rem)
  {}

  lemma {:induction false} BchRemainderSmall(data: bv16, steps: nat)
    requires data < 0x400
    ensures BchRemainder(data, steps) < 0x400
  {
    if steps > 0 {
      BchRemainderSmall(data, steps - 1);
      BchStepSmall(BchRemainder(data, steps - 1));
      hide BchStep;
    }
  }

  lemma BchStepSmall(rem: bv16)
    requires rem < 0x400
    ensures BchStep(rem) < 0x400
  {
    assert rem >> 9 == 0 || rem >> 9 == 1;
  }

  // The level and the mask can be read back from the format word, which has 15 bits.
  lemma FormatDataRecovered(e: Level, m: MaskNumber)
    ensures (FormatBits(e, m) ^ 0x5412) >> 10 == FormatData(e, m)
    ensures FormatBits(e, m) < 0x8000
    ensures forall e': Level, m': MaskNumber :: FormatData(e', m') == FormatData(e, m) ==> e' == e && m' == m
  {
    FormatDataUnique(e, m);
    hide BchRemainder, FormatData;
    var data := FormatData(e, m);
    BchRemainderSmall(data, BCH_STEPS);
    var rem := BchRemainder(data, BCH_STEPS);
    assert (((data << 10) | rem) ^ 0x5412) ^ 0x5412 == (data << 10) | rem;
    assert ((data << 10) | rem) >> 10 == data;
  }

  lemma FormatDataUnique(e: Level, m: MaskNumber)
    ensures FormatData(e, m) < 32
    ensures forall e': Level, m': MaskNumber :: FormatData(e', m') == FormatData(e, m) ==> e' == e && m' == m
  {
  }

  // ---- the finished symbol ----

  // The module at (x, y) of the symbol that carries mask m and level e over the unmasked grid base.
  predicate SymbolModule(fm: seq<bv8>, base: seq<bv8>, n: int, e: Level, m: MaskNumber, x: int, y: int)
    requires Grid(fm, n) && Grid(base, n) && Inside(n, x, y)
  {
    FormatOrderRange(n);
    var o := FormatOrder(n, x, y);
    if o >= 0 then FormatModule(FormatBits(e, m), o) else MaskedModule(fm, base, n, m, x, y)
  }

  function SymbolMatrix(fm: seq<bv8>, base: seq<bv8>, n: int, e: Level, m: MaskNumber): Matrix
    requires Grid(fm, n) && Grid(base, n)
  {
    seq(n, y requires 0 <= y < n => seq(n, x requires 0 <= x < n => SymbolModule(fm, base, n, e, m, x, y)))
  }

  // q is base outside the format modules.
  ghost predicate BaseRestored(base: seq<bv8>, q: seq<bv8>, n: int) {
    && Grid(base, n) && Grid(q, n) && |q| == |base|
    && forall x, y :: Inside(n, x, y) && FormatOrder(n, x, y) < 0 ==> Module(q, n, x, y) == Module(base, n, x, y)
  }

  ghost predicate ShowsSymbol(fm: seq<bv8>, base: seq<bv8>, q: seq<bv8>, n: int, e: Level, m: MaskNumber) {
    && Grid(fm, n) && Grid(base, n) && Grid(q, n) && |q| == |base|
    && forall x, y :: Inside(n, x, y) ==> Module(q, n, x, y) == SymbolModule(fm, base, n, e, m, x, y)
  }

  lemma MaskAndFormat(fm: seq<bv8>, base: seq<bv8>, q0: seq<bv8>, q1: seq<bv8>, q2: seq<bv8>, n: int, e: Level,
      m: MaskNumber)
    requires Grid(fm, n) && BaseRestored(base, q0, n)
    requires MaskedBefore(fm, q0, q1, n, m, 0, n)
    requires FormatBefore(q1, q2, n, FormatBits(e, m), 31)
    ensures ShowsSymbol(fm, base, q2, n, e, m)
  {
    hide Module, Inverts, FormatBits, FormatOrder, FormatModule, Grid;
    FormatOrderRange(n);
  }

  // Masking a second time undoes the mask.
  lemma UnmaskRestores(fm: seq<bv8>, base: seq<bv8>, q2: seq<bv8>, q3: seq<bv8>, n: int, e: Level, m: MaskNumber)
    requires ShowsSymbol(fm, base, q2, n, e, m)
    requires MaskedBefore(fm, q2, q3, n, m, 0, n)
    ensures BaseRestored(base, q3, n)
  {
    hide Module, Inverts, FormatBits, FormatOrder, FormatModule, Grid;
    FormatOrderRange(n);
  }

  lemma ShownMatrix(fm: seq<bv8>, base: seq<bv8>, q: seq<bv8>, n: int, e: Level, m: MaskNumber)
    requires ShowsSymbol(fm, base, q, n, e, m)
    ensures Grid(fm, n) && Grid(base, n) && Grid(q, n)
    ensures MatrixOf(q, n) == SymbolMatrix(fm, base, n, e, m)
  {
    hide Module, SymbolModule, Grid;
    GridSide(q, n);
    var a, b := MatrixOf(q, n), SymbolMatrix(fm, base, n, e, m);
    forall y | 0 <= y < n
      ensures a[y] == b[y]
    {
      forall x | 0 <= x < n ensures a[y][x] == b[y][x] { assert Inside(n, x, y); }
    }
    assert |a| == n == |b|;
    assert a == b;
  }

  method ApplyAndScore(fm: array<bv8>, q: array<bv8>, e: Level, m: MaskNumber, ghost n: int, ghost base: seq<bv8>)
    requires fm != q && Grid(fm[..], n) && BaseRestored(base, q[..], n)
    modifies q
    ensures ShowsSymbol(fm[..], base, q[..], n, e, m)
  {
    hide MaskedBefore, FormatBefore, FormatBits, Module, FormatOrder;
    ghost var q0 := q[..];
    ApplyMask(fm, q, m, n);
    ghost var q1 := q[..];
    assert Grid(q1, n) by { MaskedGrid(fm[..], q0, q1, n, m); }
    DrawFormatBits(e, m, q, n);
    MaskAndFormat(fm[..], base, q0, q1, q[..], n, e, m);
  }

  lemma MaskedGrid(fm: seq<bv8>, q0: seq<bv8>, q: seq<bv8>, n: int, m: MaskNumber)
    requires MaskedBefore(fm, q0, q, n, m, 0, n)
    ensures Grid(q, n)
  {}

  lemma BaseItself(q: seq<bv8>, n: int)
    requires Grid(q, n)
    ensures BaseRestored(q, q, n)
  {
    hide Module, FormatOrder, Grid;
  }

  const LONG_MAX: int := 0x7FFF_FFFF

  // The penalty of the symbol with mask m.
  ghost function Score(fm: seq<bv8>, base: seq<bv8>, n: int, e: Level, m: MaskNumber): int
    requires Grid(fm, n) && Grid(base, n)
  {
    PenaltyScore(SymbolMatrix(fm, base, n, e, m), n)
  }

  // The first mask of least penalty.
  ghost predicate Least(fm: seq<bv8>, base: seq<bv8>, n: int, e: Level, m: MaskNumber)
    requires Grid(fm, n) && Grid(base, n)
  {
    forall i: MaskNumber ::
      && Score(fm, base, n, e, m) <= Score(fm, base, n, e, i)
      && (i < m ==> Score(fm, base, n, e, m) < Score(fm, base, n, e, i))
  }

  // mask == -1 asks for the automatic choice.
  method ChooseMask(fm: array<bv8>, q: array<bv8>, e: Level, mask: int, ghost n: int) returns (chosen: MaskNumber)
    requires fm != q && Grid(fm[..], n) && Grid(q[..], n) && n % 2 == 1 && -1 <= mask <= 7
    modifies q
    ensures mask >= 0 ==> chosen == mask
    ensures mask == -1 ==> Least(fm[..], old(q[..]), n, e, chosen)
    ensures ShowsSymbol(fm[..], old(q[..]), q[..], n, e, chosen)
    ensures MatrixOf(q[..], n) == SymbolMatrix(fm[..], old(q[..]), n, e, chosen)
  {
    hide ShowsSymbol, BaseRestored, MatrixOf, SymbolMatrix, PenaltyScore;
    ghost var base := q[..];
    BaseItself(base, n);
    var best := mask;
    if mask == -1 {
      var minPenalty := LONG_MAX;
      var i := 0;
      while i < 8
        invariant 0 <= i <= 8
        invariant BaseRestored(base, q[..], n)
        invariant i == 0 ==> best == -1 && minPenalty == LONG_MAX
        invariant i > 0 ==> 0 <= best < i && minPenalty == Score(fm[..], base, n, e, best)
        invariant forall k: MaskNumber :: k < i ==> minPenalty <= Score(fm[..], base, n, e, k)
        invariant forall k: MaskNumber :: k < best ==> minPenalty < Score(fm[..], base, n, e, k)
      {
        ApplyAndScore(fm, q, e, i, n, base);
        ShownMatrix(fm[..], base, q[..], n, e, i);
        var p := GetPenaltyScore(q, n);
        if p < minPenalty {
          best := i;
          minPenalty := p;
        }
        ghost var q2 := q[..];
        ApplyMask(fm, q, i, n);
        UnmaskRestores(fm[..], base, q2, q[..], n, e, i);
        i := i + 1;
      }
    }
    chosen := best;
    ApplyAndScore(fm, q, e, chosen, n, base);
    ShownMatrix(fm[..], base, q[..], n, e, chosen);
  }

  // Unmasking the finished symbol and reading it along the scan returns exactly the codewords.
  // q0 is the grid before drawing (dark at the function modules), qd the grid with the codewords,
  // base that grid with the function patterns drawn over its function modules.
  lemma FinishedSymbolReadsBack(q0: seq<bv8>, qd: seq<bv8>, base: seq<bv8>, q: seq<bv8>, fm: seq<bv8>, n: int,
                                data: seq<bv8>, e: Level, m: MaskNumber)
    requires Grid(q0, n) && Side(n) && Total(n) >= 0 && Drawn(q0, qd, n, data, Total(n), 8 * |data|)
    requires ShowsSymbol(fm, base, q, n, e, m)
    requires forall x, y :: Inside(n, x, y) ==> Module(fm, n, x, y) == Module(q0, n, x, y)
    requires forall x, y :: Inside(n, x, y) && FormatOrder(n, x, y) >= 0 ==> Module(q0, n, x, y)
    requires forall x, y :: Inside(n, x, y) && !Module(q0, n, x, y) ==> Module(base, n, x, y) == Module(qd, n, x, y)
    ensures var bits := ReadBits(q0, q, n, 8 * |data|);
      var free := FreeCells(q0, n, Total(n));
      forall k :: 0 <= k < 8 * |data| ==> (bits[k] != Inverts(m, free[k].0, free[k].1)) == DataBit(data, k)
  {
    hide Module, DataBit, FreeCells, Inverts, FormatBits, FormatOrder, Grid, RankOf;
    FreeCellsExact(q0, n, Total(n));
    var free := FreeCells(q0, n, Total(n));
    forall k | 0 <= k < 8 * |data|
      ensures (ReadBits(q0, q, n, 8 * |data|)[k] != Inverts(m, free[k].0, free[k].1)) == DataBit(data, k)
    {
      assert free[k] in free;
    }
  }
}
