// The zigzag placement of codewords (ISO/IEC 18004:2015 section 7.7.3).
module QrPlacement {
  import opened Arithmetic
  import opened GaloisField
  import opened QrGrid

  // Sides 21, 25, ..., 177.
  ghost predicate Side(n: int) {
    21 <= n <= 177 && n % 4 == 1
  }

  // The right column of the c-th pair of columns; column 6 belongs to no pair.
  function RightOf(n: int, c: int): int {
    if n - 1 - 2 * c > 6 then n - 1 - 2 * c else n - 2 - 2 * c
  }

  // The module reached in step j of row counter vert of column pair c.
  function CellAt(n: int, c: int, vert: int, j: int): (int, int) {
    var right := RightOf(n, c);
    (right - j, if (right + 1) / 2 % 2 == 0 then n - 1 - vert else vert)
  }

  // The place of a module in the scan.
  function PairOf(n: int, x: int): int {
    if x > 6 then (n - 1 - x) / 2 else (n - 2 - x) / 2
  }

  function VertOf(n: int, x: int, y: int): int {
    if (RightOf(n, PairOf(n, x)) + 1) / 2 % 2 == 0 then n - 1 - y else y
  }

  function StepOf(n: int, x: int): int {
    RightOf(n, PairOf(n, x)) - x
  }

  function Rank(n: int, c: int, vert: int, j: int): int {
    (c * n + vert) * 2 + j
  }

  function RankOf(n: int, x: int, y: int): int {
    Rank(n, PairOf(n, x), VertOf(n, x, y), StepOf(n, x))
  }

  function Pairs(n: int): int { (n - 1) / 2 }

  // The p-th module of the scan.
  function Cell(n: int, p: int): (int, int)
    requires n > 0
  {
    CellAt(n, p / 2 / n, p / 2 % n, p % 2)
  }

  function Total(n: int): int { n * (n - 1) }

  lemma CellOfRank(n: int, c: int, vert: int, j: int)
    requires Side(n) && 0 <= c && 0 <= vert < n && 0 <= j < 2
    ensures Rank(n, c, vert, j) >= 0
    ensures Cell(n, Rank(n, c, vert, j)) == CellAt(n, c, vert, j)
  {
    DivMod(n, c, vert);
    MulMono(n, 0, c);
    var k := c * n + vert;
    assert (k * 2 + j) / 2 == k && (k * 2 + j) % 2 == j;
  }

  lemma CellInside(n: int, c: int, vert: int, j: int)
    requires Side(n) && 0 <= c < Pairs(n) && 0 <= vert < n && 0 <= j < 2
    ensures var (x, y) := CellAt(n, c, vert, j);
      Inside(n, x, y) && x != 6 && PairOf(n, x) == c && VertOf(n, x, y) == vert && StepOf(n, x) == j
  {}

  lemma RankInside(n: int, x: int, y: int)
    requires Side(n) && Inside(n, x, y) && x != 6
    ensures 0 <= PairOf(n, x) < Pairs(n) && 0 <= VertOf(n, x, y) < n && 0 <= StepOf(n, x) < 2
    ensures CellAt(n, PairOf(n, x), VertOf(n, x, y), StepOf(n, x)) == (x, y)
  {}

  // The scan visits every module outside column 6 exactly once.
  lemma ScanIsBijection(n: int, p: int)
    requires Side(n) && 0 <= p < Total(n)
    ensures var (x, y) := Cell(n, p); Inside(n, x, y) && x != 6 && RankOf(n, x, y) == p
  {
    var k, j := p / 2, p % 2;
    DivRem(n, k);
    TotalIsPairs(n);
    QuotientBound(n, k, Pairs(n));
    CellInside(n, k / n, k % n, j);
  }

  lemma TotalIsPairs(n: int)
    requires Side(n)
    ensures Total(n) == Pairs(n) * n * 2
  {
    var h := Pairs(n);
    assert n - 1 == 2 * h;
    assert n * (2 * h) == h * n * 2;
  }

  lemma ScanReaches(n: int, x: int, y: int)
    requires Side(n) && Inside(n, x, y) && x != 6
    ensures 0 <= RankOf(n, x, y) < Total(n) && Cell(n, RankOf(n, x, y)) == (x, y)
  {
    hide Cell, CellAt, PairOf, VertOf, StepOf;
    RankInside(n, x, y);
    CellOfRank(n, PairOf(n, x), VertOf(n, x, y), StepOf(n, x));
    RowOrder(n, PairOf(n, x), Pairs(n));
    TotalIsPairs(n);
  }

  // ---- the codeword modules, in scan order ----

  // The modules of the scan below position p that are light in q0, the grid before drawing:
  // q0 is dark exactly at the function modules.
  ghost function FreeCells(q0: seq<bv8>, n: int, p: int): seq<(int, int)>
    requires Grid(q0, n) && Side(n) && 0 <= p <= Total(n)
    decreases p
  {
    if p == 0 then []
    else
      ScanIsBijection(n, p - 1);
      var (x, y) := Cell(n, p - 1);
      FreeCells(q0, n, p - 1) + if Module(q0, n, x, y) then [] else [(x, y)]
  }

  lemma FreeStep(q0: seq<bv8>, n: int, p: int)
    requires Grid(q0, n) && Side(n) && 0 <= p < Total(n)
    ensures Inside(n, Cell(n, p).0, Cell(n, p).1)
    ensures FreeCells(q0, n, p + 1)
      == FreeCells(q0, n, p) + if Module(q0, n, Cell(n, p).0, Cell(n, p).1) then [] else [Cell(n, p)]
  {
    hide Cell, Module;
    ScanIsBijection(n, p);
  }

  // A cell is listed exactly when it is a free module already passed by the scan.
  ghost predicate Listed(q0: seq<bv8>, n: int, p: int, x: int, y: int)
    requires Grid(q0, n)
  {
    Inside(n, x, y) && x != 6 && RankOf(n, x, y) < p && !Module(q0, n, x, y)
  }

  lemma {:induction false} FreeCellsExact(q0: seq<bv8>, n: int, p: int)
    requires Grid(q0, n) && Side(n) && 0 <= p <= Total(n)
    ensures forall c :: c in FreeCells(q0, n, p) <==> Listed(q0, n, p, c.0, c.1)
    decreases p
  {
    hide Cell, Module, RankOf;
    if p > 0 {
      var q := p - 1;
      FreeCellsExact(q0, n, q);
      FreeStep(q0, n, q);
      ScanIsBijection(n, q);
      hide FreeCells;
      forall x, y | Inside(n, x, y) && x != 6
        ensures RankOf(n, x, y) == q <==> (x, y) == Cell(n, q)
      {
        ScanReaches(n, x, y);
      }
    } else {
      forall x, y | Inside(n, x, y) && x != 6
        ensures RankOf(n, x, y) >= 0
      {
        ScanReaches(n, x, y);
      }
    }
  }

  lemma {:induction false} FreeCellsDistinct(q0: seq<bv8>, n: int, p: int)
    requires Grid(q0, n) && Side(n) && 0 <= p <= Total(n)
    ensures forall i, j :: 0 <= i < j < |FreeCells(q0, n, p)| ==> FreeCells(q0, n, p)[i] != FreeCells(q0, n, p)[j]
    decreases p
  {
    hide Cell, Module, RankOf, Side, Grid, Total;
    if p > 0 {
      FreeCellsDistinct(q0, n, p - 1);
      FreeStep(q0, n, p - 1);
      FreeCellsExact(q0, n, p - 1);
      ScanIsBijection(n, p - 1);
    }
  }

  lemma {:induction false} FreeCellsGrow(q0: seq<bv8>, n: int, p: int, r: int)
    requires Grid(q0, n) && Side(n) && 0 <= p <= r <= Total(n)
    ensures FreeCells(q0, n, p) <= FreeCells(q0, n, r)
    decreases r
  {
    hide *;
    if p < r {
      FreeCellsGrow(q0, n, p, r - 1);
      FreeStep(q0, n, r - 1);
    }
  }

  // ---- drawing ----

  // The k-th bit of the codewords, most significant bit of each byte first.
  function DataBit(data: seq<bv8>, k: int): bool
    requires 0 <= k < 8 * |data|
  {
    Bit(data[k / 8], 7 - k % 8)
  }

  // q is q0 with the first i free modules of the scan carrying the first i data bits.
  ghost predicate Drawn(q0: seq<bv8>, q: seq<bv8>, n: int, data: seq<bv8>, p: int, i: int)
    requires Grid(q0, n) && Side(n) && 0 <= p <= Total(n)
  {
    var free := FreeCells(q0, n, p);
    && Grid(q, n) && |q| == |q0|
    && 0 <= i <= |free| && i <= 8 * |data|
    && (forall k :: 0 <= k < i ==> Inside(n, free[k].0, free[k].1))
    && (forall k :: 0 <= k < i ==> Module(q, n, free[k].0, free[k].1) == DataBit(data, k))
    && forall x, y :: Inside(n, x, y) && (x, y) !in free[..i] ==> Module(q, n, x, y) == Module(q0, n, x, y)
  }

  lemma DrawnStart(q0: seq<bv8>, n: int, data: seq<bv8>)
    requires Grid(q0, n) && Side(n)
    ensures Total(n) >= 0 && Drawn(q0, q0, n, data, 0, 0) && FreeCells(q0, n, 0) == []
  {
    hide Module, DataBit;
    MulMono(n, 0, n - 1);
  }

  // The module at position p is still as it was in q0.
  lemma UntouchedYet(q0: seq<bv8>, q: seq<bv8>, n: int, data: seq<bv8>, p: int, i: int)
    requires Grid(q0, n) && Side(n) && 0 <= p < Total(n)
    requires Drawn(q0, q, n, data, p, i)
    ensures Inside(n, Cell(n, p).0, Cell(n, p).1)
    ensures Module(q, n, Cell(n, p).0, Cell(n, p).1) == Module(q0, n, Cell(n, p).0, Cell(n, p).1)
  {
    hide Cell, Module, DataBit, RankOf, FreeCells;
    ScanIsBijection(n, p);
    FreeCellsExact(q0, n, p);
  }

  // Skipping a module keeps the picture.
  lemma DrawnSkip(q0: seq<bv8>, q: seq<bv8>, n: int, data: seq<bv8>, p: int, i: int)
    requires Grid(q0, n) && Side(n) && 0 <= p < Total(n)
    requires Drawn(q0, q, n, data, p, i)
    ensures Drawn(q0, q, n, data, p + 1, i)
  {
    hide Cell, Module, DataBit, FreeCells, Grid, Side, Total, Inside;
    FreeCellsGrow(q0, n, p, p + 1);
    assert FreeCells(q0, n, p + 1)[..i] == FreeCells(q0, n, p)[..i];
  }

  lemma DrawnWrite(q0: seq<bv8>, q: seq<bv8>, q': seq<bv8>, n: int, data: seq<bv8>, p: int, i: int)
    requires Grid(q0, n) && Side(n) && 0 <= p < Total(n)
    requires Drawn(q0, q, n, data, p, i) && i == |FreeCells(q0, n, p)| && i < 8 * |data|
    requires Inside(n, Cell(n, p).0, Cell(n, p).1)
    requires !Module(q0, n, Cell(n, p).0, Cell(n, p).1)
    requires SetAt(q, q', n, Cell(n, p).0, Cell(n, p).1, DataBit(data, i))
    ensures Drawn(q0, q', n, data, p + 1, i + 1)
  {
    hide Cell, Module, DataBit, FreeCells, Grid, Total, Inside, RankOf;
    FreeStep(q0, n, p);
    NotListedYet(q0, n, p);
    var free, free' := FreeCells(q0, n, p), FreeCells(q0, n, p + 1);
    assert free' == free + [Cell(n, p)];
    assert free'[..i + 1] == free';
    assert free[..i] == free;
  }

  lemma NotListedYet(q0: seq<bv8>, n: int, p: int)
    requires Grid(q0, n) && Side(n) && 0 <= p < Total(n)
    ensures Cell(n, p) !in FreeCells(q0, n, p)
  {
    hide Cell, Module, RankOf, FreeCells;
    ScanIsBijection(n, p);
    FreeCellsExact(q0, n, p);
  }

  function Min(a: int, b: int): int { if a < b then a else b }

  method DrawCell(data: array<bv8>, dataLen: nat, q: array<bv8>, x: int, y: int, i: nat,
                  ghost n: int, ghost q0: seq<bv8>, ghost p: int) returns (i': nat)
    requires data != q && dataLen <= data.Length
    requires Grid(q0, n) && Side(n) && 0 <= p < Total(n) && (x, y) == Cell(n, p)
    requires Drawn(q0, q[..], n, data[..dataLen], p, i)
    requires i == Min(|FreeCells(q0, n, p)|, dataLen * 8)
    modifies q
    ensures Drawn(q0, q[..], n, data[..dataLen], p + 1, i')
    ensures i' == Min(|FreeCells(q0, n, p + 1)|, dataLen * 8)
  {
    hide *;
    i' := i;
    DrawnGrid(q0, q[..], n, data[..dataLen], p, i);
    UntouchedYet(q0, q[..], n, data[..dataLen], p, i);
    FreeStep(q0, n, p);
    MinFacts(|FreeCells(q0, n, p)|, |FreeCells(q0, n, p + 1)|, dataLen * 8);
    var function_ := GetModuleBounded(q, x, y, n);
    if !function_ && i < dataLen * 8 {
      DataBitByShift(data[..dataLen], i);
      var dark := (data[i / 8] >> (7 - i % 8)) & 1 != 0;
      ghost var before := q[..];
      SetModuleBounded(q, x, y, dark, n);
      DrawnWrite(q0, before, q[..], n, data[..dataLen], p, i);
      i' := i + 1;
    } else {
      DrawnSkip(q0, q[..], n, data[..dataLen], p, i);
    }
  }

  lemma DrawnGrid(q0: seq<bv8>, q: seq<bv8>, n: int, data: seq<bv8>, p: int, i: int)
    requires Grid(q0, n) && Side(n) && 0 <= p <= Total(n) && Drawn(q0, q, n, data, p, i)
    ensures Grid(q, n) && i <= 8 * |data|
  {}

  lemma MinFacts(f: int, f': int, m: int)
    requires f <= f' <= f + 1
    ensures Min(f, m) < m ==> Min(f, m) == f && Min(f + 1, m) == f + 1
    ensures Min(f, m) >= m ==> Min(f', m) == m == Min(f, m)
  {}

  lemma DataBitByShift(data: seq<bv8>, k: int)
    requires 0 <= k < 8 * |data|
    ensures 0 <= k / 8 < |data| && 0 <= 7 - k % 8 < 8
    ensures DataBit(data, k) <==> (data[k / 8] >> (7 - k % 8)) & 1 != 0
  {
    hide Bit;
    ShrIsShift(data[k / 8], 7 - k % 8);
    BitIsShr(data[k / 8], 7 - k % 8);
  }

  // After p positions of the scan, i bits of the first dataLen codewords are drawn: all that found room.
  ghost predicate Progress(q0: seq<bv8>, q: seq<bv8>, n: int, data: seq<bv8>, p: int, i: int) {
    && Grid(q0, n) && Side(n) && 0 <= p <= Total(n)
    && Drawn(q0, q, n, data, p, i)
    && i == Min(|FreeCells(q0, n, p)|, |data| * 8)
  }

  method DrawAt(data: array<bv8>, dataLen: nat, q: array<bv8>, x: int, y: int, i: nat,
                ghost n: int, ghost q0: seq<bv8>, ghost p: int) returns (i': nat)
    requires data != q && dataLen <= data.Length
    requires Progress(q0, q[..], n, data[..dataLen], p, i)
    requires p < Total(n) && n > 0 && (x, y) == Cell(n, p)
    modifies q
    ensures Progress(q0, q[..], n, data[..dataLen], p + 1, i')
  {
    hide Drawn, FreeCells, Module, Cell, Grid, Side, Total;
    i' := DrawCell(data, dataLen, q, x, y, i, n, q0, p);
  }

  lemma RankSteps(n: int, c: int, vert: int)
    requires Side(n) && 0 <= c < Pairs(n) && 0 <= vert < n
    ensures Rank(n, c, vert, 1) == Rank(n, c, vert, 0) + 1
    ensures Rank(n, c, vert + 1, 0) == Rank(n, c, vert, 0) + 2
    ensures Rank(n, c, n, 0) == Rank(n, c + 1, 0, 0)
    ensures 0 <= Rank(n, c, vert, 0) && Rank(n, c, vert, 1) < Total(n)
    ensures Cell(n, Rank(n, c, vert, 0)) == CellAt(n, c, vert, 0)
    ensures Cell(n, Rank(n, c, vert, 1)) == CellAt(n, c, vert, 1)
  {
    hide Cell, CellAt;
    CellOfRank(n, c, vert, 0);
    CellOfRank(n, c, vert, 1);
    TotalIsPairs(n);
    RowOrder(n, c, Pairs(n));
    assert (c + 1) * n == c * n + n;
  }

  method DrawColumnPair(data: array<bv8>, dataLen: nat, q: array<bv8>, size: int, right: int, i0: nat,
                        ghost n: int, ghost q0: seq<bv8>, ghost c: int) returns (i: nat)
    requires data != q && dataLen <= data.Length
    requires size == n && Side(n) && 0 <= c < Pairs(n) && right == RightOf(n, c)
    requires Progress(q0, q[..], n, data[..dataLen], Rank(n, c, 0, 0), i0)
    modifies q
    ensures Progress(q0, q[..], n, data[..dataLen], Rank(n, c + 1, 0, 0), i)
  {
    hide Progress, Cell, Rank, RightOf, Total;
    i := i0;
    RankSteps(n, c, 0);
    var vert := 0;
    while vert < size
      invariant 0 <= vert <= size
      invariant Progress(q0, q[..], n, data[..dataLen], Rank(n, c, vert, 0), i)
    {
      RankSteps(n, c, vert);
      var upward := (right + 1) / 2 % 2 == 0;
      var y := if upward then size - 1 - vert else vert;
      i := DrawAt(data, dataLen, q, right, y, i, n, q0, Rank(n, c, vert, 0));
      i := DrawAt(data, dataLen, q, right - 1, y, i, n, q0, Rank(n, c, vert, 1));
      vert := vert + 1;
    }
  }

  lemma ProgressStart(q0: seq<bv8>, n: int, data: seq<bv8>)
    requires Grid(q0, n) && Side(n)
    ensures Progress(q0, q0, n, data, Rank(n, 0, 0, 0), 0)
    ensures Total(n) == Rank(n, Pairs(n), 0, 0) >= 0
    ensures |q0| > 0 && q0[0] as int == n
  {
    hide Drawn, FreeCells;
    DrawnStart(q0, n, data);
    TotalIsPairs(n);
  }

  // The source's loop variable before the c-th column pair.
  function RightAt(n: int, c: int): int {
    if c == Pairs(n) then -1 else if n - 1 - 2 * c == 6 then 6 else RightOf(n, c)
  }

  lemma RightSteps(n: int, c: int)
    requires Side(n) && 0 <= c && (c == 0 || c <= Pairs(n))
    ensures Pairs(n) >= 0 && RightAt(n, 0) == n - 1
    ensures RightAt(n, c) >= 1 <==> c < Pairs(n)
    ensures c < Pairs(n) ==> RightOf(n, c) == if RightAt(n, c) == 6 then 5 else RightAt(n, c)
    ensures c < Pairs(n) ==> RightOf(n, c) - 2 == RightAt(n, c + 1)
  {}

  // The zigzag scan. With room for every bit, the assertion at the end of the source's loop holds.
  method DrawCodewords(data: array<bv8>, dataLen: nat, q: array<bv8>, ghost n: int)
    requires data != q && dataLen <= data.Length
    requires Grid(q[..], n) && Side(n)
    requires Total(n) >= 0 && dataLen * 8 <= |FreeCells(q[..], n, Total(n))|
    modifies q
    ensures Drawn(old(q[..]), q[..], n, data[..dataLen], Total(n), dataLen * 8)
  {
    hide *;
    ghost var q0 := q[..];
    ProgressStart(q0, n, data[..dataLen]);
    RightSteps(n, 0);
    var size := q[0] as int;
    var i := 0;
    var right := size - 1;
    ghost var c := 0;
    while right >= 1
      invariant 0 <= c <= Pairs(n) && right == RightAt(n, c)
      invariant Progress(q0, q[..], n, data[..dataLen], Rank(n, c, 0, 0), i)
      decreases Pairs(n) - c
    {
      RightSteps(n, c);
      if right == 6 {
        right := 5;
      }
      i := DrawColumnPair(data, dataLen, q, size, right, i, n, q0, c);
      right := right - 2;
      c := c + 1;
    }
    RightSteps(n, c);
    ProgressEnd(q0, q[..], n, data[..dataLen], i);
    assert i == dataLen * 8;
  }

  lemma ProgressEnd(q0: seq<bv8>, q: seq<bv8>, n: int, data: seq<bv8>, i: int)
    requires Progress(q0, q, n, data, Total(n), i)
    requires |data| * 8 <= |FreeCells(q0, n, Total(n))|
    ensures i == |data| * 8 && Drawn(q0, q, n, data, Total(n), i)
  {
    hide Drawn, FreeCells;
  }

  // ---- reading ----

  // The bits found along the scan on the modules that are free in q0.
  ghost function ReadBits(q0: seq<bv8>, q: seq<bv8>, n: int, count: nat): (bits: seq<bool>)
    requires Grid(q0, n) && Grid(q, n) && Side(n)
    requires Total(n) >= 0 && count <= |FreeCells(q0, n, Total(n))|
    ensures |bits| == count
  {
    var free := FreeCells(q0, n, Total(n));
    seq(count, k requires 0 <= k < count =>
      FreeCellsExact(q0, n, Total(n)); assert free[k] in free; Module(q, n, free[k].0, free[k].1))
  }

  // Reading the symbol returns the codewords, bit by bit.
  lemma DrawnReadsBack(q0: seq<bv8>, q: seq<bv8>, n: int, data: seq<bv8>)
    requires Grid(q0, n) && Side(n) && Total(n) >= 0
    requires Drawn(q0, q, n, data, Total(n), 8 * |data|)
    ensures forall k :: 0 <= k < 8 * |data| ==> ReadBits(q0, q, n, 8 * |data|)[k] == DataBit(data, k)
  {
    hide Module, DataBit, FreeCells;
  }
}
