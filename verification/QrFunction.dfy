// The function modules of a symbol (ISO/IEC 18004:2015 section 6.3): where they are, and how many modules they leave.
module QrFunction {
  import opened GaloisField
  import opened Arithmetic
  import opened QrGrid
  import opened QrTables

  datatype Rect = Rect(left: int, top: int, width: nat, height: nat)

  predicate InRect(r: Rect, x: int, y: int) {
    r.left <= x < r.left + r.width && r.top <= y < r.top + r.height
  }

  predicate InAny(rects: seq<Rect>, x: int, y: int) {
    exists i :: 0 <= i < |rects| && InRect(rects[i], x, y)
  }

  function SideOf(v: Version): int {
    4 * v + 17
  }

  // ---- alignment patterns ----

  function NumAlign(v: Version): nat {
    if v == 1 then 0 else v / 7 + 2
  }

  function AlignStep(v: Version): nat
    requires v > 1
  {
    (v * 8 + NumAlign(v) * 3 + 5) / (NumAlign(v) * 4 - 4) * 2
  }

  // The i-th centre coordinate, in ascending order.
  function AlignPosition(v: Version, i: int): int
    requires 0 <= i < NumAlign(v)
  {
    if i == 0 then 6 else 4 * v + 10 - (NumAlign(v) - 1 - i) * AlignStep(v)
  }

  lemma StepRange(v: Version)
    requires v > 1
    ensures AlignStep(v) >= 12 && AlignStep(v) % 2 == 0 && (NumAlign(v) - 2) * AlignStep(v) <= 4 * v - 8
  {
    var a := NumAlign(v);
    var q := (v * 8 + a * 3 + 5) / (a * 4 - 4);
    Quotient(v * 8 + a * 3 + 5, a * 4 - 4);
    StepFor(v, a, q);
    EvenTwice(q);
  }

  lemma Quotient(x: int, d: int)
    requires d > 0
    ensures d * (x / d) <= x < d * (x / d) + d
  {
    DivRem(d, x);
  }

  lemma StepFor(v: int, a: int, q: int)
    requires 2 <= a <= 7 && 7 * (a - 2) <= v < 7 * (a - 1) && 2 <= v <= 40
    requires (a * 4 - 4) * q <= v * 8 + a * 3 + 5 < (a * 4 - 4) * q + (a * 4 - 4)
    ensures q >= 6 && (a - 2) * (q * 2) <= 4 * v - 8
  {
    if a == 2 {} else if a == 3 {} else if a == 4 {} else if a == 5 {} else if a == 6 {} else { assert a == 7; }
  }

  lemma EvenTwice(k: int)
    ensures (2 * k) % 2 == 0
  {}

  lemma EvenProduct(a: int, s: int)
    requires s % 2 == 0
    ensures (a * s) % 2 == 0
  {
    var h := s / 2;
    assert s == 2 * h;
    EvenTwice(a * h);
    assert a * s == 2 * (a * h);
  }

  // Every alignment pattern is inside the symbol.
  lemma AlignInside(v: Version, i: int)
    requires 0 <= i < NumAlign(v)
    ensures 6 <= AlignPosition(v, i) <= SideOf(v) - 7
  {
    hide AlignStep;
    if i > 0 {
      StepRange(v);
      MulMono(AlignStep(v), 0, NumAlign(v) - 1 - i);
      MulMono(AlignStep(v), NumAlign(v) - 1 - i, NumAlign(v) - 2);
    }
  }

  method GetAlignmentPatternPositions(v: Version) returns (positions: seq<int>)
    ensures |positions| == NumAlign(v) && forall i :: 0 <= i < |positions| ==> positions[i] == AlignPosition(v, i)
  {
    if v == 1 {
      return [];
    }
    var numAlign: int := v / 7 + 2;
    var step := (v * 8 + numAlign * 3 + 5) / (numAlign * 4 - 4) * 2;
    positions := [];
    var i, pos := numAlign - 1, 4 * v + 10;
    while i >= 1
      invariant 0 <= i <= numAlign - 1 && |positions| == numAlign - 1 - i
      invariant pos == 4 * v + 10 - (numAlign - 1 - i) * step
      invariant forall k :: 0 <= k < |positions| ==> positions[k] == AlignPosition(v, i + 1 + k)
    {
      positions := [pos] + positions;
      assert (numAlign - 1 - (i - 1)) * step == (numAlign - 1 - i) * step + step;
      i, pos := i - 1, pos - step;
    }
    positions := [6] + positions;
  }

  // Patterns on the three finder corners are left out.
  predicate Corner(a: nat, i: int, j: int) {
    (i == 0 && j == 0) || (i == 0 && j == a - 1) || (i == a - 1 && j == 0)
  }

  function AlignRect(v: Version, i: int, j: int): seq<Rect>
    requires 0 <= i < NumAlign(v) && 0 <= j < NumAlign(v)
  {
    if Corner(NumAlign(v), i, j) then [] else [Rect(AlignPosition(v, i) - 2, AlignPosition(v, j) - 2, 5, 5)]
  }

  // The first m patterns of row i.
  function AlignRow(v: Version, i: int, m: nat): seq<Rect>
    requires 0 <= i < NumAlign(v) && m <= NumAlign(v)
  {
    if m == 0 then [] else AlignRow(v, i, m - 1) + AlignRect(v, i, m - 1)
  }

  // The patterns of the first m rows.
  function AlignRects(v: Version, m: nat): seq<Rect>
    requires m <= NumAlign(v)
  {
    if m == 0 then [] else AlignRects(v, m - 1) + AlignRow(v, m - 1, NumAlign(v))
  }

  // ---- all function modules ----

  function FixedRects(n: int): seq<Rect>
    requires n > 0
  {
    [Rect(6, 0, 1, n), Rect(0, 6, n, 1), Rect(0, 0, 9, 9), Rect(n - 8, 0, 8, 9), Rect(0, n - 8, 9, 8)]
  }

  function VersionRects(v: Version): seq<Rect> {
    if v >= 7 then [Rect(SideOf(v) - 11, 0, 3, 6), Rect(0, SideOf(v) - 11, 6, 3)] else []
  }

  function FunctionRects(v: Version): seq<Rect> {
    FixedRects(SideOf(v)) + AlignRects(v, NumAlign(v)) + VersionRects(v)
  }

  ghost predicate IsFunction(v: Version, x: int, y: int) {
    InAny(FunctionRects(v), x, y)
  }

  // The dark modules are those of the rectangles.
  ghost predicate Painted(q: seq<bv8>, n: int, rects: seq<Rect>) {
    Grid(q, n) && forall x, y :: Inside(n, x, y) ==> (Module(q, n, x, y) <==> InAny(rects, x, y))
  }

  // The function modules, and no others, are dark.
  ghost predicate FunctionGrid(q: seq<bv8>, v: Version) {
    Painted(q, SideOf(v), FunctionRects(v))
  }

  lemma InOneMore(rects: seq<Rect>, more: seq<Rect>, x: int, y: int)
    ensures InAny(rects + more, x, y) <==> InAny(rects, x, y) || InAny(more, x, y)
  {
    var all := rects + more;
    if InAny(rects, x, y) {
      var i :| 0 <= i < |rects| && InRect(rects[i], x, y);
      assert all[i] == rects[i];
    }
    if InAny(more, x, y) {
      var i :| 0 <= i < |more| && InRect(more[i], x, y);
      assert all[|rects| + i] == more[i];
    }
  }

  lemma MemberOf(rects: seq<Rect>, i: nat, x: int, y: int)
    requires i < |rects| && InRect(rects[i], x, y)
    ensures InAny(rects, x, y)
  {}

  // ---- filling ----

  // The rows above dy, and row dy left of dx, of the rectangle are dark as well.
  ghost predicate FilledTo(q0: seq<bv8>, q: seq<bv8>, n: int, r: Rect, dx: int, dy: int) {
    && Grid(q0, n) && Grid(q, n) && |q| == |q0|
    && forall x, y :: Inside(n, x, y) ==>
      (Module(q, n, x, y) <==> Module(q0, n, x, y) || (InRect(r, x, y) && Before(r, dx, dy, x, y)))
  }

  predicate Before(r: Rect, dx: int, dy: int, x: int, y: int) {
    y - r.top < dy || (y - r.top == dy && x - r.left < dx)
  }

  method FillRectangle(left: int, top: int, width: nat, height: nat, q: array<bv8>, ghost n: int,
      ghost rects: seq<Rect>)
    requires Painted(q[..], n, rects) && 0 <= left && 0 <= top && left + width <= n && top + height <= n
    modifies q
    ensures Painted(q[..], n, rects + [Rect(left, top, width, height)])
  {
    hide Module, Grid, InRect, Before, FilledTo;
    ghost var q0, r := q[..], Rect(left, top, width, height);
    NothingFilled(q0, n, r);
    var dy := 0;
    while dy < height
      invariant 0 <= dy <= height && FilledTo(q0, q[..], n, r, 0, dy)
    {
      var dx := 0;
      while dx < width
        invariant 0 <= dx <= width && FilledTo(q0, q[..], n, r, dx, dy)
      {
        ghost var before := q[..];
        FilledGrid(q0, before, n, r, dx, dy);
        SetModuleBounded(q, left + dx, top + dy, true, n);
        FilledStep(q0, before, q[..], n, r, dx, dy);
        dx := dx + 1;
      }
      FilledRow(q0, q[..], n, r, dy);
      dy := dy + 1;
    }
    FilledAll(q0, q[..], n, r, rects);
  }

  lemma FilledGrid(q0: seq<bv8>, q: seq<bv8>, n: int, r: Rect, dx: int, dy: int)
    requires FilledTo(q0, q, n, r, dx, dy)
    ensures Grid(q, n)
  {}

  lemma NothingFilled(q: seq<bv8>, n: int, r: Rect)
    requires Grid(q, n)
    ensures FilledTo(q, q, n, r, 0, 0)
  {
    hide Module, Grid;
  }

  lemma FilledStep(q0: seq<bv8>, q: seq<bv8>, q': seq<bv8>, n: int, r: Rect, dx: int, dy: int)
    requires FilledTo(q0, q, n, r, dx, dy) && 0 <= dx < r.width && 0 <= dy < r.height
    requires Grid(q, n) && Inside(n, r.left + dx, r.top + dy) && SetAt(q, q', n, r.left + dx, r.top + dy, true)
    ensures FilledTo(q0, q', n, r, dx + 1, dy)
  {
    hide Module, Grid;
  }

  lemma FilledRow(q0: seq<bv8>, q: seq<bv8>, n: int, r: Rect, dy: int)
    requires FilledTo(q0, q, n, r, r.width, dy)
    ensures FilledTo(q0, q, n, r, 0, dy + 1)
  {
    hide Module, Grid;
  }

  lemma FilledAll(q0: seq<bv8>, q: seq<bv8>, n: int, r: Rect, rects: seq<Rect>)
    requires Painted(q0, n, rects) && FilledTo(q0, q, n, r, 0, r.height)
    ensures Painted(q, n, rects + [r])
  {
    hide Module, Grid, InAny;
    forall x, y | Inside(n, x, y) ensures Module(q, n, x, y) <==> InAny(rects + [r], x, y) {
      InOneMore(rects, [r], x, y);
      InSingle(r, x, y);
    }
  }

  lemma InSingle(r: Rect, x: int, y: int)
    ensures InAny([r], x, y) <==> InRect(r, x, y)
  {
    assert [r][0] == r;
  }

  // ---- drawing the function modules ----

  method ClearBytes(q: array<bv8>, count: nat)
    requires count <= q.Length
    modifies q
    ensures forall k :: 0 <= k < count ==> q[k] == 0
  {
    var i := 0;
    while i < count
      invariant 0 <= i <= count && forall k :: 0 <= k < i ==> q[k] == 0
    {
      q[i] := 0;
      i := i + 1;
    }
  }

  // memset, and the side length in byte 0.
  method ClearSymbol(v: Version, q: array<bv8>)
    requires (SideOf(v) * SideOf(v) + 7) / 8 + 1 <= q.Length
    modifies q
    ensures Painted(q[..], SideOf(v), [])
  {
    hide Painted;
    var n := SideOf(v);
    SquareBytes(n);
    ClearBytes(q, (n * n + 7) / 8 + 1);
    q[0] := SideByte(v);
    AllLight(q[..], n);
  }

  // The side length as a byte.
  function SideByte(v: Version): (b: bv8)
    ensures b as int == SideOf(v)
  {
    match v
    case 1 => 21 case 2 => 25 case 3 => 29 case 4 => 33 case 5 => 37 case 6 => 41 case 7 => 45
    case 8 => 49 case 9 => 53 case 10 => 57 case 11 => 61 case 12 => 65 case 13 => 69 case 14 => 73
    case 15 => 77 case 16 => 81 case 17 => 85 case 18 => 89 case 19 => 93 case 20 => 97 case 21 => 101
    case 22 => 105 case 23 => 109 case 24 => 113 case 25 => 117 case 26 => 121 case 27 => 125 case 28 => 129
    case 29 => 133 case 30 => 137 case 31 => 141 case 32 => 145 case 33 => 149 case 34 => 153 case 35 => 157
    case 36 => 161 case 37 => 165 case 38 => 169 case 39 => 173 case _ => 177
  }

  lemma SquareBytes(n: int)
    requires 21 <= n
    ensures (n * n + 7) / 8 + 1 > 0
  {
    MulMono(n, 0, n);
  }

  lemma AllLight(q: seq<bv8>, n: int)
    requires Grid(q, n) && forall k :: 1 <= k < (n * n + 7) / 8 + 1 ==> q[k] == 0
    ensures Painted(q, n, [])
  {
    hide Bit;
    forall x, y | Inside(n, x, y) ensures !Module(q, n, x, y) {
      IndexInside(n, x, y);
      NoBits((y * n + x) % 8);
    }
  }

  lemma NoBits(i: nat)
    requires i < WIDTH
    ensures !Bit(0, i)
  {}

  lemma RowMore(v: Version, i: int, m: nat)
    requires 0 <= i < NumAlign(v) && m < NumAlign(v)
    ensures AlignRow(v, i, m + 1) == AlignRow(v, i, m) + AlignRect(v, i, m)
  {}

  lemma RectsMore(v: Version, m: nat)
    requires m < NumAlign(v)
    ensures AlignRects(v, m + 1) == AlignRects(v, m) + AlignRow(v, m, NumAlign(v))
  {}

  lemma RowNone(v: Version, i: int)
    requires 0 <= i < NumAlign(v)
    ensures AlignRow(v, i, 0) == []
  {}

  method FillAlignment(v: Version, q: array<bv8>, ghost rects: seq<Rect>)
    requires Painted(q[..], SideOf(v), rects)
    modifies q
    ensures Painted(q[..], SideOf(v), rects + AlignRects(v, NumAlign(v)))
  {
    hide Painted, AlignPosition, AlignRow, AlignRects;
    var alignPatPos := GetAlignmentPatternPositions(v);
    var numAlign := |alignPatPos|;
    var i := 0;
    NoAlign(v, rects);
    while i < numAlign
      invariant 0 <= i <= numAlign && Painted(q[..], SideOf(v), rects + AlignRects(v, i))
    {
      var j := 0;
      RowNone(v, i);
      assert rects + AlignRects(v, i) + [] == rects + AlignRects(v, i);
      while j < numAlign
        invariant 0 <= j <= numAlign && Painted(q[..], SideOf(v), rects + AlignRects(v, i) + AlignRow(v, i, j))
      {
        RowMore(v, i, j);
        AlignInside(v, i);
        AlignInside(v, j);
        ghost var so := rects + AlignRects(v, i) + AlignRow(v, i, j);
        assert so + AlignRect(v, i, j) == rects + AlignRects(v, i) + AlignRow(v, i, j + 1);
        if !((i == 0 && j == 0) || (i == 0 && j == numAlign - 1) || (i == numAlign - 1 && j == 0)) {
          FillRectangle(alignPatPos[i] - 2, alignPatPos[j] - 2, 5, 5, q, SideOf(v), so);
        } else {
          assert so + [] == so;
        }
        j := j + 1;
      }
      RectsMore(v, i);
      assert rects + AlignRects(v, i) + AlignRow(v, i, numAlign) == rects + AlignRects(v, i + 1);
      i := i + 1;
    }
  }

  lemma NoAlign(v: Version, rects: seq<Rect>)
    ensures rects + AlignRects(v, 0) == rects
  {}

  // initializeFunctionModules: exactly the function modules are dark.
  method InitializeFunctionModules(v: Version, q: array<bv8>)
    requires (SideOf(v) * SideOf(v) + 7) / 8 + 1 <= q.Length
    modifies q
    ensures FunctionGrid(q[..], v)
  {
    hide Painted, AlignRects;
    ClearSymbol(v, q);
    var qrsize: int := SideOf(v);
    ghost var n := qrsize;
    FillRectangle(6, 0, 1, qrsize, q, n, []);
    assert [] + [Rect(6, 0, 1, n)] == [Rect(6, 0, 1, n)];
    FillRectangle(0, 6, qrsize, 1, q, n, [Rect(6, 0, 1, n)]);
    FillRectangle(0, 0, 9, 9, q, n, [Rect(6, 0, 1, n)] + [Rect(0, 6, n, 1)]);
    FillRectangle(qrsize - 8, 0, 8, 9, q, n, [Rect(6, 0, 1, n)] + [Rect(0, 6, n, 1)] + [Rect(0, 0, 9, 9)]);
    FillRectangle(0, qrsize - 8, 9, 8, q, n,
                  [Rect(6, 0, 1, n)] + [Rect(0, 6, n, 1)] + [Rect(0, 0, 9, 9)] + [Rect(n - 8, 0, 8, 9)]);
    ghost var rects := FixedRects(n);
    assert [Rect(6, 0, 1, n)] + [Rect(0, 6, n, 1)] + [Rect(0, 0, 9, 9)] + [Rect(n - 8, 0, 8, 9)]
      + [Rect(0, n - 8, 9, 8)] == rects;
    FillAlignment(v, q, rects);
    rects := rects + AlignRects(v, NumAlign(v));
    if v >= 7 {
      FillRectangle(qrsize - 11, 0, 3, 6, q, n, rects);
      FillRectangle(0, qrsize - 11, 6, 3, q, n, rects + [Rect(n - 11, 0, 3, 6)]);
      assert rects + [Rect(n - 11, 0, 3, 6)] + [Rect(0, n - 11, 6, 3)] == rects + VersionRects(v);
    }
    assert v < 7 ==> rects + VersionRects(v) == rects;
  }
}
