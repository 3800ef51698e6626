// Drawing the function patterns of a symbol (ISO/IEC 18004:2015 section 6.3): afterwards the function modules have the
// colours of the patterns.
module QrPatterns {
  import opened Arithmetic
  import opened QrGrid
  import opened QrTables
  import opened QrFunction
  import opened QrVersionCode

  // ---- where the alignment patterns are ----

  lemma AlignEnds(v: Version)
    requires v > 1
    ensures NumAlign(v) >= 2 && AlignPosition(v, 0) == 6 && AlignPosition(v, NumAlign(v) - 1) == SideOf(v) - 7
  {
    hide AlignStep;
  }

  lemma AlignSpaced(v: Version, i: int, j: int)
    requires 0 <= i < j < NumAlign(v)
    ensures AlignPosition(v, i) + 12 <= AlignPosition(v, j)
  {
    StepRange(v);
    hide AlignStep;
    var s, a := AlignStep(v), NumAlign(v);
    if i == 0 {
      MulMono(s, a - 1 - j, a - 2);
    } else {
      RowOrder(s, a - 1 - j, a - 1 - i);
    }
  }

  lemma AlignEven(v: Version, i: int)
    requires 0 <= i < NumAlign(v)
    ensures AlignPosition(v, i) % 2 == 0
  {
    if i > 0 { StepRange(v); }
    hide AlignStep, NumAlign;
    EvenProduct(NumAlign(v) - 1 - i, AlignStep(v));
    EvenRest(v, (NumAlign(v) - 1 - i) * AlignStep(v));
  }

  lemma EvenRest(v: int, p: int)
    requires p % 2 == 0
    ensures (4 * v + 10 - p) % 2 == 0
  {
    var h := p / 2;
    assert p == 2 * h;
    EvenTwice(2 * v + 5 - h);
    assert 4 * v + 10 - p == 2 * (2 * v + 5 - h);
  }

  // ---- the colours ----

  // The distance from the centre of a square pattern.
  function Dist(dx: int, dy: int): nat {
    var x, y := if dx < 0 then -dx else dx, if dy < 0 then -dy else dy;
    if y > x then y else x
  }

  predicate TimingLight(n: int, x: int, y: int) {
    (x == 6 && 7 <= y < n - 7 && y % 2 == 1) || (y == 6 && 7 <= x < n - 7 && x % 2 == 1)
  }

  predicate FinderRing(dx: int, dy: int) {
    Dist(dx, dy) == 2 || Dist(dx, dy) == 4
  }

  predicate FinderLight(n: int, x: int, y: int) {
    FinderRing(x - 3, y - 3) || FinderRing(x - (n - 4), y - 3) || FinderRing(x - 3, y - (n - 4))
  }

  // There is an alignment pattern with these indexes of its centre.
  predicate HasPattern(v: Version, i: int, j: int) {
    0 <= i < NumAlign(v) && 0 <= j < NumAlign(v) && !Corner(NumAlign(v), i, j)
  }

  ghost predicate AlignLight(v: Version, x: int, y: int) {
    exists i, j :: HasPattern(v, i, j) && Dist(x - AlignPosition(v, i), y - AlignPosition(v, j)) == 1
  }

  ghost predicate LightCell(v: Version, x: int, y: int) {
    TimingLight(SideOf(v), x, y) || FinderLight(SideOf(v), x, y) || AlignLight(v, x, y)
  }

  // The bit of the version word that a module shows; -1 for the others.
  function VersionIndex(v: Version, x: int, y: int): int {
    var k := SideOf(v) - 11;
    if v < 7 then -1
    else if k <= x < k + 3 && 0 <= y < 6 then 3 * y + (x - k)
    else if k <= y < k + 3 && 0 <= x < 6 then 3 * x + (y - k)
    else -1
  }

  function Half(b: bv32): bv32 {
    b >> 1
  }

  function Shifted(word: bv32, k: nat): bv32 {
    if k == 0 then word else Half(Shifted(word, k - 1))
  }

  predicate BitOf(word: bv32, k: nat) {
    Shifted(word, k) & 1 != 0
  }

  // The colour of a function module outside the format information.
  ghost predicate Colour(v: Version, x: int, y: int) {
    if VersionIndex(v, x, y) >= 0 then BitOf(VersionWord(v), VersionIndex(v, x, y)) else !LightCell(v, x, y)
  }

  lemma TimingColour(v: Version, i: int)
    requires 7 <= i < SideOf(v) - 7 && i % 2 == 1
    ensures !Colour(v, 6, i) && !Colour(v, i, 6)
  {
    hide AlignLight, FinderLight, VersionWord, BitOf;
  }

  lemma FinderColour(v: Version, x: int, y: int)
    requires Inside(SideOf(v), x, y) && FinderLight(SideOf(v), x, y)
    ensures !Colour(v, x, y)
  {
    hide AlignLight, TimingLight, VersionWord, BitOf;
  }

  lemma VersionColour(v: Version, i: int, j: int)
    requires v >= 7 && 0 <= i < 6 && 0 <= j < 3
    ensures var k := SideOf(v) - 11 + j;
      var dark := BitOf(VersionWord(v), 3 * i + j); Colour(v, k, i) == dark && Colour(v, i, k) == dark
  {
    hide LightCell, VersionWord, BitOf;
  }

  // Only the patterns on the left and upper edge are near the border.
  lemma AlignPlaces(v: Version, i: int)
    requires 0 <= i < NumAlign(v)
    ensures AlignPosition(v, i) < 18 ==> i == 0
    ensures AlignPosition(v, i) > SideOf(v) - 19 ==> i == NumAlign(v) - 1
    ensures 6 <= AlignPosition(v, i) <= SideOf(v) - 7
  {
    AlignEnds(v);
    AlignInside(v, i);
    hide AlignPosition;
    if i > 0 { AlignSpaced(v, 0, i); }
    if i < NumAlign(v) - 1 { AlignSpaced(v, i, NumAlign(v) - 1); }
  }

  lemma NoVersionHere(v: Version, i: int, j: int, dx: int, dy: int)
    requires HasPattern(v, i, j) && -1 <= dx <= 1 && -1 <= dy <= 1
    ensures VersionIndex(v, AlignPosition(v, i) + dx, AlignPosition(v, j) + dy) == -1
  {
    AlignPlaces(v, i);
    AlignPlaces(v, j);
    hide AlignPosition;
  }

  lemma CentreNotFinder(v: Version, i: int, j: int)
    requires HasPattern(v, i, j)
    ensures !FinderLight(SideOf(v), AlignPosition(v, i), AlignPosition(v, j))
  {
    AlignPlaces(v, i);
    AlignPlaces(v, j);
    hide AlignPosition;
  }

  lemma CentreNotTiming(v: Version, i: int, j: int)
    requires HasPattern(v, i, j)
    ensures !TimingLight(SideOf(v), AlignPosition(v, i), AlignPosition(v, j))
  {
    AlignEven(v, i);
    AlignEven(v, j);
    hide AlignPosition;
  }

  lemma CentreNotRing(v: Version, i: int, j: int)
    requires HasPattern(v, i, j)
    ensures !AlignLight(v, AlignPosition(v, i), AlignPosition(v, j))
  {
    hide AlignPosition, Corner;
    forall k, l | HasPattern(v, k, l)
      ensures Dist(AlignPosition(v, i) - AlignPosition(v, k), AlignPosition(v, j) - AlignPosition(v, l)) != 1
    {
      if i < k { AlignSpaced(v, i, k); }
      if k < i { AlignSpaced(v, k, i); }
      if j < l { AlignSpaced(v, j, l); }
      if l < j { AlignSpaced(v, l, j); }
    }
  }

  lemma AlignColour(v: Version, i: int, j: int, dx: int, dy: int)
    requires HasPattern(v, i, j) && -1 <= dx <= 1 && -1 <= dy <= 1
    ensures Colour(v, AlignPosition(v, i) + dx, AlignPosition(v, j) + dy) == (dx == 0 && dy == 0)
  {
    hide AlignPosition, Corner, TimingLight, FinderLight, VersionWord, BitOf, VersionIndex;
    NoVersionHere(v, i, j, dx, dy);
    var x, y := AlignPosition(v, i) + dx, AlignPosition(v, j) + dy;
    if dx == 0 && dy == 0 {
      CentreNotFinder(v, i, j);
      CentreNotTiming(v, i, j);
      CentreNotRing(v, i, j);
    } else {
      assert Dist(x - AlignPosition(v, i), y - AlignPosition(v, j)) == 1;
    }
  }

  // ---- drawing ----

  type Cells = set<(int, int)>

  // The function modules done have their colour, the other modules the one they had.
  ghost predicate PatternsDrawn(v: Version, q0: seq<bv8>, q: seq<bv8>, done: Cells) {
    var n := SideOf(v);
    && Grid(q0, n) && Grid(q, n) && |q| == |q0| && (forall x, y :: (x, y) in done ==> IsFunction(v, x, y))
    && forall x, y :: Inside(n, x, y) ==>
      Module(q, n, x, y) == if (x, y) in done then Colour(v, x, y) else Module(q0, n, x, y)
  }

  lemma NothingDrawn(v: Version, q: seq<bv8>)
    requires Grid(q, SideOf(v))
    ensures PatternsDrawn(v, q, q, {})
  {
    hide Module, Grid, IsFunction, Colour;
  }

  // One function module is drawn.
  method SetPattern(v: Version, q: array<bv8>, x: int, y: int, dark: bool, ghost q0: seq<bv8>, ghost done: Cells)
    requires PatternsDrawn(v, q0, q[..], done) && Inside(SideOf(v), x, y) && IsFunction(v, x, y)
    requires dark == Colour(v, x, y)
    modifies q
    ensures PatternsDrawn(v, q0, q[..], done + {(x, y)})
  {
    hide Module, Grid, IsFunction, Colour;
    SetModuleBounded(q, x, y, dark, SideOf(v));
  }

  lemma FixedIsFunction(v: Version, k: nat, x: int, y: int)
    requires k < 5 && InRect(FixedRects(SideOf(v))[k], x, y)
    ensures IsFunction(v, x, y)
  {
    hide AlignRects, VersionRects;
    MemberOf(FunctionRects(v), k, x, y);
  }

  lemma VersionIsFunction(v: Version, k: nat, x: int, y: int)
    requires v >= 7 && k < 2 && InRect(VersionRects(v)[k], x, y)
    ensures IsFunction(v, x, y)
  {
    MemberOf(VersionRects(v), k, x, y);
    hide InAny, AlignRects, FixedRects, VersionRects;
    InOneMore(FixedRects(SideOf(v)) + AlignRects(v, NumAlign(v)), VersionRects(v), x, y);
  }

  lemma {:induction false} PatternInRow(v: Version, i: int, j: int, m: nat, x: int, y: int)
    requires 0 <= i < NumAlign(v) && 0 <= j < m <= NumAlign(v) && InAny(AlignRect(v, i, j), x, y)
    ensures InAny(AlignRow(v, i, m), x, y)
    decreases m
  {
    hide InAny, AlignRect;
    InOneMore(AlignRow(v, i, m - 1), AlignRect(v, i, m - 1), x, y);
    if j < m - 1 { PatternInRow(v, i, j, m - 1, x, y); }
  }

  lemma {:induction false} PatternInAll(v: Version, i: int, j: int, m: nat, x: int, y: int)
    requires 0 <= i < m <= NumAlign(v) && 0 <= j < NumAlign(v) && InAny(AlignRect(v, i, j), x, y)
    ensures InAny(AlignRects(v, m), x, y)
    decreases m
  {
    hide InAny, AlignRect, AlignRow;
    InOneMore(AlignRects(v, m - 1), AlignRow(v, m - 1, NumAlign(v)), x, y);
    if i < m - 1 { PatternInAll(v, i, j, m - 1, x, y); } else { PatternInRow(v, i, j, NumAlign(v), x, y); }
  }

  lemma AlignIsFunction(v: Version, i: int, j: int, dx: int, dy: int)
    requires HasPattern(v, i, j) && -1 <= dx <= 1 && -1 <= dy <= 1
    ensures var x, y := AlignPosition(v, i) + dx, AlignPosition(v, j) + dy;
      IsFunction(v, x, y) && Inside(SideOf(v), x, y)
  {
    var x, y := AlignPosition(v, i) + dx, AlignPosition(v, j) + dy;
    AlignInside(v, i);
    AlignInside(v, j);
    MemberOf(AlignRect(v, i, j), 0, x, y);
    hide InAny, AlignRect, AlignRects, FixedRects, VersionRects, AlignPosition;
    PatternInAll(v, i, j, NumAlign(v), x, y);
    InOneMore(FixedRects(SideOf(v)), AlignRects(v, NumAlign(v)), x, y);
    InOneMore(FixedRects(SideOf(v)) + AlignRects(v, NumAlign(v)), VersionRects(v), x, y);
  }

  ghost predicate TimingDone(done: Cells, n: int) {
    forall i :: 7 <= i < n && i % 2 == 1 ==> (6, i) in done && (i, 6) in done
  }

  method DrawTiming(v: Version, q: array<bv8>, ghost q0: seq<bv8>, ghost done: Cells) returns (ghost more: Cells)
    requires PatternsDrawn(v, q0, q[..], done)
    modifies q
    ensures PatternsDrawn(v, q0, q[..], more) && done <= more && TimingDone(more, SideOf(v) - 7)
  {
    hide PatternsDrawn, IsFunction, Colour;
    more := done;
    var qrsize := SideOf(v);
    var i := 7;
    while i < qrsize - 7
      invariant 7 <= i && i % 2 == 1 && PatternsDrawn(v, q0, q[..], more) && done <= more && TimingDone(more, i)
    {
      FixedIsFunction(v, 0, 6, i);
      FixedIsFunction(v, 1, i, 6);
      TimingColour(v, i);
      SetPattern(v, q, 6, i, false, q0, more);
      SetPattern(v, q, i, 6, false, q0, more + {(6, i)});
      more := more + {(6, i)} + {(i, 6)};
      i := i + 2;
    }
  }

  // setModuleUnbounded, on a finder pattern: nothing happens outside of the symbol.
  method SetFinderLight(v: Version, q: array<bv8>, x: int, y: int, ghost q0: seq<bv8>, ghost done: Cells)
    returns (ghost more: Cells)
    requires PatternsDrawn(v, q0, q[..], done) && FinderLight(SideOf(v), x, y)
    modifies q
    ensures PatternsDrawn(v, q0, q[..], more) && done <= more && (Inside(SideOf(v), x, y) ==> (x, y) in more)
  {
    hide Module, IsFunction, Colour;
    more := done;
    SideRead(v, q[..]);
    var qrsize := q[0] as int;
    if 0 <= x < qrsize && 0 <= y < qrsize {
      FinderIsFunction(v, x, y);
      FinderColour(v, x, y);
      SetPattern(v, q, x, y, false, q0, done);
      more := done + {(x, y)};
    }
  }

  lemma SideRead(v: Version, q: seq<bv8>)
    requires Grid(q, SideOf(v))
    ensures |q| > 0 && q[0] as int == SideOf(v)
  {}

  lemma FinderIsFunction(v: Version, x: int, y: int)
    requires Inside(SideOf(v), x, y) && FinderLight(SideOf(v), x, y)
    ensures IsFunction(v, x, y)
  {
    hide IsFunction;
    var n := SideOf(v);
    if FinderRing(x - 3, y - 3) {
      FixedIsFunction(v, 2, x, y);
    } else if FinderRing(x - (n - 4), y - 3) {
      FixedIsFunction(v, 3, x, y);
    } else {
      FixedIsFunction(v, 4, x, y);
    }
  }

  // The finder modules at one offset from their centres.
  ghost predicate FindersAt(done: Cells, n: int, dx: int, dy: int) {
    && (Inside(n, 3 + dx, 3 + dy) ==> (3 + dx, 3 + dy) in done)
    && (Inside(n, n - 4 + dx, 3 + dy) ==> (n - 4 + dx, 3 + dy) in done)
    && (Inside(n, 3 + dx, n - 4 + dy) ==> (3 + dx, n - 4 + dy) in done)
  }

  // The rings are drawn up to row dy, and in that row up to column dx.
  ghost predicate FindersDone(done: Cells, n: int, dx: int, dy: int) {
    forall ex, ey :: FinderRing(ex, ey) && (ey < dy || (ey == dy && ex < dx)) ==> FindersAt(done, n, ex, ey)
  }

  method DrawFinderCells(v: Version, q: array<bv8>, dx: int, dy: int, ghost q0: seq<bv8>, ghost done: Cells)
    returns (ghost more: Cells)
    requires PatternsDrawn(v, q0, q[..], done) && FinderRing(dx, dy)
    modifies q
    ensures PatternsDrawn(v, q0, q[..], more) && done <= more && FindersAt(more, SideOf(v), dx, dy)
  {
    hide PatternsDrawn, FinderRing;
    var qrsize := SideOf(v);
    more := SetFinderLight(v, q, 3 + dx, 3 + dy, q0, done);
    more := SetFinderLight(v, q, qrsize - 4 + dx, 3 + dy, q0, more);
    more := SetFinderLight(v, q, 3 + dx, qrsize - 4 + dy, q0, more);
  }

  method DrawFinders(v: Version, q: array<bv8>, ghost q0: seq<bv8>, ghost done: Cells) returns (ghost more: Cells)
    requires PatternsDrawn(v, q0, q[..], done)
    modifies q
    ensures PatternsDrawn(v, q0, q[..], more) && done <= more && FindersDone(more, SideOf(v), -4, 5)
  {
    hide PatternsDrawn, FindersDone, FinderRing;
    more := done;
    NoFinders(more, SideOf(v));
    var dy := -4;
    while dy <= 4
      invariant -4 <= dy <= 5 && PatternsDrawn(v, q0, q[..], more) && done <= more
      invariant FindersDone(more, SideOf(v), -4, dy)
    {
      var dx := -4;
      while dx <= 4
        invariant -4 <= dx <= 5 && PatternsDrawn(v, q0, q[..], more) && done <= more
        invariant FindersDone(more, SideOf(v), dx, dy)
      {
        var dist := if dx < 0 then -dx else dx;
        if (if dy < 0 then -dy else dy) > dist {
          dist := if dy < 0 then -dy else dy;
        }
        RingIs(dx, dy);
        ghost var before := more;
        if dist == 2 || dist == 4 {
          more := DrawFinderCells(v, q, dx, dy, q0, more);
        }
        NextFinder(before, more, SideOf(v), dx, dy);
        dx := dx + 1;
      }
      NextFinderRow(more, SideOf(v), dy);
      dy := dy + 1;
    }
  }

  lemma RingIs(dx: int, dy: int)
    ensures FinderRing(dx, dy) <==> Dist(dx, dy) == 2 || Dist(dx, dy) == 4
  {}

  lemma NoFinders(done: Cells, n: int)
    ensures FindersDone(done, n, -4, -4)
  {}

  lemma NextFinder(done: Cells, more: Cells, n: int, dx: int, dy: int)
    requires FindersDone(done, n, dx, dy) && done <= more && (FinderRing(dx, dy) ==> FindersAt(more, n, dx, dy))
    ensures FindersDone(more, n, dx + 1, dy)
  {
    hide FinderRing;
  }

  lemma NextFinderRow(done: Cells, n: int, dy: int)
    requires FindersDone(done, n, 5, dy)
    ensures FindersDone(done, n, -4, dy + 1)
  {}

  // The inner modules of pattern (i, j), up to row dy, and in that row up to column dx.
  ghost predicate CentreDone(done: Cells, v: Version, i: int, j: int, dx: int, dy: int) {
    && 0 <= i < NumAlign(v) && 0 <= j < NumAlign(v)
    && forall ex, ey :: Dist(ex, ey) <= 1 && (ey < dy || (ey == dy && ex < dx)) ==>
      (AlignPosition(v, i) + ex, AlignPosition(v, j) + ey) in done
  }

  lemma NoCentre(done: Cells, v: Version, i: int, j: int)
    requires 0 <= i < NumAlign(v) && 0 <= j < NumAlign(v)
    ensures CentreDone(done, v, i, j, -1, -1)
  {
    hide AlignPosition;
  }

  lemma NextCentre(done: Cells, v: Version, i: int, j: int, dx: int, dy: int)
    requires CentreDone(done, v, i, j, dx, dy)
    ensures CentreDone(done + {(AlignPosition(v, i) + dx, AlignPosition(v, j) + dy)}, v, i, j, dx + 1, dy)
  {
    hide AlignPosition, Dist;
  }

  lemma NextCentreRow(done: Cells, v: Version, i: int, j: int, dy: int)
    requires CentreDone(done, v, i, j, 2, dy)
    ensures CentreDone(done, v, i, j, -1, dy + 1)
  {
    hide AlignPosition;
  }

  method DrawAlignmentCentre(v: Version, q: array<bv8>, i: int, j: int, x: int, y: int, ghost q0: seq<bv8>,
      ghost done: Cells) returns (ghost more: Cells)
    requires PatternsDrawn(v, q0, q[..], done) && HasPattern(v, i, j)
    requires x == AlignPosition(v, i) && y == AlignPosition(v, j)
    modifies q
    ensures PatternsDrawn(v, q0, q[..], more) && done <= more && CentreDone(more, v, i, j, -1, 2)
  {
    hide PatternsDrawn, IsFunction, AlignPosition, Colour, CentreDone, Corner;
    more := done;
    NoCentre(more, v, i, j);
    var dy := -1;
    while dy <= 1
      invariant -1 <= dy <= 2 && PatternsDrawn(v, q0, q[..], more) && done <= more && CentreDone(more, v, i, j, -1, dy)
    {
      var dx := -1;
      while dx <= 1
        invariant -1 <= dx <= 2 && PatternsDrawn(v, q0, q[..], more) && done <= more
        invariant CentreDone(more, v, i, j, dx, dy)
      {
        AlignIsFunction(v, i, j, dx, dy);
        AlignColour(v, i, j, dx, dy);
        NextCentre(more, v, i, j, dx, dy);
        SetPattern(v, q, x + dx, y + dy, dx == 0 && dy == 0, q0, more);
        more := more + {(x + dx, y + dy)};
        dx := dx + 1;
      }
      NextCentreRow(more, v, i, j, dy);
      dy := dy + 1;
    }
  }

  // All patterns before (i, j) are drawn.
  ghost predicate AlignDone(done: Cells, v: Version, i: int, j: int) {
    forall k, l :: HasPattern(v, k, l) && (k < i || (k == i && l < j)) ==> CentreDone(done, v, k, l, -1, 2)
  }

  lemma NextPattern(done: Cells, more: Cells, v: Version, i: int, j: int)
    requires AlignDone(done, v, i, j) && done <= more && (HasPattern(v, i, j) ==> CentreDone(more, v, i, j, -1, 2))
    ensures AlignDone(more, v, i, j + 1)
  {
    hide AlignPosition, HasPattern, Dist;
  }

  lemma NextPatternRow(done: Cells, v: Version, i: int)
    requires AlignDone(done, v, i, NumAlign(v))
    ensures AlignDone(done, v, i + 1, 0)
  {
    hide CentreDone, Corner;
  }

  method DrawAlignment(v: Version, q: array<bv8>, ghost q0: seq<bv8>, ghost done: Cells) returns (ghost more: Cells)
    requires PatternsDrawn(v, q0, q[..], done)
    modifies q
    ensures PatternsDrawn(v, q0, q[..], more) && done <= more && AlignDone(more, v, NumAlign(v), 0)
  {
    hide PatternsDrawn, AlignPosition, CentreDone;
    var alignPatPos := GetAlignmentPatternPositions(v);
    var numAlign := |alignPatPos|;
    more := done;
    var i := 0;
    while i < numAlign
      invariant 0 <= i <= numAlign && PatternsDrawn(v, q0, q[..], more) && done <= more && AlignDone(more, v, i, 0)
    {
      var j := 0;
      while j < numAlign
        invariant 0 <= j <= numAlign && PatternsDrawn(v, q0, q[..], more) && done <= more && AlignDone(more, v, i, j)
      {
        ghost var before := more;
        if !((i == 0 && j == 0) || (i == 0 && j == numAlign - 1) || (i == numAlign - 1 && j == 0)) {
          more := DrawAlignmentCentre(v, q, i, j, alignPatPos[i], alignPatPos[j], q0, more);
        }
        NextPattern(before, more, v, i, j);
        j := j + 1;
      }
      NextPatternRow(more, v, i);
      i := i + 1;
    }
  }

  // One module of both version blocks.
  ghost predicate VersionAt(done: Cells, n: int, k: int, l: int) {
    (n - 11 + l, k) in done && (k, n - 11 + l) in done
  }

  // The first modules of both version blocks, up to row i, and in that row up to column j.
  ghost predicate VersionDone(done: Cells, n: int, i: int, j: int) {
    forall k, l :: 0 <= k < 6 && 0 <= l < 3 && (k < i || (k == i && l < j)) ==> VersionAt(done, n, k, l)
  }

  lemma NoVersion(done: Cells, n: int)
    ensures VersionDone(done, n, 0, 0)
  {}

  lemma NextVersion(done: Cells, n: int, i: int, j: int)
    requires VersionDone(done, n, i, j)
    ensures VersionDone(done + {(n - 11 + j, i)} + {(i, n - 11 + j)}, n, i, j + 1)
  {
    var more := done + {(n - 11 + j, i)} + {(i, n - 11 + j)};
    forall k, l | 0 <= k < 6 && 0 <= l < 3 && (k < i || (k == i && l < j + 1)) ensures VersionAt(more, n, k, l) {
      assert VersionAt(done, n, k, l) || (k == i && l == j);
    }
  }

  lemma NextVersionRow(done: Cells, n: int, i: int)
    requires VersionDone(done, n, i, 3)
    ensures VersionDone(done, n, i + 1, 0)
  {}

  lemma NoShift(word: bv32)
    ensures Shifted(word, 0) == word
  {}

  lemma ShiftOnce(word: bv32, k: nat)
    ensures Shifted(word, k + 1) == Half(Shifted(word, k))
  {
    hide Half;
  }

  // One bit of the version, in both blocks.
  method DrawVersionModule(v: Version, q: array<bv8>, i: nat, j: nat, bits: bv32, ghost q0: seq<bv8>, ghost done: Cells)
    returns (ghost more: Cells)
    requires PatternsDrawn(v, q0, q[..], done) && v >= 7 && i < 6 && j < 3 && VersionDone(done, SideOf(v), i, j)
    requires bits == Shifted(VersionWord(v), 3 * i + j)
    modifies q
    ensures PatternsDrawn(v, q0, q[..], more) && done <= more && VersionDone(more, SideOf(v), i, j + 1)
  {
    hide PatternsDrawn, IsFunction, Colour, VersionWord, VersionDone, Shifted;
    var k := SideOf(v) - 11 + j;
    VersionIsFunction(v, 0, k, i);
    VersionIsFunction(v, 1, i, k);
    VersionColour(v, i, j);
    SetPattern(v, q, k, i, bits & 1 != 0, q0, done);
    SetPattern(v, q, i, k, bits & 1 != 0, q0, done + {(k, i)});
    NextVersion(done, SideOf(v), i, j);
    more := done + {(k, i)} + {(i, k)};
  }

  method DrawVersion(v: Version, q: array<bv8>, ghost q0: seq<bv8>, ghost done: Cells) returns (ghost more: Cells)
    requires PatternsDrawn(v, q0, q[..], done) && v >= 7
    modifies q
    ensures PatternsDrawn(v, q0, q[..], more) && done <= more && VersionDone(more, SideOf(v), 6, 0)
  {
    hide PatternsDrawn, VersionWord, VersionDone, Shifted, Half;
    more := done;
    NoShift(VersionWord(v));
    var qrsize := SideOf(v);
    NoVersion(more, qrsize);
    var bits := VersionBits(v);
    var i := 0;
    while i < 6
      invariant 0 <= i <= 6 && PatternsDrawn(v, q0, q[..], more) && done <= more && VersionDone(more, qrsize, i, 0)
      invariant bits == Shifted(VersionWord(v), 3 * i)
    {
      var j := 0;
      while j < 3
        invariant 0 <= j <= 3 && PatternsDrawn(v, q0, q[..], more) && done <= more && VersionDone(more, qrsize, i, j)
        invariant bits == Shifted(VersionWord(v), 3 * i + j)
      {
        more := DrawVersionModule(v, q, i, j, bits, q0, more);
        ShiftOnce(VersionWord(v), 3 * i + j);
        bits := Half(bits);
        j := j + 1;
      }
      NextVersionRow(more, qrsize, i);
      i := i + 1;
    }
  }

  // ---- the finished patterns ----

  // The function modules that were dark have the colours of the patterns, and all others are as before.
  ghost predicate PatternsShown(v: Version, q0: seq<bv8>, q: seq<bv8>) {
    var n := SideOf(v);
    && Grid(q0, n) && Grid(q, n) && |q| == |q0|
    && (forall x, y :: Inside(n, x, y) && !IsFunction(v, x, y) ==> Module(q, n, x, y) == Module(q0, n, x, y))
    && forall x, y :: Inside(n, x, y) && IsFunction(v, x, y) && Module(q0, n, x, y) ==>
      Module(q, n, x, y) == Colour(v, x, y)
  }

  ghost predicate AllDone(v: Version, done: Cells) {
    && TimingDone(done, SideOf(v) - 7) && FindersDone(done, SideOf(v), -4, 5) && AlignDone(done, v, NumAlign(v), 0)
    && (v >= 7 ==> VersionDone(done, SideOf(v), 6, 0))
  }

  // Every light module and every module of the version is drawn.
  lemma DoneCovers(v: Version, done: Cells, x: int, y: int)
    requires AllDone(v, done) && Inside(SideOf(v), x, y)
    ensures LightCell(v, x, y) || VersionIndex(v, x, y) >= 0 ==> (x, y) in done
  {
    hide AlignLight, FindersDone, FinderLight, AlignDone;
    if AlignLight(v, x, y) { AlignCovered(v, done, x, y); }
    if FinderLight(SideOf(v), x, y) { FinderCovered(done, SideOf(v), x, y); }
    if VersionIndex(v, x, y) >= 0 { VersionCovered(v, done, x, y); }
  }

  lemma VersionCovered(v: Version, done: Cells, x: int, y: int)
    requires v >= 7 && VersionDone(done, SideOf(v), 6, 0) && VersionIndex(v, x, y) >= 0
    ensures (x, y) in done
  {
    var k := SideOf(v) - 11;
    if k <= x < k + 3 && 0 <= y < 6 {
      assert VersionAt(done, SideOf(v), y, x - k);
    } else {
      assert VersionAt(done, SideOf(v), x, y - k);
    }
  }

  lemma AlignCovered(v: Version, done: Cells, x: int, y: int)
    requires AlignDone(done, v, NumAlign(v), 0) && AlignLight(v, x, y)
    ensures (x, y) in done
  {
    hide AlignPosition, Dist, Corner;
    var i, j :| HasPattern(v, i, j) && Dist(x - AlignPosition(v, i), y - AlignPosition(v, j)) == 1;
    assert CentreDone(done, v, i, j, -1, 2);
    DistOne(x - AlignPosition(v, i), y - AlignPosition(v, j));
    assert (AlignPosition(v, i) + (x - AlignPosition(v, i)), AlignPosition(v, j) + (y - AlignPosition(v, j))) in done;
  }

  lemma DistOne(dx: int, dy: int)
    requires Dist(dx, dy) == 1
    ensures dy < 2
  {}

  lemma FinderCovered(done: Cells, n: int, x: int, y: int)
    requires FindersDone(done, n, -4, 5) && Inside(n, x, y) && FinderLight(n, x, y)
    ensures (x, y) in done
  {
    hide FindersDone;
    FinderRow(done, n, x - 3, y - 3);
    FinderRow(done, n, x - (n - 4), y - 3);
    FinderRow(done, n, x - 3, y - (n - 4));
  }

  lemma FinderRow(done: Cells, n: int, dx: int, dy: int)
    requires FindersDone(done, n, -4, 5)
    ensures FinderRing(dx, dy) ==> FindersAt(done, n, dx, dy)
  {}

  lemma DrawnShows(v: Version, q0: seq<bv8>, q: seq<bv8>, done: Cells)
    requires PatternsDrawn(v, q0, q, done) && AllDone(v, done)
    ensures PatternsShown(v, q0, q)
  {
    hide Module, Grid, IsFunction, AllDone, LightCell, VersionIndex, BitOf, VersionWord;
    forall x, y | Inside(SideOf(v), x, y) ensures Colour(v, x, y) || (x, y) in done {
      DoneCovers(v, done, x, y);
    }
  }

  // drawLightFunctionModules, on a symbol whose function modules are dark.
  method DrawLightFunctionModules(v: Version, q: array<bv8>)
    requires Grid(q[..], SideOf(v))
    modifies q
    ensures PatternsShown(v, old(q[..]), q[..])
  {
    hide PatternsDrawn, FindersDone, AlignDone, TimingDone, VersionDone;
    ghost var q0 := q[..];
    NothingDrawn(v, q0);
    ghost var timing := DrawTiming(v, q, q0, {});
    ghost var finders := DrawFinders(v, q, q0, timing);
    ghost var alignment := DrawAlignment(v, q, q0, finders);
    ghost var done := alignment;
    if v >= 7 {
      done := DrawVersion(v, q, q0, done);
    }
    StillDone(v, timing, finders, alignment, done);
    DrawnShows(v, q0, q[..], done);
  }

  lemma StillDone(v: Version, timing: Cells, finders: Cells, alignment: Cells, done: Cells)
    requires timing <= finders <= alignment <= done && TimingDone(timing, SideOf(v) - 7)
    requires FindersDone(finders, SideOf(v), -4, 5) && AlignDone(alignment, v, NumAlign(v), 0)
    requires v >= 7 ==> VersionDone(done, SideOf(v), 6, 0)
    ensures AllDone(v, done)
  {
    hide AlignPosition, Dist, FinderRing, Corner;
  }
}
