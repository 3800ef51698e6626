// The function modules leave at least as many modules as the size formula says, so the scan has room for every code
// word.
module QrCapacity {
  import opened QrGrid
  import opened QrPlacement
  import opened QrTables
  import opened QrFunction

  // ---- how many modules are left ----

  function Area(rects: seq<Rect>): nat {
    if rects == [] then 0 else Area(rects[..|rects| - 1]) + rects[|rects| - 1].width * rects[|rects| - 1].height
  }

  lemma {:induction false} AreaBoth(a: seq<Rect>, b: seq<Rect>)
    ensures Area(a + b) == Area(a) + Area(b)
    decreases |b|
  {
    if b == [] {
      assert a + b == a;
    } else {
      var n := |b| - 1;
      AreaBoth(a, b[..n]);
      assert (a + b)[..|a + b| - 1] == a + b[..n];
    }
  }

  ghost function CellsOf(n: int, rects: seq<Rect>): set<(int, int)> {
    set x, y | 0 <= x < n && 0 <= y < n && InAny(rects, x, y) :: (x, y)
  }

  ghost function RowCells(x: int, w: nat, y: int): (s: set<(int, int)>)
    ensures |s| == w && forall c :: c in s <==> x <= c.0 < x + w && c.1 == y
  {
    if w == 0 then {} else RowCells(x, w - 1, y) + {(x + w - 1, y)}
  }

  ghost function RectCells(r: Rect, h: nat): (s: set<(int, int)>)
    ensures |s| == r.width * h && forall c :: c in s <==> r.left <= c.0 < r.left + r.width && r.top <= c.1 < r.top + h
  {
    if h == 0 then {}
    else
      var rest, row := RectCells(r, h - 1), RowCells(r.left, r.width, r.top + h - 1);
      assert rest !! row;
      assert r.width * (h - 1) + r.width == r.width * h;
      rest + row
  }

  lemma SubsetSize<T>(a: set<T>, b: set<T>)
    requires a <= b
    ensures |a| <= |b|
  {
    assert b == a + (b - a);
  }

  lemma UnionSize<T>(a: set<T>, b: set<T>)
    ensures |a + b| <= |a| + |b|
  {
    assert a + b == a + (b - a);
    SubsetSize(b - a, b);
  }

  // The rectangles cover at most the sum of their areas.
  lemma {:induction false} CoverSize(n: int, rects: seq<Rect>)
    ensures |CellsOf(n, rects)| <= Area(rects)
    decreases |rects|
  {
    hide InRect, InAny;
    if rects == [] {
      NoCells(n);
    } else {
      var k := |rects| - 1;
      var front, r := rects[..k], rects[k];
      CoverSize(n, front);
      LastCells(n, front, r);
      assert rects == front + [r];
      UnionSize(CellsOf(n, front), RectCells(r, r.height));
      SubsetSize(CellsOf(n, rects), CellsOf(n, front) + RectCells(r, r.height));
    }
  }

  lemma NoCells(n: int)
    ensures CellsOf(n, []) == {}
  {}

  lemma LastCells(n: int, front: seq<Rect>, r: Rect)
    ensures CellsOf(n, front + [r]) <= CellsOf(n, front) + RectCells(r, r.height)
  {
    hide InAny;
    forall c | c in CellsOf(n, front + [r]) ensures c in CellsOf(n, front) + RectCells(r, r.height) {
      InOneMore(front, [r], c.0, c.1);
      InSingle(r, c.0, c.1);
    }
  }

  // ---- a cover without overlaps ----

  // An alignment pattern without the modules on the timing lines.
  function AlignCover(v: Version, i: int, j: int): seq<Rect>
    requires 0 <= i < NumAlign(v) && 0 <= j < NumAlign(v)
  {
    var x, y := AlignPosition(v, i), AlignPosition(v, j);
    if Corner(NumAlign(v), i, j) then []
    else if i == 0 then [Rect(4, y - 2, 2, 5), Rect(7, y - 2, 2, 5)]
    else if j == 0 then [Rect(x - 2, 4, 5, 2), Rect(x - 2, 7, 5, 2)]
    else [Rect(x - 2, y - 2, 5, 5)]
  }

  function CoverRow(v: Version, i: int, m: nat): seq<Rect>
    requires 0 <= i < NumAlign(v) && m <= NumAlign(v)
  {
    if m == 0 then [] else CoverRow(v, i, m - 1) + AlignCover(v, i, m - 1)
  }

  function CoverRects(v: Version, m: nat): seq<Rect>
    requires m <= NumAlign(v)
  {
    if m == 0 then [] else CoverRects(v, m - 1) + CoverRow(v, m - 1, NumAlign(v))
  }

  function FixedCover(n: int): seq<Rect>
    requires n >= 21
  {
    [Rect(6, 9, 1, n - 17), Rect(9, 6, n - 17, 1), Rect(0, 0, 9, 9), Rect(n - 8, 0, 8, 9), Rect(0, n - 8, 9, 8)]
  }

  function Cover(v: Version): seq<Rect> {
    FixedCover(SideOf(v)) + CoverRects(v, NumAlign(v)) + VersionRects(v)
  }

  lemma PatternArea(v: Version, i: int, j: int)
    requires 0 <= i < NumAlign(v) && 0 <= j < NumAlign(v)
    ensures Area(AlignCover(v, i, j)) == if Corner(NumAlign(v), i, j) then 0 else if i == 0 || j == 0 then 20 else 25
  {
    hide AlignPosition;
    Area0();
    if !Corner(NumAlign(v), i, j) {
      var x, y := AlignPosition(v, i), AlignPosition(v, j);
      Area2(Rect(4, y - 2, 2, 5), Rect(7, y - 2, 2, 5));
      Area2(Rect(x - 2, 4, 5, 2), Rect(x - 2, 7, 5, 2));
      Area1(Rect(x - 2, y - 2, 5, 5));
    }
  }

  lemma Area0()
    ensures Area([]) == 0
  {}

  lemma Area1(a: Rect)
    ensures Area([a]) == a.width * a.height
  {
    assert [a][..0] == [];
  }

  lemma Area2(a: Rect, b: Rect)
    ensures Area([a, b]) == a.width * a.height + b.width * b.height
  {
    Area1(a);
    assert [a, b][..1] == [a];
  }

  // The areas of row i so far.
  lemma {:induction false} RowArea(v: Version, i: int, m: nat)
    requires 0 <= i < NumAlign(v) && m <= NumAlign(v)
    ensures var a := NumAlign(v);
      Area(CoverRow(v, i, m)) ==
        if m == 0 then 0
        else if i == 0 then 20 * (if m == a then a - 2 else m - 1)
        else (if i == a - 1 then 0 else 20) + 25 * (m - 1)
    decreases m
  {
    hide AlignCover, Area;
    if m > 0 {
      RowArea(v, i, m - 1);
      PatternArea(v, i, m - 1);
      AreaBoth(CoverRow(v, i, m - 1), AlignCover(v, i, m - 1));
    } else {
      Area0();
    }
  }

  lemma {:induction false} RowsArea(v: Version, m: nat)
    requires 0 < m <= NumAlign(v)
    ensures var a := NumAlign(v);
      Area(CoverRects(v, m)) == 20 * (a - 2) + (if m == a then a - 2 else m - 1) * 20 + (m - 1) * (25 * (a - 1))
    decreases m
  {
    hide Area, CoverRow;
    var a := NumAlign(v);
    RowArea(v, m - 1, a);
    AreaBoth(CoverRects(v, m - 1), CoverRow(v, m - 1, a));
    if m > 1 {
      RowsArea(v, m - 1);
      assert (m - 1) * (25 * (a - 1)) == (m - 2) * (25 * (a - 1)) + 25 * (a - 1);
    } else {
      Area0();
    }
  }

  // The cover has room for no more modules than the size formula takes away.
  lemma CoverArea(v: Version)
    ensures SideOf(v) * SideOf(v) - Area(Cover(v)) == GetNumRawDataModules(v)
  {
    hide CoverRects, Area;
    var n, a := SideOf(v), NumAlign(v);
    FixedArea(n);
    VersionArea(v);
    AreaBoth(FixedCover(n), CoverRects(v, a));
    AreaBoth(FixedCover(n) + CoverRects(v, a), VersionRects(v));
    if v > 1 {
      RowsArea(v, a);
      assert a == 2 || a == 3 || a == 4 || a == 5 || a == 6 || a == 7;
    } else {
      NoCover(v);
    }
    assert n * n == 16 * v * v + 136 * v + 289;
    assert (16 * v + 128) * v + 64 == 16 * v * v + 128 * v + 64;
  }

  lemma NoCover(v: Version)
    ensures Area(CoverRects(v, 0)) == 0
  {}

  lemma FixedArea(n: int)
    requires n >= 21
    ensures Area(FixedCover(n)) == 225 + 2 * (n - 17)
  {
    hide Area;
    var a, b := [Rect(6, 9, 1, n - 17), Rect(9, 6, n - 17, 1)], [Rect(0, 0, 9, 9), Rect(n - 8, 0, 8, 9)];
    Area2(a[0], a[1]);
    Area2(b[0], b[1]);
    Area1(Rect(0, n - 8, 9, 8));
    AreaBoth(a, b);
    AreaBoth(a + b, [Rect(0, n - 8, 9, 8)]);
    assert FixedCover(n) == a + b + [Rect(0, n - 8, 9, 8)];
  }

  lemma VersionArea(v: Version)
    ensures Area(VersionRects(v)) == if v >= 7 then 36 else 0
  {
    hide Area;
    Area0();
    Area2(Rect(SideOf(v) - 11, 0, 3, 6), Rect(0, SideOf(v) - 11, 6, 3));
  }

  // ---- the cover holds every function module ----

  lemma FixedCovered(n: int, x: int, y: int)
    requires n >= 21 && Inside(n, x, y) && InAny(FixedRects(n), x, y)
    ensures InAny(FixedCover(n), x, y)
  {
    var i :| 0 <= i < |FixedRects(n)| && InRect(FixedRects(n)[i], x, y);
    var cover := FixedCover(n);
    if i >= 2 {
      MemberOf(cover, i, x, y);
    } else {
      LineCovered(n, x, y);
    }
  }

  lemma LineCovered(n: int, x: int, y: int)
    requires n >= 21 && Inside(n, x, y) && (x == 6 || y == 6)
    ensures InAny(FixedCover(n), x, y)
  {
    var cover := FixedCover(n);
    if x < 9 && y < 9 {
      MemberOf(cover, 2, x, y);
    } else if x >= n - 8 && y < 9 {
      MemberOf(cover, 3, x, y);
    } else if x < 9 && y >= n - 8 {
      MemberOf(cover, 4, x, y);
    } else if x == 6 {
      MemberOf(cover, 0, x, y);
    } else {
      MemberOf(cover, 1, x, y);
    }
  }

  // A module of an alignment pattern is on a timing line or in the rest of the pattern.
  lemma PatternCovered(v: Version, i: int, j: int, x: int, y: int)
    requires 0 <= i < NumAlign(v) && 0 <= j < NumAlign(v) && InAny(AlignRect(v, i, j), x, y)
    ensures x == 6 || y == 6 || InAny(AlignCover(v, i, j), x, y)
  {
    hide AlignStep;
    var cover := AlignCover(v, i, j);
    if i == 0 {
      if x < 6 { MemberOf(cover, 0, x, y); } else if x > 6 { MemberOf(cover, 1, x, y); }
    } else if j == 0 {
      if y < 6 { MemberOf(cover, 0, x, y); } else if y > 6 { MemberOf(cover, 1, x, y); }
    } else {
      MemberOf(cover, 0, x, y);
    }
  }

  lemma {:induction false} RowCovered(v: Version, i: int, m: nat, x: int, y: int)
    requires 0 <= i < NumAlign(v) && m <= NumAlign(v) && InAny(AlignRow(v, i, m), x, y)
    ensures x == 6 || y == 6 || InAny(CoverRow(v, i, m), x, y)
    decreases m
  {
    hide InAny, AlignRect, AlignCover;
    if m > 0 {
      InOneMore(AlignRow(v, i, m - 1), AlignRect(v, i, m - 1), x, y);
      InOneMore(CoverRow(v, i, m - 1), AlignCover(v, i, m - 1), x, y);
      if InAny(AlignRow(v, i, m - 1), x, y) { RowCovered(v, i, m - 1, x, y); }
      else { PatternCovered(v, i, m - 1, x, y); }
    } else {
      InNone(x, y);
    }
  }

  lemma InNone(x: int, y: int)
    ensures !InAny([], x, y)
  {}

  lemma {:induction false} RectsCovered(v: Version, m: nat, x: int, y: int)
    requires m <= NumAlign(v) && InAny(AlignRects(v, m), x, y)
    ensures x == 6 || y == 6 || InAny(CoverRects(v, m), x, y)
    decreases m
  {
    hide InAny, AlignRow, CoverRow;
    if m > 0 {
      var a := NumAlign(v);
      InOneMore(AlignRects(v, m - 1), AlignRow(v, m - 1, a), x, y);
      InOneMore(CoverRects(v, m - 1), CoverRow(v, m - 1, a), x, y);
      if InAny(AlignRects(v, m - 1), x, y) { RectsCovered(v, m - 1, x, y); } else { RowCovered(v, m - 1, a, x, y); }
    } else {
      InNone(x, y);
    }
  }

  lemma Covered(v: Version, x: int, y: int)
    requires Inside(SideOf(v), x, y) && IsFunction(v, x, y)
    ensures InAny(Cover(v), x, y)
  {
    hide InAny, AlignRects, CoverRects, FixedRects, FixedCover, VersionRects;
    var n, a := SideOf(v), NumAlign(v);
    InOneMore(FixedRects(n) + AlignRects(v, a), VersionRects(v), x, y);
    InOneMore(FixedRects(n), AlignRects(v, a), x, y);
    InOneMore(FixedCover(n) + CoverRects(v, a), VersionRects(v), x, y);
    InOneMore(FixedCover(n), CoverRects(v, a), x, y);
    if InAny(FixedRects(n), x, y) { FixedCovered(n, x, y); }
    if InAny(AlignRects(v, a), x, y) { RectsCovered(v, a, x, y); }
    if x == 6 || y == 6 { LineCovered(n, x, y); }
  }

  // ---- room for the codewords ----

  // All modules that are not function modules.
  ghost function LightCells(q: seq<bv8>, n: int): set<(int, int)>
    requires Grid(q, n)
  {
    set x, y | 0 <= x < n && 0 <= y < n && !Module(q, n, x, y) :: (x, y)
  }

  lemma LightAre(q: seq<bv8>, n: int, c: (int, int))
    requires Grid(q, n)
    ensures c in LightCells(q, n) <==> Inside(n, c.0, c.1) && !Module(q, n, c.0, c.1)
  {
    hide Module;
  }

  lemma CellsAre(n: int, rects: seq<Rect>, c: (int, int))
    ensures c in CellsOf(n, rects) <==> Inside(n, c.0, c.1) && InAny(rects, c.0, c.1)
  {
    hide InAny;
  }

  lemma LightCount(q: seq<bv8>, v: Version)
    requires FunctionGrid(q, v)
    ensures |LightCells(q, SideOf(v))| >= GetNumRawDataModules(v)
  {
    hide Module, InAny, Cover, FunctionRects, GetNumRawDataModules, LightCells, CellsOf, Area;
    var n := SideOf(v);
    var all := RectCells(Rect(0, 0, n, n), n);
    var light, covered := LightCells(q, n), CellsOf(n, Cover(v));
    forall c | c in all ensures c in light + covered {
      LightAre(q, n, c);
      CellsAre(n, Cover(v), c);
      if Module(q, n, c.0, c.1) { Covered(v, c.0, c.1); }
    }
    SubsetSize(all, light + covered);
    UnionSize(light, covered);
    CoverSize(n, Cover(v));
    CoverArea(v);
  }

  lemma {:induction false} ElementsSize(s: seq<(int, int)>)
    requires forall i, j :: 0 <= i < j < |s| ==> s[i] != s[j]
    ensures |set c | c in s| == |s|
    decreases |s|
  {
    if s != [] {
      var k := |s| - 1;
      ElementsSize(s[..k]);
      assert s == s[..k] + [s[k]];
      assert (set c | c in s) == (set c | c in s[..k]) + {s[k]};
      assert s[k] !in s[..k];
    }
  }

  lemma ColumnSix(v: Version, y: int)
    requires 0 <= y < SideOf(v)
    ensures IsFunction(v, 6, y)
  {
    hide AlignRects, VersionRects;
    var rects := FunctionRects(v);
    assert rects[0] == Rect(6, 0, 1, SideOf(v));
    MemberOf(rects, 0, 6, y);
  }

  // The scan has room for all code words of the version: what drawCodewords asserts at its end.
  lemma RoomForCodewords(q: seq<bv8>, v: Version)
    requires FunctionGrid(q, v)
    ensures Side(SideOf(v)) && Grid(q, SideOf(v)) && Total(SideOf(v)) >= 0
    ensures RawCodewords(v) * 8 <= |FreeCells(q, SideOf(v), Total(SideOf(v)))|
  {
    hide Module, InAny, FunctionRects, GetNumRawDataModules, LightCells, RankOf, FreeCells;
    var n := SideOf(v);
    ProgressStart(q, n, []);
    var free := FreeCells(q, n, Total(n));
    FreeCellsDistinct(q, n, Total(n));
    FreeCellsExact(q, n, Total(n));
    ElementsSize(free);
    forall c | c in LightCells(q, n) ensures c in free {
      LightAre(q, n, c);
      if c.0 == 6 { ColumnSix(v, c.1); }
      ScanReaches(n, c.0, c.1);
    }
    SubsetSize(LightCells(q, n), set c | c in free);
    LightCount(q, v);
  }
}
