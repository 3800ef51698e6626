// The penalty score of a symbol (ISO/IEC 18004:2015 section 7.8.3).
module QrPenalty {
  import opened Arithmetic
  import opened QrGrid
  import opened QrRuns

  // ---- the modules of a symbol ----

  type Matrix = seq<seq<bool>>

  predicate At(m: Matrix, x: int, y: int) {
    0 <= y < |m| && 0 <= x < |m[y]| && m[y][x]
  }

  // The modules shown by a buffer.
  function MatrixOf(q: seq<bv8>, n: int): Matrix
    requires Grid(q, n)
  {
    seq(n, y requires 0 <= y < n => seq(n, x requires 0 <= x < n => Module(q, n, x, y)))
  }

  lemma MatrixAt(q: seq<bv8>, n: int, x: int, y: int)
    requires Grid(q, n) && Inside(n, x, y)
    ensures At(MatrixOf(q, n), x, y) == Module(q, n, x, y)
  {
    hide Module;
  }

  // Row or column k.
  function LineAt(m: Matrix, n: nat, row: bool, k: int): (line: Line)
    ensures |line| == n
  {
    seq(n, i => if row then At(m, i, k) else At(m, k, i))
  }

  // ---- the parts of the score ----

  const PENALTY_N2: int := 3
  const PENALTY_N4: int := 10

  function LinesScore(m: Matrix, n: nat, row: bool, k: nat): nat {
    if k == 0 then 0 else LinesScore(m, n, row, k - 1) + LineScore(LineAt(m, n, row, k - 1), n)
  }

  // Four modules of one colour.
  predicate Block(m: Matrix, x: int, y: int) {
    At(m, x, y) == At(m, x + 1, y) == At(m, x, y + 1) == At(m, x + 1, y + 1)
  }

  // The cells of a w * w square, in reading order before (x, y), with the property p.
  ghost function Before(w: nat, x: nat, y: nat, p: (int, int) -> bool): set<(int, int)> {
    set u: int, v: int | 0 <= u < w && 0 <= v <= y && (v < y || u < x) && p(u, v) :: (u, v)
  }

  ghost function AllOf(w: nat, p: (int, int) -> bool): set<(int, int)> {
    Before(w, 0, w, p)
  }

  ghost function BlockAt(m: Matrix): (int, int) -> bool {
    (x, y) => Block(m, x, y)
  }

  ghost function DarkAt(m: Matrix): (int, int) -> bool {
    (x, y) => At(m, x, y)
  }

  function Distance(d: int): nat {
    if d < 0 then -d else d
  }

  function Imbalance(dark: int, total: nat): int
    requires total > 0
  {
    (Distance(dark * 20 - total * 10) + total - 1) / total - 1
  }

  ghost function PenaltyScore(m: Matrix, n: nat): int
    requires n > 0
  {
    LinesScore(m, n, true, n) + LinesScore(m, n, false, n) + PENALTY_N2 * |AllOf(n - 1, BlockAt(m))|
    + PENALTY_N4 * Imbalance(|AllOf(n, DarkAt(m))|, n * n)
  }

  // ---- the balance: the smallest k with (45 - 5k)% <= dark / total <= (55 + 5k)% ----

  predicate Balanced(k: int, dark: int, total: nat) {
    (45 - 5 * k) * total <= 100 * dark <= (55 + 5 * k) * total
  }

  lemma ImbalanceIsLeast(dark: nat, total: nat)
    requires dark <= total && total % 2 == 1
    ensures var k := Imbalance(dark, total);
      0 <= k <= 9 && Balanced(k, dark, total) && forall j :: 0 <= j < k ==> !Balanced(j, dark, total)
  {
    var d := Distance(dark * 20 - total * 10);
    var k := Imbalance(dark, total);
    Quotient(d, total);
    assert d != 0;
    assert k * total < d <= (k + 1) * total;
    BalancedIs(k, dark, total);
    assert 0 <= k by { if k < 0 { NotPositive(k + 1, total); } }
    assert k <= 9 by { if k >= 10 { Larger(k, 10, total); } }
    forall j | 0 <= j < k ensures !Balanced(j, dark, total) {
      BalancedIs(j, dark, total);
      Larger(k, j + 1, total);
    }
  }

  lemma Quotient(d: nat, total: nat)
    requires total > 0
    ensures var k := (d + total - 1) / total - 1; k * total < d <= (k + 1) * total
  {
    var e := d + total - 1;
    assert e == e / total * total + e % total;
    assert (e / total - 1) * total == e / total * total - total;
  }

  lemma NotPositive(k: int, total: nat)
    requires k <= 0
    ensures k * total <= 0
  {}

  lemma Larger(k: int, j: int, total: nat)
    requires j <= k
    ensures j * total <= k * total
  {}

  lemma BalancedIs(k: int, dark: nat, total: nat)
    ensures Balanced(k, dark, total) <==> Distance(dark * 20 - total * 10) <= (k + 1) * total
  {
    assert (45 - 5 * k) * total == 50 * total - 5 * ((k + 1) * total);
    assert (55 + 5 * k) * total == 50 * total + 5 * ((k + 1) * total);
  }

  // ---- counting cells ----

  lemma NextCell(w: nat, x: nat, y: nat, p: (int, int) -> bool)
    requires x < w
    ensures |Before(w, x + 1, y, p)| == |Before(w, x, y, p)| + if p(x, y) then 1 else 0
  {
    var s, t := Before(w, x, y, p), Before(w, x + 1, y, p);
    assert t == if p(x, y) then s + {(x as int, y as int)} else s;
  }

  lemma NextRow(w: nat, y: nat, p: (int, int) -> bool)
    ensures Before(w, 0, y + 1, p) == Before(w, w, y, p)
  {
    assert forall u, v :: (u, v) in Before(w, 0, y + 1, p) <==> (u, v) in Before(w, w, y, p);
  }

  lemma NoCells(w: nat, p: (int, int) -> bool)
    ensures Before(w, 0, 0, p) == {}
  {}

  lemma {:induction false} CellsBounded(w: nat, y: nat, p: (int, int) -> bool)
    ensures |Before(w, 0, y, p)| <= w * y
  {
    if y == 0 {
      NoCells(w, p);
    } else {
      CellsBounded(w, y - 1, p);
      RowBounded(w, w, y - 1, p);
      NextRow(w, y - 1, p);
      OneMore(w, y);
    }
  }

  lemma {:induction false} RowBounded(w: nat, x: nat, y: nat, p: (int, int) -> bool)
    requires x <= w
    ensures |Before(w, x, y, p)| <= |Before(w, 0, y, p)| + x
  {
    if x > 0 {
      RowBounded(w, x - 1, y, p);
      NextCell(w, x - 1, y, p);
    }
  }

  // ---- the bound that the source asserts ----

  const MAX_PENALTY: int := 2568888

  lemma {:induction false} LinesBounded(m: Matrix, n: nat, row: bool, k: nat)
    requires n > 0
    ensures LinesScore(m, n, row, k) <= 21 * n * k
  {
    hide LineScore;
    if k > 0 {
      LinesBounded(m, n, row, k - 1);
      LineBounded(LineAt(m, n, row, k - 1), n);
      OneMore(21 * n, k);
    }
  }

  lemma OneMore(a: nat, k: nat)
    requires k > 0
    ensures a * k == a * (k - 1) + a
  {}

  lemma PenaltyBounded(m: Matrix, n: nat)
    requires 0 < n <= 177 && n % 2 == 1
    ensures 0 <= Imbalance(|AllOf(n, DarkAt(m))|, n * n) <= 9
    ensures 0 <= PenaltyScore(m, n) <= MAX_PENALTY
  {
    hide LinesScore, Before, Imbalance;
    LinesBounded(m, n, true, n);
    LinesBounded(m, n, false, n);
    CellsBounded(n - 1, n - 1, BlockAt(m));
    CellsBounded(n, n, DarkAt(m));
    SquareOdd(n);
    ImbalanceIsLeast(|AllOf(n, DarkAt(m))|, n * n);
    Squares(n);
  }

  lemma SquareOdd(n: nat)
    requires n % 2 == 1
    ensures n * n % 2 == 1
  {
    var h := n / 2;
    assert n * n == 2 * (2 * h * h + 2 * h) + 1;
  }

  lemma Squares(n: nat)
    requires 0 < n <= 177
    ensures 21 * n * n <= 657909 && (n - 1) * (n - 1) <= 30976
  {
    MulMono(n, n, 177);
    MulMono(n - 1, n - 1, 176);
    assert 21 * n * n == 21 * (n * n);
  }

  // ---- reading modules ----

  method IsDark(q: array<bv8>, x: int, y: int, ghost n: int) returns (dark: bool)
    requires Grid(q[..], n) && Inside(n, x, y)
    ensures dark == At(MatrixOf(q[..], n), x, y)
  {
    hide Module, MatrixOf, At, Grid;
    MatrixAt(q[..], n, x, y);
    dark := GetModuleBounded(q, x, y, n);
  }

  // The module i of a line.
  method IsLineDark(q: array<bv8>, row: bool, k: int, i: int, ghost n: int) returns (dark: bool)
    requires Grid(q[..], n) && 0 <= k < n && 0 <= i < n
    ensures dark == LineAt(MatrixOf(q[..], n), n, row, k)[i]
  {
    hide At, Grid, MatrixOf;
    dark := IsDark(q, if row then i else k, if row then k else i, n);
  }

  // ---- scoring a line ----

  // The last seven runs, the latest first, with zeros for runs that are not there.
  ghost predicate HistoryOf(history: seq<int>, done: seq<nat>) {
    |history| == 7 && forall k :: 0 <= k < 7 ==> history[k] == if k < |done| then done[|done| - 1 - k] else 0
  }

  method FinderPenaltyAddHistory(currentRunLength: int, runHistory: array<int>, qrsize: int, ghost done: seq<nat>)
    requires HistoryOf(runHistory[..], done) && (done != [] ==> done[|done| - 1] > 0) && currentRunLength >= 0
    requires qrsize > 0
    modifies runHistory
    ensures HistoryOf(runHistory[..], done + [if done == [] then currentRunLength + qrsize else currentRunLength])
  {
    var length := currentRunLength;
    if runHistory[0] == 0 {
      length := length + qrsize;
    }
    var k := 6;
    while k > 0
      invariant 0 <= k <= 6
      invariant forall i :: 0 <= i <= k ==> runHistory[i] == old(runHistory[i])
      invariant forall i :: k < i < 7 ==> runHistory[i] == old(runHistory[i - 1])
    {
      runHistory[k] := runHistory[k - 1];
      k := k - 1;
    }
    runHistory[0] := length;
  }

  // The source's assertion about the length of a run holds too.
  method FinderPenaltyCountPatterns(runHistory: array<int>, ghost done: seq<nat>, ghost qrsize: int)
    returns (count: int)
    requires HistoryOf(runHistory[..], done) && |done| % 2 == 1 && Sum(done) <= 3 * qrsize
    ensures count == PatternsAtEnd(done) && runHistory[1] <= 3 * qrsize
  {
    hide Sum;
    HistoryAt(runHistory[..], done);
    var n := runHistory[1];
    if |done| > 1 { RunInSum(done, |done| - 2); }
    var core := n > 0 && runHistory[2] == n && runHistory[3] == n * 3 && runHistory[4] == n && runHistory[5] == n;
    count := (if core && runHistory[0] >= n * 4 && runHistory[6] >= n then 1 else 0)
      + (if core && runHistory[6] >= n * 4 && runHistory[0] >= n then 1 else 0);
  }

  lemma HistoryAt(history: seq<int>, done: seq<nat>)
    requires HistoryOf(history, done)
    ensures forall k :: 0 <= k < 7 && k < |done| ==> history[k] == done[|done| - 1 - k]
    ensures forall k :: |done| <= k < 7 ==> history[k] == 0
  {}

  lemma {:induction false} RunInSum(r: seq<nat>, i: nat)
    requires i < |r|
    ensures r[i] <= Sum(r)
  {
    if i < |r| - 1 { RunInSum(r[..|r| - 1], i); }
  }

  // All runs so far with the light border before them.
  ghost function WithBorder(r: seq<nat>, n: nat): (b: seq<nat>)
    requires r != []
    ensures |b| == |r|
  {
    r[0 := r[0] + n]
  }

  // What the loop over a line keeps: the finished runs, the colour and length of the last one, and the score.
  ghost predicate LineState(front: Line, n: nat, runColor: bool, runX: int, done: seq<nat>, score: int) {
    var r := Runs(front);
    var last := |r| - 1;
    && Proper(r) && done == WithBorder(r, n)[..last] && runColor == Dark(last) && runX == r[last]
    && score == LongRuns(r) + PENALTY_N3 * Finders(done)
  }

  lemma NoModulesYet(n: nat)
    ensures LineState([], n, false, 0, [], 0)
  {
    RunsNothing();
    LongRunsStep([], 0);
    assert [] + [0] == [0];
  }

  lemma LastFinished(front: Line, n: nat, runColor: bool, runX: int, done: seq<nat>, score: int)
    requires LineState(front, n, runColor, runX, done, score) && n > 0
    ensures runX >= 0 && runColor == Dark(|done|) && (done != [] ==> done[|done| - 1] > 0)
    ensures runColor ==> runX > 0
    ensures WithBorder(Runs(front), n) == done + [if done == [] then runX + n else runX]
  {
    hide Runs, Finders, LongRuns, WithBorder, Dark;
    BorderParts(Runs(front), n);
  }

  lemma BorderParts(r: seq<nat>, n: nat)
    requires Proper(r) && n > 0
    ensures var last := |r| - 1;
      var done := WithBorder(r, n)[..last];
      && WithBorder(r, n) == done + [if done == [] then r[last] + n else r[last]]
      && (done != [] ==> done[|done| - 1] > 0) && (Dark(last) ==> r[last] > 0)
  {}

  lemma SumSoFar(front: Line, n: nat)
    ensures Sum(WithBorder(Runs(front), n)) == |front| + n
  {
    hide Runs, Sum, Solid;
    LeftBorder(front, n);
    RunsSum(Solid(false, n) + front);
  }

  lemma SameColour(front: Line, n: nat, runColor: bool, runX: int, done: seq<nat>, score: int)
    requires LineState(front, n, runColor, runX, done, score)
    ensures var more := if runX + 1 == 5 then PENALTY_N1 else if runX + 1 > 5 then 1 else 0;
      LineState(front + [runColor], n, runColor, runX + 1, done, score + more)
  {
    hide Runs, Finders, LongRuns;
    var r := Runs(front);
    var last := |r| - 1;
    RunsStep(front, runColor);
    assert r == r[..last] + [r[last]];
    LongRunsStep(r[..last], r[last]);
    assert Extended(r, runColor) == r[..last] + [r[last] + 1];
    LongRunsStep(r[..last], r[last] + 1);
  }

  lemma OtherColour(front: Line, n: nat, runColor: bool, runX: int, done: seq<nat>, score: int, finished: seq<nat>)
    requires LineState(front, n, runColor, runX, done, score) && finished == WithBorder(Runs(front), n)
    ensures LineState(front + [!runColor], n, !runColor, 1, finished,
      score + if runColor then 0 else PENALTY_N3 * PatternsAtEnd(finished))
  {
    hide Runs, Finders, LongRuns, PatternsAtEnd;
    var r := Runs(front);
    var last := |r| - 1;
    RunsStep(front, !runColor);
    LongRunsStep(r, 1);
    assert finished == done + [finished[last]];
    FindersStep(done, finished[last]);
  }

  lemma AllBordered(line: Line, n: nat)
    requires n > 0
    ensures Runs(Bordered(line, n)) == Closed(WithBorder(Runs(line), n), n)
    ensures Sum(Runs(Bordered(line, n))) == |line| + 2 * n
  {
    hide Runs, Sum, Solid, Closed;
    LeftBorder(line, n);
    RightBorder(Solid(false, n) + line, n);
    RunsSum(Bordered(line, n));
  }

  // The whole line: its last run and the border behind it.
  lemma Terminated(line: Line, n: nat, runColor: bool, runX: int, done: seq<nat>, score: int, finished: seq<nat>)
    requires LineState(line, n, runColor, runX, done, score) && |line| == n > 0
    requires finished == Closed(WithBorder(Runs(line), n), n)
    ensures |finished| % 2 == 1 && Sum(finished) == 3 * n
    ensures LineScore(line, n) == score + PENALTY_N3 * PatternsAtEnd(finished)
  {
    hide Runs, Finders, LongRuns, PatternsAtEnd, Sum, Bordered;
    AllBordered(line, n);
    LastFinished(line, n, runColor, runX, done, score);
    ClosedFinders(WithBorder(Runs(line), n), done, n);
  }

  lemma ClosedFinders(b: seq<nat>, done: seq<nat>, n: nat)
    requires b != [] && done == b[..|b| - 1]
    ensures |Closed(b, n)| % 2 == 1 && Finders(Closed(b, n)) == Finders(done) + PatternsAtEnd(Closed(b, n))
  {
    hide Finders, PatternsAtEnd;
    var last := |b| - 1;
    assert b == done + [b[last]];
    FindersStep(done, b[last]);
    if Dark(last) {
      FindersStep(b, n);
    } else {
      assert Closed(b, n) == done + [b[last] + n];
      FindersStep(done, b[last] + n);
    }
  }

  // The last run of a line, with the border behind it.
  method FinderPenaltyTerminateAndCount(currentRunColor: bool, currentRunLength: int, runHistory: array<int>,
      qrsize: int, ghost done: seq<nat>, ghost finished: seq<nat>) returns (count: int)
    requires qrsize > 0 && currentRunLength >= 0 && HistoryOf(runHistory[..], done)
    requires currentRunColor == Dark(|done|) && (done != [] ==> done[|done| - 1] > 0)
    requires currentRunColor ==> currentRunLength > 0
    requires finished
      == Closed(done + [if done == [] then currentRunLength + qrsize else currentRunLength], qrsize)
    requires Sum(finished) == 3 * qrsize
    modifies runHistory
    ensures count == PatternsAtEnd(finished)
  {
    hide HistoryOf, Sum, PatternsAtEnd;
    var length := currentRunLength;
    ghost var b := done;
    if currentRunColor {
      FinderPenaltyAddHistory(length, runHistory, qrsize, done);
      b := done + [length];
      length := 0;
    }
    length := length + qrsize;
    FinderPenaltyAddHistory(length, runHistory, qrsize, b);
    assert finished == b + [if b == [] then length + qrsize else length];
    count := FinderPenaltyCountPatterns(runHistory, finished, qrsize);
  }

  // The colour changes: the run so far is over.
  method EndRun(runColor: bool, runX: int, runHistory: array<int>, qrsize: int, score: int, ghost front: Line,
      ghost done: seq<nat>) returns (more: int, ghost finished: seq<nat>)
    requires |front| <= qrsize && qrsize > 0
    requires LineState(front, qrsize, runColor, runX, done, score) && HistoryOf(runHistory[..], done)
    modifies runHistory
    ensures LineState(front + [!runColor], qrsize, !runColor, 1, finished, more) && HistoryOf(runHistory[..], finished)
  {
    hide HistoryOf, Sum, PatternsAtEnd, LineState, WithBorder, Runs;
    LastFinished(front, qrsize, runColor, runX, done, score);
    finished := WithBorder(Runs(front), qrsize);
    OtherColour(front, qrsize, runColor, runX, done, score, finished);
    SumSoFar(front, qrsize);
    FinderPenaltyAddHistory(runX, runHistory, qrsize, done);
    more := score;
    if !runColor {
      var count := FinderPenaltyCountPatterns(runHistory, finished, qrsize);
      more := score + count * PENALTY_N3;
    }
  }

  method EndLine(runColor: bool, runX: int, runHistory: array<int>, qrsize: int, score: int, ghost line: Line,
      ghost done: seq<nat>) returns (total: int)
    requires |line| == qrsize > 0
    requires LineState(line, qrsize, runColor, runX, done, score) && HistoryOf(runHistory[..], done)
    modifies runHistory
    ensures total == LineScore(line, qrsize)
  {
    hide HistoryOf, Sum, PatternsAtEnd, LineState, WithBorder, Runs, LineScore, Closed;
    LastFinished(line, qrsize, runColor, runX, done, score);
    ghost var closed := Closed(WithBorder(Runs(line), qrsize), qrsize);
    Terminated(line, qrsize, runColor, runX, done, score, closed);
    var count := FinderPenaltyTerminateAndCount(runColor, runX, runHistory, qrsize, done, closed);
    total := score + count * PENALTY_N3;
  }

  // One row or column.
  method ScoreLine(q: array<bv8>, row: bool, k: int, ghost n: int) returns (score: int)
    requires Grid(q[..], n) && 0 <= k < n
    ensures score == LineScore(LineAt(MatrixOf(q[..], n), n, row, k), n)
  {
    hide HistoryOf, Sum, PatternsAtEnd, LineState, LineScore, WithBorder, Module, Grid, Closed, MatrixOf, LineAt, Runs;
    GridSide(q[..], n);
    ghost var line := LineAt(MatrixOf(q[..], n), n, row, k);
    var qrsize := q[0] as int;
    var runColor, runX := false, 0;
    var runHistory := new int[7];
    ClearHistory(runHistory);
    ghost var done: seq<nat> := [];
    score := 0;
    NoModulesYet(n);
    assert line[..0] == [];
    var i := 0;
    while i < qrsize
      invariant 0 <= i <= qrsize && LineState(line[..i], n, runColor, runX, done, score)
      invariant HistoryOf(runHistory[..], done)
    {
      assert line[..i + 1] == line[..i] + [line[i]];
      var dark := IsLineDark(q, row, k, i, n);
      if dark == runColor {
        SameColour(line[..i], n, runColor, runX, done, score);
        runX := runX + 1;
        if runX == 5 {
          score := score + PENALTY_N1;
        } else if runX > 5 {
          score := score + 1;
        }
      } else {
        score, done := EndRun(runColor, runX, runHistory, qrsize, score, line[..i], done);
        runColor, runX := dark, 1;
      }
      i := i + 1;
    }
    assert line[..n] == line;
    score := EndLine(runColor, runX, runHistory, qrsize, score, line, done);
  }

  method ClearHistory(runHistory: array<int>)
    requires runHistory.Length == 7
    modifies runHistory
    ensures HistoryOf(runHistory[..], [])
  {
    var k := 0;
    while k < 7
      invariant 0 <= k <= 7 && forall i :: 0 <= i < k ==> runHistory[i] == 0
    {
      runHistory[k] := 0;
      k := k + 1;
    }
  }

  method ScoreLines(q: array<bv8>, row: bool, ghost n: int) returns (score: int)
    requires Grid(q[..], n)
    ensures score == LinesScore(MatrixOf(q[..], n), n, row, n)
  {
    hide Module, LineScore;
    var qrsize := q[0] as int;
    score := 0;
    var k := 0;
    while k < qrsize
      invariant 0 <= k <= qrsize && score == LinesScore(MatrixOf(q[..], n), n, row, k)
    {
      var line := ScoreLine(q, row, k, n);
      score := score + line;
      k := k + 1;
    }
  }

  lemma PropertyAt(m: Matrix, x: int, y: int)
    ensures BlockAt(m)(x, y) == Block(m, x, y) && DarkAt(m)(x, y) == At(m, x, y)
  {}

  method IsBlock(q: array<bv8>, x: int, y: int, ghost n: int) returns (block: bool)
    requires Grid(q[..], n) && Inside(n, x, y) && Inside(n, x + 1, y + 1)
    ensures block == Block(MatrixOf(q[..], n), x, y)
  {
    hide Module, At, Grid;
    var color := IsDark(q, x, y, n);
    var right := IsDark(q, x + 1, y, n);
    var below := IsDark(q, x, y + 1, n);
    var across := IsDark(q, x + 1, y + 1, n);
    block := color == right && color == below && color == across;
  }

  lemma NextBlock(m: Matrix, w: nat, x: nat, y: nat)
    requires x < w
    ensures PENALTY_N2 * |Before(w, x + 1, y, BlockAt(m))|
      == PENALTY_N2 * |Before(w, x, y, BlockAt(m))| + if Block(m, x, y) then PENALTY_N2 else 0
  {
    hide Before, Block;
    NextCell(w, x, y, BlockAt(m));
    PropertyAt(m, x, y);
  }

  method CountBlocks(q: array<bv8>, ghost n: int) returns (score: int)
    requires Grid(q[..], n)
    ensures score == PENALTY_N2 * |AllOf(n - 1, BlockAt(MatrixOf(q[..], n)))|
  {
    hide Module, Before, MatrixOf, BlockAt, Block, Grid;
    GridSide(q[..], n);
    var qrsize := q[0] as int;
    ghost var m := MatrixOf(q[..], n);
    ghost var p := BlockAt(m);
    score := 0;
    NoCells(n - 1, p);
    var y := 0;
    while y < qrsize - 1
      invariant 0 <= y <= qrsize - 1 && score == PENALTY_N2 * |Before(n - 1, 0, y, p)|
    {
      var x := 0;
      while x < qrsize - 1
        invariant 0 <= x <= qrsize - 1 && score == PENALTY_N2 * |Before(n - 1, x, y, p)|
      {
        NextBlock(m, n - 1, x, y);
        var block := IsBlock(q, x, y, n);
        if block {
          score := score + PENALTY_N2;
        }
        x := x + 1;
      }
      NextRow(n - 1, y, p);
      y := y + 1;
    }
  }

  method CountDark(q: array<bv8>, ghost n: int) returns (dark: int)
    requires Grid(q[..], n)
    ensures dark == |AllOf(n, DarkAt(MatrixOf(q[..], n)))|
  {
    hide Module, Before, MatrixOf, DarkAt, At, Grid;
    GridSide(q[..], n);
    var qrsize := q[0] as int;
    ghost var p := DarkAt(MatrixOf(q[..], n));
    dark := 0;
    NoCells(n, p);
    var y := 0;
    while y < qrsize
      invariant 0 <= y <= qrsize && dark == |Before(n, 0, y, p)|
    {
      var x := 0;
      while x < qrsize
        invariant 0 <= x <= qrsize && dark == |Before(n, x, y, p)|
      {
        NextCell(n, x, y, p);
        PropertyAt(MatrixOf(q[..], n), x, y);
        var color := IsDark(q, x, y, n);
        if color {
          dark := dark + 1;
        }
        x := x + 1;
      }
      NextRow(n, y, p);
      y := y + 1;
    }
  }

  // getPenaltyScore; both of the source's assertions hold.
  method GetPenaltyScore(q: array<bv8>, ghost n: int) returns (result: int)
    requires Grid(q[..], n) && n % 2 == 1
    ensures result == PenaltyScore(MatrixOf(q[..], n), n) && 0 <= result <= MAX_PENALTY
  {
    hide Module, Before, LinesScore, LineScore;
    var qrsize := q[0] as int;
    var rows := ScoreLines(q, true, n);
    var columns := ScoreLines(q, false, n);
    var blocks := CountBlocks(q, n);
    var dark := CountDark(q, n);
    var total := qrsize * qrsize;
    PenaltyBounded(MatrixOf(q[..], n), n);
    var k := Imbalance(dark, total);
    assert 0 <= k <= 9;
    result := rows + columns + blocks + k * PENALTY_N4;
  }
}
