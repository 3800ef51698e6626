// The runs of a line of modules and the finder-like patterns among them (ISO/IEC 18004:2015 section 7.8.3).
module QrRuns {
  type Line = seq<bool>

  // ---- runs: light and dark in turn, light first ----

  predicate Dark(i: nat) {
    i % 2 == 1
  }

  function Extended(r: seq<nat>, dark: bool): (e: seq<nat>)
    requires r != []
    ensures e != []
  {
    var last := |r| - 1;
    if dark == Dark(last) then r[last := r[last] + 1] else r + [1]
  }

  function Runs(line: Line): (r: seq<nat>)
    ensures r != []
  {
    if line == [] then [0] else Extended(Runs(line[..|line| - 1]), line[|line| - 1])
  }

  function Solid(dark: bool, n: nat): (line: Line)
    ensures |line| == n
  {
    if n == 0 then [] else Solid(dark, n - 1) + [dark]
  }

  // The line that runs describe.
  function LineOf(r: seq<nat>): Line {
    if r == [] then [] else LineOf(r[..|r| - 1]) + Solid(Dark(|r| - 1), r[|r| - 1])
  }

  // Only the first run may be empty.
  predicate Proper(r: seq<nat>) {
    r != [] && forall i :: 0 < i < |r| ==> r[i] > 0
  }

  function Sum(r: seq<nat>): nat {
    if r == [] then 0 else Sum(r[..|r| - 1]) + r[|r| - 1]
  }

  lemma RunsStep(line: Line, dark: bool)
    ensures Runs(line + [dark]) == Extended(Runs(line), dark)
  {
    assert (line + [dark])[..|line|] == line;
  }

  lemma RunsNothing()
    ensures Runs([]) == [0]
  {}

  lemma SumStep(r: seq<nat>, x: nat)
    ensures Sum(r + [x]) == Sum(r) + x
  {
    assert (r + [x])[..|r|] == r;
  }

  lemma LineStep(r: seq<nat>, x: nat)
    ensures LineOf(r + [x]) == LineOf(r) + Solid(Dark(|r|), x)
  {
    assert (r + [x])[..|r|] == r;
  }

  lemma OneRun(x: nat)
    ensures LineOf([x]) == Solid(false, x) && Sum([x]) == x
  {
    assert [x][..0] == [];
  }

  // The runs of a line are proper and describe it.
  lemma {:induction false} RunsRebuild(line: Line)
    ensures Proper(Runs(line)) && LineOf(Runs(line)) == line
  {
    hide Runs, LineOf, Solid, Proper, Extended;
    if line == [] {
      RunsNothing();
      OneRun(0);
      SolidStep(false, 0);
      NothingProper();
    } else {
      var front, dark := line[..|line| - 1], line[|line| - 1];
      RunsRebuild(front);
      RunsStep(front, dark);
      ExtendedLine(Runs(front), dark);
      assert front + [dark] == line;
    }
  }

  lemma NothingProper()
    ensures Proper([0])
  {}

  lemma ExtendedLine(r: seq<nat>, dark: bool)
    requires Proper(r)
    ensures Proper(Extended(r, dark)) && LineOf(Extended(r, dark)) == LineOf(r) + [dark]
  {
    hide LineOf, Solid;
    var last := |r| - 1;
    var front := r[..last];
    assert r == front + [r[last]];
    LineStep(front, r[last]);
    if dark == Dark(last) {
      assert Extended(r, dark) == front + [r[last] + 1];
      LineStep(front, r[last] + 1);
      SolidStep(dark, r[last]);
    } else {
      LineStep(r, 1);
      SolidStep(dark, 0);
    }
  }

  lemma SolidStep(dark: bool, n: nat)
    ensures Solid(dark, n + 1) == Solid(dark, n) + [dark] && Solid(dark, 0) == []
  {}

  // and no other proper runs do.
  lemma {:induction false} RunsUnique(r: seq<nat>)
    requires Proper(r)
    ensures Runs(LineOf(r)) == r
    decreases Sum(r)
  {
    hide LineOf, Solid, Runs, Extended;
    if r[|r| - 1] == 0 {
      NoModules(r);
    } else {
      var less := Shortened(r);
      RunsUnique(less);
      RunsStep(LineOf(less), Dark(|r| - 1));
    }
  }

  // The runs without the last module.
  lemma Shortened(r: seq<nat>) returns (less: seq<nat>)
    requires Proper(r) && r[|r| - 1] > 0
    ensures Proper(less) && Sum(less) < Sum(r) && Extended(less, Dark(|r| - 1)) == r
    ensures LineOf(r) == LineOf(less) + [Dark(|r| - 1)]
  {
    hide LineOf, Solid, Sum, Dark;
    var last := |r| - 1;
    var front, x := r[..last], r[last];
    assert r == front + [x];
    LineStep(front, x);
    SumStep(front, x);
    SolidStep(Dark(last), x - 1);
    if x > 1 || last == 0 {
      less := front + [x - 1];
      assert less[last := less[last] + 1] == r;
      LineStep(front, x - 1);
      SumStep(front, x - 1);
    } else {
      less := front;
      DarkTurns(last);
      SolidStep(Dark(last), 0);
    }
  }

  lemma DarkTurns(i: nat)
    requires i > 0
    ensures Dark(i) != Dark(i - 1)
  {}

  lemma NoModules(r: seq<nat>)
    requires Proper(r) && r[|r| - 1] == 0
    ensures r == [0] && Runs(LineOf(r)) == r
  {
    OneRun(0);
  }

  lemma {:induction false} RunsSum(line: Line)
    ensures Sum(Runs(line)) == |line|
  {
    hide Runs, Sum, Extended;
    if line == [] {
      RunsNothing();
      OneRun(0);
    } else {
      var front, dark := line[..|line| - 1], line[|line| - 1];
      RunsSum(front);
      RunsStep(front, dark);
      ExtendedSum(Runs(front), dark);
      assert front + [dark] == line;
    }
  }

  lemma ExtendedSum(r: seq<nat>, dark: bool)
    requires r != []
    ensures Sum(Extended(r, dark)) == Sum(r) + 1
  {
    hide Sum;
    var last := |r| - 1;
    assert r == r[..last] + [r[last]];
    SumStep(r[..last], r[last]);
    if dark == Dark(last) {
      assert Extended(r, dark) == r[..last] + [r[last] + 1];
      SumStep(r[..last], r[last] + 1);
    } else {
      SumStep(r, 1);
    }
  }

  // ---- a light border on both sides ----

  function Bordered(line: Line, n: nat): Line {
    Solid(false, n) + line + Solid(false, n)
  }

  lemma {:induction false} LightRuns(n: nat)
    ensures Runs(Solid(false, n)) == [n]
  {
    hide Runs, Solid;
    SolidStep(false, if n > 0 then n - 1 else 0);
    if n == 0 {
      RunsNothing();
    } else {
      LightRuns(n - 1);
      RunsStep(Solid(false, n - 1), false);
    }
  }

  lemma {:induction false} LeftBorder(line: Line, n: nat)
    ensures Runs(Solid(false, n) + line) == Runs(line)[0 := Runs(line)[0] + n]
  {
    hide Runs, Solid, Extended;
    if line == [] {
      RunsNothing();
      LightRuns(n);
      assert Solid(false, n) + line == Solid(false, n);
    } else {
      var front, dark := line[..|line| - 1], line[|line| - 1];
      LeftBorder(front, n);
      RunsStep(front, dark);
      RunsStep(Solid(false, n) + front, dark);
      ExtendedBorder(Runs(front), dark, n);
      assert front + [dark] == line;
      assert Solid(false, n) + line == (Solid(false, n) + front) + [dark];
    }
  }

  lemma ExtendedBorder(r: seq<nat>, dark: bool, n: nat)
    requires r != []
    ensures Extended(r[0 := r[0] + n], dark) == Extended(r, dark)[0 := Extended(r, dark)[0] + n]
  {}

  function Closed(r: seq<nat>, n: nat): seq<nat>
    requires r != []
  {
    var last := |r| - 1;
    if Dark(last) then r + [n] else r[last := r[last] + n]
  }

  lemma {:induction false} RightBorder(line: Line, n: nat)
    requires n > 0
    ensures Runs(line + Solid(false, n)) == Closed(Runs(line), n)
  {
    hide Runs, Solid;
    SolidStep(false, n - 1);
    RunsStep(line + Solid(false, n - 1), false);
    assert line + Solid(false, n) == (line + Solid(false, n - 1)) + [false];
    if n == 1 { assert line + Solid(false, 0) == line; } else { RightBorder(line, n - 1); }
  }

  // ---- long runs ----

  const PENALTY_N1: int := 3
  const PENALTY_N3: int := 40

  // Five modules of one colour, and every one more.
  function RunScore(length: nat): nat {
    if length >= 5 then PENALTY_N1 + length - 5 else 0
  }

  function LongRuns(r: seq<nat>): nat {
    if r == [] then 0 else LongRuns(r[..|r| - 1]) + RunScore(r[|r| - 1])
  }

  lemma LongRunsStep(r: seq<nat>, x: nat)
    ensures LongRuns(r + [x]) == LongRuns(r) + RunScore(x)
  {
    assert (r + [x])[..|r|] == r;
  }

  lemma {:induction false} LongRunsBounded(r: seq<nat>)
    ensures LongRuns(r) <= Sum(r)
  {
    if r != [] { LongRunsBounded(r[..|r| - 1]); }
  }

  // ---- finder-like patterns: dark runs 1 : 1 : 3 : 1 : 1 between light ones, one of them at least four wide ----

  function PatternsAtEnd(r: seq<nat>): nat {
    if |r| < 7 then 0
    else
      var i := |r| - 1;
      var n := r[i - 1];
      var core := n > 0 && r[i - 2] == n && r[i - 3] == n * 3 && r[i - 4] == n && r[i - 5] == n;
      (if core && r[i] >= n * 4 && r[i - 6] >= n then 1 else 0)
      + (if core && r[i - 6] >= n * 4 && r[i] >= n then 1 else 0)
  }

  // The patterns that end with a light run.
  function Finders(r: seq<nat>): nat {
    if r == [] then 0
    else Finders(r[..|r| - 1]) + if Dark(|r| - 1) then 0 else PatternsAtEnd(r)
  }

  lemma FindersStep(r: seq<nat>, x: nat)
    ensures Finders(r + [x]) == Finders(r) + if Dark(|r|) then 0 else PatternsAtEnd(r + [x])
  {
    assert (r + [x])[..|r|] == r;
  }

  // A pattern takes four modules that no earlier one has.
  lemma {:induction false} FindersBounded(r: seq<nat>)
    requires |r| >= 3 && !Dark(|r| - 1)
    ensures 2 * Finders(r) <= Sum(r[1..|r| - 2])
  {
    hide PatternsAtEnd, Sum;
    var i := |r| - 1;
    assert r == (r[..i - 1] + [r[i - 1]]) + [r[i]];
    FindersStep(r[..i - 1], r[i - 1]);
    FindersStep(r[..i - 1] + [r[i - 1]], r[i]);
    if |r| == 3 {
      FewRuns(r);
    } else {
      FindersBounded(r[..i - 1]);
      var before := r[..i - 1][1..i - 3];
      assert r[1..i - 1] == (before + [r[i - 3]]) + [r[i - 2]];
      SumStep(before, r[i - 3]);
      SumStep(before + [r[i - 3]], r[i - 2]);
      PatternWidth(r);
    }
  }

  lemma FewRuns(r: seq<nat>)
    requires |r| == 3
    ensures PatternsAtEnd(r) == 0 && Finders(r[..1]) == 0
  {
    assert r[..1][..0] == [];
  }

  lemma PatternWidth(r: seq<nat>)
    requires |r| >= 5
    ensures 2 * PatternsAtEnd(r) <= r[|r| - 4] + r[|r| - 3]
  {}

  // ---- the score of a line ----

  function LineScore(line: Line, n: nat): nat {
    LongRuns(Runs(line)) + PENALTY_N3 * Finders(Runs(Bordered(line, n)))
  }

  lemma SumFront(r: seq<nat>, n: nat)
    requires |r| >= 3 && r[0] >= n && r[|r| - 1] >= n
    ensures Sum(r[1..|r| - 2]) + 2 * n <= Sum(r)
  {
    hide Sum;
    var i := |r| - 1;
    assert r == (r[..i - 1] + [r[i - 1]]) + [r[i]];
    SumStep(r[..i - 1], r[i - 1]);
    SumStep(r[..i - 1] + [r[i - 1]], r[i]);
    SumHead(r[..i - 1]);
    assert r[..i - 1][1..] == r[1..i - 1];
  }

  lemma {:induction false} SumHead(r: seq<nat>)
    requires r != []
    ensures Sum(r) == r[0] + Sum(r[1..])
  {
    var last := |r| - 1;
    if last == 0 {
      assert r == [r[0]] && r[1..] == [];
      OneRun(r[0]);
    } else {
      SumHead(r[..last]);
      assert r[1..] == r[..last][1..] + [r[last]];
      SumStep(r[..last][1..], r[last]);
    }
  }

  lemma LineBounded(line: Line, n: nat)
    requires |line| == n > 0
    ensures LineScore(line, n) <= 21 * n
  {
    hide Runs, Finders, LongRuns, Sum;
    RunsSum(line);
    LongRunsBounded(Runs(line));
    var whole := Bordered(line, n);
    var r := Runs(whole);
    RunsSum(whole);
    LeftBorder(line, n);
    RightBorder(Solid(false, n) + line, n);
    if |r| == 1 { NoFinders(r); } else {
      FindersBounded(r);
      SumFront(r, n);
    }
  }

  lemma NoFinders(r: seq<nat>)
    requires |r| == 1
    ensures Finders(r) == 0
  {
    assert r[..0] == [];
  }
}
