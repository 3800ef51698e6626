// The permutation in place, as the code computes it.
module Keccak {
  import opened KeccakSpec

  // ---- theta in place ----

  method ComputeColumn(state: array<bv64>, index: int) returns (c: bv64)
    requires state.Length == 25 && 0 <= index < 5
    ensures c == Column(state[..], index)
  {
    hide Xor;
    c := Xor(state[index], state[index + 5]);
    c := Xor(c, state[index + 10]);
    c := Xor(c, state[index + 15]);
    c := Xor(c, state[index + 20]);
  }

  method ComputeColumns(state: array<bv64>, column: array<bv64>)
    requires state.Length == 25 && column.Length == 5 && state != column
    modifies column
    ensures forall x :: 0 <= x < 5 ==> column[x] == Column(state[..], x)
  {
    hide Column;
    var index := 0;
    while index < 5
      invariant 0 <= index <= 5
      invariant forall x :: 0 <= x < index ==> column[x] == Column(state[..], x)
    {
      column[index] := ComputeColumn(state, index);
      index := index + 1;
    }
  }

  // Columns below index have received their delta.
  ghost predicate ThetaBefore(s: Lanes, state: seq<bv64>, index: int) {
    |state| == 25
    && forall k :: 0 <= k < 25 ==> state[k] == if k % 5 < index then Xor(s[k], Delta(s, k % 5)) else s[k]
  }

  lemma ThetaAll(s: Lanes, state: seq<bv64>)
    requires ThetaBefore(s, state, 5)
    ensures state == Theta(s)
  {
    hide Xor, Delta;
  }

  method ThetaInPlace(state: array<bv64>)
    requires state.Length == 25
    modifies state
    ensures state[..] == Theta(old(state[..]))
  {
    hide Xor, RotateLeft, Column, Delta, Theta;
    ghost var s: Lanes := state[..];
    var column := new bv64[5];
    ComputeColumns(state, column);
    var index := 0;
    while index < 5
      invariant 0 <= index <= 5
      invariant forall x :: 0 <= x < 5 ==> column[x] == Column(s, x)
      invariant ThetaBefore(s, state[..], index)
    {
      var before, after := (index + 4) % 5, (index + 1) % 5;
      DeltaIs(s, index);
      var delta := Xor(column[before], RotateLeft(column[after], 1));
      AddToColumn(state, index, delta);
      index := index + 1;
    }
    ThetaAll(s, state[..]);
  }

  lemma DeltaIs(s: Lanes, x: int)
    requires 0 <= x < 5
    ensures Delta(s, x) == Xor(Column(s, (x + 4) % 5), RotateLeft(Column(s, (x + 1) % 5), 1))
  {
    hide Xor, RotateLeft, Column;
  }

  method AddToColumn(state: array<bv64>, index: int, delta: bv64)
    requires state.Length == 25 && 0 <= index < 5
    modifies state
    ensures forall k :: 0 <= k < 25 ==> state[k] == if k % 5 == index then Xor(old(state[k]), delta) else old(state[k])
  {
    hide Xor;
    var row := 0;
    while row < 25
      invariant 0 <= row <= 25 && row % 5 == 0
      invariant forall k :: 0 <= k < 25 ==>
        state[k] == if k % 5 == index && k < row then Xor(old(state[k]), delta) else old(state[k])
    {
      state[row + index] := Xor(state[row + index], delta);
      row := row + 5;
    }
  }

  // ---- rho and pi in place: one lane is carried along the walk ----

  // The lanes written by the first i steps of the walk.
  ghost predicate Walked(s: Lanes, state: seq<bv64>, i: nat) {
    |state| == 25 && i <= 24
    && forall k :: 0 <= k < 25 ==>
      state[k] == if k > 0
        && StepOf(k) < i then RotateLeft(s[WalkSource(StepOf(k))], RotationOffset(StepOf(k))) else s[k]
  }

  lemma WalkedStep(s: Lanes, state: seq<bv64>, i: nat)
    requires Walked(s, state, i) && i < 24
    ensures state[PermutationIndex(i)] == s[WalkSource(i + 1)]
    ensures Walked(s, state[PermutationIndex(i) := RotateLeft(s[WalkSource(i)], RotationOffset(i))], i + 1)
  {
    hide RotateLeft, StepOf, PermutationIndex, WalkSource, RotationOffset;
    WalkIsPermutation(i);
    WalkSourceNext(i);
    var d := PermutationIndex(i);
    var next := state[d := RotateLeft(s[WalkSource(i)], RotationOffset(i))];
    forall k | 0 <= k < 25
      ensures next[k] == if k > 0 && StepOf(k) < i + 1
        then RotateLeft(s[WalkSource(StepOf(k))], RotationOffset(StepOf(k))) else s[k]
    {
      if k > 0 && StepOf(k) == i { WalkCovers(k); }
    }
  }

  lemma WalkSourceNext(i: nat)
    requires i < 24
    ensures WalkSource(i + 1) == PermutationIndex(i)
  {
    hide PermutationIndex;
  }

  lemma WalkedAll(s: Lanes, state: seq<bv64>)
    requires Walked(s, state, 24)
    ensures state == Pi(Rho(s))
  {
    hide RotateLeft, StepOf, PermutationIndex, WalkSource, RotationOffset, RhoOffset;
    LaneZero();
    var p := Pi(Rho(s));
    forall k | 0 <= k < 25
      ensures state[k] == p[k]
    {
      if k > 0 {
        WalkCovers(k);
        WalkIsRhoPi(StepOf(k));
      } else {
        RotateByZero(s[0]);
      }
    }
  }

  lemma LaneZero()
    ensures PiSource(0) == 0 && RhoOffset(0) == 0
  {}

  lemma RotateByZero(v: bv64)
    ensures RotateLeft(v, 0) == v
  {}

  lemma WalkedNone(s: Lanes)
    ensures Walked(s, s, 0) && WalkSource(0) == 1
  {
    hide RotateLeft, StepOf, PermutationIndex, RotationOffset;
  }

  method RhoPiInPlace(state: array<bv64>)
    requires state.Length == 25
    modifies state
    ensures state[..] == Pi(Rho(old(state[..])))
  {
    hide RotateLeft, StepOf, PermutationIndex, WalkSource, RotationOffset, Walked;
    ghost var s: Lanes := state[..];
    WalkedNone(s);
    var current := state[1];
    var index := 0;
    while index < 24
      invariant 0 <= index <= 24
      invariant Walked(s, state[..], index) && current == s[WalkSource(index)]
    {
      WalkedStep(s, state[..], index);
      var destination := PermutationIndex(index);
      var saved := state[destination];
      state[destination] := RotateLeft(current, RotationOffset(index));
      current := saved;
      index := index + 1;
    }
    WalkedAll(s, state[..]);
  }

  // ---- chi in place, row by row ----

  method ChiRow(state: array<bv64>, row: int)
    requires state.Length == 25 && 0 <= row <= 20 && row % 5 == 0
    modifies state
    ensures forall k :: 0 <= k < 25 ==>
      state[k] == if row <= k < row + 5 then ChiLane(old(state[..]), row, k - row) else old(state[k])
  {
    hide Xor, AndNot, ChiLane;
    ghost var s: Lanes := state[..];
    var values := new bv64[5];
    var index := 0;
    while index < 5
      invariant 0 <= index <= 5
      invariant state[..] == s
      invariant forall x :: 0 <= x < index ==> values[x] == s[row + x]
    {
      values[index] := state[row + index];
      index := index + 1;
    }
    index := 0;
    while index < 5
      invariant 0 <= index <= 5
      invariant forall x :: 0 <= x < 5 ==> values[x] == s[row + x]
      invariant forall k :: 0 <= k < 25 ==>
        state[k] == if row <= k < row + index then ChiLane(s, row, k - row) else s[k]
    {
      var next, second := (index + 1) % 5, (index + 2) % 5;
      ChiLaneIs(s, row, index);
      state[row + index] := Xor(values[index], AndNot(values[next], values[second]));
      index := index + 1;
    }
  }

  lemma ChiLaneIs(s: Lanes, row: int, x: int)
    requires 0 <= row <= 20 && 0 <= x < 5
    ensures ChiLane(s, row, x) == Xor(s[row + x], AndNot(s[row + (x + 1) % 5], s[row + (x + 2) % 5]))
  {
    hide Xor, AndNot;
  }

  lemma ChiAt(s: Lanes, row: int, x: int)
    requires 0 <= row <= 20 && row % 5 == 0 && 0 <= x < 5
    ensures Chi(s)[row + x] == ChiLane(s, row, x)
  {
    hide ChiLane;
    assert (row + x) % 5 == x && (row + x) / 5 * 5 == row;
  }

  method ChiInPlace(state: array<bv64>)
    requires state.Length == 25
    modifies state
    ensures state[..] == Chi(old(state[..]))
  {
    hide Xor, AndNot, Chi, ChiLane;
    ghost var s: Lanes := state[..];
    var row := 0;
    while row < 25
      invariant 0 <= row <= 25 && row % 5 == 0
      invariant forall k :: 0 <= k < 25 ==> state[k] == if k < row then Chi(s)[k] else s[k]
    {
      ghost var before: Lanes := state[..];
      ChiRow(state, row);
      ChiRowLocal(s, before, row);
      row := row + 5;
    }
    assert state[..] == Chi(s);
  }

  // A row of chi reads that row only.
  lemma ChiRowLocal(s: Lanes, t: Lanes, row: int)
    requires 0 <= row <= 20 && row % 5 == 0
    requires forall k :: row <= k < row + 5 ==> s[k] == t[k]
    ensures forall k :: row <= k < row + 5 ==> Chi(s)[k] == ChiLane(t, row, k - row)
  {
    hide Xor, AndNot, Chi, ChiLane;
    forall k | row <= k < row + 5
      ensures Chi(s)[k] == ChiLane(t, row, k - row)
    {
      ChiAt(s, row, k - row);
      ChiLaneIs(s, row, k - row);
      ChiLaneIs(t, row, k - row);
    }
  }

  lemma RoundIs(s: Lanes, t: Lanes, i: nat)
    requires i < ROUNDS && t == Chi(Pi(Rho(Theta(Rounds(s, i)))))
    ensures Rounds(s, i + 1) == t[0 := Xor(t[0], RoundConstant(i))]
  {
    hide Xor, Theta, Rho, Pi, Chi, RoundConstant;
  }

  lemma NoRounds(s: Lanes)
    ensures Rounds(s, 0) == s && Permutation(s) == Rounds(s, ROUNDS) && ROUNDS == 24
  {
    hide Round;
  }

  method KeccakPermutation(state: array<bv64>)
    requires state.Length == 25
    modifies state
    ensures state[..] == Permutation(old(state[..]))
  {
    hide *;
    ghost var s: Lanes := state[..];
    NoRounds(s);
    var round := 0;
    while round < 24
      invariant 0 <= round <= 24
      invariant state[..] == Rounds(s, round)
    {
      ThetaInPlace(state);
      RhoPiInPlace(state);
      ChiInPlace(state);
      RoundIs(s, state[..], round);
      state[0] := Xor(state[0], RoundConstant(round));
      round := round + 1;
    }
  }
}
