// The binary case: rows of hashes with the duplicate written out, and how one leaf's change runs up through them.
module MerkleRows {
  import opened MerkleSpec

  // A row with its duplicate; a single hash is the root and has none.
  function Pad(level: seq<string>): seq<string> {
    if |level| > 1 && |level| % 2 == 1 then level + [level[|level| - 1]] else level
  }

  // One hash for every pair.
  function PairUp(h: Hash, row: seq<string>): (p: seq<string>)
    ensures |p| == |row| / 2 && forall i :: 0 <= i < |p| ==> p[i] == h(row[2 * i] + row[2 * i + 1])
  {
    Pairs(h, row, |row| / 2)
  }

  function Pairs(h: Hash, row: seq<string>, n: nat): (p: seq<string>)
    requires 2 * n <= |row|
    ensures |p| == n && forall i :: 0 <= i < n ==> p[i] == h(row[2 * i] + row[2 * i + 1])
    decreases n
  {
    if n == 0 then [] else Pairs(h, row, n - 1) + [h(row[2 * n - 2] + row[2 * n - 1])]
  }

  lemma PadEven(level: seq<string>)
    requires |level| > 1
    ensures |Pad(level)| % 2 == 0 && |Pad(level)| / 2 == GroupCount(|level|, 2)
  {}

  // Pairing the padded row is the rule for two children.
  lemma PairsAreNextLevel(h: Hash, level: seq<string>)
    requires |level| > 1
    ensures |Pad(level)| % 2 == 0 && PairUp(h, Pad(level)) == NextLevel(h, level, 2)
  {
    hide GroupCount;
    PadEven(level);
    var p, q := PairUp(h, Pad(level)), NextLevel(h, level, 2);
    forall i | 0 <= i < |p| ensures p[i] == q[i] {
      PairIsParent(h, level, i);
    }
  }

  lemma PairIsParent(h: Hash, level: seq<string>, i: nat)
    requires |level| > 1 && 2 * i + 1 < |Pad(level)|
    ensures Parent(h, level, 2, i) == h(Pad(level)[2 * i] + Pad(level)[2 * i + 1])
  {
    var c := Children(level, 2, i, 2);
    assert c[0] == Pad(level)[2 * i] && c[1] == Pad(level)[2 * i + 1];
    assert c == [c[0], c[1]];
    JoinTwo(c[0], c[1]);
  }

  lemma JoinTwo(x: string, y: string)
    ensures Join([x, y]) == x + y
  {
    assert [x, y][..1] == [x];
    assert [x][..0] == [];
    assert Join([x]) == x;
  }

  // The hashes of level l without the duplicate.
  function LevelAt(h: Hash, level: seq<string>, l: nat): seq<string> {
    if l == 0 then level
    else
      var below := LevelAt(h, level, l - 1);
      if |below| > 1 then PadEven(below); PairUp(h, Pad(below)) else below
  }

  lemma {:induction false} LevelAtRoot(h: Hash, level: seq<string>, l: nat)
    requires level != []
    ensures LevelAt(h, level, l) != [] && Root(h, LevelAt(h, level, l), 2) == Root(h, level, 2)
    decreases l
  {
    hide Root, LevelAt, PairUp, Pad;
    if l == 0 {
      LevelZero(h, level);
    } else {
      LevelAtRoot(h, level, l - 1);
      LevelUp(h, level, l);
      var below := LevelAt(h, level, l - 1);
      if |below| > 1 { RootUp(h, below); }
    }
  }

  lemma LevelZero(h: Hash, level: seq<string>)
    requires level != []
    ensures LevelAt(h, level, 0) == level
  {}

  lemma LevelUp(h: Hash, level: seq<string>, l: nat)
    requires l > 0
    ensures var below := LevelAt(h, level, l - 1);
      if |below| > 1 then |Pad(below)| % 2 == 0 && LevelAt(h, level, l) == PairUp(h, Pad(below))
      else LevelAt(h, level, l) == below
  {
    hide PairUp, Pad;
    var below := LevelAt(h, level, l - 1);
    if |below| > 1 { PadEven(below); }
  }

  lemma RootUp(h: Hash, level: seq<string>)
    requires |level| > 1
    ensures |Pad(level)| % 2 == 0 && PairUp(h, Pad(level)) != []
    ensures Root(h, PairUp(h, Pad(level)), 2) == Root(h, level, 2)
  {
    hide PairUp, Pad, NextLevel, GroupCount;
    PadEven(level);
    GroupCountShrinks(|level|, 2);
    PairsAreNextLevel(h, level);
  }

  // ---- a changed leaf ----

  lemma PadUpdate(level: seq<string>, k: nat, x: string)
    requires k < |level|
    ensures |Pad(level[k := x])| == |Pad(level)|
    ensures Pad(level[k := x])
      == if k == |level| - 1 && |Pad(level)| > |level| then Pad(level)[k := x][k + 1 := x] else Pad(level)[k := x]
  {}

  // Only the parent of the changed hash changes.
  lemma PairUpdate(h: Hash, level: seq<string>, k: nat, x: string)
    requires k < |level| && |level| > 1
    ensures |Pad(level)| % 2 == 0 && |Pad(level[k := x])| % 2 == 0 && k / 2 < |Pad(level)| / 2
    ensures var p := Pad(level[k := x]);
      PairUp(h, p) == PairUp(h, Pad(level))[k / 2 := h(p[k / 2 * 2] + p[k / 2 * 2 + 1])]
  {
    PadUpdate(level, k, x);
    PadEven(level);
    var p, q := PairUp(h, Pad(level[k := x])), PairUp(h, Pad(level));
    forall i | 0 <= i < |p| && i != k / 2 ensures p[i] == q[i] {
      assert 2 * i != k && 2 * i + 1 != k;
      assert k == |level| - 1 && |Pad(level)| > |level| ==> 2 * i != k + 1 && 2 * i + 1 != k + 1;
    }
  }
}
