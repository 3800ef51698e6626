// The block tree: a pointer tree over blocks, with proofs for blocks and hashes that can be refreshed in place.
module MerkleTree {
  import opened Options
  import opened MerkleSpec
  import opened MerkleRows
  import opened BinaryMerkle
  import opened MerkleProofText

  // ---- reading one node of a built tree ----

  lemma NodeAt(h: Hash, rows: seq<Row>, values: seq<string>, l: nat, k: nat)
    requires rows != [] && Built(h, rows, values) && l < |rows| && k < |rows[l].nodes|
    ensures |rows[l].hashes| == |rows[l].nodes|
    ensures var n := rows[l].nodes[k];
      && Down(n, rows[l].hashes[k], BelowOf(rows, values, l), k >= rows[l].count, k)
      && n.parent == ParentAt(AboveOf(rows, l), k) && n.level == l && n.index == k
  {
    hide Built, Down, Measured, BelowOf, AboveOf;
    BuiltRow(h, rows, values, l);
    var row := rows[l];
    ChildrenLevel(row.nodes, row.hashes, row.count, BelowOf(rows, values, l), AboveOf(rows, l), l);
    assert ChildOk(row.nodes[k], row.hashes[k], BelowOf(rows, values, l), k >= row.count, ParentAt(AboveOf(rows, l), k),
        l, k);
  }

  // Sizes and hashes of a row below the root.
  lemma RowAt(h: Hash, rows: seq<Row>, values: seq<string>, l: nat)
    requires Measured(h, rows, values) && l + 1 < |rows|
    ensures 1 < rows[l].count && MadeEven(rows[l].count, |rows[l].nodes|) && 2 * rows[l + 1].count == |rows[l].nodes|
    ensures var level := LevelAt(h, LeafHashes(h, values), l); |level| > 1 && rows[l].hashes == Pad(level)
  {
    hide LevelAt, Pad, LeafHashes;
  }

  lemma RootRow(h: Hash, rows: seq<Row>, values: seq<string>)
    requires Measured(h, rows, values)
    ensures rows != [] && rows[|rows| - 1].count == |rows[|rows| - 1].nodes| > 0
    ensures rows[|rows| - 1].hashes == LevelAt(h, LeafHashes(h, values), |rows| - 1) && rows[0].count == |values|
  {
    hide LevelAt, Pad, LeafHashes;
  }

  lemma BuiltParts(h: Hash, rows: seq<Row>, values: seq<string>)
    requires rows != [] && Built(h, rows, values)
    ensures Measured(h, rows, values)
  {
    hide RowsOk, Measured;
  }

  // The hashes of a level are as many as its nodes without the duplicate.
  lemma {:induction false} LevelCount(h: Hash, rows: seq<Row>, values: seq<string>, l: nat)
    requires rows != [] && Built(h, rows, values) && l < |rows|
    ensures rows[l].count == |LevelAt(h, LeafHashes(h, values), l)| <= |rows[l].nodes| == |rows[l].hashes|
    decreases l
  {
    hide Built, LevelAt, LeafHashes, Pad, PairUp;
    BuiltParts(h, rows, values);
    BuiltRow(h, rows, values, l);
    RootRow(h, rows, values);
    HashCount(rows[l], BelowOf(rows, values, l), AboveOf(rows, l), l);
    if l + 1 < |rows| {
      RowAt(h, rows, values, l);
    }
    if l == 0 {
      LevelZero(h, LeafHashes(h, values));
    } else {
      LevelCount(h, rows, values, l - 1);
      RowAt(h, rows, values, l - 1);
      LevelNext(h, LeafHashes(h, values), l - 1);
    }
  }

  lemma LevelZero(h: Hash, level: seq<string>)
    ensures LevelAt(h, level, 0) == level
  {}

  lemma LevelNext(h: Hash, level: seq<string>, l: nat)
    requires |LevelAt(h, level, l)| > 1
    ensures LevelAt(h, level, l + 1) == PairUp(h, Pad(LevelAt(h, level, l)))
  {
    hide PairUp, Pad;
  }

  lemma HashCount(row: Row, below: Below, above: seq<Node>, l: nat)
    requires RowOk(row, below, above, l)
    ensures |row.hashes| == |row.nodes|
  {
    hide ChildOk;
  }

  // ---- finding a leaf ----

  // The ancestor of leaf n at level l.
  function Ancestor(n: nat, l: nat): nat {
    if l == 0 then n else Ancestor(n, l - 1) / 2
  }

  lemma {:induction false} AncestorReal(h: Hash, rows: seq<Row>, values: seq<string>, n: nat, l: nat)
    requires rows != [] && Built(h, rows, values) && l < |rows| && n < |values|
    ensures Ancestor(n, l) < rows[l].count
    decreases l
  {
    hide Built, MadeEven;
    BuiltParts(h, rows, values);
    if l == 0 {
      RootRow(h, rows, values);
    } else {
      AncestorReal(h, rows, values, n, l - 1);
      LevelCount(h, rows, values, l - 1);
      RowAt(h, rows, values, l - 1);
    }
  }

  // What FindLeaf meets at a node.
  lemma FindHere(h: Hash, rows: seq<Row>, values: seq<string>, l: nat, k: nat, n: nat)
    requires rows != [] && Built(h, rows, values) && l < |rows| && k < |rows[l].nodes|
    ensures var node := rows[l].nodes[k];
      if k >= rows[l].count || l == 0 then
        node.left == null && node.right == null && node.blockID == (if k >= rows[l].count then -1 else k)
      else
        && l - 1 < |rows| && 2 * k + 1 < |rows[l - 1].nodes|
        && node.left == rows[l - 1].nodes[2 * k] && node.right == rows[l - 1].nodes[2 * k + 1]
  {
    hide Built;
    NodeAt(h, rows, values, l, k);
  }

  // The leaf of block n, searched below a node: its left subtree first.
  method FindLeaf(tree: Node?, n: nat, ghost h: Hash, ghost rows: seq<Row>, ghost values: seq<string>, ghost l: nat,
      ghost k: nat)
    returns (leaf: Node?)
    requires rows != [] && Built(h, rows, values) && l < |rows| && k < |rows[l].nodes| && tree == rows[l].nodes[k]
    ensures Built(h, rows, values) && rows[0].count <= |rows[0].nodes|
    ensures leaf == if k < rows[l].count && n < rows[0].count && Ancestor(n, l) == k then rows[0].nodes[n] else null
    decreases l
  {
    hide Built;
    FindHere(h, rows, values, l, k, n);
    LevelCount(h, rows, values, 0);
    if tree == null {
      return null;
    }
    if tree.left == null && tree.right == null {
      return if tree.blockID == n then tree else null;
    }
    FindBelow(h, rows, values, l, k, n);
    var right := tree.right;
    leaf := FindLeaf(tree.left, n, h, rows, values, l - 1, 2 * k);
    if leaf != null {
      return;
    }
    leaf := FindLeaf(right, n, h, rows, values, l - 1, 2 * k + 1);
  }

  // A leaf below a node is below exactly one of its children, and that child is no duplicate.
  lemma FindBelow(h: Hash, rows: seq<Row>, values: seq<string>, l: nat, k: nat, n: nat)
    requires rows != [] && Built(h, rows, values) && 0 < l < |rows| && k < rows[l].count
    ensures rows[0].count == |values|
    ensures n < |values| ==> Ancestor(n, l - 1) < rows[l - 1].count
    ensures Ancestor(n, l) == k <==> Ancestor(n, l - 1) == 2 * k || Ancestor(n, l - 1) == 2 * k + 1
    ensures 2 * k < rows[l - 1].count
  {
    hide Built, MadeEven;
    BuiltParts(h, rows, values);
    RootRow(h, rows, values);
    if n < |values| { AncestorReal(h, rows, values, n, l - 1); }
    RowAt(h, rows, values, l - 1);
    EvenCount(rows[l - 1].count, |rows[l - 1].nodes|, k, rows[l].count);
  }

  lemma EvenCount(count: nat, n: nat, k: nat, half: nat)
    requires MadeEven(count, n) && 2 * half == n && k < half
    ensures 2 * k < count
  {}

  // ---- climbing ----

  // The pair that a node below the root belongs to.
  lemma PairHere(h: Hash, rows: seq<Row>, values: seq<string>, l: nat, k: nat)
    requires rows != [] && Built(h, rows, values) && l + 1 < |rows| && k < rows[l].count
    ensures k <= 2 * (k / 2) + 1 < |rows[l].nodes| && k / 2 < rows[l + 1].count <= |rows[l + 1].nodes|
  {
    hide *;
    BuiltParts(h, rows, values);
    RowAt(h, rows, values, l);
    LevelCount(h, rows, values, l + 1);
    HalfPair(rows[l].count, |rows[l].nodes|, rows[l + 1].count, k);
  }

  lemma HalfPair(count: nat, n: nat, half: nat, k: nat)
    requires MadeEven(count, n) && 2 * half == n && k < count
    ensures k <= 2 * (k / 2) + 1 < n && k / 2 < half
  {}

  // A node below the root knows its parent.
  lemma ParentHere(h: Hash, rows: seq<Row>, values: seq<string>, l: nat, k: nat, q: nat)
    requires rows != [] && Built(h, rows, values) && l + 1 < |rows| && k < |rows[l].nodes| && q == k / 2
    requires q < |rows[l + 1].nodes|
    ensures ParentIs(rows, l, k, q)
  {
    hide Built, Down;
    NodeAt(h, rows, values, l, k);
  }

  ghost predicate ParentIs(rows: seq<Row>, l: nat, k: nat, q: nat)
    reads NodesOf(rows)
  {
    && l + 1 < |rows| && k < |rows[l].nodes| && q < |rows[l + 1].nodes|
    && rows[l].nodes[k].parent == rows[l + 1].nodes[q]
  }

  // The parent knows both nodes of the pair, which differ.
  lemma ChildrenHere(h: Hash, rows: seq<Row>, values: seq<string>, l: nat, q: nat)
    requires rows != [] && Built(h, rows, values) && l + 1 < |rows| && q < rows[l + 1].count
    requires q < |rows[l + 1].nodes| && 2 * q + 1 < |rows[l].nodes|
    ensures rows[l + 1].nodes[q].left == rows[l].nodes[2 * q] && rows[l + 1].nodes[q].right == rows[l].nodes[2 * q + 1]
    ensures rows[l].nodes[2 * q] != rows[l].nodes[2 * q + 1]
  {
    hide Built;
    NodeAt(h, rows, values, l + 1, q);
    NodeAt(h, rows, values, l, 2 * q);
    NodeAt(h, rows, values, l, 2 * q + 1);
  }

  lemma HashBelow(h: Hash, rows: seq<Row>, values: seq<string>, l: nat, k: nat, level: seq<string>)
    requires rows != [] && Built(h, rows, values) && l + 1 < |rows| && k < |rows[l].nodes|
    requires level == LevelAt(h, LeafHashes(h, values), l)
    ensures |level| > 1 && |Pad(level)| == |rows[l].nodes| && rows[l].nodes[k].hashValue == Pad(level)[k]
    ensures rows[l].count == |level|
  {
    hide Built, LevelAt, LeafHashes, Pad;
    BuiltParts(h, rows, values);
    NodeAt(h, rows, values, l, k);
    LevelCount(h, rows, values, l);
    RowAt(h, rows, values, l);
  }

  lemma HashTop(h: Hash, rows: seq<Row>, values: seq<string>, level: seq<string>)
    requires rows != [] && Built(h, rows, values) && |rows[|rows| - 1].nodes| == 1
    requires level == LevelAt(h, LeafHashes(h, values), |rows| - 1)
    ensures |level| == 1 == rows[|rows| - 1].count && rows[|rows| - 1].nodes[0].hashValue == level[0]
  {
    hide Built, LevelAt, LeafHashes;
    BuiltParts(h, rows, values);
    NodeAt(h, rows, values, |rows| - 1, 0);
    LevelCount(h, rows, values, |rows| - 1);
    RootRow(h, rows, values);
  }

  lemma TopHere(h: Hash, rows: seq<Row>, values: seq<string>, k: nat)
    requires rows != [] && Built(h, rows, values) && k < |rows[|rows| - 1].nodes|
    ensures rows[|rows| - 1].nodes[k].parent == null
  {
    hide Built;
    NodeAt(h, rows, values, |rows| - 1, k);
  }

  // The proof text of a leaf from level l up.
  ghost function TextFrom(h: Hash, values: seq<string>, l: nat, k: nat): string
    requires k < |LevelAt(h, LeafHashes(h, values), l)|
  {
    SiblingEntries(h, LevelAt(h, LeafHashes(h, values), l), k)
  }

  lemma TextStep(h: Hash, rows: seq<Row>, values: seq<string>, l: nat, k: nat, q: nat)
    requires rows != [] && Built(h, rows, values) && l + 1 < |rows| && k < rows[l].count && q == k / 2
    requires k <= 2 * q + 1 < |rows[l].nodes|
    ensures k < |LevelAt(h, LeafHashes(h, values), l)| && q < |LevelAt(h, LeafHashes(h, values), l + 1)|
    ensures k == 2 * q ==>
      TextFrom(h, values, l, k) == "R:" + rows[l].nodes[2 * q + 1].hashValue + TextFrom(h, values, l + 1, q)
    ensures k == 2 * q + 1 ==>
      TextFrom(h, values, l, k) == "L:" + rows[l].nodes[2 * q].hashValue + TextFrom(h, values, l + 1, q)
  {
    hide Built, LevelAt, LeafHashes, Pad, PairUp, SiblingEntries;
    var level := LevelAt(h, LeafHashes(h, values), l);
    HashBelow(h, rows, values, l, 2 * q, level);
    HashBelow(h, rows, values, l, 2 * q + 1, level);
    LevelNext(h, LeafHashes(h, values), l);
    PairShrinks(h, level, k);
    SiblingsUnfold(h, level, k);
  }

  lemma TextEnd(h: Hash, rows: seq<Row>, values: seq<string>, l: nat, k: nat)
    requires rows != [] && Built(h, rows, values) && l + 1 == |rows| && k < rows[l].count && |rows[l].nodes| == 1
    ensures k < |LevelAt(h, LeafHashes(h, values), l)| && TextFrom(h, values, l, k) == ""
  {
    hide Built, LevelAt, LeafHashes;
    LevelCount(h, rows, values, l);
    HashTop(h, rows, values, LevelAt(h, LeafHashes(h, values), l));
  }

  lemma RootIs(h: Hash, rows: seq<Row>, values: seq<string>)
    requires rows != [] && Built(h, rows, values) && |rows[|rows| - 1].nodes| == 1 && values != []
    ensures rows[|rows| - 1].nodes[0].hashValue == Root(h, LeafHashes(h, values), 2)
  {
    hide Built, LevelAt, LeafHashes;
    var n := |rows| - 1;
    HashTop(h, rows, values, LevelAt(h, LeafHashes(h, values), n));
    LevelAtRoot(h, LeafHashes(h, values), n);
  }

  lemma LeafFound(h: Hash, rows: seq<Row>, values: seq<string>, n: nat)
    requires rows != [] && Built(h, rows, values) && |rows[|rows| - 1].nodes| == 1 && n < |values|
    ensures n < rows[0].count && Ancestor(n, |rows| - 1) == 0 && 0 < rows[|rows| - 1].count
  {
    hide Built;
    BuiltParts(h, rows, values);
    RootRow(h, rows, values);
    AncestorReal(h, rows, values, n, |rows| - 1);
  }

  lemma AtStart(h: Hash, rows: seq<Row>, values: seq<string>, n: nat)
    requires rows != [] && Built(h, rows, values) && n < |values|
    ensures n < rows[0].count <= |rows[0].nodes| && LevelAt(h, LeafHashes(h, values), 0) == LeafHashes(h, values)
  {
    hide Built, LeafHashes;
    LevelCount(h, rows, values, 0);
    LevelZero(h, LeafHashes(h, values));
  }

  // The leaf's own entry in front of its siblings.
  lemma FirstEntry(h: Hash, rows: seq<Row>, values: seq<string>, n: nat, q: nat)
    requires rows != [] && Built(h, rows, values) && n < |values| && |rows| > 1 && n < |rows[0].nodes| && q == n / 2
    ensures n < |LevelAt(h, LeafHashes(h, values), 0)|
    ensures ProofText(h, LeafHashes(h, values), n)
      == (if n == 2 * q then "L:" else "R:") + rows[0].nodes[n].hashValue + TextFrom(h, values, 0, n)
  {
    hide Built, LeafHashes, SiblingEntries, Pad, LevelAt;
    var base := LeafHashes(h, values);
    LevelZero(h, base);
    HashBelow(h, rows, values, 0, n, base);
    PadKeeps(base, n);
  }

  lemma OnlyEntry(h: Hash, rows: seq<Row>, values: seq<string>, n: nat)
    requires rows != [] && Built(h, rows, values) && n < |values| && |rows| == 1 && n < |rows[0].nodes|
    requires |rows[0].nodes| == 1
    ensures ProofText(h, LeafHashes(h, values), n) == "L:" + rows[0].nodes[n].hashValue
  {
    hide Built, LeafHashes, LevelAt, ProofText;
    var base := LeafHashes(h, values);
    LevelZero(h, base);
    HashTop(h, rows, values, base);
    LoneProof(h, base);
  }

  lemma LoneProof(h: Hash, level: seq<string>)
    requires |level| == 1
    ensures ProofText(h, level, 0) == "L:" + level[0]
  {
    assert SiblingEntries(h, level, 0) == "";
  }

  // ---- the tree over a list of blocks ----

  class MerkleTree {
    const h: Hash
    var root: Node?
    var blocks: seq<string>
    var blockNo: int
    ghost var rows: seq<Row>

    ghost predicate Valid()
      reads this, NodesOf(rows)
    {
      && blockNo == |blocks| - 1
      && if blocks == [] then root == null
         else rows != [] && Built(h, rows, blocks) && rows[|rows| - 1].nodes == [root]
    }

    constructor (h: Hash)
      ensures Valid() && this.h == h && blocks == []
    {
      this.h := h;
      root, blocks, blockNo, rows := null, [], -1, [];
    }

    // A block is added and the tree built anew; empty blocks are refused.
    method Append(block: string) returns (ok: bool)
      requires Valid()
      modifies this
      ensures Valid() && (ok <==> block != "")
      ensures blocks == if ok then old(blocks) + [block] else old(blocks)
    {
      hide Built;
      if block == "" {
        return false;
      }
      var newBlocks := blocks + [block];
      ghost var newRows;
      var newRoot;
      newRoot, newRows := BuildFromBlocks(h, newBlocks);
      assert newBlocks != [] && Built(h, newRows, newBlocks) && newRows[|newRows| - 1].nodes == [newRoot];
      assert forall n: Node :: n in NodesOf(newRows) ==> (n as object) != this;
      blocks := newBlocks;
      root := newRoot;
      rows := newRows;
      blockNo := |blocks| - 1;
      assert Built(h, rows, blocks);
      return true;
    }

    lemma RootPresent()
      requires Valid()
      ensures root == null <==> blocks == []
    {
      hide Built;
      if blocks != [] { assert root == rows[|rows| - 1].nodes[0]; }
    }

    method GetRootHash() returns (hash: string)
      requires Valid()
      ensures Valid() && hash == if blocks == [] then "" else Root(h, LeafHashes(h, blocks), 2)
    {
      hide Built, LeafHashes, Root;
      RootPresent();
      if root == null {
        return "";
      }
      RootIs(h, rows, blocks);
      assert root == rows[|rows| - 1].nodes[0];
      return root.hashValue;
    }

    // The proof of block n, climbing from its leaf; "" when there is no such block.
    method ProverBlock(n: int) returns (proof: string)
      requires Valid()
      ensures Valid() && proof == if 0 <= n < |blocks| then ProofText(h, LeafHashes(h, blocks), n) else ""
    {
      hide Built, LeafHashes, ProofText, TextFrom;
      RootPresent();
      if root == null || n < 0 || n > blockNo {
        return "";
      }
      var current := FindLeaf(root, n, h, rows, blocks, |rows| - 1, 0);
      LeafFound(h, rows, blocks, n);
      if current == null {
        return "";
      }
      proof := ClimbProof(current, n);
    }

    method ClimbProof(leaf: Node, ghost n: nat) returns (proof: string)
      requires blocks != [] && Valid() && n < |blocks| && n < |rows[0].nodes| && leaf == rows[0].nodes[n]
      ensures Valid() && proof == ProofText(h, LeafHashes(h, blocks), n)
    {
      hide Built, LeafHashes, ProofText, TextFrom, LevelAt;
      var current := leaf;
      AtStart(h, rows, blocks, n);
      if current.parent == null {
        ParentPresent(h, rows, blocks, 0, n);
        OnlyEntry(h, rows, blocks, n);
        return "L:" + current.hashValue;
      }
      if |rows| == 1 { TopHere(h, rows, blocks, n); }
      PairHere(h, rows, blocks, 0, n);
      ParentHere(h, rows, blocks, 0, n, n / 2);
      ChildrenHere(h, rows, blocks, 0, n / 2);
      FirstEntry(h, rows, blocks, n, n / 2);
      proof := if current.parent.left == current then "L:" else "R:";
      proof := proof + current.hashValue;
      ghost var l, k: nat := 0, n;
      while current.parent != null
        invariant Valid() && l < |rows| && k < rows[l].count <= |rows[l].nodes| && current == rows[l].nodes[k]
        invariant k < |LevelAt(h, LeafHashes(h, blocks), l)|
        invariant proof + TextFrom(h, blocks, l, k) == ProofText(h, LeafHashes(h, blocks), n)
        decreases |rows| - l
      {
        ghost var before, text := proof, TextFrom(h, blocks, l, k);
        var entry;
        current, entry := SiblingEntry(current, l, k);
        proof := proof + entry;
        l, k := l + 1, k / 2;
        assert before + (entry + TextFrom(h, blocks, l, k)) == proof + TextFrom(h, blocks, l, k);
      }
      ParentPresent(h, rows, blocks, l, k);
      TextEnd(h, rows, blocks, l, k);
      assert proof + "" == proof;
    }

    // The entry of a node's sibling, and its parent.
    method SiblingEntry(current: Node, ghost l: nat, ghost k: nat) returns (parentN: Node, entry: string)
      requires Valid() && blocks != [] && l < |rows| && k < rows[l].count <= |rows[l].nodes|
      requires current == rows[l].nodes[k]
      requires current.parent != null && k < |LevelAt(h, LeafHashes(h, blocks), l)|
      ensures Valid() && l + 1 < |rows| && k / 2 < rows[l + 1].count <= |rows[l + 1].nodes|
      ensures parentN == rows[l + 1].nodes[k / 2]
      ensures k / 2 < |LevelAt(h, LeafHashes(h, blocks), l + 1)|
      ensures TextFrom(h, blocks, l, k) == entry + TextFrom(h, blocks, l + 1, k / 2)
    {
      hide Built, LeafHashes, TextFrom, LevelAt;
      if l + 1 == |rows| { TopHere(h, rows, blocks, k); }
      parentN := current.parent;
      PairHere(h, rows, blocks, l, k);
      ParentHere(h, rows, blocks, l, k, k / 2);
      ChildrenHere(h, rows, blocks, l, k / 2);
      TextStep(h, rows, blocks, l, k, k / 2);
      var currentIsLeft := parentN.left == current;
      var sibling := if currentIsLeft then parentN.right else parentN.left;
      entry := if currentIsLeft then "R:" else "L:";
      entry := entry + sibling.hashValue;
    }

    // The hash reached by a whole proof; None for a bad direction.
    method ClimbWhole(proof: string) returns (hash: Option<string>)
      requires Valid() && |proof| >= ENTRY && |proof| % ENTRY == 0
      ensures Valid() && hash == ClimbText(h, proof[2..ENTRY], proof[ENTRY..])
    {
      hide ClimbText, Valid;
      var strHash := proof[2..ENTRY];
      var index := ENTRY;
      while index < |proof|
        invariant Valid() && ENTRY <= index <= |proof| && (|proof| - index) % ENTRY == 0
        invariant ClimbText(h, strHash, proof[index..]) == ClimbText(h, proof[2..ENTRY], proof[ENTRY..])
      {
        WholeEntry(|proof| - index);
        var info := proof[index..index + 2];
        var siblingHash := proof[index + 2..index + ENTRY];
        ClimbUnfold(h, strHash, proof, index);
        if !Direction(info) {
          return None;
        }
        if info == "L:" {
          strHash := h(siblingHash + strHash);
        } else {
          strHash := h(strHash + siblingHash);
        }
        index := index + ENTRY;
      }
      assert proof[index..] == "";
      ClimbNothing(h, strHash);
      return Some(strHash);
    }

    // Recomputes a root from a proof text and compares it with the tree's.
    method Verify(proof: string) returns (verified: bool)
      requires Valid()
      ensures Valid() && (verified <==> blocks != [] && AcceptsText(h, Root(h, LeafHashes(h, blocks), 2), proof))
    {
      hide Built, LeafHashes, Root, ClimbText;
      RootPresent();
      if root == null || |proof| < ENTRY || |proof| % ENTRY != 0 {
        return false;
      }
      if !Direction(proof[..2]) {
        return false;
      }
      RootIs(h, rows, blocks);
      assert root == rows[|rows| - 1].nodes[0];
      var rootHash := root.hashValue;
      var computed := ClimbWhole(proof);
      return computed == Some(rootHash);
    }
  }

  lemma WholeEntry(n: nat)
    requires 0 < n && n % ENTRY == 0
    ensures n >= ENTRY && (n - ENTRY) % ENTRY == 0
  {}

  lemma ClimbUnfold(h: Hash, hash: string, proof: string, index: nat)
    requires index + ENTRY <= |proof|
    ensures var info, sibling := proof[index..index + 2], proof[index + 2..index + ENTRY];
      ClimbText(h, hash, proof[index..]) ==
        if !Direction(info) then None
        else ClimbText(h, if info == "L:" then h(sibling + hash) else h(hash + sibling), proof[index + ENTRY..])
  {
    var s := proof[index..];
    assert s[..2] == proof[index..index + 2] && s[2..ENTRY] == proof[index + 2..index + ENTRY];
    assert s[ENTRY..] == proof[index + ENTRY..];
  }

  // Only the root has no parent.
  lemma ParentPresent(h: Hash, rows: seq<Row>, values: seq<string>, l: nat, k: nat)
    requires rows != [] && Built(h, rows, values) && l < |rows| && k < rows[l].count <= |rows[l].nodes|
    requires rows[l].nodes[k].parent == null
    ensures l + 1 == |rows|
  {
    hide Built;
    if l + 1 < |rows| {
      PairHere(h, rows, values, l, k);
      ParentHere(h, rows, values, l, k, k / 2);
    }
  }
}
