// The pointer-based binary Merkle tree: nodes know their children and their parent.
module BinaryMerkle {
  import opened MerkleSpec
  import opened MerkleRows

  class Node {
    ghost const level: nat   // where the node is in its tree
    ghost const index: nat
    var blockID: int
    var value: string
    var hashValue: string
    var left: Node?
    var right: Node?
    var parent: Node?

    constructor (blockID: int, value: string, hashValue: string, ghost level: nat, ghost index: nat)
      ensures this.blockID == blockID && this.value == value && this.hashValue == hashValue
      ensures left == null && right == null && parent == null && this.level == level && this.index == index
    {
      this.blockID, this.value, this.hashValue := blockID, value, hashValue;
      left, right, parent := null, null, null;
      this.level, this.index := level, index;
    }
  }

  // The nodes of one level with the duplicate, their hashes, and how many are not the duplicate.
  datatype Row = Row(nodes: seq<Node>, hashes: seq<string>, count: nat)

  datatype Below = Leaves(values: seq<string>) | Inner(row: Row)

  predicate HasBelow(below: Below, k: nat) {
    if below.Leaves? then k < |below.values| else 2 * k + 1 < |below.row.nodes|
  }

  // Everything about a node but its parent: a duplicate is a childless node without a block, a leaf holds its
  // block, an inner node points at its two children.
  ghost predicate Down(n: Node, hash: string, below: Below, duplicate: bool, k: nat)
    reads n`blockID, n`value, n`hashValue, n`left, n`right
  {
    && n.hashValue == hash
    && if duplicate then n.blockID == -1 && n.left == null && n.right == null
       else
         && HasBelow(below, k)
         && if below.Leaves? then n.blockID == k && n.value == below.values[k] && n.left == null && n.right == null
            else n.blockID == -1 && n.left == below.row.nodes[2 * k] && n.right == below.row.nodes[2 * k + 1]
  }

  method CloneHashNode(source: Node, ghost level: nat, ghost index: nat) returns (duplicate: Node)
    ensures fresh(duplicate) && duplicate.blockID == -1 && duplicate.hashValue == source.hashValue
    ensures duplicate.left == null && duplicate.right == null && duplicate.parent == null
    ensures duplicate.level == level && duplicate.index == index
  {
    duplicate := new Node(-1, "", source.hashValue, level, index);
  }

  // One pair gets its parent.
  method MakeParent(h: Hash, leftN: Node, rightN: Node, ghost level: nat, ghost index: nat) returns (parentN: Node)
    modifies leftN`parent, rightN`parent
    ensures fresh(parentN) && ParentOf(parentN, leftN, rightN, h(leftN.hashValue + rightN.hashValue), level, index)
    ensures leftN.parent == parentN && rightN.parent == parentN
  {
    parentN := new Node(-1, "", h(leftN.hashValue + rightN.hashValue), level, index);
    parentN.left := leftN;
    parentN.right := rightN;
    leftN.parent := parentN;
    rightN.parent := parentN;
  }

  ghost predicate ParentOf(p: Node, leftN: Node, rightN: Node, hash: string, level: nat, index: nat)
    reads p
  {
    p.level == level && p.index == index &&
    p.blockID == -1 && p.parent == null && p.left == leftN && p.right == rightN && p.hashValue == hash
  }

  function ParentAt(parents: seq<Node>, k: nat): Node? {
    if k / 2 < |parents| then parents[k / 2] else null
  }

  lemma ParentAtNext(parents: seq<Node>, p: Node, k: nat)
    ensures ParentAt(parents + [p], k)
      == if k == 2 * |parents| || k == 2 * |parents| + 1 then p else ParentAt(parents, k)
  {}

  ghost predicate ChildOk(n: Node, hash: string, below: Below, duplicate: bool, parent: Node?, l: nat, k: nat)
    reads n
  {
    n.level == l && n.index == k && Down(n, hash, below, duplicate, k) && n.parent == parent
  }

  // A level of which the first pairs have their parents.
  ghost predicate Children(nodes: seq<Node>, hashes: seq<string>, count: nat, below: Below, parents: seq<Node>, l: nat)
    reads nodes
  {
    && |nodes| == |hashes|
    && forall k :: 0 <= k < |nodes| ==> ChildOk(nodes[k], hashes[k], below, k >= count, ParentAt(parents, k), l, k)
  }

  ghost predicate Parents(h: Hash, nodes: seq<Node>, hashes: seq<string>, parents: seq<Node>, parentHashes: seq<string>,
      l: nat)
    reads parents
  {
    && |nodes| == |hashes| && |parents| == |parentHashes| && 2 * |parents| <= |nodes|
    && forall j :: 0 <= j < |parents| ==>
      && parentHashes[j] == h(hashes[2 * j] + hashes[2 * j + 1])
      && ParentOf(parents[j], nodes[2 * j], nodes[2 * j + 1], parentHashes[j], l + 1, j)
  }

  // The next pair of a level.
  method PairNext(h: Hash, leftN: Node, rightN: Node, ghost nodes: seq<Node>, ghost hashes: seq<string>,
      ghost count: nat, ghost below: Below, ghost parents: seq<Node>, ghost l: nat) returns (parentN: Node)
    requires Children(nodes, hashes, count, below, parents, l) && 2 * |parents| + 1 < |nodes|
    requires leftN == nodes[2 * |parents|] && rightN == nodes[2 * |parents| + 1]
    modifies nodes
    ensures fresh(parentN) && Children(nodes, hashes, count, below, parents + [parentN], l)
    ensures var i := 2 * |parents|;
      ParentOf(parentN, nodes[i], nodes[i + 1], h(hashes[i] + hashes[i + 1]), l + 1, |parents|)
  {
    hide Down;
    ghost var i := 2 * |parents|;
    assert ChildOk(leftN, hashes[i], below, i >= count, ParentAt(parents, i), l, i);
    assert ChildOk(rightN, hashes[i + 1], below, i + 1 >= count, ParentAt(parents, i + 1), l, i + 1);
    DownHash(leftN, hashes[i], below, i >= count, i);
    DownHash(rightN, hashes[i + 1], below, i + 1 >= count, i + 1);
    parentN := MakeParent(h, leftN, rightN, l + 1, |parents|);
    forall k | 0 <= k < |nodes|
      ensures ChildOk(nodes[k], hashes[k], below, k >= count, ParentAt(parents + [parentN], k), l, k)
    {
      ParentAtNext(parents, parentN, k);
      assert old(ChildOk(nodes[k], hashes[k], below, k >= count, ParentAt(parents, k), l, k));
    }
  }

  // A level with its parents, which are none for the root.
  ghost predicate RowOk(row: Row, below: Below, parents: seq<Node>, l: nat)
    reads row.nodes
  {
    Children(row.nodes, row.hashes, row.count, below, parents, l)
  }

  lemma AddDuplicate(nodes: seq<Node>, hashes: seq<string>, count: nat, below: Below, parents: seq<Node>, l: nat,
      dup: Node)
    requires Children(nodes, hashes, count, below, parents, l) && |nodes| == count && |parents| <= count / 2
    requires count > 0
    requires dup.blockID == -1 && dup.hashValue == hashes[count - 1] && dup.left == null && dup.right == null
    requires dup.parent == null && dup.level == l && dup.index == count && count % 2 == 1
    ensures Children(nodes + [dup], hashes + [hashes[count - 1]], count, below, parents, l)
  {
    var nodes', hashes' := nodes + [dup], hashes + [hashes[count - 1]];
    forall k | 0 <= k < |nodes'| ensures ChildOk(nodes'[k], hashes'[k], below, k >= count, ParentAt(parents, k), l, k) {
      if k < count { assert ChildOk(nodes[k], hashes[k], below, false, ParentAt(parents, k), l, k); }
    }
  }

  lemma ParentsPrefix(h: Hash, nodes: seq<Node>, hashes: seq<string>, nodes': seq<Node>, hashes': seq<string>,
      parents: seq<Node>, parentHashes: seq<string>, l: nat)
    requires Parents(h, nodes, hashes, parents, parentHashes, l) && nodes <= nodes' && hashes <= hashes'
    requires |nodes'| == |hashes'|
    ensures Parents(h, nodes', hashes', parents, parentHashes, l)
  {
    hide ParentOf;
  }

  lemma ChildAt(nodes: seq<Node>, hashes: seq<string>, count: nat, below: Below, parents: seq<Node>, l: nat, k: nat)
    requires Children(nodes, hashes, count, below, parents, l) && k < |nodes|
    ensures nodes[k].level == l && nodes[k].index == k && nodes[k].hashValue == hashes[k]
  {
    assert ChildOk(nodes[k], hashes[k], below, k >= count, ParentAt(parents, k), l, k);
  }

  lemma ParentsLevel(h: Hash, nodes: seq<Node>, hashes: seq<string>, parents: seq<Node>, parentHashes: seq<string>,
      l: nat)
    requires Parents(h, nodes, hashes, parents, parentHashes, l)
    ensures forall j :: 0 <= j < |parents| ==> parents[j].level == l + 1
  {}

  lemma ChildrenLevel(nodes: seq<Node>, hashes: seq<string>, count: nat, below: Below, parents: seq<Node>, l: nat)
    requires Children(nodes, hashes, count, below, parents, l)
    ensures |nodes| == |hashes| && forall k :: 0 <= k < |nodes| ==> nodes[k].level == l
  {
    hide Down;
    forall k | 0 <= k < |nodes| ensures nodes[k].level == l {
      assert ChildOk(nodes[k], hashes[k], below, k >= count, ParentAt(parents, k), l, k);
    }
  }

  lemma DownHash(n: Node, hash: string, below: Below, duplicate: bool, k: nat)
    requires Down(n, hash, below, duplicate, k)
    ensures n.hashValue == hash
  {}

  // The next pair, with the parents of the pairs before it.
  method PairOn(h: Hash, leftN: Node, rightN: Node, ghost nodes: seq<Node>, ghost hashes: seq<string>, ghost count: nat,
      ghost below: Below, ghost parents: seq<Node>, ghost parentHashes: seq<string>, ghost l: nat)
        returns (parentN: Node)
    requires Children(nodes, hashes, count, below, parents, l) && Parents(h, nodes, hashes, parents, parentHashes, l)
    requires 2 * |parents| + 1 < |nodes| && leftN == nodes[2 * |parents|] && rightN == nodes[2 * |parents| + 1]
    modifies nodes
    ensures fresh(parentN) && Children(nodes, hashes, count, below, parents + [parentN], l)
    ensures var i := 2 * |parents|;
      Parents(h, nodes, hashes, parents + [parentN], parentHashes + [h(hashes[i] + hashes[i + 1])], l)
  {
    hide Children, ParentOf;
    ParentsLevel(h, nodes, hashes, parents, parentHashes, l);
    ChildrenLevel(nodes, hashes, count, below, parents, l);
    parentN := PairNext(h, leftN, rightN, nodes, hashes, count, below, parents, l);
    forall j | 0 <= j < |parents|
      ensures ParentOf(parents[j], nodes[2 * j], nodes[2 * j + 1], parentHashes[j], l + 1, j)
    {
      assert old(ParentOf(parents[j], nodes[2 * j], nodes[2 * j + 1], parentHashes[j], l + 1, j));
    }
  }

  // The parents of a level. Its nodes get their parent, and its last node a duplicate if it has no partner.
  method BuildParents(h: Hash, current: seq<Node>, ghost hashes: seq<string>, ghost below: Below, ghost l: nat)
    returns (next: seq<Node>, ghost closed: Row)
    requires |current| > 1 && Children(current, hashes, |current|, below, [], l)
    modifies current
    ensures current <= closed.nodes && closed.hashes == Pad(hashes) && closed.count == |current|
    ensures forall k :: |current| <= k < |closed.nodes| ==> fresh(closed.nodes[k])
    ensures forall k :: 0 <= k < |next| ==> fresh(next[k])
    ensures RowOk(closed, below, next, l)
    ensures Parents(h, closed.nodes, closed.hashes, next, PairUp(h, Pad(hashes)), l)
  {
    hide Children, Parents, ChildOk, ParentOf, PairUp;
    ChildrenLevel(current, hashes, |current|, below, [], l);
    PadEven(hashes);
    next := [];
    ghost var nodes, all, nextHashes := current, hashes, [];
    NoParents(h, nodes, all, l);
    var i := 0;
    while i < |current|
      invariant i == 2 * |next| && i <= |nodes| == |all|
      invariant nodes == current || (current < nodes && i >= |current|)
      invariant |nodes| == |all| && (if nodes == current then all == hashes else all == Pad(hashes))
      invariant i >= |current| ==> |nodes| % 2 == 0
      invariant forall k :: |current| <= k < |nodes| ==> fresh(nodes[k])
      invariant forall k :: 0 <= k < |next| ==> fresh(next[k])
      invariant Children(nodes, all, |current|, below, next, l) && Parents(h, nodes, all, next, nextHashes, l)
    {
      var leftN := current[i];
      var rightN;
      if i + 1 < |current| {
        rightN := current[i + 1];
      } else {
        ChildAt(nodes, all, |current|, below, next, l, i);
        rightN := CloneHashNode(leftN, l, i + 1);
        AddDuplicate(nodes, all, |current|, below, next, l, rightN);
        ParentsPrefix(h, nodes, all, nodes + [rightN], all + [all[i]], next, nextHashes, l);
        nodes, all := nodes + [rightN], all + [all[i]];
      }
      var parentN := PairOn(h, leftN, rightN, nodes, all, |current|, below, next, nextHashes, l);
      nextHashes := nextHashes + [h(all[i] + all[i + 1])];
      next := next + [parentN];
      i := i + 2;
    }
    ParentsArePairs(h, nodes, all, next, nextHashes, l);
    closed := Row(nodes, all, |current|);
  }

  lemma NoParents(h: Hash, nodes: seq<Node>, hashes: seq<string>, l: nat)
    requires |nodes| == |hashes|
    ensures Parents(h, nodes, hashes, [], [], l)
  {}

  lemma ParentsArePairs(h: Hash, nodes: seq<Node>, hashes: seq<string>, parents: seq<Node>, parentHashes: seq<string>,
      l: nat)
    requires Parents(h, nodes, hashes, parents, parentHashes, l) && 2 * |parents| == |hashes|
    ensures parentHashes == PairUp(h, hashes)
  {}

  // ---- the tree ----

  ghost function BelowOf(rows: seq<Row>, values: seq<string>, l: nat): Below
    requires l < |rows|
  {
    if l == 0 then Leaves(values) else Inner(rows[l - 1])
  }

  ghost function AboveOf(rows: seq<Row>, l: nat): seq<Node> {
    if l + 1 < |rows| then rows[l + 1].nodes else []
  }

  ghost function NodesOf(rows: seq<Row>): set<Node> {
    set l, k | 0 <= l < |rows| && 0 <= k < |rows[l].nodes| :: rows[l].nodes[k]
  }

  ghost predicate RowsOk(rows: seq<Row>, values: seq<string>)
    reads NodesOf(rows)
  {
    forall l :: 0 <= l < |rows| ==> RowOk(rows[l], BelowOf(rows, values, l), AboveOf(rows, l), l)
  }

  predicate MadeEven(count: nat, n: nat) {
    n == count + count % 2
  }

  // The sizes of the rows: pairs are halved, and a lone last node is doubled.
  ghost predicate Sizes(rows: seq<Row>) {
    && (forall l :: 0 <= l < |rows| - 1 ==>
         && 1 < rows[l].count && MadeEven(rows[l].count, |rows[l].nodes|) && 2 * rows[l + 1].count == |rows[l].nodes|)
    && (rows != [] ==> rows[|rows| - 1].count == |rows[|rows| - 1].nodes| > 0)
  }

  // The hashes are those of the rule; the last row is still without a duplicate.
  ghost predicate Hashes(h: Hash, rows: seq<Row>, level: seq<string>) {
    && (forall l :: 0 <= l < |rows| - 1 ==> |LevelAt(h, level, l)| > 1 && rows[l].hashes == Pad(LevelAt(h, level, l)))
    && (rows != [] ==> rows[|rows| - 1].hashes == LevelAt(h, level, |rows| - 1))
  }

  ghost predicate Built(h: Hash, rows: seq<Row>, values: seq<string>)
    reads NodesOf(rows)
  {
    RowsOk(rows, values) && Measured(h, rows, values)
  }

  // Sizes and hashes of all rows.
  ghost predicate Measured(h: Hash, rows: seq<Row>, values: seq<string>) {
    rows != [] && Sizes(rows) && Hashes(h, rows, LeafHashes(h, values)) && rows[0].count == |values|
  }

  // More parents to the right do not matter to a row that has all of its own.
  lemma MoreParents(row: Row, below: Below, parents: seq<Node>, parents': seq<Node>, l: nat)
    requires RowOk(row, below, parents, l) && parents <= parents' && |row.nodes| <= 2 * |parents|
    ensures RowOk(row, below, parents', l)
  {
    hide Down;
    forall k | 0 <= k < |row.nodes|
      ensures ChildOk(row.nodes[k], row.hashes[k], below, k >= row.count, ParentAt(parents', k), l, k)
    {
      assert ChildOk(row.nodes[k], row.hashes[k], below, k >= row.count, ParentAt(parents, k), l, k);
      assert ParentAt(parents', k) == ParentAt(parents, k);
    }
  }

  // New parents are an open row over the closed one.
  lemma ParentsOpen(h: Hash, closed: Row, parents: seq<Node>, parentHashes: seq<string>, l: nat)
    requires Parents(h, closed.nodes, closed.hashes, parents, parentHashes, l)
    ensures Children(parents, parentHashes, |parents|, Inner(closed), [], l + 1)
  {
    forall k | 0 <= k < |parents|
      ensures ChildOk(parents[k], parentHashes[k], Inner(closed), false, ParentAt([], k), l + 1, k)
    {
      assert ParentOf(parents[k], closed.nodes[2 * k], closed.nodes[2 * k + 1], parentHashes[k], l + 1, k);
    }
  }

  // A row of another level is apart from the nodes of level n.
  lemma OtherLevel(row: Row, below: Below, above: seq<Node>, l: nat, nodes: seq<Node>, n: nat)
    requires RowOk(row, below, above, l) && l != n && forall k :: 0 <= k < |nodes| ==> nodes[k].level == n
    ensures forall k :: 0 <= k < |row.nodes| ==> row.nodes[k] !in nodes
  {
    hide Children;
    ChildrenLevel(row.nodes, row.hashes, row.count, below, above, l);
  }

  lemma TopRow(h: Hash, rows: seq<Row>, values: seq<string>)
    requires rows != [] && Built(h, rows, values)
    ensures Measured(h, rows, values)
    ensures var n := |rows| - 1; var row := rows[n];
      && |row.hashes| == |row.nodes|
      && Children(row.nodes, row.hashes, |row.nodes|, BelowOf(rows, values, n), [], n)
      && row.count == |row.nodes| > 0 && row.hashes == LevelAt(h, LeafHashes(h, values), n)
      && forall k :: 0 <= k < |row.nodes| ==> row.nodes[k].level == n
  {
    hide Children, ChildOk, LevelAt;
    var n := |rows| - 1;
    assert RowOk(rows[n], BelowOf(rows, values, n), AboveOf(rows, n), n);
    ChildrenLevel(rows[n].nodes, rows[n].hashes, rows[n].count, BelowOf(rows, values, n), [], n);
  }

  // Closing the last row and putting its parents on top.
  ghost function Topped(rows: seq<Row>, closed: Row, top: Row): seq<Row>
    requires rows != []
  {
    rows[|rows| - 1 := closed] + [top]
  }

  // The rows below the last one.
  ghost predicate LowerOk(rows: seq<Row>, values: seq<string>)
    reads NodesOf(rows)
  {
    forall l :: 0 <= l < |rows| - 1 ==> RowOk(rows[l], BelowOf(rows, values, l), AboveOf(rows, l), l)
  }

  lemma LowerRow(rows: seq<Row>, values: seq<string>, l: nat)
    requires LowerOk(rows, values) && l < |rows| - 1
    ensures RowOk(rows[l], BelowOf(rows, values, l), AboveOf(rows, l), l)
  {
    hide RowOk;
  }

  lemma StackRows(h: Hash, rows: seq<Row>, closed: Row, parents: seq<Node>, hashes: seq<string>, values: seq<string>)
    requires rows != [] && Measured(h, rows, values) && rows[|rows| - 1].nodes <= closed.nodes
    requires LowerOk(rows, values)
    requires RowOk(closed, BelowOf(rows, values, |rows| - 1), parents, |rows| - 1)
    requires Parents(h, closed.nodes, closed.hashes, parents, hashes, |rows| - 1)
    ensures RowsOk(Topped(rows, closed, Row(parents, hashes, |parents|)), values)
  {
    hide RowOk, Parents, Measured, LowerOk;
    var rows' := Topped(rows, closed, Row(parents, hashes, |parents|));
    forall l | 0 <= l < |rows'| ensures RowOk(rows'[l], BelowOf(rows', values, l), AboveOf(rows', l), l) {
      if l < |rows| - 1 { LowerRow(rows, values, l); }
      StackRow(h, rows, closed, parents, hashes, values, l);
    }
  }

  lemma StackRow(h: Hash, rows: seq<Row>, closed: Row, parents: seq<Node>, hashes: seq<string>, values: seq<string>,
      l: nat)
    requires rows != [] && Measured(h, rows, values) && rows[|rows| - 1].nodes <= closed.nodes && l <= |rows|
    requires l < |rows| - 1 ==> RowOk(rows[l], BelowOf(rows, values, l), AboveOf(rows, l), l)
    requires RowOk(closed, BelowOf(rows, values, |rows| - 1), parents, |rows| - 1)
    requires Parents(h, closed.nodes, closed.hashes, parents, hashes, |rows| - 1)
    ensures var rows' := Topped(rows, closed, Row(parents, hashes, |parents|));
      RowOk(rows'[l], BelowOf(rows', values, l), AboveOf(rows', l), l)
  {
    hide RowOk, Parents, Hashes, LeafHashes;
    var n := |rows| - 1;
    if l == n + 1 {
      TopOk(h, closed, parents, hashes, n);
    } else if l + 1 == n {
      MoreParents(rows[l], BelowOf(rows, values, l), rows[n].nodes, closed.nodes, l);
    }
  }

  lemma TopOk(h: Hash, closed: Row, parents: seq<Node>, hashes: seq<string>, l: nat)
    requires Parents(h, closed.nodes, closed.hashes, parents, hashes, l)
    ensures RowOk(Row(parents, hashes, |parents|), Inner(closed), [], l + 1)
  {
    ParentsOpen(h, closed, parents, hashes, l);
  }

  lemma StackSizes(rows: seq<Row>, closed: Row, top: Row)
    requires rows != [] && Sizes(rows) && closed.count == rows[|rows| - 1].count > 1
    requires MadeEven(closed.count, |closed.nodes|) && top.count == |top.nodes| && 2 * |top.nodes| == |closed.nodes|
    ensures Sizes(Topped(rows, closed, top))
  {}

  lemma StackHashes(h: Hash, rows: seq<Row>, closed: Row, top: Row, level: seq<string>)
    requires rows != [] && Hashes(h, rows, level) && |rows[|rows| - 1].hashes| > 1
    requires closed.hashes == Pad(rows[|rows| - 1].hashes) && top.hashes == PairUp(h, closed.hashes)
    ensures Hashes(h, Topped(rows, closed, top), level)
  {
    hide PairUp, Pad;
    var n := |rows| - 1;
    var rows' := Topped(rows, closed, top);
    PadEven(LevelAt(h, level, n));
    assert LevelAt(h, level, n + 1) == top.hashes;
    forall l | 0 <= l < |rows'| - 1 ensures |LevelAt(h, level, l)| > 1 && rows'[l].hashes == Pad(LevelAt(h, level, l)) {
      if l < n { assert rows'[l] == rows[l]; }
    }
  }

  // One leaf for every block.
  method BuildLeaves(h: Hash, source: seq<string>) returns (current: seq<Node>)
    ensures |current| == |source| && forall k :: 0 <= k < |current| ==> fresh(current[k])
    ensures Children(current, LeafHashes(h, source), |current|, Leaves(source), [], 0)
  {
    hide LeafHashes, Children, Down;
    current := [];
    ghost var hashes := LeafHashes(h, source);
    var i := 0;
    while i < |source|
      invariant 0 <= i <= |source| && |current| == i
      invariant forall k :: 0 <= k < i ==>
        fresh(current[k]) && ChildOk(current[k], hashes[k], Leaves(source), false, null, 0, k)
    {
      var leaf := new Node(i, source[i], h(source[i]), 0, i);
      LeafOk(leaf, hashes[i], source, i);
      current := current + [leaf];
      i := i + 1;
    }
    AllChildren(current, hashes, Leaves(source), 0);
  }

  lemma LeafOk(leaf: Node, hash: string, values: seq<string>, k: nat)
    requires k < |values| && leaf.blockID == k && leaf.value == values[k] && leaf.hashValue == hash
    requires leaf.left == null && leaf.right == null && leaf.parent == null && leaf.level == 0 && leaf.index == k
    ensures ChildOk(leaf, hash, Leaves(values), false, null, 0, k)
  {}

  lemma AllChildren(nodes: seq<Node>, hashes: seq<string>, below: Below, l: nat)
    requires |nodes| == |hashes|
    requires forall k :: 0 <= k < |nodes| ==> ChildOk(nodes[k], hashes[k], below, false, null, l, k)
    ensures Children(nodes, hashes, |nodes|, below, [], l)
  {
    hide ChildOk;
  }

  lemma FirstRow(h: Hash, current: seq<Node>, values: seq<string>)
    requires values != [] && |current| == |values|
    requires Children(current, LeafHashes(h, values), |current|, Leaves(values), [], 0)
    ensures Built(h, [Row(current, LeafHashes(h, values), |current|)], values)
  {
    hide Children, LeafHashes, Measured;
    FirstMeasured(h, current, values);
  }

  lemma FirstMeasured(h: Hash, current: seq<Node>, values: seq<string>)
    requires values != [] && |current| == |values|
    ensures Measured(h, [Row(current, LeafHashes(h, values), |current|)], values)
  {
    hide LeafHashes, LevelAt, Pad, MadeEven;
    LevelZero(h, LeafHashes(h, values));
  }

  // The next level of a tree under construction.
  method BuildLevel(h: Hash, ghost rows: seq<Row>, current: seq<Node>, ghost values: seq<string>)
    returns (ghost rows': seq<Row>, next: seq<Node>)
    requires rows != [] && Built(h, rows, values) && rows[|rows| - 1].nodes == current && |current| > 1
    modifies current
    ensures rows' != [] && Built(h, rows', values) && rows'[|rows'| - 1].nodes == next && |next| < |current|
    ensures forall k :: 0 <= k < |next| ==> fresh(next[k])
  {
    hide RowOk, Built, Measured, Parents, Children, LeafHashes, Pad, PairUp, BelowOf, AboveOf;
    ghost var n, hashes := |rows| - 1, rows[|rows| - 1].hashes;
    TopRow(h, rows, values);
    forall l | 0 <= l < n
      ensures RowOk(rows[l], BelowOf(rows, values, l), AboveOf(rows, l), l)
      ensures forall k :: 0 <= k < |rows[l].nodes| ==> rows[l].nodes[k] !in current
    {
      BuiltRow(h, rows, values, l);
      OtherLevel(rows[l], BelowOf(rows, values, l), AboveOf(rows, l), l, current, n);
    }
    ghost var closed;
    next, closed := BuildParents(h, current, hashes, BelowOf(rows, values, n), n);
    forall l | 0 <= l < n ensures RowOk(rows[l], BelowOf(rows, values, l), AboveOf(rows, l), l) {
      assert old(RowOk(rows[l], BelowOf(rows, values, l), AboveOf(rows, l), l));
    }
    LevelDone(h, rows, closed, next, values);
    rows' := Topped(rows, closed, Row(next, PairUp(h, closed.hashes), |next|));
  }

  lemma BuiltRow(h: Hash, rows: seq<Row>, values: seq<string>, l: nat)
    requires rows != [] && Built(h, rows, values) && l < |rows|
    ensures RowOk(rows[l], BelowOf(rows, values, l), AboveOf(rows, l), l)
    ensures Measured(h, rows, values)
  {
    hide RowOk, Measured;
  }

  // The pure part of a level: what the rows say when the last one is closed and its parents are on top.
  lemma LevelDone(h: Hash, rows: seq<Row>, closed: Row, next: seq<Node>, values: seq<string>)
    requires rows != [] && rows[|rows| - 1].nodes <= closed.nodes && closed.hashes == Pad(rows[|rows| - 1].hashes)
    requires closed.count == rows[|rows| - 1].count == |rows[|rows| - 1].hashes| > 1
    requires Measured(h, rows, values) && LowerOk(rows, values)
    requires RowOk(closed, BelowOf(rows, values, |rows| - 1), next, |rows| - 1)
    requires Parents(h, closed.nodes, closed.hashes, next, PairUp(h, closed.hashes), |rows| - 1)
    ensures Built(h, Topped(rows, closed, Row(next, PairUp(h, closed.hashes), |next|)), values)
    ensures |next| < closed.count
  {
    hide RowOk, Parents, Measured, Pad, PairUp, BelowOf, RowsOk, Topped, LowerOk;
    var hashes := PairUp(h, closed.hashes);
    ClosedSizes(h, closed, next, rows[|rows| - 1].hashes, |rows| - 1);
    StackMeasures(h, rows, closed, Row(next, hashes, |next|), values);
    StackRows(h, rows, closed, next, hashes, values);
  }

  lemma StackMeasures(h: Hash, rows: seq<Row>, closed: Row, top: Row, values: seq<string>)
    requires rows != [] && closed.count == rows[|rows| - 1].count == |rows[|rows| - 1].hashes| > 1
    requires closed.hashes == Pad(rows[|rows| - 1].hashes) && top.hashes == PairUp(h, closed.hashes)
    requires MadeEven(closed.count, |closed.nodes|) && top.count == |top.nodes| && 2 * |top.nodes| == |closed.nodes|
    requires Measured(h, rows, values)
    ensures Measured(h, Topped(rows, closed, top), values)
  {
    hide Sizes, Hashes, Pad, PairUp, LeafHashes, MadeEven;
    StackSizes(rows, closed, top);
    StackHashes(h, rows, closed, top, LeafHashes(h, values));
  }

  lemma ClosedSizes(h: Hash, closed: Row, next: seq<Node>, hashes: seq<string>, l: nat)
    requires closed.hashes == Pad(hashes) && |hashes| == closed.count > 1
    requires Parents(h, closed.nodes, closed.hashes, next, PairUp(h, Pad(hashes)), l)
    ensures MadeEven(closed.count, |closed.nodes|) && 2 * |next| == |closed.nodes| && |next| < closed.count
  {
    hide ParentOf, PairUp;
  }

  // The tree over a list of blocks: its root, and ghostly its rows.
  method BuildFromBlocks(h: Hash, source: seq<string>) returns (root: Node?, ghost rows: seq<Row>)
    ensures source == [] ==> root == null
    ensures source != [] ==> rows != [] && Built(h, rows, source) && rows[|rows| - 1].nodes == [root]
  {
    if source == [] {
      return null, [];
    }
    hide Built, Children, LeafHashes, Measured, LevelAt, BelowOf;
    var current := BuildLeaves(h, source);
    rows := [Row(current, LeafHashes(h, source), |current|)];
    FirstRow(h, current, source);
    while |current| > 1
      invariant rows != [] && Built(h, rows, source) && rows[|rows| - 1].nodes == current
      invariant forall k :: 0 <= k < |current| ==> fresh(current[k])
      decreases |current|
    {
      rows, current := BuildLevel(h, rows, current, source);
    }
    TopRow(h, rows, source);
    root := current[0];
  }
}
