// Refreshing hashes in place after one leaf has changed.
module MerkleUpdate {
  import opened MerkleSpec
  import opened MerkleRows
  import opened BinaryMerkle
  import opened MerkleTree

  // ---- writing one hash ----

  ghost function WithHash(rows: seq<Row>, l: nat, j: nat, x: string): seq<Row>
    requires l < |rows| && j < |rows[l].hashes|
  {
    rows[l := rows[l].(hashes := rows[l].hashes[j := x])]
  }

  lemma SameLinks(rows: seq<Row>, values: seq<string>, l: nat, j: nat, x: string, m: nat)
    requires l < |rows| && j < |rows[l].hashes| && m < |rows|
    ensures var rows' := WithHash(rows, l, j, x);
      && AboveOf(rows', m) == AboveOf(rows, m)
      && SameBelow(BelowOf(rows, values, m), BelowOf(rows', values, m))
      && rows'[m].nodes == rows[m].nodes && rows'[m].count == rows[m].count && |rows'[m].hashes| == |rows[m].hashes|
  {}

  // Children see only the nodes below them.
  ghost predicate SameBelow(b: Below, c: Below) {
    match b
    case Leaves(v) => c == b
    case Inner(r) => c.Inner? && c.row.nodes == r.nodes
  }

  lemma ChildSame(n: Node, hash: string, b: Below, c: Below, duplicate: bool, parent: Node?, l: nat, k: nat)
    requires SameBelow(b, c) && ChildOk(n, hash, b, duplicate, parent, l, k)
    ensures ChildOk(n, hash, c, duplicate, parent, l, k)
  {}

  // All that a tree says about node k of row m.
  ghost predicate NodeOk(rows: seq<Row>, values: seq<string>, m: nat, k: nat)
    requires m < |rows| && k < |rows[m].nodes| && k < |rows[m].hashes|
    reads rows[m].nodes[k]
  {
    ChildOk(rows[m].nodes[k], rows[m].hashes[k], BelowOf(rows, values, m), k >= rows[m].count,
        ParentAt(AboveOf(rows, m), k), m, k)
  }

  ghost predicate Shaped(rows: seq<Row>) {
    forall m :: 0 <= m < |rows| ==> |rows[m].nodes| == |rows[m].hashes|
  }

  lemma RowsShaped(rows: seq<Row>, values: seq<string>)
    requires RowsOk(rows, values)
    ensures Shaped(rows)
  {
    forall m | 0 <= m < |rows| ensures |rows[m].nodes| == |rows[m].hashes| {
      assert RowOk(rows[m], BelowOf(rows, values, m), AboveOf(rows, m), m);
    }
  }

  lemma RowsNode(rows: seq<Row>, values: seq<string>, m: nat, k: nat)
    requires RowsOk(rows, values) && m < |rows| && k < |rows[m].nodes|
    ensures |rows[m].nodes| == |rows[m].hashes| && NodeOk(rows, values, m, k)
    ensures rows[m].nodes[k].level == m && rows[m].nodes[k].index == k
  {
    hide Down;
    assert RowOk(rows[m], BelowOf(rows, values, m), AboveOf(rows, m), m);
  }

  lemma NodesRows(rows: seq<Row>, values: seq<string>)
    requires Shaped(rows) && forall m, k :: 0 <= m < |rows| && 0 <= k < |rows[m].nodes| ==> NodeOk(rows, values, m, k)
    ensures RowsOk(rows, values)
  {
    hide Down;
    forall m | 0 <= m < |rows| ensures RowOk(rows[m], BelowOf(rows, values, m), AboveOf(rows, m), m) {
      forall k | 0 <= k < |rows[m].nodes|
        ensures ChildOk(rows[m].nodes[k], rows[m].hashes[k], BelowOf(rows, values, m), k >= rows[m].count,
          ParentAt(AboveOf(rows, m), k), m, k)
      {
        assert NodeOk(rows, values, m, k);
      }
    }
  }

  lemma WithHashNode(rows: seq<Row>, values: seq<string>, l: nat, j: nat, x: string, m: nat, k: nat)
    requires l < |rows| && j < |rows[l].hashes| && m < |rows| && k < |rows[m].nodes| && k < |rows[m].hashes|
    requires NodeOk(rows, values, m, k) && (m != l || k != j)
    ensures NodeOk(WithHash(rows, l, j, x), values, m, k)
  {
    hide ChildOk;
    SameLinks(rows, values, l, j, x, m);
    var rows' := WithHash(rows, l, j, x);
    ChildSame(rows[m].nodes[k], rows[m].hashes[k], BelowOf(rows, values, m), BelowOf(rows', values, m),
        k >= rows[m].count,
      ParentAt(AboveOf(rows, m), k), m, k);
  }

  lemma WithHashChanged(rows: seq<Row>, values: seq<string>, l: nat, j: nat, x: string)
    requires l < |rows| && j < |rows[l].hashes| && j < |rows[l].nodes|
    requires rows[l].nodes[j].hashValue == x
    requires var n := rows[l].nodes[j];
      && n.level == l && n.index == j && n.parent == ParentAt(AboveOf(rows, l), j)
      && Links(n, BelowOf(rows, values, l), j >= rows[l].count, j)
    ensures NodeOk(WithHash(rows, l, j, x), values, l, j)
  {
    SameLinks(rows, values, l, j, x, l);
  }

  // A node without its hash.
  ghost predicate Links(n: Node, below: Below, duplicate: bool, k: nat)
    reads n`blockID, n`value, n`left, n`right
  {
    if duplicate then n.blockID == -1 && n.left == null && n.right == null
    else
      && HasBelow(below, k)
      && if below.Leaves? then n.blockID == k && n.value == below.values[k] && n.left == null && n.right == null
         else n.blockID == -1 && n.left == below.row.nodes[2 * k] && n.right == below.row.nodes[2 * k + 1]
  }

  // One node gets a new hash; everything else about the tree stays.
  method SetHash(node: Node, x: string, ghost rows: seq<Row>, ghost values: seq<string>, ghost l: nat, ghost j: nat)
    requires RowsOk(rows, values) && l < |rows| && j < |rows[l].nodes| && |rows[l].hashes| == |rows[l].nodes|
    requires node == rows[l].nodes[j]
    modifies node`hashValue
    ensures node.hashValue == x && RowsOk(WithHash(rows, l, j, x), values)
  {
    hide *;
    RowsShaped(rows, values);
    RowsNode(rows, values, l, j);
    NodeLinks(rows, values, l, j);
    forall m, k | 0 <= m < |rows| && 0 <= k < |rows[m].nodes| && (m != l || k != j)
      ensures k < |rows[m].hashes| && NodeOk(rows, values, m, k) && rows[m].nodes[k] != node
    {
      RowsNode(rows, values, m, k);
    }
    node.hashValue := x;
    forall m, k | 0 <= m < |rows| && 0 <= k < |rows[m].nodes| && (m != l || k != j)
      ensures k < |rows[m].hashes| && NodeOk(rows, values, m, k)
    {
      assert old(NodeOk(rows, values, m, k));
    }
    HashWritten(rows, values, l, j, x);
  }

  lemma HashWritten(rows: seq<Row>, values: seq<string>, l: nat, j: nat, x: string)
    requires Shaped(rows) && l < |rows| && j < |rows[l].nodes| && rows[l].nodes[j].hashValue == x
    requires j < |rows[l].hashes|
    requires forall m, k :: 0 <= m < |rows| && 0 <= k < |rows[m].nodes| && (m != l || k != j) ==>
      k < |rows[m].hashes| && NodeOk(rows, values, m, k)
    requires var n := rows[l].nodes[j];
      && n.level == l && n.index == j && n.parent == ParentAt(AboveOf(rows, l), j)
      && Links(n, BelowOf(rows, values, l), j >= rows[l].count, j)
    ensures RowsOk(WithHash(rows, l, j, x), values)
  {
    hide RowsOk, Links, NodeOk, WithHash, BelowOf, AboveOf, ParentAt;
    var rows' := WithHash(rows, l, j, x);
    WithHashShaped(rows, l, j, x);
    forall m, k | 0 <= m < |rows'| && 0 <= k < |rows'[m].nodes|
      ensures k < |rows'[m].hashes| && NodeOk(rows', values, m, k)
    {
      SameLinks(rows, values, l, j, x, m);
      if m == l
        && k == j { WithHashChanged(rows, values, l, j, x); } else { WithHashNode(rows, values, l, j, x, m, k); }
    }
    NodesRows(rows', values);
  }

  lemma NodeLinks(rows: seq<Row>, values: seq<string>, l: nat, j: nat)
    requires l < |rows| && j < |rows[l].nodes| && j < |rows[l].hashes| && NodeOk(rows, values, l, j)
    ensures var n := rows[l].nodes[j];
      && n.level == l && n.index == j && n.parent == ParentAt(AboveOf(rows, l), j)
      && Links(n, BelowOf(rows, values, l), j >= rows[l].count, j)
  {}

  lemma WithHashShaped(rows: seq<Row>, l: nat, j: nat, x: string)
    requires Shaped(rows) && l < |rows| && j < |rows[l].hashes|
    ensures Shaped(WithHash(rows, l, j, x)) && |WithHash(rows, l, j, x)| == |rows|
  {}

  // ---- the hashes before, during and after ----

  // Level l of the tree, with the duplicate below the root.
  function FullRow(h: Hash, base: seq<string>, top: nat, l: nat): seq<string> {
    if l < top then Pad(LevelAt(h, base, l)) else LevelAt(h, base, l)
  }

  // A new leaf hash changes one hash of every level.
  lemma {:induction false} LevelChange(h: Hash, base: seq<string>, n: nat, x: string, l: nat)
    requires n < |base|
    requires forall m :: 0 <= m < l ==> |LevelAt(h, base, m)| > 1
    ensures var old', new' := LevelAt(h, base, l), LevelAt(h, base[n := x], l); var k := Ancestor(n, l);
      k < |old'| == |new'| && new' == old'[k := new'[k]]
    decreases l
  {
    hide PairUp, Pad;
    if l > 0 {
      LevelChange(h, base, n, x, l - 1);
      var below, below' := LevelAt(h, base, l - 1), LevelAt(h, base[n := x], l - 1);
      var k := Ancestor(n, l - 1);
      assert |LevelAt(h, base, l - 1)| > 1;
      PairUpdate(h, below, k, below'[k]);
    }
  }

  // The rows while the change is at node k of level l: new below, old above.
  ghost predicate Halfway(h: Hash, rows: seq<Row>, base: seq<string>, base': seq<string>, l: nat, k: nat) {
    && l < |rows| && k < |LevelAt(h, base', l)|
    && forall m :: 0 <= m < |rows| ==>
      rows[m].hashes ==
        if m < l then FullRow(h, base', |rows| - 1, m)
        else if m > l then FullRow(h, base, |rows| - 1, m)
        else Put(FullRow(h, base, |rows| - 1, m), k, LevelAt(h, base', l)[k])
  }

  function Put(s: seq<string>, k: nat, x: string): seq<string> {
    if k < |s| then s[k := x] else s
  }

  // The levels of a tree and their numbers of nodes.
  ghost predicate Fits(h: Hash, rows: seq<Row>, base: seq<string>) {
    && rows != [] && Sizes(rows) && |LevelAt(h, base, |rows| - 1)| == 1
    && (forall m :: 0 <= m < |rows| ==> rows[m].count == |LevelAt(h, base, m)|)
    && (forall m :: 0 <= m < |rows| - 1 ==> |LevelAt(h, base, m)| > 1 && |Pad(LevelAt(h, base, m))| == |rows[m].nodes|)
  }

  // Row l after the duplicate has been refreshed is the new row.
  lemma RowRefreshed(h: Hash, base: seq<string>, n: nat, x: string, top: nat, l: nat, k: nat)
    requires n < |base| && l < top && k == Ancestor(n, l) && forall m :: 0 <= m < top ==> |LevelAt(h, base, m)| > 1
    ensures var old', new' := LevelAt(h, base, l), LevelAt(h, base[n := x], l);
      && k < |old'| == |new'|
      && FullRow(h, base[n := x], top, l)
        == if k == |old'| - 1
          && |Pad(old')| > |old'| then Put(Put(Pad(old'), k, new'[k]), k + 1, new'[k]) else Put(Pad(old'), k, new'[k])
  {
    hide LevelAt, Pad;
    LevelChange(h, base, n, x, l);
    var old', new' := LevelAt(h, base, l), LevelAt(h, base[n := x], l);
    assert |old'| > 1;
    PadUpdate(old', k, new'[k]);
    PadLength(old');
  }

  lemma PadLength(level: seq<string>)
    ensures |level| <= |Pad(level)| <= |level| + 1
  {}

  // The parent's new hash.
  lemma ParentHash(h: Hash, base: seq<string>, l: nat, q: nat)
    requires |LevelAt(h, base, l)| > 1 && q < |LevelAt(h, base, l + 1)|
    ensures 2 * q + 1 < |Pad(LevelAt(h, base, l))|
    ensures LevelAt(h, base, l + 1)[q] == h(Pad(LevelAt(h, base, l))[2 * q] + Pad(LevelAt(h, base, l))[2 * q + 1])
  {
    hide Pad;
    LevelNext(h, base, l);
  }

  // The rows up to level l are new.
  ghost predicate Refreshed(h: Hash, rows: seq<Row>, base: seq<string>, base': seq<string>, l: nat) {
    forall m :: 0 <= m < |rows| ==> rows[m].hashes == FullRow(h, if m <= l then base' else base, |rows| - 1, m)
  }

  // Refreshing the duplicate next to the changed node, if it has one, completes the row.
  lemma RefreshStep(h: Hash, rows: seq<Row>, base: seq<string>, n: nat, x: string, l: nat, k: nat)
    requires n < |base| && Fits(h, rows, base) && l + 1 < |rows| && k == Ancestor(n, l)
    requires Halfway(h, rows, base, base[n := x], l, k)
    ensures k < rows[l].count && |rows[l].hashes| == |rows[l].nodes|
    ensures k + 1 >= rows[l].count && k + 1 < |rows[l].nodes| ==>
      Refreshed(h, WithHash(rows, l, k + 1, LevelAt(h, base[n := x], l)[k]), base, base[n := x], l)
    ensures k + 1 < rows[l].count || k + 1 >= |rows[l].nodes| ==> Refreshed(h, rows, base, base[n := x], l)
    ensures k < |LevelAt(h, base[n := x], l)| && rows[l].hashes[k] == LevelAt(h, base[n := x], l)[k]
  {
    hide LevelAt, Pad, Ancestor, Sizes;
    RowRefreshed(h, base, n, x, |rows| - 1, l, k);
    PadLength(LevelAt(h, base, l));
  }

  // The parent's hash moves the change up one level.
  lemma ParentStep(h: Hash, rows: seq<Row>, base: seq<string>, n: nat, x: string, l: nat, q: nat)
    requires n < |base| && Fits(h, rows, base) && l + 1 < |rows| && q == Ancestor(n, l + 1)
    requires Refreshed(h, rows, base, base[n := x], l)
    ensures q < |rows[l + 1].hashes| && 2 * q + 1 < |rows[l].hashes|
    ensures var hash := h(rows[l].hashes[2 * q] + rows[l].hashes[2 * q + 1]);
      Halfway(h, WithHash(rows, l + 1, q, hash), base, base[n := x], l + 1, q)
  {
    hide LevelAt, Pad, Ancestor, Sizes;
    var base' := base[n := x];
    LevelChange(h, base, n, x, l);
    LevelChange(h, base, n, x, l + 1);
    ParentHash(h, base', l, q);
    PadLength(LevelAt(h, base, l + 1));
  }

  lemma FitsSame(h: Hash, rows: seq<Row>, base: seq<string>, l: nat, j: nat, x: string)
    requires Fits(h, rows, base) && l < |rows| && j < |rows[l].hashes|
    ensures Fits(h, WithHash(rows, l, j, x), base)
    ensures |WithHash(rows, l, j, x)| == |rows|
  {
    hide LevelAt, Pad;
  }

  // At the root the whole tree is new.
  lemma ClimbDone(h: Hash, rows: seq<Row>, base: seq<string>, n: nat, x: string)
    requires n < |base| && Fits(h, rows, base) && Halfway(h, rows, base, base[n := x], |rows| - 1, 0)
    ensures Fits(h, rows, base[n := x]) && Hashes(h, rows, base[n := x])
    ensures LevelAt(h, base[n := x], |rows| - 1) == [Root(h, base[n := x], 2)]
  {
    hide LevelAt, Root, Halfway, Hashes, Fits;
    var base' := base[n := x];
    LevelCounts(h, rows, base, n, x);
    FitsToo(h, rows, base, base');
    ClimbHashes(h, rows, base, base');
    FitsTop(h, rows, base');
    LevelAtRoot(h, base', |rows| - 1);
    RootAlone(h, LevelAt(h, base', |rows| - 1));
  }

  lemma LevelCounts(h: Hash, rows: seq<Row>, base: seq<string>, n: nat, x: string)
    requires n < |base| && Fits(h, rows, base)
    ensures forall m :: 0 <= m < |rows| ==> |LevelAt(h, base[n := x], m)| == |LevelAt(h, base, m)|
  {
    hide LevelAt, Pad, Sizes;
    forall m | 0 <= m < |rows| ensures |LevelAt(h, base[n := x], m)| == |LevelAt(h, base, m)| {
      LevelChange(h, base, n, x, m);
    }
  }

  lemma FitsToo(h: Hash, rows: seq<Row>, base: seq<string>, base': seq<string>)
    requires Fits(h, rows, base)
    requires forall m :: 0 <= m < |rows| ==> |LevelAt(h, base', m)| == |LevelAt(h, base, m)|
    ensures Fits(h, rows, base')
  {
    hide LevelAt, Pad, Sizes;
    forall m | 0 <= m < |rows| - 1 ensures |Pad(LevelAt(h, base', m))| == |Pad(LevelAt(h, base, m))| {
      PadCounts(LevelAt(h, base', m), LevelAt(h, base, m));
    }
  }

  lemma FitsTop(h: Hash, rows: seq<Row>, base: seq<string>)
    requires Fits(h, rows, base)
    ensures rows != [] && |LevelAt(h, base, |rows| - 1)| == 1
  {
    hide LevelAt, Pad, Sizes;
  }

  // At the last row all rows have the new hashes.
  lemma ClimbHashes(h: Hash, rows: seq<Row>, base: seq<string>, base': seq<string>)
    requires Fits(h, rows, base') && Halfway(h, rows, base, base', |rows| - 1, 0)
    requires Fits(h, rows, base)
    ensures Hashes(h, rows, base')
  {
    hide LevelAt, Pad, Sizes;
  }

  lemma PadCounts(s: seq<string>, t: seq<string>)
    requires |s| == |t|
    ensures |Pad(s)| == |Pad(t)|
  {}

  lemma RootAlone(h: Hash, level: seq<string>)
    requires |level| == 1
    ensures level == [Root(h, level, 2)]
  {}

  // ---- the climb ----

  lemma UpLink(rows: seq<Row>, values: seq<string>, l: nat, k: nat, q: nat)
    requires RowsOk(rows, values) && l + 1 < |rows| && k < |rows[l].nodes| && q == k / 2 && q < |rows[l + 1].nodes|
    ensures rows[l].nodes[k].parent == rows[l + 1].nodes[q]
  {
    hide RowsOk, Down;
    RowsNode(rows, values, l, k);
  }

  lemma NoUpLink(rows: seq<Row>, values: seq<string>, k: nat)
    requires RowsOk(rows, values) && rows != [] && k < |rows[|rows| - 1].nodes|
    ensures rows[|rows| - 1].nodes[k].parent == null
  {
    hide RowsOk, Down;
    RowsNode(rows, values, |rows| - 1, k);
  }

  lemma DownLinks(rows: seq<Row>, values: seq<string>, l: nat, q: nat)
    requires RowsOk(rows, values) && l + 1 < |rows| && q < rows[l + 1].count && q < |rows[l + 1].nodes|
    requires 2 * q + 1 < |rows[l].nodes|
    ensures rows[l + 1].nodes[q].left == rows[l].nodes[2 * q] && rows[l + 1].nodes[q].right == rows[l].nodes[2 * q + 1]
    ensures rows[l].nodes[2 * q] != rows[l].nodes[2 * q + 1]
  {
    hide RowsOk;
    RowsNode(rows, values, l + 1, q);
    RowsNode(rows, values, l, 2 * q);
    RowsNode(rows, values, l, 2 * q + 1);
  }

  // A childless node without a block is a duplicate.
  lemma DuplicateTest(rows: seq<Row>, values: seq<string>, l: nat, j: nat)
    requires RowsOk(rows, values) && l < |rows| && j < |rows[l].nodes|
    ensures var n := rows[l].nodes[j]; n.left == null && n.right == null && n.blockID == -1 <==> j >= rows[l].count
  {
    hide RowsOk;
    RowsNode(rows, values, l, j);
  }

  lemma HashOf(rows: seq<Row>, values: seq<string>, l: nat, j: nat)
    requires RowsOk(rows, values) && l < |rows| && j < |rows[l].nodes|
    ensures |rows[l].hashes| == |rows[l].nodes| && rows[l].nodes[j].hashValue == rows[l].hashes[j]
  {
    hide RowsOk;
    RowsNode(rows, values, l, j);
  }

  lemma PairFits(h: Hash, rows: seq<Row>, base: seq<string>, l: nat, k: nat, q: nat)
    requires Fits(h, rows, base) && l + 1 < |rows| && k < rows[l].count && q == k / 2
    ensures 2 * q <= k <= 2 * q + 1 < |rows[l].nodes| && q < rows[l + 1].count
    ensures k == 2 * q + 1 ==> k + 1 < rows[l].count || k + 1 >= |rows[l].nodes|
  {
    hide LevelAt, Pad, MadeEven;
    HalfPair(rows[l].count, |rows[l].nodes|, rows[l + 1].count, k);
    OddLast(rows[l].count, |rows[l].nodes|, k);
  }

  lemma OddLast(count: nat, n: nat, k: nat)
    requires MadeEven(count, n) && k < count
    ensures k % 2 == 1 ==> k + 1 < count || k + 1 >= n
  {}

  lemma CountFits(h: Hash, rows: seq<Row>, base: seq<string>, values: seq<string>, l: nat)
    requires Fits(h, rows, base) && RowsOk(rows, values) && l < |rows|
    ensures rows[l].count <= |rows[l].nodes| == |rows[l].hashes|
    ensures l + 1 == |rows| ==> rows[l].count == 1
  {
    hide LevelAt, Pad, RowsOk;
    RowsShaped(rows, values);
    if l + 1 < |rows| { PadLength(LevelAt(h, base, l)); }
  }

  // What a climb keeps: the tree's links and sizes, with the change at node k of level l.
  ghost predicate Climbing(h: Hash, rows: seq<Row>, values: seq<string>, base: seq<string>, n: nat, x: string, l: nat,
      k: nat)
    requires n < |base|
    reads NodesOf(rows)
  {
    && RowsOk(rows, values) && Fits(h, rows, base) && Halfway(h, rows, base, base[n := x], l, k) && k == Ancestor(n, l)
    && l < |rows| && k < rows[l].count <= |rows[l].nodes|
  }

  // The two children of the node's parent; a duplicate on the right is given the node's hash.
  method RefreshDuplicate(h: Hash, node: Node, parentN: Node, ghost rows: seq<Row>, ghost values: seq<string>,
      ghost base: seq<string>, ghost n: nat, ghost x: string, ghost l: nat, ghost k: nat, ghost q: nat)
    returns (leftN: Node, rightN: Node, ghost rows': seq<Row>)
    requires n < |base| && Climbing(h, rows, values, base, n, x, l, k) && l + 1 < |rows| && node == rows[l].nodes[k]
    requires q == k / 2
    requires 2 * q <= k <= 2 * q + 1 < |rows[l].nodes| && q < rows[l + 1].count <= |rows[l + 1].nodes|
    requires parentN == rows[l + 1].nodes[q]
    modifies NodesOf(rows)
    ensures SameNodes(rows, rows') && RowsOk(rows', values) && Fits(h, rows', base)
    ensures Refreshed(h, rows', base, base[n := x], l) && |rows'| == |rows|
    ensures leftN == rows[l].nodes[2 * q] && rightN == rows[l].nodes[2 * q + 1]
  {
    hide *;
    rows' := rows;
    SameSelf(rows);
    ClimbParts(h, rows, values, base, n, x, l, k);
    PairFits(h, rows, base, l, k, q);
    DownLinks(rows, values, l, q);
    DuplicateTest(rows, values, l, 2 * q + 1);
    RefreshStep(h, rows, base, n, x, l, k);
    HashOf(rows, values, l, k);
    leftN, rightN := parentN.left, parentN.right;
    if leftN == node {
      if rightN.left == null && rightN.right == null && rightN.blockID == -1 {
        InTree(rows, l, k + 1);
        SetHash(rightN, node.hashValue, rows, values, l, k + 1);
        FitsSame(h, rows, base, l, k + 1, node.hashValue);
        rows' := WithHash(rows, l, k + 1, node.hashValue);
        SameLists(rows, values, l, k + 1, node.hashValue);
      }
    }
  }

  // One pass of the loop: the duplicate next to the node is refreshed, then the parent's hash recomputed.
  method UpdateOne(h: Hash, node: Node, ghost rows: seq<Row>, ghost values: seq<string>, ghost base: seq<string>,
      ghost n: nat, ghost x: string, ghost l: nat, ghost k: nat) returns (parentN: Node, ghost rows': seq<Row>)
    requires n < |base| && Climbing(h, rows, values, base, n, x, l, k) && l + 1 < |rows| && node == rows[l].nodes[k]
    modifies NodesOf(rows)
    ensures |rows'| == |rows| && SameNodes(rows, rows') && Climbing(h, rows', values, base, n, x, l + 1, k / 2)
    ensures k / 2 < |rows'[l + 1].nodes| && parentN == rows'[l + 1].nodes[k / 2]
  {
    hide *;
    ghost var q := k / 2;
    ClimbParts(h, rows, values, base, n, x, l, k);
    PairFits(h, rows, base, l, k, q);
    CountFits(h, rows, base, values, l + 1);
    UpLink(rows, values, l, k, q);
    parentN := node.parent;
    var leftN, rightN;
    ghost var rows1;
    leftN, rightN, rows1 := RefreshDuplicate(h, node, parentN, rows, values, base, n, x, l, k, q);
    SameAt(rows, rows1, l);
    SameAt(rows, rows1, l + 1);
    HashOf(rows1, values, l, 2 * q);
    HashOf(rows1, values, l, 2 * q + 1);
    HashOf(rows1, values, l + 1, q);
    AncestorUp(n, l);
    ParentStep(h, rows1, base, n, x, l, q);
    InTree(rows, l + 1, q);
    ghost var hash := h(leftN.hashValue + rightN.hashValue);
    SetHash(parentN, h(leftN.hashValue + rightN.hashValue), rows1, values, l + 1, q);
    FitsSame(h, rows1, base, l + 1, q, hash);
    rows' := WithHash(rows1, l + 1, q, hash);
    SameLists(rows1, values, l + 1, q, hash);
    SameTwice(rows, rows1, rows');
    ClimbMade(h, rows', values, base, n, x, l + 1, q);
  }

  predicate SameNodes(rows: seq<Row>, rows': seq<Row>) {
    |rows'| == |rows| && forall m :: 0 <= m < |rows| ==>
      rows'[m].nodes == rows[m].nodes && rows'[m].count == rows[m].count
  }

  lemma SameSelf(rows: seq<Row>)
    ensures SameNodes(rows, rows)
  {}

  lemma SameTwice(rows: seq<Row>, rows1: seq<Row>, rows2: seq<Row>)
    requires SameNodes(rows, rows1) && SameNodes(rows1, rows2)
    ensures SameNodes(rows, rows2)
  {}

  lemma SameAt(rows: seq<Row>, rows': seq<Row>, l: nat)
    requires SameNodes(rows, rows') && l < |rows|
    ensures |rows'| == |rows| && rows'[l].nodes == rows[l].nodes && rows'[l].count == rows[l].count
  {}

  lemma SameLists(rows: seq<Row>, values: seq<string>, l: nat, j: nat, x: string)
    requires l < |rows| && j < |rows[l].hashes|
    ensures SameNodes(rows, WithHash(rows, l, j, x)) && |WithHash(rows, l, j, x)| == |rows|
    ensures forall m :: 0 <= m < |rows| ==>
      WithHash(rows, l, j, x)[m].nodes == rows[m].nodes && WithHash(rows, l, j, x)[m].count == rows[m].count
  {}

  lemma InTree(rows: seq<Row>, l: nat, k: nat)
    requires l < |rows| && k < |rows[l].nodes|
    ensures rows[l].nodes[k] in NodesOf(rows)
  {}

  lemma AncestorUp(n: nat, l: nat)
    ensures Ancestor(n, l + 1) == Ancestor(n, l) / 2
  {}

  lemma ClimbParts(h: Hash, rows: seq<Row>, values: seq<string>, base: seq<string>, n: nat, x: string, l: nat, k: nat)
    requires n < |base| && Climbing(h, rows, values, base, n, x, l, k)
    ensures RowsOk(rows, values) && Fits(h, rows, base) && Halfway(h, rows, base, base[n := x], l, k)
    ensures k == Ancestor(n, l)
    ensures l < |rows| && k < rows[l].count <= |rows[l].nodes|
  {
    hide RowsOk, Fits, Halfway;
  }

  lemma ClimbMade(h: Hash, rows: seq<Row>, values: seq<string>, base: seq<string>, n: nat, x: string, l: nat, k: nat)
    requires n < |base| && RowsOk(rows, values) && Fits(h, rows, base) && Halfway(h, rows, base, base[n := x], l, k)
    requires k == Ancestor(n, l) && l < |rows| && k < rows[l].count <= |rows[l].nodes|
    ensures Climbing(h, rows, values, base, n, x, l, k)
  {
    hide RowsOk, Fits, Halfway;
  }

  // From a leaf whose hash has changed to the root.
  method UpdateHash(h: Hash, leaf: Node, ghost rows: seq<Row>, ghost values: seq<string>, ghost base: seq<string>,
      ghost n: nat, ghost x: string) returns (ghost rows': seq<Row>)
    requires n < |base| && Climbing(h, rows, values, base, n, x, 0, n) && leaf == rows[0].nodes[n]
    modifies NodesOf(rows)
    ensures SameNodes(rows, rows') && Updated(h, rows', values, base[n := x])
  {
    hide *;
    rows' := rows;
    SameSelf(rows);
    ClimbParts(h, rows, values, base, n, x, 0, n);
    var node := leaf;
    ghost var l, k: nat := 0, n;
    var parentN := node.parent;
    while parentN != null
      invariant |rows'| == |rows| && SameNodes(rows, rows') && l < |rows|
      invariant Climbing(h, rows', values, base, n, x, l, k)
      invariant k < |rows'[l].nodes| && node == rows'[l].nodes[k] && parentN == node.parent
      decreases |rows| - l
    {
      if l + 1 == |rows| { ClimbTop(h, rows', values, base, n, x, l, k); }
      SameSet(rows, rows');
      ghost var before := rows';
      node, rows' := UpdateOne(h, node, before, values, base, n, x, l, k);
      SameTwice(rows, before, rows');
      l, k := l + 1, k / 2;
      parentN := node.parent;
    }
    if l + 1 < |rows| { ClimbOn(h, rows', values, base, n, x, l, k); }
    ClimbEnd(h, rows', values, base, n, x, l, k);
  }

  // The tree of a list of leaf hashes.
  ghost predicate Updated(h: Hash, rows: seq<Row>, values: seq<string>, base: seq<string>)
    reads NodesOf(rows)
  {
    && RowsOk(rows, values) && Fits(h, rows, base) && Hashes(h, rows, base)
    && |rows[|rows| - 1].nodes| == 1 && base != [] && rows[|rows| - 1].nodes[0].hashValue == Root(h, base, 2)
  }

  lemma SameSet(rows: seq<Row>, rows': seq<Row>)
    requires SameNodes(rows, rows')
    ensures NodesOf(rows') == NodesOf(rows)
  {}

  lemma ClimbTop(h: Hash, rows: seq<Row>, values: seq<string>, base: seq<string>, n: nat, x: string, l: nat, k: nat)
    requires n < |base| && Climbing(h, rows, values, base, n, x, l, k) && l + 1 == |rows| && k < |rows[l].nodes|
    ensures rows[l].nodes[k].parent == null
  {
    hide RowsOk, Fits, Halfway;
    NoUpLink(rows, values, k);
  }

  lemma ClimbOn(h: Hash, rows: seq<Row>, values: seq<string>, base: seq<string>, n: nat, x: string, l: nat, k: nat)
    requires n < |base| && Climbing(h, rows, values, base, n, x, l, k) && l + 1 < |rows| && k < |rows[l].nodes|
    ensures rows[l].nodes[k].parent != null
  {
    hide RowsOk, Fits, Halfway;
    PairFits(h, rows, base, l, k, k / 2);
    CountFits(h, rows, base, values, l + 1);
    UpLink(rows, values, l, k, k / 2);
  }

  lemma ClimbEnd(h: Hash, rows: seq<Row>, values: seq<string>, base: seq<string>, n: nat, x: string, l: nat, k: nat)
    requires n < |base| && Climbing(h, rows, values, base, n, x, l, k) && l + 1 == |rows|
    ensures Updated(h, rows, values, base[n := x])
  {
    hide RowsOk, Fits, Halfway, Hashes, LevelAt, Root;
    CountFits(h, rows, base, values, l);
    TopNodes(h, rows, base);
    ClimbDone(h, rows, base, n, x);
    HashOf(rows, values, l, 0);
    LastHashes(h, rows, base[n := x]);
  }

  lemma TopNodes(h: Hash, rows: seq<Row>, base: seq<string>)
    requires Fits(h, rows, base)
    ensures rows != [] && |rows[|rows| - 1].nodes| == 1
  {
    hide LevelAt, Pad;
  }

  lemma LastHashes(h: Hash, rows: seq<Row>, base: seq<string>)
    requires rows != [] && Hashes(h, rows, base)
    ensures rows[|rows| - 1].hashes == LevelAt(h, base, |rows| - 1)
  {
    hide LevelAt, Pad;
  }

  // A leaf gets a new hash and the tree is refreshed: the result is what a rebuild over the new leaf hashes gives.
  method ChangeLeafHash(h: Hash, leaf: Node, x: string, ghost rows: seq<Row>, ghost values: seq<string>,
      ghost base: seq<string>, ghost n: nat) returns (ghost rows': seq<Row>)
    requires Updated(h, rows, values, base) && n < |base| && n < |rows[0].nodes| && leaf == rows[0].nodes[n]
    modifies NodesOf(rows)
    ensures SameNodes(rows, rows') && Updated(h, rows', values, base[n := x])
  {
    hide *;
    UpdatedParts(h, rows, values, base);
    CountFits(h, rows, base, values, 0);
    InTree(rows, 0, n);
    SetHash(leaf, x, rows, values, 0, n);
    FitsSame(h, rows, base, 0, n, x);
    ChangeStart(h, rows, base, n, x);
    ghost var rows1 := WithHash(rows, 0, n, x);
    SameLists(rows, values, 0, n, x);
    SameSet(rows, rows1);
    FirstCount(h, rows1, base, n);
    CountFits(h, rows1, base, values, 0);
    ClimbMade(h, rows1, values, base, n, x, 0, n);
    rows' := UpdateHash(h, leaf, rows1, values, base, n, x);
    SameTwice(rows, rows1, rows');
  }

  lemma UpdatedParts(h: Hash, rows: seq<Row>, values: seq<string>, base: seq<string>)
    requires Updated(h, rows, values, base)
    ensures RowsOk(rows, values) && Fits(h, rows, base) && Hashes(h, rows, base) && rows != []
  {
    hide RowsOk, Hashes, LevelAt;
  }

  lemma FirstCount(h: Hash, rows: seq<Row>, base: seq<string>, n: nat)
    requires Fits(h, rows, base) && n < |base|
    ensures rows != [] && n < rows[0].count && n == Ancestor(n, 0)
  {
    hide Pad;
  }

  lemma ChangeStart(h: Hash, rows: seq<Row>, base: seq<string>, n: nat, x: string)
    requires Fits(h, rows, base) && Hashes(h, rows, base) && n < |base| && n < |rows[0].hashes|
    ensures Halfway(h, WithHash(rows, 0, n, x), base, base[n := x], 0, n)
  {
    hide Pad;
  }

  // A tree built over blocks is the tree of their hashes.
  lemma BuiltIsUpdated(h: Hash, rows: seq<Row>, values: seq<string>)
    requires rows != [] && Built(h, rows, values) && values != [] && |rows[|rows| - 1].nodes| == 1
    ensures Updated(h, rows, values, LeafHashes(h, values))
  {
    hide RowsOk, Measured, LevelAt, Pad, LeafHashes, Root;
    BuiltParts(h, rows, values);
    RootIs(h, rows, values);
    forall m | 0 <= m < |rows|
      ensures rows[m].count == |LevelAt(h, LeafHashes(h, values), m)|
    {
      LevelCount(h, rows, values, m);
    }
    forall m | 0 <= m < |rows| - 1
      ensures var level := LevelAt(h, LeafHashes(h, values), m); |level| > 1 && |Pad(level)| == |rows[m].nodes|
    {
      LevelCount(h, rows, values, m);
      RowAt(h, rows, values, m);
    }
    MeasuredParts(h, rows, values);
  }

  lemma MeasuredParts(h: Hash, rows: seq<Row>, values: seq<string>)
    requires Measured(h, rows, values)
    ensures Sizes(rows) && Hashes(h, rows, LeafHashes(h, values))
  {
    hide Sizes, Hashes, LeafHashes;
  }
}
