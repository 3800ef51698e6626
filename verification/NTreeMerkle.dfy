// The N-ary Merkle tree: nodes are kept in one growing list, parents are found through links.
module NTreeMerkle {
  import opened Options
  import opened MerkleSpec
  import Arithmetic

  datatype Node = Node(level: nat, index: nat, leaf: bool, padding: bool, value: string, hash: string,
    children: seq<nat>, duplicateOf: Option<nat>)

  datatype ParentLink = ParentLink(parent: nat, childIndex: nat)

  datatype BuildResult = BuildResult(success: bool, rootHash: string, arity: nat, leafCount: nat, nodeCount: nat,
      height: nat)

  datatype Proof = Proof(leafIndex: nat, leafValue: string, leafHash: string, rootHash: string, steps: seq<Step>)

  type Links = map<nat, ParentLink>

  // ---- what the links and children of one level say ----

  predicate Hashed(nodes: seq<Node>, ids: seq<nat>, level: seq<string>) {
    |ids| == |level| && forall k :: 0 <= k < |ids| ==> ids[k] < |nodes| && nodes[ids[k]].hash == level[k]
  }

  // The children of group i hold the group's hashes.
  predicate ChildHashes(nodes: seq<Node>, children: seq<nat>, level: seq<string>, a: nat, i: nat)
    requires level != []
  {
    |children| == a && forall j :: 0 <= j < a ==>
      children[j] < |nodes| && nodes[children[j]].hash == Child(level, a, i, j)
  }

  lemma ChildCount(nodes: seq<Node>, children: seq<nat>, level: seq<string>, a: nat, i: nat)
    requires level != [] && ChildHashes(nodes, children, level, a, i)
    ensures |children| == a
  {}

  lemma ChildHashAt(nodes: seq<Node>, children: seq<nat>, level: seq<string>, a: nat, i: nat, j: nat)
    requires level != [] && ChildHashes(nodes, children, level, a, i) && j < a && j < |children|
    ensures children[j] < |nodes| && nodes[children[j]].hash == Child(level, a, i, j)
  {
    hide Child;
  }

  // The first j of c without the one at skip.
  function Skipped(c: seq<string>, skip: nat, j: nat): seq<string>
    requires skip < |c| && j <= |c|
  {
    if j <= skip then c[..j] else c[..skip] + c[skip + 1..j]
  }

  lemma SkippedEnds(c: seq<string>, skip: nat)
    requires skip < |c|
    ensures Skipped(c, skip, 0) == [] && Skipped(c, skip, |c|) == c[..skip] + c[skip + 1..]
  {}

  lemma SkipStep(c: seq<string>, skip: nat, j: nat)
    requires skip < |c| && j < |c|
    ensures Skipped(c, skip, j + 1) == if j == skip then Skipped(c, skip, j) else Skipped(c, skip, j) + [c[j]]
  {}

  // The links of a node's children, padding or not, lead back to the node.
  predicate Mutual(links: Links, children: seq<nat>, parent: nat) {
    forall x :: 0 <= x < |children| ==> children[x] in links && links[children[x]] == ParentLink(parent, x)
  }

  // Node id is child j of its parent, whose children are group i of the level.
  predicate LinkedUp(nodes: seq<Node>, links: Links, a: nat, id: nat, level: seq<string>, parent: nat, i: nat, j: nat)
    requires level != []
  {
    && parent < |nodes| && ChildHashes(nodes, nodes[parent].children, level, a, i)
    && j < a && nodes[parent].children[j] == id && Mutual(links, nodes[parent].children, parent)
  }

  // The first n groups of a level are linked to their parents.
  ghost predicate Grouped(nodes: seq<Node>, links: Links, a: nat, ids: seq<nat>, level: seq<string>, next: seq<nat>,
      n: nat)
    requires a > 0 && level != []
  {
    n <= |next| && forall k :: 0 <= k < |ids| && k / a < n ==>
      LinkedUp(nodes, links, a, ids[k], level, next[k / a], k / a, k % a)
  }

  // Consecutive levels of node ids, from the one with these hashes up.
  ghost predicate Stacked(nodes: seq<Node>, links: Links, h: Hash, a: nat, ids: seq<seq<nat>>, level: seq<string>)
    requires a > 1 && level != []
    decreases |ids|
  {
    && ids != [] && Hashed(nodes, ids[0], level)
    && (|ids| > 1 ==>
      && |level| > 1
      && Grouped(nodes, links, a, ids[0], level, ids[1], GroupCount(|level|, a))
      && (GroupCountShrinks(|level|, a); Stacked(nodes, links, h, a, ids[1..], NextLevel(h, level, a))))
  }

  // The hashes n levels up.
  function LevelUp(h: Hash, level: seq<string>, a: nat, n: nat): (l: seq<string>)
    requires a > 1 && level != []
    ensures l != []
    decreases n
  {
    if n == 0 || |level| == 1 then level
    else
      GroupCountShrinks(|level|, a);
      LevelUp(h, NextLevel(h, level, a), a, n - 1)
  }

  ghost predicate Grows(nodes: seq<Node>, nodes': seq<Node>, links: Links, links': Links) {
    && |nodes| <= |nodes'| && nodes'[..|nodes|] == nodes
    && forall id :: id in links ==> id in links' && links'[id] == links[id]
  }

  lemma HashedGrows(nodes: seq<Node>, nodes': seq<Node>, ids: seq<nat>, level: seq<string>)
    requires Hashed(nodes, ids, level) && |nodes| <= |nodes'| && nodes'[..|nodes|] == nodes
    ensures Hashed(nodes', ids, level)
  {
    forall k | 0 <= k < |ids| ensures ids[k] < |nodes'| && nodes'[ids[k]].hash == level[k] {
      assert nodes'[..|nodes|][ids[k]] == nodes'[ids[k]];
    }
  }

  lemma LinkedUpGrows(nodes: seq<Node>, nodes': seq<Node>, links: Links, links': Links, a: nat, id: nat,
      level: seq<string>, parent: nat, i: nat, j: nat)
    requires level != [] && Grows(nodes, nodes', links, links') && LinkedUp(nodes, links, a, id, level, parent, i, j)
    ensures LinkedUp(nodes', links', a, id, level, parent, i, j)
  {
    hide Child;
    assert nodes'[..|nodes|][parent] == nodes'[parent];
    var c := nodes[parent].children;
    forall x | 0 <= x < a ensures c[x] < |nodes'| && nodes'[c[x]].hash == Child(level, a, i, x) {
      assert nodes'[..|nodes|][c[x]] == nodes'[c[x]];
    }
  }

  lemma GroupedGrows(nodes: seq<Node>, nodes': seq<Node>, links: Links, links': Links, a: nat, ids: seq<nat>,
      level: seq<string>, next: seq<nat>, next': seq<nat>, n: nat)
    requires a > 0 && level != [] && Grows(nodes, nodes', links, links')
    requires Grouped(nodes, links, a, ids, level, next, n)
    requires |next| <= |next'| && next'[..|next|] == next
    ensures Grouped(nodes', links', a, ids, level, next', n)
  {
    hide LinkedUp;
    forall k | 0 <= k < |ids| && k / a < n
      ensures LinkedUp(nodes', links', a, ids[k], level, next'[k / a], k / a, k % a)
    {
      assert next'[..|next|][k / a] == next'[k / a];
      LinkedUpGrows(nodes, nodes', links, links', a, ids[k], level, next[k / a], k / a, k % a);
    }
  }

  lemma {:induction false} StackedGrows(nodes: seq<Node>, nodes': seq<Node>, links: Links, links': Links, h: Hash,
      a: nat, ids: seq<seq<nat>>, level: seq<string>)
    requires a > 1 && level != [] && Grows(nodes, nodes', links, links') && Stacked(nodes, links, h, a, ids, level)
    ensures Stacked(nodes', links', h, a, ids, level)
    decreases |ids|
  {
    hide Hashed, Grouped, Grows;
    GrowsNodes(nodes, nodes', links, links');
    HashedGrows(nodes, nodes', ids[0], level);
    if |ids| > 1 {
      GroupCountShrinks(|level|, a);
      GroupedGrows(nodes, nodes', links, links', a, ids[0], level, ids[1], ids[1], GroupCount(|level|, a));
      StackedGrows(nodes, nodes', links, links', h, a, ids[1..], NextLevel(h, level, a));
    }
  }

  lemma GrowsNodes(nodes: seq<Node>, nodes': seq<Node>, links: Links, links': Links)
    requires Grows(nodes, nodes', links, links')
    ensures |nodes| <= |nodes'| && nodes'[..|nodes|] == nodes
  {}

  // A complete level goes on top of the stack.
  lemma {:induction false} StackOne(nodes: seq<Node>, links: Links, h: Hash, a: nat, ids: seq<seq<nat>>,
      level: seq<string>, next: seq<nat>)
    requires a > 1 && level != [] && Stacked(nodes, links, h, a, ids, level)
    requires var top := LevelUp(h, level, a, |ids| - 1);
      && |top| > 1 && Grouped(nodes, links, a, ids[|ids| - 1], top, next, GroupCount(|top|, a))
      && Hashed(nodes, next, NextLevel(h, top, a))
    ensures Stacked(nodes, links, h, a, ids + [next], level)
    ensures LevelUp(h, level, a, |ids|) == NextLevel(h, LevelUp(h, level, a, |ids| - 1), a)
    decreases |ids|
  {
    hide Hashed, Grouped, NextLevel, GroupCount;
    var ids' := ids + [next];
    if |ids| == 1 {
      StackTop(nodes, links, h, a, ids[0], next, level);
      assert ids' == [ids[0], next];
    } else {
      GroupShrinks(h, level, a);
      StackOne(nodes, links, h, a, ids[1..], NextLevel(h, level, a), next);
      assert ids'[1..] == ids[1..] + [next];
    }
  }

  lemma GroupShrinks(h: Hash, level: seq<string>, a: nat)
    requires |level| > 1 && a > 1
    ensures 1 <= |NextLevel(h, level, a)| == GroupCount(|level|, a) < |level|
  {
    GroupCountShrinks(|level|, a);
  }

  lemma StackTop(nodes: seq<Node>, links: Links, h: Hash, a: nat, ids: seq<nat>, next: seq<nat>, level: seq<string>)
    requires a > 1 && |level| > 1 && Hashed(nodes, ids, level)
    requires Grouped(nodes, links, a, ids, level, next, GroupCount(|level|, a))
    requires Hashed(nodes, next, NextLevel(h, level, a))
    ensures Stacked(nodes, links, h, a, [ids, next], level)
    ensures LevelUp(h, level, a, 1) == NextLevel(h, level, a)
  {
    hide Hashed, Grouped;
    GroupShrinks(h, level, a);
    assert [ids, next][1..] == [next];
  }

  // ---- one group ----

  predicate Increasing(s: seq<nat>, bound: nat) {
    (forall x, y :: 0 <= x < y < |s| ==> s[x] < s[y]) && forall x :: 0 <= x < |s| ==> s[x] < bound
  }

  // The group under construction: children of the level first, then padding nodes.
  ghost predicate GroupOk(nodes: seq<Node>, group: seq<nat>, current: seq<nat>, level: seq<string>, a: nat, i: nat,
      base: nat)
    requires level != []
  {
    && |group| <= a
    && forall j :: 0 <= j < |group| ==> MemberOk(nodes, group[j], current, level, a, i, j, base)
  }

  ghost predicate MemberOk(nodes: seq<Node>, id: nat, current: seq<nat>, level: seq<string>, a: nat, i: nat, j: nat,
      base: nat)
    requires level != []
  {
    && id < |nodes| && nodes[id].hash == Child(level, a, i, j)
    && (if i * a + j < |current| then id == current[i * a + j] else id >= base)
  }

  lemma PadGroup(nodes: seq<Node>, group: seq<nat>, current: seq<nat>, level: seq<string>, a: nat, i: nat, base: nat,
      pad: Node)
    requires level != [] && GroupOk(nodes, group, current, level, a, i, base) && group != [] && |group| < a
    requires |current| == |level| && i * a + |group| >= |current| && base <= |nodes|
    requires pad.hash == nodes[group[|group| - 1]].hash && i * a < |current|
    ensures GroupOk(nodes + [pad], group + [|nodes|], current, level, a, i, base)
  {
    var j := |group|;
    assert MemberOk(nodes, group[j - 1], current, level, a, i, j - 1, base);
    assert Child(level, a, i, j) == Child(level, a, i, j - 1) by {
      assert i * a + j - 1 >= |level| - 1;
    }
    var nodes', group' := nodes + [pad], group + [|nodes|];
    forall x | 0 <= x < |group'| ensures MemberOk(nodes', group'[x], current, level, a, i, x, base) {
      if x < j { assert MemberOk(nodes, group[x], current, level, a, i, x, base); }
    }
  }

  // The links of a finished group.
  function LinkedGroup(links: Links, group: seq<nat>, parent: nat, n: nat): Links
    requires n <= |group|
  {
    if n == 0 then links else LinkedGroup(links, group, parent, n - 1)[group[n - 1] := ParentLink(parent, n - 1)]
  }

  lemma {:induction false} LinkedGroupAt(links: Links, group: seq<nat>, parent: nat, n: nat, id: nat)
    requires n <= |group|
    ensures id !in group[..n] ==> (id in LinkedGroup(links, group, parent, n) <==> id in links)
    ensures id !in group[..n] && id in links ==> LinkedGroup(links, group, parent, n)[id] == links[id]
    ensures id in group[..n] ==> id in LinkedGroup(links, group, parent, n)
    decreases n
  {
    if n > 0 {
      LinkedGroupAt(links, group, parent, n - 1, id);
      assert group[..n] == group[..n - 1] + [group[n - 1]];
    }
  }

  lemma {:induction false} LinkedGroupMember(links: Links, group: seq<nat>, parent: nat, n: nat, j: nat)
    requires j < n <= |group| && forall x, y :: 0 <= x < y < |group| ==> group[x] != group[y]
    ensures group[j] in LinkedGroup(links, group, parent, n)
    ensures LinkedGroup(links, group, parent, n)[group[j]] == ParentLink(parent, j)
    decreases n
  {
    if j < n - 1 { LinkedGroupMember(links, group, parent, n - 1, j); }
  }

  // ---- the tree ----

  predicate LeavesOk(nodes: seq<Node>, leafIds: seq<nat>, leaves: seq<string>) {
    |leafIds| == |leaves| && forall k :: 0 <= k < |leafIds| ==>
      leafIds[k] < |nodes| && nodes[leafIds[k]].value == leaves[k]
  }

  // The levels are stacked from the leaves to a single root, whose level is their number less one.
  ghost predicate TreeOk(nodes: seq<Node>, links: Links, h: Hash, a: nat, levels: seq<seq<nat>>, leafIds: seq<nat>,
      root: nat, leaves: seq<string>)
    requires a > 1 && leaves != []
  {
    && levels != [] && levels[0] == leafIds && levels[|levels| - 1] == [root]
    && LeavesOk(nodes, leafIds, leaves)
    && Stacked(nodes, links, h, a, levels, LeafHashes(h, leaves))
    && |LevelUp(h, LeafHashes(h, leaves), a, |levels| - 1)| == 1
    && root < |nodes| && nodes[root].level == |levels| - 1 && root !in links
  }

  class Tree {
    const h: Hash
    const arity: nat
    var nodes: seq<Node>
    var leafIds: seq<nat>
    var rootId: Option<nat>
    var parentLinks: Links
    ghost var levels: seq<seq<nat>>   // the node ids of every level without padding

    constructor (h: Hash, arity: nat)
      requires arity >= 2
      ensures this.h == h && this.arity == arity && rootId == None && Valid([])
    {
      this.h, this.arity := h, arity;
      nodes, leafIds, rootId, parentLinks, levels := [], [], None, map[], [];
    }

    // The tree built over leaves, or no tree.
    ghost predicate Valid(leaves: seq<string>)
      reads this
    {
      && arity >= 2
      && match rootId
         case None => leaves == [] && leafIds == []
         case Some(root) => leaves != [] && TreeOk(nodes, parentLinks, h, arity, levels, leafIds, root, leaves)
    }

    // The concatenated hashes of a group.
    method JoinHashes(group: seq<nat>, ghost level: seq<string>, ghost i: nat) returns (material: string)
      requires level != [] && ChildHashes(nodes, group, level, arity, i)
      ensures material == Join(Children(level, arity, i, arity))
    {
      hide Child, Join, Children;
      JoinNothing(level, arity, i);
      material := "";
      var j := 0;
      while j < |group|
        invariant 0 <= j <= |group| && material == Join(Children(level, arity, i, j))
      {
        JoinChild(level, arity, i, j);
        material := material + nodes[group[j]].hash;
        j := j + 1;
      }
    }

    method LinkGroup(group: seq<nat>, parent: nat)
      modifies this`parentLinks
      ensures parentLinks == LinkedGroup(old(parentLinks), group, parent, |group|)
    {
      var j := 0;
      while j < |group|
        invariant 0 <= j <= |group| && parentLinks == LinkedGroup(old(parentLinks), group, parent, j)
      {
        parentLinks := parentLinks[group[j] := ParentLink(parent, j)];
        j := j + 1;
      }
    }

    // The members of group i of a level, completed with copies of the last one.
    method MakeGroup(current: seq<nat>, offset: nat, level: nat, ghost top: seq<string>, ghost i: nat)
      returns (group: seq<nat>)
      requires arity >= 2 && top != [] && Hashed(nodes, current, top) && offset == i * arity < |current|
      requires Increasing(current, |nodes|)
      modifies this`nodes
      ensures |old(nodes)| <= |nodes| && nodes[..|old(nodes)|] == old(nodes)
      ensures GroupOk(nodes, group, current, top, arity, i, |old(nodes)|) && |group| == arity
      ensures Increasing(group, |nodes|)
    {
      hide Child;
      var end := if offset + arity < |current| then offset + arity else |current|;
      group := [];
      var k := offset;
      while k < end
        invariant offset <= k <= end && |group| == k - offset && nodes == old(nodes)
        invariant GroupOk(nodes, group, current, top, arity, i, |old(nodes)|) && group == current[offset..k]
      {
        GroupMember(nodes, group, current, top, arity, i, |old(nodes)|);
        group := group + [current[k]];
        k := k + 1;
      }
      var paddingCount := 0;   // of the level: no other group is padded
      while |group| < arity
        invariant group != [] && |group| <= arity && offset + |group| >= end
        invariant |group| < arity ==> end == |current|
        invariant |old(nodes)| <= |nodes| && nodes[..|old(nodes)|] == old(nodes)
        invariant GroupOk(nodes, group, current, top, arity, i, |old(nodes)|) && Increasing(group, |nodes|)
        decreases arity - |group|
      {
        var source := group[|group| - 1];
        assert MemberOk(nodes, source, current, top, arity, i, |group| - 1, |old(nodes)|);
        var pad := Node(level, |current| + paddingCount, false, true, "", nodes[source].hash, [], Some(source));
        PadGroup(nodes, group, current, top, arity, i, |old(nodes)|, pad);
        group := group + [|nodes|];
        nodes := nodes + [pad];
        paddingCount := paddingCount + 1;
      }
    }

    // Group i becomes the children of a new node.
    method MakeParent(current: seq<nat>, offset: nat, level: nat, index: nat, ghost top: seq<string>, ghost i: nat)
      returns (parent: nat)
      requires arity >= 2 && top != [] && Hashed(nodes, current, top) && offset == i * arity < |current|
      requires Fresh(nodes, parentLinks, current, offset)
      modifies this`nodes, this`parentLinks
      ensures Grows(old(nodes), nodes, old(parentLinks), parentLinks) && |old(nodes)| <= parent < |nodes|
      ensures nodes[parent].hash == Parent(h, top, arity, i) && nodes[parent].level == level + 1
      ensures GroupLinked(nodes, parentLinks, arity, current, top, parent, i)
      ensures Fresh(nodes, parentLinks, current, offset + arity) && parent !in parentLinks
      ensures forall id :: id in parentLinks ==> id in old(parentLinks) || id in current || id >= |old(nodes)|
    {
      hide Hashed, GroupOk, ChildHashes, LinkedGroup, Join, Children, Child, GroupLinked;
      var group := MakeGroup(current, offset, level, top, i);
      GroupChildren(nodes, group, current, top, arity, i, |old(nodes)|);
      var material := JoinHashes(group, top, i);
      parent := |nodes|;
      var node := Node(level + 1, index, false, false, "", h(material), group, None);
      LinkedGroupGrows(old(nodes), nodes, node, parentLinks, group, current, top, arity, i);
      LinkedGroupLinks(old(nodes), nodes, node, parentLinks, group, current, top, arity, i);
      LinkedGroupFresh(old(nodes), nodes, node, parentLinks, group, current, top, arity, i);
      LinkedKeys(old(nodes), nodes, parentLinks, group, current, top, arity, i);
      nodes := nodes + [node];
      LinkGroup(group, parent);
    }

    // All groups of a level.
    method BuildLevel(current: seq<nat>, level: nat, ghost top: seq<string>) returns (next: seq<nat>)
      requires arity >= 2 && |top| > 1 && Hashed(nodes, current, top) && Fresh(nodes, parentLinks, current, 0)
      modifies this`nodes, this`parentLinks
      ensures Grows(old(nodes), nodes, old(parentLinks), parentLinks)
      ensures Hashed(nodes, next, NextLevel(h, top, arity)) && Fresh(nodes, parentLinks, next, 0)
      ensures Grouped(nodes, parentLinks, arity, current, top, next, GroupCount(|top|, arity))
      ensures forall x :: 0 <= x < |next| ==> next[x] < |nodes| && nodes[next[x]].level == level + 1
    {
      hide Hashed, Grouped, GroupLinked, Fresh, Parents, Parent, GroupCount;
      next := [];
      var offset := 0;
      ghost var i := 0;
      LevelStart(nodes, parentLinks, arity, h, current, top);
      while offset < |current|
        invariant offset == i * arity && (i > 0 ==> (i - 1) * arity < |current|)
        invariant Grows(old(nodes), nodes, old(parentLinks), parentLinks)
        invariant Hashed(nodes, current, top) && Fresh(nodes, parentLinks, current, offset)
        invariant LevelSoFar(nodes, parentLinks, arity, h, current, level, top, next, i, |old(nodes)|)
        decreases |current| - offset
      {
        ghost var nodes0, links0 := nodes, parentLinks;
        var parent := MakeParent(current, offset, level, |next|, top, i);
        GrowsNodes(nodes0, nodes, links0, parentLinks);
        HashedGrows(nodes0, nodes, current, top);
        LevelGrows(nodes0, nodes, links0, parentLinks, arity, h, current, level, top, next, i, |old(nodes)|, parent);
        next := next + [parent];
        assert (i + 1) * arity == i * arity + arity;
        GrowsTwice(old(nodes), nodes0, nodes, old(parentLinks), links0, parentLinks);
        offset := offset + arity;
        i := i + 1;
      }
      HashedLength(nodes, current, top);
      LevelDone(nodes, parentLinks, arity, h, current, level, top, next, i, |old(nodes)|);
    }

    method AddLeaves(leaves: seq<string>)
      requires nodes == [] && leafIds == [] && parentLinks == map[]
      modifies this`nodes, this`leafIds
      ensures Hashed(nodes, leafIds, LeafHashes(h, leaves)) && LeavesOk(nodes, leafIds, leaves)
      ensures Fresh(nodes, parentLinks, leafIds, 0) && |nodes| == |leaves|
      ensures forall k :: 0 <= k < |nodes| ==> nodes[k].level == 0
    {
      hide LeafHashes;
      var i := 0;
      while i < |leaves|
        invariant 0 <= i <= |leaves| && |nodes| == |leafIds| == i
        invariant forall k :: 0 <= k < i ==>
          leafIds[k] == k && nodes[k].value == leaves[k] && nodes[k].hash == h(leaves[k]) && nodes[k].level == 0
      {
        nodes := nodes + [Node(0, i, true, false, leaves[i], h(leaves[i]), [], None)];
        leafIds := leafIds + [i];
        i := i + 1;
      }
    }

    // The tree over leaves: leaves first, then level by level until one node is left.
    method Build(leaves: seq<string>) returns (result: BuildResult)
      requires arity >= 2
      modifies this
      ensures Valid(leaves)
      ensures leaves == [] ==> result == BuildResult(false, "", arity, 0, 0, 0)
      ensures leaves != [] ==>
        && result == BuildResult(true, Root(h, LeafHashes(h, leaves), arity), arity, |leaves|, |nodes|, |levels|)
    {
      hide Stacked, Hashed, Fresh, Grows, Grouped, NextLevel, LeafHashes;
      nodes, leafIds, rootId, parentLinks, levels := [], [], None, map[], [];
      if leaves == [] {
        return BuildResult(false, "", arity, 0, 0, 0);
      }
      AddLeaves(leaves);
      ghost var base := LeafHashes(h, leaves);
      var current, level := leafIds, 0;
      levels := [leafIds];
      ghost var top := base;
      StackStart(nodes, parentLinks, h, arity, leafIds, base);
      while |current| > 1
        invariant StackBuilt(nodes, parentLinks, h, arity, levels, base, current, level, top)
        invariant levels[0] == leafIds && LeavesOk(nodes, leafIds, leaves) && arity >= 2
        decreases |top|
      {
        ghost var nodes0, links0 := nodes, parentLinks;
        HashedLength(nodes, current, top);
        var next := BuildLevel(current, level, top);
        LeavesGrow(nodes0, nodes, links0, parentLinks, leafIds, leaves);
        BuiltOne(nodes0, nodes, links0, parentLinks, h, arity, levels, base, current, level, top, next);
        GroupShrinks(h, top, arity);
        levels := levels + [next];
        top := NextLevel(h, top, arity);
        current := next;
        level := level + 1;
      }
      HashedLength(nodes, current, top);
      rootId := Some(current[0]);
      BuiltRoot(nodes, parentLinks, h, arity, levels, base, current, level, top);
      result := BuildResult(true, nodes[current[0]].hash, arity, |leafIds|, |nodes|, nodes[current[0]].level + 1);
    }

    // The children's hashes without the child itself.
    method SiblingHashes(children: seq<nat>, childIndex: nat, ghost level: seq<string>, ghost i: nat)
      returns (siblings: seq<string>)
      requires arity >= 2 && level != [] && ChildHashes(nodes, children, level, arity, i) && childIndex < arity
      ensures siblings == Siblings(level, arity, i, childIndex)
    {
      hide Child, Skipped, ChildHashes;
      siblings := [];
      ghost var c := Children(level, arity, i, arity);
      ChildCount(nodes, children, level, arity, i);
      var j := 0;
      SkippedEnds(c, childIndex);
      while j < |children|
        invariant 0 <= j <= |children| && siblings == Skipped(c, childIndex, j)
      {
        ChildHashAt(nodes, children, level, arity, i, j);
        SkipStep(c, childIndex, j);
        if j != childIndex {
          siblings := siblings + [nodes[children[j]].hash];
        }
        j := j + 1;
      }
    }

    // The proof of a leaf, read off by following parent links to the root. None stands for the exceptions.
    method GenerateProof(leafIndex: nat, ghost leaves: seq<string>) returns (proof: Option<Proof>)
      requires Valid(leaves)
      ensures proof.None? <==> leafIndex >= |leaves|
      ensures proof.Some? ==>
        var base := LeafHashes(h, leaves);
        proof.value == Proof(leafIndex, leaves[leafIndex], base[leafIndex], Root(h, base, arity),
            Path(h, base, arity, leafIndex))
    {
      hide Stacked, Grouped, NextLevel, LeafHashes, LevelUp, GroupCount, Root, Path;
      if rootId.None? || leafIndex >= |leafIds| {
        return None;
      }
      ghost var base := LeafHashes(h, leaves);
      var root := rootId.value;
      RootHash(nodes, parentLinks, h, arity, levels, leafIds, root, leaves);
      var current := leafIds[leafIndex];
      var leaf := nodes[current];
      ghost var ids, level := levels, base;
      ghost var k: nat := leafIndex;
      StackedHere(nodes, parentLinks, h, arity, ids, level, k);
      var steps: seq<Step> := [];
      assert steps + Path(h, base, arity, leafIndex) == Path(h, base, arity, leafIndex);
      while current != root
        invariant ids != [] && level != [] && Stacked(nodes, parentLinks, h, arity, ids, level)
        invariant k < |ids[0]| == |level|
        invariant current == ids[0][k] && ids[|ids| - 1] == [root] && current < |nodes|
        invariant steps + Path(h, level, arity, k) == Path(h, base, arity, leafIndex)
        decreases |ids|
      {
        assert |ids| > 1;
        StackedStep(nodes, parentLinks, h, arity, ids, level, k, k / arity, k % arity);
        var link := parentLinks[current];
        var parent := nodes[link.parent];
        var siblings := SiblingHashes(parent.children, link.childIndex, level, k / arity);
        PathStep(h, level, arity, k);
        ghost var rest := Path(h, NextLevel(h, level, arity), arity, k / arity);
        assert steps + ([Step(link.childIndex, siblings)] + rest) == steps + [Step(link.childIndex, siblings)] + rest;
        steps := steps + [Step(link.childIndex, siblings)];
        current := link.parent;
        ids, level, k := ids[1..], NextLevel(h, level, arity), k / arity;
      }
      RootAlone(nodes, parentLinks, h, arity, ids, level, k, root);
      assert steps + [] == steps;
      proof := Some(Proof(leafIndex, leaf.value, leaf.hash, nodes[root].hash, steps));
    }

    // Recomputes the root from a proof.
    method VerifyProof(proof: Proof, ghost leaves: seq<string>) returns (ok: bool)
      requires Valid(leaves)
      ensures ok
        <==> Accepts(h, arity, proof) && (leaves != [] ==> proof.rootHash == Root(h, LeafHashes(h, leaves), arity))
    {
      hide Stacked, Join, LeafHashes, Root, Group;
      if proof.leafHash != h(proof.leafValue) {
        return false;
      }
      if proof.rootHash == "" {
        return false;
      }
      var current := proof.leafHash;
      var i := 0;
      while i < |proof.steps|
        invariant 0 <= i <= |proof.steps|
        invariant forall j :: 0 <= j < i ==> StepOk(proof.steps[j], arity)
        invariant Climb(h, current, proof.steps[i..]) == Climb(h, proof.leafHash, proof.steps)
      {
        var step := proof.steps[i];
        if step.childIndex >= arity {
          return false;
        }
        if |step.siblings| + 1 != arity {
          return false;
        }
        var material := Concatenate(step, current);
        assert proof.steps[i..][1..] == proof.steps[i + 1..];
        current := h(material);
        i := i + 1;
      }
      if current != proof.rootHash {
        return false;
      }
      if rootId.Some? {
        RootHash(nodes, parentLinks, h, arity, levels, leafIds, rootId.value, leaves);
        if current != nodes[rootId.value].hash {
          return false;
        }
      }
      return true;
    }
  }

  // What verify_proof asks of a proof on its own.
  predicate Accepts(h: Hash, a: nat, p: Proof) {
    && p.leafHash == h(p.leafValue) && p.rootHash != ""
    && (forall j :: 0 <= j < |p.steps| ==> StepOk(p.steps[j], a))
    && Climb(h, p.leafHash, p.steps) == p.rootHash
  }

  // The children of a step, one after the other.
  method Concatenate(step: Step, hash: string) returns (material: string)
    requires step.childIndex <= |step.siblings|
    ensures material == Join(Group(step, hash))
  {
    var children: seq<string> := [];
    var siblingIndex, j := 0, 0;
    ghost var all := Group(step, hash);
    while j < |step.siblings| + 1
      invariant 0 <= j <= |step.siblings| + 1 && children == all[..j]
      invariant siblingIndex == if j <= step.childIndex then j else j - 1
    {
      if j == step.childIndex {
        children := children + [hash];
      } else {
        children := children + [step.siblings[siblingIndex]];
        siblingIndex := siblingIndex + 1;
      }
      j := j + 1;
    }
    assert all[..j] == all;
    material := JoinAll(children);
  }

  method JoinAll(s: seq<string>) returns (material: string)
    ensures material == Join(s)
  {
    material := "";
    var j := 0;
    while j < |s|
      invariant 0 <= j <= |s| && material == Join(s[..j])
    {
      assert s[..j + 1][..j] == s[..j];
      material := material + s[j];
      j := j + 1;
    }
    assert s[..j] == s;
  }

  lemma RootHash(nodes: seq<Node>, links: Links, h: Hash, a: nat, levels: seq<seq<nat>>, leafIds: seq<nat>, root: nat,
      leaves: seq<string>)
    requires a > 1 && leaves != [] && TreeOk(nodes, links, h, a, levels, leafIds, root, leaves)
    ensures root < |nodes| && nodes[root].hash == Root(h, LeafHashes(h, leaves), a)
  {
    hide Grouped, NextLevel, LeafHashes, LevelUp, Stacked;
    var base, n := LeafHashes(h, leaves), |levels| - 1;
    RootOfUp(h, base, a, n);
    StackedTop(nodes, links, h, a, levels, base);
    assert Hashed(nodes, [root], LevelUp(h, base, a, n));
    assert nodes[[root][0]].hash == LevelUp(h, base, a, n)[0];
  }

  lemma {:induction false} StackedTop(nodes: seq<Node>, links: Links, h: Hash, a: nat, ids: seq<seq<nat>>,
      level: seq<string>)
    requires a > 1 && level != [] && Stacked(nodes, links, h, a, ids, level)
    ensures Hashed(nodes, ids[|ids| - 1], LevelUp(h, level, a, |ids| - 1))
    decreases |ids|
  {
    hide Grouped, NextLevel, Hashed;
    if |ids| > 1 {
      GroupShrinks(h, level, a);
      StackedTop(nodes, links, h, a, ids[1..], NextLevel(h, level, a));
    }
  }

  lemma StackedHere(nodes: seq<Node>, links: Links, h: Hash, a: nat, ids: seq<seq<nat>>, level: seq<string>, k: nat)
    requires a > 1 && level != [] && Stacked(nodes, links, h, a, ids, level) && k < |ids[0]|
    ensures |ids[0]| == |level| && ids[0][k] < |nodes| && nodes[ids[0][k]].hash == level[k]
  {
    hide Grouped, NextLevel;
  }

  // One link up the stack.
  lemma StackedStep(nodes: seq<Node>, links: Links, h: Hash, a: nat, ids: seq<seq<nat>>, level: seq<string>, k: nat,
      q: nat, r: nat)
    requires a > 1 && level != [] && Stacked(nodes, links, h, a, ids, level) && |ids| > 1 && k < |ids[0]|
    requires q == k / a && r == k % a
    ensures |level| > 1 && ids[0][k] in links && r < a && q < |ids[1]| && links[ids[0][k]] == ParentLink(ids[1][q], r)
    ensures ids[1][q] < |nodes| && ChildHashes(nodes, nodes[ids[1][q]].children, level, a, q)
    ensures NextLevel(h, level, a) != [] && |NextLevel(h, level, a)| == |ids[1]|
    ensures Stacked(nodes, links, h, a, ids[1..], NextLevel(h, level, a))
  {
    hide NextLevel, ChildHashes, LinkedUp;
    StackedHere(nodes, links, h, a, ids, level, k);
    GroupShrinks(h, level, a);
    GroupIndex(|level|, a, k);
    Arithmetic.DivRem(a, k);
    StackedHere(nodes, links, h, a, ids[1..], NextLevel(h, level, a), 0);
    assert LinkedUp(nodes, links, a, ids[0][k], level, ids[1][q], q, r);
    OwnLink(nodes, links, a, ids[0][k], level, ids[1][q], q, r);
  }

  lemma OwnLink(nodes: seq<Node>, links: Links, a: nat, id: nat, level: seq<string>, parent: nat, i: nat, j: nat)
    requires level != [] && LinkedUp(nodes, links, a, id, level, parent, i, j)
    ensures id in links && links[id] == ParentLink(parent, j)
    ensures parent < |nodes| && ChildHashes(nodes, nodes[parent].children, level, a, i)
  {
    hide Child;
  }

  lemma PathStep(h: Hash, level: seq<string>, a: nat, k: nat)
    requires a > 1 && |level| > 1
    ensures k % a < a && NextLevel(h, level, a) != []
    ensures Path(h, level, a, k)
      == [Step(k % a, Siblings(level, a, k / a, k % a))] + Path(h, NextLevel(h, level, a), a, k / a)
  {
    hide NextLevel, Siblings;
    GroupShrinks(h, level, a);
    Arithmetic.DivRem(a, k);
  }

  // At the root the path is complete.
  lemma RootAlone(nodes: seq<Node>, links: Links, h: Hash, a: nat, ids: seq<seq<nat>>, level: seq<string>, k: nat,
      root: nat)
    requires a > 1 && level != [] && Stacked(nodes, links, h, a, ids, level) && k < |ids[0]| && ids[0][k] == root
    requires root !in links
    requires ids[|ids| - 1] == [root]
    ensures Path(h, level, a, k) == []
  {
    hide NextLevel, Siblings;
    if |ids| > 1 {
      StackedStep(nodes, links, h, a, ids, level, k, k / a, k % a);
    } else {
      StackedHere(nodes, links, h, a, ids, level, k);
    }
  }

  // The levels built so far; the last one is current.
  ghost predicate StackBuilt(nodes: seq<Node>, links: Links, h: Hash, a: nat, levels: seq<seq<nat>>, base: seq<string>,
      current: seq<nat>, level: nat, top: seq<string>)
    requires a > 1 && base != []
  {
    && levels != [] && levels[|levels| - 1] == current && |levels| == level + 1
    && Stacked(nodes, links, h, a, levels, base) && top == LevelUp(h, base, a, level)
    && Hashed(nodes, current, top) && Fresh(nodes, links, current, 0)
    && forall x :: 0 <= x < |current| ==> current[x] < |nodes| && nodes[current[x]].level == level
  }

  lemma StackStart(nodes: seq<Node>, links: Links, h: Hash, a: nat, ids: seq<nat>, base: seq<string>)
    requires a > 1 && base != [] && Hashed(nodes, ids, base) && Fresh(nodes, links, ids, 0)
    requires forall k :: 0 <= k < |nodes| ==> nodes[k].level == 0
    ensures StackBuilt(nodes, links, h, a, [ids], base, ids, 0, base)
  {
    hide NextLevel, Grouped;
  }

  lemma LeavesGrow(nodes: seq<Node>, nodes': seq<Node>, links: Links, links': Links, leafIds: seq<nat>,
      leaves: seq<string>)
    requires Grows(nodes, nodes', links, links') && LeavesOk(nodes, leafIds, leaves)
    ensures LeavesOk(nodes', leafIds, leaves)
  {
    forall k | 0 <= k < |leafIds| ensures leafIds[k] < |nodes'| && nodes'[leafIds[k]].value == leaves[k] {
      assert nodes'[..|nodes|][leafIds[k]] == nodes'[leafIds[k]];
    }
  }

  lemma BuiltOne(nodes: seq<Node>, nodes': seq<Node>, links: Links, links': Links, h: Hash, a: nat,
      levels: seq<seq<nat>>, base: seq<string>, current: seq<nat>, level: nat, top: seq<string>, next: seq<nat>)
    requires a > 1 && base != [] && StackBuilt(nodes, links, h, a, levels, base, current, level, top) && |top| > 1
    requires Grows(nodes, nodes', links, links') && Hashed(nodes', next, NextLevel(h, top, a))
    requires Fresh(nodes', links', next, 0)
    requires Grouped(nodes', links', a, current, top, next, GroupCount(|top|, a))
    requires forall x :: 0 <= x < |next| ==> next[x] < |nodes'| && nodes'[next[x]].level == level + 1
    ensures StackBuilt(nodes', links', h, a, levels + [next], base, next, level + 1, NextLevel(h, top, a))
  {
    hide Stacked, Hashed, Grouped, Fresh, NextLevel, LevelUp, GroupCount, Grows;
    StackedGrows(nodes, nodes', links, links', h, a, levels, base);
    StackOne(nodes', links', h, a, levels, base, next);
  }

  lemma BuiltRoot(nodes: seq<Node>, links: Links, h: Hash, a: nat, levels: seq<seq<nat>>, base: seq<string>,
      current: seq<nat>, level: nat, top: seq<string>)
    requires a > 1 && base != [] && StackBuilt(nodes, links, h, a, levels, base, current, level, top) && |current| == 1
    ensures |top| == 1 && current[0] < |nodes| && nodes[current[0]].level == level
    ensures nodes[current[0]].hash == Root(h, base, a)
    ensures levels[|levels| - 1] == [current[0]] && current[0] !in links
  {
    hide Stacked, Grouped, NextLevel;
    RootOfUp(h, base, a, level);
  }

  // The root of a level is the root of any level above it.
  lemma {:induction false} RootOfUp(h: Hash, level: seq<string>, a: nat, n: nat)
    requires a > 1 && level != []
    ensures Root(h, LevelUp(h, level, a, n), a) == Root(h, level, a)
    decreases n
  {
    hide NextLevel;
    if n > 0 && |level| > 1 {
      GroupShrinks(h, level, a);
      RootOfUp(h, NextLevel(h, level, a), a, n - 1);
    }
  }

  // The parents of the first n groups.
  ghost predicate LevelSoFar(nodes: seq<Node>, links: Links, a: nat, h: Hash, current: seq<nat>, level: nat,
      top: seq<string>, next: seq<nat>, n: nat, base: nat)
    requires top != [] && a > 0
  {
    && |next| == n && Hashed(nodes, next, Parents(h, top, a, n)) && Grouped(nodes, links, a, current, top, next, n)
    && Increasing(next, |nodes|) && Increasing(current, base) && base <= |nodes|
    && forall x :: 0 <= x < |next| ==>
      base <= next[x] < |nodes| && next[x] !in links && nodes[next[x]].level == level + 1
  }

  lemma HashedLength(nodes: seq<Node>, ids: seq<nat>, level: seq<string>)
    requires Hashed(nodes, ids, level)
    ensures |ids| == |level|
  {}

  lemma LevelStart(nodes: seq<Node>, links: Links, a: nat, h: Hash, current: seq<nat>, top: seq<string>)
    requires top != [] && a > 0 && Fresh(nodes, links, current, 0)
    ensures forall level :: LevelSoFar(nodes, links, a, h, current, level, top, [], 0, |nodes|)
    ensures Grows(nodes, nodes, links, links)
  {}

  lemma GrowsTwice(n0: seq<Node>, n1: seq<Node>, n2: seq<Node>, l0: Links, l1: Links, l2: Links)
    requires Grows(n0, n1, l0, l1) && Grows(n1, n2, l1, l2)
    ensures Grows(n0, n2, l0, l2)
  {
    assert n2[..|n0|] == n1[..|n0|];
  }

  lemma HashedNext(nodes: seq<Node>, ids: seq<nat>, level: seq<string>, id: nat, hash: string)
    requires Hashed(nodes, ids, level) && id < |nodes| && nodes[id].hash == hash
    ensures Hashed(nodes, ids + [id], level + [hash])
  {}

  lemma ParentsNext(h: Hash, level: seq<string>, a: nat, n: nat)
    requires level != []
    ensures Parents(h, level, a, n + 1) == Parents(h, level, a, n) + [Parent(h, level, a, n)]
  {
    hide Parent;
  }

  lemma IncreasingNext(s: seq<nat>, bound: nat, x: nat, more: nat)
    requires Increasing(s, bound) && bound <= x < more
    ensures Increasing(s + [x], more)
  {}

  lemma GroupedStep(nodes: seq<Node>, links: Links, a: nat, ids: seq<nat>, level: seq<string>, next: seq<nat>, n: nat)
    requires a > 0 && level != [] && n < |next|
    requires Grouped(nodes, links, a, ids, level, next, n) && GroupLinked(nodes, links, a, ids, level, next[n], n)
    ensures Grouped(nodes, links, a, ids, level, next, n + 1)
  {
    hide LinkedUp, GroupLinked;
    forall k | 0 <= k < |ids| && k / a < n + 1
      ensures LinkedUp(nodes, links, a, ids[k], level, next[k / a], k / a, k % a)
    {
      Arithmetic.DivRem(a, k);
      if k / a == n { GroupAt(nodes, links, a, ids, level, next[n], n, k); }
    }
  }

  lemma GroupAt(nodes: seq<Node>, links: Links, a: nat, ids: seq<nat>, level: seq<string>, parent: nat, i: nat, k: nat)
    requires level != [] && GroupLinked(nodes, links, a, ids, level, parent, i)
    requires i * a <= k < |ids| && k < i * a + a
    ensures LinkedUp(nodes, links, a, ids[k], level, parent, i, k - i * a)
  {
    hide LinkedUp;
  }

  lemma LevelGrows(nodes0: seq<Node>, nodes: seq<Node>, links0: Links, links: Links, a: nat, h: Hash, current: seq<nat>,
      level: nat, top: seq<string>, next: seq<nat>, n: nat, base: nat, parent: nat)
    requires top != [] && a > 1 && Grows(nodes0, nodes, links0, links)
    requires LevelSoFar(nodes0, links0, a, h, current, level, top, next, n, base)
    requires |nodes0| <= parent < |nodes| && nodes[parent].hash == Parent(h, top, a, n)
    requires nodes[parent].level == level + 1
    requires parent !in links && GroupLinked(nodes, links, a, current, top, parent, n)
    requires forall id :: id in links ==> id in links0 || id in current || id >= |nodes0|
    ensures LevelSoFar(nodes, links, a, h, current, level, top, next + [parent], n + 1, base)
  {
    hide Grouped, GroupLinked, Parent, Parents, Hashed;
    var next' := next + [parent];
    assert next'[..n] == next;
    GroupedGrows(nodes0, nodes, links0, links, a, current, top, next, next', n);
    GroupedStep(nodes, links, a, current, top, next', n);
    HashedGrows(nodes0, nodes, next, Parents(h, top, a, n));
    HashedNext(nodes, next, Parents(h, top, a, n), parent, Parent(h, top, a, n));
    ParentsNext(h, top, a, n);
    IncreasingNext(next, |nodes0|, parent, |nodes|);
    hide Increasing, Grows;
    assert nodes[..|nodes0|] == nodes0;
    forall x | 0 <= x < |next'|
      ensures base <= next'[x] < |nodes| && next'[x] !in links && nodes[next'[x]].level == level + 1
    {
      if x < n {
        assert nodes[..|nodes0|][next[x]] == nodes[next[x]];
        assert next[x] !in current;
      }
    }
  }

  lemma CountIs(n: nat, a: nat, i: nat)
    requires a > 0 && i > 0 && (i - 1) * a < n <= i * a
    ensures GroupCount(n, a) == i
  {
    assert (i - 1) * a == i * a - a;
    Arithmetic.DivMod(a, i, n + a - 1 - i * a);
  }

  lemma LevelDone(nodes: seq<Node>, links: Links, a: nat, h: Hash, current: seq<nat>, level: nat, top: seq<string>,
      next: seq<nat>, n: nat, base: nat)
    requires top != [] && a > 1 && LevelSoFar(nodes, links, a, h, current, level, top, next, n, base)
    requires |current| == |top| && n * a >= |current| && (n > 0 ==> (n - 1) * a < |current|)
    requires Fresh(nodes, links, current, n * a)
    ensures n == GroupCount(|top|, a) && Hashed(nodes, next, NextLevel(h, top, a)) && Fresh(nodes, links, next, 0)
    ensures Grouped(nodes, links, a, current, top, next, n)
    ensures forall x :: 0 <= x < |next| ==> next[x] < |nodes| && nodes[next[x]].level == level + 1
  {
    hide Hashed, Grouped, Parents, GroupCount;
    assert n == 0 ==> n * a == 0;
    CountIs(|top|, a, n);
  }

  // Linked nodes exist, and the children still to be grouped are not linked.
  ghost predicate Fresh(nodes: seq<Node>, links: Links, current: seq<nat>, offset: nat) {
    && (forall id :: id in links ==> id < |nodes|)
    && (forall k :: offset <= k < |current| ==> current[k] !in links)
    && Increasing(current, |nodes|)
  }

  // The members of group i are linked to the parent.
  ghost predicate GroupLinked(nodes: seq<Node>, links: Links, a: nat, current: seq<nat>, level: seq<string>,
      parent: nat, i: nat)
    requires level != []
  {
    forall k :: i * a <= k < |current| && k < i * a + a ==>
      LinkedUp(nodes, links, a, current[k], level, parent, i, k - i * a)
  }

  lemma JoinNothing(level: seq<string>, a: nat, i: nat)
    requires level != []
    ensures Join(Children(level, a, i, 0)) == ""
  {}

  lemma JoinChild(level: seq<string>, a: nat, i: nat, j: nat)
    requires level != []
    ensures Join(Children(level, a, i, j + 1)) == Join(Children(level, a, i, j)) + Child(level, a, i, j)
  {
    hide Child;
    var c := Children(level, a, i, j);
    assert (c + [Child(level, a, i, j)])[..j] == c;
  }

  lemma GroupChildren(nodes: seq<Node>, group: seq<nat>, current: seq<nat>, level: seq<string>, a: nat, i: nat,
      base: nat)
    requires level != [] && GroupOk(nodes, group, current, level, a, i, base) && |group| == a
    ensures ChildHashes(nodes, group, level, a, i)
  {
    forall j | 0 <= j < a ensures group[j] < |nodes| && nodes[group[j]].hash == Child(level, a, i, j) {
      assert MemberOk(nodes, group[j], current, level, a, i, j, base);
    }
  }


  // Linking a finished group under a new node.
  ghost predicate Finished(nodes0: seq<Node>, before: seq<Node>, links: Links, group: seq<nat>, current: seq<nat>,
      level: seq<string>, a: nat, i: nat)
    requires level != []
  {
    && a > 1 && |nodes0| <= |before| && before[..|nodes0|] == nodes0
    && Fresh(nodes0, links, current, i * a) && GroupOk(before, group, current, level, a, i, |nodes0|)
    && |group| == a && Increasing(group, |before|) && ChildHashes(before, group, level, a, i)
  }

  lemma LinkedGroupGrows(nodes0: seq<Node>, before: seq<Node>, parent: Node, links: Links, group: seq<nat>,
      current: seq<nat>, level: seq<string>, a: nat, i: nat)
    requires level != [] && Finished(nodes0, before, links, group, current, level, a, i)
    ensures var links' := LinkedGroup(links, group, |before|, |group|);
      Grows(nodes0, before + [parent], links, links') && |before| !in links'
  {
    hide LinkedGroup, ChildHashes, GroupOk;
    var links', id := LinkedGroup(links, group, |before|, |group|), |before|;
    assert group[..|group|] == group;
    assert (before + [parent])[..|nodes0|] == nodes0;
    forall x | x in links ensures x in links' && links'[x] == links[x] {
      LinkedGroupAt(links, group, id, |group|, x);
      if x in group { GroupNotLinked(nodes0, before, links, group, current, level, a, i, x); }
    }
    LinkedGroupAt(links, group, id, |group|, id);
    if id in group { GroupNotLinked(nodes0, before, links, group, current, level, a, i, id); }
  }

  lemma LinkedGroupLinks(nodes0: seq<Node>, before: seq<Node>, parent: Node, links: Links, group: seq<nat>,
      current: seq<nat>, level: seq<string>, a: nat, i: nat)
    requires level != [] && Finished(nodes0, before, links, group, current, level, a, i) && parent.children == group
    ensures GroupLinked(before + [parent], LinkedGroup(links, group, |before|, |group|), a, current, level, |before|, i)
  {
    hide LinkedGroup, ChildHashes, GroupOk, Fresh;
    var nodes', links', id := before + [parent], LinkedGroup(links, group, |before|, |group|), |before|;
    ChildrenStay(before, parent, group, level, a, i);
    forall x | 0 <= x < |group| ensures group[x] in links' && links'[group[x]] == ParentLink(id, x) {
      LinkedGroupMember(links, group, id, |group|, x);
    }
    forall k | i * a <= k < |current| && k < i * a + a
      ensures LinkedUp(nodes', links', a, current[k], level, id, i, k - i * a)
    {
      GroupOwn(before, group, current, level, a, i, |nodes0|, k - i * a);
    }
  }

  lemma LinkedGroupFresh(nodes0: seq<Node>, before: seq<Node>, parent: Node, links: Links, group: seq<nat>,
      current: seq<nat>, level: seq<string>, a: nat, i: nat)
    requires level != [] && Finished(nodes0, before, links, group, current, level, a, i)
    ensures Fresh(before + [parent], LinkedGroup(links, group, |before|, |group|), current, i * a + a)
  {
    hide LinkedGroup, ChildHashes, GroupOk;
    var links', id := LinkedGroup(links, group, |before|, |group|), |before|;
    assert group[..|group|] == group;
    forall x | x in links' ensures x <= |before| {
      LinkedGroupAt(links, group, id, |group|, x);
    }
    forall k | i * a + a <= k < |current| ensures current[k] !in links' {
      GroupBefore(before, group, current, level, a, i, |nodes0|, k);
      LinkedGroupAt(links, group, id, |group|, current[k]);
    }
  }

  // New keys are the level's own nodes and padding.
  lemma LinkedKeys(nodes0: seq<Node>, before: seq<Node>, links: Links, group: seq<nat>, current: seq<nat>,
      level: seq<string>, a: nat, i: nat)
    requires level != [] && GroupOk(before, group, current, level, a, i, |nodes0|)
    ensures forall id :: id in LinkedGroup(links, group, |before|, |group|) ==>
      id in links || id in current || id >= |nodes0|
  {
    hide LinkedGroup, GroupOk;
    assert group[..|group|] == group;
    forall id | id in LinkedGroup(links, group, |before|, |group|)
      ensures id in links || id in current || id >= |nodes0|
    {
      LinkedGroupAt(links, group, |before|, |group|, id);
      if id in group {
        var j :| 0 <= j < |group| && group[j] == id;
        GroupOwn(before, group, current, level, a, i, |nodes0|, j);
      }
    }
  }

  lemma GroupOwn(nodes: seq<Node>, group: seq<nat>, current: seq<nat>, level: seq<string>, a: nat, i: nat, base: nat,
      j: nat)
    requires level != [] && GroupOk(nodes, group, current, level, a, i, base) && j < |group|
    ensures if i * a + j < |current| then group[j] == current[i * a + j] else group[j] >= base
  {
    assert MemberOk(nodes, group[j], current, level, a, i, j, base);
  }

  lemma GroupNotLinked(nodes0: seq<Node>, before: seq<Node>, links: Links, group: seq<nat>, current: seq<nat>,
      level: seq<string>, a: nat, i: nat, x: nat)
    requires level != [] && Fresh(nodes0, links, current, i * a)
    requires GroupOk(before, group, current, level, a, i, |nodes0|)
    requires Increasing(group, |before|) && x in group
    ensures x !in links && x < |before|
  {
    hide GroupOk;
    var j :| 0 <= j < |group| && group[j] == x;
    GroupOwn(before, group, current, level, a, i, |nodes0|, j);
  }

  lemma GroupBefore(nodes: seq<Node>, group: seq<nat>, current: seq<nat>, level: seq<string>, a: nat, i: nat, base: nat,
      k: nat)
    requires level != [] && GroupOk(nodes, group, current, level, a, i, base) && |group| == a
    requires Increasing(current, base) && i * a + a <= k < |current|
    ensures current[k] !in group
  {
    hide GroupOk;
    forall j | 0 <= j < |group| ensures group[j] != current[k] {
      GroupOwn(nodes, group, current, level, a, i, base, j);
    }
  }

  lemma ChildrenStay(nodes: seq<Node>, parent: Node, group: seq<nat>, level: seq<string>, a: nat, i: nat)
    requires level != [] && ChildHashes(nodes, group, level, a, i)
    ensures ChildHashes(nodes + [parent], group, level, a, i)
  {
    hide Child;
  }

  lemma GroupMember(nodes: seq<Node>, group: seq<nat>, current: seq<nat>, level: seq<string>, a: nat, i: nat, base: nat)
    requires level != [] && Hashed(nodes, current, level) && GroupOk(nodes, group, current, level, a, i, base)
    requires |group| < a
    requires i * a + |group| < |current|
    ensures GroupOk(nodes, group + [current[i * a + |group|]], current, level, a, i, base)
  {
    var group' := group + [current[i * a + |group|]];
    forall x | 0 <= x < |group'| ensures MemberOk(nodes, group'[x], current, level, a, i, x, base) {
      if x < |group| { assert MemberOk(nodes, group[x], current, level, a, i, x, base); }
    }
  }

  // ---- what proofs are worth ----

  // Every proof a tree generates is accepted by it.
  method ProofsVerify(tree: Tree, leaves: seq<string>, leafIndex: nat) returns (ok: bool)
    requires tree.arity >= 2 && IsDigest(tree.h) && leafIndex < |leaves|
    modifies tree
    ensures ok
  {
    hide LeafHashes, Root, Path, Climb, IsDigest, TreeOk, StepOk;
    var result := tree.Build(leaves);
    var proof := tree.GenerateProof(leafIndex, leaves);
    ProofAccepted(tree.h, tree.arity, leaves, leafIndex, proof.value);
    ok := tree.VerifyProof(proof.value, leaves);
  }

  lemma ProofAccepted(h: Hash, a: nat, leaves: seq<string>, k: nat, p: Proof)
    requires a > 1 && k < |leaves| && IsDigest(h)
    requires var base := LeafHashes(h, leaves); p == Proof(k, leaves[k], base[k], Root(h, base, a), Path(h, base, a, k))
    ensures Accepts(h, a, p)
  {
    hide Root, Path, Climb;
    var base := LeafHashes(h, leaves);
    PathClimbs(h, base, a, k);
    forall i | 0 <= i < |base| ensures |base[i]| == DIGEST { assert |h(leaves[i])| == DIGEST; }
    RootIsDigest(h, base, a);
  }

  // Two accepted proofs of the same root for the same position are for the same leaf value, or exhibit a collision.
  lemma ProofsBind(h: Hash, a: nat, p: Proof, q: Proof)
    requires IsDigest(h) && Accepts(h, a, p) && Accepts(h, a, q) && p.rootHash == q.rootHash
    requires SamePositions(p.steps, q.steps)
    ensures || p.leafValue == q.leafValue
            || Collision(h, p.leafValue, q.leafValue)
            || exists i :: CollidesAt(h, p.leafHash, p.steps, q.leafHash, q.steps, i)
  {
    hide Climb, CollidesAt;
    assert |h(p.leafValue)| == DIGEST && |h(q.leafValue)| == DIGEST;
    ClimbBinds(h, p.leafHash, q.leafHash, p.steps, q.steps);
  }
}
