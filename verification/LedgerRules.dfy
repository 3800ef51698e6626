// What the block store keeps, and what that means for the progress of every batch.
module LedgerRules {
  import opened Options
  import opened Routes
  import opened RouteValidity
  import opened RouteCheck
  import opened RouteLinear
  import opened CheckersAgree
  import opened RouteTables
  import opened MerkleSpec
  import opened Chain
  import opened Progress

  // Committed blocks are verified, name their route node, and start the batch exactly when the supplier made them.
  predicate Recorded(r: Record) {
    r.verified && r.signatureVerified && r.routeNodeId != "" && (r.role == "supplier" <==> r.parentBlockId == -1)
  }

  predicate AllRecorded(records: seq<Record>) {
    forall i :: 0 <= i < |records| ==> Recorded(records[i])
  }

  predicate SameStage(a: Record, b: Record) {
    a.batchId == b.batchId && a.routeNodeId == b.routeNodeId && a.role == b.role && a.confirmedBy == b.confirmedBy
  }

  predicate OnePerStage(records: seq<Record>) {
    forall i, j :: 0 <= i < j < |records| ==> !SameStage(records[i], records[j])
  }

  // Blocks are numbered in order, and each continues its batch's last block.
  predicate Linkage(records: seq<Record>) {
    forall i :: 0 <= i < |records| ==> records[i].blockId == i && ParentOk(records[..i], records[i])
  }

  lemma ValidLinkage(h: Hash, records: seq<Record>)
    requires ValidBlocks(h, records)
    ensures Linkage(records)
  {
    hide MerkleOk, LeavesOk, ParentOk, CalculateBlockHash;
    forall i | 0 <= i < |records| ensures records[i].blockId == i && ParentOk(records[..i], records[i]) {
      assert BlockOk(h, records[..i], records[i]);
    }
  }

  ghost predicate Kept(h: Hash, records: seq<Record>, edges: seq<BlockEdge>) {
    ValidChain(h, records, edges) && AllRecorded(records) && OnePerStage(records)
  }

  // ---- no stage has two blocks, on any route ----

  lemma HolderNames(w: Workflow, records: seq<Record>, b: string, id: string, i: int)
    requires AllRecorded(records) && Holds(w, records, b, id, i)
    ensures records[i].batchId == b && records[i].routeNodeId == id
    ensures var n := FindNode(w.nodes, id);
      n.Some? && n.value.role == records[i].role && n.value.username == records[i].confirmedBy
  {
    assert Recorded(records[i]);
  }

  lemma NeverTwice(w: Workflow, records: seq<Record>, b: string)
    requires AllRecorded(records) && OnePerStage(records)
    ensures !HeldTwice(w, records, b)
  {
    hide AllRecorded, Holds;
    forall id, i, j | i < j && Holds(w, records, b, id, i) ensures !Holds(w, records, b, id, j) {
      NotBoth(w, records, b, id, i, j);
    }
  }

  lemma NotBoth(w: Workflow, records: seq<Record>, b: string, id: string, i: int, j: int)
    requires AllRecorded(records) && OnePerStage(records) && i < j
    ensures !Holds(w, records, b, id, i) || !Holds(w, records, b, id, j)
  {
    if Holds(w, records, b, id, i) && Holds(w, records, b, id, j) {
      HolderNames(w, records, b, id, i);
      HolderNames(w, records, b, id, j);
    }
  }

  // A node without a block is a stage that no earlier block of the batch has taken.
  lemma FreshStage(w: Workflow, records: seq<Record>, b: string, n: RouteNode, byNode: map<string, Record>, i: nat)
    requires AllRecorded(records) && ByNode(w, records, b, byNode) && i < |records|
    requires RowsOk(w.nodes) && n in w.nodes && n.nodeId !in byNode
    ensures !(records[i].batchId == b && records[i].routeNodeId == n.nodeId && records[i].role == n.role
              && records[i].confirmedBy == n.username)
  {
    var r := records[i];
    if r.batchId == b && r.routeNodeId == n.nodeId && r.role == n.role && r.confirmedBy == n.username {
      TheNode(w.nodes, n);
      assert Recorded(r);
      assert Holds(w, records, b, n.nodeId, i);
    }
  }

  lemma TheNode(nodes: seq<RouteNode>, n: RouteNode)
    requires RowsOk(nodes) && n in nodes
    ensures FindNode(nodes, n.nodeId) == Some(n) && n.nodeId != ""
  {
    hide DistinctIds;
    var found := FindNode(nodes, n.nodeId);
    if found.Some? { SameNode(nodes, found.value, n); }
  }

  // ---- the latest block is the batch's last block ----

  lemma Sequential(records: seq<Record>, i: nat)
    requires Linkage(records) && i < |records|
    ensures records[i].blockId == i && ParentOk(records[..i], records[i])
  {
    hide ParentOk;
  }

  lemma BlocksById(records: seq<Record>, b: string, id: int)
    requires Linkage(records) && AllRecorded(records)
    ensures id in ByBlock(records, b) <==> 0 <= id < |records| && records[id].batchId == b
    ensures id in ByBlock(records, b) ==> ByBlock(records, b)[id] == records[id]
  {
    hide ByBlock, Linkage;
    var m := ByBlock(records, b);
    if id in m {
      var i :| 0 <= i < |records| && records[i] == m[id];
      Sequential(records, i);
    }
    if 0 <= id < |records| && records[id].batchId == b {
      Sequential(records, id);
      assert Recorded(records[id]);
    }
  }

  lemma LatestIsLast(records: seq<Record>, b: string, latest: Option<Record>)
    requires Linkage(records) && AllRecorded(records) && IsLatest(ByBlock(records, b), latest)
    ensures latest == if LastIn(records, b) < 0 then None else Some(records[LastIn(records, b)])
  {
    hide ByBlock, Linkage, AllRecorded, LastIn;
    var p := LastIn(records, b);
    BlocksById(records, b, p);
    if latest.Some? { BlocksById(records, b, latest.value.blockId); }
  }

  // ---- on a valid route no evaluation fails ----

  // Blocks of later stages have a parent among the batch's blocks.
  lemma ParentThere(records: seq<Record>, b: string, i: nat)
    requires Linkage(records) && AllRecorded(records) && i < |records| && records[i].batchId == b
    ensures records[i].role == "supplier" ==> records[i].parentBlockId == -1 && records[i].parentBlockHash == GENESIS
    ensures records[i].role != "supplier" ==>
      var p := records[i].parentBlockId;
      && p in ByBlock(records, b) && ByBlock(records, b)[p].blockId < records[i].blockId
      && ByBlock(records, b)[p].blockHash == records[i].parentBlockHash
  {
    hide ByBlock, Linkage, LastIn;
    var r, before := records[i], records[..i];
    Sequential(records, i);
    assert Recorded(r);
    var p := LastIn(before, b);
    if p >= 0 {
      assert before[p] == records[p];
      Sequential(records, p);
      BlocksById(records, b, p);
    }
  }

  // The stages of a valid route: the supplier first, and nobody else a supplier.
  lemma StageRole(w: Workflow, s: seq<RouteNode>, i: nat)
    requires ValidRoute(w) && Complete(w, s) && i < |s|
    ensures s[i].role == "supplier" <==> i == 0
    ensures FindNode(w.nodes, s[i].nodeId) == Some(s[i])
  {
    hide ValidEdges, Degrees, InStepOrder, Walk, Next, FirstNode;
    ValidChecked(w);
    var supplier, supermarket := TheEnds(w);
    FirstIsSupplier(w, supplier, supermarket);
    WalkStart(w, s);
    WalkIn(w, s, i);
    TheRole(w.nodes, s[i], supplier, supermarket);
    if i > 0 { OrderedDistinct(w, s, 0, i); }
    var found := FindNode(w.nodes, s[i].nodeId);
    if found.Some? { SameId(w, found.value, s[i]); }
  }

  lemma ValidChecked(w: Workflow)
    requires ValidRoute(w)
    ensures Checked(w) && ValidNodes(w.nodes)
  {
    hide ValidNodes, ValidEdges, Degrees, InStepOrder;
  }

  lemma WalkStart(w: Workflow, s: seq<RouteNode>)
    requires Complete(w, s)
    ensures s != [] && FirstNode(w) == Some(s[0])
  {
    hide FirstNode, Successor;
  }

  lemma WalkIn(w: Workflow, s: seq<RouteNode>, i: nat)
    requires Complete(w, s) && i < |s|
    ensures s[i] in w.nodes
  {
    hide FirstNode, Successor;
    WalkKnown(w, s, i);
  }

  lemma StageLinked(w: Workflow, records: seq<Record>, b: string, s: seq<RouteNode>, i: nat,
      byNode: map<string, Record>)
    requires Linkage(records) && AllRecorded(records) && ByNode(w, records, b, byNode)
    requires ValidRoute(w) && Complete(w, s) && i < |s| && (forall j :: 0 <= j <= i ==> s[j].nodeId in byNode)
    ensures Linked(s, i, byNode, ByBlock(records, b))
  {
    hide ByBlock, Linkage, AllRecorded, ValidRoute, Complete, Holds, NodeFor;
    StageRole(w, s, i);
    var id := s[i].nodeId;
    var k :| HeldBy(w, records, b, id, k, byNode[id]);
    HolderNames(w, records, b, id, k);
    HolderRange(w, records, b, id, k);
    ParentThere(records, b, k);
  }

  lemma HolderRange(w: Workflow, records: seq<Record>, b: string, id: string, k: int)
    requires Holds(w, records, b, id, k)
    ensures 0 <= k < |records|
  {
    hide NodeFor;
  }

  // Either some stage is next, or the route is complete.
  lemma {:induction false} Reached(w: Workflow, records: seq<Record>, b: string, s: seq<RouteNode>, k: nat,
      byNode: map<string, Record>)
    requires Linkage(records) && AllRecorded(records) && ByNode(w, records, b, byNode)
    requires ValidRoute(w) && Complete(w, s) && Done(s, k, byNode, ByBlock(records, b))
    ensures Done(s, |s|, byNode, ByBlock(records, b)) || exists j :: Gap(s, j, byNode, ByBlock(records, b))
    decreases |s| - k
  {
    hide ByBlock, Linkage, AllRecorded, ValidRoute, Complete, ByNode, Linked;
    var m := ByBlock(records, b);
    if k < |s| {
      if s[k].nodeId in byNode {
        StageLinked(w, records, b, s, k, byNode);
        assert Done(s, k + 1, byNode, m);
        Reached(w, records, b, s, k + 1, byNode);
      } else {
        assert Gap(s, k, byNode, m);
      }
    }
  }

  lemma NoProgressError(w: Workflow, records: seq<Record>, b: string, s: seq<RouteNode>, byNode: map<string, Record>,
      p: WorkflowProgress)
    requires Linkage(records) && AllRecorded(records) && ByNode(w, records, b, byNode)
    requires ValidRoute(w) && Complete(w, s) && Evaluated(s, byNode, ByBlock(records, b), p)
    ensures p.error == NoError && (p.complete || p.nextNode.Some?)
  {
    hide ByBlock, Linkage, AllRecorded, ValidRoute, Complete, ByNode, Linked, Gap;
    Reached(w, records, b, s, 0, byNode);
  }
}
