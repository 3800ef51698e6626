// One committed block: what it keeps, and how it moves the batch along its route.
module LedgerCommit {
  import opened Options
  import opened Routes
  import opened RouteValidity
  import opened RouteLinear
  import opened RouteTables
  import opened MerkleSpec
  import opened Chain
  import opened Progress
  import opened LedgerRules

  function NewEdges(r: Record): seq<BlockEdge> {
    if r.parentBlockId < 0 then [] else [BlockEdge(r.parentBlockId, r.blockId, r.batchId, "continues")]
  }

  // ---- a commit keeps the chain valid ----

  lemma BlocksGrow(h: Hash, records: seq<Record>, r: Record)
    requires ValidBlocks(h, records) && BlockOk(h, records, r)
    ensures ValidBlocks(h, records + [r])
  {
    hide BlockOk;
    var all := records + [r];
    forall i | 0 <= i < |all| ensures BlockOk(h, all[..i], all[i]) {
      assert all[..i] == records[..i];
      if i < |records| { assert all[i] == records[i]; } else { assert records[..i] == records; }
    }
  }

  lemma {:induction false} NoneInto(edges: seq<BlockEdge>, id: int)
    requires forall i :: 0 <= i < |edges| ==> edges[i].toBlockId != id
    ensures CountInto(edges, id) == 0
  {
    if edges != [] { NoneInto(edges[..|edges| - 1], id); }
  }

  lemma CountMore(edges: seq<BlockEdge>, r: Record, id: int)
    ensures CountInto(edges + NewEdges(r), id)
      == CountInto(edges, id) + if r.parentBlockId >= 0 && r.blockId == id then 1 else 0
  {
    var more := edges + NewEdges(r);
    if r.parentBlockId < 0 { assert more == edges; } else { assert more[..|more| - 1] == edges; }
  }

  lemma OldInto(records: seq<Record>, edges: seq<BlockEdge>, r: Record, other: Record)
    requires EdgesInto(other, edges) && other.blockId != r.blockId
    ensures EdgesInto(other, edges + NewEdges(r))
  {
    hide EdgeMatches;
    CountMore(edges, r, other.blockId);
  }

  lemma NewInto(records: seq<Record>, edges: seq<BlockEdge>, r: Record)
    requires forall i :: 0 <= i < |edges| ==> EdgeInside(records, edges[i])
    requires r.blockId == |records|
    ensures EdgesInto(r, edges + NewEdges(r))
  {
    NoneInto(edges, r.blockId);
    CountMore(edges, r, r.blockId);
  }

  lemma ParentInside(h: Hash, records: seq<Record>, r: Record)
    requires ValidBlocks(h, records) && BlockOk(h, records, r)
    ensures r.parentBlockId == -1 || (0 <= r.parentBlockId < |records| && records[r.parentBlockId].batchId == r.batchId)
    ensures r.parentBlockId == LastIn(records, r.batchId)
  {
    hide MerkleOk, LeavesOk, ValidBlocks, Linkage;
    ValidLinkage(h, records);
    var p := LastIn(records, r.batchId);
    if p >= 0 { Sequential(records, p); }
  }

  lemma NewInside(h: Hash, records: seq<Record>, r: Record, i: nat)
    requires ValidBlocks(h, records) && BlockOk(h, records, r) && i < |NewEdges(r)|
    ensures EdgeInside(records + [r], NewEdges(r)[i])
  {
    hide MerkleOk, LeavesOk, ValidBlocks, ParentOk;
    ParentInside(h, records, r);
  }

  lemma LinksGrow(h: Hash, records: seq<Record>, edges: seq<BlockEdge>, r: Record)
    requires ValidChain(h, records, edges) && BlockOk(h, records, r)
    ensures LinksValid(records + [r], edges + NewEdges(r))
  {
    hide MerkleOk, LeavesOk, ParentOk, EdgesInto, ValidBlocks, CalculateBlockHash, Linkage;
    var all, more := records + [r], edges + NewEdges(r);
    ValidLinkage(h, records);
    forall i | 0 <= i < |all| ensures EdgesInto(all[i], more) {
      if i < |records| {
        Sequential(records, i);
        OldInto(records, edges, r, records[i]);
      } else {
        NewInto(records, edges, r);
      }
    }
    forall i | 0 <= i < |more| ensures EdgeInside(all, more[i]) {
      if i >= |edges| { NewInside(h, records, r, i - |edges|); }
    }
  }

  // The block r is the batch's block for stage n.
  predicate ForStage(r: Record, b: string, n: RouteNode) {
    && r.batchId == b && r.routeNodeId == n.nodeId && r.role == n.role && r.confirmedBy == n.username
    && r.verified && r.signatureVerified && (r.role == "supplier" <==> r.parentBlockId == -1)
  }

  lemma StagesGrow(records: seq<Record>, w: Workflow, b: string, n: RouteNode, byNode: map<string, Record>, r: Record)
    requires AllRecorded(records) && OnePerStage(records) && ByNode(w, records, b, byNode)
    requires RowsOk(w.nodes) && n in w.nodes && n.nodeId !in byNode && ForStage(r, b, n)
    ensures AllRecorded(records + [r]) && OnePerStage(records + [r])
  {
    hide ByNode, RowsOk;
    TheNode(w.nodes, n);
    var all := records + [r];
    forall i | 0 <= i < |all| ensures Recorded(all[i]) { if i < |records| { assert all[i] == records[i]; } }
    forall i, j | 0 <= i < j < |all| ensures !SameStage(all[i], all[j]) {
      assert all[i] == records[i];
      if j == |records| { FreshStage(w, records, b, n, byNode, i); } else { assert all[j] == records[j]; }
    }
  }

  lemma CommitKeeps(h: Hash, records: seq<Record>, edges: seq<BlockEdge>, w: Workflow, b: string, n: RouteNode,
      byNode: map<string, Record>, r: Record)
    requires Kept(h, records, edges) && ByNode(w, records, b, byNode)
    requires RowsOk(w.nodes) && n in w.nodes && n.nodeId !in byNode
    requires BlockOk(h, records, r) && ForStage(r, b, n)
    ensures Kept(h, records + [r], edges + NewEdges(r))
  {
    hide BlockOk, ByNode, RowsOk, LinksValid, ValidBlocks, AllRecorded, OnePerStage, ForStage;
    BlocksGrow(h, records, r);
    LinksGrow(h, records, edges, r);
    StagesGrow(records, w, b, n, byNode, r);
  }

  // ---- a commit takes one stage off the list ----

  predicate HasBlock(w: Workflow, records: seq<Record>, b: string, id: string) {
    exists i :: 0 <= i < |records| && Holds(w, records, b, id, i)
  }

  function Pending(w: Workflow, records: seq<Record>, b: string): set<string> {
    set id | id in Ids(w.nodes) && !HasBlock(w, records, b, id)
  }

  lemma HasBlockIff(w: Workflow, records: seq<Record>, b: string, byNode: map<string, Record>, id: string)
    requires ByNode(w, records, b, byNode)
    ensures HasBlock(w, records, b, id) <==> id in byNode
  {
    hide NodeFor, Progress.Counted;
    if id in byNode {
      var i :| HeldBy(w, records, b, id, i, byNode[id]);
      assert 0 <= i < |records| && Holds(w, records, b, id, i);
    }
  }

  lemma HoldsGrown(w: Workflow, records: seq<Record>, r: Record, b: string, id: string, i: int)
    ensures Holds(w, records + [r], b, id, i)
      <==> Holds(w, records, b, id, i) || (i == |records| && NodeIdFor(w, r, b) == Some(id))
  {
    hide NodeFor, Progress.Counted;
    var all := records + [r];
    if 0 <= i < |records| { assert all[i] == records[i]; }
  }

  lemma HasBlockGrown(w: Workflow, records: seq<Record>, r: Record, b: string, id: string)
    ensures HasBlock(w, records + [r], b, id) <==> HasBlock(w, records, b, id) || NodeIdFor(w, r, b) == Some(id)
  {
    hide Holds, NodeIdFor;
    var all := records + [r];
    if HasBlock(w, records, b, id) {
      var i :| 0 <= i < |records| && Holds(w, records, b, id, i);
      HoldsGrown(w, records, r, b, id, i);
      assert 0 <= i < |all|;
    }
    if NodeIdFor(w, r, b) == Some(id) {
      HoldsGrown(w, records, r, b, id, |records|);
      assert 0 <= |records| < |all|;
    }
    if HasBlock(w, all, b, id) {
      var i :| 0 <= i < |all| && Holds(w, all, b, id, i);
      HoldsGrown(w, records, r, b, id, i);
      HeldBefore(w, records, b, id, i);
    }
  }

  lemma HeldBefore(w: Workflow, records: seq<Record>, b: string, id: string, i: int)
    ensures Holds(w, records, b, id, i) ==> 0 <= i < |records|
  {
    hide NodeFor;
  }

  // The pending stages are the same but for the committed one.
  lemma CommitPending(w: Workflow, records: seq<Record>, b: string, n: RouteNode, byNode: map<string, Record>,
      r: Record)
    requires ByNode(w, records, b, byNode) && RowsOk(w.nodes) && n in w.nodes && n.nodeId !in byNode
    requires ForStage(r, b, n)
    ensures n.nodeId in Pending(w, records, b)
    ensures Pending(w, records + [r], b) == Pending(w, records, b) - {n.nodeId}
    ensures |Pending(w, records + [r], b)| == |Pending(w, records, b)| - 1
  {
    hide HasBlock, ByNode, RowsOk;
    TheNode(w.nodes, n);
    assert NodeFor(w, r) == Some(n);
    HasBlockIff(w, records, b, byNode, n.nodeId);
    forall id ensures HasBlock(w, records + [r], b, id) <==> HasBlock(w, records, b, id) || id == n.nodeId {
      HasBlockGrown(w, records, r, b, id);
    }
    assert Pending(w, records + [r], b) == Pending(w, records, b) - {n.nodeId};
  }

  // On a valid route the evaluation never fails: it is complete exactly when every node has its block, and otherwise
  // names the first node without one and the batch's last block.
  lemma ProgressMeans(w: Workflow, records: seq<Record>, b: string, byNode: map<string, Record>, p: WorkflowProgress)
    requires Linkage(records) && AllRecorded(records) && ByNode(w, records, b, byNode) && ValidRoute(w)
    requires exists s :: Complete(w, s)
    requires Evaluated(OrderOf(w), byNode, ByBlock(records, b), p)
    ensures p.error == NoError && (p.complete <==> Pending(w, records, b) == {}) && (p.complete <==> p.nextNode.None?)
    ensures p.nextNode.Some? ==> p.nextNode.value.nodeId in Pending(w, records, b)
    ensures p.nextNode.Some? ==>
      p.parentRecord == if LastIn(records, b) < 0 then None else Some(records[LastIn(records, b)])
  {
    hide Linkage, AllRecorded, ValidRoute, Complete, ByNode, Linked, Pending, ByBlock, IsLatest;
    var s := OrderOf(w);
    NoProgressError(w, records, b, s, byNode, p);
    if p.complete {
      AllDone(w, records, b, s, byNode);
    } else {
      var k :| Gap(s, k, byNode, ByBlock(records, b)) && p.nextNode.value == s[k];
      GapPending(w, records, b, s, k, byNode);
      LatestIsLast(records, b, p.parentRecord);
    }
  }

  lemma AllDone(w: Workflow, records: seq<Record>, b: string, s: seq<RouteNode>, byNode: map<string, Record>)
    requires ByNode(w, records, b, byNode) && ValidRoute(w) && Complete(w, s)
    requires forall j :: 0 <= j < |s| ==> s[j].nodeId in byNode
    ensures Pending(w, records, b) == {}
  {
    hide ByNode, Complete, ValidEdges, Degrees, InStepOrder, HasBlock;
    ValidChecked(w);
    ValidDistinct(w.nodes);
    forall id | id in Ids(w.nodes) ensures HasBlock(w, records, b, id) {
      var n :| n in w.nodes && n.nodeId == id;
      var i := MeetsAll(w, s, n);
      HasBlockIff(w, records, b, byNode, id);
    }
  }

  lemma ValidDistinct(nodes: seq<RouteNode>)
    requires ValidNodes(nodes)
    ensures DistinctIds(nodes)
  {
    hide DistinctIds, CountRole, NodeOk;
  }

  lemma GapPending(w: Workflow, records: seq<Record>, b: string, s: seq<RouteNode>, k: nat, byNode: map<string, Record>)
    requires ByNode(w, records, b, byNode) && Complete(w, s) && k < |s| && s[k].nodeId !in byNode
    ensures s[k].nodeId in Pending(w, records, b)
  {
    hide ByNode, Complete, HasBlock;
    WalkIn(w, s, k);
    HasBlockIff(w, records, b, byNode, s[k].nodeId);
  }
}
