// How far a batch has come on its route.
module Progress {
  import opened Options
  import opened Routes
  import opened Chain

  // ---- the route node of a stored record ----

  predicate LegacyMatch(n: RouteNode, r: Record) {
    && n.role == r.role && n.username != "" && n.username == r.confirmedBy
    && (r.routeStepIndex < 0 || n.stepIndex == r.routeStepIndex)
  }

  function LegacyMatches(nodes: seq<RouteNode>, r: Record): seq<RouteNode> {
    if nodes == [] then []
    else
      var rest, n := LegacyMatches(nodes[..|nodes| - 1], r), nodes[|nodes| - 1];
      if LegacyMatch(n, r) then rest + [n] else rest
  }

  // The node that a record belongs to on a route: the node it names when role and account still agree; for a record
  // without route data, the only node of its role and account.
  function NodeFor(w: Workflow, r: Record): Option<RouteNode> {
    if r.routeNodeId != "" then
      var n := FindNode(w.nodes, r.routeNodeId);
      if n.Some? && n.value.role == r.role && n.value.username == r.confirmedBy then n else None
    else if r.routeId != "" then None
    else
      var matches := LegacyMatches(w.nodes, r);
      if |matches| == 1 then Some(matches[0]) else None
  }

  method WorkflowNodeForRecord(w: Workflow, record: Record) returns (node: Option<RouteNode>)
    ensures node == NodeFor(w, record)
  {
    hide LegacyMatch;
    if record.routeNodeId != "" {
      node := FindNode(w.nodes, record.routeNodeId);
      if node.Some? && node.value.role == record.role && node.value.username == record.confirmedBy {
        return node;
      }
      return None;
    }
    if record.routeId != "" {
      return None;
    }
    var legacyMatch: Option<RouteNode> := None;
    var i := 0;
    while i < |w.nodes|
      invariant 0 <= i <= |w.nodes|
      invariant LegacyMatches(w.nodes[..i], record) == if legacyMatch.Some? then [legacyMatch.value] else []
    {
      assert w.nodes[..i + 1][..i] == w.nodes[..i];
      if LegacyMatch(w.nodes[i], record) {
        if legacyMatch.Some? {
          MoreMatches(w.nodes, record, i + 1);
          return None;
        }
        legacyMatch := Some(w.nodes[i]);
      }
      i := i + 1;
    }
    assert w.nodes[..i] == w.nodes;
    return legacyMatch;
  }

  lemma {:induction false} MoreMatches(nodes: seq<RouteNode>, r: Record, i: nat)
    requires i <= |nodes|
    ensures |LegacyMatches(nodes, r)| >= |LegacyMatches(nodes[..i], r)|
    decreases |nodes|
  {
    if i == |nodes| {
      assert nodes[..i] == nodes;
    } else {
      MoreMatches(nodes[..|nodes| - 1], r, i);
      assert nodes[..|nodes| - 1][..i] == nodes[..i];
    }
  }

  // ---- the records of a batch ----

  predicate Counted(r: Record, batchId: string) {
    r.batchId == batchId && r.verified && r.signatureVerified
  }

  // Record i is the batch's block for the node with this id.
  predicate Holds(w: Workflow, records: seq<Record>, batchId: string, id: string, i: int) {
    && 0 <= i < |records| && Counted(records[i], batchId)
    && NodeFor(w, records[i]).Some? && NodeFor(w, records[i]).value.nodeId == id
  }

  predicate HeldBy(w: Workflow, records: seq<Record>, batchId: string, id: string, i: int, r: Record) {
    Holds(w, records, batchId, id, i) && records[i] == r
  }

  ghost predicate HeldTwice(w: Workflow, records: seq<Record>, batchId: string) {
    exists id, i, j :: i < j && Holds(w, records, batchId, id, i) && Holds(w, records, batchId, id, j)
  }

  // The block of every node that has one.
  ghost predicate ByNode(w: Workflow, records: seq<Record>, batchId: string, byNode: map<string, Record>) {
    && (forall id, i :: Holds(w, records, batchId, id, i) ==> id in byNode && byNode[id] == records[i])
    && forall id :: id in byNode ==> exists i :: HeldBy(w, records, batchId, id, i, byNode[id])
  }

  // The counted blocks of the batch by id; of several with one id, the last.
  function ByBlock(records: seq<Record>, batchId: string): (m: map<int, Record>)
    ensures forall id :: id in m ==> m[id] in records && Counted(m[id], batchId) && m[id].blockId == id
    ensures forall i :: 0 <= i < |records| && Counted(records[i], batchId) ==> records[i].blockId in m
  {
    if records == [] then map[]
    else
      var rest, r := ByBlock(records[..|records| - 1], batchId), records[|records| - 1];
      assert records == records[..|records| - 1] + [r];
      if Counted(r, batchId) then rest[r.blockId := r] else rest
  }

  // The block with the largest id.
  ghost predicate IsLatest(byBlock: map<int, Record>, latest: Option<Record>) {
    if latest.None? then byBlock == map[]
    else
      var id := latest.value.blockId;
      id in byBlock && byBlock[id] == latest.value && forall k :: k in byBlock ==> k <= id
  }

  method LatestRecord(byBlock: map<int, Record>) returns (latest: Option<Record>)
    requires forall k :: k in byBlock ==> byBlock[k].blockId == k
    ensures IsLatest(byBlock, latest)
  {
    latest := None;
    var left := byBlock.Items;
    while left != {}
      invariant left <= byBlock.Items
      invariant latest.None? ==> left == byBlock.Items
      invariant latest.Some? ==> latest.value.blockId in byBlock && byBlock[latest.value.blockId] == latest.value
      invariant latest.Some? ==> forall k :: k in byBlock && (k, byBlock[k]) !in left ==> k <= latest.value.blockId
      decreases left
    {
      var item :| item in left;
      ItemKnown(byBlock, item);
      if latest.None? || item.1.blockId > latest.value.blockId {
        latest := Some(item.1);
      }
      left := left - {item};
    }
    forall k ensures k in byBlock ==> (k, byBlock[k]) in byBlock.Items { KeyKnown(byBlock, k); }
  }

  lemma ItemKey(byBlock: map<int, Record>, item: (int, Record))
    requires item in byBlock.Items
    ensures item.0 in byBlock && byBlock[item.0] == item.1
  {}

  lemma KeyIs(byBlock: map<int, Record>, k: int, r: Record)
    requires k in byBlock && byBlock[k] == r && forall k :: k in byBlock ==> byBlock[k].blockId == k
    ensures r.blockId == k
  {}

  lemma ItemKnown(byBlock: map<int, Record>, item: (int, Record))
    requires item in byBlock.Items && forall k :: k in byBlock ==> byBlock[k].blockId == k
    ensures item.1.blockId in byBlock && byBlock[item.1.blockId] == item.1 && item == (item.1.blockId, item.1)
  {
    ItemKey(byBlock, item);
    KeyIs(byBlock, item.0, item.1);
  }

  lemma KeyKnown(byBlock: map<int, Record>, k: int)
    ensures k in byBlock ==> (k, byBlock[k]) in byBlock.Items
  {}

  // ---- walking the route ----

  // The block r of the i-th stage continues the block before it on the route or an earlier block of the batch.
  predicate Linked(s: seq<RouteNode>, i: nat, byNode: map<string, Record>, byBlock: map<int, Record>)
    requires i < |s| && (forall j :: 0 <= j <= i ==> s[j].nodeId in byNode)
  {
    var r := byNode[s[i].nodeId];
    if i == 0 then r.parentBlockId == -1 && r.parentBlockHash == GENESIS
    else
      var previous := byNode[s[i - 1].nodeId];
      || (r.parentBlockId == previous.blockId && r.parentBlockHash == previous.blockHash)
      || (r.parentBlockId in byBlock && byBlock[r.parentBlockId].blockId < r.blockId
          && byBlock[r.parentBlockId].blockHash == r.parentBlockHash)
  }

  // The first k stages have their blocks, correctly linked.
  predicate Done(s: seq<RouteNode>, k: nat, byNode: map<string, Record>, byBlock: map<int, Record>) {
    && k <= |s| && (forall j :: 0 <= j < k ==> s[j].nodeId in byNode)
    && forall i :: 0 <= i < k ==> Linked(s, i, byNode, byBlock)
  }

  datatype ProgressError = NoError | NotOrdered(message: string) | TwoBlocks(caption: string)
    | NoPredecessor(stage: string) | NotGenesis | NotLinked(blockId: int)

  datatype WorkflowProgress = WorkflowProgress(nextNode: Option<RouteNode>, parentRecord: Option<Record>,
      complete: bool,
    error: ProgressError)

  ghost function OrderOf(w: Workflow): (s: seq<RouteNode>)
    requires exists s :: Complete(w, s)
    ensures Complete(w, s)
  {
    var s :| Complete(w, s);
    s
  }

  // The result of an evaluation on an ordered route s whose nodes have at most one block each.
  ghost predicate Evaluated(s: seq<RouteNode>, byNode: map<string, Record>, byBlock: map<int, Record>,
      p: WorkflowProgress) {
    && (p.complete <==> Done(s, |s|, byNode, byBlock))
    && (p.nextNode.Some? <==> exists k :: Gap(s, k, byNode, byBlock))
    && (p.nextNode.Some? ==> exists k :: Gap(s, k, byNode, byBlock) && p.nextNode.value == s[k])
    && (p.nextNode.Some? ==> IsLatest(byBlock, p.parentRecord)) && (p.nextNode.None? ==> p.parentRecord == None)
    && (p.error == NoError <==> p.complete || p.nextNode.Some?)
    && !p.error.NotOrdered? && !p.error.TwoBlocks? && !p.error.NoPredecessor?
  }

  // Stage k is the first without a block.
  predicate Gap(s: seq<RouteNode>, k: int, byNode: map<string, Record>, byBlock: map<int, Record>) {
    0 <= k < |s| && Done(s, k, byNode, byBlock) && s[k].nodeId !in byNode
  }

  lemma GapOnce(s: seq<RouteNode>, j: int, k: int, byNode: map<string, Record>, byBlock: map<int, Record>)
    requires Gap(s, j, byNode, byBlock) && Gap(s, k, byNode, byBlock)
    ensures j == k
  {
    hide Linked;
  }

  method WalkStages(s: seq<RouteNode>, byNode: map<string, Record>, byBlock: map<int, Record>)
    returns (p: WorkflowProgress)
    requires (forall k :: k in byBlock ==> byBlock[k].blockId == k) && (byBlock == map[] ==> byNode == map[])
    ensures Evaluated(s, byNode, byBlock, p)
  {
    hide Linked;
    var latestRecord := LatestRecord(byBlock);
    var previousRecord: Option<Record> := None;
    var index := 0;
    while index < |s|
      invariant 0 <= index <= |s| && Done(s, index, byNode, byBlock)
      invariant previousRecord == if index == 0 then None else Some(byNode[s[index - 1].nodeId])
    {
      var node := s[index];
      if node.nodeId !in byNode {
        if index > 0 && previousRecord.None? {
          return WorkflowProgress(None, None, false, NoPredecessor(node.caption));
        }
        AtGap(s, index, byNode, byBlock);
        LatestKnown(byNode, byBlock, latestRecord, previousRecord);
        var parentRecord := if latestRecord.Some? then latestRecord else previousRecord;
        return WorkflowProgress(Some(node), parentRecord, false, NoError);
      }
      var record := byNode[node.nodeId];
      LinkedIs(s, index, byNode, byBlock);
      if index == 0 {
        if record.parentBlockId != -1 || record.parentBlockHash != GENESIS {
          Unlinked(s, index, byNode, byBlock);
          return WorkflowProgress(None, None, false, NotGenesis);
        }
      } else {
        var parentMatches := previousRecord.Some? && record.parentBlockId == previousRecord.value.blockId
          && record.parentBlockHash == previousRecord.value.blockHash;
        if !parentMatches {
          parentMatches := record.parentBlockId in byBlock && byBlock[record.parentBlockId].blockId < record.blockId
            && byBlock[record.parentBlockId].blockHash == record.parentBlockHash;
        }
        if !parentMatches {
          Unlinked(s, index, byNode, byBlock);
          return WorkflowProgress(None, None, false, NotLinked(record.blockId));
        }
      }
      previousRecord := Some(record);
      index := index + 1;
    }
    NoGap(s, byNode, byBlock);
    return WorkflowProgress(None, None, true, NoError);
  }

  lemma LinkedIs(s: seq<RouteNode>, i: nat, byNode: map<string, Record>, byBlock: map<int, Record>)
    requires i < |s| && (forall j :: 0 <= j <= i ==> s[j].nodeId in byNode)
    ensures var r := byNode[s[i].nodeId];
      Linked(s, i, byNode, byBlock) <==>
        if i == 0 then r.parentBlockId == -1 && r.parentBlockHash == GENESIS
        else
          || (r.parentBlockId == byNode[s[i - 1].nodeId].blockId
              && r.parentBlockHash == byNode[s[i - 1].nodeId].blockHash)
          || (r.parentBlockId in byBlock && byBlock[r.parentBlockId].blockId < r.blockId
              && byBlock[r.parentBlockId].blockHash == r.parentBlockHash)
  {}

  lemma AtGap(s: seq<RouteNode>, k: nat, byNode: map<string, Record>, byBlock: map<int, Record>)
    requires k < |s| && Done(s, k, byNode, byBlock) && s[k].nodeId !in byNode
    ensures Gap(s, k, byNode, byBlock) && !Done(s, |s|, byNode, byBlock)
  {
    hide Linked;
  }

  lemma NoGap(s: seq<RouteNode>, byNode: map<string, Record>, byBlock: map<int, Record>)
    requires Done(s, |s|, byNode, byBlock)
    ensures !exists k :: Gap(s, k, byNode, byBlock)
  {
    hide Linked;
  }

  lemma Unlinked(s: seq<RouteNode>, i: nat, byNode: map<string, Record>, byBlock: map<int, Record>)
    requires i < |s| && Done(s, i, byNode, byBlock) && s[i].nodeId in byNode && !Linked(s, i, byNode, byBlock)
    ensures !Done(s, |s|, byNode, byBlock) && !exists k :: Gap(s, k, byNode, byBlock)
  {
    hide Linked;
    forall k ensures !Gap(s, k, byNode, byBlock) {}
  }

  lemma LatestKnown(byNode: map<string, Record>, byBlock: map<int, Record>, latest: Option<Record>,
      previous: Option<Record>)
    requires IsLatest(byBlock, latest) && (byBlock == map[] ==> byNode == map[])
    requires previous.Some? ==> byNode != map[]
    ensures latest.None? ==> previous.None?
  {}

  // ---- collecting the batch's blocks ----

  lemma HoldsPrefix(w: Workflow, records: seq<Record>, n: nat, batchId: string, id: string, i: int)
    requires n <= |records|
    ensures Holds(w, records[..n], batchId, id, i) <==> i < n && Holds(w, records, batchId, id, i)
  {
    hide NodeFor, Counted;
  }

  lemma BlockStep(records: seq<Record>, i: nat, batchId: string)
    requires i < |records|
    ensures ByBlock(records[..i + 1], batchId)
      == var rest := ByBlock(records[..i], batchId);
         if Counted(records[i], batchId) then rest[records[i].blockId := records[i]] else rest
  {
    assert records[..i + 1][..i] == records[..i];
  }

  // One more record, which is the block of the given node, if any.
  ghost predicate Grown(w: Workflow, front: seq<Record>, more: seq<Record>, batchId: string, id: Option<string>) {
    && |more| == |front| + 1 && (forall k :: 0 <= k < |front| ==> front[k] == more[k])
    && (forall x, k :: Holds(w, more, batchId, x, k) ==>
         Holds(w, front, batchId, x, k) || (id == Some(x) && k == |front|))
    && (forall x, k :: Holds(w, front, batchId, x, k) ==> Holds(w, more, batchId, x, k))
    && (id.Some? ==> Holds(w, more, batchId, id.value, |front|))
  }

  function NodeIdFor(w: Workflow, r: Record, batchId: string): Option<string> {
    if Counted(r, batchId) && NodeFor(w, r).Some? then Some(NodeFor(w, r).value.nodeId) else None
  }

  lemma Grows(w: Workflow, records: seq<Record>, i: nat, batchId: string)
    requires i < |records|
    ensures Grown(w, records[..i], records[..i + 1], batchId, NodeIdFor(w, records[i], batchId))
  {
    hide NodeFor, Counted;
    var front, more := records[..i], records[..i + 1];
    assert more[i] == records[i];
    forall k | 0 <= k < i ensures front[k] == more[k] {}
  }

  lemma GrownOnce(w: Workflow, front: seq<Record>, more: seq<Record>, batchId: string, id: Option<string>,
      byNode: map<string, Record>)
    requires Grown(w, front, more, batchId, id) && !HeldTwice(w, front, batchId) && ByNode(w, front, batchId, byNode)
    requires id.Some? ==> id.value !in byNode
    ensures !HeldTwice(w, more, batchId)
  {
    hide NodeFor, Counted;
    forall x, i, j | i < j && Holds(w, more, batchId, x, i) ensures !Holds(w, more, batchId, x, j) {}
  }

  lemma GrownNodes(w: Workflow, front: seq<Record>, more: seq<Record>, batchId: string, id: Option<string>,
      byNode: map<string, Record>)
    requires Grown(w, front, more, batchId, id) && ByNode(w, front, batchId, byNode)
    requires id.Some? ==> id.value !in byNode
    ensures ByNode(w, more, batchId, if id.Some? then byNode[id.value := more[|front|]] else byNode)
  {
    hide NodeFor, Counted;
    var byNode' := if id.Some? then byNode[id.value := more[|front|]] else byNode;
    if id.Some? { assert HeldBy(w, more, batchId, id.value, |front|, byNode'[id.value]); }
    forall x | x in byNode' ensures exists k :: HeldBy(w, more, batchId, x, k, byNode'[x]) {
      if id != Some(x) {
        var k :| HeldBy(w, front, batchId, x, k, byNode[x]);
        assert HeldBy(w, more, batchId, x, k, byNode'[x]);
      }
    }
  }

  // A record that is not the block of a node changes nothing.
  lemma Passed(w: Workflow, records: seq<Record>, i: nat, batchId: string, byNode: map<string, Record>)
    requires i < |records| && ByNode(w, records[..i], batchId, byNode) && !HeldTwice(w, records[..i], batchId)
    requires !Counted(records[i], batchId) || NodeFor(w, records[i]) == None
    ensures ByNode(w, records[..i + 1], batchId, byNode) && !HeldTwice(w, records[..i + 1], batchId)
  {
    hide NodeFor, Counted, Holds, ByNode, HeldTwice, Grown;
    Grows(w, records, i, batchId);
    GrownOnce(w, records[..i], records[..i + 1], batchId, None, byNode);
    GrownNodes(w, records[..i], records[..i + 1], batchId, None, byNode);
  }

  lemma Taken(w: Workflow, records: seq<Record>, i: nat, batchId: string, byNode: map<string, Record>, id: string)
    requires i < |records| && ByNode(w, records[..i], batchId, byNode) && !HeldTwice(w, records[..i], batchId)
    requires Counted(records[i], batchId) && NodeFor(w, records[i]).Some? && NodeFor(w, records[i]).value.nodeId == id
    ensures id !in byNode ==>
      ByNode(w, records[..i + 1], batchId, byNode[id := records[i]]) && !HeldTwice(w, records[..i + 1], batchId)
    ensures id in byNode ==> HeldTwice(w, records, batchId)
  {
    hide NodeFor, Counted, Holds, ByNode, HeldTwice, Grown;
    Grows(w, records, i, batchId);
    if id in byNode {
      Again(w, records, i, batchId, byNode, id);
    } else {
      GrownOnce(w, records[..i], records[..i + 1], batchId, Some(id), byNode);
      GrownNodes(w, records[..i], records[..i + 1], batchId, Some(id), byNode);
      assert records[..i + 1][i] == records[i];
    }
  }

  lemma Again(w: Workflow, records: seq<Record>, i: nat, batchId: string, byNode: map<string, Record>, id: string)
    requires i < |records| && ByNode(w, records[..i], batchId, byNode) && id in byNode
    requires NodeIdFor(w, records[i], batchId) == Some(id)
    ensures HeldTwice(w, records, batchId)
  {
    hide NodeFor, Counted;
    var k :| HeldBy(w, records[..i], batchId, id, k, byNode[id]);
    HoldsPrefix(w, records, i, batchId, id, k);
    assert Holds(w, records, batchId, id, i);
  }

  method CollectBlocks(w: Workflow, records: seq<Record>, batchId: string)
    returns (twice: Option<RouteNode>, recordsByNode: map<string, Record>, recordsByBlock: map<int, Record>)
    ensures twice.Some? <==> HeldTwice(w, records, batchId)
    ensures twice.None? ==> ByNode(w, records, batchId, recordsByNode) && recordsByBlock == ByBlock(records, batchId)
  {
    hide NodeFor, ByBlock, HeldTwice, ByNode;
    recordsByNode, recordsByBlock := map[], map[];
    var i := 0;
    NoneCollected(w, records, batchId);
    while i < |records|
      invariant 0 <= i <= |records| && ByNode(w, records[..i], batchId, recordsByNode)
      invariant !HeldTwice(w, records[..i], batchId) && recordsByBlock == ByBlock(records[..i], batchId)
    {
      var record := records[i];
      BlockStep(records, i, batchId);
      if record.batchId == batchId && record.verified && record.signatureVerified {
        recordsByBlock := recordsByBlock[record.blockId := record];
        var node := WorkflowNodeForRecord(w, record);
        if node.Some? {
          Taken(w, records, i, batchId, recordsByNode, node.value.nodeId);
          if node.value.nodeId in recordsByNode {
            return node, recordsByNode, recordsByBlock;
          }
          recordsByNode := recordsByNode[node.value.nodeId := record];
        } else {
          Passed(w, records, i, batchId, recordsByNode);
        }
      } else {
        Passed(w, records, i, batchId, recordsByNode);
      }
      i := i + 1;
    }
    assert records[..i] == records;
    return None, recordsByNode, recordsByBlock;
  }

  lemma NoneCollected(w: Workflow, records: seq<Record>, batchId: string)
    ensures ByNode(w, records[..0], batchId, map[]) && !HeldTwice(w, records[..0], batchId)
    ensures ByBlock(records[..0], batchId) == map[]
  {
    hide NodeFor;
  }

  // What a batch still needs. The byNode result is the block of every node that has one.
  method EvaluateWorkflowProgress(w: Workflow, records: seq<Record>, batchId: string)
    returns (progress: WorkflowProgress, ghost byNode: map<string, Record>)
    ensures (!exists s :: Complete(w, s)) ==>
      && progress.nextNode == None && !progress.complete && (progress.error == NoError || progress.error.NotOrdered?)
      && (progress.error == NoError <==> w.nodes == [])
    ensures (exists s :: Complete(w, s)) ==>
      if HeldTwice(w, records, batchId) then
        progress.nextNode == None && !progress.complete && progress.error.TwoBlocks?
      else
        ByNode(w, records, batchId, byNode) && Evaluated(OrderOf(w), byNode, ByBlock(records, batchId), progress)
  {
    hide Complete, HeldTwice, ByNode, ByBlock, Evaluated, OrderOf;
    byNode := map[];
    var ok, ordered, message := OrderedWorkflowNodes(w);
    if !ok {
      return WorkflowProgress(None, None, false, if message == "" then NoError else NotOrdered(message)), byNode;
    }
    var twice, recordsByNode, recordsByBlock := CollectBlocks(w, records, batchId);
    byNode := recordsByNode;
    if twice.Some? {
      return WorkflowProgress(None, None, false, TwoBlocks(twice.value.caption)), byNode;
    }
    OrderedIs(w, ordered);
    NodesHaveBlocks(w, records, batchId, recordsByNode);
    progress := WalkStages(ordered, recordsByNode, recordsByBlock);
  }

  lemma OrderedIs(w: Workflow, ordered: seq<RouteNode>)
    requires Complete(w, ordered)
    ensures OrderOf(w) == ordered
  {
    hide Walk, Next;
    OrderedUnique(w, ordered, OrderOf(w));
  }

  lemma NodesHaveBlocks(w: Workflow, records: seq<Record>, batchId: string, byNode: map<string, Record>)
    requires ByNode(w, records, batchId, byNode)
    ensures ByBlock(records, batchId) == map[] ==> byNode == map[]
    ensures forall k :: k in ByBlock(records, batchId) ==> ByBlock(records, batchId)[k].blockId == k
  {
    hide NodeFor, ByBlock, Counted;
    forall i | 0 <= i < |records| ensures Counted(records[i], batchId) ==>
      records[i].blockId in ByBlock(records, batchId) {}
    forall id ensures id in byNode ==> ByBlock(records, batchId) != map[] {}
  }
}
