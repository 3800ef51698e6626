// The server's ledger: blocks are committed against the batch's route, and routes change in between.
module Ledger {
  import opened Options
  import opened TextSpaces
  import opened Routes
  import opened RouteValidity
  import opened RouteTables
  import S = RouteStore
  import opened MerkleSpec
  import opened Chain
  import opened Progress
  import opened BlockFields
  import opened CommitForm
  import opened LedgerRules
  import opened LedgerCommit
  import opened LedgerBlock

  // The batches table lists the batches that have blocks.
  ghost predicate BatchesStarted(started: set<string>, records: seq<Record>) {
    forall b :: b in started <==> LastIn(records, b) >= 0
  }

  lemma StartedStep(started: set<string>, records: seq<Record>, r: Record)
    requires BatchesStarted(started, records)
    ensures BatchesStarted(started + {r.batchId}, records + [r])
  {
    var all := records + [r];
    assert all[..|all| - 1] == records;
  }

  // The block repeats its batch, names its own columns, and is signed by a key and for a text with the hashes it shows.
  ghost predicate Written(h: Hash, r: Record, batch: Batch) {
    && (exists e: Event :: r.merkleFields == FieldsOf(r, batch, e)) && r.signatureAlgorithm == ALGORITHM
    && (exists key: string :: r.signaturePublicKeyHash == h(key))
    && exists text: string :: r.signedPayloadHash == h(text)
  }

  // Every block repeats the columns that the batches table has for its batch.
  ghost predicate AllWritten(h: Hash, records: seq<Record>, details: map<string, Batch>) {
    forall i :: 0 <= i < |records| ==>
      records[i].batchId in details && Written(h, records[i], details[records[i].batchId])
  }

  lemma WrittenStep(h: Hash, records: seq<Record>, details: map<string, Batch>, r: Record, batch: Batch)
    requires AllWritten(h, records, details) && Written(h, r, batch)
    requires (r.batchId in details ==> details[r.batchId] == batch)
    ensures AllWritten(h, records + [r], details[r.batchId := batch])
  {
    hide Written;
  }

  lemma CarriedIsWritten(h: Hash, r: Record, w: Workflow, n: RouteNode, batch: Batch, req: CommitRequest)
    requires Carries(h, r, w, n, batch, req) && req.signatureAlgorithm == ALGORITHM
    ensures Written(h, r, batch)
  {
    hide FieldsOf, Says;
    var key, text := req.publicKey, req.payload;
    assert r.signaturePublicKeyHash == h(key) && r.signedPayloadHash == h(text);
  }

  // Every batch has its route.
  predicate AllBound(batches: map<string, string>) {
    forall b :: b in batches ==> batches[b] != ""
  }

  lemma BoundStep(t: Tables, batches: map<string, string>, b: string, routeId: string)
    requires AllBound(batches) && Sound(t) && routeId in RouteIds(t.definitions)
    ensures AllBound(batches[b := routeId])
  {
    hide Sound;
    S.NoEmptyRoute(t);
  }

  lemma KeptParts(h: Hash, records: seq<Record>, edges: seq<BlockEdge>)
    requires Kept(h, records, edges)
    ensures Linkage(records) && AllRecorded(records) && OnePerStage(records) && ValidBlocks(h, records)
  {
    hide Linkage, ValidBlocks, AllRecorded, OnePerStage, LinksValid;
    ValidLinkage(h, records);
  }

  // What an evaluation tells about the next stage, on any route.
  lemma NextMeans(w: Workflow, records: seq<Record>, b: string, byNode: map<string, Record>, p: WorkflowProgress)
    requires Linkage(records) && AllRecorded(records) && ByNode(w, records, b, byNode)
    requires exists s :: Complete(w, s)
    requires Evaluated(OrderOf(w), byNode, ByBlock(records, b), p) && p.nextNode.Some?
    ensures p.nextNode.value in w.nodes && p.nextNode.value.nodeId !in byNode && LastRecord(records, b, p.parentRecord)
  {
    hide Linkage, AllRecorded, ByNode, ByBlock, Linked, IsLatest, Done, Complete;
    var s := OrderOf(w);
    var k :| Gap(s, k, byNode, ByBlock(records, b)) && p.nextNode.value == s[k];
    WalkIn(w, s, k);
    LatestIsLast(records, b, p.parentRecord);
  }

  // The commit of block r for stage n on route w.
  ghost predicate Extended(h: Hash, records: seq<Record>, edges: seq<BlockEdge>, records': seq<Record>,
      edges': seq<BlockEdge>, w: Workflow, n: RouteNode, b: string, r: Record, batch: Batch, req: CommitRequest)
  {
    && records' == records + [r] && edges' == edges + NewEdges(r)
    && BlockOk(h, records, r) && ForStage(r, b, n) && Carries(h, r, w, n, batch, req)
    && n.nodeId in Pending(w, records, b) && Pending(w, records', b) == Pending(w, records, b) - {n.nodeId}
    && (ValidRoute(w) ==> Stamped(r, Pending(w, records', b) == {}))
  }

  lemma ExtendedIs(h: Hash, records: seq<Record>, edges: seq<BlockEdge>, w: Workflow, n: RouteNode, b: string,
      r: Record, batch: Batch, req: CommitRequest, byNode: map<string, Record>)
    requires Kept(h, records, edges) && ByNode(w, records, b, byNode)
    requires RowsOk(w.nodes) && n in w.nodes && n.nodeId !in byNode
    requires BlockOk(h, records, r) && ForStage(r, b, n) && Carries(h, r, w, n, batch, req)
    requires ValidRoute(w) ==> Stamped(r, Pending(w, records, b) == {n.nodeId})
    ensures Extended(h, records, edges, records + [r], edges + NewEdges(r), w, n, b, r, batch, req)
    ensures Kept(h, records + [r], edges + NewEdges(r))
    ensures |Pending(w, records + [r], b)| == |Pending(w, records, b)| - 1
  {
    hide Kept, ByNode, BlockOk, ForStage, Carries, ValidRoute, Pending, Stamped, RowsOk;
    CommitKeeps(h, records, edges, w, b, n, byNode, r);
    CommitPending(w, records, b, n, byNode, r);
    assert Pending(w, records + [r], b) == {} <==> Pending(w, records, b) == {n.nodeId};
  }

  // There is a batch and a route to look at.
  predicate Routed(req: CommitRequest, batches: map<string, string>) {
    if IsSupplier(req.user) then req.newBatchId.Some? else BatchOf(req) == "" || BatchOf(req) in batches
  }

  class Ledger {
    const h: Hash
    const routes: S.Store
    var records: seq<Record>
    var edges: seq<BlockEdge>
    var details: map<string, Batch>   // the batches table's columns other than the route

    ghost predicate Valid()
      reads this, routes
    {
      && IsDigest(h) && routes.Valid() && Kept(h, records, edges)
      && BatchesStarted(routes.batches.Keys, records) && details.Keys == routes.batches.Keys
      && AllWritten(h, records, details) && AllBound(routes.batches)
    }

    constructor (h: Hash, now: int)
      requires IsDigest(h)
      ensures Valid() && this.h == h && fresh(routes) && records == [] && edges == []
      ensures RevisionsWithin(routes.Now(), 0)
    {
      this.h := h;
      routes := new S.Store(now);
      records, edges, details := [], [], map[];
      new;
      NothingKept(h);
    }

    // What is next for a batch on a route.
    method Evaluate(w: Workflow, b: string) returns (progress: WorkflowProgress, ghost byNode: map<string, Record>)
      requires Valid()
      ensures Valid()
      ensures progress.nextNode.Some? ==>
        && ByNode(w, records, b, byNode) && progress.nextNode.value in w.nodes
        && progress.nextNode.value.nodeId !in byNode
        && LastRecord(records, b, progress.parentRecord)
      ensures ValidRoute(w) ==>
        && progress.error == NoError && (progress.complete <==> Pending(w, records, b) == {})
        && (progress.complete <==> progress.nextNode.None?)
      ensures !progress.error.TwoBlocks?
    {
      hide ByNode, Evaluated, ByBlock, Complete, ValidRoute, Pending, HeldTwice, OrderOf, Kept, Linkage, AllRecorded,
        OnePerStage, IsDigest, BatchesStarted, LastRecord, AllWritten;
      KeptParts(h, records, edges);
      NeverTwice(w, records, b);
      progress, byNode := EvaluateWorkflowProgress(w, records, b);
      if ValidRoute(w) { ValidIsOrdered(w); }
      if exists s :: Complete(w, s) {
        if progress.nextNode.Some? { NextMeans(w, records, b, byNode, progress); }
        if ValidRoute(w) { ProgressMeans(w, records, b, byNode, progress); }
        EvaluatedOnce(OrderOf(w), byNode, ByBlock(records, b), progress);
      }
    }

    // Stores a new block, and the row of a new batch.
    method Publish(w: Workflow, n: RouteNode, b: string, r: Record, batch: Batch, req: CommitRequest,
        ghost byNode: map<string, Record>)
      requires Valid() && w.routeId in RouteIds(routes.definitions)
      requires ByNode(w, records, b, byNode) && RowsOk(w.nodes) && n in w.nodes && n.nodeId !in byNode
      requires BlockOk(h, records, r) && ForStage(r, b, n) && Carries(h, r, w, n, batch, req)
      requires req.signatureAlgorithm == ALGORITHM && r.batchId == b && (b in details ==> details[b] == batch)
      requires ValidRoute(w) ==> Stamped(r, Pending(w, records, b) == {n.nodeId})
      modifies this, routes
      ensures Valid() && Extended(h, old(records), old(edges), records, edges, w, n, b, r, batch, req)
      ensures routes.Now() == old(routes.Now()).(batches := old(routes.batches)[b := w.routeId])
      ensures details == old(details)[b := batch]
    {
      hide Kept, BlockOk, Carries, ByNode, RowsOk, ValidRoute, Pending, Stamped, IsDigest, BatchesStarted, Extended,
        NewEdges, Sound, AllWritten, Written, AllBound;
      ExtendedIs(h, records, edges, w, n, b, r, batch, req, byNode);
      StartedStep(routes.batches.Keys, records, r);
      CarriedIsWritten(h, r, w, n, batch, req);
      WrittenStep(h, records, details, r, batch);
      BoundStep(routes.Now(), routes.batches, b, w.routeId);
      ghost var started := routes.batches.Keys;
      routes.BindBatch(b, w.routeId);
      assert routes.batches.Keys == started + {b};
      details := details[b := batch];
      edges := edges + NewEdges(r);
      records := records + [r];
    }

    // The checks of a request against the batch's route and its progress.
    method Prepare(req: CommitRequest)
      returns (error: CommitError, w: Workflow, progress: WorkflowProgress, ghost byNode: map<string, Record>)
      requires Valid()
      modifies routes
      ensures Valid() && routes.Now() == old(routes.Now())
      ensures error == Committed ==> RowsOk(w.nodes) && w.routeId in RouteIds(routes.definitions)
      ensures error == Committed
        <==> Routed(req, routes.batches) && CommitAllowed(w, progress, BatchOf(req) in routes.batches, req)
      ensures Routed(req, routes.batches) && ValidRoute(w) ==>
        progress.error == NoError && (progress.nextNode.None? <==> Pending(w, records, BatchOf(req)) == {})
      ensures error == Committed ==>
        && ByNode(w, records, BatchOf(req), byNode) && progress.nextNode.value in w.nodes
        && progress.nextNode.value.nodeId !in byNode && LastRecord(records, BatchOf(req), progress.parentRecord)
      ensures error.NoProgress? ==> !ValidRoute(w) && !error.error.TwoBlocks?
      ensures error != NotSigned && error != NotStored
    {
      hide Kept, ByNode, RowsOk, ValidRoute, Pending, IsDigest, BatchesStarted, Sound, LastRecord, AllWritten,
        DetailsOk, Trim;
      w, progress, byNode := Workflow("", [], []), WorkflowProgress(None, None, false, NoError), map[];
      if IsSupplier(req.user) && req.newBatchId.None? {
        return NoBatchId, w, progress, byNode;
      }
      var b := BatchOf(req);
      var ok, route := routes.LoadWorkflowRoute(if IsSupplier(req.user) then "" else b);
      if !ok {
        return NoRoute, w, progress, byNode;
      }
      w := route;
      progress, byNode := Evaluate(w, b);
      error := CheckCommit(w, progress, b in routes.batches, req);
    }

    // POST /api/records, from the check of the signature on. The ghost results are the route and the stage of the new
    // block, and the progress that was checked.
    method Commit(req: CommitRequest)
      returns (error: CommitError, ghost w: Workflow, ghost n: RouteNode, ghost progress: WorkflowProgress)
      requires Valid()
      modifies this, routes
      ensures Valid()
      ensures error != Committed ==>
        records == old(records) && edges == old(edges) && details == old(details) && routes.Now() == old(routes.Now())
      ensures error == Committed ==> records != [] && w.routeId in RouteIds(routes.definitions)
      ensures error == Committed ==>
        var batch := BatchFor(old(details), req);
        && Extended(h, old(records), old(edges), records, edges, w, n, BatchOf(req), records[|records| - 1], batch, req)
        && routes.Now() == old(routes.Now()).(batches := old(routes.batches)[BatchOf(req) := w.routeId])
        && details == old(details)[BatchOf(req) := batch]
      ensures error == Committed <==>
        && SignatureComplete(req) && Routed(req, old(routes.batches))
        && CommitAllowed(w, progress, BatchOf(req) in old(routes.batches), req) && req.stored
      ensures Routed(req, old(routes.batches)) && ValidRoute(w) ==>
        progress.error == NoError && (progress.nextNode.None? <==> Pending(w, old(records), BatchOf(req)) == {})
      ensures error.NoProgress? ==> !ValidRoute(w) && !error.error.TwoBlocks?
    {
      hide Kept, BlockOk, Carries, ByNode, RowsOk, ValidRoute, Pending, Stamped, IsDigest, BatchesStarted, Extended,
        NewEdges, Sound, LastRecord, ForStage, Linkage, AllRecorded, OnePerStage, MeaningAt, AllWritten, DetailsOk,
        Trim, BatchFor;
      w, progress := Workflow("", [], []), WorkflowProgress(None, None, false, NoError);
      n := RouteNode("", "", "", "", "", 0, 0, 0);
      if !SignatureComplete(req) {
        NoRouteHere();
        error := NotSigned;
        return;
      }
      var route, found;
      ghost var byNode;
      error, route, found, byNode := Prepare(req);
      w, progress := route, found;
      if error != Committed {
        return;
      }
      n := found.nextNode.value;
      KeptParts(h, records, edges);
      var batch := BatchFor(details, req);
      var block := MakeBlock(h, records, route, BatchOf(req), found.nextNode.value, found.parentRecord, batch, req,
          byNode);
      if !req.stored {
        error := NotStored;
        return;
      }
      StageOf(block, BatchOf(req), n);
      KnownBatch(details, routes.batches, route, found, req);
      Publish(route, found.nextNode.value, BatchOf(req), block, batch, req, byNode);
      LastOf(h, old(records), old(edges), records, edges, w, n, BatchOf(req), block, batch, req);
    }
  }

  lemma NoRouteHere()
    ensures !ValidRoute(Workflow("", [], []))
  {}

  lemma StageOf(r: Record, b: string, n: RouteNode)
    requires ForStage(r, b, n)
    ensures r.batchId == b
  {}

  // A batch that is known keeps its columns.
  lemma KnownBatch(details: map<string, Batch>, batches: map<string, string>, w: Workflow, progress: WorkflowProgress,
      req: CommitRequest)
    requires details.Keys == batches.Keys && CommitAllowed(w, progress, BatchOf(req) in batches, req)
    ensures BatchOf(req) in details ==> details[BatchOf(req)] == BatchFor(details, req)
  {
    hide DetailsOk, Trim;
    assert BatchOf(req) in batches.Keys <==> BatchOf(req) in batches;
  }

  lemma LastOf(h: Hash, records: seq<Record>, edges: seq<BlockEdge>, records': seq<Record>, edges': seq<BlockEdge>,
      w: Workflow, n: RouteNode, b: string, r: Record, batch: Batch, req: CommitRequest)
    requires Extended(h, records, edges, records', edges', w, n, b, r, batch, req)
    ensures records' != [] && records'[|records'| - 1] == r
  {
    hide BlockOk, ForStage, Carries, Pending, ValidRoute, Stamped;
  }

  lemma EvaluatedOnce(s: seq<RouteNode>, byNode: map<string, Record>, byBlock: map<int, Record>, p: WorkflowProgress)
    requires Evaluated(s, byNode, byBlock, p)
    ensures !p.error.TwoBlocks?
  {
    hide Done, Gap, IsLatest;
  }

  lemma NothingKept(h: Hash)
    ensures Kept(h, [], []) && BatchesStarted({}, []) && AllWritten(h, [], map[]) && AllBound(map[])
  {}
}
