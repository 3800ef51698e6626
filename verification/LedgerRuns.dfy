// Runs of the server: any interleaving of block commits and route edits.
module LedgerRuns {
  import opened Routes
  import opened RouteValidity
  import opened RouteCheck
  import opened RouteRevision
  import opened RouteTables
  import S = RouteStore
  import opened RouteHistory
  import opened MerkleSpec
  import opened Chain
  import opened LedgerRules
  import opened LedgerCommit
  import opened LedgerBlock
  import L = Ledger

  // The two requests that change the store. A draft route is saved without the route check.
  datatype Request = CommitBlock(req: CommitRequest)
    | SaveRoute(users: map<string, S.Account>, batchId: string, nodes: seq<RouteNode>, edges: seq<RouteEdge>, now: int,
        draft: bool)

  // Blocks and edges are only added, and stored routes keep their meaning.
  ghost predicate Grown(t: Tables, records: seq<Record>, edges: seq<BlockEdge>, t': Tables, records': seq<Record>,
      edges': seq<BlockEdge>)
  {
    HistoryKept(t, t') && records <= records' && edges <= edges'
  }

  lemma GrownOn(t: Tables, records: seq<Record>, edges: seq<BlockEdge>, t1: Tables, records1: seq<Record>,
      edges1: seq<BlockEdge>, t2: Tables, records2: seq<Record>, edges2: seq<BlockEdge>)
    requires Grown(t, records, edges, t1, records1, edges1) && Grown(t1, records1, edges1, t2, records2, edges2)
    ensures Grown(t, records, edges, t2, records2, edges2)
  {
    hide HistoryKept;
    HistoryKeptOn(t, t1, t2);
  }

  lemma SameKept(t: Tables, t': Tables, bound: nat)
    requires t' == t.(batches := t'.batches) && RevisionsWithin(t, bound)
    ensures HistoryKept(t, t') && RevisionsWithin(t', bound)
  {
    hide RevisionOf;
    forall id ensures MeaningAt(t', id) == MeaningAt(t, id) {}
  }

  lemma WiderBound(t: Tables, bound: nat)
    requires RevisionsWithin(t, bound)
    ensures RevisionsWithin(t, bound + 1)
  {
    hide RevisionOf;
  }

  method ServeCommit(ledger: L.Ledger, req: CommitRequest, ghost bound: nat)
    requires ledger.Valid() && RevisionsWithin(ledger.routes.Now(), bound)
    modifies ledger, ledger.routes
    ensures ledger.Valid() && RevisionsWithin(ledger.routes.Now(), bound)
    ensures Grown(old(ledger.routes.Now()), old(ledger.records), old(ledger.edges), ledger.routes.Now(), ledger.records,
        ledger.edges)
  {
    hide RevisionsWithin, Kept, L.BatchesStarted, L.AllWritten, L.AllBound, Sound, HistoryKept, IsDigest, BlockOk,
      ForStage, Carries, Pending, CommitAllowed;
    var error;
    ghost var w, n, progress;
    error, w, n, progress := ledger.Commit(req);
    SameKept(old(ledger.routes.Now()), ledger.routes.Now(), bound);
  }

  method ServeSave(ledger: L.Ledger, users: map<string, S.Account>, batchId: string, nodes: seq<RouteNode>,
      edges: seq<RouteEdge>, now: int, draft: bool, ghost bound: nat)
    requires ledger.Valid() && RevisionsWithin(ledger.routes.Now(), bound) && bound < INT_MAX
    modifies ledger, ledger.routes
    ensures ledger.Valid() && RevisionsWithin(ledger.routes.Now(), bound + 1)
    ensures Grown(old(ledger.routes.Now()), old(ledger.records), old(ledger.edges), ledger.routes.Now(), ledger.records,
        ledger.edges)
  {
    hide RevisionsWithin, Kept, L.BatchesStarted, L.AllWritten, L.AllBound, Sound, HistoryKept, IsDigest, Saving,
      S.SaveAllowed, MaxRevision, ValidRoute;
    ghost var t := ledger.routes.Now();
    WiderBound(t, bound);
    KeptSame(t);
    if !draft {
      var ok, message := WorkflowIsValid(nodes, edges);
      if !ok {
        return;
      }
    }
    NextWithin(t, bound, BaseId(batchId));
    var error, routeId := ledger.routes.SaveWorkflowRoute(users, batchId, nodes, edges, now);
    if error == S.NoError {
      SavingKeepsHistory(t, ledger.routes.Now(), batchId, nodes, edges, routeId, now);
      RevisionsGrowByOne(t, ledger.routes.Now(), batchId, nodes, edges, routeId, now, bound);
      SavingBatches(t, ledger.routes.Now(), batchId, nodes, edges, routeId, now);
    }
  }

  lemma KeptSame(t: Tables)
    ensures HistoryKept(t, t)
  {}

  lemma SavingBatches(t: Tables, t': Tables, batchId: string, nodes: seq<RouteNode>, edges: seq<RouteEdge>,
      routeId: string, now: int)
    requires Sound(t) && Sound(t') && Saving(t, t', batchId, nodes, edges, routeId, now) && L.AllBound(t.batches)
    ensures t'.batches.Keys == t.batches.Keys && L.AllBound(t'.batches)
  {
    hide Saving, L.AllBound, Sound;
    SavedBatches(t, t', batchId, nodes, edges, routeId, now);
    SavedInTables(t, t', batchId, nodes, edges, routeId, now);
    L.BoundStep(t', t.batches, batchId, routeId);
  }

  lemma SavedInTables(t: Tables, t': Tables, batchId: string, nodes: seq<RouteNode>, edges: seq<RouteEdge>,
      routeId: string, now: int)
    requires Sound(t) && Saving(t, t', batchId, nodes, edges, routeId, now)
    ensures routeId in RouteIds(t'.definitions)
  {
    hide Saving, DistinctRoutes, OneDefault, RoutesStored, NoTwins, BatchesBound, NamedRoutes, MeaningAt;
    var k := SavedAt(t, t', batchId, nodes, edges, routeId, now);
    S.IdOfRow(t'.definitions, routeId);
  }

  lemma SavedBatches(t: Tables, t': Tables, batchId: string, nodes: seq<RouteNode>, edges: seq<RouteEdge>,
      routeId: string, now: int)
    requires Saving(t, t', batchId, nodes, edges, routeId, now)
    ensures t'.batches == if batchId != "" && batchId in t.batches then t.batches[batchId := routeId] else t.batches
  {
    hide Chosen, RowsOk, Upsert;
  }

  // Whatever is committed and edited, in any order, the stored chain stays valid, no stage of a batch has two blocks,
  // blocks are never changed or removed, and no stored route changes its meaning.
  method Run(ledger: L.Ledger, schedule: seq<Request>, ghost bound: nat)
    requires ledger.Valid() && RevisionsWithin(ledger.routes.Now(), bound) && bound + |schedule| <= INT_MAX
    modifies ledger, ledger.routes
    ensures ledger.Valid() && RevisionsWithin(ledger.routes.Now(), bound + |schedule|)
    ensures ValidChain(ledger.h, ledger.records, ledger.edges) && OnePerStage(ledger.records)
    ensures Grown(old(ledger.routes.Now()), old(ledger.records), old(ledger.edges), ledger.routes.Now(), ledger.records,
        ledger.edges)
  {
    hide RevisionsWithin, ValidChain, AllRecorded, OnePerStage, L.BatchesStarted, L.AllWritten, L.AllBound, Sound,
      HistoryKept, IsDigest, Grown;
    var i := 0;
    GrownNot(ledger.routes.Now(), ledger.records, ledger.edges);
    while i < |schedule|
      invariant 0 <= i <= |schedule| && ledger.Valid() && RevisionsWithin(ledger.routes.Now(), bound + i)
      invariant Grown(old(ledger.routes.Now()), old(ledger.records), old(ledger.edges), ledger.routes.Now(),
          ledger.records, ledger.edges)
    {
      ghost var t, r, e := ledger.routes.Now(), ledger.records, ledger.edges;
      match schedule[i] {
        case CommitBlock(req) =>
          ServeCommit(ledger, req, bound + i);
          WiderBound(ledger.routes.Now(), bound + i);
        case SaveRoute(users, batchId, nodes, edges, now, draft) =>
          ServeSave(ledger, users, batchId, nodes, edges, now, draft, bound + i);
      }
      GrownOn(old(ledger.routes.Now()), old(ledger.records), old(ledger.edges), t, r, e,
              ledger.routes.Now(), ledger.records, ledger.edges);
      i := i + 1;
    }
  }

  lemma GrownNot(t: Tables, records: seq<Record>, edges: seq<BlockEdge>)
    ensures Grown(t, records, edges, t, records, edges)
  {}

  // From the empty store, every run leaves a store that the validation accepts.
  method RunFromEmpty(h: Hash, now: int, schedule: seq<Request>) returns (ledger: L.Ledger, accepted: bool)
    requires IsDigest(h) && |schedule| <= INT_MAX
    ensures ledger.Valid() && ledger.h == h && accepted
    ensures ValidChain(h, ledger.records, ledger.edges) && OnePerStage(ledger.records)
  {
    hide RevisionsWithin, ValidChain, AllRecorded, OnePerStage, L.BatchesStarted, L.AllWritten, L.AllBound, Sound,
      HistoryKept, IsDigest, Grown;
    ledger := new L.Ledger(h, now);
    Run(ledger, schedule, 0);
    var error;
    accepted, error := ValidateStoredChain(h, ledger.records, ledger.edges);
  }
}
