// Stored routes are history: later saves never change what an earlier route id means.
module RouteHistory {
  import opened Routes
  import opened RouteMeaning
  import opened RouteRevision
  import opened RouteTables

  // Every route of the earlier tables is still there, with its owner and its meaning.
  ghost predicate HistoryKept(t: Tables, t': Tables) {
    && |t.definitions| <= |t'.definitions|
    && forall i :: 0 <= i < |t.definitions| ==>
      && t'.definitions[i].routeId == t.definitions[i].routeId && t'.definitions[i].batchId == t.definitions[i].batchId
      && MeaningAt(t', t.definitions[i].routeId) == MeaningAt(t, t.definitions[i].routeId)
  }

  lemma SavingKeepsHistory(t: Tables, t': Tables, batchId: string, nodes: seq<RouteNode>, edges: seq<RouteEdge>,
      routeId: string, now: int)
    requires Sound(t) && Saving(t, t', batchId, nodes, edges, routeId, now)
    ensures HistoryKept(t, t')
  {
    hide Saving, MeaningAt, OneDefault, RoutesStored, NoTwins, BatchesBound, NamedRoutes, DistinctRoutes;
    NewRow(t, t', batchId, nodes, edges, routeId, now);
    forall i | 0 <= i < |t.definitions|
      ensures t'.definitions[i].routeId == t.definitions[i].routeId
      ensures t'.definitions[i].batchId == t.definitions[i].batchId
      ensures MeaningAt(t', t.definitions[i].routeId) == MeaningAt(t, t.definitions[i].routeId)
    {
      RowKept(t, t', batchId, nodes, edges, routeId, now, i);
      MeaningKept(t, t', batchId, nodes, edges, routeId, now, i);
    }
  }

  lemma HistoryKeptOn(t: Tables, u: Tables, v: Tables)
    requires HistoryKept(t, u) && HistoryKept(u, v)
    ensures HistoryKept(t, v)
  {
    hide MeaningAt;
  }

  // The saved route is stored under the chosen id, for the owner.
  lemma SavedRouteStored(t: Tables, t': Tables, batchId: string, nodes: seq<RouteNode>, edges: seq<RouteEdge>,
      routeId: string, now: int) returns (k: nat)
    requires Sound(t) && Saving(t, t', batchId, nodes, edges, routeId, now)
    ensures Twin(t', batchId, MeaningOf(nodes, edges), k) && t'.definitions[k].routeId == routeId
  {
    hide Saving, MeaningAt, OneDefault, RoutesStored, NoTwins, BatchesBound, NamedRoutes, DistinctRoutes;
    k := SavedAt(t, t', batchId, nodes, edges, routeId, now);
    MeaningNew(t, t', batchId, nodes, edges, routeId, now);
  }

  // However the tables have changed since, saving a route that the owner has stored chooses the stored id.
  lemma SameRouteSameId(t: Tables, t': Tables, batchId: string, meaning: Meaning, i: nat, routeId: string)
    requires Sound(t') && HistoryKept(t, t') && Twin(t, batchId, meaning, i)
    requires Chosen(t', batchId, meaning, routeId)
    ensures routeId == t.definitions[i].routeId
  {
    hide MeaningAt, MaxRevision, OneDefault, RoutesStored, BatchesBound, NamedRoutes, DistinctRoutes;
    assert Twin(t', batchId, meaning, i);
  }

  // Saving twice, with any saves between, gives the same id.
  lemma SavedTwice(t: Tables, t1: Tables, t2: Tables, batchId: string, nodes: seq<RouteNode>, edges: seq<RouteEdge>,
      routeId: string, now: int, nodes2: seq<RouteNode>, edges2: seq<RouteEdge>, routeId2: string)
    requires Sound(t) && Saving(t, t1, batchId, nodes, edges, routeId, now)
    requires Sound(t2) && HistoryKept(t1, t2) && MeaningOf(nodes2, edges2) == MeaningOf(nodes, edges)
    requires Chosen(t2, batchId, MeaningOf(nodes2, edges2), routeId2)
    ensures routeId2 == routeId
  {
    hide Sound, Saving, HistoryKept, Chosen, Twin, MeaningOf;
    var k := SavedRouteStored(t, t1, batchId, nodes, edges, routeId, now);
    TwinRange(t1, batchId, MeaningOf(nodes, edges), k);
    SameRouteSameId(t1, t2, batchId, MeaningOf(nodes, edges), k, routeId2);
  }

  lemma TwinRange(t: Tables, batchId: string, meaning: Meaning, k: nat)
    requires Twin(t, batchId, meaning, k)
    ensures k < |t.definitions|
  {}

  // A new id is one revision above all earlier ones of its base, and only of its base.
  lemma RevisionsGrowByOne(t: Tables, t': Tables, batchId: string, nodes: seq<RouteNode>, edges: seq<RouteEdge>,
      routeId: string, now: int, bound: nat)
    requires Sound(t) && Saving(t, t', batchId, nodes, edges, routeId, now) && RevisionsWithin(t, bound)
    requires bound < INT_MAX
    ensures RevisionsWithin(t', bound + 1)
  {
    hide Saving, MeaningAt, OneDefault, RoutesStored, NoTwins, BatchesBound, NamedRoutes, DistinctRoutes, RevisionOf;
    NewRow(t, t', batchId, nodes, edges, routeId, now);
    forall i, base: string | 0 <= i < |t'.definitions|
      ensures var r := RevisionOf(t'.definitions[i].routeId, base + "-v"); r.Some? ==> r.value <= bound + 1
    {
      if i < |t.definitions| {
        RowKept(t, t', batchId, nodes, edges, routeId, now, i);
        assert RevisionOf(t.definitions[i].routeId, base + "-v") == RevisionOf(t'.definitions[i].routeId, base + "-v");
      } else {
        NewRevision(t, t', batchId, nodes, edges, routeId, now, bound, base);
      }
    }
  }

  lemma NewRevision(t: Tables, t': Tables, batchId: string, nodes: seq<RouteNode>, edges: seq<RouteEdge>,
      routeId: string, now: int, bound: nat, base: string)
    requires Sound(t) && Saving(t, t', batchId, nodes, edges, routeId, now) && RevisionsWithin(t, bound)
    requires bound < INT_MAX
    requires routeId !in RouteIds(t.definitions)
    ensures var r := RevisionOf(routeId, base + "-v"); r.Some? ==> r.value <= bound + 1
  {
    hide MeaningAt, MeaningOf, Sound, RevisionOf, MaxRevision, SavedTables, RevisionId, RevisionsWithin;
    NextWithin(t, bound, BaseId(batchId));
    forall i | Twin(t, batchId, MeaningOf(nodes, edges), i) ensures t.definitions[i].routeId != routeId {
      assert RouteIds(t.definitions)[i] == t.definitions[i].routeId;
    }
    RevisionOnce(BaseId(batchId), MaxRevision(RouteIds(t.definitions), BaseId(batchId) + "-v") + 1, base);
  }
}
