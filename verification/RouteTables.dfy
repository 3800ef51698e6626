// The tables of routes and batches, and what saving a route does to them.
module RouteTables {
  import opened Routes
  import opened RouteValidity
  import opened RouteMeaning
  import opened RouteRevision

  datatype RouteDefinition = RouteDefinition(routeId: string, batchId: string, isDefault: bool, updatedAt: int)

  // batches holds the route id of every batch, or nothing.
  datatype Tables = Tables(definitions: seq<RouteDefinition>, nodes: map<string, seq<RouteNode>>,
    edges: map<string, seq<RouteEdge>>, batches: map<string, string>)

  function RouteIds(definitions: seq<RouteDefinition>): (ids: seq<string>)
    ensures |ids| == |definitions| && forall i :: 0 <= i < |ids| ==> ids[i] == definitions[i].routeId
  {
    if definitions == [] then []
    else RouteIds(definitions[..|definitions| - 1]) + [definitions[|definitions| - 1].routeId]
  }

  function NodesAt(t: Tables, id: string): seq<RouteNode> {
    if id in t.nodes then t.nodes[id] else []
  }

  function EdgesAt(t: Tables, id: string): seq<RouteEdge> {
    if id in t.edges then t.edges[id] else []
  }

  function MeaningAt(t: Tables, id: string): Meaning {
    MeaningOf(NodesAt(t, id), EdgesAt(t, id))
  }

  // ---- what the tables keep ----

  predicate RowsOk(nodes: seq<RouteNode>) {
    && nodes != [] && DistinctIds(nodes)
    && forall i :: 0 <= i < |nodes| ==> nodes[i].nodeId != "" && nodes[i].caption != "" && nodes[i].role != ""
  }

  predicate DistinctRoutes(definitions: seq<RouteDefinition>) {
    forall i, j :: 0 <= i < j < |definitions| ==> definitions[i].routeId != definitions[j].routeId
  }

  predicate DefaultAt(definitions: seq<RouteDefinition>, i: int) {
    0 <= i < |definitions| && definitions[i].isDefault
  }

  // Exactly one route is the default, and it belongs to no batch.
  ghost predicate OneDefault(definitions: seq<RouteDefinition>) {
    && (exists i :: DefaultAt(definitions, i))
    && (forall i, j :: DefaultAt(definitions, i) && DefaultAt(definitions, j) ==> i == j)
    && (forall i :: DefaultAt(definitions, i) ==> definitions[i].batchId == "")
  }

  predicate RoutesStored(t: Tables) {
    forall i :: 0 <= i < |t.definitions| ==> RowsOk(NodesAt(t, t.definitions[i].routeId))
  }

  // Routes of the same owner mean different things.
  ghost predicate NoTwins(t: Tables) {
    forall i, j :: 0 <= i < j < |t.definitions| && t.definitions[i].batchId == t.definitions[j].batchId ==>
      MeaningAt(t, t.definitions[i].routeId) != MeaningAt(t, t.definitions[j].routeId)
  }

  // Batches of older databases may not be bound to a route yet.
  predicate BatchesBound(t: Tables) {
    forall b :: b in t.batches ==> t.batches[b] == "" || t.batches[b] in RouteIds(t.definitions)
  }

  predicate NamedRoutes(definitions: seq<RouteDefinition>) {
    && "route-default" in RouteIds(definitions)
    && forall i :: 0 <= i < |definitions| ==> definitions[i].routeId != ""
  }

  ghost predicate Sound(t: Tables) {
    && DistinctRoutes(t.definitions) && OneDefault(t.definitions) && NamedRoutes(t.definitions)
    && RoutesStored(t) && NoTwins(t) && BatchesBound(t)
  }

  // No stored revision number is above the bound.
  ghost predicate RevisionsWithin(t: Tables, bound: nat) {
    forall i, base: string :: 0 <= i < |t.definitions| ==>
      var r := RevisionOf(t.definitions[i].routeId, base + "-v"); r.Some? ==> r.value <= bound
  }

  lemma NextWithin(t: Tables, bound: nat, base: string)
    requires RevisionsWithin(t, bound)
    ensures MaxRevision(RouteIds(t.definitions), base + "-v") <= bound
  {
    hide RevisionOf, MaxRevision;
    var ids, prefix := RouteIds(t.definitions), base + "-v";
    forall id | id in ids && RevisionOf(id, prefix).Some? ensures RevisionOf(id, prefix).value <= bound {
      var i :| 0 <= i < |ids| && ids[i] == id;
      assert RevisionOf(t.definitions[i].routeId, base + "-v").Some?;
    }
    MaxBelow(ids, prefix, bound);
  }

  // ---- what saving does ----

  function BaseId(batchId: string): string {
    if batchId == "" then "route-default" else "route-" + batchId
  }

  // The owner's next revision number is an int.
  predicate RevisionsLeft(t: Tables, batchId: string) {
    MaxRevision(RouteIds(t.definitions), BaseId(batchId) + "-v") < INT_MAX
  }

  // The owner has a route with this meaning at position i.
  ghost predicate Twin(t: Tables, batchId: string, meaning: Meaning, i: int) {
    0 <= i < |t.definitions| && t.definitions[i].batchId == batchId && MeaningAt(t, t.definitions[i].routeId) == meaning
  }

  // The owner's stored route with this meaning, or else the next revision.
  ghost predicate Chosen(t: Tables, batchId: string, meaning: Meaning, routeId: string) {
    || (exists i :: Twin(t, batchId, meaning, i) && t.definitions[i].routeId == routeId)
    || ((forall i :: !Twin(t, batchId, meaning, i))
        && routeId == RevisionId(BaseId(batchId), MaxRevision(RouteIds(t.definitions), BaseId(batchId) + "-v") + 1)
        && routeId !in RouteIds(t.definitions))
  }

  function Undefault(definitions: seq<RouteDefinition>): (r: seq<RouteDefinition>)
    ensures |r| == |definitions|
    ensures forall i :: 0 <= i < |r| ==> r[i] == definitions[i].(isDefault := false)
  {
    if definitions == [] then []
    else Undefault(definitions[..|definitions| - 1]) + [definitions[|definitions| - 1].(isDefault := false)]
  }

  // The row of a route, or the end.
  function RowOf(definitions: seq<RouteDefinition>, routeId: string): (k: nat)
    ensures k <= |definitions| && (k < |definitions| ==> definitions[k].routeId == routeId)
    ensures k == |definitions| ==> forall i :: 0 <= i < |definitions| ==> definitions[i].routeId != routeId
  {
    if definitions == [] then 0
    else if definitions[0].routeId == routeId then 0 else 1 + RowOf(definitions[1..], routeId)
  }

  // INSERT ... ON CONFLICT(route_id) DO UPDATE.
  function Upsert(definitions: seq<RouteDefinition>, d: RouteDefinition): seq<RouteDefinition> {
    var k := RowOf(definitions, d.routeId);
    if k < |definitions| then definitions[k := d] else definitions + [d]
  }

  function SavedTables(t: Tables, batchId: string, nodes: seq<RouteNode>, edges: seq<RouteEdge>, routeId: string,
      now: int): Tables {
    Tables(
      Upsert(if batchId == "" then Undefault(t.definitions) else t.definitions,
             RouteDefinition(routeId, batchId, batchId == "", now)),
      t.nodes[routeId := nodes], t.edges[routeId := edges],
      if batchId != "" && batchId in t.batches then t.batches[batchId := routeId] else t.batches)
  }

  // ---- saving keeps the tables sound ----

  // What saving does to each definition: the saved route gets the new row, the others keep theirs apart from the
  // default.
  predicate RowAfter(d: RouteDefinition, d': RouteDefinition, batchId: string, routeId: string, now: int) {
    if d.routeId == routeId then d' == RouteDefinition(routeId, batchId, batchId == "", now)
    else d' == if batchId == "" then d.(isDefault := false) else d
  }

  ghost predicate RowsAfter(t: Tables, t': Tables, batchId: string, routeId: string, now: int) {
    && |t.definitions| <= |t'.definitions|
    && (forall i :: 0 <= i < |t.definitions| ==> RowAfter(t.definitions[i], t'.definitions[i], batchId, routeId, now))
    && if routeId in RouteIds(t.definitions) then |t'.definitions| == |t.definitions|
       else
         && |t'.definitions| == |t.definitions| + 1
         && t'.definitions[|t.definitions|] == RouteDefinition(routeId, batchId, batchId == "", now)
  }

  lemma SavedRows(t: Tables, batchId: string, nodes: seq<RouteNode>, edges: seq<RouteEdge>, routeId: string, now: int)
    requires DistinctRoutes(t.definitions)
    ensures RowsAfter(t, SavedTables(t, batchId, nodes, edges, routeId, now), batchId, routeId, now)
  {
    var before := if batchId == "" then Undefault(t.definitions) else t.definitions;
    var t' := SavedTables(t, batchId, nodes, edges, routeId, now);
    var k := RowOf(before, routeId);
    if k < |before| {
      assert RouteIds(t.definitions)[k] == routeId;
    } else if routeId in RouteIds(t.definitions) {
      var i := SomeRow(t.definitions, routeId);
    }
  }

  lemma SomeRow(definitions: seq<RouteDefinition>, routeId: string) returns (i: nat)
    requires routeId in RouteIds(definitions)
    ensures i < |definitions| && definitions[i].routeId == routeId
  {
    var ids := RouteIds(definitions);
    i :| 0 <= i < |ids| && ids[i] == routeId;
  }

  // A save of a route: its rows are in order and its id was chosen by meaning.
  ghost predicate Saving(t: Tables, t': Tables, batchId: string, nodes: seq<RouteNode>, edges: seq<RouteEdge>,
      routeId: string, now: int)
  {
    && RowsOk(nodes) && Chosen(t, batchId, MeaningOf(nodes, edges), routeId)
    && t' == SavedTables(t, batchId, nodes, edges, routeId, now)
  }

  // The owner of a reused route does not change.
  lemma OwnerKept(t: Tables, batchId: string, meaning: Meaning, routeId: string, i: nat)
    requires DistinctRoutes(t.definitions) && Chosen(t, batchId, meaning, routeId)
    requires i < |t.definitions| && t.definitions[i].routeId == routeId
    ensures Twin(t, batchId, meaning, i)
  {
    hide MaxRevision, MeaningAt;
    assert RouteIds(t.definitions)[i] == routeId;
  }

  lemma MeaningKept(t: Tables, t': Tables, batchId: string, nodes: seq<RouteNode>, edges: seq<RouteEdge>,
      routeId: string, now: int, i: nat)
    requires DistinctRoutes(t.definitions) && Saving(t, t', batchId, nodes, edges, routeId, now) && i < |t.definitions|
    ensures MeaningAt(t', t.definitions[i].routeId) == MeaningAt(t, t.definitions[i].routeId)
  {
    hide Chosen, MeaningOf, DistinctRoutes, RowsOk, Upsert;
    if t.definitions[i].routeId == routeId { OwnerKept(t, batchId, MeaningOf(nodes, edges), routeId, i); }
  }

  lemma MeaningNew(t: Tables, t': Tables, batchId: string, nodes: seq<RouteNode>, edges: seq<RouteEdge>,
      routeId: string, now: int)
    requires Saving(t, t', batchId, nodes, edges, routeId, now)
    ensures MeaningAt(t', routeId) == MeaningOf(nodes, edges) && NodesAt(t', routeId) == nodes
    ensures EdgesAt(t', routeId) == edges
  {
    hide Chosen, MeaningOf, RowsOk, Upsert;
  }

  // Every earlier row keeps its id and its owner.
  lemma RowKept(t: Tables, t': Tables, batchId: string, nodes: seq<RouteNode>, edges: seq<RouteEdge>, routeId: string,
      now: int, i: nat)
    requires DistinctRoutes(t.definitions) && Saving(t, t', batchId, nodes, edges, routeId, now) && i < |t.definitions|
    ensures i < |t'.definitions|
    ensures t'.definitions[i].routeId == t.definitions[i].routeId
    ensures t'.definitions[i].batchId == t.definitions[i].batchId
    ensures RowAfter(t.definitions[i], t'.definitions[i], batchId, routeId, now)
  {
    hide Chosen, MeaningOf, RowsOk, Upsert, DistinctRoutes;
    SavedRows(t, batchId, nodes, edges, routeId, now);
    if t.definitions[i].routeId == routeId { OwnerKept(t, batchId, MeaningOf(nodes, edges), routeId, i); }
  }

  lemma NewRow(t: Tables, t': Tables, batchId: string, nodes: seq<RouteNode>, edges: seq<RouteEdge>, routeId: string,
      now: int)
    requires DistinctRoutes(t.definitions) && Saving(t, t', batchId, nodes, edges, routeId, now)
    ensures routeId in RouteIds(t.definitions) ==> |t'.definitions| == |t.definitions|
    ensures routeId !in RouteIds(t.definitions) ==>
      && |t'.definitions| == |t.definitions| + 1
      && t'.definitions[|t.definitions|] == RouteDefinition(routeId, batchId, batchId == "", now)
      && forall i :: !Twin(t, batchId, MeaningOf(nodes, edges), i)
  {
    hide MeaningOf, RowsOk, Upsert, DistinctRoutes, MaxRevision;
    SavedRows(t, batchId, nodes, edges, routeId, now);
    if routeId !in RouteIds(t.definitions) {
      forall i | Twin(t, batchId, MeaningOf(nodes, edges), i) ensures t.definitions[i].routeId != routeId {
        assert RouteIds(t.definitions)[i] == t.definitions[i].routeId;
      }
    }
  }

  lemma SavedDistinct(t: Tables, t': Tables, batchId: string, nodes: seq<RouteNode>, edges: seq<RouteEdge>,
      routeId: string, now: int)
    requires DistinctRoutes(t.definitions) && Saving(t, t', batchId, nodes, edges, routeId, now)
    ensures DistinctRoutes(t'.definitions)
  {
    hide Saving;
    NewRow(t, t', batchId, nodes, edges, routeId, now);
    forall i, j | 0 <= i < j < |t'.definitions| ensures t'.definitions[i].routeId != t'.definitions[j].routeId {
      RowKept(t, t', batchId, nodes, edges, routeId, now, i);
      if j < |t.definitions| {
        RowKept(t, t', batchId, nodes, edges, routeId, now, j);
      } else {
        assert RouteIds(t.definitions)[i] == t.definitions[i].routeId;
      }
    }
  }

  // The row of the saved route.
  lemma SavedAt(t: Tables, t': Tables, batchId: string, nodes: seq<RouteNode>, edges: seq<RouteEdge>, routeId: string,
      now: int)
    returns (k: nat)
    requires DistinctRoutes(t.definitions) && Saving(t, t', batchId, nodes, edges, routeId, now)
    ensures k < |t'.definitions| && t'.definitions[k] == RouteDefinition(routeId, batchId, batchId == "", now)
    ensures k < |t.definitions| ==> Twin(t, batchId, MeaningOf(nodes, edges), k) && t.definitions[k].routeId == routeId
    ensures k >= |t.definitions| ==> routeId !in RouteIds(t.definitions)
  {
    hide Saving, DistinctRoutes;
    NewRow(t, t', batchId, nodes, edges, routeId, now);
    if routeId in RouteIds(t.definitions) {
      k := SomeRow(t.definitions, routeId);
      RowKept(t, t', batchId, nodes, edges, routeId, now, k);
      SavingChosen(t, t', batchId, nodes, edges, routeId, now);
      OwnerKept(t, batchId, MeaningOf(nodes, edges), routeId, k);
    } else {
      k := |t.definitions|;
    }
  }

  lemma SavingChosen(t: Tables, t': Tables, batchId: string, nodes: seq<RouteNode>, edges: seq<RouteEdge>,
      routeId: string, now: int)
    requires Saving(t, t', batchId, nodes, edges, routeId, now)
    ensures Chosen(t, batchId, MeaningOf(nodes, edges), routeId) && RowsOk(nodes)
  {
    hide Chosen, MeaningOf, RowsOk;
  }

  lemma SavedDefault(t: Tables, t': Tables, batchId: string, nodes: seq<RouteNode>, edges: seq<RouteEdge>,
      routeId: string, now: int)
    requires DistinctRoutes(t.definitions) && OneDefault(t.definitions)
    requires Saving(t, t', batchId, nodes, edges, routeId, now)
    ensures OneDefault(t'.definitions)
  {
    hide Saving;
    var k := SavedAt(t, t', batchId, nodes, edges, routeId, now);
    forall i | 0 <= i < |t'.definitions| && i != k
      ensures t'.definitions[i].isDefault <==> batchId != "" && DefaultAt(t.definitions, i)
    {
      DefaultKept(t, t', batchId, nodes, edges, routeId, now, i, k);
    }
    var d :| DefaultAt(t.definitions, d);
    RowKept(t, t', batchId, nodes, edges, routeId, now, d);
    forall i | DefaultAt(t'.definitions, i) ensures i == (if batchId == "" then k else d) {
      if i != k { assert t'.definitions[i].isDefault; }
    }
    assert DefaultAt(t'.definitions, if batchId == "" then k else d);
  }

  lemma DefaultKept(t: Tables, t': Tables, batchId: string, nodes: seq<RouteNode>, edges: seq<RouteEdge>,
      routeId: string, now: int, i: nat, k: nat)
    requires DistinctRoutes(t.definitions) && Saving(t, t', batchId, nodes, edges, routeId, now)
    requires i < |t'.definitions| && k < |t'.definitions| && i != k && t'.definitions[k].routeId == routeId
    ensures t'.definitions[i].isDefault <==> batchId != "" && DefaultAt(t.definitions, i)
  {
    hide Saving;
    SavedDistinct(t, t', batchId, nodes, edges, routeId, now);
    NewRow(t, t', batchId, nodes, edges, routeId, now);
    if i < |t.definitions| { RowKept(t, t', batchId, nodes, edges, routeId, now, i); }
  }

  lemma SavedNamed(t: Tables, t': Tables, batchId: string, nodes: seq<RouteNode>, edges: seq<RouteEdge>,
      routeId: string, now: int)
    requires DistinctRoutes(t.definitions) && NamedRoutes(t.definitions)
    requires Saving(t, t', batchId, nodes, edges, routeId, now)
    ensures NamedRoutes(t'.definitions)
    ensures forall id :: id in RouteIds(t.definitions) ==> id in RouteIds(t'.definitions)
    ensures routeId in RouteIds(t'.definitions)
  {
    hide Saving, DistinctRoutes;
    NewRow(t, t', batchId, nodes, edges, routeId, now);
    var k := SavedAt(t, t', batchId, nodes, edges, routeId, now);
    assert RouteIds(t'.definitions)[k] == routeId;
    forall i | 0 <= i < |t.definitions| ensures t.definitions[i].routeId in RouteIds(t'.definitions) {
      RowKept(t, t', batchId, nodes, edges, routeId, now, i);
      assert RouteIds(t'.definitions)[i] == t.definitions[i].routeId;
    }
    SavingNamed(t, t', batchId, nodes, edges, routeId, now);
    forall i | 0 <= i < |t'.definitions| ensures t'.definitions[i].routeId != "" {
      if i < |t.definitions| { RowKept(t, t', batchId, nodes, edges, routeId, now, i); }
    }
  }

  lemma SavingNamed(t: Tables, t': Tables, batchId: string, nodes: seq<RouteNode>, edges: seq<RouteEdge>,
      routeId: string, now: int)
    requires NamedRoutes(t.definitions) && Saving(t, t', batchId, nodes, edges, routeId, now)
    ensures routeId != ""
  {
    hide MeaningOf, MaxRevision, RowsOk, SavedTables;
  }

  lemma SavedStored(t: Tables, t': Tables, batchId: string, nodes: seq<RouteNode>, edges: seq<RouteEdge>,
      routeId: string, now: int)
    requires DistinctRoutes(t.definitions) && RoutesStored(t) && Saving(t, t', batchId, nodes, edges, routeId, now)
    ensures RoutesStored(t')
  {
    hide Chosen, RowsOk, MeaningOf, Upsert, DistinctRoutes;
    NewRow(t, t', batchId, nodes, edges, routeId, now);
    forall i | 0 <= i < |t'.definitions| ensures RowsOk(NodesAt(t', t'.definitions[i].routeId)) {
      if i < |t.definitions| { RowKept(t, t', batchId, nodes, edges, routeId, now, i); }
    }
  }

  lemma SavedTwins(t: Tables, t': Tables, batchId: string, nodes: seq<RouteNode>, edges: seq<RouteEdge>,
      routeId: string, now: int)
    requires DistinctRoutes(t.definitions) && NoTwins(t) && Saving(t, t', batchId, nodes, edges, routeId, now)
    ensures NoTwins(t')
  {
    hide Saving, MeaningAt, DistinctRoutes;
    NewRow(t, t', batchId, nodes, edges, routeId, now);
    MeaningNew(t, t', batchId, nodes, edges, routeId, now);
    forall i, j | 0 <= i < j < |t'.definitions| && t'.definitions[i].batchId == t'.definitions[j].batchId
      ensures MeaningAt(t', t'.definitions[i].routeId) != MeaningAt(t', t'.definitions[j].routeId)
    {
      RowKept(t, t', batchId, nodes, edges, routeId, now, i);
      MeaningKept(t, t', batchId, nodes, edges, routeId, now, i);
      if j < |t.definitions| {
        RowKept(t, t', batchId, nodes, edges, routeId, now, j);
        MeaningKept(t, t', batchId, nodes, edges, routeId, now, j);
      } else {
        assert !Twin(t, batchId, MeaningOf(nodes, edges), i);
      }
    }
  }

  lemma SavedBound(t: Tables, t': Tables, batchId: string, nodes: seq<RouteNode>, edges: seq<RouteEdge>,
      routeId: string, now: int)
    requires DistinctRoutes(t.definitions) && NamedRoutes(t.definitions) && BatchesBound(t)
    requires Saving(t, t', batchId, nodes, edges, routeId, now)
    ensures BatchesBound(t')
  {
    hide Chosen, RowsOk, MeaningOf, Upsert, DistinctRoutes, NamedRoutes;
    SavedNamed(t, t', batchId, nodes, edges, routeId, now);
  }

  lemma SavedSound(t: Tables, t': Tables, batchId: string, nodes: seq<RouteNode>, edges: seq<RouteEdge>,
      routeId: string, now: int)
    requires Sound(t) && Saving(t, t', batchId, nodes, edges, routeId, now)
    ensures Sound(t')
  {
    hide Saving, DistinctRoutes, OneDefault, NamedRoutes, RoutesStored, NoTwins, BatchesBound;
    SavedDistinct(t, t', batchId, nodes, edges, routeId, now);
    SavedDefault(t, t', batchId, nodes, edges, routeId, now);
    SavedNamed(t, t', batchId, nodes, edges, routeId, now);
    SavedStored(t, t', batchId, nodes, edges, routeId, now);
    SavedTwins(t, t', batchId, nodes, edges, routeId, now);
    SavedBound(t, t', batchId, nodes, edges, routeId, now);
  }
}
