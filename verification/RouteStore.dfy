// Saving and loading routes.
module RouteStore {
  import opened Options
  import opened Routes
  import opened RouteValidity
  import RC = RouteCheck
  import opened RouteLinear
  import opened Sorting
  import opened RouteMeaning
  import opened RouteRevision
  import opened RouteTables

  datatype Account = Account(role: string, active: bool)

  datatype SaveError = NoError | NodeRefused | EdgeRefused | Unassigned | NotActive(username: string)
    | WrongRole(username: string) | AssignedTwice(username: string) | NoOwner | NotWritten

  // ---- what a save demands ----

  predicate AccountOk(users: map<string, Account>, n: RouteNode) {
    n.username != "" && n.username in users && users[n.username].active && users[n.username].role == n.role
  }

  predicate DistinctUsers(nodes: seq<RouteNode>) {
    forall i, j :: 0 <= i < j < |nodes| ==> nodes[i].username != nodes[j].username
  }

  predicate AccountsOk(users: map<string, Account>, nodes: seq<RouteNode>) {
    (forall i :: 0 <= i < |nodes| ==> AccountOk(users, nodes[i])) && DistinctUsers(nodes)
  }

  predicate NoRepeats(edges: seq<RouteEdge>) {
    forall i, j :: 0 <= i < j < |edges| ==> edges[i] != edges[j]
  }

  predicate SaveAllowed(users: map<string, Account>, nodes: seq<RouteNode>, edges: seq<RouteEdge>) {
    RowsOk(nodes) && AllEdgesOk(nodes, edges) && AccountsOk(users, nodes) && NoRepeats(edges)
  }

  method RouteNodeIdsAreUnique(nodes: seq<RouteNode>) returns (ok: bool)
    ensures ok <==> RowsOk(nodes)
  {
    hide DistinctIds;
    var ids: set<string> := {};
    var i := 0;
    NoIds();
    while i < |nodes|
      invariant 0 <= i <= |nodes| && ids == Ids(nodes[..i]) && DistinctIds(nodes[..i])
      invariant forall j :: 0 <= j < i ==> nodes[j].nodeId != "" && nodes[j].caption != "" && nodes[j].role != ""
    {
      IdsPrefix(nodes, i);
      if nodes[i].nodeId == "" || nodes[i].caption == "" || nodes[i].role == "" || nodes[i].nodeId in ids {
        return false;
      }
      ids := ids + {nodes[i].nodeId};
      i := i + 1;
    }
    assert nodes[..i] == nodes;
    return nodes != [];
  }

  lemma NoIds()
    ensures Ids([]) == {} && DistinctIds([])
  {}

  method EdgesKnown(nodes: seq<RouteNode>, edges: seq<RouteEdge>) returns (ok: bool)
    ensures ok <==> AllEdgesOk(nodes, edges)
  {
    var nodeIds := Ids(nodes);
    var i := 0;
    while i < |edges|
      invariant 0 <= i <= |edges| && forall j :: 0 <= j < i ==> EdgeOk(nodes, edges[j])
    {
      if edges[i].from !in nodeIds || edges[i].to !in nodeIds || edges[i].from == edges[i].to {
        return false;
      }
      i := i + 1;
    }
    return true;
  }

  function Usernames(nodes: seq<RouteNode>): set<string> {
    set n | n in nodes :: n.username
  }

  lemma SoundDefault(t: Tables)
    requires Sound(t)
    ensures exists i: int :: DefaultAt(t.definitions, i)
  {
    hide DefaultAt;
  }

  lemma UsersPrefix(nodes: seq<RouteNode>, i: nat)
    requires i < |nodes| && DistinctUsers(nodes[..i])
    ensures Usernames(nodes[..i + 1]) == Usernames(nodes[..i]) + {nodes[i].username}
    ensures nodes[i].username !in Usernames(nodes[..i]) ==> DistinctUsers(nodes[..i + 1])
    ensures nodes[i].username in Usernames(nodes[..i]) ==> !DistinctUsers(nodes)
  {
    UsersMore(nodes, i);
    UsersOf(nodes, i);
    hide Usernames;
    var front, more := nodes[..i], nodes[..i + 1];
    if nodes[i].username !in Usernames(front) {
      forall j, k | 0 <= j < k < |more| ensures more[j].username != more[k].username {
        if k < i { assert front[j] == more[j] && front[k] == more[k]; }
      }
    }
  }

  lemma UsersMore(nodes: seq<RouteNode>, i: nat)
    requires i < |nodes|
    ensures Usernames(nodes[..i + 1]) == Usernames(nodes[..i]) + {nodes[i].username}
  {
    var front, more := nodes[..i], nodes[..i + 1];
    assert more == front + [nodes[i]];
    forall n | n in front ensures n in more {}
    assert nodes[i] in more;
  }

  lemma UsersOf(nodes: seq<RouteNode>, i: nat)
    requires i < |nodes|
    ensures forall j :: 0 <= j < i ==> nodes[j].username in Usernames(nodes[..i])
    ensures nodes[i].username in Usernames(nodes[..i]) ==> !DistinctUsers(nodes)
  {
    var front := nodes[..i];
    forall j | 0 <= j < i ensures nodes[j].username in Usernames(front) {
      assert front[j] == nodes[j] && front[j] in front;
    }
    if nodes[i].username in Usernames(front) {
      var j :| 0 <= j < i && front[j].username == nodes[i].username;
      assert nodes[j].username == nodes[i].username;
    }
  }

  method CheckAccounts(users: map<string, Account>, nodes: seq<RouteNode>) returns (error: SaveError)
    ensures error == NoError <==> AccountsOk(users, nodes)
  {
    hide DistinctUsers, Usernames;
    var assignedAccounts: set<string> := {};
    var i := 0;
    NoUsers();
    while i < |nodes|
      invariant 0 <= i <= |nodes| && assignedAccounts == Usernames(nodes[..i]) && DistinctUsers(nodes[..i])
      invariant forall j :: 0 <= j < i ==> AccountOk(users, nodes[j])
    {
      var node := nodes[i];
      if node.username == "" {
        return Unassigned;
      }
      if node.username !in users || !users[node.username].active {
        return NotActive(node.username);
      }
      if users[node.username].role != node.role {
        return WrongRole(node.username);
      }
      UsersPrefix(nodes, i);
      if node.username in assignedAccounts {
        return AssignedTwice(node.username);
      }
      assignedAccounts := assignedAccounts + {node.username};
      i := i + 1;
    }
    assert nodes[..i] == nodes;
    return NoError;
  }

  lemma NoUsers()
    ensures Usernames([]) == {} && DistinctUsers([])
  {}

  // INSERT of the edge rows; the primary key refuses a repeated edge.
  method InsertEdges(edges: seq<RouteEdge>) returns (ok: bool, rows: seq<RouteEdge>)
    ensures ok <==> NoRepeats(edges)
    ensures ok ==> rows == edges
  {
    rows := [];
    var i := 0;
    while i < |edges|
      invariant 0 <= i <= |edges| && rows == edges[..i] && NoRepeats(edges[..i])
    {
      if edges[i] in rows {
        var j :| 0 <= j < i && rows[j] == edges[i];
        assert edges[j] == edges[i];
        return false, rows;
      }
      RepeatStep(edges, i);
      rows := rows + [edges[i]];
      i := i + 1;
    }
    assert edges[..i] == edges;
    return true, rows;
  }

  lemma RepeatStep(edges: seq<RouteEdge>, i: nat)
    requires i < |edges| && NoRepeats(edges[..i]) && edges[i] !in edges[..i]
    ensures NoRepeats(edges[..i + 1]) && edges[..i + 1] == edges[..i] + [edges[i]]
  {
    var front, more := edges[..i], edges[..i + 1];
    assert more == front + [edges[i]];
    forall j, k | 0 <= j < k < i + 1 ensures more[j] != more[k] {
      assert front[j] == more[j] && front[j] in front;
      if k < i { assert front[k] == more[k]; }
    }
  }

  // ---- reading ----

  lemma {:induction false} IdsAtMost(s: seq<RouteNode>)
    ensures |Ids(s)| <= |s|
  {
    hide Ids;
    if s != [] {
      var n := |s| - 1;
      IdsAtMost(s[..n]);
      RC.IdsStep(s[..n], s[n]);
      assert s == s[..n] + [s[n]];
    } else {
      NoIds();
    }
  }

  lemma DistinctBySize(s: seq<RouteNode>)
    requires |Ids(s)| == |s|
    ensures DistinctIds(s)
  {
    forall i, j | 0 <= i < j < |s| ensures s[i].nodeId != s[j].nodeId {
      var rest := s[..j] + s[j + 1..];
      IdsAtMost(rest);
      if s[i].nodeId == s[j].nodeId {
        forall n | n in s ensures n.nodeId in Ids(rest) {
          var k :| 0 <= k < |s| && s[k] == n;
          var m := if k < j then k else if k == j then i else k - 1;
          assert rest[m] in rest && rest[m].nodeId == n.nodeId;
        }
        forall n | n in rest ensures n in s {}
        SameIdSets(s, rest);
      }
    }
  }

  lemma SameIdSets(s: seq<RouteNode>, rest: seq<RouteNode>)
    requires (forall n :: n in s ==> n.nodeId in Ids(rest)) && forall n :: n in rest ==> n in s
    ensures Ids(s) == Ids(rest)
  {}

  // Rows in another order are as good.
  lemma RowsReordered(s: seq<RouteNode>, t: seq<RouteNode>)
    requires RowsOk(s) && multiset(s) == multiset(t)
    ensures RowsOk(t) && |s| == |t|
  {
    hide DistinctIds;
    SameSize(s, t);
    forall n | n in t ensures n in s { assert n in multiset(t); }
    forall n | n in s ensures n in t { assert n in multiset(s); }
    IdsCount(s);
    SameIdSets(s, t);
    DistinctBySize(t);
  }

  function NewerFirst(a: RouteDefinition, b: RouteDefinition): bool {
    a.updatedAt > b.updatedAt || (a.updatedAt == b.updatedAt && TextLess(b.routeId, a.routeId))
  }

  function OwnedBy(definitions: seq<RouteDefinition>, batchId: string): (owned: seq<RouteDefinition>)
    ensures forall d :: d in owned <==> d in definitions && d.batchId == batchId
  {
    if definitions == [] then []
    else
      var rest, d := OwnedBy(definitions[..|definitions| - 1], batchId), definitions[|definitions| - 1];
      assert definitions == definitions[..|definitions| - 1] + [d];
      if d.batchId == batchId then rest + [d] else rest
  }

  // ORDER BY step_index, node_id.
  function StepIdLess(a: RouteNode, b: RouteNode): bool {
    a.stepIndex < b.stepIndex || (a.stepIndex == b.stepIndex && IdLess(a, b))
  }

  lemma SortMembers<T>(s: seq<T>, less: Less<T>)
    ensures forall x :: x in Sort(s, less) <==> x in s
  {
    forall x ensures x in Sort(s, less) <==> x in s {
      assert x in Sort(s, less) <==> x in multiset(Sort(s, less));
      assert x in s <==> x in multiset(s);
    }
  }

  lemma MeaningReordered(nodes: seq<RouteNode>, edges: seq<RouteEdge>, nodes': seq<RouteNode>, edges': seq<RouteEdge>)
    requires multiset(nodes) == multiset(nodes') && multiset(edges) == multiset(edges')
    ensures MeaningOf(nodes, edges) == MeaningOf(nodes', edges')
  {
    StripReordered(nodes, nodes');
  }

  lemma {:induction false} StripReordered(s: seq<RouteNode>, t: seq<RouteNode>)
    requires multiset(s) == multiset(t)
    ensures multiset(StripAll(s)) == multiset(StripAll(t))
    decreases |s|
  {
    hide StripAll, Strip;
    SameSize(s, t);
    if s != [] {
      var n := |s| - 1;
      assert s[n] in multiset(s) && s[n] in multiset(t);
      var i :| 0 <= i < |t| && t[i] == s[n];
      Without(s, n);
      Without(t, i);
      StripReordered(s[..n] + s[n + 1..], t[..i] + t[i + 1..]);
      StripParts(s[..n], s[n], s[n + 1..]);
      StripParts(t[..i], t[i], t[i + 1..]);
    }
  }

  lemma Without(s: seq<RouteNode>, i: nat)
    requires i < |s|
    ensures s == s[..i] + [s[i]] + s[i + 1..] && multiset(s[..i] + s[i + 1..]) == multiset(s) - multiset{s[i]}
  {
    assert s == s[..i] + [s[i]] + s[i + 1..];
  }

  lemma StripParts(a: seq<RouteNode>, n: RouteNode, b: seq<RouteNode>)
    ensures multiset(StripAll(a + [n] + b)) == multiset(StripAll(a + b)) + multiset{Strip(n)}
  {
    hide StripAll, Strip;
    assert StripAll(a + [n] + b) == StripAll(a) + [Strip(n)] + StripAll(b);
    assert StripAll(a + b) == StripAll(a) + StripAll(b);
  }

  // ---- the route that every installation starts with ----

  function DefaultNodes(): seq<RouteNode> {
    [RouteNode("supplier-1", "supplier", "Supplier", "supplier", "supplier01", 80, 150, 0),
     RouteNode("transport-1", "transport", "Transport 1", "logistics", "logistics01", 300, 150, 1),
     RouteNode("warehouse-1", "warehouse", "Warehouse", "warehouse", "warehouse01", 520, 150, 2),
     RouteNode("supermarket-1", "supermarket", "Supermarket", "supermarket", "supermarket01", 740, 150, 3)]
  }

  function DefaultEdges(): seq<RouteEdge> {
    [RouteEdge("supplier-1", "transport-1"), RouteEdge("transport-1", "warehouse-1"),
        RouteEdge("warehouse-1", "supermarket-1")]
  }

  lemma DefaultRows()
    ensures RowsOk(DefaultNodes())
  {
    var nodes := DefaultNodes();
    assert nodes[0].nodeId[3] == 'p' && nodes[3].nodeId[3] == 'e';
    assert nodes[0].nodeId[0] == 's' && nodes[1].nodeId[0] == 't' && nodes[2].nodeId[0] == 'w'
      && nodes[3].nodeId[0] == 's';
  }

  lemma SeedSound(t: Tables, now: int)
    requires t.definitions == [RouteDefinition("route-default", "", true, now)] && t.batches == map[]
    requires NodesAt(t, "route-default") == DefaultNodes()
    ensures Sound(t) && RevisionsWithin(t, 0)
  {
    hide RowsOk, MeaningAt, RevisionOf;
    DefaultRows();
    assert DefaultAt(t.definitions, 0);
    assert RouteIds(t.definitions)[0] == "route-default";
    forall base: string
      ensures RevisionOf("route-default", base + "-v") == None
    {
      NotARevision("route-default", base);
    }
  }

  // ---- the store ----

  class Store {
    var definitions: seq<RouteDefinition>
    var nodes: map<string, seq<RouteNode>>
    var edges: map<string, seq<RouteEdge>>
    var batches: map<string, string>

    ghost function Now(): Tables
      reads this
    {
      Tables(definitions, nodes, edges, batches)
    }

    ghost predicate Valid()
      reads this
    {
      Sound(Now())
    }

    // The tables that the server sets up before anything is saved.
    constructor (now: int)
      ensures Valid() && RevisionsWithin(Now(), 0) && batches == map[]
      ensures definitions == [RouteDefinition("route-default", "", true, now)]
    {
      definitions := [RouteDefinition("route-default", "", true, now)];
      nodes := map["route-default" := DefaultNodes()];
      edges := map["route-default" := DefaultEdges()];
      batches := map[];
      new;
      SeedSound(Now(), now);
    }

    // The default route when there is one.
    method DefaultRouteId() returns (id: string)
      requires Valid()
      ensures exists i :: DefaultAt(definitions, i) && definitions[i].routeId == id
    {
      hide NewerFirst, Sound;
      SoundDefault(Now());
      ghost var d: int :| DefaultAt(definitions, d);
      var best := -1;
      var i := 0;
      while i < |definitions|
        invariant 0 <= i <= |definitions| && -1 <= best < |definitions|
        invariant best == -1 ==> forall j :: 0 <= j < i ==> !definitions[j].isDefault
        invariant best != -1 ==> definitions[best].isDefault
      {
        if definitions[i].isDefault && (best == -1 || NewerFirst(definitions[i], definitions[best])) {
          best := i;
        }
        i := i + 1;
      }
      if best == -1 {
        return "route-default";
      }
      assert DefaultAt(definitions, best);
      return definitions[best].routeId;
    }

    // The route in force for a batch, or for new batches.
    method CurrentRouteId(batchId: string) returns (id: string)
      requires Valid()
      ensures id in RouteIds(definitions)
      ensures batchId == "" ==> exists i :: DefaultAt(definitions, i) && definitions[i].routeId == id
      ensures batchId != "" ==>
        id == if batchId in batches && batches[batchId] != "" then batches[batchId] else "route-default"
    {
      hide OneDefault, DistinctRoutes, RoutesStored, NoTwins;
      if batchId == "" {
        id := DefaultRouteId();
        IdOfRow(definitions, id);
      } else {
        id := if batchId in batches then batches[batchId] else "";
        if id == "" {
          id := "route-default";
        }
      }
    }

    method LoadRouteComponents(routeId: string) returns (n: seq<RouteNode>, e: seq<RouteEdge>)
      ensures multiset(n) == multiset(NodesAt(Now(), routeId)) && multiset(e) == multiset(EdgesAt(Now(), routeId))
      ensures MeaningOf(n, e) == MeaningAt(Now(), routeId)
    {
      hide MeaningOf;
      n := Sort(if routeId in nodes then nodes[routeId] else [], StepIdLess);
      e := Sort(if routeId in edges then edges[routeId] else [], EdgeLess);
      MeaningReordered(n, e, NodesAt(Now(), routeId), EdgesAt(Now(), routeId));
    }

    // Does a stored route mean the same?
    method StoredMeans(routeId: string, newNodes: seq<RouteNode>, newEdges: seq<RouteEdge>) returns (same: bool)
      requires Valid() && routeId in RouteIds(definitions) && RowsOk(newNodes)
      ensures same <==> MeaningAt(Now(), routeId) == MeaningOf(newNodes, newEdges)
    {
      hide MeaningOf, Sound, NodesAt, EdgesAt;
      var n, e := LoadRouteComponents(routeId);
      StoredRows(Now(), routeId);
      RowsReordered(NodesAt(Now(), routeId), n);
      same := RouteSemanticsEqual(newNodes, newEdges, n, e);
    }

    // An earlier route of the owner, other than the current one, with the same meaning.
    method FindRevision(batchId: string, newNodes: seq<RouteNode>, newEdges: seq<RouteEdge>, current: string)
      returns (found: Option<string>)
      requires Valid() && RowsOk(newNodes)
      ensures found.Some? ==> Chosen(Now(), batchId, MeaningOf(newNodes, newEdges), found.value)
      ensures found.None? ==> forall i :: Twin(Now(), batchId, MeaningOf(newNodes, newEdges), i) ==>
        definitions[i].routeId == current
    {
      hide MeaningOf, MeaningAt, Sound, Chosen, RowsOk, OwnedBy, Sort, Twin;
      ghost var meaning := MeaningOf(newNodes, newEdges);
      var revisions := Sort(OwnedBy(definitions, batchId), NewerFirst);
      SortMembers(OwnedBy(definitions, batchId), NewerFirst);
      var i := 0;
      while i < |revisions|
        invariant 0 <= i <= |revisions|
        invariant forall j :: 0 <= j < i ==>
          revisions[j].routeId == current || MeaningAt(Now(), revisions[j].routeId) != meaning
      {
        var candidate := revisions[i];
        assert candidate in revisions;
        CandidateOwned(definitions, batchId, candidate);
        if candidate.routeId != current {
          var equal := StoredMeans(candidate.routeId, newNodes, newEdges);
          if equal {
            CandidateChosen(Now(), batchId, meaning, candidate);
            return Some(candidate.routeId);
          }
        }
        i := i + 1;
      }
      NoTwinLeft(Now(), batchId, meaning, current, revisions);
      return None;
    }

    // The current route when the owner has it unchanged, an earlier route of the owner with the same meaning, or the
    // next revision.
    method ChooseRoute(batchId: string, newNodes: seq<RouteNode>, newEdges: seq<RouteEdge>, current: string)
      returns (routeId: string)
      requires Valid() && current in RouteIds(definitions) && RowsOk(newNodes)
      requires batchId == "" ==> exists i :: DefaultAt(definitions, i) && definitions[i].routeId == current
      ensures RevisionsLeft(Now(), batchId) ==> Chosen(Now(), batchId, MeaningOf(newNodes, newEdges), routeId)
    {
      hide MeaningOf, MeaningAt, Sound, Chosen, RowsOk, Twin, RevisionsLeft;
      ghost var meaning := MeaningOf(newNodes, newEdges);
      var row := RowOf(definitions, current);
      CurrentRow(Now(), batchId, current, row);
      var owned := batchId == "" || definitions[row].batchId == batchId;
      var same := StoredMeans(current, newNodes, newEdges);
      CurrentTwin(Now(), batchId, meaning, row);
      if owned && same {
        return current;
      }
      var found := FindRevision(batchId, newNodes, newEdges, current);
      if found.Some? {
        return found.value;
      }
      NoneTwin(Now(), batchId, meaning, row);
      routeId := NextRevision(batchId, meaning);
    }

    // The next revision of a route that its owner does not have yet.
    method NextRevision(batchId: string, ghost meaning: Meaning) returns (routeId: string)
      requires forall i :: !Twin(Now(), batchId, meaning, i)
      ensures RevisionsLeft(Now(), batchId) ==> Chosen(Now(), batchId, meaning, routeId)
    {
      hide MaxRevision, Chosen, Twin;
      routeId := NextRouteRevisionId(RouteIds(definitions), BaseId(batchId));
      if RevisionsLeft(Now(), batchId) { NextChosen(Now(), batchId, meaning, routeId); }
    }

    // A save is one transaction: it either replaces the rows of the chosen route or leaves the tables as they were.
    method SaveWorkflowRoute(users: map<string, Account>, batchId: string, newNodes: seq<RouteNode>,
        newEdges: seq<RouteEdge>, now: int) returns (error: SaveError, routeId: string)
      requires Valid()
      modifies this
      ensures error != NoError || RevisionsLeft(old(Now()), batchId) ==> Valid()
      ensures error == NoError <==> SaveAllowed(users, newNodes, newEdges)
      ensures error != NoError ==> Now() == old(Now())
      ensures error == NoError ==> Now() == SavedTables(old(Now()), batchId, newNodes, newEdges, routeId, now)
      ensures error == NoError && RevisionsLeft(old(Now()), batchId) ==>
        Saving(old(Now()), Now(), batchId, newNodes, newEdges, routeId, now)
    {
      hide RowsOk, AllEdgesOk, AccountsOk, NoRepeats, Sound, MeaningOf, MaxRevision, Chosen;
      routeId := "";
      var ok := RouteNodeIdsAreUnique(newNodes);
      if !ok {
        return NodeRefused, "";
      }
      ok := EdgesKnown(newNodes, newEdges);
      if !ok {
        return EdgeRefused, "";
      }
      error := CheckAccounts(users, newNodes);
      if error != NoError {
        return error, "";
      }
      var current := CurrentRouteId(batchId);
      if batchId != "" && current !in RouteIds(definitions) {
        return NoOwner, "";
      }
      routeId := ChooseRoute(batchId, newNodes, newEdges, current);
      var rows;
      ok, rows := InsertEdges(newEdges);
      if !ok {
        return NotWritten, routeId;
      }
      ghost var before := Now();
      if batchId == "" {
        definitions := Undefault(definitions);
      }
      definitions := Upsert(definitions, RouteDefinition(routeId, batchId, batchId == "", now));
      nodes := nodes[routeId := newNodes];
      edges := edges[routeId := rows];
      if batchId != "" && batchId in batches {
        batches := batches[batchId := routeId];
      }
      assert Now() == SavedTables(before, batchId, newNodes, newEdges, routeId, now);
      if RevisionsLeft(before, batchId) { SavedSound(before, Now(), batchId, newNodes, newEdges, routeId, now); }
    }

    // A committed block binds its batch to the route it was checked against.
    method BindBatch(batchId: string, routeId: string)
      requires Valid() && routeId in RouteIds(definitions)
      modifies this
      ensures Valid() && Now() == old(Now()).(batches := old(batches)[batchId := routeId])
    {
      hide OneDefault, DistinctRoutes, RoutesStored, NoTwins, NamedRoutes;
      ghost var before := Now();
      batches := batches[batchId := routeId];
      BindSound(before, batchId, routeId);
    }

    // The nodes and edges of a route, in the order in which every program reads them.
    method LoadWorkflowRouteById(routeId: string) returns (ok: bool, w: Workflow)
      requires Valid()
      ensures Valid()
      ensures ok ==> w.routeId == routeId && RowsOk(w.nodes) && MeaningOf(w.nodes, w.edges) == MeaningAt(Now(), routeId)
      ensures routeId in RouteIds(definitions) ==> ok
    {
      hide RowsOk, MeaningOf, Sound;
      var stored := if routeId in nodes then nodes[routeId] else [];
      w := Workflow(routeId, Sort(stored, StepLess), Sort(if routeId in edges then edges[routeId] else [], EdgeLess));
      MeaningReordered(w.nodes, w.edges, NodesAt(Now(), routeId), EdgesAt(Now(), routeId));
      if routeId == "" {
        NoEmptyRoute(Now());
        return false, w;
      }
      ok := RouteNodeIdsAreUnique(w.nodes);
      if routeId in RouteIds(definitions) {
        StoredRows(Now(), routeId);
        RowsReordered(stored, w.nodes);
      }
    }

    // A batch without a route gets the default one.
    method EnsureBatchWorkflow(batchId: string) returns (ok: bool, routeId: string)
      requires Valid()
      modifies this
      ensures Valid() && (ok <==> batchId != "" && batchId in old(batches))
      ensures !ok || old(batches)[batchId] != "" ==> Now() == old(Now())
      ensures ok ==> routeId in RouteIds(definitions) && batchId in batches && batches[batchId] == routeId
      ensures ok && old(batches)[batchId] != "" ==> routeId == old(batches)[batchId]
      ensures ok && old(batches)[batchId] == "" ==>
        && Now() == old(Now()).(batches := old(batches)[batchId := routeId])
        && exists i :: DefaultAt(definitions, i) && definitions[i].routeId == routeId
    {
      hide OneDefault, DistinctRoutes, RoutesStored, NoTwins, NamedRoutes;
      if batchId == "" || batchId !in batches {
        return false, "";
      }
      if batches[batchId] != "" {
        return true, batches[batchId];
      }
      routeId := DefaultRouteId();
      IdOfRow(definitions, routeId);
      BindBatch(batchId, routeId);
      ok := true;
    }

    // The route of a batch, or the default one.
    method LoadWorkflowRoute(batchId: string) returns (ok: bool, w: Workflow)
      requires Valid()
      modifies this
      ensures Valid() && (ok <==> batchId == "" || batchId in old(batches))
      ensures !ok || batchId == "" || old(batches)[batchId] != "" ==> Now() == old(Now())
      ensures ok ==> RowsOk(w.nodes) && w.routeId in RouteIds(definitions)
      ensures ok ==> MeaningOf(w.nodes, w.edges) == MeaningAt(Now(), w.routeId)
      ensures ok && batchId != "" && old(batches)[batchId] != "" ==> w.routeId == old(batches)[batchId]
      ensures ok && batchId != "" && old(batches)[batchId] == "" ==>
        Now() == old(Now()).(batches := old(batches)[batchId := w.routeId])
      ensures ok && (batchId == "" || old(batches)[batchId] == "") ==>
        exists i :: DefaultAt(definitions, i) && definitions[i].routeId == w.routeId
    {
      hide RowsOk, MeaningOf, Sound, MeaningAt;
      var routeId;
      if batchId == "" {
        routeId := CurrentRouteId("");
      } else {
        ok, routeId := EnsureBatchWorkflow(batchId);
        if !ok {
          return false, Workflow("", [], []);
        }
      }
      ok, w := LoadWorkflowRouteById(routeId);
    }
  }

  lemma BindSound(t: Tables, batchId: string, routeId: string)
    requires Sound(t) && routeId in RouteIds(t.definitions)
    ensures Sound(t.(batches := t.batches[batchId := routeId]))
  {
    hide OneDefault, DistinctRoutes, NamedRoutes, RowsOk, MeaningOf;
    var t' := t.(batches := t.batches[batchId := routeId]);
    forall id ensures MeaningAt(t', id) == MeaningAt(t, id) {}
  }

  lemma CurrentRow(t: Tables, batchId: string, current: string, row: nat)
    requires Sound(t) && current in RouteIds(t.definitions) && row == RowOf(t.definitions, current)
    requires batchId == "" ==> exists i :: DefaultAt(t.definitions, i) && t.definitions[i].routeId == current
    ensures row < |t.definitions| && t.definitions[row].routeId == current
    ensures batchId == "" ==> t.definitions[row].batchId == ""
  {
    hide RoutesStored, NoTwins, BatchesBound, NamedRoutes;
    var i := SomeRow(t.definitions, current);
    if batchId == "" {
      var d :| DefaultAt(t.definitions, d) && t.definitions[d].routeId == current;
    }
  }

  lemma CurrentTwin(t: Tables, batchId: string, meaning: Meaning, row: nat)
    requires row < |t.definitions|
    ensures Twin(t, batchId, meaning, row)
      <==> t.definitions[row].batchId == batchId && MeaningAt(t, t.definitions[row].routeId) == meaning
    ensures Twin(t, batchId, meaning, row) ==> Chosen(t, batchId, meaning, t.definitions[row].routeId)
  {}

  lemma NoneTwin(t: Tables, batchId: string, meaning: Meaning, row: nat)
    requires Sound(t) && row < |t.definitions| && !Twin(t, batchId, meaning, row)
    requires forall i :: Twin(t, batchId, meaning, i) ==> t.definitions[i].routeId == t.definitions[row].routeId
    ensures forall i :: !Twin(t, batchId, meaning, i)
  {
    hide MeaningAt, RoutesStored, NoTwins, BatchesBound, NamedRoutes, OneDefault;
  }

  lemma CandidateChosen(t: Tables, batchId: string, meaning: Meaning, d: RouteDefinition)
    requires d in t.definitions && d.batchId == batchId && MeaningAt(t, d.routeId) == meaning
    ensures Chosen(t, batchId, meaning, d.routeId)
  {
    hide MeaningAt;
    var i := RowFound(t.definitions, d);
    assert Twin(t, batchId, meaning, i);
  }

  lemma NextChosen(t: Tables, batchId: string, meaning: Meaning, routeId: string)
    requires forall i :: !Twin(t, batchId, meaning, i)
    requires routeId == RevisionId(BaseId(batchId), MaxRevision(RouteIds(t.definitions), BaseId(batchId) + "-v") + 1)
    requires routeId !in RouteIds(t.definitions)
    ensures Chosen(t, batchId, meaning, routeId)
  {}

  lemma CandidateOwned(definitions: seq<RouteDefinition>, batchId: string, d: RouteDefinition)
    requires d in OwnedBy(definitions, batchId)
    ensures d in definitions && d.batchId == batchId && d.routeId in RouteIds(definitions)
  {
    var i := RowFound(definitions, d);
    IdOfRow(definitions, d.routeId);
  }

  lemma RowFound(definitions: seq<RouteDefinition>, d: RouteDefinition) returns (i: nat)
    requires d in definitions
    ensures i < |definitions| && definitions[i] == d
  {
    i :| 0 <= i < |definitions| && definitions[i] == d;
  }

  // All other routes of the owner were compared, so none means this.
  lemma NoTwinLeft(t: Tables, batchId: string, meaning: Meaning, current: string, revisions: seq<RouteDefinition>)
    requires forall d :: d in revisions <==> d in OwnedBy(t.definitions, batchId)
    requires forall j :: 0 <= j < |revisions| ==>
      revisions[j].routeId == current || MeaningAt(t, revisions[j].routeId) != meaning
    ensures forall i :: Twin(t, batchId, meaning, i) ==> t.definitions[i].routeId == current
  {
    hide MeaningAt, OwnedBy;
    forall i | Twin(t, batchId, meaning, i) ensures t.definitions[i].routeId == current {
      var d := t.definitions[i];
      assert d in OwnedBy(t.definitions, batchId);
      var j :| 0 <= j < |revisions| && revisions[j] == d;
    }
  }

  lemma NoEmptyRoute(t: Tables)
    requires Sound(t)
    ensures "" !in RouteIds(t.definitions)
  {
    hide RoutesStored, NoTwins, BatchesBound, OneDefault, DistinctRoutes;
    forall i | 0 <= i < |t.definitions| ensures RouteIds(t.definitions)[i] != "" {}
  }

  lemma StoredRows(t: Tables, routeId: string)
    requires Sound(t) && routeId in RouteIds(t.definitions)
    ensures RowsOk(NodesAt(t, routeId))
  {
    hide RowsOk, OneDefault, DistinctRoutes, NoTwins, BatchesBound, NamedRoutes;
    var i := SomeRow(t.definitions, routeId);
  }

  lemma IdOfRow(definitions: seq<RouteDefinition>, id: string)
    requires exists i :: 0 <= i < |definitions| && definitions[i].routeId == id
    ensures id in RouteIds(definitions)
  {
    var i :| 0 <= i < |definitions| && definitions[i].routeId == id;
    assert RouteIds(definitions)[i] == id;
  }
}
