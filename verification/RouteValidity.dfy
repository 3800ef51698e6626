// The route check of the administration page: what it accepts, and branches of it that cannot be taken.
module RouteValidity {
  import opened Options
  import opened Routes

  // ---- what a valid route is ----

  predicate Supported(role: string) {
    role == "supplier" || role == "logistics" || role == "warehouse" || role == "supermarket"
  }

  function CountRole(nodes: seq<RouteNode>, role: string): nat {
    if nodes == [] then 0
    else CountRole(nodes[..|nodes| - 1], role) + if nodes[|nodes| - 1].role == role then 1 else 0
  }

  function CountFrom(edges: seq<RouteEdge>, id: string): nat {
    if edges == [] then 0
    else CountFrom(edges[..|edges| - 1], id) + if edges[|edges| - 1].from == id then 1 else 0
  }

  function CountTo(edges: seq<RouteEdge>, id: string): nat {
    if edges == [] then 0
    else CountTo(edges[..|edges| - 1], id) + if edges[|edges| - 1].to == id then 1 else 0
  }

  predicate NodeOk(n: RouteNode) {
    n.nodeId != "" && n.caption != "" && n.role != "" && n.username != "" && Supported(n.role)
  }

  predicate DistinctIds(nodes: seq<RouteNode>) {
    forall i, j :: 0 <= i < j < |nodes| ==> nodes[i].nodeId != nodes[j].nodeId
  }

  predicate ValidNodes(nodes: seq<RouteNode>) {
    && |nodes| >= 2 && DistinctIds(nodes) && (forall i :: 0 <= i < |nodes| ==> NodeOk(nodes[i]))
    && CountRole(nodes, "supplier") == 1 && CountRole(nodes, "supermarket") == 1
  }

  function Key(e: RouteEdge): string {
    e.from + "\U{1f}" + e.to
  }

  predicate EdgeOk(nodes: seq<RouteNode>, e: RouteEdge) {
    e.from in Ids(nodes) && e.to in Ids(nodes) && e.from != e.to
  }

  predicate ValidEdges(nodes: seq<RouteNode>, edges: seq<RouteEdge>) {
    && (forall i :: 0 <= i < |edges| ==> EdgeOk(nodes, edges[i]))
    && forall i, j :: 0 <= i < j < |edges| ==> Key(edges[i]) != Key(edges[j])
  }

  predicate DegreeOk(edges: seq<RouteEdge>, n: RouteNode) {
    && CountTo(edges, n.nodeId) == (if n.role == "supplier" then 0 else 1)
    && CountFrom(edges, n.nodeId) == (if n.role == "supermarket" then 0 else 1)
  }

  predicate Degrees(nodes: seq<RouteNode>, edges: seq<RouteEdge>) {
    forall i :: 0 <= i < |nodes| ==> DegreeOk(edges, nodes[i])
  }

  // s is the whole walk and its step indexes count up from 0.
  ghost predicate InStepOrder(w: Workflow, s: seq<RouteNode>) {
    Complete(w, s) && forall i :: 0 <= i < |s| ==> s[i].stepIndex == i
  }

  ghost predicate ValidRoute(w: Workflow) {
    ValidNodes(w.nodes) && ValidEdges(w.nodes, w.edges) && Degrees(w.nodes, w.edges) && exists s :: InStepOrder(w, s)
  }

  // ---- counting ----

  lemma {:induction false} NoneFrom(edges: seq<RouteEdge>, id: string)
    ensures CountFrom(edges, id) == 0 <==> forall e :: e in edges ==> e.from != id
  {
    if edges != [] {
      var n := |edges| - 1;
      NoneFrom(edges[..n], id);
      assert edges == edges[..n] + [edges[n]];
    }
  }

  lemma {:induction false} NoneTo(edges: seq<RouteEdge>, id: string)
    ensures CountTo(edges, id) == 0 <==> forall e :: e in edges ==> e.to != id
  {
    if edges != [] {
      var n := |edges| - 1;
      NoneTo(edges[..n], id);
      assert edges == edges[..n] + [edges[n]];
    }
  }

  lemma {:induction false} OneTo(edges: seq<RouteEdge>, id: string, i: nat, j: nat)
    requires CountTo(edges, id) <= 1 && i < |edges| && j < |edges| && edges[i].to == id && edges[j].to == id
    ensures i == j
    decreases |edges|
  {
    var n := |edges| - 1;
    if i < n && j < n {
      OneTo(edges[..n], id, i, j);
    } else if i != j {
      NoneTo(edges[..n], id);
    }
  }

  // ---- checking nodes ----

  // The messages of workflow_is_valid; Fine is no message.
  datatype RouteError = Fine | TooSmall | BadIds | NoAccount | BadRole | BadEnds | BadEdge | SameEdge | BadStart
    | BadIncoming | BadOutgoing | HasCycle | BadStep | TwoNext | NoNext | Apart

  // The first i nodes are fine.
  predicate NodesSoFar(nodes: seq<RouteNode>, i: nat) {
    i <= |nodes| && DistinctIds(nodes[..i]) && forall j :: 0 <= j < i ==> NodeOk(nodes[j])
  }

  lemma NodesStep(nodes: seq<RouteNode>, i: nat)
    requires i < |nodes| && NodesSoFar(nodes, i) && NodeOk(nodes[i]) && nodes[i].nodeId !in Ids(nodes[..i])
    ensures NodesSoFar(nodes, i + 1) && Ids(nodes[..i + 1]) == Ids(nodes[..i]) + {nodes[i].nodeId}
  {
    hide NodeOk;
    assert nodes[..i + 1] == nodes[..i] + [nodes[i]];
    forall j | 0 <= j < i ensures nodes[j].nodeId in Ids(nodes[..i]) { assert nodes[..i][j] == nodes[j]; }
  }

  lemma CountStep(nodes: seq<RouteNode>, i: nat, role: string)
    requires i < |nodes|
    ensures CountRole(nodes[..i + 1], role) == CountRole(nodes[..i], role) + if nodes[i].role == role then 1 else 0
  {
    assert nodes[..i + 1][..i] == nodes[..i];
  }

  lemma NodesFail(nodes: seq<RouteNode>, i: nat)
    requires i < |nodes| && (!NodeOk(nodes[i]) || nodes[i].nodeId in Ids(nodes[..i]))
    ensures !ValidNodes(nodes)
  {
    hide NodeOk, CountRole;
    if nodes[i].nodeId in Ids(nodes[..i]) {
      var j :| 0 <= j < i && nodes[..i][j].nodeId == nodes[i].nodeId;
      assert nodes[j].nodeId == nodes[i].nodeId;
    }
  }

  method CheckNodes(nodes: seq<RouteNode>) returns (error: RouteError)
    ensures error == Fine <==> ValidNodes(nodes)
    ensures error !in {HasCycle, TwoNext, NoNext}
  {
    hide ValidNodes, NodesSoFar, CountRole, NodeOk, Ids;
    if |nodes| < 2 {
      SmallFails(nodes);
      return TooSmall;
    }
    var byId: set<string> := {};
    var supplierCount, supermarketCount := 0, 0;
    var i := 0;
    NodesStart(nodes);
    while i < |nodes|
      invariant 0 <= i <= |nodes| && byId == Ids(nodes[..i]) && NodesSoFar(nodes, i)
      invariant supplierCount == CountRole(nodes[..i], "supplier")
      invariant supermarketCount == CountRole(nodes[..i], "supermarket")
    {
      var node := nodes[i];
      NodeOkIs(node);
      if node.nodeId == "" || node.caption == "" || node.role == "" || node.nodeId in byId {
        NodesFail(nodes, i);
        return BadIds;
      }
      if node.username == "" {
        NodesFail(nodes, i);
        return NoAccount;
      }
      if !Supported(node.role) {
        NodesFail(nodes, i);
        return BadRole;
      }
      NodesStep(nodes, i);
      CountStep(nodes, i, "supplier");
      CountStep(nodes, i, "supermarket");
      supplierCount := supplierCount + if node.role == "supplier" then 1 else 0;
      supermarketCount := supermarketCount + if node.role == "supermarket" then 1 else 0;
      byId := byId + {node.nodeId};
      i := i + 1;
    }
    assert nodes[..i] == nodes;
    NodesEnd(nodes);
    if supplierCount != 1 || supermarketCount != 1 {
      return BadEnds;
    }
    return Fine;
  }

  lemma SmallFails(nodes: seq<RouteNode>)
    requires |nodes| < 2
    ensures !ValidNodes(nodes)
  {}

  lemma NodesStart(nodes: seq<RouteNode>)
    ensures NodesSoFar(nodes, 0) && Ids(nodes[..0]) == {}
    ensures CountRole(nodes[..0], "supplier") == 0 && CountRole(nodes[..0], "supermarket") == 0
  {}

  lemma NodesEnd(nodes: seq<RouteNode>)
    requires |nodes| >= 2 && NodesSoFar(nodes, |nodes|)
    ensures ValidNodes(nodes) <==> CountRole(nodes, "supplier") == 1 && CountRole(nodes, "supermarket") == 1
  {
    hide CountRole, NodeOk;
    assert nodes[..|nodes|] == nodes;
  }

  lemma NodeOkIs(n: RouteNode)
    ensures NodeOk(n) <==> n.nodeId != "" && n.caption != "" && n.role != "" && n.username != "" && Supported(n.role)
  {}

  // ---- checking edges ----

  function Get(m: map<string, nat>, id: string): nat {
    if id in m then m[id] else 0
  }

  predicate EdgesSoFar(nodes: seq<RouteNode>, edges: seq<RouteEdge>, i: nat) {
    && i <= |edges| && (forall j :: 0 <= j < i ==> EdgeOk(nodes, edges[j]))
    && forall j, k :: 0 <= j < k < i ==> Key(edges[j]) != Key(edges[k])
  }

  function Keys(edges: seq<RouteEdge>): set<string> {
    set e | e in edges :: Key(e)
  }

  ghost predicate Counted(edges: seq<RouteEdge>, incoming: map<string, nat>, outgoing: map<string, nat>) {
    forall id :: Get(incoming, id) == CountTo(edges, id) && Get(outgoing, id) == CountFrom(edges, id)
  }

  lemma EdgesStep(nodes: seq<RouteNode>, edges: seq<RouteEdge>, i: nat)
    requires i < |edges| && EdgesSoFar(nodes, edges, i) && EdgeOk(nodes, edges[i]) && Key(edges[i]) !in Keys(edges[..i])
    ensures EdgesSoFar(nodes, edges, i + 1) && Keys(edges[..i + 1]) == Keys(edges[..i]) + {Key(edges[i])}
  {
    hide EdgeOk, Key;
    assert edges[..i + 1] == edges[..i] + [edges[i]];
    forall j | 0 <= j < i ensures Key(edges[j]) in Keys(edges[..i]) { assert edges[..i][j] == edges[j]; }
  }

  lemma CountedStep(edges: seq<RouteEdge>, i: nat, incoming: map<string, nat>, outgoing: map<string, nat>)
    requires i < |edges| && Counted(edges[..i], incoming, outgoing)
    ensures var e := edges[i];
      Counted(edges[..i + 1], incoming[e.to := Get(incoming, e.to) + 1], outgoing[e.from := Get(outgoing, e.from) + 1])
  {
    hide CountTo, CountFrom;
    var e := edges[i];
    var incoming', outgoing' := incoming[e.to := Get(incoming, e.to) + 1],
        outgoing[e.from := Get(outgoing, e.from) + 1];
    forall id
      ensures Get(incoming', id) == CountTo(edges[..i + 1], id) && Get(outgoing', id) == CountFrom(edges[..i + 1], id)
    {
      CountEdge(edges, i, id);
      assert Get(incoming, id) == CountTo(edges[..i], id);
    }
  }

  lemma CountEdge(edges: seq<RouteEdge>, i: nat, id: string)
    requires i < |edges|
    ensures CountTo(edges[..i + 1], id) == CountTo(edges[..i], id) + if edges[i].to == id then 1 else 0
    ensures CountFrom(edges[..i + 1], id) == CountFrom(edges[..i], id) + if edges[i].from == id then 1 else 0
  {
    assert edges[..i + 1][..i] == edges[..i];
  }

  lemma EdgesFail(nodes: seq<RouteNode>, edges: seq<RouteEdge>, i: nat)
    requires i < |edges| && (!EdgeOk(nodes, edges[i]) || Key(edges[i]) in Keys(edges[..i]))
    ensures !ValidEdges(nodes, edges)
  {
    hide EdgeOk, Key;
    if Key(edges[i]) in Keys(edges[..i]) {
      var j :| 0 <= j < i && Key(edges[..i][j]) == Key(edges[i]);
      assert Key(edges[j]) == Key(edges[i]);
    }
  }

  method CheckEdges(nodes: seq<RouteNode>, edges: seq<RouteEdge>)
    returns (error: RouteError, incoming: map<string, nat>, outgoing: map<string, nat>)
    ensures error == Fine <==> ValidEdges(nodes, edges)
    ensures error == Fine ==> Counted(edges, incoming, outgoing)
    ensures error !in {HasCycle, TwoNext, NoNext}
  {
    hide EdgesSoFar, Counted, EdgeOk, Key, Keys;
    incoming, outgoing := map[], map[];
    var uniqueEdges: set<string> := {};
    var i := 0;
    EdgesStart(nodes, edges);
    while i < |edges|
      invariant 0 <= i <= |edges| && EdgesSoFar(nodes, edges, i) && uniqueEdges == Keys(edges[..i])
      invariant Counted(edges[..i], incoming, outgoing)
    {
      var edge := edges[i];
      EdgeOkIs(nodes, edge);
      if edge.from !in Ids(nodes) || edge.to !in Ids(nodes) || edge.from == edge.to {
        EdgesFail(nodes, edges, i);
        return BadEdge, incoming, outgoing;
      }
      var edgeKey := Key(edge);
      if edgeKey in uniqueEdges {
        EdgesFail(nodes, edges, i);
        return SameEdge, incoming, outgoing;
      }
      EdgesStep(nodes, edges, i);
      CountedStep(edges, i, incoming, outgoing);
      uniqueEdges := uniqueEdges + {edgeKey};
      outgoing := outgoing[edge.from := Get(outgoing, edge.from) + 1];
      incoming := incoming[edge.to := Get(incoming, edge.to) + 1];
      i := i + 1;
    }
    assert edges[..i] == edges;
    EdgesEnd(nodes, edges);
    return Fine, incoming, outgoing;
  }

  lemma EdgesStart(nodes: seq<RouteNode>, edges: seq<RouteEdge>)
    ensures EdgesSoFar(nodes, edges, 0) && Keys(edges[..0]) == {} && Counted(edges[..0], map[], map[])
  {}

  lemma EdgesEnd(nodes: seq<RouteNode>, edges: seq<RouteEdge>)
    requires EdgesSoFar(nodes, edges, |edges|)
    ensures ValidEdges(nodes, edges)
  {}

  lemma EdgeOkIs(nodes: seq<RouteNode>, e: RouteEdge)
    ensures EdgeOk(nodes, e) <==> e.from in Ids(nodes) && e.to in Ids(nodes) && e.from != e.to
  {}

  // ---- checking degrees ----

  lemma RoleUnique(nodes: seq<RouteNode>, role: string, i: nat, j: nat)
    requires CountRole(nodes, role) <= 1 && i < |nodes| && j < |nodes| && nodes[i].role == role && nodes[j].role == role
    ensures i == j
    decreases |nodes|
  {
    var n := |nodes| - 1;
    if i < n && j < n {
      RoleUnique(nodes[..n], role, i, j);
    } else if i != j {
      RoleSome(nodes[..n], role, if i < n then i else j);
    }
  }

  lemma {:induction false} RoleSome(nodes: seq<RouteNode>, role: string, i: nat)
    requires i < |nodes| && nodes[i].role == role
    ensures CountRole(nodes, role) >= 1
    decreases |nodes|
  {
    var n := |nodes| - 1;
    if i < n { RoleSome(nodes[..n], role, i); }
  }

  lemma {:induction false} RoleFound(nodes: seq<RouteNode>, role: string) returns (i: nat)
    requires CountRole(nodes, role) >= 1
    ensures i < |nodes| && nodes[i].role == role
  {
    var n := |nodes| - 1;
    if nodes[n].role == role { i := n; } else { i := RoleFound(nodes[..n], role); }
  }

  // The node with a role, when there is exactly one.
  method FindRole(nodes: seq<RouteNode>, role: string) returns (found: Option<RouteNode>)
    ensures found.None? <==> forall i :: 0 <= i < |nodes| ==> nodes[i].role != role
    ensures found.Some? ==> found.value in nodes && found.value.role == role
  {
    found := None;
    var i := 0;
    while i < |nodes|
      invariant 0 <= i <= |nodes|
      invariant found.None? <==> forall j :: 0 <= j < i ==> nodes[j].role != role
      invariant found.Some? ==> found.value in nodes && found.value.role == role
    {
      if nodes[i].role == role {
        found := Some(nodes[i]);
      }
      i := i + 1;
    }
  }

  method CheckDegrees(nodes: seq<RouteNode>, edges: seq<RouteEdge>, incoming: map<string, nat>,
      outgoing: map<string, nat>, supplier: RouteNode, supermarket: RouteNode) returns (error: RouteError)
    requires ValidNodes(nodes) && Counted(edges, incoming, outgoing)
    requires supplier in nodes && supplier.role == "supplier" && supermarket in nodes
    requires supermarket.role == "supermarket"
    ensures error == Fine <==> Degrees(nodes, edges)
    ensures error !in {HasCycle, TwoNext, NoNext}
  {
    hide ValidNodes, Counted;
    CountedAt(edges, incoming, outgoing, supplier.nodeId);
    CountedAt(edges, incoming, outgoing, supermarket.nodeId);
    if Get(incoming, supplier.nodeId) != 0 || Get(outgoing, supermarket.nodeId) != 0 {
      DegreesAt(nodes, edges, supplier);
      DegreesAt(nodes, edges, supermarket);
      return BadStart;
    }
    var i := 0;
    while i < |nodes|
      invariant 0 <= i <= |nodes| && forall j :: 0 <= j < i ==> DegreeOk(edges, nodes[j])
    {
      var node := nodes[i];
      CountedAt(edges, incoming, outgoing, node.nodeId);
      if node.role != "supplier" && Get(incoming, node.nodeId) != 1 {
        return BadIncoming;
      }
      if node.role != "supermarket" && Get(outgoing, node.nodeId) != 1 {
        return BadOutgoing;
      }
      TheRole(nodes, node, supplier, supermarket);
      i := i + 1;
    }
    return Fine;
  }

  lemma CountedAt(edges: seq<RouteEdge>, incoming: map<string, nat>, outgoing: map<string, nat>, id: string)
    requires Counted(edges, incoming, outgoing)
    ensures Get(incoming, id) == CountTo(edges, id) && Get(outgoing, id) == CountFrom(edges, id)
  {}

  lemma DegreesAt(nodes: seq<RouteNode>, edges: seq<RouteEdge>, n: RouteNode)
    requires n in nodes
    ensures Degrees(nodes, edges) ==> DegreeOk(edges, n)
  {}

  // The supplier and the supermarket are the only nodes with their roles.
  lemma TheRole(nodes: seq<RouteNode>, n: RouteNode, supplier: RouteNode, supermarket: RouteNode)
    requires ValidNodes(nodes) && n in nodes
    requires supplier in nodes && supplier.role == "supplier" && supermarket in nodes
    requires supermarket.role == "supermarket"
    ensures (n.role == "supplier" ==> n == supplier) && (n.role == "supermarket" ==> n == supermarket)
  {
    hide CountRole, NodeOk, DistinctIds;
    var i :| 0 <= i < |nodes| && nodes[i] == n;
    var j :| 0 <= j < |nodes| && nodes[j] == supplier;
    var k :| 0 <= k < |nodes| && nodes[k] == supermarket;
    if n.role == "supplier" { RoleUnique(nodes, "supplier", i, j); }
    if n.role == "supermarket" { RoleUnique(nodes, "supermarket", i, k); }
  }
}
