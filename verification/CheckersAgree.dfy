// Every route that the administration page accepts is the same path for all the programs that walk it.
module CheckersAgree {
  import opened Options
  import opened Routes
  import opened RouteValidity
  import opened RouteCheck
  import opened RouteLinear
  import opened RouteAgreement

  // ---- an accepted route has one edge fewer than nodes ----

  function SumFrom(nodes: seq<RouteNode>, edges: seq<RouteEdge>): nat {
    if nodes == [] then 0
    else SumFrom(nodes[..|nodes| - 1], edges) + CountFrom(edges, nodes[|nodes| - 1].nodeId)
  }

  lemma DistinctPrefix(nodes: seq<RouteNode>)
    requires nodes != [] && DistinctIds(nodes)
    ensures var n := |nodes| - 1;
      && DistinctIds(nodes[..n]) && nodes[n].nodeId !in Ids(nodes[..n])
      && Ids(nodes) == Ids(nodes[..n]) + {nodes[n].nodeId}
  {
    var n := |nodes| - 1;
    assert nodes == nodes[..n] + [nodes[n]];
    IdsStep(nodes[..n], nodes[n]);
  }

  lemma {:induction false} SumStep(nodes: seq<RouteNode>, edges: seq<RouteEdge>, i: nat)
    requires i < |edges| && DistinctIds(nodes)
    ensures SumFrom(nodes, edges[..i + 1]) == SumFrom(nodes, edges[..i]) + if edges[i].from in Ids(nodes) then 1 else 0
    decreases |nodes|
  {
    hide CountFrom, DistinctIds, Ids;
    if nodes != [] {
      DistinctPrefix(nodes);
      SumStep(nodes[..|nodes| - 1], edges, i);
      CountEdge(edges, i, nodes[|nodes| - 1].nodeId);
    } else {
      IdsEmpty();
    }
  }

  lemma IdsEmpty()
    ensures Ids([]) == {}
  {}

  lemma {:induction false} SumNone(nodes: seq<RouteNode>)
    ensures SumFrom(nodes, []) == 0
  {
    if nodes != [] { SumNone(nodes[..|nodes| - 1]); }
  }

  lemma {:induction false} SumAll(nodes: seq<RouteNode>, edges: seq<RouteEdge>, i: nat)
    requires i <= |edges| && DistinctIds(nodes) && AllEdgesOk(nodes, edges)
    ensures SumFrom(nodes, edges[..i]) == i
    decreases i
  {
    hide DistinctIds, SumFrom;
    if i == 0 {
      SumNone(nodes);
      assert edges[..0] == [];
    } else {
      SumAll(nodes, edges, i - 1);
      SumStep(nodes, edges, i - 1);
      assert EdgeOk(nodes, edges[i - 1]);
    }
  }

  lemma {:induction false} SumDegrees(nodes: seq<RouteNode>, edges: seq<RouteEdge>)
    requires Degrees(nodes, edges)
    ensures SumFrom(nodes, edges) == |nodes| - CountRole(nodes, "supermarket")
  {
    hide CountFrom, CountTo;
    if nodes != [] {
      var n := |nodes| - 1;
      SumDegrees(nodes[..n], edges);
      assert DegreeOk(edges, nodes[n]);
    }
  }

  lemma EdgeCount(w: Workflow)
    requires Checked(w)
    ensures |w.edges| + 1 == |w.nodes| && AllEdgesOk(w.nodes, w.edges)
  {
    hide EdgeOk, NodeOk, DegreeOk, SumFrom, DistinctIds, Key, CountRole;
    SumAll(w.nodes, w.edges, |w.edges|);
    assert w.edges[..|w.edges|] == w.edges;
    SumDegrees(w.nodes, w.edges);
  }

  // ---- it is linear ----

  lemma CheckedSlim(w: Workflow)
    requires Checked(w)
    ensures Slim(w.nodes, w.edges) && IdsNamed(w.nodes) && DistinctIds(w.nodes) && |w.nodes| >= 2
  {
    hide Checked, CountFrom, CountTo;
    CheckedNodes(w);
    forall i | 0 <= i < |w.edges|
      ensures EdgeOk(w.nodes, w.edges[i]) && CountFrom(w.edges, w.edges[i].from) <= 1
      ensures CountTo(w.edges, w.edges[i].to) <= 1
    {
      EdgeSlim(w, w.edges[i]);
    }
    forall i | 0 <= i < |w.nodes| ensures w.nodes[i].nodeId != "" { NodeDegrees(w, w.nodes[i]); }
  }

  lemma EdgeSlim(w: Workflow, e: RouteEdge)
    requires Checked(w) && e in w.edges
    ensures EdgeOk(w.nodes, e) && CountFrom(w.edges, e.from) <= 1 && CountTo(w.edges, e.to) <= 1
  {
    hide Checked, CountFrom, CountTo;
    EdgeAt(w, e);
    var m :| m in w.nodes && m.nodeId == e.from;
    var n :| n in w.nodes && n.nodeId == e.to;
    NodeDegrees(w, m);
    NodeDegrees(w, n);
  }

  // The walk goes from the supplier to the supermarket.
  lemma WalkEndpoints(w: Workflow, s: seq<RouteNode>, supplier: RouteNode, supermarket: RouteNode)
    requires Checked(w) && InStepOrder(w, s)
    requires supplier in w.nodes && supplier.role == "supplier" && supermarket in w.nodes
    requires supermarket.role == "supermarket"
    ensures EndsOk(w, s) && s[0] == supplier && s[|s| - 1] == supermarket
  {
    hide Checked, FirstNode, Successor;
    FirstIsSupplier(w, supplier, supermarket);
    WalkKnown(w, s, |s| - 1);
    var last := s[|s| - 1];
    SuccessorOf(w, last);
    if last.nodeId != supermarket.nodeId { NotSupermarket(w, last, supermarket); }
    SameId(w, last, supermarket);
  }

  lemma TheEnds(w: Workflow) returns (supplier: RouteNode, supermarket: RouteNode)
    requires Checked(w)
    ensures FirstOfRole(w.nodes, "supplier") == Some(supplier)
    ensures FirstOfRole(w.nodes, "supermarket") == Some(supermarket)
  {
    hide ValidEdges, Degrees, ValidNodes;
    RolesPresent(w.nodes);
    supplier, supermarket := FirstOfRole(w.nodes, "supplier").value, FirstOfRole(w.nodes, "supermarket").value;
  }

  lemma ValidIsLinear(w: Workflow)
    requires ValidRoute(w)
    ensures LinearRoute(w)
  {
    hide ValidNodes, ValidEdges, Degrees, InStepOrder, Slim, IdsNamed, DistinctIds;
    var s :| InStepOrder(w, s);
    var supplier, supermarket := TheEnds(w);
    EdgeCount(w);
    CheckedSlim(w);
    WalkEndpoints(w, s, supplier, supermarket);
  }

  // ---- the database finds the same path ----

  lemma {:induction false} AllKnown(nodes: seq<RouteNode>, edges: seq<RouteEdge>)
    requires AllEdgesOk(nodes, edges)
    ensures KnownEdges(nodes, edges) == edges
  {
    hide Ids;
    if edges != [] {
      var n := |edges| - 1;
      AllKnown(nodes, edges[..n]);
      assert EdgeOk(nodes, edges[n]);
      assert edges == edges[..n] + [edges[n]];
    }
  }

  function IdPath(s: seq<RouteNode>): (p: seq<string>)
    ensures |p| == |s| && forall i :: 0 <= i < |s| ==> p[i] == s[i].nodeId
    ensures Members(p) == Ids(s)
  {
    var p := seq(|s|, i requires 0 <= i < |s| => s[i].nodeId);
    assert forall x :: x in p ==> x in Ids(s);
    assert forall i :: 0 <= i < |s| ==> p[i] in p;
    p
  }

  lemma PathReaches(w: Workflow, s: seq<RouteNode>)
    requires Ordered(w, s) && AllEdgesOk(w.nodes, w.edges)
    requires forall n :: n in s ==>
      (FirstTarget(w.edges, n.nodeId) == match Successor(w, n.nodeId) case None => None case Some(m) => Some(m.nodeId))
    ensures Reaches(w.nodes, w.edges, s[0].nodeId, s[|s| - 1].nodeId, IdPath(s))
  {
    hide FirstTarget, FirstNode, Successor, IdPath, KnownEdges, AllEdgesOk;
    AllKnown(w.nodes, w.edges);
    var p := IdPath(s);
    forall i, j | 0 <= i < j < |p| ensures p[i] != p[j] { OrderedDistinct(w, s, i, j); }
    forall i | 0 <= i < |p| - 1 ensures p[i] != p[|p| - 1] && KnownTarget(w.nodes, w.edges, p[i]) == Some(p[i + 1]) {
      WalkLink(w, s, i);
    }
  }

  lemma SameTargets(w: Workflow, s: seq<RouteNode>)
    requires Checked(w) && Ordered(w, s)
    ensures forall n :: n in s ==>
      FirstTarget(w.edges, n.nodeId) == match Successor(w, n.nodeId) case None => None case Some(m) => Some(m.nodeId)
  {
    hide Checked, Successor, FirstTarget, FirstNode;
    forall i | 0 <= i < |s|
      ensures FirstTarget(w.edges, s[i].nodeId)
        == match Successor(w, s[i].nodeId) case None => None case Some(m) => Some(m.nodeId)
    {
      WalkKnown(w, s, i);
      SuccessorOf(w, s[i]);
    }
  }

  lemma ValidIsReached(w: Workflow, s: seq<RouteNode>, supplier: RouteNode, supermarket: RouteNode)
    requires Checked(w) && InStepOrder(w, s)
    requires FirstOfRole(w.nodes, "supplier") == Some(supplier)
    requires FirstOfRole(w.nodes, "supermarket") == Some(supermarket)
    ensures Reaches(w.nodes, w.edges, supplier.nodeId, supermarket.nodeId, IdPath(s)) && w.edges != []
    ensures Members(IdPath(s)) == Ids(w.nodes)
  {
    hide Checked, Walk, Successor, FirstTarget, FirstNode, IdPath, Reaches, AllEdgesOk;
    EdgeCount(w);
    CheckedSlim(w);
    SameTargets(w, s);
    PathReaches(w, s);
    WalkEndpoints(w, s, supplier, supermarket);
    CompleteIds(w, s);
  }

  lemma CompleteIds(w: Workflow, s: seq<RouteNode>)
    requires Complete(w, s) && DistinctIds(w.nodes)
    ensures Ids(s) == Ids(w.nodes)
  {
    hide Walk, Next, DistinctIds, Ids;
    OrderedIds(w, s);
    IdsCount(w.nodes);
    SetFull(Ids(s), Ids(w.nodes));
  }

  lemma OneOrder(w: Workflow, s: seq<RouteNode>, t: seq<RouteNode>)
    requires InStepOrder(w, s) && Complete(w, t)
    ensures s == t
  {
    hide Walk, Next;
    OrderedUnique(w, s, t);
  }

  lemma WalksMeet(w: Workflow, ordered: seq<RouteNode>, connected: set<string>)
    requires ValidRoute(w) && Complete(w, ordered)
    requires var supplier, supermarket := FirstOfRole(w.nodes, "supplier"), FirstOfRole(w.nodes, "supermarket");
      supplier.Some? && supermarket.Some? && w.edges != [] ==>
        forall p :: Reaches(w.nodes, w.edges, supplier.value.nodeId, supermarket.value.nodeId, p) ==>
          connected == Members(p)
    ensures EndsOk(w, ordered) && connected == Ids(ordered) == Ids(w.nodes)
  {
    hide ValidNodes, ValidEdges, Degrees, InStepOrder, Complete, Reaches, IdPath, Members, Ids;
    var s :| InStepOrder(w, s);
    OneOrder(w, s, ordered);
    var supplier, supermarket := TheEnds(w);
    ValidIsReached(w, s, supplier, supermarket);
    WalkEndpoints(w, s, supplier, supermarket);
    assert Members(IdPath(s)) == Ids(s);
  }

  // When the administration page accepts a route, the other three walks succeed, and all on the same path through
  // every node in step order.
  method AllWalks(nodes: seq<RouteNode>, edges: seq<RouteEdge>)
    returns (valid: bool, ordered: seq<RouteNode>, linear: bool, connected: set<string>)
    ensures valid <==> ValidRoute(Workflow("", nodes, edges))
    ensures valid ==> EndsOk(Workflow("", nodes, edges), ordered) && linear && connected == Ids(ordered) == Ids(nodes)
    ensures linear ==> EndsOk(Workflow("", nodes, edges), ordered)
  {
    hide ValidRoute, Complete, Reaches, Members, Ids, EndsOk;
    ghost var w := Workflow("", nodes, edges);
    var error, ok, message;
    valid, error := WorkflowIsValid(nodes, edges);
    ok, ordered, message := OrderedWorkflowNodes(Workflow("", nodes, edges));
    linear := RouteIsCompleteLinear(nodes, edges);
    connected := SupplierRoutePathNodeIds(nodes, edges);
    if linear { LinearOrder(w, ordered, ok); }
    if valid {
      ValidIsLinear(w);
      LinearOrder(w, ordered, ok);
      WalksMeet(w, ordered, connected);
    }
  }

  lemma LinearOrder(w: Workflow, ordered: seq<RouteNode>, ok: bool)
    requires LinearRoute(w) && (ok <==> exists s :: Complete(w, s)) && (ok ==> Complete(w, ordered))
    ensures ok && EndsOk(w, ordered)
  {
    hide Complete, Slim, IdsNamed, DistinctIds;
    var s :| EndsOk(w, s);
    assert Complete(w, s) by { EndsComplete(w, s); }
    OneOrder(w, s, ordered);
  }

  lemma EndsComplete(w: Workflow, s: seq<RouteNode>)
    requires EndsOk(w, s)
    ensures Complete(w, s)
  {}
}
