// The route checkers of three programs agree on every route that the administration page accepts.
module RouteAgreement {
  import opened Options
  import opened Routes
  import opened RouteValidity
  import opened RouteCheck
  import opened RouteLinear

  // ---- the snapshot service ----

  method RouteIsCompleteLinear(nodes: seq<RouteNode>, edges: seq<RouteEdge>) returns (ok: bool)
    ensures ok <==> LinearRoute(Workflow("", nodes, edges))
  {
    hide IdsNamed, DistinctIds, Slim, EdgesRead, EndsOk, InStepOrder, FirstNode;
    ghost var w := Workflow("", nodes, edges);
    if |nodes| < 2 || |edges| + 1 != |nodes| {
      return false;
    }
    var zero;
    ok, zero := ReadNodes(nodes);
    if !ok {
      return false;
    }
    var incoming, outgoing;
    ok, incoming, outgoing := ReadEdges(nodes, edges, zero);
    if !ok {
      return false;
    }
    var reached := set id | id in incoming && incoming[id] != 0;
    var first := OnlyWithout(nodes, reached);
    FirstMeaning(w, incoming, outgoing, reached, first);
    if first.None? || first.value.role != "supplier" {
      return false;
    }
    ghost var path;
    OutgoingMeaning(w, incoming, outgoing);
    ok, path := WalkLinear(Workflow("", nodes, edges), outgoing, first.value);
    if !ok {
      NoEnds(w);
      return false;
    }
    var last := OnlyWithout(nodes, outgoing.Keys);
    LastMeaning(w, incoming, outgoing, path, last);
    PathStarts(w, path, first.value);
    return last.Some? && last.value.role == "supermarket";
  }

  lemma ReadCount(w: Workflow, incoming: map<string, nat>, outgoing: map<string, string>, n: RouteNode)
    requires EdgesRead(w.nodes, w.edges, incoming, outgoing) && n in w.nodes
    ensures n.nodeId in incoming && incoming[n.nodeId] == CountTo(w.edges, n.nodeId)
    ensures n.nodeId in outgoing <==> CountFrom(w.edges, n.nodeId) != 0
  {
    hide CountTo, CountFrom, FirstTarget, AllEdgesOk;
  }

  // The node that nothing leads to is where the walk starts; without exactly one, no route is complete.
  lemma FirstMeaning(w: Workflow, incoming: map<string, nat>, outgoing: map<string, string>, reached: set<string>,
      first: Option<RouteNode>)
    requires EdgesRead(w.nodes, w.edges, incoming, outgoing) && DistinctIds(w.nodes) && w.nodes != []
    requires reached == set id | id in incoming && incoming[id] != 0
    requires first.Some? ==> first.value in w.nodes && first.value.nodeId !in reached
    requires first.Some? ==>
      forall i, j :: 0 <= i < j < |w.nodes| && w.nodes[i].nodeId !in reached ==> w.nodes[j].nodeId in reached
    requires first.None? ==>
      || (forall i :: 0 <= i < |w.nodes| ==> w.nodes[i].nodeId in reached)
      || exists i, j :: 0 <= i < j < |w.nodes| && w.nodes[i].nodeId !in reached && w.nodes[j].nodeId !in reached
    ensures first.Some? ==> FirstNode(w) == first
    ensures first.None? || first.value.role != "supplier" ==> !LinearRoute(w)
  {
    hide EdgesRead, CountTo, CountFrom, FirstTarget, Slim, IdsNamed, FirstNode;
    forall n | n in w.nodes ensures n.nodeId in reached <==> CountTo(w.edges, n.nodeId) != 0 {
      ReadCount(w, incoming, outgoing, n);
    }
    if first.Some? { FreeIsFirst(w, first.value); }
    forall s | EndsOk(w, s) ensures first.Some? && first.value == s[0] {
      forall n | n in w.nodes ensures CountTo(w.edges, n.nodeId) == 0 <==> n == s[0] { OnlyFirst(w, s, n); }
      WalkKnown(w, s, 0);
      if first.None? { OneOnly(w.nodes, reached, s[0]); }
    }
  }

  // Exactly one node is outside ids.
  lemma OneOnly(nodes: seq<RouteNode>, ids: set<string>, n: RouteNode)
    requires DistinctIds(nodes) && n in nodes && forall m :: m in nodes ==> (m.nodeId !in ids <==> m == n)
    ensures !forall i :: 0 <= i < |nodes| ==> nodes[i].nodeId in ids
    ensures !exists i, j :: 0 <= i < j < |nodes| && nodes[i].nodeId !in ids && nodes[j].nodeId !in ids
  {
    var k :| 0 <= k < |nodes| && nodes[k] == n;
    assert nodes[k].nodeId !in ids;
  }

  lemma FreeIsFirst(w: Workflow, n: RouteNode)
    requires n in w.nodes && CountTo(w.edges, n.nodeId) == 0
    requires forall i, j :: 0 <= i < j < |w.nodes| && CountTo(w.edges, w.nodes[i].nodeId) == 0 ==>
      CountTo(w.edges, w.nodes[j].nodeId) != 0
    ensures FirstNode(w) == Some(n)
  {
    hide CountTo;
    NoneTo(w.edges, n.nodeId);
    assert !HasIncoming(w.edges, n.nodeId);
    var m := FirstNode(w).value;
    NoneTo(w.edges, m.nodeId);
    var i :| 0 <= i < |w.nodes| && w.nodes[i] == n;
    var j :| 0 <= j < |w.nodes| && w.nodes[j] == m;
  }

  lemma OutgoingMeaning(w: Workflow, incoming: map<string, nat>, outgoing: map<string, string>)
    requires EdgesRead(w.nodes, w.edges, incoming, outgoing)
    ensures forall id :: id in outgoing <==> FirstTarget(w.edges, id).Some?
    ensures forall id :: id in outgoing ==> FirstTarget(w.edges, id).value == outgoing[id]
  {
    hide CountTo, CountFrom, AllEdgesOk;
    forall id ensures id in outgoing <==> FirstTarget(w.edges, id).Some? { NoneFrom(w.edges, id); }
  }

  lemma NoEnds(w: Workflow)
    requires !exists s :: InStepOrder(w, s)
    ensures !LinearRoute(w)
  {
    hide InStepOrder, Slim, IdsNamed, DistinctIds;
  }

  lemma PathStarts(w: Workflow, path: seq<RouteNode>, first: RouteNode)
    requires InStepOrder(w, path) && FirstNode(w) == Some(first)
    ensures path != [] && path[0] == first
  {
    hide FirstNode;
  }

  // The node that nothing follows is where the walk ends.
  lemma LastMeaning(w: Workflow, incoming: map<string, nat>, outgoing: map<string, string>, path: seq<RouteNode>,
      last: Option<RouteNode>)
    requires EdgesRead(w.nodes, w.edges, incoming, outgoing) && DistinctIds(w.nodes) && Slim(w.nodes, w.edges)
    requires InStepOrder(w, path)
    requires last.Some? ==> last.value in w.nodes && last.value.nodeId !in outgoing.Keys
    requires last.None? ==>
      || (forall i :: 0 <= i < |w.nodes| ==> w.nodes[i].nodeId in outgoing.Keys)
      || exists i, j ::
        0 <= i < j < |w.nodes| && w.nodes[i].nodeId !in outgoing.Keys
        && w.nodes[j].nodeId !in outgoing.Keys
    ensures path != [] && last == Some(path[|path| - 1])
    ensures EndsOk(w, path) <==> path[0].role == "supplier" && path[|path| - 1].role == "supermarket"
    ensures forall s :: EndsOk(w, s) ==> s == path
  {
    hide EdgesRead, CountTo, CountFrom, Slim, FirstNode, Successor;
    var end := path[|path| - 1];
    forall n | n in w.nodes ensures n.nodeId !in outgoing.Keys <==> n == end {
      ReadCount(w, incoming, outgoing, n);
      OnlyLast(w, path, n);
    }
    WalkKnown(w, path, |path| - 1);
    if last.None? { OneOnly(w.nodes, outgoing.Keys, end); }
    forall s | EndsOk(w, s) ensures s == path { OrderedUnique(w, s, path); }
  }

  // ---- the database's path of connected nodes ----

  function KnownEdges(nodes: seq<RouteNode>, edges: seq<RouteEdge>): seq<RouteEdge> {
    if edges == [] then []
    else
      var rest, e := KnownEdges(nodes, edges[..|edges| - 1]), edges[|edges| - 1];
      if e.from in Ids(nodes) && e.to in Ids(nodes) then rest + [e] else rest
  }

  // Where the first edge between known nodes leads.
  function KnownTarget(nodes: seq<RouteNode>, edges: seq<RouteEdge>, id: string): Option<string> {
    FirstTarget(KnownEdges(nodes, edges), id)
  }

  function FirstOfRole(nodes: seq<RouteNode>, role: string): (n: Option<RouteNode>)
    ensures n.Some? ==> n.value in nodes && n.value.role == role
    ensures n.None? ==> forall m :: m in nodes ==> m.role != role
  {
    if nodes == [] then None else if nodes[0].role == role then Some(nodes[0]) else FirstOfRole(nodes[1..], role)
  }

  // p follows first known edges from start, without repeating an id or passing the goal.
  ghost predicate Follows(nodes: seq<RouteNode>, edges: seq<RouteEdge>, start: string, goal: string, p: seq<string>) {
    && (p != [] ==> p[0] == start)
    && (forall i :: 0 <= i < |p| - 1 ==> p[i] != goal && KnownTarget(nodes, edges, p[i]) == Some(p[i + 1]))
    && forall i, j :: 0 <= i < j < |p| ==> p[i] != p[j]
  }

  ghost predicate Reaches(nodes: seq<RouteNode>, edges: seq<RouteEdge>, start: string, goal: string, p: seq<string>) {
    p != [] && Follows(nodes, edges, start, goal, p) && p[|p| - 1] == goal
  }

  function Members(p: seq<string>): set<string> {
    set x | x in p
  }

  lemma {:induction false} FollowsSame(nodes: seq<RouteNode>, edges: seq<RouteEdge>, start: string, goal: string,
      p: seq<string>, q: seq<string>, i: nat)
    requires Follows(nodes, edges, start, goal, p) && Follows(nodes, edges, start, goal, q) && i < |p| && i < |q|
    ensures p[i] == q[i]
    decreases i
  {
    hide KnownTarget;
    if i > 0 {
      FollowsSame(nodes, edges, start, goal, p, q, i - 1);
      assert KnownTarget(nodes, edges, p[i - 1]) == Some(p[i - 1 + 1]);
      assert KnownTarget(nodes, edges, q[i - 1]) == Some(q[i - 1 + 1]);
    }
  }

  // A way that stops elsewhere, or comes back, leaves no way to the goal.
  lemma Blocked(nodes: seq<RouteNode>, edges: seq<RouteEdge>, start: string, goal: string, q: seq<string>,
      p: seq<string>)
    requires q != [] && Follows(nodes, edges, start, goal, q) && goal !in q
    requires var t := KnownTarget(nodes, edges, q[|q| - 1]); t == None || t.value in q
    ensures !Reaches(nodes, edges, start, goal, p)
  {
    hide KnownTarget;
    if Reaches(nodes, edges, start, goal, p) {
      if |p| <= |q| {
        FollowsSame(nodes, edges, start, goal, p, q, |p| - 1);
      } else {
        FollowsSame(nodes, edges, start, goal, p, q, |q| - 1);
        assert KnownTarget(nodes, edges, p[|q| - 1]) == Some(p[|q| - 1 + 1]);
        var i :| 0 <= i < |q| && q[i] == p[|q|];
        FollowsSame(nodes, edges, start, goal, p, q, i);
      }
    }
  }

  lemma ReachesUnique(nodes: seq<RouteNode>, edges: seq<RouteEdge>, start: string, goal: string, p: seq<string>,
      q: seq<string>)
    requires Reaches(nodes, edges, start, goal, p) && Reaches(nodes, edges, start, goal, q)
    ensures p == q
  {
    hide KnownTarget;
    var n := if |p| < |q| then |p| else |q|;
    FollowsSame(nodes, edges, start, goal, p, q, n - 1);
    forall i | 0 <= i < n ensures p[i] == q[i] { FollowsSame(nodes, edges, start, goal, p, q, i); }
  }

  // The outgoing map keeps the first known edge of every node.
  ghost predicate Outgoing(nodes: seq<RouteNode>, edges: seq<RouteEdge>, outgoing: map<string, string>) {
    && (forall id :: id in outgoing <==> KnownTarget(nodes, edges, id).Some?)
    && forall id :: id in outgoing ==> KnownTarget(nodes, edges, id) == Some(outgoing[id])
  }

  lemma OutgoingStep(nodes: seq<RouteNode>, edges: seq<RouteEdge>, i: nat, outgoing: map<string, string>)
    requires i < |edges| && Outgoing(nodes, edges[..i], outgoing)
    ensures var e := edges[i];
      Outgoing(nodes, edges[..i + 1],
        if e.from !in Ids(nodes) || e.to !in Ids(nodes) || e.from in outgoing then outgoing
        else outgoing[e.from := e.to])
  {
    hide FirstTarget, Ids;
    var e := edges[i];
    assert edges[..i + 1][..i] == edges[..i];
    var known := KnownEdges(nodes, edges[..i]);
    if e.from in Ids(nodes) && e.to in Ids(nodes) {
      var all := known + [e];
      assert KnownEdges(nodes, edges[..i + 1]) == all;
      forall id ensures FirstTarget(all, id)
        == if FirstTarget(known, id).Some? then FirstTarget(known, id) else if e.from == id then Some(e.to) else None
      {
        FirstTargetStep(all, |known|, id);
        assert all[..|known| + 1] == all && all[..|known|] == known;
      }
    }
  }

  // The ids on the way from the supplier to the supermarket, or none.
  method SupplierRoutePathNodeIds(nodes: seq<RouteNode>, edges: seq<RouteEdge>) returns (connected: set<string>)
    ensures var supplier, supermarket := FirstOfRole(nodes, "supplier"), FirstOfRole(nodes, "supermarket");
      if supplier.Some? && supermarket.Some? && edges != []
      then
        && (forall p ::
         Reaches(nodes, edges, supplier.value.nodeId, supermarket.value.nodeId, p) ==> connected == Members(p))
        && (connected == {} <==> !exists p :: Reaches(nodes, edges, supplier.value.nodeId, supermarket.value.nodeId, p))
      else connected == {}
  {
    hide Outgoing, KnownTarget, Reaches, Follows, Ids;
    var supplier, supermarket := FirstOfRole(nodes, "supplier"), FirstOfRole(nodes, "supermarket");
    var outgoing: map<string, string> := map[];
    var i := 0;
    OutgoingStart(nodes, edges);
    while i < |edges|
      invariant 0 <= i <= |edges| && Outgoing(nodes, edges[..i], outgoing)
    {
      var edge := edges[i];
      OutgoingStep(nodes, edges, i, outgoing);
      if edge.from in Ids(nodes) && edge.to in Ids(nodes) && edge.from !in outgoing {
        outgoing := outgoing[edge.from := edge.to];
      }
      i := i + 1;
    }
    assert edges[..i] == edges;
    if supplier.None? || supermarket.None? || edges == [] {
      return {};
    }
    connected := FollowPath(nodes, edges, outgoing, supplier.value, supermarket.value);
  }

  lemma OutgoingStart(nodes: seq<RouteNode>, edges: seq<RouteEdge>)
    ensures Outgoing(nodes, edges[..0], map[])
  {}

  method FollowPath(nodes: seq<RouteNode>, edges: seq<RouteEdge>, outgoing: map<string, string>, supplier: RouteNode,
      supermarket: RouteNode) returns (connected: set<string>)
    requires Outgoing(nodes, edges, outgoing) && supplier in nodes
    ensures forall p :: Reaches(nodes, edges, supplier.nodeId, supermarket.nodeId, p) ==> connected == Members(p)
    ensures connected == {} <==> !exists p :: Reaches(nodes, edges, supplier.nodeId, supermarket.nodeId, p)
  {
    hide Outgoing, KnownTarget, Reaches, Follows, Ids;
    var goal := supermarket.nodeId;
    connected := {};
    var current := supplier.nodeId;
    ghost var q: seq<string> := [];
    FollowStart(nodes, edges, supplier, goal);
    while current !in connected
      invariant connected == Members(q) && goal !in q && connected <= Ids(nodes) && current in Ids(nodes)
      invariant Follows(nodes, edges, supplier.nodeId, goal, q)
      invariant q == [] ==> current == supplier.nodeId
      invariant q != [] ==> KnownTarget(nodes, edges, q[|q| - 1]) == Some(current)
      decreases Ids(nodes) - connected
    {
      FollowOn(nodes, edges, supplier.nodeId, goal, q, current);
      connected := connected + {current};
      q := q + [current];
      if current == goal {
        ReachesOnly(nodes, edges, supplier.nodeId, goal, q);
        return connected;
      }
      OutgoingAt(nodes, edges, outgoing, current);
      if current !in outgoing {
        forall p
          ensures !Reaches(nodes, edges, supplier.nodeId, goal, p)
        {
          Blocked(nodes, edges, supplier.nodeId, goal, q, p);
        }
        return {};
      }
      current := outgoing[current];
    }
    forall p
      ensures !Reaches(nodes, edges, supplier.nodeId, goal, p)
    {
      Blocked(nodes, edges, supplier.nodeId, goal, q, p);
    }
    return {};
  }

  lemma FollowStart(nodes: seq<RouteNode>, edges: seq<RouteEdge>, supplier: RouteNode, goal: string)
    requires supplier in nodes
    ensures Follows(nodes, edges, supplier.nodeId, goal, []) && supplier.nodeId in Ids(nodes) && Members([]) == {}
  {}

  lemma FollowOn(nodes: seq<RouteNode>, edges: seq<RouteEdge>, start: string, goal: string, q: seq<string>,
      current: string)
    requires Follows(nodes, edges, start, goal, q) && goal !in q && current !in q
    requires if q == [] then current == start else KnownTarget(nodes, edges, q[|q| - 1]) == Some(current)
    ensures Follows(nodes, edges, start, goal, q + [current]) && Members(q + [current]) == Members(q) + {current}
  {
    hide KnownTarget;
    var t := q + [current];
    forall i | 0 <= i < |t| - 1 ensures t[i] != goal && KnownTarget(nodes, edges, t[i]) == Some(t[i + 1]) {
      if i + 1 < |q| { assert q[i] == t[i] && q[i + 1] == t[i + 1]; } else { assert t[i] == q[|q| - 1] && t[i] in q; }
    }
  }

  lemma ReachesOnly(nodes: seq<RouteNode>, edges: seq<RouteEdge>, start: string, goal: string, q: seq<string>)
    requires q != [] && Follows(nodes, edges, start, goal, q) && q[|q| - 1] == goal
    ensures Reaches(nodes, edges, start, goal, q) && Members(q) != {}
    ensures forall p :: Reaches(nodes, edges, start, goal, p) ==> p == q
  {
    hide KnownTarget, Follows;
    assert goal in Members(q);
    forall p | Reaches(nodes, edges, start, goal, p) ensures p == q { ReachesUnique(nodes, edges, start, goal, p, q); }
  }

  lemma OutgoingAt(nodes: seq<RouteNode>, edges: seq<RouteEdge>, outgoing: map<string, string>, id: string)
    requires Outgoing(nodes, edges, outgoing)
    ensures id in outgoing <==> KnownTarget(nodes, edges, id).Some?
    ensures id in outgoing ==> KnownTarget(nodes, edges, id) == Some(outgoing[id]) && outgoing[id] in Ids(nodes)
  {
    hide FirstTarget, KnownEdges, Ids;
    if id in outgoing { KnownKnown(nodes, edges, RouteEdge(id, outgoing[id])); }
  }

  lemma {:induction false} KnownKnown(nodes: seq<RouteNode>, edges: seq<RouteEdge>, e: RouteEdge)
    requires e in KnownEdges(nodes, edges)
    ensures e.from in Ids(nodes) && e.to in Ids(nodes)
  {
    hide Ids;
    if edges != [] {
      var last := edges[|edges| - 1];
      if e in KnownEdges(nodes, edges[..|edges| - 1]) { KnownKnown(nodes, edges[..|edges| - 1], e); }
    }
  }
}
