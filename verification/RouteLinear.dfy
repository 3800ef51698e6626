// The snapshot service's own route check.
module RouteLinear {
  import opened Options
  import opened Routes
  import opened RouteValidity
  import opened RouteCheck

  predicate IdsNamed(nodes: seq<RouteNode>) {
    forall i :: 0 <= i < |nodes| ==> nodes[i].nodeId != ""
  }

  predicate Slim(nodes: seq<RouteNode>, edges: seq<RouteEdge>) {
    forall i :: 0 <= i < |edges| ==>
      EdgeOk(nodes, edges[i]) && CountFrom(edges, edges[i].from) <= 1 && CountTo(edges, edges[i].to) <= 1
  }

  // A supplier-to-supermarket walk over all nodes, in step order, with one edge fewer than nodes.
  ghost predicate EndsOk(w: Workflow, s: seq<RouteNode>) {
    InStepOrder(w, s) && s[0].role == "supplier" && s[|s| - 1].role == "supermarket"
  }

  ghost predicate LinearRoute(w: Workflow) {
    && |w.nodes| >= 2 && |w.edges| + 1 == |w.nodes| && IdsNamed(w.nodes) && DistinctIds(w.nodes)
    && Slim(w.nodes, w.edges)
    && exists s :: EndsOk(w, s)
  }

  // ---- a complete walk meets every node ----

  lemma {:induction false} IdsCount(nodes: seq<RouteNode>)
    requires DistinctIds(nodes)
    ensures |Ids(nodes)| == |nodes|
  {
    if nodes != [] {
      var n := |nodes| - 1;
      IdsCount(nodes[..n]);
      assert nodes == nodes[..n] + [nodes[n]];
      IdsStep(nodes[..n], nodes[n]);
      assert nodes[n].nodeId !in Ids(nodes[..n]);
    } else {
      assert Ids(nodes) == {};
    }
  }

  lemma {:induction false} WalkKnown(w: Workflow, s: seq<RouteNode>, i: nat)
    requires Walk(w, s) && i < |s|
    ensures s[i] in w.nodes
  {
    hide FirstNode, Successor;
    if i > 0 { WalkLink(w, s, i - 1); }
  }

  lemma SetFull(a: set<string>, b: set<string>)
    requires a <= b && |a| == |b|
    ensures a == b
  {
    assert b == a + (b - a);
  }

  lemma OrderedIds(w: Workflow, s: seq<RouteNode>)
    requires Ordered(w, s)
    ensures DistinctIds(s) && Ids(s) <= Ids(w.nodes) && |Ids(s)| == |s|
  {
    hide Walk, Next;
    forall i, j | 0 <= i < j < |s| ensures s[i].nodeId != s[j].nodeId { OrderedDistinct(w, s, i, j); }
    forall n | n in s ensures n.nodeId in Ids(w.nodes) {
      var i :| 0 <= i < |s| && s[i] == n;
      WalkKnown(w, s, i);
    }
    IdsCount(s);
  }

  lemma MeetsAll(w: Workflow, s: seq<RouteNode>, n: RouteNode) returns (i: nat)
    requires Complete(w, s) && DistinctIds(w.nodes) && n in w.nodes
    ensures i < |s| && s[i] == n
  {
    hide Walk, Next;
    OrderedIds(w, s);
    IdsCount(w.nodes);
    SetFull(Ids(s), Ids(w.nodes));
    assert n.nodeId in Ids(s);
    var j :| 0 <= j < |s| && s[j].nodeId == n.nodeId;
    WalkKnown(w, s, j);
    SameNode(w.nodes, s[j], n);
    i := j;
  }

  lemma SameNode(nodes: seq<RouteNode>, m: RouteNode, n: RouteNode)
    requires DistinctIds(nodes) && m in nodes && n in nodes && m.nodeId == n.nodeId
    ensures m == n
  {}

  // In a complete walk only the first node has no incoming edge, and only the last no outgoing one.
  lemma OnlyFirst(w: Workflow, s: seq<RouteNode>, n: RouteNode)
    requires Complete(w, s) && DistinctIds(w.nodes) && n in w.nodes
    ensures CountTo(w.edges, n.nodeId) == 0 <==> n == s[0]
  {
    hide CountTo, DistinctIds, Ids;
    var i := MeetsAll(w, s, n);
    NoneTo(w.edges, n.nodeId);
    if i > 0 {
      WalkLink(w, s, i - 1);
      OrderedDistinct(w, s, 0, i);
    }
  }

  lemma OnlyLast(w: Workflow, s: seq<RouteNode>, n: RouteNode)
    requires Complete(w, s) && DistinctIds(w.nodes) && n in w.nodes && Slim(w.nodes, w.edges)
    ensures CountFrom(w.edges, n.nodeId) == 0 <==> n == s[|s| - 1]
  {
    hide CountFrom, CountTo, DistinctIds, Ids;
    var i := MeetsAll(w, s, n);
    NoneFrom(w.edges, n.nodeId);
    TargetKnown(w, n);
    if i + 1 < |s| {
      WalkLink(w, s, i);
      OrderedDistinct(w, s, i, |s| - 1);
    }
  }

  // Edges lead to nodes.
  lemma TargetKnown(w: Workflow, n: RouteNode)
    requires Slim(w.nodes, w.edges)
    ensures FirstTarget(w.edges, n.nodeId).Some? ==>
      Successor(w, n.nodeId).Some? && Successor(w, n.nodeId).value.nodeId == FirstTarget(w.edges, n.nodeId).value
  {
    hide CountFrom, CountTo;
  }

  // ---- the check ----

  // The edges so far: the successor of every id that has one, and the number of incoming edges of every node.
  ghost predicate EdgesRead(nodes: seq<RouteNode>, edges: seq<RouteEdge>, incoming: map<string, nat>,
      outgoing: map<string, string>)
  {
    && incoming.Keys == Ids(nodes) && (forall id :: id in incoming ==> incoming[id] == CountTo(edges, id) <= 1)
    && (forall id :: id in outgoing <==> CountFrom(edges, id) == 1)
    && (forall id :: CountFrom(edges, id) <= 1)
    && (forall id :: id in outgoing ==> FirstTarget(edges, id) == Some(outgoing[id]))
    && AllEdgesOk(nodes, edges)
  }

  predicate AllEdgesOk(nodes: seq<RouteNode>, edges: seq<RouteEdge>) {
    forall i :: 0 <= i < |edges| ==> EdgeOk(nodes, edges[i])
  }

  method ReadNodes(nodes: seq<RouteNode>) returns (ok: bool, incoming: map<string, nat>)
    ensures ok <==> IdsNamed(nodes) && DistinctIds(nodes)
    ensures ok ==> incoming.Keys == Ids(nodes) && forall id :: id in incoming ==> incoming[id] == 0
  {
    incoming := map[];
    var i := 0;
    while i < |nodes|
      invariant 0 <= i <= |nodes| && incoming.Keys == Ids(nodes[..i]) && IdsNamed(nodes[..i]) && DistinctIds(nodes[..i])
      invariant forall id :: id in incoming ==> incoming[id] == 0
    {
      IdsPrefix(nodes, i);
      if nodes[i].nodeId == "" || nodes[i].nodeId in incoming {
        return false, incoming;
      }
      incoming := incoming[nodes[i].nodeId := 0];
      i := i + 1;
    }
    assert nodes[..i] == nodes;
    return true, incoming;
  }

  lemma IdsPrefix(nodes: seq<RouteNode>, i: nat)
    requires i < |nodes|
    ensures nodes[..i + 1] == nodes[..i] + [nodes[i]]
    ensures Ids(nodes[..i + 1]) == Ids(nodes[..i]) + {nodes[i].nodeId}
    ensures DistinctIds(nodes[..i]) && nodes[i].nodeId !in Ids(nodes[..i]) ==> DistinctIds(nodes[..i + 1])
    ensures nodes[i].nodeId in Ids(nodes[..i]) ==> !DistinctIds(nodes)
  {
    assert nodes[..i + 1] == nodes[..i] + [nodes[i]];
    IdsStep(nodes[..i], nodes[i]);
    forall j | 0 <= j < i ensures nodes[j].nodeId in Ids(nodes[..i]) { assert nodes[..i][j] == nodes[j]; }
    if nodes[i].nodeId in Ids(nodes[..i]) {
      var j :| 0 <= j < i && nodes[..i][j].nodeId == nodes[i].nodeId;
      assert nodes[j].nodeId == nodes[i].nodeId;
    }
  }

  method ReadEdges(nodes: seq<RouteNode>, edges: seq<RouteEdge>, zero: map<string, nat>)
    returns (ok: bool, incoming: map<string, nat>, outgoing: map<string, string>)
    requires zero.Keys == Ids(nodes) && forall id :: id in zero ==> zero[id] == 0
    ensures ok <==> Slim(nodes, edges)
    ensures ok ==> EdgesRead(nodes, edges, incoming, outgoing)
  {
    hide EdgesRead, Slim;
    incoming, outgoing := zero, map[];
    var i := 0;
    ReadStart(nodes, edges, zero);
    while i < |edges|
      invariant 0 <= i <= |edges| && EdgesRead(nodes, edges[..i], incoming, outgoing)
    {
      var edge := edges[i];
      ReadFacts(nodes, edges, i, incoming, outgoing);
      if edge.from == edge.to || edge.from !in incoming || edge.to !in incoming || edge.from in outgoing {
        return false, incoming, outgoing;
      }
      ReadStep(nodes, edges, i, incoming, outgoing);
      outgoing := outgoing[edge.from := edge.to];
      if incoming[edge.to] + 1 > 1 {
        return false, incoming, outgoing;
      }
      incoming := incoming[edge.to := incoming[edge.to] + 1];
      i := i + 1;
    }
    assert edges[..i] == edges;
    ReadEnd(nodes, edges, incoming, outgoing);
    return true, incoming, outgoing;
  }

  lemma ReadStart(nodes: seq<RouteNode>, edges: seq<RouteEdge>, zero: map<string, nat>)
    requires zero.Keys == Ids(nodes) && forall id :: id in zero ==> zero[id] == 0
    ensures EdgesRead(nodes, edges[..0], zero, map[])
  {}

  lemma {:induction false} CountKept(edges: seq<RouteEdge>, i: nat, id: string)
    requires i <= |edges|
    ensures CountTo(edges, id) >= CountTo(edges[..i], id) && CountFrom(edges, id) >= CountFrom(edges[..i], id)
    decreases |edges|
  {
    if i == |edges| {
      assert edges[..i] == edges;
    } else {
      CountKept(edges[..|edges| - 1], i, id);
      assert edges[..|edges| - 1][..i] == edges[..i];
    }
  }

  // Why a refused edge spoils the whole.
  lemma ReadFacts(nodes: seq<RouteNode>, edges: seq<RouteEdge>, i: nat, incoming: map<string, nat>,
      outgoing: map<string, string>)
    requires i < |edges| && EdgesRead(nodes, edges[..i], incoming, outgoing)
    ensures var e := edges[i];
      && (e.from == e.to || e.from !in incoming || e.to !in incoming ==> !Slim(nodes, edges))
      && (e.from in outgoing ==> !Slim(nodes, edges))
      && (e.to in incoming && incoming[e.to] + 1 > 1 ==> !Slim(nodes, edges))
  {
    hide CountTo, CountFrom, FirstTarget, Ids;
    var e := edges[i];
    CountEdge(edges, i, e.from);
    CountEdge(edges, i, e.to);
    CountKept(edges, i + 1, e.from);
    CountKept(edges, i + 1, e.to);
  }

  lemma ReadStep(nodes: seq<RouteNode>, edges: seq<RouteEdge>, i: nat, incoming: map<string, nat>,
      outgoing: map<string, string>)
    requires i < |edges| && EdgesRead(nodes, edges[..i], incoming, outgoing)
    requires var e := edges[i]; e.from != e.to && e.from in incoming && e.to in incoming && e.from !in outgoing
    ensures var e := edges[i]; incoming[e.to] + 1 <= 1 ==>
      EdgesRead(nodes, edges[..i + 1], incoming[e.to := incoming[e.to] + 1], outgoing[e.from := e.to])
  {
    hide CountTo, CountFrom, FirstTarget, Ids, AllEdgesOk;
    var e := edges[i];
    if incoming[e.to] + 1 <= 1 {
      var incoming', outgoing' := incoming[e.to := incoming[e.to] + 1], outgoing[e.from := e.to];
      assert incoming'.Keys == incoming.Keys;
      var edges' := edges[..i + 1];
      forall id ensures CountFrom(edges', id) <= 1 { ReadOne(nodes, edges, i, incoming, outgoing, id); }
      forall id
        ensures id in outgoing' <==> CountFrom(edges', id) == 1
      {
        ReadOne(nodes, edges, i, incoming, outgoing, id);
      }
      forall id | id in incoming' ensures incoming'[id] == CountTo(edges', id) <= 1 {
        ReadOne(nodes, edges, i, incoming, outgoing, id);
      }
      forall id | id in outgoing' ensures FirstTarget(edges', id) == Some(outgoing'[id]) {
        ReadOne(nodes, edges, i, incoming, outgoing, id);
      }
      EdgesOkStep(nodes, edges, i);
    }
  }

  lemma EdgesOkStep(nodes: seq<RouteNode>, edges: seq<RouteEdge>, i: nat)
    requires i < |edges| && EdgeOk(nodes, edges[i]) && AllEdgesOk(nodes, edges[..i])
    ensures AllEdgesOk(nodes, edges[..i + 1])
  {
    hide EdgeOk;
    var front, all := edges[..i], edges[..i + 1];
    forall j | 0 <= j < i + 1 ensures EdgeOk(nodes, all[j]) {
      if j < i { assert front[j] == all[j]; }
    }
  }

  lemma ReadOne(nodes: seq<RouteNode>, edges: seq<RouteEdge>, i: nat, incoming: map<string, nat>,
      outgoing: map<string, string>, id: string)
    requires i < |edges| && EdgesRead(nodes, edges[..i], incoming, outgoing)
    requires var e := edges[i];
      e.from != e.to && e.from in incoming && e.to in incoming && e.from !in outgoing && incoming[e.to] == 0
    ensures var e := edges[i];
      var incoming', outgoing' := incoming[e.to := incoming[e.to] + 1], outgoing[e.from := e.to];
      && CountFrom(edges[..i + 1], id) <= 1 && (id in outgoing' <==> CountFrom(edges[..i + 1], id) == 1)
      && (id in incoming' ==> incoming'[id] == CountTo(edges[..i + 1], id) <= 1)
      && (id in outgoing' ==> FirstTarget(edges[..i + 1], id) == Some(outgoing'[id]))
  {
    hide CountTo, CountFrom, FirstTarget, Ids, EdgeOk;
    CountEdge(edges, i, id);
    FirstTargetStep(edges, i, id);
    NoneFrom(edges[..i], id);
  }

  lemma ReadEnd(nodes: seq<RouteNode>, edges: seq<RouteEdge>, incoming: map<string, nat>, outgoing: map<string, string>)
    requires EdgesRead(nodes, edges, incoming, outgoing)
    ensures Slim(nodes, edges)
  {
    hide CountTo, CountFrom, FirstTarget;
    forall i | 0 <= i < |edges|
      ensures EdgeOk(nodes, edges[i]) && CountFrom(edges, edges[i].from) <= 1 && CountTo(edges, edges[i].to) <= 1
    {
      assert edges[i].to in incoming;
    }
  }

  // ---- the ends and the walk ----

  // The only node with a property, given by the set of ids that do not have it; no node or two fail.
  method OnlyWithout(nodes: seq<RouteNode>, ids: set<string>) returns (found: Option<RouteNode>)
    ensures found.Some? ==> found.value in nodes && found.value.nodeId !in ids
    ensures found.Some? ==> forall i, j :: 0 <= i < j < |nodes| && nodes[i].nodeId !in ids ==> nodes[j].nodeId in ids
    ensures found.None? ==>
      || (forall i :: 0 <= i < |nodes| ==> nodes[i].nodeId in ids)
      || exists i, j :: 0 <= i < j < |nodes| && nodes[i].nodeId !in ids && nodes[j].nodeId !in ids
  {
    found := None;
    ghost var at: nat := 0;
    var k := 0;
    while k < |nodes|
      invariant 0 <= k <= |nodes|
      invariant found.None? ==> forall i :: 0 <= i < k ==> nodes[i].nodeId in ids
      invariant found.Some? ==> at < k && found.value == nodes[at] && nodes[at].nodeId !in ids
      invariant found.Some? ==> forall i :: 0 <= i < k && i != at ==> nodes[i].nodeId in ids
    {
      if nodes[k].nodeId !in ids {
        if found.Some? {
          assert nodes[at].nodeId !in ids && nodes[k].nodeId !in ids;
          return None;
        }
        found, at := Some(nodes[k]), k;
      }
      k := k + 1;
    }
  }

  // The walk from the first node along the outgoing edges, in step order, over all nodes.
  method WalkLinear(w: Workflow, outgoing: map<string, string>, first: RouteNode)
    returns (ok: bool, ghost path: seq<RouteNode>)
    requires IdsNamed(w.nodes) && DistinctIds(w.nodes) && Slim(w.nodes, w.edges) && FirstNode(w) == Some(first)
    requires forall id :: id in outgoing <==> FirstTarget(w.edges, id).Some?
    requires forall id :: id in outgoing ==> FirstTarget(w.edges, id).value == outgoing[id]
    ensures ok <==> exists s :: InStepOrder(w, s)
    ensures ok ==> InStepOrder(w, path)
  {
    hide Walk, Next, FirstNode, Successor, Ids, FindNode, FirstTarget, IdsNamed, Slim, DistinctIds;
    var visited: set<string> := {};
    var current := first.nodeId;
    var expectedStepIndex := 0;
    path := [];
    LinearStart(w);
    FirstNamed(w, first);
    while current != "" && current !in visited
      invariant Paced(w, path, visited) && expectedStepIndex == |path|
      invariant current == "" <==> Next(w, path) == None
      invariant Next(w, path).Some? ==> current == Next(w, path).value.nodeId
      decreases Ids(w.nodes) - visited
    {
      var at := Next(w, path).value;
      NextKnown(w, path);
      visited := visited + {current};
      var node := FindNode(w.nodes, current);
      FoundSame(w, at, node);
      if node.None? || node.value.stepIndex != expectedStepIndex {
        StepWrong(w, path, at);
        return false, path;
      }
      PacedStep(w, path, visited - {current}, at);
      OutgoingNext(w, outgoing, at);
      current := if current in outgoing then outgoing[current] else "";
      path := path + [at];
      expectedStepIndex := expectedStepIndex + 1;
    }
    PacedEnd(w, path, visited, current);
    if current != "" || |visited| != |w.nodes| {
      return false, path;
    }
    return true, path;
  }

  // The walk so far, in step order.
  ghost predicate Paced(w: Workflow, path: seq<RouteNode>, visited: set<string>) {
    && Walk(w, path) && visited == Ids(path) && |visited| == |path|
    && (forall i :: 0 <= i < |path| ==> path[i].stepIndex == i)
  }

  lemma LinearStart(w: Workflow)
    ensures Paced(w, [], {}) && Next(w, []) == FirstNode(w)
  {}

  lemma FirstNamed(w: Workflow, first: RouteNode)
    requires IdsNamed(w.nodes) && FirstNode(w) == Some(first)
    ensures first.nodeId != ""
  {}

  lemma FoundSame(w: Workflow, at: RouteNode, found: Option<RouteNode>)
    requires DistinctIds(w.nodes) && at in w.nodes && found == FindNode(w.nodes, at.nodeId)
    ensures found == Some(at)
  {
    if found.Some? { SameNode(w.nodes, found.value, at); }
  }

  lemma PacedStep(w: Workflow, path: seq<RouteNode>, visited: set<string>, at: RouteNode)
    requires Paced(w, path, visited) && Next(w, path) == Some(at) && at.nodeId !in visited && at.stepIndex == |path|
    ensures Paced(w, path + [at], visited + {at.nodeId}) && Next(w, path + [at]) == Successor(w, at.nodeId)
  {
    hide FirstNode, Successor, Ids;
    WalkStep(w, path, at);
    IdsStep(path, at);
  }

  lemma OutgoingNext(w: Workflow, outgoing: map<string, string>, at: RouteNode)
    requires IdsNamed(w.nodes) && Slim(w.nodes, w.edges)
    requires forall id :: id in outgoing <==> FirstTarget(w.edges, id).Some?
    requires forall id :: id in outgoing ==> FirstTarget(w.edges, id).value == outgoing[id]
    ensures at.nodeId in outgoing ==>
      outgoing[at.nodeId] != "" && Successor(w, at.nodeId).Some?
        && Successor(w, at.nodeId).value.nodeId == outgoing[at.nodeId]
    ensures at.nodeId !in outgoing ==> Successor(w, at.nodeId) == None
  {
    hide Slim;
    TargetKnown(w, at);
  }

  lemma PacedEnd(w: Workflow, path: seq<RouteNode>, visited: set<string>, current: string)
    requires Paced(w, path, visited) && (current == "" <==> Next(w, path) == None)
    requires Next(w, path).Some? ==> current == Next(w, path).value.nodeId && current in visited
    requires FirstNode(w).Some?
    ensures current == "" && |visited| == |w.nodes| ==> InStepOrder(w, path)
    ensures current != "" || |visited| != |w.nodes| ==> !exists s :: InStepOrder(w, s)
  {
    hide FirstNode, Successor;
    if current != "" {
      forall s ensures !Ordered(w, s) { NoOrder(w, path, Next(w, path).value, s); }
    } else {
      assert Ordered(w, path);
      forall s | Ordered(w, s) ensures s == path { OrderedUnique(w, s, path); }
    }
  }
}
