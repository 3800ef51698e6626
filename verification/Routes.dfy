// Routes as nodes and directed edges, and the order in which a route is walked.
module Routes {
  import opened Options

  // caption is the source's label field.
  datatype RouteNode = RouteNode(nodeId: string, nodeType: string, caption: string, role: string, username: string,
    positionX: int, positionY: int, stepIndex: int)

  datatype RouteEdge = RouteEdge(from: string, to: string)

  datatype Workflow = Workflow(routeId: string, nodes: seq<RouteNode>, edges: seq<RouteEdge>)

  // The first node with an id.
  function FindNode(nodes: seq<RouteNode>, id: string): (n: Option<RouteNode>)
    ensures n.Some? ==> n.value in nodes && n.value.nodeId == id
    ensures n.None? ==> forall m :: m in nodes ==> m.nodeId != id
  {
    if nodes == [] then None
    else if nodes[0].nodeId == id then Some(nodes[0]) else FindNode(nodes[1..], id)
  }

  predicate HasIncoming(edges: seq<RouteEdge>, id: string) {
    exists e :: e in edges && e.to == id
  }

  // The first node without an incoming edge.
  function FirstFree(nodes: seq<RouteNode>, edges: seq<RouteEdge>): (n: Option<RouteNode>)
    ensures n.Some? ==> n.value in nodes && !HasIncoming(edges, n.value.nodeId)
    ensures n.None? ==> forall m :: m in nodes ==> HasIncoming(edges, m.nodeId)
  {
    if nodes == [] then None
    else if !HasIncoming(edges, nodes[0].nodeId) then Some(nodes[0]) else FirstFree(nodes[1..], edges)
  }

  function FirstNode(w: Workflow): (n: Option<RouteNode>)
    ensures n.Some? ==> n.value in w.nodes && !HasIncoming(w.edges, n.value.nodeId)
  {
    FirstFree(w.nodes, w.edges)
  }

  // The target of the first edge from an id.
  function FirstTarget(edges: seq<RouteEdge>, id: string): (to: Option<string>)
    ensures to.Some? ==> RouteEdge(id, to.value) in edges
    ensures to.None? ==> forall e :: e in edges ==> e.from != id
  {
    if edges == [] then None
    else if edges[0].from == id then Some(edges[0].to) else FirstTarget(edges[1..], id)
  }

  function Successor(w: Workflow, id: string): (n: Option<RouteNode>)
    ensures n.Some? ==> n.value in w.nodes
  {
    match FirstTarget(w.edges, id)
    case None => None
    case Some(to) => FindNode(w.nodes, to)
  }

  // ---- walking a route ----

  // s is the beginning of the walk from the first node.
  ghost predicate Walk(w: Workflow, s: seq<RouteNode>) {
    && (s != [] ==> FirstNode(w) == Some(s[0]))
    && forall i :: 0 <= i < |s| - 1 ==> Successor(w, s[i].nodeId) == Some(s[i + 1])
  }

  // Where the walk s goes next.
  function Next(w: Workflow, s: seq<RouteNode>): Option<RouteNode> {
    if s == [] then FirstNode(w) else Successor(w, s[|s| - 1].nodeId)
  }

  // s is the whole walk.
  ghost predicate Ordered(w: Workflow, s: seq<RouteNode>) {
    s != [] && Walk(w, s) && Next(w, s) == None
  }

  lemma WalkStep(w: Workflow, s: seq<RouteNode>, n: RouteNode)
    requires Walk(w, s) && Next(w, s) == Some(n)
    ensures Walk(w, s + [n])
  {
    hide FirstNode, Successor;
    var t := s + [n];
    forall i | 0 <= i < |t| - 1 ensures Successor(w, t[i].nodeId) == Some(t[i + 1]) {
      if i == |s| - 1 { assert t[i] == s[i] && t[i + 1] == n; }
    }
  }

  lemma WalkLink(w: Workflow, s: seq<RouteNode>, i: nat)
    requires Walk(w, s) && i + 1 < |s|
    ensures Successor(w, s[i].nodeId) == Some(s[i + 1])
  {}

  // Walks are deterministic.
  lemma {:induction false} WalkSame(w: Workflow, s: seq<RouteNode>, t: seq<RouteNode>, i: nat)
    requires Walk(w, s) && Walk(w, t) && i < |s| && i < |t|
    ensures s[i] == t[i]
    decreases i
  {
    hide FirstNode, Successor;
    if i > 0 {
      WalkSame(w, s, t, i - 1);
      assert Successor(w, s[i - 1].nodeId) == Some(s[i - 1 + 1]);
      assert Successor(w, t[i - 1].nodeId) == Some(t[i - 1 + 1]);
    }
  }

  // A walk that ends does not meet the same id twice.
  lemma {:induction false} OrderedDistinct(w: Workflow, s: seq<RouteNode>, i: nat, j: nat)
    requires Ordered(w, s) && i < j < |s|
    ensures s[i].nodeId != s[j].nodeId
    decreases |s| - j
  {
    hide FirstNode, Successor;
    assert Successor(w, s[i].nodeId) == Some(s[i + 1]);
    if j + 1 < |s| {
      OrderedDistinct(w, s, i + 1, j + 1);
      assert Successor(w, s[j].nodeId) == Some(s[j + 1]);
    }
  }

  // The whole walk is unique.
  lemma OrderedUnique(w: Workflow, s: seq<RouteNode>, t: seq<RouteNode>)
    requires Ordered(w, s) && Ordered(w, t)
    ensures s == t
  {
    hide FirstNode, Successor;
    NotLonger(w, s, t);
    NotLonger(w, t, s);
    forall i | 0 <= i < |s| ensures s[i] == t[i] { WalkSame(w, s, t, i); }
  }

  lemma NotLonger(w: Workflow, s: seq<RouteNode>, t: seq<RouteNode>)
    requires Ordered(w, s) && Ordered(w, t)
    ensures |s| <= |t|
  {
    hide FirstNode, Successor;
    if |s| > |t| {
      WalkSame(w, s, t, |t| - 1);
      WalkLink(w, s, |t| - 1);
    }
  }

  function Ids(nodes: seq<RouteNode>): set<string> {
    set n | n in nodes :: n.nodeId
  }

  // The walk that comes back to an id never ends.
  lemma NoOrder(w: Workflow, s: seq<RouteNode>, n: RouteNode, t: seq<RouteNode>)
    requires Walk(w, s) && Next(w, s) == Some(n) && n.nodeId in Ids(s)
    ensures !Ordered(w, t)
  {
    hide FirstNode, Successor;
    if Ordered(w, t) {
      var i :| 0 <= i < |s| && s[i].nodeId == n.nodeId;
      WalkStep(w, s, n);
      var u := s + [n];
      if |t| < |u| {
        WalkSame(w, u, t, |t| - 1);
        WalkLink(w, u, |t| - 1);
      } else {
        WalkSame(w, u, t, i);
        WalkSame(w, u, t, |s|);
        OrderedDistinct(w, t, i, |s|);
      }
    }
  }

  // A route is walkable when its walk ends and meets every node.
  ghost predicate Complete(w: Workflow, s: seq<RouteNode>) {
    Ordered(w, s) && |s| == |w.nodes|
  }

  const CYCLE: string := "The saved route contains a cycle"
  const NOT_LINEAR: string := "The saved route does not contain one connected linear path"

  // The nodes of a route in walking order.
  method OrderedWorkflowNodes(w: Workflow) returns (ok: bool, ordered: seq<RouteNode>, error: string)
    ensures ok <==> exists s :: Complete(w, s)
    ensures ok ==> Complete(w, ordered)
    ensures error == "" <==> ok || w.nodes == []
  {
    hide FirstNode, Successor;
    ordered, error := [], "";
    var current := FirstNode(w);
    var visited: set<string> := {};
    while current.Some?
      invariant Walk(w, ordered) && current == Next(w, ordered) && visited == Ids(ordered) && visited <= Ids(w.nodes)
      decreases Ids(w.nodes) - visited, if current.Some? then 1 else 0
    {
      var node := current.value;
      NextKnown(w, ordered);
      if node.nodeId in visited {
        forall s ensures !Ordered(w, s) { NoOrder(w, ordered, node, s); }
        return false, ordered, CYCLE;
      }
      visited := visited + {node.nodeId};
      WalkStep(w, ordered, node);
      ordered := ordered + [node];
      current := Successor(w, node.nodeId);
    }
    forall s | Ordered(w, s) ensures s == ordered {
      if ordered != [] { OrderedUnique(w, s, ordered); }
    }
    if |ordered| != |w.nodes| {
      return false, ordered, NOT_LINEAR;
    }
    assert ordered != [] ==> Complete(w, ordered);
    return ordered != [], ordered, "";
  }

  lemma NextKnown(w: Workflow, s: seq<RouteNode>)
    requires Next(w, s).Some?
    ensures Next(w, s).value in w.nodes && Next(w, s).value.nodeId in Ids(w.nodes)
  {}
}
