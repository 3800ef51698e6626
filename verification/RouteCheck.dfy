// The walk of the route check, and the whole check.
module RouteCheck {
  import opened Options
  import opened Routes
  import opened RouteValidity

  // Nodes, edges and degrees have been checked.
  ghost predicate Checked(w: Workflow) {
    ValidNodes(w.nodes) && ValidEdges(w.nodes, w.edges) && Degrees(w.nodes, w.edges)
  }

  lemma NodeDegrees(w: Workflow, n: RouteNode)
    requires Checked(w) && n in w.nodes
    ensures CountTo(w.edges, n.nodeId) == (if n.role == "supplier" then 0 else 1)
    ensures CountFrom(w.edges, n.nodeId) == (if n.role == "supermarket" then 0 else 1)
    ensures n.nodeId != ""
  {
    hide ValidEdges, CountTo, CountFrom, CountRole;
    var i :| 0 <= i < |w.nodes| && w.nodes[i] == n;
    assert DegreeOk(w.edges, w.nodes[i]) && NodeOk(w.nodes[i]);
  }

  lemma EdgeAt(w: Workflow, e: RouteEdge)
    requires Checked(w) && e in w.edges
    ensures EdgeOk(w.nodes, e)
  {
    hide ValidNodes, Degrees, EdgeOk;
  }

  lemma SameId(w: Workflow, m: RouteNode, n: RouteNode)
    requires Checked(w) && m in w.nodes && n in w.nodes && m.nodeId == n.nodeId
    ensures m == n
  {
    hide ValidEdges, Degrees, CountRole, NodeOk;
  }

  // The walk starts at the supplier.
  lemma FirstIsSupplier(w: Workflow, supplier: RouteNode, supermarket: RouteNode)
    requires Checked(w) && supplier in w.nodes && supplier.role == "supplier"
    requires supermarket in w.nodes && supermarket.role == "supermarket"
    ensures FirstNode(w) == Some(supplier)
  {
    hide Checked;
    NodeDegrees(w, supplier);
    NoneTo(w.edges, supplier.nodeId);
    assert !HasIncoming(w.edges, supplier.nodeId);
    var n := FirstNode(w).value;
    NodeDegrees(w, n);
    NoneTo(w.edges, n.nodeId);
    CheckedNodes(w);
    TheRole(w.nodes, n, supplier, supermarket);
  }

  lemma CheckedNodes(w: Workflow)
    requires Checked(w)
    ensures ValidNodes(w.nodes)
  {
    hide ValidNodes, ValidEdges, Degrees;
  }

  // Only the supermarket has no successor.
  lemma SuccessorOf(w: Workflow, n: RouteNode)
    requires Checked(w) && n in w.nodes
    ensures n.role == "supermarket" ==> Successor(w, n.nodeId) == None && FirstTarget(w.edges, n.nodeId) == None
    ensures n.role != "supermarket" ==>
      && FirstTarget(w.edges, n.nodeId).Some? && Successor(w, n.nodeId).Some?
      && Successor(w, n.nodeId).value.nodeId == FirstTarget(w.edges, n.nodeId).value
  {
    hide Checked, CountFrom;
    NodeDegrees(w, n);
    NoneFrom(w.edges, n.nodeId);
    var t := FirstTarget(w.edges, n.nodeId);
    if t.Some? { EdgeAt(w, RouteEdge(n.nodeId, t.value)); }
  }

  // A node has one predecessor.
  lemma OnePredecessor(w: Workflow, m: RouteNode, n: RouteNode, target: RouteNode)
    requires Checked(w) && m in w.nodes && n in w.nodes && target in w.nodes
    requires Successor(w, m.nodeId) == Some(target) && Successor(w, n.nodeId) == Some(target)
    ensures m == n && target.role != "supplier"
  {
    hide Checked, CountTo;
    NodeDegrees(w, target);
    var e, f := RouteEdge(m.nodeId, target.nodeId), RouteEdge(n.nodeId, target.nodeId);
    assert e in w.edges && f in w.edges;
    var i :| 0 <= i < |w.edges| && w.edges[i] == e;
    var j :| 0 <= j < |w.edges| && w.edges[j] == f;
    NoneTo(w.edges, target.nodeId);
    OneTo(w.edges, target.nodeId, i, j);
    SameId(w, m, n);
  }

  // The walk never comes back.
  lemma {:induction false} NoReturn(w: Workflow, s: seq<RouteNode>, i: nat, j: nat)
    requires Checked(w) && Walk(w, s) && i < j < |s| && (forall n :: n in s ==> n in w.nodes) && s[0].role == "supplier"
    ensures s[i].nodeId != s[j].nodeId
    decreases i
  {
    hide Checked, FirstNode, Successor;
    if s[i].nodeId == s[j].nodeId {
      SameId(w, s[i], s[j]);
      WalkLink(w, s, j - 1);
      OnePredecessor(w, s[j - 1], s[j - 1], s[j]);
      if i > 0 {
        WalkLink(w, s, i - 1);
        OnePredecessor(w, s[i - 1], s[j - 1], s[j]);
        NoReturn(w, s, i - 1, j - 1);
      }
    }
  }

  // ---- the inner loop ----

  lemma {:induction false} FirstTargetStep(edges: seq<RouteEdge>, i: nat, id: string)
    requires i < |edges|
    ensures FirstTarget(edges[..i + 1], id)
      == if FirstTarget(edges[..i], id).Some? then FirstTarget(edges[..i], id)
         else if edges[i].from == id then Some(edges[i].to) else None
    decreases i
  {
    if i > 0 {
      FirstTargetStep(edges[1..], i - 1, id);
      assert edges[1..][..i] == edges[..i + 1][1..] && edges[1..][..i - 1] == edges[..i][1..];
    }
  }

  // The target of the only edge from an id.
  method NextOf(edges: seq<RouteEdge>, id: string) returns (next: string, twice: bool)
    requires forall i :: 0 <= i < |edges| ==> edges[i].to != ""
    ensures twice <==> CountFrom(edges, id) >= 2
    ensures !twice ==> next == (if FirstTarget(edges, id).Some? then FirstTarget(edges, id).value else "")
  {
    hide CountFrom, FirstTarget;
    next := "";
    var i := 0;
    NextStart(edges, id);
    while i < |edges|
      invariant 0 <= i <= |edges| && CountFrom(edges[..i], id) == if next == "" then 0 else 1
      invariant next == if FirstTarget(edges[..i], id).Some? then FirstTarget(edges[..i], id).value else ""
    {
      CountEdge(edges, i, id);
      FirstTargetStep(edges, i, id);
      if edges[i].from == id {
        if next != "" {
          CountMore(edges, i + 1, id);
          return next, true;
        }
        next := edges[i].to;
      }
      i := i + 1;
    }
    assert edges[..i] == edges;
    return next, false;
  }

  lemma NextStart(edges: seq<RouteEdge>, id: string)
    ensures CountFrom(edges[..0], id) == 0 && FirstTarget(edges[..0], id) == None
  {}

  lemma {:induction false} CountMore(edges: seq<RouteEdge>, i: nat, id: string)
    requires i <= |edges|
    ensures CountFrom(edges, id) >= CountFrom(edges[..i], id)
    decreases |edges|
  {
    if i == |edges| {
      assert edges[..i] == edges;
    } else {
      CountMore(edges[..|edges| - 1], i, id);
      assert edges[..|edges| - 1][..i] == edges[..i];
    }
  }

  // ---- the walk ----

  // The walk so far, in step order, all before the supermarket.
  ghost predicate Walked(w: Workflow, path: seq<RouteNode>, visited: set<string>) {
    && Walk(w, path) && visited == Ids(path) && |visited| == |path|
    && (forall n :: n in path ==> n in w.nodes && n.role != "supermarket")
    && (forall i :: 0 <= i < |path| ==> path[i].stepIndex == i)
    && (path != [] ==> path[0].role == "supplier")
  }

  method CheckWalk(w: Workflow, supplier: RouteNode, supermarket: RouteNode) returns (error: RouteError)
    requires Checked(w) && supplier in w.nodes && supplier.role == "supplier"
    requires supermarket in w.nodes && supermarket.role == "supermarket"
    ensures error == Fine <==> exists s :: InStepOrder(w, s)
    ensures error !in {HasCycle, TwoNext, NoNext}
  {
    hide Checked, Walk, Next, FirstNode, Successor, Ids, FindNode;
    FirstIsSupplier(w, supplier, supermarket);
    CheckedNodes(w);
    var visited: set<string> := {};
    var current := supplier.nodeId;
    var expectedStepIndex := 0;
    ghost var path: seq<RouteNode>, at := [], supplier;
    WalkedStart(w);
    while true
      invariant Walked(w, path, visited) && Next(w, path) == Some(at) && at in w.nodes && at.nodeId == current
      invariant expectedStepIndex == |path| && visited <= Ids(w.nodes) && (path == [] ==> at == supplier)
      decreases Ids(w.nodes) - visited
    {
      NotVisited(w, path, visited, at, supplier);
      if current in visited {
        return HasCycle;
      }
      visited := visited + {current};
      var currentNode := FindNode(w.nodes, current);
      FoundAt(w, at, currentNode);
      if currentNode.None? || currentNode.value.stepIndex != expectedStepIndex {
        StepWrong(w, path, at);
        return BadStep;
      }
      if current == supermarket.nodeId {
        break;
      }
      NotSupermarket(w, at, supermarket);
      WalkedStep(w, path, visited - {current}, at);
      var next, twice := NextIn(w, current, at);
      if twice {
        return TwoNext;
      }
      if next == "" {
        return NoNext;
      }
      path := path + [at];
      at := Successor(w, at.nodeId).value;
      current := next;
      expectedStepIndex := expectedStepIndex + 1;
    }
    WalkEnds(w, path, at, supermarket, visited);
    if |visited| != |w.nodes| {
      return Apart;
    }
    return Fine;
  }

  lemma WalkedStart(w: Workflow)
    ensures Walked(w, [], {}) && Next(w, []) == FirstNode(w)
  {}

  lemma NotVisited(w: Workflow, path: seq<RouteNode>, visited: set<string>, at: RouteNode, supplier: RouteNode)
    requires Checked(w) && Walked(w, path, visited) && Next(w, path) == Some(at) && at in w.nodes
    requires path == [] ==> at == supplier
    ensures at.nodeId !in visited && at.nodeId in Ids(w.nodes)
  {
    hide Checked, FirstNode, Successor;
    WalkStep(w, path, at);
    var t := path + [at];
    if at.nodeId in visited {
      var i :| 0 <= i < |path| && path[i].nodeId == at.nodeId;
      NoReturn(w, t, i, |path|);
    }
  }

  lemma FoundAt(w: Workflow, at: RouteNode, found: Option<RouteNode>)
    requires Checked(w) && at in w.nodes && found == FindNode(w.nodes, at.nodeId)
    ensures found == Some(at)
  {
    hide Checked;
    if found.Some? { SameId(w, found.value, at); }
  }

  lemma NotSupermarket(w: Workflow, at: RouteNode, supermarket: RouteNode)
    requires Checked(w) && at in w.nodes && at.nodeId != supermarket.nodeId
    requires supermarket in w.nodes && supermarket.role == "supermarket"
    ensures at.role != "supermarket"
  {
    hide ValidEdges, Degrees, NodeOk, CountRole, DistinctIds;
    var i :| 0 <= i < |w.nodes| && w.nodes[i] == at;
    var j :| 0 <= j < |w.nodes| && w.nodes[j] == supermarket;
    if at.role == "supermarket" { RoleUnique(w.nodes, "supermarket", i, j); }
  }

  lemma WalkedStep(w: Workflow, path: seq<RouteNode>, visited: set<string>, at: RouteNode)
    requires Walked(w, path, visited) && Next(w, path) == Some(at) && at in w.nodes && at.nodeId !in visited
    requires at.role != "supermarket" && at.stepIndex == |path| && (path == [] ==> at.role == "supplier")
    ensures Walked(w, path + [at], visited + {at.nodeId}) && Next(w, path + [at]) == Successor(w, at.nodeId)
  {
    hide FirstNode, Successor;
    WalkStep(w, path, at);
    IdsStep(path, at);
  }

  lemma IdsStep(path: seq<RouteNode>, at: RouteNode)
    ensures Ids(path + [at]) == Ids(path) + {at.nodeId}
  {
    forall n | n in path ensures n in path + [at] {}
    forall n | n in path + [at] ensures n in path || n == at {}
  }

  // The walk passes every node at its position, so one wrong step index spoils every order.
  lemma StepWrong(w: Workflow, path: seq<RouteNode>, at: RouteNode)
    requires Walk(w, path) && Next(w, path) == Some(at) && at.stepIndex != |path|
    ensures !exists s :: InStepOrder(w, s)
  {
    hide FirstNode, Successor;
    if s :| InStepOrder(w, s) {
      WalkStep(w, path, at);
      var t := path + [at];
      if |s| > |path| {
        WalkSame(w, t, s, |path|);
      } else {
        WalkSame(w, t, s, |s| - 1);
        WalkLink(w, t, |s| - 1);
      }
    }
  }

  // The target of the node's only edge; a second edge or none is ruled out by the degrees.
  method NextIn(w: Workflow, current: string, ghost at: RouteNode) returns (next: string, twice: bool)
    requires Checked(w) && at in w.nodes && at.role != "supermarket" && current == at.nodeId
    ensures !twice && next != "" && Successor(w, at.nodeId).Some? && Successor(w, at.nodeId).value.nodeId == next
    ensures Successor(w, at.nodeId).value in w.nodes
  {
    hide Checked, Successor, FirstTarget;
    forall i | 0 <= i < |w.edges| ensures w.edges[i].to != "" { TargetNamed(w, w.edges[i]); }
    next, twice := NextOf(w.edges, current);
    NodeDegrees(w, at);
    SuccessorOf(w, at);
    NodeDegrees(w, Successor(w, at.nodeId).value);
  }

  lemma TargetNamed(w: Workflow, e: RouteEdge)
    requires Checked(w) && e in w.edges
    ensures e.to != ""
  {
    hide Checked;
    EdgeAt(w, e);
    var n :| n in w.nodes && n.nodeId == e.to;
    NodeDegrees(w, n);
  }

  // At the supermarket the walk is over; it is complete when it has met as many nodes as there are.
  lemma WalkEnds(w: Workflow, path: seq<RouteNode>, at: RouteNode, supermarket: RouteNode, visited: set<string>)
    requires Checked(w) && Walked(w, path, visited - {at.nodeId}) && Next(w, path) == Some(at) && at in w.nodes
    requires at.stepIndex == |path| && at.nodeId in visited && at.nodeId == supermarket.nodeId
    requires supermarket in w.nodes && supermarket.role == "supermarket"
    ensures |visited| == |w.nodes| <==> exists s :: InStepOrder(w, s)
  {
    hide Checked, FirstNode, Successor;
    SameId(w, at, supermarket);
    SuccessorOf(w, at);
    WalkStep(w, path, at);
    var t := path + [at];
    assert Ordered(w, t);
    assert |visited| == |t|;
    if |visited| == |w.nodes| { assert InStepOrder(w, t); }
    if s :| InStepOrder(w, s) { OrderedUnique(w, s, t); }
  }

  // workflow_is_valid. The messages about cycles and about several or no outgoing connections are never given:
  // the degrees rule them out.
  method WorkflowIsValid(nodes: seq<RouteNode>, edges: seq<RouteEdge>) returns (ok: bool, error: RouteError)
    ensures ok <==> ValidRoute(Workflow("", nodes, edges))
    ensures ok <==> error == Fine
    ensures error !in {HasCycle, TwoNext, NoNext}
  {
    hide ValidNodes, ValidEdges, Degrees, InStepOrder;
    error := CheckNodes(nodes);
    if error != Fine {
      return false, error;
    }
    var incoming, outgoing;
    error, incoming, outgoing := CheckEdges(nodes, edges);
    if error != Fine {
      return false, error;
    }
    RolesPresent(nodes);
    var supplier := FindRole(nodes, "supplier");
    var supermarket := FindRole(nodes, "supermarket");
    if supplier.None? || supermarket.None? {
      return false, BadStart;
    }
    error := CheckDegrees(nodes, edges, incoming, outgoing, supplier.value, supermarket.value);
    if error != Fine {
      return false, error;
    }
    error := CheckWalk(Workflow("", nodes, edges), supplier.value, supermarket.value);
    return error == Fine, error;
  }

  lemma RolesPresent(nodes: seq<RouteNode>)
    requires ValidNodes(nodes)
    ensures exists i :: 0 <= i < |nodes| && nodes[i].role == "supplier"
    ensures exists i :: 0 <= i < |nodes| && nodes[i].role == "supermarket"
  {
    hide CountRole, NodeOk, DistinctIds;
    var i := RoleFound(nodes, "supplier");
    var j := RoleFound(nodes, "supermarket");
  }
}
