// What a stored route means, apart from where its nodes are drawn, and the comparison that decides it.
module RouteMeaning {
  import opened Routes
  import opened RouteValidity
  import opened Sorting

  function Strip(n: RouteNode): RouteNode {
    n.(positionX := 0, positionY := 0)
  }

  function StripAll(nodes: seq<RouteNode>): (s: seq<RouteNode>)
    ensures |s| == |nodes| && forall i :: 0 <= i < |s| ==> s[i] == Strip(nodes[i])
  {
    if nodes == [] then [] else StripAll(nodes[..|nodes| - 1]) + [Strip(nodes[|nodes| - 1])]
  }

  datatype Meaning = Meaning(nodes: multiset<RouteNode>, edges: multiset<RouteEdge>)

  // The nodes without positions, and the edges, in no order.
  function MeaningOf(nodes: seq<RouteNode>, edges: seq<RouteEdge>): Meaning {
    Meaning(multiset(StripAll(nodes)), multiset(edges))
  }

  // ---- orders ----

  function IdLess(a: RouteNode, b: RouteNode): bool {
    TextLess(a.nodeId, b.nodeId)
  }

  function EdgeLess(a: RouteEdge, b: RouteEdge): bool {
    TextLess(a.from, b.from) || (a.from == b.from && TextLess(a.to, b.to))
  }

  // ORDER BY step_index, position_x, node_id.
  function StepLess(a: RouteNode, b: RouteNode): bool {
    || a.stepIndex < b.stepIndex
    || (a.stepIndex == b.stepIndex && (a.positionX < b.positionX || (a.positionX == b.positionX && IdLess(a, b))))
  }

  lemma IdOrder()
    ensures Order(IdLess)
  {
    hide TextLess;
    TextOrder();
  }

  lemma EdgeOrder(s: seq<RouteEdge>)
    ensures Order(EdgeLess) && NoTies(s, EdgeLess)
  {
    hide TextLess;
    TextOrder();
    forall x: RouteEdge, y: RouteEdge, z: RouteEdge | EdgeLess(x, y) && EdgeLess(y, z) ensures EdgeLess(x, z) {}
    forall x: RouteEdge, y: RouteEdge, z: RouteEdge | !EdgeLess(x, y) && !EdgeLess(y, z) ensures !EdgeLess(x, z) {
      EdgeNegation(x, y, z);
    }
  }

  // Below z.from means below y.from, or y.from below z.from.
  lemma Follow(x: string, y: string, z: string)
    requires Order(TextLess)
    ensures TextLess(x, z) ==> TextLess(x, y) || TextLess(y, z)
  {
    hide TextLess;
  }

  lemma EdgeNegation(x: RouteEdge, y: RouteEdge, z: RouteEdge)
    requires Order(TextLess) && forall a, b :: !TextLess(a, b) && !TextLess(b, a) ==> a == b
    requires !EdgeLess(x, y) && !EdgeLess(y, z)
    ensures !EdgeLess(x, z)
  {
    hide TextLess;
    Follow(x.from, y.from, z.from);
  }

  lemma NoIdTies(nodes: seq<RouteNode>)
    requires DistinctIds(nodes)
    ensures NoTies(StripAll(nodes), IdLess)
  {
    hide TextLess;
    TextOrder();
    var s := StripAll(nodes);
    forall x, y | x in s && y in s && !IdLess(x, y) && !IdLess(y, x) ensures x == y {
      var i :| 0 <= i < |s| && s[i] == x;
      var j :| 0 <= j < |s| && s[j] == y;
      assert nodes[i].nodeId == nodes[j].nodeId;
    }
  }

  // ---- sorting does not look at positions ----

  lemma StripFront(s: seq<RouteNode>)
    requires s != []
    ensures StripAll(s) == [Strip(s[0])] + StripAll(s[1..])
  {}

  lemma {:induction false} InsertStrips(s: seq<RouteNode>, x: RouteNode)
    ensures StripAll(Insert(s, x, IdLess)) == Insert(StripAll(s), Strip(x), IdLess)
  {
    hide StripAll, TextLess;
    if s != [] {
      StripFront(s);
      assert IdLess(x, s[0]) <==> IdLess(Strip(x), Strip(s[0]));
      if IdLess(x, s[0]) {
        StripFront([x] + s);
        assert ([x] + s)[1..] == s;
      } else {
        InsertStrips(s[1..], x);
        var r := Insert(s[1..], x, IdLess);
        StripFront([s[0]] + r);
        assert ([s[0]] + r)[1..] == r;
        assert StripAll(s)[1..] == StripAll(s[1..]);
      }
    }
  }

  lemma {:induction false} SortStrips(s: seq<RouteNode>)
    ensures StripAll(Sort(s, IdLess)) == Sort(StripAll(s), IdLess)
  {
    hide Insert, TextLess, IdLess;
    if s != [] {
      var n := |s| - 1;
      SortStrips(s[..n]);
      InsertStrips(Sort(s[..n], IdLess), s[n]);
      assert StripAll(s)[..n] == StripAll(s[..n]);
    }
  }

  lemma SameNodes(left: seq<RouteNode>, right: seq<RouteNode>)
    ensures StripAll(Sort(left, IdLess)) == StripAll(Sort(right, IdLess)) ==>
      multiset(StripAll(left)) == multiset(StripAll(right))
    ensures DistinctIds(left) && multiset(StripAll(left)) == multiset(StripAll(right)) ==>
      StripAll(Sort(left, IdLess)) == StripAll(Sort(right, IdLess))
  {
    hide StripAll, Sort, IdLess, DistinctIds;
    SortStrips(left);
    SortStrips(right);
    if DistinctIds(left) {
      IdOrder();
      NoIdTies(left);
      SortDecides(StripAll(left), StripAll(right), IdLess);
    }
  }

  lemma SameEdges(left: seq<RouteEdge>, right: seq<RouteEdge>)
    ensures Sort(left, EdgeLess) == Sort(right, EdgeLess) <==> multiset(left) == multiset(right)
  {
    hide Sort, EdgeLess;
    EdgeOrder(left);
    SortDecides(left, right, EdgeLess);
  }

  lemma SizesDiffer(leftNodes: seq<RouteNode>, leftEdges: seq<RouteEdge>, rightNodes: seq<RouteNode>,
      rightEdges: seq<RouteEdge>)
    requires |leftNodes| != |rightNodes| || |leftEdges| != |rightEdges|
    ensures MeaningOf(leftNodes, leftEdges) != MeaningOf(rightNodes, rightEdges)
  {
    assert |multiset(StripAll(leftNodes))| == |leftNodes| && |multiset(StripAll(rightNodes))| == |rightNodes|;
    assert |multiset(leftEdges)| == |leftEdges| && |multiset(rightEdges)| == |rightEdges|;
  }

  // The comparison of sorted copies. Equal copies mean the same; the other way round the ids of one side must not
  // repeat, since nodes of one id may be sorted in any order.
  method RouteSemanticsEqual(leftNodes: seq<RouteNode>, leftEdges: seq<RouteEdge>, rightNodes: seq<RouteNode>,
      rightEdges: seq<RouteEdge>) returns (equal: bool)
    ensures equal ==> MeaningOf(leftNodes, leftEdges) == MeaningOf(rightNodes, rightEdges)
    ensures DistinctIds(leftNodes) && MeaningOf(leftNodes, leftEdges) == MeaningOf(rightNodes, rightEdges) ==> equal
  {
    hide MeaningOf, StripAll, Sort, DistinctIds;
    if |leftNodes| != |rightNodes| || |leftEdges| != |rightEdges| {
      SizesDiffer(leftNodes, leftEdges, rightNodes, rightEdges);
      return false;
    }
    var left, right := Sort(leftNodes, IdLess), Sort(rightNodes, IdLess);
    MeaningSplits(leftNodes, leftEdges, rightNodes, rightEdges);
    SameNodes(leftNodes, rightNodes);
    SameEdges(leftEdges, rightEdges);
    var index := 0;
    while index < |left|
      invariant 0 <= index <= |left|
      invariant forall i :: 0 <= i < index ==> Strip(left[i]) == Strip(right[i])
    {
      var a, b := left[index], right[index];
      if a.nodeId != b.nodeId || a.nodeType != b.nodeType || a.caption != b.caption || a.role != b.role
        || a.username != b.username || a.stepIndex != b.stepIndex
      {
        assert StripAll(left)[index] != StripAll(right)[index];
        return false;
      }
      assert Strip(a) == Strip(b);
      index := index + 1;
    }
    assert StripAll(left) == StripAll(right);
    return Sort(leftEdges, EdgeLess) == Sort(rightEdges, EdgeLess);
  }

  lemma MeaningSplits(leftNodes: seq<RouteNode>, leftEdges: seq<RouteEdge>, rightNodes: seq<RouteNode>,
      rightEdges: seq<RouteEdge>)
    ensures MeaningOf(leftNodes, leftEdges) == MeaningOf(rightNodes, rightEdges)
      <==>
      multiset(StripAll(leftNodes)) == multiset(StripAll(rightNodes))
        && multiset(leftEdges) == multiset(rightEdges)
  {}
}
