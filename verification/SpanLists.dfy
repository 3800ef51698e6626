// The doubly linked list of spans: sentinels at both ends, constant-time removal from anywhere.
module SpanLists {

  class Node {
    var prev: Node?
    var next: Node?

    constructor ()
      ensures prev == null && next == null
    {
      prev, next := null, null;
    }
  }

  // Neighbours point at each other, and no node occurs twice.
  ghost predicate Linked(s: seq<Node>)
    reads s
  {
    && (forall i :: 0 <= i < |s| - 1 ==> s[i].next == s[i + 1] && s[i + 1].prev == s[i])
    && forall i, j :: 0 <= i < j < |s| ==> s[i] != s[j]
  }

  // A node between the last two.
  lemma AppendLinked(s: seq<Node>, n: nat, span: Node)
    requires |s| == n + 2 && span !in s && forall i, j :: 0 <= i < j < |s| ==> s[i] != s[j]
    requires s[n].next == span && span.prev == s[n] && span.next == s[n + 1] && s[n + 1].prev == span
    requires forall j :: 0 <= j < n ==> s[j].next == s[j + 1] && s[j + 1].prev == s[j]
    ensures Linked(s[..n + 1] + [span] + [s[n + 1]])
  {
    var t := s[..n + 1] + [span] + [s[n + 1]];
    forall i | 0 <= i < |t| - 1 ensures t[i].next == t[i + 1] && t[i + 1].prev == t[i] {
      if i < n { assert t[i] == s[i] && t[i + 1] == s[i + 1]; }
    }
  }

  lemma ChainCut(head: Node, spans: seq<Node>, tail: Node, k: nat)
    requires k < |spans|
    ensures var s := [head] + spans + [tail];
      [head] + (spans[..k] + spans[k + 1..]) + [tail] == s[..k + 1] + s[k + 2..]
  {}

  // The nodes before and after position k + 1, joined.
  lemma CutLinked(s: seq<Node>, t: seq<Node>, k: nat)
    requires k + 2 < |s| && t == s[..k + 1] + s[k + 2..]
    requires forall i, j :: 0 <= i < j < |s| ==> s[i] != s[j]
    requires s[k].next == s[k + 2] && s[k + 2].prev == s[k]
    requires forall j :: 0 <= j < |s| - 1 && j != k && j != k + 1 ==> s[j].next == s[j + 1] && s[j + 1].prev == s[j]
    ensures Linked(t) && s[k + 1] !in t
  {
    forall i | 0 <= i < |t| - 1 ensures t[i].next == t[i + 1] && t[i + 1].prev == t[i] {
      var j := if i <= k then i else i + 1;
      assert t[i] == s[j];
      if i != k { assert t[i + 1] == s[j + 1]; }
    }
  }

  class SpanList {
    const head: Node
    const tail: Node
    ghost var spans: seq<Node>   // the spans in the list, front to back

    ghost function Chain(): seq<Node>
      reads this
    {
      [head] + spans + [tail]
    }

    ghost predicate Valid()
      reads this, Chain()
    {
      Linked(Chain())
    }

    constructor ()
      ensures Valid() && spans == [] && fresh(head) && fresh(tail)
    {
      var h := new Node();
      var t := new Node();
      head, tail := h, t;
      spans := [];
      new;
      head.next := tail;
      tail.prev := head;
    }

    lemma FirstLink()
      requires Valid()
      ensures head.next == (if spans == [] then tail else spans[0])
      ensures head.next == tail <==> spans == []
    {
      var s := Chain();
      assert s[0] == head && s[|s| - 1] == tail;
      assert s[0].next == s[0 + 1];
      assert spans != [] ==> s[1] == spans[0];
    }

    lemma LastLink()
      requires Valid()
      ensures tail.prev == Chain()[|spans|] && Chain()[|spans|].next == tail
    {
      var s := Chain();
      var n := |spans|;
      assert s[n + 1] == tail;
      assert s[n].next == s[n + 1] && s[n + 1].prev == s[n];
    }

    method PushBack(span: Node)
      requires Valid() && span !in Chain()
      modifies this, span, tail, Chain()
      ensures Valid() && spans == old(spans) + [span]
    {
      ghost var s := Chain();
      ghost var n := |spans|;
      LastLink();
      assert s[n + 1] == tail && s[n] != tail;
      span.prev := tail.prev;
      span.next := tail;
      tail.prev.next := span;
      tail.prev := span;
      spans := spans + [span];
      forall j | 0 <= j < n ensures s[j].next == s[j + 1] && s[j + 1].prev == s[j] {
        assert old(s[j].next == s[j + 1] && s[j + 1].prev == s[j]);
        assert s[j] != s[n] && s[j] != s[n + 1] && s[j + 1] != s[n + 1];
      }
      AppendLinked(s, n, span);
      assert Chain() == s[..n + 1] + [span] + [s[n + 1]];
    }

    // The span is unlinked wherever it is.
    method RemoveSpan(span: Node, ghost k: nat)
      requires Valid() && k < |spans| && spans[k] == span
      modifies this, Chain()
      ensures Valid() && spans == old(spans)[..k] + old(spans)[k + 1..] && span !in Chain()
      ensures span.prev == null && span.next == null
    {
      ghost var s, was := Chain(), spans;
      assert s[k + 1] == span;
      assert s[k].next == s[k + 1] && s[k + 1].prev == s[k];
      assert s[k + 1].next == s[k + 1 + 1] && s[k + 1 + 1].prev == s[k + 1];
      span.prev.next := span.next;
      span.next.prev := span.prev;
      span.prev := null;
      span.next := null;
      spans := spans[..k] + spans[k + 1..];
      forall j | 0 <= j < |s| - 1 && j != k && j != k + 1 ensures s[j].next == s[j + 1] && s[j + 1].prev == s[j] {
        assert old(s[j].next == s[j + 1] && s[j + 1].prev == s[j]);
        assert s[j] != s[k] && s[j] != s[k + 1] && s[j + 1] != s[k + 1] && s[j + 1] != s[k + 2];
      }
      ChainCut(head, was, tail, k);
      CutLinked(s, Chain(), k);
    }

    method PopFront() returns (span: Node?)
      requires Valid()
      modifies this, Chain()
      ensures Valid()
      ensures old(spans) == [] ==> span == null && spans == []
      ensures old(spans) != [] ==> span == old(spans)[0] && spans == old(spans)[1..]
    {
      FirstLink();
      if head.next == tail {
        return null;
      }
      span := head.next;
      RemoveSpan(span, 0);
    }
  }
}
