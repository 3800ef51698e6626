// The blocks of a span: where they lie, how many there are, and the list they are first threaded on.
module Blocks {
  import opened PageSpans
  import Arithmetic

  const ALIGN: nat := 8
  const MAX_SMALL: nat := 4096

  function AlignUp(size: nat, align: nat): nat
    requires align > 0
  {
    if size % align != 0 then (size / align + 1) * align else size / align * align
  }

  function Base(s: Span, ps: nat): nat {
    s.pageId * ps
  }

  function Limit(s: Span, ps: nat): nat {
    (s.pageId + s.pageCount) * ps
  }

  // A list node threaded through the span; the last one may stick out of the span.
  predicate IsNode(s: Span, ps: nat, b: Addr) {
    s.blockSize > 0 && Base(s, ps) <= b < Limit(s, ps) && (b - Base(s, ps)) % s.blockSize == 0
  }

  // A node with a whole block of memory.
  predicate IsWhole(s: Span, ps: nat, b: Addr) {
    IsNode(s, ps, b) && b + s.blockSize <= Limit(s, ps)
  }

  lemma NodePage(s: Span, ps: nat, b: Addr)
    requires ps > 0 && IsNode(s, ps, b)
    ensures Within(s, b / ps)
  {
    Arithmetic.QuotientBound(ps, b, s.pageId + s.pageCount);
    Arithmetic.QuotientBound(ps, b, s.pageId);
  }

  // ---- threading ----

  // The nodes from cur in steps of a: all that have another node before end, and one more.
  function Threaded(cur: Addr, end: Addr, a: nat): (s: seq<Addr>)
    requires a > 0
    ensures s != []
    decreases end - cur
  {
    if cur + a < end then [cur] + Threaded(cur + a, end, a) else [cur]
  }

  method ThreadNodes(start: Addr, end: Addr, a: nat) returns (list: seq<Addr>)
    requires a > 0
    ensures list == Threaded(start, end, a)
  {
    var cur := start;
    list := [];
    while cur + a < end
      invariant Threaded(start, end, a) == list + Threaded(cur, end, a)
      decreases end - cur
    {
      list := list + [cur];
      cur := cur + a;
    }
    list := list + [cur];
  }

  lemma {:induction false} ThreadedNodes(cur: Addr, end: Addr, a: nat, b: Addr)
    requires a > 0 && cur < end
    ensures b in Threaded(cur, end, a) <==> cur <= b < end && (b - cur) % a == 0
    decreases end - cur
  {
    if cur + a < end {
      ThreadedNodes(cur + a, end, a, b);
      if b >= cur + a { StepMod(b - cur - a, a); }
      if cur < b < cur + a { SmallMod(b - cur, a); }
    } else if cur < b < end {
      SmallMod(b - cur, a);
    }
  }

  lemma StepMod(x: nat, a: nat)
    requires a > 0
    ensures (x + a) % a == x % a
  {
    Arithmetic.DivRem(a, x);
    assert (x / a + 1) * a == x / a * a + a;
    Arithmetic.DivMod(a, x / a + 1, x % a);
  }

  lemma SmallMod(x: nat, a: nat)
    requires 0 < x < a
    ensures x % a == x
  {}

  lemma {:induction false} ThreadedNoDup(cur: Addr, end: Addr, a: nat)
    requires a > 0 && cur < end
    ensures NoDup(Threaded(cur, end, a)) && forall x :: x in Threaded(cur, end, a) ==> cur <= x
    decreases end - cur
  {
    if cur + a < end {
      ThreadedNoDup(cur + a, end, a);
      var rest := Threaded(cur + a, end, a);
      forall k | 0 <= k < |rest| ensures rest[k] > cur {
        assert rest[k] in rest;
      }
    }
  }

  // As many nodes as the size divided by a, rounded up; the remainder sticks out behind the last one.
  lemma {:induction false} ThreadedLength(cur: Addr, end: Addr, a: nat)
    requires a > 0 && cur < end
    ensures var t := Threaded(cur, end, a);
      && |t| == (end - cur) / a + (if (end - cur) % a == 0 then 0 else 1)
      && t[|t| - 1] + a >= end
    decreases end - cur
  {
    if cur + a < end {
      ThreadedLength(cur + a, end, a);
      StepMod(end - cur - a, a);
      StepDiv(end - cur - a, a);
    } else if cur + a == end {
      Arithmetic.DivMod(a, 1, 0);
    } else {
      Arithmetic.DivMod(a, 0, end - cur);
    }
  }

  lemma StepDiv(x: nat, a: nat)
    requires a > 0
    ensures (x + a) / a == x / a + 1
  {
    Arithmetic.DivRem(a, x);
    assert (x / a + 1) * a == x / a * a + a;
    Arithmetic.DivMod(a, x / a + 1, x % a);
  }

  // ---- counting ----

  // How many whole blocks a span has.
  function Total(s: Span, ps: nat): nat {
    if s.blockSize == 0 then 0 else s.pageCount * ps / s.blockSize
  }

  // One when a node sticks out.
  function Tails(s: Span, ps: nat): (n: nat)
    ensures n <= 1
  {
    if s.blockSize == 0 || s.pageCount * ps % s.blockSize == 0 then 0 else 1
  }

  function AllNodes(s: Span, ps: nat): seq<Addr>
    requires s.blockSize > 0
  {
    Threaded(Base(s, ps), Limit(s, ps), s.blockSize)
  }

  lemma SpanExtent(s: Span, ps: nat)
    requires s.pageCount > 0 && ps > 0
    ensures Limit(s, ps) == Base(s, ps) + s.pageCount * ps && Base(s, ps) < Limit(s, ps)
  {
    Arithmetic.MulMono(ps, 1, s.pageCount);
  }

  lemma AllNodesAre(s: Span, ps: nat)
    requires s.blockSize > 0 && s.pageCount > 0 && ps > 0
    ensures NoDup(AllNodes(s, ps)) && |AllNodes(s, ps)| == Total(s, ps) + Tails(s, ps)
    ensures forall b :: b in AllNodes(s, ps) <==> IsNode(s, ps, b)
  {
    hide Threaded, NoDup;
    SpanExtent(s, ps);
    ThreadedNoDup(Base(s, ps), Limit(s, ps), s.blockSize);
    ThreadedLength(Base(s, ps), Limit(s, ps), s.blockSize);
    forall b: nat ensures b in AllNodes(s, ps) <==> IsNode(s, ps, b) {
      ThreadedNodes(Base(s, ps), Limit(s, ps), s.blockSize, b);
    }
  }

  // The truncated node, when there is one, is the last node threaded.
  lemma TailIsLast(s: Span, ps: nat, b: Addr)
    requires s.blockSize > 0 && s.pageCount > 0 && ps > 0 && IsNode(s, ps, b)
    ensures IsWhole(s, ps, b) <==> Tails(s, ps) == 0 || b != AllNodes(s, ps)[|AllNodes(s, ps)| - 1]
  {
    var t := AllNodes(s, ps);
    var last := t[|t| - 1];
    SpanExtent(s, ps);
    AllNodesAre(s, ps);
    ThreadedLength(Base(s, ps), Limit(s, ps), s.blockSize);
    assert last in t;
    NodesApart(s, ps, b, last);
    WholeEnd(s, ps, last);
  }

  // Two nodes of a span are at least a block apart.
  lemma NodesApart(s: Span, ps: nat, b: Addr, c: Addr)
    requires IsNode(s, ps, b) && IsNode(s, ps, c)
    ensures b == c || b + s.blockSize <= c || c + s.blockSize <= b
  {
    var a, x, y := s.blockSize, b - Base(s, ps), c - Base(s, ps);
    Arithmetic.DivRem(a, x);
    Arithmetic.DivRem(a, y);
    if x / a < y / a { Arithmetic.RowOrder(a, x / a, y / a); }
    if y / a < x / a { Arithmetic.RowOrder(a, y / a, x / a); }
  }

  // The last node is whole exactly when nothing is left over.
  lemma WholeEnd(s: Span, ps: nat, last: Addr)
    requires s.pageCount > 0 && ps > 0 && IsNode(s, ps, last) && last + s.blockSize >= Limit(s, ps)
    ensures last + s.blockSize == Limit(s, ps) <==> Tails(s, ps) == 0
  {
    var a, x := s.blockSize, last - Base(s, ps);
    SpanExtent(s, ps);
    Arithmetic.DivRem(a, x);
    var q, n := x / a, s.pageCount * ps;
    assert (q + 1) * a == q * a + a;
    if n == x + a { Arithmetic.DivMod(a, q + 1, 0); } else { Arithmetic.DivMod(a, q, n - x); }
  }

  // ---- distinct members ----

  function Members(s: seq<Addr>): set<Addr> {
    set x | x in s
  }

  lemma {:induction false} MembersCount(s: seq<Addr>)
    requires NoDup(s)
    ensures |Members(s)| == |s|
  {
    if s != [] {
      var front, last := s[..|s| - 1], s[|s| - 1];
      assert NoDup(front);
      MembersCount(front);
      assert last !in front;
      assert Members(s) == Members(front) + {last};
    }
  }

  // Distinct members of t, as many as t has: all of t.
  lemma AllPresent(s: seq<Addr>, t: seq<Addr>, b: Addr)
    requires NoDup(s) && NoDup(t) && |s| >= |t| && b in t
    requires forall x :: x in s ==> x in t
    ensures b in s
  {
    hide NoDup;
    MembersCount(s);
    MembersCount(t);
    SubsetAll(Members(s), Members(t));
    assert b in Members(t);
  }

  lemma SubsetAll(s: set<Addr>, t: set<Addr>)
    requires s <= t && |s| >= |t|
    ensures s == t
  {
    if s != t {
      var x :| x in t && x !in s;
      assert |s + {x}| == |s| + 1;
      SmallerSubset(s + {x}, t);
    }
  }

  lemma SmallerSubset(s: set<Addr>, t: set<Addr>)
    requires s <= t
    ensures |s| <= |t|
  {
    assert t == s + (t - s);
  }
}
