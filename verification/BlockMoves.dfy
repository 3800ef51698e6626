// The steps that reach the caller, and the steps that create or give up spans.
module BlockMoves {
  import opened PageSpans
  import opened Blocks
  import opened FreeLists
  import opened BlockBooks
  import opened BlockSteps

  // ---- one block goes to the caller, or comes back ----

  function HandedOut(g: Books, t: nat, i: nat): Books
    requires At(g.lists, CacheKey(t, i)) != [] && At(g.lists, CacheKey(t, i))[0] in g.slots
  {
    g.(lists := Popped(g.lists, CacheKey(t, i)), slots := Relabel(g.slots, At(g.lists, CacheKey(t, i))[0], Hands))
  }

  function TakenBack(g: Books, t: nat, i: nat, b: Addr): Books
    requires b in g.slots
  {
    g.(lists := Pushed(g.lists, CacheKey(t, i), b), slots := Relabel(g.slots, b, CacheKey(t, i)))
  }

  lemma RelabelSameNodes(g: Books, g': Books, b: Addr, to: Key)
    requires b in g.slots && g'.slots == Relabel(g.slots, b, to) && g'.used == g.used && g'.large == g.large
    requires g'.central == g.central
    ensures SameNodes(g, g')
  {
    SpansSameSelf(g.used);
  }

  // One node changes its place and suits the new one.
  lemma RelabelPlaces(g: Books, g': Books, ps: nat, b: Addr, to: Key)
    requires HomesOk(g, ps) && PlacesOk(g, ps) && b in g.slots && HomesOk(g', ps)
    requires g'.slots == Relabel(g.slots, b, to) && g'.used == g.used && g'.flights == g.flights
    requires g.slots[b].home in g.used && Settles(g.used[g.slots[b].home], ps, Slot(g.slots[b].home, to), b, g.flights)
    ensures PlacesOk(g', ps)
  {
    hide HomesOk, PlacesOk, Settles;
    forall c | c in g'.slots
      ensures g'.slots[c].home in g'.used && Settles(g'.used[g'.slots[c].home], ps, g'.slots[c], c, g'.flights)
    {
      PlacesSettle(g, ps, c);
    }
    HomesUsed(g', ps);
    SettlesPlaces(g', ps);
  }

  lemma HomesUsed(g: Books, ps: nat)
    requires HomesOk(g, ps)
    ensures forall b :: b in g.slots ==> g.slots[b].home in g.used
  {}

  lemma HandOutKeeps(g: Books, ps: nat, t: nat, i: nat)
    requires Kept(g, ps) && t !in g.flights && At(g.lists, CacheKey(t, i)) != []
    ensures var b := At(g.lists, CacheKey(t, i))[0];
      && b in g.slots && Small(g, g.slots[b].home) && IsWhole(g.used[g.slots[b].home], ps, b)
      && g.used[g.slots[b].home].blockSize == SizeOf(i)
      && Kept(HandedOut(g, t, i), ps)
  {
    hide SizesOk, CentralOk, NodesKnown, CountsOk, Present, Distinct, At, IsWhole, SizeOf, BatchNum, IsNode;
    var from := CacheKey(t, i);
    var b := At(g.lists, from)[0];
    PlaceOf(g.lists, g.slots, from, b);
    PlaceFits(g, ps, b);
    assert Small(g, g.slots[b].home);
    HandOutRest(g, ps, t, i);
  }

  lemma HandOutRest(g: Books, ps: nat, t: nat, i: nat)
    requires Kept(g, ps) && t !in g.flights && At(g.lists, CacheKey(t, i)) != []
    requires var b := At(g.lists, CacheKey(t, i))[0];
      b in g.slots && g.slots[b].home in g.used && IsWhole(g.used[g.slots[b].home], ps, b)
    ensures Kept(HandedOut(g, t, i), ps)
  {
    hide SizesOk, CentralOk, HomesOk, NodesKnown, PlacesOk, CountsOk, Filed, At, IsWhole, BatchNum, SizeOf, Popped;
    var g', from := HandedOut(g, t, i), CacheKey(t, i);
    var b := At(g.lists, from)[0];
    RelabelSameNodes(g, g', b, Hands);
    NodesSame(g, g', ps);
    RelabelPlaces(g, g', ps, b, Hands);
    PopFiles(g.lists, g.slots, from);
    forall k ensures At(g'.lists, k) == if k == from then At(g.lists, k)[1..] else At(g.lists, k) {
      PoppedAt(g.lists, from, k);
    }
    SpanListsSame(g, g', ps);
    forall u | u in g'.flights ensures FlightOk(g', u) { assert FlightOk(g, u); }
    assert FlightsOk(g') && ShortOk(g');
  }

  lemma PoppedAt(lists: Heads, from: Key, k: Key)
    requires At(lists, from) != []
    ensures At(Popped(lists, from), k) == if k == from then At(lists, k)[1..] else At(lists, k)
  {}

  lemma PushedAt(lists: Heads, to: Key, b: Addr, k: Key)
    ensures At(Pushed(lists, to, b), k) == if k == to then [b] + At(lists, k) else At(lists, k)
  {}

  // A block that its holder may free from thread t with the size of list i.
  predicate MayFree(g: Books, t: nat, i: nat, b: Addr) {
    && t !in g.flights && i < CLASSES
    && b in g.slots && g.slots[b].at == Hands && g.slots[b].home in g.used
    && g.used[g.slots[b].home].blockSize == SizeOf(i)
  }

  lemma TakeBackKeeps(g: Books, ps: nat, t: nat, i: nat, b: Addr)
    requires Kept(g, ps) && MayFree(g, t, i, b)
    ensures Core(TakenBack(g, t, i, b), ps)
    ensures At(TakenBack(g, t, i, b).lists, CacheKey(t, i)) == [b] + At(g.lists, CacheKey(t, i))
    ensures forall u, j :: u != t || j != i ==>
      At(TakenBack(g, t, i, b).lists, CacheKey(u, j)) == At(g.lists, CacheKey(u, j))
  {
    hide SizesOk, CentralOk, HomesOk, NodesKnown, PlacesOk, CountsOk, Filed, At, IsWhole, BatchNum, SizeOf, Pushed,
      ShortOk;
    var g', to := TakenBack(g, t, i, b), CacheKey(t, i);
    RelabelSameNodes(g, g', b, to);
    NodesSame(g, g', ps);
    PlacesSettle(g, ps, b);
    RelabelPlaces(g, g', ps, b, to);
    PushFiles(g.lists, g.slots, to, b);
    forall k ensures At(g'.lists, k) == if k == to then [b] + At(g.lists, k) else At(g.lists, k) {
      PushedAt(g.lists, to, b, k);
    }
    SpanListsSame(g, g', ps);
    forall u | u in g'.flights ensures FlightOk(g', u) { assert FlightOk(g, u); }
    assert FlightsOk(g');
  }

  // ---- a new central span ----

  function SpanAdded(g: Books, ps: nat, r: Ref, s: Span, i: nat): Books
    requires i < |g.central| && s.blockSize > 0
  {
    g.(used := g.used[r := s], central := g.central[i := g.central[i] + [r]],
       lists := WithSpan(g.lists, r, AllNodes(s, ps)), slots := Added(g.slots, r, AllNodes(s, ps)))
  }

  // A span just handed out by the page cache: its pages belong to no other used span.
  ghost predicate NewSpanOk(g: Books, ps: nat, r: Ref, s: Span, i: nat) {
    && i < CLASSES && |g.central| == CLASSES && r !in g.used && s.blockSize == SizeOf(i) && s.pageCount >= 1
    && s.freeCount == Total(s, ps)
    && forall q, p :: q in g.used && Within(g.used[q], p) ==> !Within(s, p)
  }

  lemma NewNodesUnknown(g: Books, ps: nat, r: Ref, s: Span, i: nat, b: Addr)
    requires ps > 0 && HomesOk(g, ps) && NewSpanOk(g, ps, r, s, i) && IsNode(s, ps, b)
    ensures b !in g.slots
  {
    hide IsNode;
    NodePage(s, ps, b);
    if b in g.slots { NodePage(g.used[g.slots[b].home], ps, b); }
  }

  lemma AddCentral(g: Books, ps: nat, r: Ref, s: Span, i: nat)
    requires SizesOk(g) && CentralOk(g) && NewSpanOk(g, ps, r, s, i)
    ensures SizesOk(SpanAdded(g, ps, r, s, i)) && CentralOk(SpanAdded(g, ps, r, s, i))
  {
    hide AllNodes, Within, Total;
    var g' := SpanAdded(g, ps, r, s, i);
    assert forall q :: Small(g', q) <==> Small(g, q) || q == r;
    assert NoDup(g.central[i]) && r !in g.central[i];
  }

  lemma AddHomes(g: Books, ps: nat, r: Ref, s: Span, i: nat)
    requires ps > 0 && SizesOk(g) && HomesOk(g, ps) && NewSpanOk(g, ps, r, s, i)
    ensures HomesOk(SpanAdded(g, ps, r, s, i), ps)
  {
    hide AllNodes, Within, Total, IsNode;
    var g' := SpanAdded(g, ps, r, s, i);
    AllNodesAre(s, ps);
    assert forall q :: Small(g', q) <==> Small(g, q) || q == r;
    forall b | b in g'.slots ensures Small(g', g'.slots[b].home) && IsNode(g'.used[g'.slots[b].home], ps, b) {}
  }

  lemma AddKnown(g: Books, ps: nat, r: Ref, s: Span, i: nat)
    requires ps > 0 && SizesOk(g) && HomesOk(g, ps) && NodesKnown(g, ps) && NewSpanOk(g, ps, r, s, i)
    ensures NodesKnown(SpanAdded(g, ps, r, s, i), ps)
  {
    hide AllNodes, Within, Total, IsNode, HomesOk;
    var g' := SpanAdded(g, ps, r, s, i);
    AllNodesAre(s, ps);
    forall q, b | Small(g', q) && IsNode(g'.used[q], ps, b) ensures b in g'.slots && g'.slots[b].home == q {
      if q != r {
        assert Small(g, q);
        if IsNode(s, ps, b) { NewNodesUnknown(g, ps, r, s, i, b); }
      }
    }
  }

  lemma AddPlaces(g: Books, ps: nat, r: Ref, s: Span, i: nat)
    requires ps > 0 && HomesOk(g, ps) && PlacesOk(g, ps) && NewSpanOk(g, ps, r, s, i)
    requires HomesOk(SpanAdded(g, ps, r, s, i), ps)
    ensures PlacesOk(SpanAdded(g, ps, r, s, i), ps)
  {
    hide AllNodes, Within, Total, IsNode, IsWhole, HomesOk;
    var g' := SpanAdded(g, ps, r, s, i);
    HomesUsed(g', ps);
    forall b | b in g'.slots ensures Settles(g'.used[g'.slots[b].home], ps, g'.slots[b], b, g'.flights) {
      if b !in AllNodes(s, ps) { PlacesSettle(g, ps, b); }
    }
    SettlesPlaces(g', ps);
  }

  lemma NoListYet(g: Books, ps: nat, r: Ref)
    requires HomesOk(g, ps) && PlacesOk(g, ps) && InPlace(g.lists, g.slots) && r !in g.used
    ensures At(g.lists, SpanKey(r)) == []
  {
    var s := At(g.lists, SpanKey(r));
    if s != [] {
      PlaceOf(g.lists, g.slots, SpanKey(r), s[0]);
      PlaceFits(g, ps, s[0]);
    }
  }

  lemma AddKeeps(g: Books, ps: nat, r: Ref, s: Span, i: nat)
    requires ps > 0 && Kept(g, ps) && NewSpanOk(g, ps, r, s, i)
    ensures Kept(SpanAdded(g, ps, r, s, i), ps)
  {
    hide SizesOk, CentralOk, HomesOk, NodesKnown, PlacesOk, CountsOk, InPlace, Present, Distinct, At, IsNode,
      AllNodes, Within, Total, BatchNum;
    var g' := SpanAdded(g, ps, r, s, i);
    AddCentral(g, ps, r, s, i);
    AddHomes(g, ps, r, s, i);
    AddKnown(g, ps, r, s, i);
    AddPlaces(g, ps, r, s, i);
    AddCounts(g, ps, r, s, i);
    AllNodesAre(s, ps);
    forall b | b in AllNodes(s, ps) ensures b !in g.slots { NewNodesUnknown(g, ps, r, s, i, b); }
    NoListYet(g, ps, r);
    AddFiles(g.lists, g.slots, r, AllNodes(s, ps));
    forall k ensures At(g'.lists, k) == if k == SpanKey(r) then AllNodes(s, ps) else At(g.lists, k) {
      WithSpanAt(g.lists, r, AllNodes(s, ps), k);
    }
    forall u | u in g'.flights ensures FlightOk(g', u) { assert FlightOk(g, u); }
    assert FlightsOk(g') && ShortOk(g');
  }

  lemma WithSpanAt(lists: Heads, r: Ref, s: seq<Addr>, k: Key)
    ensures At(WithSpan(lists, r, s), k) == if k == SpanKey(r) then s else At(lists, k)
  {}

  lemma AddCounts(g: Books, ps: nat, r: Ref, s: Span, i: nat)
    requires ps > 0 && CountsOk(g, ps) && NewSpanOk(g, ps, r, s, i)
    ensures CountsOk(SpanAdded(g, ps, r, s, i), ps)
  {
    hide At, CountOk, AllNodes, IsNode, Within;
    var g' := SpanAdded(g, ps, r, s, i);
    forall q | Small(g', q) ensures CountOk(g'.used[q], At(g'.lists, SpanKey(q)), ps) {
      WithSpanAt(g.lists, r, AllNodes(s, ps), SpanKey(q));
      if q == r { FreshCount(s, ps); } else { assert Small(g, q); }
    }
  }

  lemma FreshCount(s: Span, ps: nat)
    requires ps > 0 && s.blockSize > 0 && s.pageCount >= 1 && s.freeCount == Total(s, ps)
    ensures CountOk(s, AllNodes(s, ps), ps)
  {
    hide AllNodes, IsNode;
    AllNodesAre(s, ps);
  }

  // ---- a central span with all its blocks back is given up ----

  function SpanDropped(g: Books, r: Ref, i: nat): Books
    requires i < |g.central|
  {
    g.(used := g.used - {r}, central := g.central[i := Without(g.central[i], r)],
       lists := g.lists - {SpanKey(r)}, slots := Dropped(g.slots, At(g.lists, SpanKey(r))))
  }

  // All blocks of span r are on its free list.
  ghost predicate AllBack(g: Books, ps: nat, r: Ref, i: nat) {
    && i < CLASSES && |g.central| == CLASSES && Small(g, r) && g.used[r].blockSize == SizeOf(i)
    && g.used[r].freeCount == Total(g.used[r], ps)
  }

  // Then the nodes of that span and of no other are on the list.
  lemma ListIsSpan(g: Books, ps: nat, r: Ref, i: nat, b: Addr)
    requires ps > 0 && Core(g, ps) && AllBack(g, ps, r, i) && b in g.slots
    ensures b in At(g.lists, SpanKey(r)) <==> g.slots[b].home == r
  {
    hide SizesOk, CentralOk, FlightsOk, CountsOk, NodesKnown, Present, Total, IsNode, IsWhole, AllNodes, At, NoDup;
    var s, list := g.used[r], At(g.lists, SpanKey(r));
    PlaceOf(g.lists, g.slots, SpanKey(r), b);
    PlaceFits(g, ps, b);
    if g.slots[b].home == r {
      SpanCount(g, ps, r);
      SpanPages(g, r);
      AllNodesAre(s, ps);
      assert IsNode(s, ps, b);
      assert NoDup(list);
      forall c | c in list ensures c in AllNodes(s, ps) {
        PlaceOf(g.lists, g.slots, SpanKey(r), c);
        PlaceFits(g, ps, c);
        assert IsNode(g.used[g.slots[c].home], ps, c);
      }
      AllPresent(list, AllNodes(s, ps), b);
    }
  }

  lemma SpanPages(g: Books, r: Ref)
    requires SizesOk(g) && Small(g, r)
    ensures g.used[r].blockSize > 0 && g.used[r].pageCount >= 1
  {}

  lemma DropCentral(g: Books, ps: nat, r: Ref, i: nat)
    requires SizesOk(g) && CentralOk(g) && AllBack(g, ps, r, i)
    ensures SizesOk(SpanDropped(g, r, i)) && CentralOk(SpanDropped(g, r, i))
  {
    hide Total, Without;
    var g' := SpanDropped(g, r, i);
    assert forall q :: Small(g', q) <==> Small(g, q) && q != r;
    WithoutNoDup(g.central[i], r);
    assert forall j :: 0 <= j < CLASSES && j != i ==> r !in g.central[j];
    hide SizeOf, NoDup;
    forall j, q | 0 <= j < CLASSES && q in g'.central[j]
      ensures Small(g', q) && g'.used[q].blockSize == SizeOf(j)
    {
      assert q in g.central[j] && q != r && Small(g, q);
    }
    forall j, q | 0 <= j < CLASSES && Small(g', q) && g'.used[q].blockSize == SizeOf(j)
      ensures q in g'.central[j]
    {
      assert q != r && Small(g, q);
    }
  }

  lemma DropNodes(g: Books, ps: nat, r: Ref, i: nat)
    requires ps > 0 && Core(g, ps) && AllBack(g, ps, r, i)
    ensures HomesOk(SpanDropped(g, r, i), ps) && NodesKnown(SpanDropped(g, r, i), ps)
    ensures PlacesOk(SpanDropped(g, r, i), ps)
  {
    hide SizesOk, CentralOk, CountsOk, FlightsOk, Filed, At, IsNode, IsWhole, SizeOf, Total;
    var g' := SpanDropped(g, r, i);
    forall b | b in g.slots ensures b in g'.slots <==> g.slots[b].home != r { ListIsSpan(g, ps, r, i, b); }
    forall b | b in g'.slots ensures Small(g', g'.slots[b].home) && IsNode(g'.used[g'.slots[b].home], ps, b) {}
    forall q, b | Small(g', q) && IsNode(g'.used[q], ps, b) ensures b in g'.slots && g'.slots[b].home == q {
      assert Small(g, q) && IsNode(g.used[q], ps, b);
    }
    forall b | b in g'.slots ensures Settles(g'.used[g'.slots[b].home], ps, g'.slots[b], b, g'.flights) {
      PlacesSettle(g, ps, b);
    }
    SettlesPlaces(g', ps);
  }

  lemma DropKeeps(g: Books, ps: nat, r: Ref, i: nat)
    requires ps > 0 && Kept(g, ps) && AllBack(g, ps, r, i)
    ensures Kept(SpanDropped(g, r, i), ps)
    ensures forall t :: At(SpanDropped(g, r, i).lists, FlightKey(t)) == At(g.lists, FlightKey(t))
  {
    hide SizesOk, CentralOk, HomesOk, NodesKnown, PlacesOk, CountsOk, InPlace, Present, Distinct, At, Total, BatchNum,
      SizeOf, Dropped, Without;
    var g' := SpanDropped(g, r, i);
    DropCentral(g, ps, r, i);
    DropNodes(g, ps, r, i);
    DropFiles(g.lists, g.slots, r);
    forall k ensures At(g'.lists, k) == if k == SpanKey(r) then [] else At(g.lists, k) { DroppedAt(g.lists, r, k); }
    DropCounts(g, ps, r, i);
    forall u | u in g'.flights ensures FlightOk(g', u) { assert FlightOk(g, u); }
    assert FlightsOk(g') && ShortOk(g');
  }

  lemma DroppedAt(lists: Heads, r: Ref, k: Key)
    ensures At(lists - {SpanKey(r)}, k) == if k == SpanKey(r) then [] else At(lists, k)
  {}

  lemma DropCounts(g: Books, ps: nat, r: Ref, i: nat)
    requires CountsOk(g, ps) && AllBack(g, ps, r, i)
    ensures CountsOk(SpanDropped(g, r, i), ps)
  {
    hide At, CountOk, Dropped, Total;
    var g' := SpanDropped(g, r, i);
    forall q | Small(g', q) ensures CountOk(g'.used[q], At(g'.lists, SpanKey(q)), ps) {
      DroppedAt(g.lists, r, SpanKey(q));
      assert Small(g, q);
    }
  }

  // ---- large objects have a span of their own ----

  function LargeAdded(g: Books, r: Ref, s: Span): Books {
    g.(used := g.used[r := s], large := g.large + {r})
  }

  function LargeDropped(g: Books, r: Ref): Books {
    g.(used := g.used - {r}, large := g.large - {r})
  }

  // Steps on large spans leave the central spans alone.
  lemma SameSmallKeeps(g: Books, g': Books, ps: nat)
    requires Kept(g, ps) && g'.central == g.central && g'.lists == g.lists && g'.slots == g.slots
    requires g'.flights == g.flights
    requires g'.large <= g'.used.Keys
    requires forall r :: Small(g', r) <==> Small(g, r)
    requires forall r :: Small(g, r) ==> r in g'.used && g'.used[r] == g.used[r]
    ensures Kept(g', ps)
  {
    hide InPlace, Present, Distinct, At, IsNode, IsWhole, CountOk, Settles, NoDup;
    SameSmallNodes(g, g', ps);
    forall u | u in g'.flights ensures FlightOk(g', u) { assert FlightOk(g, u); }
    forall r | Small(g', r) ensures CountOk(g'.used[r], At(g'.lists, SpanKey(r)), ps) { assert Small(g, r); }
  }

  lemma SameSmallNodes(g: Books, g': Books, ps: nat)
    requires SizesOk(g) && CentralOk(g) && HomesOk(g, ps) && NodesKnown(g, ps) && PlacesOk(g, ps)
    requires g'.central == g.central && g'.slots == g.slots && g'.flights == g.flights && g'.large <= g'.used.Keys
    requires forall r :: Small(g', r) <==> Small(g, r)
    requires forall r :: Small(g, r) ==> r in g'.used && g'.used[r] == g.used[r]
    ensures SizesOk(g') && CentralOk(g') && HomesOk(g', ps) && NodesKnown(g', ps) && PlacesOk(g', ps)
  {
    hide IsNode, IsWhole, NoDup, SizeOf;
    forall b | b in g'.slots ensures Small(g', g'.slots[b].home) && IsNode(g'.used[g'.slots[b].home], ps, b) {
      assert Small(g, g.slots[b].home);
    }
    forall r, b | Small(g', r) && IsNode(g'.used[r], ps, b) ensures b in g'.slots && g'.slots[b].home == r {
      assert Small(g, r) && IsNode(g.used[r], ps, b);
    }
    forall b | b in g'.slots ensures Settles(g'.used[g'.slots[b].home], ps, g'.slots[b], b, g'.flights) {
      PlacesSettle(g, ps, b);
    }
    SettlesPlaces(g', ps);
  }

  lemma LargeAddKeeps(g: Books, ps: nat, r: Ref, s: Span)
    requires Kept(g, ps) && r !in g.used
    ensures Kept(LargeAdded(g, r, s), ps)
  {
    hide CentralOk, HomesOk, NodesKnown, PlacesOk, CountsOk, FlightsOk, ShortOk, Filed;
    SameSmallKeeps(g, LargeAdded(g, r, s), ps);
  }

  lemma LargeDropKeeps(g: Books, ps: nat, r: Ref)
    requires Kept(g, ps) && r in g.large
    ensures Kept(LargeDropped(g, r), ps)
  {
    hide CentralOk, HomesOk, NodesKnown, PlacesOk, CountsOk, FlightsOk, ShortOk, Filed;
    SameSmallKeeps(g, LargeDropped(g, r), ps);
  }
}
