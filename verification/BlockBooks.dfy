// What the three cache layers keep about every block, as values.
module BlockBooks {
  import opened PageSpans
  import opened Blocks
  import opened FreeLists

  const CLASSES: nat := 512

  // A thread between a locked section and its own lists: fetching blocks, or returning them.
  datatype Flight = Flight(index: nat, returning: bool)

  // used: the spans handed out by the page cache. central: the central cache's span lists. large: the used spans
  // that serve one large object each. lists: the intrusive lists. slots: every node of a central span.
  datatype Books = Books(used: Spans, central: Lists, large: set<Ref>, lists: Heads, slots: Slots,
    flights: map<nat, Flight>)

  function BatchNum(size: nat): nat {
    if size <= 64 then 32 else if size <= 256 then 16 else if size <= 1024 then 8 else 4
  }

  function SizeOf(i: nat): nat {
    ALIGN * (i + 1)
  }

  predicate Small(g: Books, r: Ref) {
    r in g.used && r !in g.large
  }

  // ---- central lists: a central span is in exactly the list of its block size ----

  ghost predicate SizesOk(g: Books) {
    && g.large <= g.used.Keys
    && forall r :: Small(g, r) ==>
      && ALIGN <= g.used[r].blockSize <= MAX_SMALL && g.used[r].blockSize % ALIGN == 0 && g.used[r].pageCount >= 1
  }

  ghost predicate CentralOk(g: Books) {
    && |g.central| == CLASSES
    && (forall i :: 0 <= i < CLASSES ==> NoDup(g.central[i]))
    && (forall i, r :: 0 <= i < CLASSES && r in g.central[i] ==> Small(g, r) && g.used[r].blockSize == SizeOf(i))
    && (forall i, r :: 0 <= i < CLASSES && Small(g, r) && g.used[r].blockSize == SizeOf(i) ==> r in g.central[i])
  }

  // ---- slots: exactly the nodes of the central spans ----

  ghost predicate HomesOk(g: Books, ps: nat) {
    forall b :: b in g.slots ==> Small(g, g.slots[b].home) && IsNode(g.used[g.slots[b].home], ps, b)
  }

  ghost predicate NodesKnown(g: Books, ps: nat) {
    forall r, b :: Small(g, r) && IsNode(g.used[r], ps, b) ==> b in g.slots && g.slots[b].home == r
  }

  // ---- places: a node is only where its size belongs, and only whole blocks leave their span ----

  predicate FitsAt(s: Span, slot: Slot, flights: map<nat, Flight>) {
    match slot.at
    case SpanKey(r) => r == slot.home
    case CacheKey(t, i) => s.blockSize == SizeOf(i)
    case FlightKey(t) => t in flights && s.blockSize == SizeOf(flights[t].index)
    case Hands => true
  }

  ghost predicate PlacesOk(g: Books, ps: nat)
    requires HomesOk(g, ps)
  {
    forall b :: b in g.slots ==>
      var slot := g.slots[b];
      FitsAt(g.used[slot.home], slot, g.flights) && (!slot.at.SpanKey? ==> IsWhole(g.used[slot.home], ps, b))
  }

  // ---- counts: free_count is the number of usable nodes, and a truncated node is at the bottom ----

  predicate CountOk(s: Span, list: seq<Addr>, ps: nat) {
    && s.blockSize > 0
    && |list| == s.freeCount + Tails(s, ps)
    && (Tails(s, ps) == 1 ==> list[|list| - 1] == AllNodes(s, ps)[|AllNodes(s, ps)| - 1])
  }

  ghost predicate CountsOk(g: Books, ps: nat) {
    forall r :: Small(g, r) ==> CountOk(g.used[r], At(g.lists, SpanKey(r)), ps)
  }

  // ---- thread lists are short; a fetched chain goes to an empty list ----

  ghost predicate ShortOk(g: Books) {
    forall t, i :: |At(g.lists, CacheKey(t, i))| <= 2 * BatchNum(SizeOf(i))
  }

  predicate FlightOk(g: Books, t: nat)
    requires t in g.flights
  {
    var f := g.flights[t];
    && f.index < CLASSES
    && (!f.returning ==> At(g.lists, CacheKey(t, f.index)) == [])
    && (!f.returning ==> 1 <= |At(g.lists, FlightKey(t))| <= BatchNum(SizeOf(f.index)))
  }

  ghost predicate FlightsOk(g: Books) {
    forall t :: t in g.flights ==> FlightOk(g, t)
  }

  // Everything but the length of the thread lists, which a free exceeds by one until it has returned a batch.
  ghost predicate Core(g: Books, ps: nat) {
    && SizesOk(g) && CentralOk(g) && HomesOk(g, ps) && NodesKnown(g, ps) && PlacesOk(g, ps) && CountsOk(g, ps)
    && FlightsOk(g) && Filed(g.lists, g.slots)
  }

  ghost predicate Kept(g: Books, ps: nat) {
    Core(g, ps) && ShortOk(g)
  }

  // ---- steps that move nodes and create or give up no span ----

  predicate SameShape(s: Span, s': Span) {
    s'.pageId == s.pageId && s'.pageCount == s.pageCount && s'.blockSize == s.blockSize
  }

  ghost predicate SameNodes(g: Books, g': Books) {
    && g'.large == g.large && g'.central == g.central
    && g'.used.Keys == g.used.Keys && (forall r :: r in g.used ==> SameShape(g.used[r], g'.used[r]))
    && g'.slots.Keys == g.slots.Keys && (forall b :: b in g.slots ==> g'.slots[b].home == g.slots[b].home)
  }

  lemma NodesSame(g: Books, g': Books, ps: nat)
    requires SameNodes(g, g') && SizesOk(g) && CentralOk(g) && HomesOk(g, ps) && NodesKnown(g, ps)
    ensures SizesOk(g') && CentralOk(g') && HomesOk(g', ps) && NodesKnown(g', ps)
  {
    SpansSame(g, g');
    HomesSame(g, g', ps);
    KnownSame(g, g', ps);
  }

  lemma HomesSame(g: Books, g': Books, ps: nat)
    requires SameNodes(g, g') && HomesOk(g, ps)
    ensures HomesOk(g', ps)
  {
    hide IsNode;
    forall b | b in g'.slots ensures Small(g', g'.slots[b].home) && IsNode(g'.used[g'.slots[b].home], ps, b) {
      var r := g.slots[b].home;
      assert Small(g, r) && IsNode(g.used[r], ps, b);
      ShapeNode(g.used[r], g'.used[r], ps, b);
    }
  }

  lemma KnownSame(g: Books, g': Books, ps: nat)
    requires SameNodes(g, g') && NodesKnown(g, ps)
    ensures NodesKnown(g', ps)
  {
    hide IsNode;
    forall r, b | Small(g', r) && IsNode(g'.used[r], ps, b) ensures b in g'.slots && g'.slots[b].home == r {
      ShapeNode(g.used[r], g'.used[r], ps, b);
      assert Small(g, r) && IsNode(g.used[r], ps, b);
    }
  }

  lemma ShapeNode(s: Span, s': Span, ps: nat, b: Addr)
    requires SameShape(s, s')
    ensures IsNode(s', ps, b) <==> IsNode(s, ps, b)
    ensures IsWhole(s', ps, b) <==> IsWhole(s, ps, b)
    ensures Tails(s', ps) == Tails(s, ps) && Total(s', ps) == Total(s, ps)
    ensures s.blockSize > 0 ==> AllNodes(s', ps) == AllNodes(s, ps)
  {}

  lemma SpansSame(g: Books, g': Books)
    requires SameNodes(g, g') && SizesOk(g) && CentralOk(g)
    ensures SizesOk(g') && CentralOk(g')
  {
    hide SizeOf, NoDup;
    assert forall r :: Small(g', r) <==> Small(g, r);
    forall i, r | 0 <= i < CLASSES && r in g'.central[i]
      ensures Small(g', r) && g'.used[r].blockSize == SizeOf(i)
    {
      assert Small(g, r);
    }
    forall i, r | 0 <= i < CLASSES && Small(g', r) && g'.used[r].blockSize == SizeOf(i)
      ensures r in g'.central[i]
    {
      assert Small(g, r);
    }
  }

  lemma PlaceFits(g: Books, ps: nat, b: Addr)
    requires HomesOk(g, ps) && PlacesOk(g, ps) && b in g.slots
    ensures var slot := g.slots[b];
      && slot.home in g.used && FitsAt(g.used[slot.home], slot, g.flights)
      && (!slot.at.SpanKey? ==> IsWhole(g.used[slot.home], ps, b))
  {
    hide IsWhole, IsNode, FitsAt;
  }

  lemma SpanCount(g: Books, ps: nat, r: Ref)
    requires CountsOk(g, ps) && Small(g, r)
    ensures CountOk(g.used[r], At(g.lists, SpanKey(r)), ps)
  {}

  // Nobody has a chain in flight without a flight.
  lemma NoFlight(g: Books, ps: nat, t: nat)
    requires HomesOk(g, ps) && PlacesOk(g, ps) && InPlace(g.lists, g.slots) && t !in g.flights
    ensures At(g.lists, FlightKey(t)) == []
  {
    var s := At(g.lists, FlightKey(t));
    if s != [] {
      PlaceOf(g.lists, g.slots, FlightKey(t), s[0]);
      PlaceFits(g, ps, s[0]);
    }
  }

  // The first free_count nodes of a span's list are whole blocks of that span.
  lemma UsableWhole(g: Books, ps: nat, r: Ref, b: Addr)
    requires ps > 0 && SizesOk(g) && HomesOk(g, ps) && PlacesOk(g, ps) && CountsOk(g, ps) && Filed(g.lists, g.slots)
    requires Small(g, r) && g.used[r].freeCount <= |At(g.lists, SpanKey(r))|
    requires b in At(g.lists, SpanKey(r))[..g.used[r].freeCount]
    ensures b in g.slots && g.slots[b].home == r && IsWhole(g.used[r], ps, b)
  {
    hide NoDup, IsNode, Tails, AllNodes;
    var list := At(g.lists, SpanKey(r));
    PlaceOf(g.lists, g.slots, SpanKey(r), b);
    SpanCount(g, ps, r);
    PlaceFits(g, ps, b);
    TailIsLast(g.used[r], ps, b);
    if Tails(g.used[r], ps) != 0 {
      assert NoDup(list);
      FrontNotLast(list, g.used[r].freeCount, b);
    }
  }

  lemma FrontNotLast(list: seq<Addr>, n: nat, b: Addr)
    requires NoDup(list) && n < |list| && b in list[..n]
    ensures b != list[|list| - 1]
  {}
}
