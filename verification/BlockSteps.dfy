// Every step of the block caches keeps the books.
module BlockSteps {
  import opened PageSpans
  import opened Blocks
  import opened FreeLists
  import opened BlockBooks

  // ---- chains that move from one list to another ----

  // The first n nodes of one list go to the front of another; free counts and flights may change with it.
  function Shifted(g: Books, from: Key, to: Key, n: nat, used: Spans, flights: map<nat, Flight>): Books
    requires n <= |At(g.lists, from)|
  {
    Books(used, g.central, g.large, Moved(g.lists, from, to, n), Relabelled(g.slots, At(g.lists, from)[..n], to),
        flights)
  }

  // The spans are where they were.
  ghost predicate SameSpans(used: Spans, used': Spans) {
    used'.Keys == used.Keys && forall r :: r in used ==> SameShape(used[r], used'[r])
  }

  // What a node needs to be at a place.
  predicate Settles(s: Span, ps: nat, slot: Slot, b: Addr, flights: map<nat, Flight>) {
    FitsAt(s, slot, flights) && (!slot.at.SpanKey? ==> IsWhole(s, ps, b))
  }

  lemma ShiftSameNodes(g: Books, from: Key, to: Key, n: nat, used: Spans, flights: map<nat, Flight>)
    requires n <= |At(g.lists, from)| && SameSpans(g.used, used)
    ensures SameNodes(g, Shifted(g, from, to, n, used, flights))
  {
    hide At, Moved, SameShape;
  }

  lemma SettlesSame(s: Span, s': Span, ps: nat, slot: Slot, b: Addr, flights: map<nat, Flight>)
    requires SameShape(s, s') && Settles(s, ps, slot, b, flights)
    ensures Settles(s', ps, slot, b, flights)
  {}

  // The moved nodes must suit the new place, the others must still suit theirs.
  lemma ShiftPlaces(g: Books, ps: nat, from: Key, to: Key, n: nat, used: Spans, flights: map<nat, Flight>)
    requires n <= |At(g.lists, from)| && SameSpans(g.used, used) && HomesOk(g, ps)
    requires HomesOk(Shifted(g, from, to, n, used, flights), ps)
    requires forall b :: b in g.slots ==>
      var slot := if b in At(g.lists, from)[..n] then Slot(g.slots[b].home, to) else g.slots[b];
      Settles(g.used[slot.home], ps, slot, b, flights)
    ensures PlacesOk(Shifted(g, from, to, n, used, flights), ps)
  {
    hide At, Moved, IsNode, Settles, SameShape;
    var g' := Shifted(g, from, to, n, used, flights);
    forall b | b in g'.slots
      ensures g'.slots[b].home in g'.used && Settles(g'.used[g'.slots[b].home], ps, g'.slots[b], b, flights)
    {
      SettlesSame(g.used[g.slots[b].home], used[g.slots[b].home], ps, g'.slots[b], b, flights);
    }
    SettlesPlaces(g', ps);
  }

  lemma SettlesPlaces(g: Books, ps: nat)
    requires HomesOk(g, ps)
    requires forall b :: b in g.slots ==> Settles(g.used[g.slots[b].home], ps, g.slots[b], b, g.flights)
    ensures PlacesOk(g, ps)
  {
    hide IsNode, IsWhole, FitsAt;
  }

  lemma PlacesSettle(g: Books, ps: nat, b: Addr)
    requires HomesOk(g, ps) && PlacesOk(g, ps) && b in g.slots
    ensures g.slots[b].home in g.used && Settles(g.used[g.slots[b].home], ps, g.slots[b], b, g.flights)
  {
    hide IsWhole, IsNode, FitsAt;
  }

  // The core from its parts, for steps that keep the nodes.
  lemma ShiftKeeps(g: Books, ps: nat, from: Key, to: Key, n: nat, used: Spans, flights: map<nat, Flight>)
    requires Core(g, ps) && n <= |At(g.lists, from)| && from != to && to != Hands && SameSpans(g.used, used)
    requires forall b :: b in g.slots ==>
      var slot := if b in At(g.lists, from)[..n] then Slot(g.slots[b].home, to) else g.slots[b];
      slot.home in g.used && Settles(g.used[slot.home], ps, slot, b, flights)
    requires var g' := Shifted(g, from, to, n, used, flights); CountsOk(g', ps) && FlightsOk(g')
    ensures Core(Shifted(g, from, to, n, used, flights), ps)
  {
    hide SizesOk, CentralOk, HomesOk, NodesKnown, PlacesOk, CountsOk, ShortOk, FlightsOk, Filed, At, Moved, Settles,
      SameSpans;
    ShiftSameNodes(g, from, to, n, used, flights);
    NodesSame(g, Shifted(g, from, to, n, used, flights), ps);
    ShiftPlaces(g, ps, from, to, n, used, flights);
    MoveFiles(g.lists, g.slots, from, to, n);
  }

  // ---- AllocateBatch: a batch leaves a central span ----

  function LessFree(used: Spans, r: Ref, n: nat): Spans
    requires r in used && n <= used[r].freeCount
  {
    used[r := used[r].(freeCount := used[r].freeCount - n)]
  }

  function Fetched(g: Books, r: Ref, t: nat, i: nat, n: nat): Books
    requires r in g.used && n <= |At(g.lists, SpanKey(r))| && n <= g.used[r].freeCount
  {
    Shifted(g, SpanKey(r), FlightKey(t), n, LessFree(g.used, r, n), g.flights[t := Flight(i, false)])
  }

  // A batch of n blocks of list i is in span r, and thread t has none and is not busy.
  ghost predicate CanFetch(g: Books, r: Ref, t: nat, i: nat, n: nat) {
    && Small(g, r) && i < CLASSES && g.used[r].blockSize == SizeOf(i)
    && t !in g.flights && At(g.lists, CacheKey(t, i)) == []
    && 1 <= n <= g.used[r].freeCount && n <= BatchNum(SizeOf(i))
  }

  lemma FetchSettles(g: Books, ps: nat, r: Ref, t: nat, i: nat, n: nat, b: Addr)
    requires ps > 0 && Kept(g, ps) && CanFetch(g, r, t, i, n) && n <= |At(g.lists, SpanKey(r))| && b in g.slots
    ensures var slot := if b in At(g.lists, SpanKey(r))[..n] then Slot(g.slots[b].home, FlightKey(t)) else g.slots[b];
      slot.home in g.used && Settles(g.used[slot.home], ps, slot, b, g.flights[t := Flight(i, false)])
  {
    hide Filed, SizesOk, HomesOk, PlacesOk, CountsOk, CentralOk, NodesKnown, FlightsOk, ShortOk, At, IsWhole, SizeOf;
    PlacesSettle(g, ps, b);
    if b in At(g.lists, SpanKey(r))[..n] {
      SpanListLong(g, ps, r);
      PrefixIn(At(g.lists, SpanKey(r)), n, g.used[r].freeCount, b);
      UsableWhole(g, ps, r, b);
    }
  }

  lemma SpanListLong(g: Books, ps: nat, r: Ref)
    requires CountsOk(g, ps) && Small(g, r)
    ensures g.used[r].freeCount <= |At(g.lists, SpanKey(r))|
  {
    SpanCount(g, ps, r);
  }

  lemma PrefixIn(s: seq<Addr>, n: nat, m: nat, b: Addr)
    requires n <= m <= |s| && b in s[..n]
    ensures b in s[..m]
  {
    var i :| 0 <= i < n && s[..n][i] == b;
    assert s[..m][i] == b;
  }

  lemma FetchCounts(g: Books, ps: nat, r: Ref, t: nat, i: nat, n: nat)
    requires CountsOk(g, ps) && Small(g, r) && n <= g.used[r].freeCount && n <= |At(g.lists, SpanKey(r))|
    ensures CountsOk(Fetched(g, r, t, i, n), ps)
  {
    hide At, Moved, Relabelled, CountOk;
    var g' := Fetched(g, r, t, i, n);
    forall q | Small(g', q) ensures CountOk(g'.used[q], At(g'.lists, SpanKey(q)), ps) {
      MovedAt(g.lists, SpanKey(r), FlightKey(t), n, SpanKey(q));
      assert Small(g, q);
      if q == r { FewerFree(g.used[r], At(g.lists, SpanKey(r)), n, ps); }
    }
  }

  lemma FewerFree(s: Span, list: seq<Addr>, n: nat, ps: nat)
    requires CountOk(s, list, ps) && n <= s.freeCount
    ensures n <= |list| && CountOk(s.(freeCount := s.freeCount - n), list[n..], ps)
  {
    hide AllNodes;
    ShapeNode(s, s.(freeCount := s.freeCount - n), ps, 0);
  }

  lemma FetchShort(g: Books, r: Ref, t: nat, i: nat, n: nat)
    requires ShortOk(g) && r in g.used && n <= g.used[r].freeCount && n <= |At(g.lists, SpanKey(r))|
    ensures ShortOk(Fetched(g, r, t, i, n))
  {
    hide At, Moved, Relabelled, BatchNum, SizeOf;
    forall u, j ensures |At(Moved(g.lists, SpanKey(r), FlightKey(t), n), CacheKey(u, j))| <= 2 * BatchNum(SizeOf(j)) {
      MovedAt(g.lists, SpanKey(r), FlightKey(t), n, CacheKey(u, j));
    }
  }

  lemma FetchFlights(g: Books, ps: nat, r: Ref, t: nat, i: nat, n: nat)
    requires Kept(g, ps) && CanFetch(g, r, t, i, n) && n <= |At(g.lists, SpanKey(r))|
    ensures FlightsOk(Fetched(g, r, t, i, n))
  {
    hide SizesOk, CentralOk, HomesOk, NodesKnown, PlacesOk, CountsOk, ShortOk, Distinct, Present, InPlace, At, Moved,
      Relabelled, BatchNum, SizeOf;
    NoFlight(g, ps, t);
    var g' := Fetched(g, r, t, i, n);
    forall u | u in g'.flights ensures FlightOk(g', u) {
      MovedAt(g.lists, SpanKey(r), FlightKey(t), n, FlightKey(u));
      MovedAt(g.lists, SpanKey(r), FlightKey(t), n, CacheKey(u, g'.flights[u].index));
      if u != t { assert FlightOk(g, u); }
    }
  }

  lemma FetchKeeps(g: Books, ps: nat, r: Ref, t: nat, i: nat, n: nat)
    requires ps > 0 && Kept(g, ps) && CanFetch(g, r, t, i, n)
    ensures n <= |At(g.lists, SpanKey(r))| && Kept(Fetched(g, r, t, i, n), ps)
  {
    hide SizesOk, CentralOk, HomesOk, NodesKnown, PlacesOk, CountsOk, ShortOk, FlightsOk, Filed, At, Moved,
      Relabelled, Settles;
    SpanListLong(g, ps, r);
    FetchCounts(g, ps, r, t, i, n);
    FetchShort(g, r, t, i, n);
    FetchFlights(g, ps, r, t, i, n);
    forall b | b in g.slots
      ensures var slot := if b in At(g.lists, SpanKey(r))[..n] then Slot(g.slots[b].home, FlightKey(t)) else g.slots[b];
        slot.home in g.used && Settles(g.used[slot.home], ps, slot, b, g.flights[t := Flight(i, false)])
    {
      FetchSettles(g, ps, r, t, i, n, b);
    }
    ShiftKeeps(g, ps, SpanKey(r), FlightKey(t), n, LessFree(g.used, r, n), g.flights[t := Flight(i, false)]);
  }

  // ---- the fetched chain is put on the thread's empty list ----

  function Spliced(g: Books, t: nat): Books
    requires t in g.flights
  {
    Shifted(g, FlightKey(t), CacheKey(t, g.flights[t].index), |At(g.lists, FlightKey(t))|, g.used, g.flights - {t})
  }

  lemma SpliceSettles(g: Books, ps: nat, t: nat, b: Addr)
    requires Core(g, ps) && t in g.flights && b in g.slots
    ensures var slot := if b in At(g.lists, FlightKey(t)) then Slot(g.slots[b].home, CacheKey(t, g.flights[t].index))
      else g.slots[b];
      slot.home in g.used && Settles(g.used[slot.home], ps, slot, b, g.flights - {t})
  {
    hide SizesOk, HomesOk, PlacesOk, CountsOk, CentralOk, NodesKnown, FlightsOk, At, IsWhole, SizeOf, Distinct;
    PlacesSettle(g, ps, b);
    PlaceOf(g.lists, g.slots, FlightKey(t), b);
  }

  // Lists of other keys stay; counts depend on span lists and spans only.
  lemma SpanListsSame(g: Books, g': Books, ps: nat)
    requires CountsOk(g, ps) && g'.used == g.used && g'.large == g.large
    requires forall r :: At(g'.lists, SpanKey(r)) == At(g.lists, SpanKey(r))
    ensures CountsOk(g', ps)
  {
    hide At, CountOk;
    forall r | Small(g', r) ensures CountOk(g'.used[r], At(g'.lists, SpanKey(r)), ps) {
      assert Small(g, r);
    }
  }

  lemma SpliceKeeps(g: Books, ps: nat, t: nat)
    requires Kept(g, ps) && t in g.flights && !g.flights[t].returning
    ensures Kept(Spliced(g, t), ps)
    ensures At(Spliced(g, t).lists, CacheKey(t, g.flights[t].index)) == At(g.lists, FlightKey(t)) != []
  {
    hide SizesOk, CentralOk, HomesOk, NodesKnown, PlacesOk, CountsOk, Filed, At, Moved, Relabelled, Settles, BatchNum,
      SizeOf;
    var g', i, from, n := Spliced(g, t), g.flights[t].index, FlightKey(t), |At(g.lists, FlightKey(t))|;
    assert At(g.lists, from)[..n] == At(g.lists, from);
    forall k ensures At(g'.lists, k)
      == if k == CacheKey(t, i) then At(g.lists, from) + At(g.lists, k) else if k == from then [] else At(g.lists, k)
    {
      MovedAt(g.lists, from, CacheKey(t, i), n, k);
    }
    assert FlightOk(g, t);
    assert At(g.lists, from) + [] == At(g.lists, from);
    SpanListsSame(g, g', ps);
    forall u | u in g'.flights ensures FlightOk(g', u) { assert FlightOk(g, u); }
    forall b | b in g.slots
      ensures var slot := if b in At(g.lists, from)[..n] then Slot(g.slots[b].home, CacheKey(t, i)) else g.slots[b];
        slot.home in g.used && Settles(g.used[slot.home], ps, slot, b, g.flights - {t})
    {
      SpliceSettles(g, ps, t, b);
    }
    SpansSameSelf(g.used);
    ShiftKeeps(g, ps, from, CacheKey(t, i), n, g.used, g.flights - {t});
  }

  lemma SpansSameSelf(used: Spans)
    ensures SameSpans(used, used)
  {}

  // ---- a batch leaves a thread's list to be returned ----

  function CutOff(g: Books, t: nat, i: nat, n: nat): Books
    requires n <= |At(g.lists, CacheKey(t, i))|
  {
    Shifted(g, CacheKey(t, i), FlightKey(t), n, g.used, g.flights[t := Flight(i, true)])
  }

  lemma CutSettles(g: Books, ps: nat, t: nat, i: nat, n: nat, b: Addr)
    requires Core(g, ps) && t !in g.flights && n <= |At(g.lists, CacheKey(t, i))| && b in g.slots
    ensures var slot := if b in At(g.lists, CacheKey(t, i))[..n] then Slot(g.slots[b].home, FlightKey(t))
      else g.slots[b];
      slot.home in g.used && Settles(g.used[slot.home], ps, slot, b, g.flights[t := Flight(i, true)])
  {
    hide SizesOk, HomesOk, PlacesOk, CountsOk, CentralOk, NodesKnown, FlightsOk, At, IsWhole, SizeOf, Distinct, Present;
    PlacesSettle(g, ps, b);
    PlaceOf(g.lists, g.slots, CacheKey(t, i), b);
  }

  // The list may be one longer than allowed before the cut.
  lemma CutKeeps(g: Books, ps: nat, t: nat, i: nat, n: nat)
    requires Core(g, ps) && t !in g.flights && i < CLASSES && n <= |At(g.lists, CacheKey(t, i))|
    requires |At(g.lists, CacheKey(t, i))| - n <= 2 * BatchNum(SizeOf(i))
    requires forall u, j :: u != t || j != i ==> |At(g.lists, CacheKey(u, j))| <= 2 * BatchNum(SizeOf(j))
    ensures Kept(CutOff(g, t, i, n), ps)
    ensures At(CutOff(g, t, i, n).lists, FlightKey(t)) == At(g.lists, CacheKey(t, i))[..n]
  {
    hide SizesOk, CentralOk, HomesOk, NodesKnown, PlacesOk, CountsOk, Filed, At, Moved, Relabelled, Settles, BatchNum,
      SizeOf;
    var g', from, to := CutOff(g, t, i, n), CacheKey(t, i), FlightKey(t);
    NoFlightCore(g, ps, t);
    forall k ensures At(g'.lists, k)
      == if k == to then At(g.lists, from)[..n] + At(g.lists, to) else if k == from then At(g.lists, from)[n..]
        else At(g.lists, k)
    {
      MovedAt(g.lists, from, to, n, k);
    }
    SpanListsSame(g, g', ps);
    forall u | u in g'.flights ensures FlightOk(g', u) { if u != t { assert FlightOk(g, u); } }
    forall b | b in g.slots
      ensures var slot := if b in At(g.lists, from)[..n] then Slot(g.slots[b].home, to) else g.slots[b];
        slot.home in g.used && Settles(g.used[slot.home], ps, slot, b, g.flights[t := Flight(i, true)])
    {
      CutSettles(g, ps, t, i, n, b);
    }
    SpansSameSelf(g.used);
    ShiftKeeps(g, ps, from, to, n, g.used, g.flights[t := Flight(i, true)]);
    assert ShortOk(g');
  }

  lemma NoFlightCore(g: Books, ps: nat, t: nat)
    requires Core(g, ps) && t !in g.flights
    ensures At(g.lists, FlightKey(t)) == []
  {
    hide SizesOk, CentralOk, HomesOk, NodesKnown, PlacesOk, CountsOk, FlightsOk, Distinct, Present, InPlace, At;
    NoFlight(g, ps, t);
  }

  // ---- FreeBatch: one node goes back to its span ----

  function MoreFree(used: Spans, r: Ref): Spans
    requires r in used
  {
    used[r := used[r].(freeCount := used[r].freeCount + 1)]
  }

  function Returned(g: Books, t: nat, r: Ref): Books
    requires r in g.used && At(g.lists, FlightKey(t)) != []
  {
    Shifted(g, FlightKey(t), SpanKey(r), 1, MoreFree(g.used, r), g.flights)
  }

  lemma ReturnSettles(g: Books, ps: nat, t: nat, b: Addr)
    requires Core(g, ps) && At(g.lists, FlightKey(t)) != [] && b in g.slots
    requires At(g.lists, FlightKey(t))[0] in g.slots
    ensures var r := g.slots[At(g.lists, FlightKey(t))[0]].home;
      var slot := if b in At(g.lists, FlightKey(t))[..1] then Slot(g.slots[b].home, SpanKey(r)) else g.slots[b];
      slot.home in g.used && Settles(g.used[slot.home], ps, slot, b, g.flights)
  {
    hide SizesOk, HomesOk, PlacesOk, CountsOk, CentralOk, NodesKnown, FlightsOk, At, IsWhole, SizeOf, Filed;
    PlacesSettle(g, ps, b);
  }

  lemma ReturnKeeps(g: Books, ps: nat, t: nat)
    requires Kept(g, ps) && t in g.flights && g.flights[t].returning && At(g.lists, FlightKey(t)) != []
    ensures var b := At(g.lists, FlightKey(t))[0]; b in g.slots && Small(g, g.slots[b].home)
    ensures var r := g.slots[At(g.lists, FlightKey(t))[0]].home;
      && g.used[r].blockSize == SizeOf(g.flights[t].index) && Kept(Returned(g, t, r), ps)
      && At(Returned(g, t, r).lists, FlightKey(t)) == At(g.lists, FlightKey(t))[1..]
  {
    hide SizesOk, CentralOk, NodesKnown, PlacesOk, CountsOk, Present, Distinct, At, Moved, Relabelled, IsNode,
      IsWhole, BatchNum, SizeOf, CountOk;
    var from := FlightKey(t);
    var b := At(g.lists, from)[0];
    PlaceOf(g.lists, g.slots, from, b);
    PlaceFits(g, ps, b);
    var r := g.slots[b].home;
    assert Small(g, r);
    ReturnRest(g, ps, t, r);
  }

  lemma ReturnRest(g: Books, ps: nat, t: nat, r: Ref)
    requires Kept(g, ps) && t in g.flights && g.flights[t].returning && At(g.lists, FlightKey(t)) != []
    requires At(g.lists, FlightKey(t))[0] in g.slots && r == g.slots[At(g.lists, FlightKey(t))[0]].home && Small(g, r)
    ensures Kept(Returned(g, t, r), ps)
    ensures At(Returned(g, t, r).lists, FlightKey(t)) == At(g.lists, FlightKey(t))[1..]
  {
    hide SizesOk, CentralOk, HomesOk, NodesKnown, PlacesOk, CountsOk, Filed, At, Moved, Relabelled, Settles, BatchNum,
      SizeOf, CountOk;
    var g', from, to := Returned(g, t, r), FlightKey(t), SpanKey(r);
    forall k ensures At(g'.lists, k)
      == if k == to then At(g.lists, from)[..1] + At(g.lists, to) else if k == from then At(g.lists, from)[1..]
        else At(g.lists, k)
    {
      MovedAt(g.lists, from, to, 1, k);
    }
    ReturnCounts(g, ps, t, r);
    forall u | u in g'.flights ensures FlightOk(g', u) { assert FlightOk(g, u); }
    forall b | b in g.slots
      ensures var slot := if b in At(g.lists, from)[..1] then Slot(g.slots[b].home, to) else g.slots[b];
        slot.home in g.used && Settles(g.used[slot.home], ps, slot, b, g.flights)
    {
      ReturnSettles(g, ps, t, b);
    }
    MoreFreeSame(g.used, r);
    ShiftKeeps(g, ps, from, to, 1, MoreFree(g.used, r), g.flights);
    assert ShortOk(g');
  }

  lemma MoreFreeSame(used: Spans, r: Ref)
    requires r in used
    ensures SameSpans(used, MoreFree(used, r))
  {}

  lemma ReturnCounts(g: Books, ps: nat, t: nat, r: Ref)
    requires CountsOk(g, ps) && Small(g, r) && At(g.lists, FlightKey(t)) != []
    ensures CountsOk(Returned(g, t, r), ps)
  {
    hide At, Moved, Relabelled, CountOk;
    var g' := Returned(g, t, r);
    forall q | Small(g', q) ensures CountOk(g'.used[q], At(g'.lists, SpanKey(q)), ps) {
      MovedAt(g.lists, FlightKey(t), SpanKey(r), 1, SpanKey(q));
      assert Small(g, q);
      if q == r { OneMoreFree(g.used[r], At(g.lists, SpanKey(r)), At(g.lists, FlightKey(t))[..1], ps); }
    }
  }

  lemma OneMoreFree(s: Span, list: seq<Addr>, one: seq<Addr>, ps: nat)
    requires CountOk(s, list, ps) && |one| == 1
    ensures CountOk(s.(freeCount := s.freeCount + 1), one + list, ps)
  {
    hide AllNodes, Tails;
    ShapeNode(s, s.(freeCount := s.freeCount + 1), ps, 0);
  }

  // ---- the end of a return ----

  function Landed(g: Books, t: nat): Books {
    g.(flights := g.flights - {t})
  }

  lemma LandKeeps(g: Books, ps: nat, t: nat)
    requires Kept(g, ps) && At(g.lists, FlightKey(t)) == []
    ensures Kept(Landed(g, t), ps)
  {
    hide SizesOk, CentralOk, HomesOk, NodesKnown, PlacesOk, CountsOk, Present, InPlace, Distinct, At, Settles,
      BatchNum, SizeOf;
    var g' := Landed(g, t);
    LandNodes(g, ps, t);
    assert CountsOk(g', ps) by { SpanListsSame(g, g', ps); }
    forall u | u in g'.flights ensures FlightOk(g', u) { assert FlightOk(g, u); }
    assert FlightsOk(g');
  }

  lemma LandNodes(g: Books, ps: nat, t: nat)
    requires Core(g, ps) && At(g.lists, FlightKey(t)) == []
    ensures SizesOk(Landed(g, t)) && CentralOk(Landed(g, t)) && HomesOk(Landed(g, t), ps)
    ensures NodesKnown(Landed(g, t), ps) && PlacesOk(Landed(g, t), ps)
  {
    hide SizesOk, CentralOk, HomesOk, NodesKnown, CountsOk, FlightsOk, InPlace, Distinct, At, IsWhole, IsNode, SizeOf;
    var g' := Landed(g, t);
    LandSameNodes(g, t);
    NodesSame(g, g', ps);
    forall b | b in g'.slots
      ensures g'.slots[b].home in g'.used && Settles(g'.used[g'.slots[b].home], ps, g'.slots[b], b, g'.flights)
    {
      PlacesSettle(g, ps, b);
      assert g.slots[b].at == FlightKey(t) ==> b in At(g.lists, FlightKey(t));
    }
    SettlesPlaces(g', ps);
  }

  lemma LandSameNodes(g: Books, t: nat)
    ensures SameNodes(g, Landed(g, t))
  {}
}
